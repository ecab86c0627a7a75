/** Finding the symbol at a text offset in the chunked symbol buffer of a scanned script. */
module SymbolSearch {
  import opened Common

  datatype Symbol = Symbol(offset: nat, length: nat, isEof: bool)
  type Chunk = seq<Symbol>

  datatype RelativePosition = NewSymbolBefore | BeginOfSymbol | MidOfSymbol | EndOfSymbol | NewSymbolAfter

  /** The symbol is given by its position in all chunks, and so is the previous one. */
  datatype LocationInfo = LocationInfo(
    textOffset: nat,
    symbolId: nat,
    previous: Option<nat>,
    position: RelativePosition,
    atEof: bool)

  function Flat(chunks: seq<Chunk>): (symbols: seq<Symbol>)
    decreases |chunks|
  {
    if chunks == [] then [] else Flat(chunks[..|chunks| - 1]) + chunks[|chunks| - 1]
  }

  lemma {:induction false} FlatOfPrefix(chunks: seq<Chunk>, k: nat)
    requires k <= |chunks|
    ensures Flat(chunks[..k]) <= Flat(chunks)
    decreases |chunks| - k
  {
    if k == |chunks| {
      assert chunks[..k] == chunks;
    } else {
      assert chunks[..k + 1][..k] == chunks[..k];
      FlatOfPrefix(chunks, k + 1);
    }
  }

  /** Where the symbols of a chunk are among all symbols. */
  lemma ChunkAt(chunks: seq<Chunk>, c: nat)
    requires c < |chunks|
    ensures |Flat(chunks[..c + 1])| == |Flat(chunks[..c])| + |chunks[c]| <= |Flat(chunks)|
    ensures forall i | 0 <= i < |chunks[c]| :: Flat(chunks)[|Flat(chunks[..c])| + i] == chunks[c][i]
  {
    assert chunks[..c + 1][..c] == chunks[..c];
    FlatOfPrefix(chunks, c + 1);
  }

  /** What the scanner produces: chunks that hold symbols, in the order of the text, with an end of
      file as the last symbol and only there. */
  ghost predicate Scanned(chunks: seq<Chunk>) {
    var symbols := Flat(chunks);
    && symbols != []
    && (forall c | 0 <= c < |chunks| :: chunks[c] != [])
    && (forall i, j | 0 <= i < j < |symbols| :: symbols[i].offset <= symbols[j].offset)
    && (forall i | 0 <= i < |symbols| :: symbols[i].isEof <==> i == |symbols| - 1)
  }

  // ----- the simple search -----

  /** The last symbol that starts at or before the offset, else the first symbol. */
  ghost predicate StartsLast(symbols: seq<Symbol>, offset: nat, i: nat) {
    && i < |symbols|
    && (i > 0 ==> symbols[i].offset <= offset)
    && forall j | i < j < |symbols| :: symbols[j].offset > offset
  }

  /** What a linear scan finds. */
  function LastStarting(symbols: seq<Symbol>, offset: nat): (i: nat)
    requires symbols != []
    ensures StartsLast(symbols, offset, i)
    decreases |symbols|
  {
    var last := |symbols| - 1;
    if last == 0 || symbols[last].offset <= offset then last
    else LastStarting(symbols[..last], offset)
  }

  lemma StartsLastIsUnique(symbols: seq<Symbol>, offset: nat, i: nat)
    requires symbols != [] && StartsLast(symbols, offset, i)
    ensures i == LastStarting(symbols, offset)
  {
    var j := LastStarting(symbols, offset);
    assert StartsLast(symbols, offset, j);
    assert forall k, l | StartsLast(symbols, offset, k) && StartsLast(symbols, offset, l) :: !(k < l);
  }

  /** The symbol before the end of file stands in for it. */
  function SteppedBack(symbols: seq<Symbol>, i: nat): nat
    requires i < |symbols|
  {
    if symbols[i].isEof && i > 0 then i - 1 else i
  }

  // ----- the relative position -----

  /** How an offset lies relative to a symbol. */
  ghost predicate Classifies(p: RelativePosition, offset: nat, s: Symbol) {
    match p
    case NewSymbolBefore => offset < s.offset
    case BeginOfSymbol => offset == s.offset
    case MidOfSymbol => s.offset < offset < s.offset + s.length
    case EndOfSymbol => s.offset < offset == s.offset + s.length
    case NewSymbolAfter => s.offset < offset && s.offset + s.length < offset
  }

  method RelativePositionOf(offset: nat, s: Symbol) returns (p: RelativePosition)
    ensures Classifies(p, offset, s)
    ensures forall q | Classifies(q, offset, s) :: q == p
  {
    var begin, end := s.offset, s.offset + s.length;
    if offset < begin {
      return NewSymbolBefore;
    }
    if offset == begin {
      return BeginOfSymbol;
    }
    if offset == end {
      return EndOfSymbol;
    }
    if offset > begin && offset < end {
      return MidOfSymbol;
    }
    return NewSymbolAfter;
  }

  // ----- the two-level search -----

  /** The first chunk that begins after the offset, with the number of symbols before it. */
  method FirstChunkAfter(chunks: seq<Chunk>, offset: nat) returns (chunk: nat, base: nat)
    requires forall c | 0 <= c < |chunks| :: chunks[c] != []
    ensures chunk <= |chunks| && base == |Flat(chunks[..chunk])|
    ensures forall c | 0 <= c < chunk :: chunks[c][0].offset <= offset
    ensures chunk < |chunks| ==> chunks[chunk][0].offset > offset
  {
    chunk, base := 0, 0;
    while chunk < |chunks|
      invariant chunk <= |chunks| && base == |Flat(chunks[..chunk])|
      invariant forall c | 0 <= c < chunk :: chunks[c][0].offset <= offset
    {
      if chunks[chunk][0].offset > offset {
        break;
      }
      assert chunks[..chunk + 1][..chunk] == chunks[..chunk];
      base := base + |chunks[chunk]|;
      chunk := chunk + 1;
    }
  }

  /** The first symbol of a chunk that starts after the offset. */
  method UpperBound(chunk: Chunk, offset: nat) returns (bound: nat)
    requires forall i, j | 0 <= i < j < |chunk| :: chunk[i].offset <= chunk[j].offset
    ensures bound <= |chunk|
    ensures forall i | 0 <= i < bound :: chunk[i].offset <= offset
    ensures forall i | bound <= i < |chunk| :: chunk[i].offset > offset
  {
    var lo, hi := 0, |chunk|;
    while lo < hi
      invariant 0 <= lo <= hi <= |chunk|
      invariant forall i | 0 <= i < lo :: chunk[i].offset <= offset
      invariant forall i | hi <= i < |chunk| :: chunk[i].offset > offset
    {
      var mid := lo + (hi - lo) / 2;
      if offset < chunk[mid].offset {
        hi := mid;
      } else {
        lo := mid + 1;
      }
    }
    bound := lo;
  }

  /** The position of a symbol in its chunk and among all symbols. */
  ghost predicate IsAt(chunks: seq<Chunk>, chunk: nat, local: nat, global: nat) {
    chunk < |chunks| && local < |chunks[chunk]| && global == |Flat(chunks[..chunk])| + local
  }

  lemma ChunkIsSorted(chunks: seq<Chunk>, c: nat)
    requires Scanned(chunks) && c < |chunks|
    ensures forall i, j | 0 <= i < j < |chunks[c]| :: chunks[c][i].offset <= chunks[c][j].offset
  {
    ChunkAt(chunks, c);
    var base, symbols := |Flat(chunks[..c])|, Flat(chunks);
    forall i, j | 0 <= i < j < |chunks[c]| ensures chunks[c][i].offset <= chunks[c][j].offset {
      assert symbols[base + i] == chunks[c][i] && symbols[base + j] == chunks[c][j];
    }
  }

  lemma BeyondChunk(chunks: seq<Chunk>, c: nat, offset: nat)
    requires Scanned(chunks) && c < |chunks| && (c + 1 < |chunks| ==> chunks[c + 1][0].offset > offset)
    ensures forall j | |Flat(chunks[..c + 1])| <= j < |Flat(chunks)| :: Flat(chunks)[j].offset > offset
  {
    if c + 1 < |chunks| {
      ChunkAt(chunks, c + 1);
      assert Flat(chunks)[|Flat(chunks[..c + 1])| + 0] == chunks[c + 1][0];
    } else {
      assert chunks[..c + 1] == chunks;
    }
  }

  lemma FrontsAscend(chunks: seq<Chunk>, c: nat)
    requires Scanned(chunks) && c + 1 < |chunks|
    ensures chunks[c][0].offset <= chunks[c + 1][0].offset
  {
    ChunkAt(chunks, c);
    ChunkAt(chunks, c + 1);
    assert Flat(chunks)[|Flat(chunks[..c])| + 0] == chunks[c][0]
             && Flat(chunks)[|Flat(chunks[..c + 1])| + 0] == chunks[c + 1][0];
  }

  /** The last symbol of the chunk before the first one that begins too late, found by binary search,
      is the one that a scan over all symbols finds. */
  lemma FoundStartsLast(chunks: seq<Chunk>, offset: nat, c: nat, bound: nat)
    requires c < |chunks| && chunks[c] != [] && bound <= |chunks[c]|
    requires c > 0 ==> chunks[c][0].offset <= offset
    requires forall j | |Flat(chunks[..c + 1])| <= j < |Flat(chunks)| :: Flat(chunks)[j].offset > offset
    requires forall i | 0 <= i < bound :: chunks[c][i].offset <= offset
    requires forall i | bound <= i < |chunks[c]| :: chunks[c][i].offset > offset
    ensures StartsLast(Flat(chunks), offset, |Flat(chunks[..c])| + if bound > 0 then bound - 1 else 0)
  {
    var base, size := |Flat(chunks[..c])|, |chunks[c]|;
    ChunkAt(chunks, c);
    if c == 0 { assert Flat(chunks[..0]) == []; }
    InChunk(Flat(chunks), chunks[c], base, offset, bound);
  }

  lemma InChunk(symbols: seq<Symbol>, chunk: Chunk, base: nat, offset: nat, bound: nat)
    requires base + |chunk| <= |symbols| && bound <= |chunk| && chunk != []
    requires forall i | 0 <= i < |chunk| :: symbols[base + i] == chunk[i]
    requires (base > 0 ==> chunk[0].offset <= offset) && forall i | 0 <= i < bound :: chunk[i].offset <= offset
    requires forall i | bound <= i < |chunk| :: chunk[i].offset > offset
    requires forall j | base + |chunk| <= j < |symbols| :: symbols[j].offset > offset
    ensures StartsLast(symbols, offset, base + if bound > 0 then bound - 1 else 0)
  {
    var local := if bound > 0 then bound - 1 else 0;
    assert symbols[base + local] == chunk[local];
    forall j | base + local < j < |symbols| ensures symbols[j].offset > offset {
      if j < base + |chunk| {
        assert symbols[base + (j - base)] == chunk[j - base];
      }
    }
  }

  /** The chunk before the first one that begins after the offset, or the first chunk. */
  method ChunkOf(chunks: seq<Chunk>, offset: nat) returns (chunk: nat, base: nat)
    requires Scanned(chunks)
    ensures chunk < |chunks| && base == |Flat(chunks[..chunk])|
    ensures chunk > 0 ==> chunks[chunk][0].offset <= offset
    ensures chunk + 1 < |chunks| ==> chunks[chunk + 1][0].offset > offset
  {
    chunk, base := FirstChunkAfter(chunks, offset);
    if chunk > 0 {
      chunk := chunk - 1;
      ChunkAt(chunks, chunk);
      base := base - |chunks[chunk]|;
    } else if 1 < |chunks| {
      FrontsAscend(chunks, 0);
    }
  }

  method SearchSymbol(chunks: seq<Chunk>, offset: nat) returns (chunk: nat, local: nat, global: nat)
    requires Scanned(chunks)
    ensures IsAt(chunks, chunk, local, global) && global == LastStarting(Flat(chunks), offset)
  {
    var base;
    chunk, base := ChunkOf(chunks, offset);
    ChunkIsSorted(chunks, chunk);
    var bound := UpperBound(chunks[chunk], offset);
    BeyondChunk(chunks, chunk, offset);
    FoundStartsLast(chunks, offset, chunk, bound);
    local := if bound > 0 then bound - 1 else 0;
    global := base + local;
    StartsLastIsUnique(Flat(chunks), offset, global);
  }

  /** The symbol that is reported as the previous one. In the first position of a chunk it is looked
      up in the previous chunk, at the position of the current symbol. */
  function Previous(chunks: seq<Chunk>, chunk: nat, local: nat): Option<nat>
    requires chunk < |chunks| && local < |chunks[chunk]|
  {
    if local > 0 then Some(|Flat(chunks[..chunk])| + local - 1)
    else if chunk > 0 then Some(|Flat(chunks[..chunk - 1])| + local)
    else None
  }

  /** The reported previous symbol is the one before exactly within a chunk, or if the previous chunk
      holds a single symbol; in the first position of a chunk it is the first of the previous chunk. */
  lemma PreviousIsBefore(chunks: seq<Chunk>, chunk: nat, local: nat, global: nat)
    requires Scanned(chunks) && IsAt(chunks, chunk, local, global)
    ensures Previous(chunks, chunk, local) == (if global > 0 then Some(global - 1) else None)
       <==> local > 0 || chunk == 0 || |chunks[chunk - 1]| == 1
    ensures local == 0 && chunk > 0 ==>
              Previous(chunks, chunk, local).Some? && IsAt(chunks, chunk - 1, 0, Previous(chunks, chunk, local).value)
  {
    if chunk > 0 {
      ChunkAt(chunks, chunk - 1);
    } else {
      assert chunks[..0] == [];
    }
  }

  const TwoChunks := [[Symbol(0, 1, false), Symbol(2, 1, false)], [Symbol(4, 1, false), Symbol(6, 0, true)]]

  /** In front of the third symbol, which begins the second chunk, is the second one; the first one is
      reported. */
  lemma WrongPrevious()
    ensures Scanned(TwoChunks) && IsAt(TwoChunks, 1, 0, 2) && Previous(TwoChunks, 1, 0) == Some(0)
  {
    var chunks := TwoChunks;
    assert chunks[..1] == [chunks[0]] && chunks[..1][..0] == [] && chunks[..2] == chunks;
    assert Flat(chunks[..0]) == [] && Flat(chunks[..1]) == chunks[0];
    assert Flat(chunks) == chunks[0] + chunks[1];
    assert forall c | 0 <= c < |chunks| :: chunks[c] == chunks[0] || chunks[c] == chunks[1];
  }

  method StepBack(chunks: seq<Chunk>, chunk: nat, local: nat, global: nat)
    returns (chunk': nat, local': nat, global': nat)
    requires Scanned(chunks) && IsAt(chunks, chunk, local, global) && global > 0
    ensures IsAt(chunks, chunk', local', global') && global' == global - 1
  {
    chunk', local', global' := chunk, local, global - 1;
    if local == 0 {
      assert Flat(chunks[..0]) == [];
      ChunkAt(chunks, chunk - 1);
      chunk' := chunk - 1;
      local' := |chunks[chunk']| - 1;
    } else {
      local' := local - 1;
    }
  }

  lemma EofIsLast(chunks: seq<Chunk>, chunk: nat, local: nat, global: nat)
    requires Scanned(chunks) && IsAt(chunks, chunk, local, global)
    ensures global < |Flat(chunks)| && Flat(chunks)[global] == chunks[chunk][local]
    ensures chunk == 0 ==> global == local
    ensures chunk > 0 ==> global > local
  {
    ChunkAt(chunks, chunk);
    if chunk == 0 {
      assert chunks[..0] == [];
    } else {
      ChunkAt(chunks, chunk - 1);
    }
  }

  /** Find the symbol at a text offset: the one a linear scan finds, stepped back once from the end
      of file when there is a symbol before it. */
  method FindSymbol(chunks: seq<Chunk>, textSize: nat, textOffset: nat) returns (info: LocationInfo)
    requires Scanned(chunks)
    ensures var symbols, end := Flat(chunks), if textSize < 2 then 0 else textSize - 2;
      var offset := if textOffset < end then textOffset else end;
      && info.symbolId == SteppedBack(symbols, LastStarting(symbols, offset))
      && info.atEof == (info.symbolId + 1 >= |symbols|)
      && (if symbols[0].isEof then info == LocationInfo(0, 0, None, NewSymbolBefore, true)
          else
            && info.textOffset == offset
            && Classifies(info.position, offset, symbols[info.symbolId])
            && !symbols[info.symbolId].isEof
            && exists c, l :: IsAt(chunks, c, l, info.symbolId) && info.previous == Previous(chunks, c, l))
  {
    var userTextEnd := (if textSize > 2 then textSize else 2) - 2;
    var offset := if textOffset < userTextEnd then textOffset else userTextEnd;
    var chunk, local, global := SearchSymbol(chunks, offset);
    EofIsLast(chunks, chunk, local, global);
    if chunks[chunk][local].isEof {
      if local == 0 && chunk == 0 {
        return LocationInfo(0, 0, None, NewSymbolBefore, true);
      }
      chunk, local, global := StepBack(chunks, chunk, local, global);
      EofIsLast(chunks, chunk, local, global);
    }
    var position := RelativePositionOf(offset, chunks[chunk][local]);
    var size := |Flat(chunks)|;
    info := LocationInfo(offset, global, Previous(chunks, chunk, local), position, global + 1 >= size);
  }
}
