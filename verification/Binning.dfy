/** Binning a column into equally wide bins: the expressions that are built, what they evaluate to,
    and the bounds of the bins. Integers are unbounded and reals are exact. */
module Binning {
  import opened Common
  import opened Order

  datatype Kind = Whole | Fractional
  datatype Value = Null | Int(i: int) | Real(r: real) | Bool(b: bool) | Text(s: string) | Failed

  datatype Expr =
    | Col(name: Name)
    | Lit(value: Value)
    | Minus(left: Expr, right: Expr)
    | Plus(left: Expr, right: Expr)
    | Times(left: Expr, right: Expr)
    | Divide(left: Expr, right: Expr)
    | GreaterEqual(left: Expr, right: Expr)
    | Cast(inner: Expr, kind: Kind)
    | Floor(inner: Expr)
    | ToBin(inner: Expr)
    | Case(condition: Expr, result: Expr, otherwise: Expr)

  type Row = map<Name, Value>

  /** Arithmetic on two numbers of one kind; null makes null. */
  function Subtract(l: Value, r: Value): Value {
    if l.Null? || r.Null? then Null
    else if l.Int? && r.Int? then Int(l.i - r.i)
    else if l.Real? && r.Real? then Real(l.r - r.r)
    else Failed
  }

  function Add(l: Value, r: Value): Value {
    if l.Null? || r.Null? then Null
    else if l.Int? && r.Int? then Int(l.i + r.i)
    else if l.Real? && r.Real? then Real(l.r + r.r)
    else Failed
  }

  function Multiply(l: Value, r: Value): Value {
    if l.Null? || r.Null? then Null
    else if l.Int? && r.Int? then Int(l.i * r.i)
    else if l.Real? && r.Real? then Real(l.r * r.r)
    else Failed
  }

  function Quotient(l: Value, r: Value): Value {
    if l.Null? || r.Null? then Null
    else if l.Real? && r.Real? && r.r != 0.0 then Real(l.r / r.r)
    else Failed
  }

  function Converted(v: Value, kind: Kind): Value {
    if v.Int? && kind == Fractional then Real(v.i as real) else v
  }

  function Evaluate(row: Row, e: Expr): Value {
    match e
    case Col(name) => if name in row then row[name] else Failed
    case Lit(v) => v
    case Minus(l, r) => Subtract(Evaluate(row, l), Evaluate(row, r))
    case Plus(l, r) => Add(Evaluate(row, l), Evaluate(row, r))
    case Times(l, r) => Multiply(Evaluate(row, l), Evaluate(row, r))
    case Divide(l, r) => Quotient(Evaluate(row, l), Evaluate(row, r))
    case GreaterEqual(l, r) =>
      var (a, b) := (Evaluate(row, l), Evaluate(row, r));
      if a.Null? || b.Null? then Null else if a.Int? && b.Int? then Bool(a.i >= b.i) else Failed
    case Cast(inner, kind) => Converted(Evaluate(row, inner), kind)
    case Floor(inner) =>
      var v := Evaluate(row, inner);
      if v.Real? then Real(v.r.Floor as real) else if v.Null? then Null else Failed
    case ToBin(inner) =>
      var v := Evaluate(row, inner);
      if v.Null? then Null else if v.Real? && v.r >= 0.0 then Int(v.r.Floor) else Failed
    case Case(condition, result, otherwise) =>
      if Evaluate(row, condition) == Bool(true) then Evaluate(row, result) else Evaluate(row, otherwise)
  }

  // ----- building the expressions -----

  /** Integer division that truncates toward zero. */
  function Truncated(a: int, b: int): int
    requires b > 0
  {
    if a >= 0 then a / b else -((-a) / b)
  }

  function Abs(a: int): nat { if a < 0 then -a else a }

  function Max1(n: nat): nat { if n == 0 then 1 else n }

  /** The width of a bin over whole numbers. */
  function WholeWidth(min: int, max: int, count: nat): int {
    var w := Truncated(max - min, Max1(count));
    if w == 0 then 1 else Abs(w)
  }

  function FractionalWidth(min: real, max: real, count: nat): real {
    var w := (max - min) / (Max1(count) as real);
    if w == 0.0 then 1.0 else if w < 0.0 then -w else w
  }

  function WidthOf(kind: Kind, min: Value, max: Value, count: nat): Value {
    if min.Null? || max.Null? then Null
    else if kind == Whole && min.Int? && max.Int? then Int(WholeWidth(min.i, max.i, count))
    else if kind == Fractional && min.Real? && max.Real? then Real(FractionalWidth(min.r, max.r, count))
    else Failed
  }

  /** The statistics frame: its number of rows, and the kind and the value of each of its fields. */
  datatype Statistics = Statistics(rows: nat, fields: map<Name, (Kind, Value)>)

  datatype BinError =
    | StatisticsRows
    | UnknownKey
    | UnknownMinimum
    | UnknownMaximum
    | MinimumKind
    | MaximumKind
    | UnknownPreBinned
    | PreBinnedKind
  datatype Metadata = Metadata(kind: Kind, min: Value, width: Value)
  datatype Binned = Built(expr: Expr, metadata: Metadata) | Rejected(error: BinError)

  /** The fractional bin of a field, and what is needed to describe the bins. */
  function BinField(schema: map<Name, Option<Kind>>, field: Name, count: nat, stats: Statistics, minimum: Name,
                    maximum: Name): Binned {
    if stats.rows != 1 then Rejected(StatisticsRows)
    else if field !in schema then Rejected(UnknownKey)
    else if minimum !in stats.fields then Rejected(UnknownMinimum)
    else if maximum !in stats.fields then Rejected(UnknownMaximum)
    else if schema[field] != Some(stats.fields[minimum].0) then Rejected(MinimumKind)
    else if schema[field] != Some(stats.fields[maximum].0) then Rejected(MaximumKind)
    else
      var kind := schema[field].value;
      var (min, max) := (stats.fields[minimum].1, stats.fields[maximum].1);
      var width := WidthOf(kind, min, max, count);
      var metadata := Metadata(kind, min, width);
      Built(FractionalBinExpr(field, metadata), metadata)
  }

  /** A bin can be built exactly if there is one row of statistics, which has a minimum and a maximum of
      the kind of the column; otherwise the first of these that fails is reported. */
  lemma BinFieldOutcome(schema: map<Name, Option<Kind>>, field: Name, count: nat, stats: Statistics, minimum: Name,
                        maximum: Name)
    ensures var b := BinField(schema, field, count, stats, minimum, maximum);
      var known := stats.rows == 1 && field in schema;
      var both := known && minimum in stats.fields && maximum in stats.fields;
      && (b == Rejected(StatisticsRows) <==> stats.rows != 1)
      && (b == Rejected(UnknownKey) <==> stats.rows == 1 && field !in schema)
      && (b == Rejected(UnknownMinimum) <==> known && minimum !in stats.fields)
      && (b == Rejected(UnknownMaximum) <==> known && minimum in stats.fields && maximum !in stats.fields)
      && (b == Rejected(MinimumKind) <==> both && schema[field] != Some(stats.fields[minimum].0))
      && (b.Built? <==>
            both && schema[field] == Some(stats.fields[minimum].0) && schema[field] == Some(stats.fields[maximum].0))
      && (b.Rejected? ==>
           b.error in {StatisticsRows, UnknownKey, UnknownMinimum, UnknownMaximum, MinimumKind, MaximumKind})
      && (b.Built? ==> b.metadata.kind == stats.fields[minimum].0 && b.metadata.min == stats.fields[minimum].1)
  {
  }

  /** Values at the upper bound belong to the last bin. */
  function ClampBin(bin: Expr, count: nat): Expr
    requires count != 0
  {
    Case(GreaterEqual(bin, Lit(Int(count))), Lit(Int(count - 1)), bin)
  }

  /** The grouping key: the fractional bin, floored and clamped. */
  function BinKey(fractional: Expr, count: nat): Expr
    requires count != 0
  {
    ClampBin(ToBin(Floor(fractional)), count)
  }

  /** How a grouping key is binned; a column that already holds the fractional bin can be named. */
  datatype KeyBinning = KeyBinning(count: nat, minimum: Name, maximum: Name, preBinned: Option<Name>)

  /** The fractional bin that a group-by uses: the named column, if there is one, which must be
      fractional; the bin is built in any case, for its errors and for the bounds. */
  function GroupedBin(schema: map<Name, Option<Kind>>, field: Name, binning: KeyBinning, stats: Statistics): Binned {
    var built := BinField(schema, field, binning.count, stats, binning.minimum, binning.maximum);
    if built.Rejected? || binning.preBinned.None? then built
    else if binning.preBinned.value !in schema then Rejected(UnknownPreBinned)
    else if schema[binning.preBinned.value] != Some(Fractional) then Rejected(PreBinnedKind)
    else Built(Col(binning.preBinned.value), built.metadata)
  }

  /** A group-by takes the named bin column if it holds fractional numbers, and fails without one; if none
      is named, it bins the column itself. In every case the column must have a bin. */
  lemma GroupedBinOutcome(schema: map<Name, Option<Kind>>, field: Name, binning: KeyBinning, stats: Statistics)
    ensures var own := BinField(schema, field, binning.count, stats, binning.minimum, binning.maximum);
      var b, named := GroupedBin(schema, field, binning, stats), binning.preBinned;
      && (own.Rejected? || named.None? ==> b == own)
      && (own.Built? && named.Some? ==>
            && (b.Built? <==> named.value in schema && schema[named.value] == Some(Fractional))
            && (b.Built? ==> b.expr == Col(named.value) && b.metadata == own.metadata)
            && (b == Rejected(UnknownPreBinned) <==> named.value !in schema)
            && (b.Rejected? ==> b.error in {UnknownPreBinned, PreBinnedKind}))
  {
  }

  lemma SameBinClamped(row: Row, bin: Expr, row': Row, bin': Expr, count: nat)
    requires count > 0 && Evaluate(row, bin) == Evaluate(row', bin')
    ensures Evaluate(row, ClampBin(bin, count)) == Evaluate(row', ClampBin(bin', count))
  {
    var limit := Lit(Int(count));
    assert Evaluate(row, limit) == Evaluate(row', limit);
    assert Evaluate(row, GreaterEqual(bin, limit)) == Evaluate(row', GreaterEqual(bin', limit));
  }

  /** A key depends on nothing but the value of the fractional bin. */
  lemma SameBinSameKey(row: Row, bin: Expr, row': Row, bin': Expr, count: nat)
    requires count > 0 && Evaluate(row, bin) == Evaluate(row', bin')
    ensures Evaluate(row, BinKey(bin, count)) == Evaluate(row', BinKey(bin', count))
  {
    assert Evaluate(row, Floor(bin)) == Evaluate(row', Floor(bin'));
    SameBinClamped(row, ToBin(Floor(bin)), row', ToBin(Floor(bin')), count);
  }

  function LowerOffset(key: Name, m: Metadata): Expr { Times(Cast(Col(key), m.kind), Lit(m.width)) }
  function LowerBoundOf(key: Name, m: Metadata): Expr { Plus(Lit(m.min), LowerOffset(key, m)) }
  function UpperBoundOf(key: Name, m: Metadata): Expr { Plus(Lit(m.min), Plus(LowerOffset(key, m), Lit(m.width))) }

  // ----- whole numbers -----

  /** The bin of a value: its distance from the minimum in widths, at most the last bin. */
  function WholeBin(v: int, min: int, width: int, count: nat): int
    requires width > 0 && count > 0
  {
    var b := (v - min) / width;
    if b >= count then count - 1 else b
  }

  function WholeLower(b: int, min: int, width: int): int { min + b * width }

  lemma ScaledOrder(x: real, y: real, w: real)
    requires w > 0.0
    ensures x < y <==> x * w < y * w
  {
    assert (y - x) * w == y * w - x * w;
    if x < y { assert (y - x) * w > 0.0; }
    if x >= y { assert (x - y) * w >= 0.0; }
  }

  lemma FloorOfQuotient(a: int, w: int)
    requires w > 0
    ensures (a as real / w as real).Floor == a / w
  {
    var q, x, v := a / w, a as real / w as real, w as real;
    QuotientBounds(a, w);
    ProductAsReal(q, w);
    ProductAsReal(q + 1, w);
    QuotientTimes(a as real, v);
    ScaledOrder(x, q as real, v);
    ScaledOrder(x, (q + 1) as real, v);
    FloorBetween(x, q);
  }

  lemma QuotientBounds(a: int, w: int)
    requires w > 0
    ensures (a / w) * w <= a < (a / w + 1) * w
  {
  }

  lemma QuotientTimes(a: real, w: real)
    requires w > 0.0
    ensures (a / w) * w == a
  {
  }

  lemma FloorBetween(x: real, q: int)
    requires q as real <= x < (q + 1) as real
    ensures x.Floor == q
  {
  }

  lemma ProductAsReal(q: int, w: int)
    ensures (q as real) * (w as real) == (q * w) as real
  {
  }

  /** A quotient is at least `b` exactly when `b` widths fit. */
  lemma QuotientAtLeast(a: int, w: int, b: int)
    requires w > 0
    ensures a / w >= b <==> a >= b * w
  {
    var q := a / w;
    assert q * w <= a < q * w + w;
    if q >= b { assert q * w >= b * w; }
    if q < b { assert (q + 1) * w <= b * w; }
  }

  /** The fractional bin that BinField builds for this metadata. */
  function FractionalBinExpr(field: Name, m: Metadata): Expr {
    Divide(Cast(Minus(Col(field), Lit(m.min)), Fractional), Cast(Lit(m.width), Fractional))
  }

  lemma FractionalBinOf(field: Name, m: Metadata, row: Row)
    requires field in row
    ensures Evaluate(row, FractionalBinExpr(field, m))
         == Quotient(Converted(Subtract(row[field], m.min), Fractional), Converted(m.width, Fractional))
  {
    var offset, width := Minus(Col(field), Lit(m.min)), Lit(m.width);
    assert Evaluate(row, Col(field)) == row[field] && Evaluate(row, Lit(m.min)) == m.min;
    assert Evaluate(row, offset) == Subtract(row[field], m.min);
    assert Evaluate(row, Cast(offset, Fractional)) == Converted(Subtract(row[field], m.min), Fractional);
    assert Evaluate(row, Cast(width, Fractional)) == Converted(m.width, Fractional);
  }

  /** The key of a fractional bin: floored, and at most the last bin. */
  lemma KeyOf(fractional: Expr, count: nat, row: Row)
    requires count > 0
    ensures var v := Evaluate(row, fractional);
      && (v.Null? ==> Evaluate(row, BinKey(fractional, count)) == Null)
      && (v.Real? && v.r >= 0.0 ==>
           Evaluate(row, BinKey(fractional, count)) == Int(if v.r.Floor >= count then count - 1 else v.r.Floor))
  {
    var v, floored := Evaluate(row, fractional), Floor(fractional);
    var bin := ToBin(floored);
    if v.Real? && v.r >= 0.0 {
      assert Evaluate(row, floored) == Real(v.r.Floor as real);
      assert Evaluate(row, bin) == Int(v.r.Floor);
    }
    if v.Null? {
      assert Evaluate(row, floored) == Null && Evaluate(row, bin) == Null;
    }
    assert Evaluate(row, Lit(Int(count))) == Int(count) && Evaluate(row, Lit(Int(count - 1))) == Int(count - 1);
    assert Evaluate(row, GreaterEqual(bin, Lit(Int(count)))) == Null || Evaluate(row, bin).Int?
             || !(v.Null? || (v.Real? && v.r >= 0.0));
  }

  /** What the key expression evaluates to on a whole-number column. */
  lemma WholeKey(schema: map<Name, Option<Kind>>, field: Name, count: nat, stats: Statistics, minimum: Name,
                 maximum: Name, row: Row)
    requires count > 0 && BinField(schema, field, count, stats, minimum, maximum).Built?
    requires schema[field] == Some(Whole) && stats.fields[minimum].1.Int? && stats.fields[maximum].1.Int?
    requires field in row && (row[field].Null? || (row[field].Int? && row[field].i >= stats.fields[minimum].1.i))
    ensures var min := stats.fields[minimum].1.i; var width := WholeWidth(min, stats.fields[maximum].1.i, count);
      Evaluate(row, BinKey(BinField(schema, field, count, stats, minimum, maximum).expr, count))
      == (match row[field] case Int(v) => Int(WholeBin(v, min, width, count)) case _ => Null)
  {
    var min := stats.fields[minimum].1.i;
    var width := WholeWidth(min, stats.fields[maximum].1.i, count);
    var expr := BinField(schema, field, count, stats, minimum, maximum).expr;
    FractionalBinOf(field, Metadata(Whole, Int(min), Int(width)), row);
    KeyOf(expr, count, row);
    if row[field].Int? {
      var a := row[field].i - min;
      FloorOfQuotient(a, width);
      QuotientAtLeast(a, width, 0);
      assert a as real / width as real >= 0.0;
    }
  }

  /** Every value between minimum and maximum gets one of the bins. A value lies in bin `b` exactly
      when it lies within its bounds, where the last bin has no upper bound. */
  lemma WholeBinCharacterized(v: int, min: int, max: int, count: nat, b: int)
    requires count > 0 && min <= v <= max && 0 <= b < count
    ensures var w := WholeWidth(min, max, count);
      && 0 <= WholeBin(v, min, w, count) < count
      && (WholeBin(v, min, w, count) == b <==>
            WholeLower(b, min, w) <= v && (v < WholeLower(b + 1, min, w) || b == count - 1))
  {
    var w := WholeWidth(min, max, count);
    QuotientAtLeast(v - min, w, 0);
    QuotientAtLeast(v - min, w, b);
    QuotientAtLeast(v - min, w, b + 1);
    QuotientAtLeast(v - min, w, count);
  }

  lemma WholeBinIsMonotone(v: int, u: int, min: int, width: int, count: nat)
    requires count > 0 && width > 0 && v <= u
    ensures WholeBin(v, min, width, count) <= WholeBin(u, min, width, count)
  {
    QuotientAtLeast(u - min, width, (v - min) / width);
    QuotientAtLeast(v - min, width, (v - min) / width);
  }

  /** The bins together miss less than `count` values below the maximum; a value escapes its bin's
      upper bound exactly when it is at or above the upper bound of the last bin. */
  lemma WholeOverhang(v: int, min: int, max: int, count: nat)
    requires count > 0 && min <= v <= max
    ensures var w := WholeWidth(min, max, count);
      && max - WholeLower(count, min, w) < count
      && (v >= WholeLower(WholeBin(v, min, w, count) + 1, min, w) <==> v >= WholeLower(count, min, w))
  {
    var w := WholeWidth(min, max, count);
    BinsAlmostCover(max - min, count, w);
    var b := WholeBin(v, min, w, count);
    WholeBinCharacterized(v, min, max, count, b);
    if b < count - 1 { ScaledCounts(b + 1, count, w); }
  }

  /** Values escape, the maximum first, if and only if the range has at least as many whole numbers above
      the minimum as there are bins. */
  lemma MaximumEscapes(min: int, max: int, count: nat)
    requires count > 0 && min <= max
    ensures max >= WholeLower(count, min, WholeWidth(min, max, count)) <==> max - min >= count
  {
    var range, w := max - min, WholeWidth(min, max, count);
    if range >= count {
      QuotientAtLeast(range, count, 1);
      QuotientBounds(range, count);
      assert w == range / count;
      assert count * w == w * count;
    }
  }

  /** With bins 0 to 3 of width 2 above 0, the value 9 is in the last bin, which ends at 8. */
  lemma NineEscapes()
    ensures WholeWidth(0, 10, 4) == 2 && WholeBin(9, 0, 2, 4) == 3 && 9 >= WholeLower(WholeBin(9, 0, 2, 4) + 1, 0, 2)
  {
  }

  lemma BinsAlmostCover(range: nat, count: nat, w: int)
    requires count > 0 && w == WholeWidth(0, range, count)
    ensures range - count * w < count
  {
    var q := range / count;
    assert range - q * count < count;
    if q == 0 { assert count * w == count; }
  }

  lemma ScaledCounts(a: nat, b: nat, w: int)
    requires a <= b && w >= 0
    ensures a * w <= b * w
  {
    assert (b - a) * w >= 0;
  }

  /** The bounds that are computed for a bin: they adjoin, so the bins are contiguous. */
  lemma WholeBounds(key: Name, min: int, width: int, b: int, row: Row)
    requires key in row && row[key] == Int(b)
    ensures Evaluate(row, LowerBoundOf(key, Metadata(Whole, Int(min), Int(width)))) == Int(WholeLower(b, min, width))
    ensures Evaluate(row, UpperBoundOf(key, Metadata(Whole, Int(min), Int(width))))
              == Int(WholeLower(b + 1, min, width))
  {
    var m := Metadata(Whole, Int(min), Int(width));
    OffsetOf(key, m, row);
    assert (b + 1) * width == b * width + width;
  }

  lemma OffsetOf(key: Name, m: Metadata, row: Row)
    requires key in row
    ensures var offset := Multiply(Converted(row[key], m.kind), m.width);
      && Evaluate(row, LowerBoundOf(key, m)) == Add(m.min, offset)
      && Evaluate(row, UpperBoundOf(key, m)) == Add(m.min, Add(offset, m.width))
  {
    assert Evaluate(row, Cast(Col(key), m.kind)) == Converted(row[key], m.kind);
    assert Evaluate(row, LowerOffset(key, m)) == Multiply(Converted(row[key], m.kind), m.width);
    assert Evaluate(row, Plus(LowerOffset(key, m), Lit(m.width)))
             == Add(Multiply(Converted(row[key], m.kind), m.width), m.width);
  }

  // ----- fractional numbers -----

  function FractionalBin(v: real, min: real, width: real, count: nat): int
    requires width > 0.0 && count > 0
  {
    var b := ((v - min) / width).Floor;
    if b >= count then count - 1 else b
  }

  function FractionalLower(b: int, min: real, width: real): real { min + (b as real) * width }

  lemma RealQuotientAtLeast(a: real, w: real, b: int)
    requires w > 0.0
    ensures (a / w).Floor >= b <==> a >= (b as real) * w
  {
    var x := a / w;
    assert x * w == a;
    ScaledOrder(x, b as real, w);
  }

  lemma FractionalKey(schema: map<Name, Option<Kind>>, field: Name, count: nat, stats: Statistics, minimum: Name,
                      maximum: Name, row: Row)
    requires count > 0 && BinField(schema, field, count, stats, minimum, maximum).Built?
    requires schema[field] == Some(Fractional) && stats.fields[minimum].1.Real? && stats.fields[maximum].1.Real?
    requires field in row && (row[field].Null? || (row[field].Real? && row[field].r >= stats.fields[minimum].1.r))
    ensures var min := stats.fields[minimum].1.r; var width := FractionalWidth(min, stats.fields[maximum].1.r, count);
      && width > 0.0
      && Evaluate(row, BinKey(BinField(schema, field, count, stats, minimum, maximum).expr, count))
         == (match row[field] case Real(v) => Int(FractionalBin(v, min, width, count)) case _ => Null)
  {
    var min := stats.fields[minimum].1.r;
    var width := FractionalWidth(min, stats.fields[maximum].1.r, count);
    var expr := BinField(schema, field, count, stats, minimum, maximum).expr;
    FractionalBinOf(field, Metadata(Fractional, Real(min), Real(width)), row);
    KeyOf(expr, count, row);
    if row[field].Real? {
      RealQuotientAtLeast(row[field].r - min, width, 0);
    }
  }

  /** Over reals the last bin ends exactly at the maximum, so that only the maximum itself is not
      below the upper bound of its bin. */
  lemma FractionalBins(v: real, min: real, max: real, count: nat)
    requires count > 0 && min <= v <= max && min < max
    ensures var w := FractionalWidth(min, max, count); var b := FractionalBin(v, min, w, count);
      && w > 0.0
      && FractionalLower(count, min, w) == max
      && 0 <= b < count
      && FractionalLower(b, min, w) <= v
      && (v < FractionalLower(b + 1, min, w) <==> v < max)
  {
    var n := count as real;
    assert (max - min) / n * n == max - min;
    ScaledOrder(0.0, (max - min) / n, n);
    var w := FractionalWidth(min, max, count);
    assert w * n == max - min;
    var b := FractionalBin(v, min, w, count);
    RealQuotientAtLeast(v - min, w, 0);
    RealQuotientAtLeast(v - min, w, b);
    RealQuotientAtLeast(v - min, w, b + 1);
    RealQuotientAtLeast(v - min, w, count);
    if b + 1 < count { assert ((b + 1) as real) * w <= n * w; }
  }

  lemma FractionalBounds(key: Name, min: real, width: real, b: int, row: Row)
    requires key in row && row[key] == Int(b)
    ensures Evaluate(row, LowerBoundOf(key, Metadata(Fractional, Real(min), Real(width))))
              == Real(FractionalLower(b, min, width))
    ensures Evaluate(row, UpperBoundOf(key, Metadata(Fractional, Real(min), Real(width))))
              == Real(FractionalLower(b + 1, min, width))
  {
    OffsetOf(key, Metadata(Fractional, Real(min), Real(width)), row);
    assert ((b + 1) as real) * width == (b as real) * width + width;
  }

  lemma FractionalBinIsMonotone(v: real, u: real, min: real, width: real, count: nat)
    requires count > 0 && width > 0.0 && v <= u
    ensures FractionalBin(v, min, width, count) <= FractionalBin(u, min, width, count)
  {
    var b := ((v - min) / width).Floor;
    RealQuotientAtLeast(v - min, width, b);
    RealQuotientAtLeast(u - min, width, b);
  }
}
