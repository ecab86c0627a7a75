/** Counting the values of a column per bin: a group-by over the binned key, a left join that adds
    the bins without values, an ordering by bin, and the summary that the application derives. */
module BinnedCounts {
  import opened Common
  import opened Order
  import opened Ranking
  import opened Binning

  // ----- grouping and counting -----

  function CountOf(keys: seq<Value>, k: Value): nat {
    if keys == [] then 0 else CountOf(keys[..|keys| - 1], k) + if keys[|keys| - 1] == k then 1 else 0
  }

  lemma {:induction false} CountedIffPresent(keys: seq<Value>, k: Value)
    ensures CountOf(keys, k) > 0 <==> k in keys
    decreases |keys|
  {
    if keys != [] {
      CountedIffPresent(keys[..|keys| - 1], k);
      assert keys == keys[..|keys| - 1] + [keys[|keys| - 1]];
    }
  }

  /** Group by key and count the rows of every group. */
  method GroupAndCount(keys: seq<Value>) returns (groups: map<Value, nat>)
    ensures forall k :: k in groups <==> k in keys
    ensures forall k | k in groups :: groups[k] == CountOf(keys, k)
  {
    groups := map[];
    for i := 0 to |keys|
      invariant forall k :: k in groups <==> k in keys[..i]
      invariant forall k | k in groups :: groups[k] == CountOf(keys[..i], k)
    {
      assert keys[..i + 1] == keys[..i] + [keys[i]] && keys[..i + 1][..i] == keys[..i];
      forall k ensures CountOf(keys[..i + 1], k) == CountOf(keys[..i], k) + if k == keys[i] then 1 else 0 {}
      CountedIffPresent(keys[..i], keys[i]);
      groups := groups[keys[i] := (if keys[i] in groups then groups[keys[i]] else 0) + 1];
    }
    assert keys[..|keys|] == keys;
  }

  // ----- the bins without values -----

  datatype BinRow = BinRow(bin: nat, count: Option<nat>)

  /** Every bin with the count of its group, and with null when there is no such group. */
  function AllBins(groups: map<Value, nat>, count: nat): seq<BinRow> {
    seq(count, b requires 0 <= b < count => BinRow(b, if Int(b) in groups then Some(groups[Int(b)]) else None))
  }

  /** The left join of all bins with the groups; the rows may come in any order. */
  method JoinMissingBins(groups: map<Value, nat>, count: nat) returns (rows: seq<BinRow>)
    ensures multiset(rows) == multiset(AllBins(groups, count))
  {
    rows := [];
    var unmatched: seq<BinRow> := [];
    for b := 0 to count
      invariant multiset(rows) + multiset(unmatched) == multiset(AllBins(groups, count)[..b])
    {
      assert AllBins(groups, count)[..b + 1] == AllBins(groups, count)[..b] + [AllBins(groups, count)[b]];
      if Int(b) in groups {
        rows := rows + [BinRow(b, Some(groups[Int(b)]))];
      } else {
        unmatched := unmatched + [BinRow(b, None)];
      }
    }
    assert AllBins(groups, count)[..count] == AllBins(groups, count);
    rows := rows + unmatched;
  }

  ghost predicate InBinOrder(rows: seq<BinRow>) {
    forall i, j | 0 <= i < j < |rows| :: rows[i].bin <= rows[j].bin
  }

  method InsertByBin(row: BinRow, rows: seq<BinRow>) returns (more: seq<BinRow>)
    requires InBinOrder(rows)
    ensures InBinOrder(more) && multiset(more) == multiset(rows) + multiset{row}
  {
    var at := 0;
    while at < |rows| && rows[at].bin < row.bin
      invariant 0 <= at <= |rows| && forall j | 0 <= j < at :: rows[j].bin < row.bin
    {
      at := at + 1;
    }
    more := rows[..at] + [row] + rows[at..];
    InsertedOnce(rows, at, row);
  }

  /** Order the rows by bin; rows of one bin may come in any order. */
  method OrderByBin(rows: seq<BinRow>) returns (sorted: seq<BinRow>)
    ensures InBinOrder(sorted) && multiset(sorted) == multiset(rows)
  {
    sorted := [];
    for i := 0 to |rows|
      invariant InBinOrder(sorted) && multiset(sorted) == multiset(rows[..i])
    {
      assert rows[..i + 1] == rows[..i] + [rows[i]];
      sorted := InsertByBin(rows[i], sorted);
    }
    assert rows[..|rows|] == rows;
  }

  /** However the join and the sort order equal keys, the ordered rows are all bins, each once. */
  lemma OrderedRowsAreAllBins(rows: seq<BinRow>, groups: map<Value, nat>, count: nat)
    requires InBinOrder(rows) && multiset(rows) == multiset(AllBins(groups, count))
    ensures rows == AllBins(groups, count)
  {
    SortedByNumber(rows, AllBins(groups, count), (row: BinRow) => row.bin);
  }

  // ----- conservation of the counts -----

  function Total(rows: seq<BinRow>): nat {
    if rows == [] then 0
    else Total(rows[..|rows| - 1]) + rows[|rows| - 1].count.GetOr(0)
  }

  /** The number of keys below `count`. */
  function Below(keys: seq<Value>, count: nat): nat {
    if count == 0 then 0 else Below(keys, count - 1) + CountOf(keys, Int(count - 1))
  }

  function NotNull(values: seq<Value>): nat {
    if values == [] then 0 else NotNull(values[..|values| - 1]) + if values[|values| - 1].Null? then 0 else 1
  }

  /** Null, or the number of a bin. */
  predicate IsBin(k: Value, count: nat) { k.Null? || (k.Int? && 0 <= k.i < count) }

  lemma {:induction false} OneMoreBelow(keys: seq<Value>, k: Value, count: nat)
    ensures Below(keys + [k], count) == Below(keys, count) + if k.Int? && 0 <= k.i < count then 1 else 0
    decreases count
  {
    if count > 0 {
      OneMoreBelow(keys, k, count - 1);
      assert (keys + [k])[..|keys|] == keys;
    }
  }

  lemma {:induction false} AllKeysBelow(keys: seq<Value>, count: nat)
    requires forall i | 0 <= i < |keys| :: IsBin(keys[i], count)
    ensures Below(keys, count) == NotNull(keys)
    decreases |keys|
  {
    if keys == [] {
      NothingBelow(count);
    } else {
      var front, last := keys[..|keys| - 1], keys[|keys| - 1];
      AllKeysBelow(front, count);
      OneMoreBelow(front, last, count);
      assert keys == front + [last];
    }
  }

  lemma {:induction false} NothingBelow(count: nat)
    ensures Below([], count) == 0
  {
    if count > 0 { NothingBelow(count - 1); }
  }

  lemma {:induction false} TotalOfBins(keys: seq<Value>, groups: map<Value, nat>, count: nat)
    requires (forall k :: k in groups <==> k in keys) && forall k | k in groups :: groups[k] == CountOf(keys, k)
    ensures Total(AllBins(groups, count)) == Below(keys, count)
    decreases count
  {
    if count > 0 {
      TotalOfBins(keys, groups, count - 1);
      assert AllBins(groups, count)[..count - 1] == AllBins(groups, count - 1);
      CountedIffPresent(keys, Int(count - 1));
    }
  }

  /** Row by row, the number of a bin and how often it occurs among the keys, null if it does not. */
  ghost predicate CountsBins(rows: seq<BinRow>, keys: seq<Value>) {
    forall b: nat | b < |rows| :: rows[b] == BinRow(b, if Int(b) in keys then Some(CountOf(keys, Int(b))) else None)
  }

  /** The binned group-by with the bins ordered: exactly one row per bin, with the number of its
      values or null; together the rows count every key that is not null. */
  method BinnedGroupBy(keys: seq<Value>, count: nat) returns (rows: seq<BinRow>)
    requires forall i | 0 <= i < |keys| :: IsBin(keys[i], count)
    ensures |rows| == count
    ensures CountsBins(rows, keys)
    ensures Total(rows) == NotNull(keys)
  {
    var groups := GroupAndCount(keys);
    rows := JoinMissingBins(groups, count);
    rows := OrderByBin(rows);
    OrderedRowsAreAllBins(rows, groups, count);
    TotalOfBins(keys, groups, count);
    AllKeysBelow(keys, count);
  }

  // ----- keys of a column -----

  /** The statistics hold the minimum and the maximum of the column, null if it has no values. */
  ghost predicate SummarizesInts(column: seq<Value>, min: Value, max: Value) {
    && (forall i | 0 <= i < |column| ::
         column[i].Null? || (column[i].Int? && min.Int? && max.Int? && min.i <= column[i].i <= max.i))
    && ((min.Null? && max.Null?) || (min.Int? && max.Int? && min in column && max in column))
  }

  ghost predicate SummarizesReals(column: seq<Value>, min: Value, max: Value) {
    && (forall i | 0 <= i < |column| ::
         column[i].Null? || (column[i].Real? && min.Real? && max.Real? && min.r <= column[i].r <= max.r))
    && ((min.Null? && max.Null?) || (min.Real? && max.Real? && min in column && max in column))
  }

  function KeysOf(column: seq<Value>, field: Name, expr: Expr): seq<Value> {
    seq(|column|, i requires 0 <= i < |column| => Evaluate(map[field := column[i]], expr))
  }

  /** With statistics of the same column, every value gets a bin and nulls stay null. */
  lemma ColumnKeys(column: seq<Value>, field: Name, kind: Kind, count: nat, stats: Statistics, minimum: Name,
                   maximum: Name, schema: map<Name, Option<Kind>>)
    requires count > 0 && BinField(schema, field, count, stats, minimum, maximum).Built? && schema[field] == Some(kind)
    requires var (min, max) := (stats.fields[minimum].1, stats.fields[maximum].1);
      if kind == Whole then SummarizesInts(column, min, max) else SummarizesReals(column, min, max)
    ensures var keys :=
              KeysOf(column, field, BinKey(BinField(schema, field, count, stats, minimum, maximum).expr, count));
      && (forall i | 0 <= i < |column| :: IsBin(keys[i], count) && (keys[i].Null? <==> column[i].Null?))
      && NotNull(keys) == NotNull(column)
  {
    var expr := BinField(schema, field, count, stats, minimum, maximum).expr;
    var keys := KeysOf(column, field, BinKey(expr, count));
    var (min, max) := (stats.fields[minimum].1, stats.fields[maximum].1);
    forall i | 0 <= i < |column| ensures IsBin(keys[i], count) && (keys[i].Null? <==> column[i].Null?) {
      var row: Row := map[field := column[i]];
      if min.Null? {
        NullKey(field, Metadata(kind, min, Null), count, row);
      } else if kind == Whole {
        WholeKey(schema, field, count, stats, minimum, maximum, row);
        if column[i].Int? { WholeBinCharacterized(column[i].i, min.i, max.i, count, 0); }
      } else {
        FractionalKey(schema, field, count, stats, minimum, maximum, row);
        if column[i].Real? {
          RealQuotientAtLeast(column[i].r - min.r, FractionalWidth(min.r, max.r, count), 0);
        }
      }
    }
    SameNulls(keys, column);
  }

  lemma NullKey(field: Name, m: Metadata, count: nat, row: Row)
    requires count > 0 && field in row && m.min.Null? && m.width.Null? && row[field].Null?
    ensures Evaluate(row, BinKey(FractionalBinExpr(field, m), count)) == Null
  {
    FractionalBinOf(field, m, row);
    KeyOf(FractionalBinExpr(field, m), count, row);
  }

  lemma {:induction false} SameNulls(a: seq<Value>, b: seq<Value>)
    requires |a| == |b| && forall i | 0 <= i < |a| :: a[i].Null? <==> b[i].Null?
    ensures NotNull(a) == NotNull(b)
    decreases |a|
  {
    if a != [] { SameNulls(a[..|a| - 1], b[..|b| - 1]); }
  }

  // ----- the summary of a column -----

  datatype Analysis = Analysis(countNotNull: int, countNull: int, binCount: nat, percentages: seq<real>)

  function Share(count: Option<nat>, total: nat): real {
    if total == 0 then 0.0 else (count.GetOr(0) as real) / (total as real)
  }

  function Shares(rows: seq<BinRow>, total: nat): seq<real> {
    seq(|rows|, i requires 0 <= i < |rows| => Share(rows[i].count, total))
  }

  /** The application's summary of a binned column. */
  method AnalyzeOrdinalColumn(totalCount: Option<nat>, notNullCount: Option<nat>, rows: seq<BinRow>)
    returns (a: Analysis)
    ensures var total := totalCount.GetOr(0); var notNull := notNullCount.GetOr(0);
      && a.countNotNull == notNull && a.countNull == total - notNull && a.binCount == |rows|
      && a.percentages == Shares(rows, total)
  {
    var total: nat := totalCount.GetOr(0);
    var notNull: int := notNullCount.GetOr(0);
    var percentages: seq<real> := [];
    for i := 0 to |rows|
      invariant percentages == Shares(rows, total)[..i]
    {
      var binCount := rows[i].count.GetOr(0);
      var percentage := if total == 0 then 0.0 else (binCount as real) / (total as real);
      percentages := percentages + [percentage];
    }
    a := Analysis(notNull, total - notNull, |rows|, percentages);
  }

  function SumOf(rs: seq<real>): real {
    if rs == [] then 0.0 else SumOf(rs[..|rs| - 1]) + rs[|rs| - 1]
  }

  /** Bin by bin, in the order of the bins, the share of the total is the count of that bin. */
  ghost predicate SharesOf(shares: seq<real>, rows: seq<BinRow>, total: nat) {
    |shares| == |rows| && forall b | 0 <= b < |rows| ::
      shares[b] * (total as real) == (if rows[b].count.Some? then rows[b].count.value else 0) as real
  }

  lemma SharesOfBins(rows: seq<BinRow>, total: nat)
    requires total > 0
    ensures SharesOf(Shares(rows, total), rows, total)
  {
    forall b | 0 <= b < |rows| ensures Shares(rows, total)[b] * (total as real) == rows[b].count.GetOr(0) as real {
      ShareOfTotal(rows[b].count, total, 0.0);
    }
  }

  /** The shares of a total add up to a count. */
  ghost predicate AddUpTo(shares: seq<real>, total: nat, count: nat) {
    SumOf(shares) * (total as real) == count as real
  }

  lemma ShareOfTotal(count: Option<nat>, total: nat, others: real)
    requires total > 0
    ensures (others + Share(count, total)) * (total as real) == others * (total as real) + count.GetOr(0) as real
  {
    var c := count.GetOr(0) as real;
    assert Share(count, total) == c / (total as real);
    assert (c / (total as real)) * (total as real) == c;
  }

  lemma {:induction false} SharesAddUp(rows: seq<BinRow>, total: nat)
    requires total > 0
    ensures AddUpTo(Shares(rows, total), total, Total(rows))
    decreases |rows|
  {
    if rows != [] {
      var last := |rows| - 1;
      SharesAddUp(rows[..last], total);
      assert Shares(rows, total)[..last] == Shares(rows[..last], total);
      ShareOfTotal(rows[last].count, total, SumOf(Shares(rows[..last], total)));
    }
  }

  /** Binning, grouping and summarizing a column accounts for every row: the bin counts and the null
      count add up to the number of rows, and the shares to the share of values that are not null. */
  method SummarizeColumn(column: seq<Value>, field: Name, kind: Kind, count: nat, stats: Statistics, minimum: Name,
                         maximum: Name, schema: map<Name, Option<Kind>>)
    returns (rows: seq<BinRow>, a: Analysis)
    requires count > 0 && BinField(schema, field, count, stats, minimum, maximum).Built? && schema[field] == Some(kind)
    requires var (min, max) := (stats.fields[minimum].1, stats.fields[maximum].1);
      if kind == Whole then SummarizesInts(column, min, max) else SummarizesReals(column, min, max)
    ensures |rows| == a.binCount == count
    ensures var key := BinKey(BinField(schema, field, count, stats, minimum, maximum).expr, count);
      CountsBins(rows, KeysOf(column, field, key))
    ensures Total(rows) == a.countNotNull == NotNull(column) && Total(rows) + a.countNull == |column|
    ensures column != [] ==> SharesOf(a.percentages, rows, |column|) && AddUpTo(a.percentages, |column|, Total(rows))
    ensures column == [] ==> forall b | 0 <= b < |a.percentages| :: a.percentages[b] == 0.0
  {
    ColumnKeys(column, field, kind, count, stats, minimum, maximum, schema);
    var expr := BinKey(BinField(schema, field, count, stats, minimum, maximum).expr, count);
    rows, a := SummarizeKeys(KeysOf(column, field, expr), NotNull(column), count);
  }

  method SummarizeKeys(keys: seq<Value>, notNull: nat, count: nat) returns (rows: seq<BinRow>, a: Analysis)
    requires notNull == NotNull(keys) && forall i | 0 <= i < |keys| :: IsBin(keys[i], count)
    ensures |rows| == a.binCount == count && CountsBins(rows, keys)
    ensures Total(rows) == a.countNotNull == notNull && Total(rows) + a.countNull == |keys|
    ensures keys != [] ==> SharesOf(a.percentages, rows, |keys|) && AddUpTo(a.percentages, |keys|, Total(rows))
    ensures keys == [] ==> forall b | 0 <= b < |a.percentages| :: a.percentages[b] == 0.0
  {
    rows := BinnedGroupBy(keys, count);
    a := AnalyzeOrdinalColumn(Some(|keys|), Some(notNull), rows);
    assert a.countNotNull == Total(rows);
    if keys != [] {
      SharesAddUp(rows, |keys|);
      SharesOfBins(rows, |keys|);
    }
  }
}
