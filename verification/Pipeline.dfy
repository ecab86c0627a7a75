/** Running the precomputation: row numbers, one sort and dense rank per identifier, a projection
    with the bins, and a sort by row number. Sorts are not assumed to be stable. */
module Pipeline {
  import opened Common
  import opened Order
  import opened Binning
  import opened Ranking
  import opened Precompute

  // ----- the order of values -----

  function KindRank(v: Value): nat {
    match v
    case Int(_) => 0
    case Real(_) => 1
    case Bool(_) => 2
    case Text(_) => 3
    case Failed => 4
    case Null => 5
  }

  /** Ascending, nulls last; the values of one column have one kind. */
  predicate ValueLess(a: Value, b: Value) {
    || KindRank(a) < KindRank(b)
    || (a.Int? && b.Int? && a.i < b.i)
    || (a.Real? && b.Real? && a.r < b.r)
    || (a.Bool? && b.Bool? && !a.b && b.b)
    || (a.Text? && b.Text? && NameLess(a.s, b.s))
  }

  lemma ValueLessTransitive(a: Value, b: Value, c: Value)
    requires ValueLess(a, b) && ValueLess(b, c)
    ensures ValueLess(a, c)
  {
    if a.Text? && b.Text? && c.Text? { NameLessTransitive(a.s, b.s, c.s); }
  }

  lemma ValueLessTotal(a: Value, b: Value)
    ensures !ValueLess(a, a) && (a == b || ValueLess(a, b) || ValueLess(b, a))
  {
    if a.Text? {
      NameLessIrreflexive(a.s);
      if b.Text? { NameLessTotal(a.s, b.s); }
    }
  }

  lemma ValuesAreOrdered()
    ensures StrictTotal(ValueLess)
  {
    forall x: Value, y: Value, z: Value | ValueLess(x, y) && ValueLess(y, z) ensures ValueLess(x, z) {
      ValueLessTransitive(x, y, z);
    }
    forall x: Value, y: Value ensures !ValueLess(x, x) && (x == y || ValueLess(x, y) || ValueLess(y, x)) {
      ValueLessTotal(x, y);
    }
  }

  /** The value of a field, null if the row does not have it. */
  function Get(row: Row, field: Name): Value { if field in row then row[field] else Null }

  function Column(rows: seq<Row>, field: Name): seq<Value> { Map((row: Row) => Get(row, field), rows) }

  ghost function Values(rows: seq<Row>, field: Name): set<Value> { Elements(Column(rows, field)) }

  /** Any sorted permutation will do. */
  method SortRows(rows: seq<Row>, field: Name) returns (sorted: seq<Row>)
    ensures NonDescending(ValueLess, Column(sorted, field)) && multiset(sorted) == multiset(rows)
  {
    ValuesAreOrdered();
    sorted := SortByKey(ValueLess, (row: Row) => Get(row, field), rows);
  }

  // ----- value identifiers -----

  ghost function Identified(values: set<Value>, v: ValueId, row: Row): Row {
    row[v.alias := Int(Rank(ValueLess, values, Get(row, v.field)))]
  }

  /** Every row with the identifier of its value, in the order of the rows. */
  ghost function WithIds(rows: seq<Row>, v: ValueId): (more: seq<Row>)
    ensures |more| == |rows|
  {
    var values := Values(rows, v.field);
    Map((row: Row) => Identified(values, v, row), rows)
  }

  lemma IdsOfPermutation(a: seq<Row>, b: seq<Row>, v: ValueId)
    requires multiset(a) == multiset(b)
    ensures multiset(WithIds(a, v)) == multiset(WithIds(b, v))
  {
    MapPermutation((row: Row) => Get(row, v.field), a, b);
    PermutationElements(Column(a, v.field), Column(b, v.field));
    assert Values(a, v.field) == Values(b, v.field);
    var values := Values(a, v.field);
    MapPermutation((row: Row) => Identified(values, v, row), a, b);
  }

  /** Sort by the field, then number the distinct values. */
  method AddValueId(rows: seq<Row>, v: ValueId) returns (ranked: seq<Row>)
    ensures multiset(ranked) == multiset(WithIds(rows, v))
  {
    ValuesAreOrdered();
    var sorted := SortRows(rows, v.field);
    IdsOfPermutation(rows, sorted, v);
    var ranks := DenseRanks(ValueLess, Column(sorted, v.field));
    ranked := [];
    for i := 0 to |sorted|
      invariant ranked == WithIds(sorted, v)[..i]
    {
      ranked := ranked + [sorted[i][v.alias := Int(ranks[i])]];
    }
    assert WithIds(sorted, v)[..|sorted|] == WithIds(sorted, v);
  }

  ghost function WithAllIds(rows: seq<Row>, ids: seq<ValueId>): (more: seq<Row>)
    ensures |more| == |rows|
    decreases |ids|
  {
    if ids == [] then rows else WithIds(WithAllIds(rows, ids[..|ids| - 1]), ids[|ids| - 1])
  }

  method AddValueIds(rows: seq<Row>, ids: seq<ValueId>) returns (ranked: seq<Row>)
    ensures multiset(ranked) == multiset(WithAllIds(rows, ids))
  {
    ranked := rows;
    for i := 0 to |ids|
      invariant multiset(ranked) == multiset(WithAllIds(rows, ids[..i]))
    {
      IdsOfPermutation(ranked, WithAllIds(rows, ids[..i]), ids[i]);
      ranked := AddValueId(ranked, ids[i]);
      assert ids[..i + 1][..i] == ids[..i];
    }
    assert ids[..|ids|] == ids;
  }

  // ----- row numbers -----

  function Numbered(rows: seq<Row>, alias: Name): seq<Row> {
    seq(|rows|, i requires 0 <= i < |rows| => rows[i][alias := Int(i + 1)])
  }

  method AddRowNumbers(rows: seq<Row>, alias: Name) returns (numbered: seq<Row>)
    ensures numbered == Numbered(rows, alias)
  {
    numbered := [];
    for i := 0 to |rows|
      invariant numbered == Numbered(rows, alias)[..i]
    {
      numbered := numbered + [rows[i][alias := Int(i + 1)]];
    }
  }

  // ----- bins -----

  datatype BinColumn = BinColumn(field: Name, metadata: Metadata, alias: Name)

  /** A row with its fractional bins. */
  function Projected(row: Row, bins: seq<BinColumn>): Row
    decreases |bins|
  {
    if bins == [] then row
    else
      var last := bins[|bins| - 1];
      Projected(row, bins[..|bins| - 1])[last.alias := Evaluate(row, FractionalBinExpr(last.field, last.metadata))]
  }

  method ProjectRow(row: Row, bins: seq<BinColumn>) returns (projected: Row)
    ensures projected == Projected(row, bins)
  {
    projected := row;
    for i := 0 to |bins|
      invariant projected == Projected(row, bins[..i])
    {
      assert bins[..i + 1][..i] == bins[..i];
      projected := projected[bins[i].alias := Evaluate(row, FractionalBinExpr(bins[i].field, bins[i].metadata))];
    }
    assert bins[..|bins|] == bins;
  }

  method AddBins(rows: seq<Row>, bins: seq<BinColumn>) returns (projected: seq<Row>)
    ensures projected == Map((row: Row) => Projected(row, bins), rows)
  {
    projected := [];
    for i := 0 to |rows|
      invariant projected == Map((row: Row) => Projected(row, bins), rows)[..i]
    {
      var row := ProjectRow(rows[i], bins);
      projected := projected + [row];
    }
    assert Map((row: Row) => Projected(row, bins), rows)[..|rows|] == Map((row: Row) => Projected(row, bins), rows);
  }

  function Build(b: BinTransform, schema: map<Name, Option<Kind>>, stats: Statistics): Binned {
    BinField(schema, b.field, b.count, stats, b.minimum, b.maximum)
  }

  /** The first bin that cannot be built fails with this error. */
  ghost predicate IsFirstRejection(bins: seq<BinTransform>, schema: map<Name, Option<Kind>>, stats: Statistics,
                                   error: BinError) {
    exists k :: 0 <= k < |bins| && Build(bins[k], schema, stats) == Rejected(error)
      && forall j | 0 <= j < k :: Build(bins[j], schema, stats).Built?
  }

  /** The bin columns of a transform, or why one of them is rejected. */
  method BuildBins(bins: seq<BinTransform>, schema: map<Name, Option<Kind>>, stats: Statistics)
    returns (columns: seq<BinColumn>, error: Option<BinError>)
    ensures error.None? <==> forall b | b in bins :: Build(b, schema, stats).Built?
    ensures error.Some? ==> IsFirstRejection(bins, schema, stats, error.value)
    ensures error.None? ==> |columns| == |bins| && forall i | 0 <= i < |bins| ::
              columns[i] == BinColumn(bins[i].field, Build(bins[i], schema, stats).metadata, bins[i].alias)
  {
    columns := [];
    for i := 0 to |bins|
      invariant forall j | 0 <= j < i :: Build(bins[j], schema, stats).Built?
      invariant |columns| == i && forall j | 0 <= j < i ::
                  columns[j] == BinColumn(bins[j].field, Build(bins[j], schema, stats).metadata, bins[j].alias)
    {
      var built := Build(bins[i], schema, stats);
      if built.Rejected? {
        return columns, Some(built.error);
      }
      columns := columns + [BinColumn(bins[i].field, built.metadata, bins[i].alias)];
    }
    error := None;
  }

  // ----- what the steps keep -----

  /** Adding identifiers keeps every other column. */
  lemma {:induction false} IdsKeepName(rows: seq<Row>, ids: seq<ValueId>, i: nat, n: Name)
    requires i < |rows| && forall j | 0 <= j < |ids| :: ids[j].alias != n
    ensures var row := WithAllIds(rows, ids)[i]; (n in row <==> n in rows[i]) && Get(row, n) == Get(rows[i], n)
    decreases |ids|
  {
    if ids != [] { IdsKeepName(rows, ids[..|ids| - 1], i, n); }
  }

  lemma IdsKeepValues(rows: seq<Row>, ids: seq<ValueId>, field: Name)
    requires forall j | 0 <= j < |ids| :: ids[j].alias != field
    ensures Values(WithAllIds(rows, ids), field) == Values(rows, field)
  {
    var more := WithAllIds(rows, ids);
    forall i | 0 <= i < |rows| ensures Get(more[i], field) == Get(rows[i], field) {
      IdsKeepName(rows, ids, i, field);
    }
    assert Column(more, field) == Column(rows, field);
  }

  /** An identifier is the dense rank of the row's value among all values of the column. */
  lemma {:induction false} IdsAreRanks(rows: seq<Row>, ids: seq<ValueId>, i: nat, j: nat)
    requires i < |rows| && j < |ids|
    requires forall k, l | 0 <= k < l < |ids| :: ids[k].alias != ids[l].alias
    requires forall k | 0 <= k < |ids| :: ids[k].alias != ids[j].field
    ensures var row := WithAllIds(rows, ids)[i];
      ids[j].alias in row
          && row[ids[j].alias] == Int(Rank(ValueLess, Values(rows, ids[j].field), Get(rows[i], ids[j].field)))
    decreases |ids|
  {
    var front, last := ids[..|ids| - 1], ids[|ids| - 1];
    if j == |ids| - 1 {
      IdsKeepName(rows, front, i, last.field);
      IdsKeepValues(rows, front, last.field);
    } else {
      IdsAreRanks(rows, front, i, j);
    }
  }

  /** The projection keeps every column and adds the fractional bins. */
  lemma {:induction false} BinsKeepName(row: Row, bins: seq<BinColumn>, n: Name)
    requires forall j | 0 <= j < |bins| :: bins[j].alias != n
    ensures (n in Projected(row, bins) <==> n in row) && Get(Projected(row, bins), n) == Get(row, n)
    decreases |bins|
  {
    if bins != [] { BinsKeepName(row, bins[..|bins| - 1], n); }
  }

  lemma {:induction false} BinsAreEvaluated(row: Row, bins: seq<BinColumn>, j: nat)
    requires j < |bins| && forall k, l | 0 <= k < l < |bins| :: bins[k].alias != bins[l].alias
    ensures bins[j].alias in Projected(row, bins)
    ensures Projected(row, bins)[bins[j].alias] == Evaluate(row, FractionalBinExpr(bins[j].field, bins[j].metadata))
    decreases |bins|
  {
    if j < |bins| - 1 { BinsAreEvaluated(row, bins[..|bins| - 1], j); }
  }

  // ----- the whole transform -----

  datatype Result = Done(rows: seq<Row>) | MissingStatistics | BinRejected(error: BinError)

  /** The rows have the columns of the schema, and the transform names columns of the schema. */
  ghost predicate Applies(t: Transform, schema: set<Name>, rows: seq<Row>) {
    && Fresh(t, schema)
    && (forall i | 0 <= i < |rows| :: rows[i].Keys == schema)
    && (forall v | v in t.valueIds :: v.field in schema)
    && (forall b | b in t.bins :: b.field in schema)
  }

  /** One row of the result: the original columns unchanged, its row number, one identifier per text
      or list column, and one fractional bin per ordinal column. */
  ghost predicate IsPrecomputed(rows: seq<Row>, i: nat, row: Row, t: Transform, bins: seq<BinColumn>)
    requires i < |rows|
  {
    && (forall n | n in rows[i] :: n in row && row[n] == rows[i][n])
    && (forall n | n in row :: n in rows[i] || n in Aliases(t))
    && (t.rowNumber in row && row[t.rowNumber] == Int(i + 1))
    && (forall j | 0 <= j < |t.valueIds| ::
          var v := t.valueIds[j];
          v.alias in row && row[v.alias] == Int(Rank(ValueLess, Values(rows, v.field), Get(rows[i], v.field))))
    && (forall j | 0 <= j < |bins| ::
          bins[j].alias in row
              && row[bins[j].alias] == Evaluate(rows[i], FractionalBinExpr(bins[j].field, bins[j].metadata)))
  }

  ghost predicate AreBinColumns(columns: seq<BinColumn>, bins: seq<BinTransform>, schema: map<Name, Option<Kind>>,
                                stats: Statistics) {
    |columns| == |bins| && forall i | 0 <= i < |bins| ::
      Build(bins[i], schema, stats).Built?
          && columns[i] == BinColumn(bins[i].field, Build(bins[i], schema, stats).metadata, bins[i].alias)
  }

  /** The generated names, one by one. */
  lemma FreshNames(t: Transform, schema: set<Name>)
    requires Fresh(t, schema)
    ensures t.rowNumber !in schema
    ensures forall j | 0 <= j < |t.valueIds| :: t.valueIds[j].alias !in schema && t.valueIds[j].alias != t.rowNumber
    ensures forall j | 0 <= j < |t.bins| :: t.bins[j].alias !in schema && t.bins[j].alias != t.rowNumber
    ensures forall j, k | 0 <= j < k < |t.valueIds| :: t.valueIds[j].alias != t.valueIds[k].alias
    ensures forall j, k | 0 <= j < k < |t.bins| :: t.bins[j].alias != t.bins[k].alias
    ensures forall j, k | 0 <= j < |t.valueIds| && 0 <= k < |t.bins| :: t.valueIds[j].alias != t.bins[k].alias
  {
    var all := Aliases(t);
    assert all[0] == t.rowNumber;
    forall j | 0 <= j < |t.valueIds| ensures all[1 + j] == t.valueIds[j].alias && all[1 + j] in all {}
    forall j | 0 <= j < |t.bins|
        ensures all[1 + |t.valueIds| + j] == t.bins[j].alias && all[1 + |t.valueIds| + j] in all {}
    assert all[0] in all;
  }

  /** What comes out before the last sort, in the order of the input. */
  ghost function Unsorted(rows: seq<Row>, t: Transform, bins: seq<BinColumn>): (more: seq<Row>)
    ensures |more| == |rows|
  {
    Map((row: Row) => Projected(row, bins), WithAllIds(Numbered(rows, t.rowNumber), t.valueIds))
  }

  /** Everything that is not generated passes through all the steps. */
  lemma NameKept(rows: seq<Row>, t: Transform, bins: seq<BinColumn>, i: nat, n: Name)
    requires i < |rows|
    requires forall j | 0 <= j < |t.valueIds| :: t.valueIds[j].alias != n
    requires forall j | 0 <= j < |bins| :: bins[j].alias != n
    ensures var numbered := Numbered(rows, t.rowNumber)[i]; var row := Unsorted(rows, t, bins)[i];
      (n in row <==> n in numbered) && Get(row, n) == Get(numbered, n)
  {
    var numbered := Numbered(rows, t.rowNumber);
    IdsKeepName(numbered, t.valueIds, i, n);
    BinsKeepName(WithAllIds(numbered, t.valueIds)[i], bins, n);
  }

  lemma NumberedKeepsValues(rows: seq<Row>, alias: Name, field: Name)
    requires alias != field
    ensures Values(Numbered(rows, alias), field) == Values(rows, field)
  {
    assert Column(Numbered(rows, alias), field) == Column(rows, field);
  }

  lemma IdComputed(rows: seq<Row>, t: Transform, bins: seq<BinColumn>, schema: set<Name>, i: nat, j: nat)
    requires Applies(t, schema, rows) && i < |rows| && j < |t.valueIds|
    requires forall k | 0 <= k < |bins| :: bins[k].alias != t.valueIds[j].alias
    ensures var v, row := t.valueIds[j], Unsorted(rows, t, bins)[i];
      v.alias in row && row[v.alias] == Int(Rank(ValueLess, Values(rows, v.field), Get(rows[i], v.field)))
  {
    var v, numbered := t.valueIds[j], Numbered(rows, t.rowNumber);
    assert v in t.valueIds;
    FreshNames(t, schema);
    IdsAreRanks(numbered, t.valueIds, i, j);
    NumberedKeepsValues(rows, t.rowNumber, v.field);
    BinsKeepName(WithAllIds(numbered, t.valueIds)[i], bins, v.alias);
  }

  lemma BinComputed(rows: seq<Row>, t: Transform, bins: seq<BinColumn>, schema: set<Name>, i: nat, j: nat)
    requires Applies(t, schema, rows) && i < |rows| && j < |bins|
    requires bins[j].field in schema && forall k, l | 0 <= k < l < |bins| :: bins[k].alias != bins[l].alias
    ensures var b, row := bins[j], Unsorted(rows, t, bins)[i];
      b.alias in row && row[b.alias] == Evaluate(rows[i], FractionalBinExpr(b.field, b.metadata))
  {
    var b, numbered := bins[j], Numbered(rows, t.rowNumber);
    var row := WithAllIds(numbered, t.valueIds)[i];
    FreshNames(t, schema);
    IdsKeepName(numbered, t.valueIds, i, b.field);
    BinsAreEvaluated(row, bins, j);
    FractionalBinOf(b.field, b.metadata, row);
    FractionalBinOf(b.field, b.metadata, rows[i]);
  }

  lemma NothingElseAdded(rows: seq<Row>, t: Transform, bins: seq<BinColumn>, i: nat, n: Name)
    requires i < |rows| && n in Unsorted(rows, t, bins)[i] && n !in rows[i]
    requires |bins| == |t.bins| && forall j | 0 <= j < |bins| :: bins[j].alias == t.bins[j].alias
    ensures n in Aliases(t)
  {
    if n !in Aliases(t) {
      var all := Aliases(t);
      assert all[0] == t.rowNumber;
      forall j | 0 <= j < |t.valueIds| ensures t.valueIds[j].alias != n { assert all[1 + j] == t.valueIds[j].alias; }
      forall j | 0 <= j < |bins| ensures bins[j].alias != n { assert all[1 + |t.valueIds| + j] == t.bins[j].alias; }
      NameKept(rows, t, bins, i, n);
    }
  }

  lemma UnsortedIsPrecomputed(rows: seq<Row>, t: Transform, bins: seq<BinColumn>, schema: map<Name, Option<Kind>>,
                              stats: Statistics, i: nat)
    requires Applies(t, schema.Keys, rows) && i < |rows| && AreBinColumns(bins, t.bins, schema, stats)
    ensures IsPrecomputed(rows, i, Unsorted(rows, t, bins)[i], t, bins)
  {
    var row := Unsorted(rows, t, bins)[i];
    FreshNames(t, schema.Keys);
    forall n | n in rows[i] ensures n in row && row[n] == rows[i][n] {
      assert n in schema.Keys;
      NameKept(rows, t, bins, i, n);
    }
    NameKept(rows, t, bins, i, t.rowNumber);
    forall n | n in row && n !in rows[i] ensures n in Aliases(t) {
      NothingElseAdded(rows, t, bins, i, n);
    }
    forall j | 0 <= j < |t.valueIds|
      ensures var v := t.valueIds[j];
                v.alias in row && row[v.alias] == Int(Rank(ValueLess, Values(rows, v.field), Get(rows[i], v.field)))
    {
      IdComputed(rows, t, bins, schema.Keys, i, j);
    }
    forall j | 0 <= j < |bins|
      ensures bins[j].alias in row
      ensures row[bins[j].alias] == Evaluate(rows[i], FractionalBinExpr(bins[j].field, bins[j].metadata))
    {
      assert t.bins[j] in t.bins;
      BinComputed(rows, t, bins, schema.Keys, i, j);
    }
  }

  function NumberOf(row: Row, alias: Name): int {
    var v := Get(row, alias);
    if v.Int? then v.i - 1 else 0
  }

  /** Sorting by row number restores the order of the input, whatever the earlier sorts did. */
  lemma SortRestoresOrder(sorted: seq<Row>, unsorted: seq<Row>, alias: Name)
    requires multiset(sorted) == multiset(unsorted) && NonDescending(ValueLess, Column(sorted, alias))
    requires forall i | 0 <= i < |unsorted| :: Get(unsorted[i], alias) == Int(i + 1)
    ensures sorted == unsorted
  {
    PermutationElements(sorted, unsorted);
    forall i | 0 <= i < |sorted| ensures Get(sorted[i], alias).Int? {
      assert sorted[i] in Elements(unsorted);
    }
    forall i, j | 0 <= i < j < |sorted| ensures NumberOf(sorted[i], alias) <= NumberOf(sorted[j], alias) {
      assert !ValueLess(Column(sorted, alias)[j], Column(sorted, alias)[i]);
    }
    SortedByNumber(sorted, unsorted, (row: Row) => NumberOf(row, alias));
  }

  /** Run the precomputation. The result holds the input rows in their original order, with every
      original column unchanged and the generated columns added. */
  method RunTransform(rows: seq<Row>, schema: map<Name, Option<Kind>>, t: Transform, stats: Option<Statistics>)
    returns (result: Result, bins: seq<BinColumn>)
    requires Applies(t, schema.Keys, rows)
    ensures result == MissingStatistics <==> t.bins != [] && stats.None?
    ensures result.BinRejected? ==> stats.Some? && IsFirstRejection(t.bins, schema, stats.value, result.error)
    ensures result.Done? <==>
              t.bins == [] || (stats.Some? && forall b | b in t.bins :: Build(b, schema, stats.value).Built?)
    ensures result.Done? ==> |result.rows| == |rows| && forall i | 0 <= i < |rows| ::
              IsPrecomputed(rows, i, result.rows[i], t, bins)
    ensures result.Done? && t.bins != [] ==> AreBinColumns(bins, t.bins, schema, stats.value)
  {
    bins := [];
    var columns: seq<BinColumn> := [];
    var current := AddRowNumbers(rows, t.rowNumber);
    current := AddValueIds(current, t.valueIds);
    if t.bins != [] {
      if stats.None? {
        return MissingStatistics, bins;
      }
      var error;
      columns, error := BuildBins(t.bins, schema, stats.value);
      if error.Some? {
        return BinRejected(error.value), bins;
      }
      bins := columns;
      current := ProjectBins(rows, t, current, columns);
    } else {
      NoProjection(rows, t);
    }
    ghost var statistics := if stats.Some? then stats.value else Statistics(0, map[]);
    current := RestoreOrder(rows, schema, t, columns, current, statistics);
    result := Done(current);
  }

  method ProjectBins(rows: seq<Row>, t: Transform, current: seq<Row>, bins: seq<BinColumn>)
    returns (projected: seq<Row>)
    requires multiset(current) == multiset(WithAllIds(Numbered(rows, t.rowNumber), t.valueIds))
    ensures multiset(projected) == multiset(Unsorted(rows, t, bins))
  {
    MapPermutation((row: Row) => Projected(row, bins), current, WithAllIds(Numbered(rows, t.rowNumber), t.valueIds));
    projected := AddBins(current, bins);
  }

  lemma NoProjection(rows: seq<Row>, t: Transform)
    ensures Unsorted(rows, t, []) == WithAllIds(Numbered(rows, t.rowNumber), t.valueIds)
  {
  }

  method RestoreOrder(rows: seq<Row>, schema: map<Name, Option<Kind>>, t: Transform, bins: seq<BinColumn>,
                      current: seq<Row>, ghost stats: Statistics)
    returns (sorted: seq<Row>)
    requires Applies(t, schema.Keys, rows) && AreBinColumns(bins, t.bins, schema, stats)
    requires multiset(current) == multiset(Unsorted(rows, t, bins))
    ensures |sorted| == |rows| && forall i | 0 <= i < |rows| :: IsPrecomputed(rows, i, sorted[i], t, bins)
  {
    forall i | 0 <= i < |rows| ensures IsPrecomputed(rows, i, Unsorted(rows, t, bins)[i], t, bins) {
      UnsortedIsPrecomputed(rows, t, bins, schema, stats, i);
    }
    sorted := SortRows(current, t.rowNumber);
    SortRestoresOrder(sorted, Unsorted(rows, t, bins), t.rowNumber);
  }

  /** The identifier of a row's value in a column. */
  ghost function IdOf(rows: seq<Row>, field: Name, i: nat): nat
    requires i < |rows|
  {
    Rank(ValueLess, Values(rows, field), Get(rows[i], field))
  }

  /** Identifiers are ordered as the values are, and only equal values share one. */
  lemma IdsAreIsomorphic(rows: seq<Row>, field: Name, i: nat, j: nat)
    requires i < |rows| && j < |rows|
    ensures ValueLess(Get(rows[i], field), Get(rows[j], field)) <==> IdOf(rows, field, i) < IdOf(rows, field, j)
    ensures Get(rows[i], field) == Get(rows[j], field) <==> IdOf(rows, field, i) == IdOf(rows, field, j)
    ensures 1 <= IdOf(rows, field, i) <= |Values(rows, field)|
  {
    ValuesAreOrdered();
    assert Column(rows, field)[i] in Values(rows, field) && Column(rows, field)[j] in Values(rows, field);
    RanksAreIsomorphic(ValueLess, Values(rows, field), Get(rows[i], field), Get(rows[j], field));
  }

  /** They fill the range from one to the number of distinct values. */
  lemma IdsFillRange(rows: seq<Row>, field: Name, k: nat)
    requires 1 <= k <= |Values(rows, field)|
    ensures exists i :: 0 <= i < |rows| && IdOf(rows, field, i) == k
  {
    ValuesAreOrdered();
    var values, column := Values(rows, field), Column(rows, field);
    RanksFillRange(ValueLess, values, k);
    var v :| v in values && Rank(ValueLess, values, v) == k;
    var i :| 0 <= i < |column| && column[i] == v;
    assert IdOf(rows, field, i) == k;
  }

  // ----- grouping by a precomputed bin -----

  /** The value of an expression in every row. */
  function RowKeys(rows: seq<Row>, e: Expr): seq<Value> { Map((row: Row) => Evaluate(row, e), rows) }

  /** The precomputed table with the schema it has: the columns of the input, and fractional bins. */
  ghost predicate HasBinColumn(schema: map<Name, Option<Kind>>, schema': map<Name, Option<Kind>>, alias: Name) {
    && (forall n | n in schema :: n in schema' && schema'[n] == schema[n])
    && alias in schema' && schema'[alias] == Some(Fractional)
  }

  lemma PreBinnedIsAccepted(b: BinTransform, schema: map<Name, Option<Kind>>, schema': map<Name, Option<Kind>>,
                            stats: Statistics)
    requires HasBinColumn(schema, schema', b.alias) && Build(b, schema, stats).Built?
    ensures GroupedBin(schema', b.field, KeyBinning(b.count, b.minimum, b.maximum, Some(b.alias)), stats)
         == Built(Col(b.alias), Build(b, schema, stats).metadata)
  {
  }

  /** Grouping the precomputed table by its fractional bins is accepted, and gives every row the key that
      binning the input directly gives it. */
  lemma PreBinnedKeysAgree(rows: seq<Row>, result: seq<Row>, t: Transform, bins: seq<BinColumn>,
                           schema: map<Name, Option<Kind>>, schema': map<Name, Option<Kind>>, stats: Statistics, j: nat)
    requires |result| == |rows| && forall i | 0 <= i < |rows| :: IsPrecomputed(rows, i, result[i], t, bins)
    requires AreBinColumns(bins, t.bins, schema, stats) && j < |t.bins| && t.bins[j].count > 0
    requires HasBinColumn(schema, schema', t.bins[j].alias)
    ensures var b := t.bins[j];
      var direct := GroupedBin(schema, b.field, KeyBinning(b.count, b.minimum, b.maximum, None), stats);
      var binned := GroupedBin(schema', b.field, KeyBinning(b.count, b.minimum, b.maximum, Some(b.alias)), stats);
      && direct.Built? && binned.Built? && binned.metadata == direct.metadata
      && RowKeys(result, BinKey(binned.expr, b.count)) == RowKeys(rows, BinKey(direct.expr, b.count))
  {
    var b := t.bins[j];
    PreBinnedIsAccepted(b, schema, schema', stats);
    var direct := Build(b, schema, stats).expr;
    forall i | 0 <= i < |rows|
      ensures Evaluate(result[i], BinKey(Col(b.alias), b.count)) == Evaluate(rows[i], BinKey(direct, b.count))
    {
      assert bins[j].alias in result[i];
      SameBinSameKey(result[i], Col(b.alias), rows[i], direct, b.count);
    }
  }

  ghost predicate NamesFieldsOf(columns: seq<GridColumn>, schema: set<Name>) {
    forall c | c in columns && (c.OrdinalColumn? || c.StringColumn? || c.ListColumn?) :: c.field in schema
  }

  /** Create the transform for a table and run it. */
  method PrecomputeTable(names: seq<Name>, schema: map<Name, Option<Kind>>, columns: seq<GridColumn>, rows: seq<Row>,
                         stats: Option<Statistics>)
    returns (t: Transform, result: Result, bins: seq<BinColumn>)
    requires Elements(names) == schema.Keys && NamesFieldsOf(columns, schema.Keys)
    requires forall i | 0 <= i < |rows| :: rows[i].Keys == schema.Keys
    ensures Fresh(t, schema.Keys) && Covers(t, columns)
    ensures result.Done? ==> |result.rows| == |rows| && forall i | 0 <= i < |rows| ::
              IsPrecomputed(rows, i, result.rows[i], t, bins)
    ensures result.Done? && t.bins != [] ==> stats.Some? && AreBinColumns(bins, t.bins, schema, stats.value)
  {
    t := CreatePrecomputationTransform(names, columns);
    result, bins := RunTransform(rows, schema, t, stats);
  }
}
