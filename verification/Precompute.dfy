/** The precomputation of a table: row numbers, identifiers for the values of text and list columns,
    fractional bins for ordinal columns, and the order restored at the end. Sorts may order equal
    keys in any way. */
module Precompute {
  import opened Order
  import opened Ranking

  // ----- fresh column names -----

  function Underscores(k: nat): string { if k == 0 then "" else "_" + Underscores(k - 1) }

  function AtLeastAsLong(names: set<Name>, length: nat): set<Name> { set n | n in names && |n| >= length }

  /** The first name that is not taken, among the prefix with more and more underscores before it. */
  method UniqueColumnName(prefix: Name, taken: set<Name>) returns (name: Name, taken': set<Name>)
    ensures name !in taken && taken' == taken + {name}
    ensures exists k: nat :: name == Underscores(k) + prefix && forall j: nat | j < k ::
              Underscores(j) + prefix in taken
  {
    name := prefix;
    ghost var k: nat := 0;
    while name in taken
      invariant name == Underscores(k) + prefix && forall j: nat | j < k :: Underscores(j) + prefix in taken
      decreases |AtLeastAsLong(taken, |name|)|
    {
      StrictSubsetSize(AtLeastAsLong(taken, |name| + 1), AtLeastAsLong(taken, |name|), name);
      name := "_" + name;
      k := k + 1;
      assert Underscores(k) + prefix == name;
    }
    taken' := taken + {name};
  }

  // ----- the transform -----

  datatype GridColumn =
    | RowNumberColumn
    | SkippedColumn
    | OrdinalColumn(field: Name, minimum: Name, maximum: Name, binCount: nat)
    | StringColumn(field: Name)
    | ListColumn(field: Name)

  datatype ValueId = ValueId(field: Name, alias: Name)
  datatype BinTransform = BinTransform(field: Name, minimum: Name, maximum: Name, count: nat, alias: Name)
  datatype Transform = Transform(rowNumber: Name, valueIds: seq<ValueId>, bins: seq<BinTransform>)

  function Decimal(n: nat): string { if n < 10 then ["0123456789"[n]] else Decimal(n / 10) + ["0123456789"[n % 10]] }

  function IdAliases(t: Transform): seq<Name> {
    seq(|t.valueIds|, i requires 0 <= i < |t.valueIds| => t.valueIds[i].alias)
  }
  function BinAliases(t: Transform): seq<Name> { seq(|t.bins|, i requires 0 <= i < |t.bins| => t.bins[i].alias) }

  /** All generated names. */
  function Aliases(t: Transform): seq<Name> { [t.rowNumber] + IdAliases(t) + BinAliases(t) }

  /** The generated names differ from each other and from the names of the schema. */
  ghost predicate Fresh(t: Transform, schema: set<Name>) {
    Distinct(Aliases(t)) && forall a | a in Aliases(t) :: a !in schema
  }

  ghost predicate CoversColumn(t: Transform, c: GridColumn) {
    match c
    case OrdinalColumn(f, min, max, count) => exists b :: b in t.bins && b == BinTransform(f, min, max, count, b.alias)
    case StringColumn(f) => exists v :: v in t.valueIds && v.field == f
    case ListColumn(f) => exists v :: v in t.valueIds && v.field == f
    case _ => true
  }

  /** The transform asks for an identifier of every text and list column and a bin of every ordinal
      column, and for nothing else. */
  ghost predicate Covers(t: Transform, columns: seq<GridColumn>) {
    && (forall c | c in columns :: CoversColumn(t, c))
    && (forall v | v in t.valueIds :: StringColumn(v.field) in columns || ListColumn(v.field) in columns)
    && (forall b | b in t.bins :: OrdinalColumn(b.field, b.minimum, b.maximum, b.count) in columns)
  }

  function WithId(t: Transform, v: ValueId): Transform { t.(valueIds := t.valueIds + [v]) }
  function WithBin(t: Transform, b: BinTransform): Transform { t.(bins := t.bins + [b]) }

  ghost predicate Named(t: Transform, schema: set<Name>, taken: set<Name>) {
    schema <= taken && Fresh(t, schema) && forall a | a in Aliases(t) :: a in taken
  }

  lemma {:induction false} InsertedIsDistinct(a: seq<Name>, b: seq<Name>, name: Name)
    requires Distinct(a + b) && name !in a + b
    ensures Distinct(a + [name] + b)
    ensures forall x :: x in a + [name] + b <==> x in a + b || x == name
  {
    var all := a + [name] + b;
    forall i, j | 0 <= i < j < |all| ensures all[i] != all[j] {
      var k := if i < |a| then i else i - 1;
      var l := if j < |a| then j else j - 1;
      if i != |a| && j != |a| { assert (a + b)[k] == all[i] && (a + b)[l] == all[j]; }
      if i == |a| { assert (a + b)[l] == all[j]; }
      if j == |a| { assert (a + b)[k] == all[i]; }
    }
  }

  lemma WithIdIsNamed(t: Transform, schema: set<Name>, taken: set<Name>, v: ValueId)
    requires Named(t, schema, taken) && v.alias !in taken
    ensures Named(WithId(t, v), schema, taken + {v.alias})
  {
    var before, after := [t.rowNumber] + IdAliases(t), BinAliases(t);
    assert Aliases(t) == before + after;
    InsertedIsDistinct(before, after, v.alias);
    assert Aliases(WithId(t, v)) == before + [v.alias] + after;
  }

  lemma WithBinIsNamed(t: Transform, schema: set<Name>, taken: set<Name>, b: BinTransform)
    requires Named(t, schema, taken) && b.alias !in taken
    ensures Named(WithBin(t, b), schema, taken + {b.alias})
  {
    InsertedIsDistinct(Aliases(t), [], b.alias);
    assert Aliases(t) + [] == Aliases(t);
    assert Aliases(WithBin(t, b)) == Aliases(t) + [b.alias] + [];
  }

  lemma OneMoreCovered(t: Transform, columns: seq<GridColumn>, c: GridColumn)
    requires Covers(t, columns)
    ensures c.RowNumberColumn? || c.SkippedColumn? ==> Covers(t, columns + [c])
    ensures c.StringColumn? || c.ListColumn? ==> forall a :: Covers(WithId(t, ValueId(c.field, a)), columns + [c])
    ensures c.OrdinalColumn? ==> forall a ::
              Covers(WithBin(t, BinTransform(c.field, c.minimum, c.maximum, c.binCount, a)), columns + [c])
  {
    forall a | c.StringColumn? || c.ListColumn? ensures Covers(WithId(t, ValueId(c.field, a)), columns + [c]) {
      var t' := WithId(t, ValueId(c.field, a));
      assert ValueId(c.field, a) in t'.valueIds;
      forall d | d in columns ensures CoversColumn(t', d) { assert CoversColumn(t, d); }
    }
    forall a | c.OrdinalColumn?
      ensures Covers(WithBin(t, BinTransform(c.field, c.minimum, c.maximum, c.binCount, a)), columns + [c])
    {
      var b := BinTransform(c.field, c.minimum, c.maximum, c.binCount, a);
      var t' := WithBin(t, b);
      assert b in t'.bins;
      forall d | d in columns ensures CoversColumn(t', d) { assert CoversColumn(t, d); }
    }
  }

  /** Build the transform: a row number, then an identifier or a bin per column. */
  method CreatePrecomputationTransform(schema: seq<Name>, columns: seq<GridColumn>) returns (t: Transform)
    ensures Fresh(t, Elements(schema)) && Covers(t, columns)
  {
    var taken := set n | n in schema;
    assert taken == Elements(schema);
    var rowNumber;
    rowNumber, taken := UniqueColumnName("_rownum", taken);
    t := Transform(rowNumber, [], []);
    for i := 0 to |columns|
      invariant Named(t, Elements(schema), taken) && Covers(t, columns[..i])
    {
      assert columns[..i + 1] == columns[..i] + [columns[i]];
      OneMoreCovered(t, columns[..i], columns[i]);
      t, taken := AddColumn(t, taken, columns[i], i + 1, Elements(schema));
    }
    assert columns[..|columns|] == columns;
  }

  method AddColumn(t: Transform, taken: set<Name>, column: GridColumn, position: nat, ghost schema: set<Name>)
    returns (t': Transform, taken': set<Name>)
    requires Named(t, schema, taken)
    ensures Named(t', schema, taken')
    ensures column.RowNumberColumn? || column.SkippedColumn? ==> t' == t
    ensures column.StringColumn? || column.ListColumn? ==> exists a :: t' == WithId(t, ValueId(column.field, a))
    ensures column.OrdinalColumn? ==> exists a ::
              t' == WithBin(t, BinTransform(column.field, column.minimum, column.maximum, column.binCount, a))
  {
    t', taken' := t, taken;
    var name;
    match column {
      case RowNumberColumn =>
      case SkippedColumn =>
      case OrdinalColumn(field, minimum, maximum, binCount) =>
        name, taken' := UniqueColumnName("_" + Decimal(position) + "_bin", taken);
        WithBinIsNamed(t, schema, taken, BinTransform(field, minimum, maximum, binCount, name));
        t' := WithBin(t, BinTransform(field, minimum, maximum, binCount, name));
      case StringColumn(field) =>
        name, taken' := UniqueColumnName("_" + Decimal(position) + "_id", taken);
        WithIdIsNamed(t, schema, taken, ValueId(field, name));
        t' := WithId(t, ValueId(field, name));
      case ListColumn(field) =>
        name, taken' := UniqueColumnName("_" + Decimal(position) + "_id", taken);
        WithIdIsNamed(t, schema, taken, ValueId(field, name));
        t' := WithId(t, ValueId(field, name));
    }
  }
}
