/** Trees laid out level by level: the children of all nodes of one level, in order, form the next
    level, and every node finds its children as one contiguous range. */
module Layout {
  import opened Order

  datatype Node = Node(name: Name, id: nat, kids: seq<Node>)

  /** The next level. */
  function Kids(ns: seq<Node>): (ks: seq<Node>)
    decreases |ns|
  {
    if ns == [] then [] else Kids(ns[..|ns| - 1]) + ns[|ns| - 1].kids
  }

  function Repeated(p: nat, count: nat): (ps: seq<nat>)
    ensures |ps| == count && forall i | 0 <= i < count :: ps[i] == p
  {
    seq(count, i => p)
  }

  lemma RepeatedOnceMore(p: nat, count: nat)
    ensures Repeated(p, count) + [p] == Repeated(p, count + 1)
  {
  }

  /** For every node of the next level, the position of its parent. */
  function Parents(ns: seq<Node>): (ps: seq<nat>)
    ensures |ps| == |Kids(ns)|
    decreases |ns|
  {
    if ns == [] then [] else Parents(ns[..|ns| - 1]) + Repeated(|ns| - 1, |ns[|ns| - 1].kids|)
  }

  /** Where the children of node `k` begin. */
  function Begin(ns: seq<Node>, k: nat): nat
    requires k <= |ns|
  {
    |Kids(ns[..k])|
  }

  lemma KidsOfAppend(ns: seq<Node>, n: Node)
    ensures Kids(ns + [n]) == Kids(ns) + n.kids
    ensures Parents(ns + [n]) == Parents(ns) + Repeated(|ns|, |n.kids|)
  {
    assert (ns + [n])[..|ns|] == ns;
  }

  lemma {:induction false} KidsOfPrefix(ns: seq<Node>, k: nat)
    requires k <= |ns|
    ensures Kids(ns[..k]) <= Kids(ns) && Parents(ns[..k]) <= Parents(ns)
    decreases |ns| - k
  {
    if k == |ns| {
      assert ns[..k] == ns;
    } else {
      assert ns[..k + 1] == ns[..k] + [ns[k]];
      KidsOfAppend(ns[..k], ns[k]);
      KidsOfPrefix(ns, k + 1);
    }
  }

  /** The children of node `k` are exactly the range that begins at `Begin(ns, k)`. */
  lemma ChildRange(ns: seq<Node>, k: nat)
    requires k < |ns|
    ensures Begin(ns, k) + |ns[k].kids| == Begin(ns, k + 1) <= |Kids(ns)|
    ensures Kids(ns)[Begin(ns, k)..Begin(ns, k + 1)] == ns[k].kids
    ensures forall j | Begin(ns, k) <= j < Begin(ns, k + 1) :: Parents(ns)[j] == k
  {
    assert ns[..k + 1] == ns[..k] + [ns[k]];
    KidsOfAppend(ns[..k], ns[k]);
    KidsOfPrefix(ns, k + 1);
  }

  lemma {:induction false} ParentHolds(ns: seq<Node>, j: nat)
    requires j < |Kids(ns)|
    ensures var p := Parents(ns)[j]; p < |ns| && Begin(ns, p) <= j < Begin(ns, p + 1)
    decreases |ns|
  {
    var last := |ns| - 1;
    assert ns[..last + 1] == ns;
    if j < |Kids(ns[..last])| {
      ParentHolds(ns[..last], j);
      var p := Parents(ns[..last])[j];
      assert ns[..last][..p] == ns[..p] && ns[..last][..p + 1] == ns[..p + 1];
    }
  }

  lemma BeginIncreases(ns: seq<Node>, k: nat, l: nat)
    requires k <= l <= |ns|
    ensures Begin(ns, k) <= Begin(ns, l)
  {
    assert ns[..l][..k] == ns[..k];
    KidsOfPrefix(ns[..l], k);
  }

  /** The ranges start at zero, follow each other and end at the end of the next level, and the
      parent positions never decrease: the ranges partition the next level. */
  lemma RangesPartition(ns: seq<Node>)
    ensures Begin(ns, 0) == 0 && Begin(ns, |ns|) == |Kids(ns)|
    ensures forall j | 0 <= j < |Kids(ns)| ::
              Parents(ns)[j] < |ns| && Begin(ns, Parents(ns)[j]) <= j < Begin(ns, Parents(ns)[j] + 1)
    ensures forall i, j | 0 <= i <= j < |Kids(ns)| :: Parents(ns)[i] <= Parents(ns)[j]
  {
    assert ns[..|ns|] == ns;
    forall j | 0 <= j < |Kids(ns)|
      ensures Parents(ns)[j] < |ns| && Begin(ns, Parents(ns)[j]) <= j < Begin(ns, Parents(ns)[j] + 1)
    {
      ParentHolds(ns, j);
    }
    forall i, j | 0 <= i <= j < |Kids(ns)| ensures Parents(ns)[i] <= Parents(ns)[j] {
      var p, q := Parents(ns)[i], Parents(ns)[j];
      if q < p { BeginIncreases(ns, q + 1, p); }
    }
  }

  lemma {:induction false} KidsOfLeaves(ns: seq<Node>)
    requires forall n | n in ns :: n.kids == []
    ensures Kids(ns) == []
    decreases |ns|
  {
    if ns != [] { KidsOfLeaves(ns[..|ns| - 1]); }
  }

  // ----- rows -----

  datatype FlatEntry = FlatEntry(flatIdx: nat, parentIdx: nat, catalogId: nat, nameId: nat, childBegin: nat,
      childCount: nat)

  predicate Decodes(dictionary: seq<Name>, nameId: nat, name: Name) {
    nameId < |dictionary| && dictionary[nameId] == name
  }

  /** Row `j` describes node `j` of a level: its position, its parent, its id, its name through the
      dictionary, and the range of its children in the next level. */
  ghost predicate IsRow(row: FlatEntry, dictionary: seq<Name>, ns: seq<Node>, parents: seq<nat>, j: nat)
    requires j < |ns| == |parents|
  {
    && row.flatIdx == j
    && row.parentIdx == parents[j]
    && row.catalogId == ns[j].id
    && Decodes(dictionary, row.nameId, ns[j].name)
    && row.childBegin == Begin(ns, j)
    && row.childCount == |ns[j].kids|
  }

  ghost predicate AreRows(rows: seq<FlatEntry>, dictionary: seq<Name>, ns: seq<Node>, parents: seq<nat>) {
    && |rows| == |ns| == |parents|
    && forall j | 0 <= j < |ns| :: IsRow(rows[j], dictionary, ns, parents, j)
  }

  lemma AppendRow(rows: seq<FlatEntry>, dictionary: seq<Name>, ns: seq<Node>, parents: seq<nat>, n: Node, parent: nat,
                  nameId: nat)
    requires AreRows(rows, dictionary, ns, parents) && Decodes(dictionary, nameId, n.name)
    ensures AreRows(rows + [FlatEntry(|ns|, parent, n.id, nameId, |Kids(ns)|, |n.kids|)], dictionary, ns + [n],
              parents + [parent])
  {
    var more := ns + [n];
    assert more[..|ns|] == ns;
    forall j | 0 <= j < |ns| ensures more[..j] == ns[..j] {}
  }
}
