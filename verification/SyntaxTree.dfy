/** The abstract syntax tree as an array: how nodes are added, the descent to the node at a text
    offset, and the ascent from a node to its root. */
module SyntaxTree {
  import opened Common

  type NodeId = nat
  datatype Node = Node(begin: nat, length: nat, parent: NodeId, childrenBegin: nat, childrenCount: nat)
  datatype Statement = Statement(root: NodeId)
  type Path = seq<NodeId>

  predicate IsChild(nodes: seq<Node>, child: NodeId, parent: NodeId)
    requires parent < |nodes|
  {
    nodes[parent].childrenBegin <= child < nodes[parent].childrenBegin + nodes[parent].childrenCount
  }

  /** Children come before their parent and know it; a node without a parent is its own parent. */
  ghost predicate WellFormed(nodes: seq<Node>) {
    && (forall i | 0 <= i < |nodes| && nodes[i].childrenCount > 0 ::
         nodes[i].childrenBegin + nodes[i].childrenCount <= i)
    && (forall i, c: NodeId | 0 <= i < |nodes| && IsChild(nodes, c, i) :: c < i && nodes[c].parent == i)
    && (forall c: NodeId | 0 <= c < |nodes| ::
         nodes[c].parent < |nodes| && (nodes[c].parent == c || IsChild(nodes, c, nodes[c].parent)))
  }

  predicate IsRoot(nodes: seq<Node>, i: NodeId) { i < |nodes| && nodes[i].parent == i }

  /** Add a node over a range of nodes that have no parent yet. */
  method AddNode(nodes: seq<Node>, begin: nat, length: nat, childrenBegin: nat, childrenCount: nat)
    returns (nodes': seq<Node>, id: NodeId)
    requires WellFormed(nodes)
    requires childrenCount > 0 ==> childrenBegin + childrenCount <= |nodes|
    requires forall c | childrenBegin <= c < childrenBegin + childrenCount :: IsRoot(nodes, c)
    ensures WellFormed(nodes') && |nodes'| == |nodes| + 1 && id == |nodes|
    ensures nodes'[id] == Node(begin, length, id, childrenBegin, childrenCount)
    ensures forall i | 0 <= i < |nodes| :: nodes'[i]
              == if IsChild(nodes', i, id) then nodes[i].(parent := id) else nodes[i]
  {
    id := |nodes|;
    nodes' := nodes + [Node(begin, length, id, childrenBegin, childrenCount)];
    for k := 0 to childrenCount
      invariant |nodes'| == |nodes| + 1 && nodes'[id] == Node(begin, length, id, childrenBegin, childrenCount)
      invariant forall i | 0 <= i < |nodes| ::
                  nodes'[i] == if childrenBegin <= i < childrenBegin + k then nodes[i].(parent := id) else nodes[i]
    {
      nodes' := nodes'[childrenBegin + k := nodes'[childrenBegin + k].(parent := id)];
    }
    AddedIsWellFormed(nodes, nodes', id);
  }

  lemma AddedIsWellFormed(nodes: seq<Node>, nodes': seq<Node>, id: NodeId)
    requires WellFormed(nodes) && id == |nodes| && |nodes'| == |nodes| + 1 && nodes'[id].parent == id
    requires nodes'[id].childrenCount > 0 ==> nodes'[id].childrenBegin + nodes'[id].childrenCount <= id
    requires forall c: NodeId | IsChild(nodes', c, id) :: IsRoot(nodes, c)
    requires forall i | 0 <= i < |nodes| :: nodes'[i]
               == if IsChild(nodes', i, id) then nodes[i].(parent := id) else nodes[i]
    ensures WellFormed(nodes')
  {
    forall i, c: NodeId | 0 <= i < |nodes'| && IsChild(nodes', c, i) ensures c < i && nodes'[c].parent == i {
      if i < id {
        assert IsChild(nodes, c, i);
        assert nodes[c].parent == i;
      }
    }
    forall c: NodeId | 0 <= c < |nodes'|
      ensures nodes'[c].parent < |nodes'| && (nodes'[c].parent == c || IsChild(nodes', c, nodes'[c].parent))
    {
      if c < id && !IsChild(nodes', c, id) && nodes[c].parent != c {
        assert IsChild(nodes, c, nodes[c].parent);
      }
    }
  }

  // ----- the descent -----

  /** The text of the node includes the offset; the position right after it counts. */
  predicate Touches(n: Node, offset: nat) { n.begin <= offset <= n.begin + n.length }
  predicate Includes(n: Node, offset: nat) { n.begin <= offset < n.begin + n.length }

  /** A path leads from child to child. */
  ghost predicate IsPath(nodes: seq<Node>, path: Path) {
    && path != []
    && (forall k | 0 <= k < |path| :: path[k] < |nodes|)
    && (forall k | 0 < k < |path| :: IsChild(nodes, path[k], path[k - 1]))
  }

  /** The child the descent takes: one that includes the offset, else one that ends at it. */
  ghost predicate Chosen(nodes: seq<Node>, parent: NodeId, offset: nat, choice: Option<NodeId>)
    requires parent < |nodes|
  {
    match choice
    case Some(c) =>
      && c < |nodes| && IsChild(nodes, c, parent) && Touches(nodes[c], offset)
      && ((exists d :: 0 <= d < |nodes| && IsChild(nodes, d, parent) && Includes(nodes[d], offset)) ==>
           Includes(nodes[c], offset))
    case None => forall d | 0 <= d < |nodes| && IsChild(nodes, d, parent) :: !Touches(nodes[d], offset)
  }

  method ChooseChild(nodes: seq<Node>, parent: NodeId, offset: nat) returns (choice: Option<NodeId>)
    requires WellFormed(nodes) && parent < |nodes|
    ensures Chosen(nodes, parent, offset, choice)
  {
    var node := nodes[parent];
    var exact: Option<NodeId>, after: Option<NodeId> := None, None;
    for i := 0 to node.childrenCount
      invariant exact.Some? ==>
                  exact.value < |nodes| && IsChild(nodes, exact.value, parent) && Includes(nodes[exact.value], offset)
      invariant after.Some? ==>
                  after.value < |nodes| && IsChild(nodes, after.value, parent) && Touches(nodes[after.value], offset)
      invariant exact.None? ==> forall d | node.childrenBegin <= d < node.childrenBegin + i ::
                  !Includes(nodes[d], offset)
      invariant exact.None? && after.None? ==> forall d | node.childrenBegin <= d < node.childrenBegin + i ::
                  !Touches(nodes[d], offset)
    {
      var ci := node.childrenBegin + i;
      assert IsChild(nodes, ci, parent);
      var begin, end := nodes[ci].begin, nodes[ci].begin + nodes[ci].length;
      if begin <= offset {
        if end > offset {
          exact := Some(ci);
        } else if end == offset {
          after := Some(ci);
        }
      }
    }
    choice := if exact.Some? then exact else after;
  }

  /** Roots of statements begin at or before the offset up to the chosen statement, and the next one
      begins after it. */
  ghost predicate StatementAt(nodes: seq<Node>, statements: seq<Statement>, offset: nat, s: nat) {
    && s < |statements|
    && (forall i | 0 <= i < |statements| :: statements[i].root < |nodes|)
    && (forall i | 0 <= i <= s :: nodes[statements[i].root].begin <= offset)
    && (s + 1 < |statements| ==> nodes[statements[s + 1].root].begin > offset)
  }

  /** The node at a text offset: below the statement root, every node on the way touches the offset,
      and no child of the result does. There is none exactly when the text begins after the offset. */
  method FindNodeAtOffset(nodes: seq<Node>, statements: seq<Statement>, offset: nat)
    returns (found: Option<(nat, NodeId)>, ghost path: Path)
    requires WellFormed(nodes) && forall i | 0 <= i < |statements| :: statements[i].root < |nodes|
    ensures found.None? <==> statements == [] || nodes[statements[0].root].begin > offset
    ensures found.Some? ==> StatementAt(nodes, statements, offset, found.value.0)
    ensures found.Some? ==>
              IsPath(nodes, path) && path[0] == statements[found.value.0].root && path[|path| - 1] == found.value.1
    ensures found.Some? ==> forall k | 0 < k < |path| :: Chosen(nodes, path[k - 1], offset, Some(path[k]))
    ensures found.Some? ==> Chosen(nodes, found.value.1, offset, None)
  {
    path := [];
    if statements == [] {
      return None, path;
    }
    var s := 0;
    while s < |statements|
      invariant 0 <= s <= |statements|
      invariant forall i | 0 <= i < s :: nodes[statements[i].root].begin <= offset
    {
      if nodes[statements[s].root].begin > offset {
        break;
      }
      s := s + 1;
    }
    if s == 0 {
      return None, path;
    }
    s := s - 1;
    var iter := statements[s].root;
    path := [iter];
    while true
      invariant IsPath(nodes, path) && path[0] == statements[s].root && path[|path| - 1] == iter
      invariant forall k | 0 < k < |path| :: Chosen(nodes, path[k - 1], offset, Some(path[k]))
      decreases iter
    {
      if nodes[iter].childrenCount == 0 {
        break;
      }
      var child := ChooseChild(nodes, iter, offset);
      if child.None? {
        break;
      }
      iter := child.value;
      path := path + [iter];
    }
    return Some((s, iter)), path;
  }

  // ----- the ascent -----

  /** A node, its parent, and so on up to the root. */
  function Ascent(nodes: seq<Node>, id: NodeId): (path: Path)
    requires WellFormed(nodes) && id < |nodes|
    ensures path != [] && path[0] == id
    decreases |nodes| - id
  {
    assert nodes[id].parent != id ==> IsChild(nodes, id, nodes[id].parent);
    if nodes[id].parent == id then [id] else [id] + Ascent(nodes, nodes[id].parent)
  }

  /** The scopes whose root nodes lie on a path, in its order. */
  function ScopesOn(path: Path, scopes: map<NodeId, nat>): seq<nat>
    decreases |path|
  {
    if path == [] then []
    else
      var last := path[|path| - 1];
      ScopesOn(path[..|path| - 1], scopes) + if last in scopes then [scopes[last]] else []
  }

  method FollowPathUpwards(nodes: seq<Node>, id: NodeId, nameScopes: map<NodeId, nat>)
    returns (path: Path, scopes: seq<nat>)
    requires WellFormed(nodes) && id < |nodes|
    ensures path == Ascent(nodes, id) && scopes == ScopesOn(path, nameScopes)
  {
    path, scopes := [], [];
    var iter: Option<NodeId> := Some(id);
    ghost var rest := Ascent(nodes, id);
    while iter.Some?
      invariant iter.Some? ==> iter.value < |nodes|
      invariant rest == (if iter.Some? then Ascent(nodes, iter.value) else [])
      invariant path + rest == Ascent(nodes, id)
      invariant scopes == ScopesOn(path, nameScopes)
      decreases |rest|
    {
      var node := iter.value;
      StepUp(nodes, node);
      OneMoreOnPath(path, node, rest, nameScopes);
      path := path + [node];
      if node in nameScopes {
        scopes := scopes + [nameScopes[node]];
      }
      iter := if nodes[node].parent != node then Some(nodes[node].parent) else None;
      rest := rest[1..];
    }
  }

  lemma StepUp(nodes: seq<Node>, id: NodeId)
    requires WellFormed(nodes) && id < |nodes|
    ensures nodes[id].parent < |nodes|
    ensures Ascent(nodes, id)[1..] == if nodes[id].parent == id then [] else Ascent(nodes, nodes[id].parent)
  {
  }

  lemma OneMoreOnPath(path: Path, node: NodeId, rest: Path, scopes: map<NodeId, nat>)
    requires rest != [] && rest[0] == node
    ensures (path + [node]) + rest[1..] == path + rest
    ensures ScopesOn(path + [node], scopes) == ScopesOn(path, scopes) + if node in scopes then [scopes[node]] else []
  {
    assert (path + [node])[..|path|] == path;
  }

  /** How many of these nodes are roots of scopes. */
  function CountScopes(path: Path, scopes: map<NodeId, nat>): nat
    decreases |path|
  {
    if path == [] then 0
    else CountScopes(path[..|path| - 1], scopes) + if path[|path| - 1] in scopes then 1 else 0
  }

  /** The scopes come in the order of the path: the scope of a node is preceded by exactly those of the
      nodes before it. */
  lemma {:induction false} ScopesInOrder(path: Path, scopes: map<NodeId, nat>)
    ensures |ScopesOn(path, scopes)| == CountScopes(path, scopes)
    ensures forall k | 0 <= k < |path| && path[k] in scopes ::
              && CountScopes(path[..k], scopes) < |ScopesOn(path, scopes)|
              && ScopesOn(path, scopes)[CountScopes(path[..k], scopes)] == scopes[path[k]]
    decreases |path|
  {
    if path != [] {
      var front := path[..|path| - 1];
      ScopesInOrder(front, scopes);
      forall k | 0 <= k < |path| && path[k] in scopes
        ensures CountScopes(path[..k], scopes) < |ScopesOn(path, scopes)|
        ensures ScopesOn(path, scopes)[CountScopes(path[..k], scopes)] == scopes[path[k]]
      {
        if k < |front| { assert front[..k] == path[..k] && front[k] == path[k]; }
      }
    }
  }

  function Reversed(path: Path): (r: Path)
    ensures |r| == |path|
    decreases |path|
  {
    if path == [] then [] else [path[|path| - 1]] + Reversed(path[..|path| - 1])
  }

  /** Going up from the end of a path retraces it in reverse, and then goes on above its start. */
  lemma {:induction false} AscentRetraces(nodes: seq<Node>, path: Path)
    requires WellFormed(nodes) && IsPath(nodes, path)
    ensures Ascent(nodes, path[|path| - 1]) == Reversed(path[1..]) + Ascent(nodes, path[0])
    decreases |path|
  {
    if |path| > 1 {
      var last := |path| - 1;
      assert IsChild(nodes, path[last], path[last - 1]);
      AscentRetraces(nodes, path[..last]);
      assert path[1..][..last - 1] == path[..last][1..];
      assert Ascent(nodes, path[last]) == [path[last]] + Ascent(nodes, path[last - 1]);
    }
  }

  /** From a node that was found below a statement root, the ascent to the root is the reverse of the
      descent. */
  lemma AscentIsReversedDescent(nodes: seq<Node>, path: Path)
    requires WellFormed(nodes) && IsPath(nodes, path) && IsRoot(nodes, path[0])
    ensures Ascent(nodes, path[|path| - 1]) == Reversed(path)
  {
    AscentRetraces(nodes, path);
    RestReversed(path);
  }

  lemma {:induction false} RestReversed(path: Path)
    requires path != []
    ensures Reversed(path) == Reversed(path[1..]) + [path[0]]
    decreases |path|
  {
    if |path| > 1 {
      var front := path[..|path| - 1];
      RestReversed(front);
      assert path[1..][..|path| - 2] == front[1..];
    }
  }
}
