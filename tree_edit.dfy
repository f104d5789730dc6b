/** Renaming and deleting one access group of one node. The editor deep-copies
    the tree, searches it in document order for the first node with the
    target id that accepts the edit, edits that node's group list and stops.
    Because the search runs on a private copy, editing values is exact. */
module TreeEdit {
  import opened Text
  import opened Forest
  import opened Seqs
  import opened Opt

  /** The two edits the tree view asks for on one node's group list. */
  datatype GroupEdit = Delete(idx: nat) | Rename(idx: nat, newName: string)

  /** Whether the edit takes effect on a node with these groups, ending the
      search: a deletion always does (`splice` past the end removes nothing
      but still reports success), a rename only when the index exists. */
  predicate Applies(e: GroupEdit, groups: seq<string>) {
    match e
    case Delete(_) => true
    case Rename(idx, _) => idx < |groups|
  }

  /** `groups.splice(idx, 1)`: the entry at `idx` removed and the later ones
      shifted left; nothing happens past the end. */
  function Spliced(groups: seq<string>, idx: nat): (r: seq<string>)
    ensures idx < |groups| ==> |r| == |groups| - 1
    ensures idx < |groups| ==> forall j | 0 <= j < |r| :: r[j] == if j < idx then groups[j] else groups[j + 1]
    ensures idx >= |groups| ==> r == groups
  {
    if idx < |groups| then groups[..idx] + groups[idx + 1..] else groups
  }

  /** The new group list of the node the edit lands on. */
  function ApplyEdit(e: GroupEdit, groups: seq<string>): seq<string>
    requires Applies(e, groups)
  {
    match e
    case Delete(idx) => Spliced(groups, idx)
    case Rename(idx, newName) => groups[idx := newName]
  }

  /** The node the search stops at. */
  predicate IsTarget(n: Node, target: NodeId, e: GroupEdit) {
    n.id == target && Applies(e, n.groups)
  }

  function Edited(n: Node, e: GroupEdit): Node
    requires Applies(e, n.groups)
  {
    n.(groups := ApplyEdit(e, n.groups))
  }

  /** The outcome of a search: whether it stopped, and the forest after it. */
  datatype Found = Found(hit: bool, forest: seq<Node>)

  /** `updateNode`: each node in turn, its subtree before its later
      siblings; the first target is edited and the search stops. */
  function EditFirst(f: seq<Node>, target: NodeId, e: GroupEdit): (r: Found)
    ensures |r.forest| == |f|
    ensures !r.hit ==> r.forest == f
  {
    if |f| == 0 then Found(false, f)
    else
      var n := f[0];
      if IsTarget(n, target, e) then Found(true, [Edited(n, e)] + f[1..])
      else
        var kids := EditFirst(n.children, target, e);
        if kids.hit then Found(true, [n.(children := kids.forest)] + f[1..])
        else
          var rest := EditFirst(f[1..], target, e);
          assert [n] + f[1..] == f;
          Found(rest.hit, [n] + rest.forest)
  }

  // ---------------------------------------------------------------------
  // The same edit on the nodes in document order
  // ---------------------------------------------------------------------

  /** Whether any node of the list is a target. */
  predicate AnyTarget(p: seq<Node>, target: NodeId, e: GroupEdit) {
    |p| != 0 && (IsTarget(p[0], target, e) || AnyTarget(p[1..], target, e))
  }

  /** The list with its first target edited. */
  function EditFlat(p: seq<Node>, target: NodeId, e: GroupEdit): seq<Node>
  {
    if |p| == 0 then []
    else if IsTarget(p[0], target, e) then [Edited(p[0], e)] + p[1..]
    else [p[0]] + EditFlat(p[1..], target, e)
  }

  /** The position of the first target. */
  function FirstTarget(p: seq<Node>, target: NodeId, e: GroupEdit): Option<nat>
  {
    if |p| == 0 then None
    else if IsTarget(p[0], target, e) then Some(0)
    else match FirstTarget(p[1..], target, e)
      case None => None
      case Some(k) => Some(k + 1)
  }

  /** The first target is the earliest node that has the id and accepts the
      edit; there is none exactly when no node does. */
  lemma {:induction false} FirstTargetSpec(p: seq<Node>, target: NodeId, e: GroupEdit)
    ensures var k := FirstTarget(p, target, e);
      && (k.Some? <==> AnyTarget(p, target, e))
      && (k.Some? ==> k.value < |p| && IsTarget(p[k.value], target, e))
      && (k.Some? ==> forall j | 0 <= j < k.value :: !IsTarget(p[j], target, e))
      && (k.None? ==> forall j | 0 <= j < |p| :: !IsTarget(p[j], target, e))
  {
    if |p| != 0 && !IsTarget(p[0], target, e) {
      FirstTargetSpec(p[1..], target, e);
      var k := FirstTarget(p[1..], target, e);
      forall j | 0 <= j < |p| && (k.Some? ==> j < k.value + 1)
        ensures !IsTarget(p[j], target, e)
      {
        if j > 0 {
          assert p[j] == p[1..][j - 1];
        }
      }
    }
  }

  /** Only the first target changes: every other node stays as it was. */
  lemma {:induction false} EditFlatAt(p: seq<Node>, target: NodeId, e: GroupEdit, j: nat)
    requires j < |p|
    ensures FirstTarget(p, target, e) == Some(j) ==> IsTarget(p[j], target, e)
    ensures |EditFlat(p, target, e)| == |p|
    ensures EditFlat(p, target, e)[j] ==
      if FirstTarget(p, target, e) == Some(j) then Edited(p[j], e) else p[j]
  {
    FirstTargetSpec(p, target, e);
    if !IsTarget(p[0], target, e) {
      if j > 0 {
        EditFlatAt(p[1..], target, e, j - 1);
        assert p[1..][j - 1] == p[j];
        match FirstTarget(p[1..], target, e)
        case None =>
        case Some(k) =>
      } else {
        EditFlatLength(p[1..], target, e);
      }
    }
  }

  lemma {:induction false} EditFlatLength(p: seq<Node>, target: NodeId, e: GroupEdit)
    ensures |EditFlat(p, target, e)| == |p|
  {
    if |p| != 0 && !IsTarget(p[0], target, e) {
      EditFlatLength(p[1..], target, e);
    }
  }

  lemma {:induction false} EditFlatAppend(a: seq<Node>, b: seq<Node>, target: NodeId, e: GroupEdit)
    ensures AnyTarget(a + b, target, e) <==> AnyTarget(a, target, e) || AnyTarget(b, target, e)
    ensures EditFlat(a + b, target, e) ==
      if AnyTarget(a, target, e) then EditFlat(a, target, e) + b else a + EditFlat(b, target, e)
  {
    if |a| == 0 {
      assert a + b == b;
    } else {
      ConcatSlices(a, b, 0);
      EditFlatAppend(a[1..], b, target, e);
      if IsTarget(a[0], target, e) {
        AppendAssoc([Edited(a[0], e)], a[1..], b);
      } else if AnyTarget(a[1..], target, e) {
        AppendAssoc([a[0]], EditFlat(a[1..], target, e), b);
      } else {
        AppendAssoc([a[0]], a[1..], EditFlat(b, target, e));
        assert [a[0]] + a[1..] == a;
      }
    }
  }

  /** The tree search edits exactly what the document-order edit does: it
      stops exactly when some node has the id and accepts the edit, and the
      nodes in document order afterwards are the old ones with the first such
      node edited. */
  lemma {:induction false} EditFirstPreorder(f: seq<Node>, target: NodeId, e: GroupEdit)
    ensures EditFirst(f, target, e).hit <==> AnyTarget(Preorder(f), target, e)
    ensures Preorder(EditFirst(f, target, e).forest) == EditFlat(Preorder(f), target, e)
  {
    if |f| != 0 {
      var n := f[0];
      var pk := Preorder(n.children);
      var pr := Preorder(f[1..]);
      EditFirstPreorder(n.children, target, e);
      EditFirstPreorder(f[1..], target, e);
      EditFlatAppend(pk, pr, target, e);
      EditFlatAppend([Head(n)], pk + pr, target, e);
      AppendAssoc([Head(n)], pk, pr);
      assert [Head(n)][1..] == [];
      var kids := EditFirst(n.children, target, e);
      var rest := EditFirst(f[1..], target, e);
      if IsTarget(n, target, e) {
        EditFirstHere(n, f[1..], e);
      } else if kids.hit {
        PreorderAppend([n.(children := kids.forest)], f[1..]);
        PreorderSingle(n.(children := kids.forest));
        AppendAssoc([Head(n)], Preorder(kids.forest), pr);
      } else {
        PreorderAppend([n], rest.forest);
        PreorderSingle(n);
        AppendAssoc([Head(n)], pk, Preorder(rest.forest));
      }
    }
  }

  lemma EditFirstHere(n: Node, rest: seq<Node>, e: GroupEdit)
    requires Applies(e, n.groups)
    ensures Preorder([Edited(n, e)] + rest) == [Edited(Head(n), e)] + (Preorder(n.children) + Preorder(rest))
  {
    PreorderAppend([Edited(n, e)], rest);
    PreorderSingle(Edited(n, e));
    AppendAssoc([Edited(Head(n), e)], Preorder(n.children), Preorder(rest));
  }

  /** Every node of the forest with its groups cleared: what an edit must
      not change. */
  function Shape(f: seq<Node>): seq<Node>
  {
    if |f| == 0 then [] else [f[0].(children := Shape(f[0].children), groups := [])] + Shape(f[1..])
  }

  /** An edit changes no id, name, kind or nesting. */
  lemma {:induction false} EditKeepsShape(f: seq<Node>, target: NodeId, e: GroupEdit)
    ensures Shape(EditFirst(f, target, e).forest) == Shape(f)
    decreases f, 1
  {
    if |f| != 0 {
      EditFirstShapeStep(f, target, e);
    }
  }

  lemma {:induction false} EditFirstShapeStep(f: seq<Node>, target: NodeId, e: GroupEdit)
    requires |f| != 0
    ensures Shape(EditFirst(f, target, e).forest) == Shape(f)
    decreases f, 0
  {
    var n := f[0];
    var kids := EditFirst(n.children, target, e);
    var rest := EditFirst(f[1..], target, e);
    var r := EditFirst(f, target, e).forest;
    ConsSlices(n, f[1..]);
    if IsTarget(n, target, e) {
      ConsSlices(Edited(n, e), f[1..]);
    } else if kids.hit {
      EditKeepsShape(n.children, target, e);
      ConsSlices(n.(children := kids.forest), f[1..]);
    } else {
      EditKeepsShape(f[1..], target, e);
      ConsSlices(n, rest.forest);
    }
  }

  // ---------------------------------------------------------------------
  // The editor's search
  // ---------------------------------------------------------------------

  /** The search over a forest whose first `i` trees hold no target. */
  function Skipped(done: seq<Node>, r: Found): Found {
    Found(r.hit, done + r.forest)
  }

  lemma EditFirstFrom(nodes: seq<Node>, i: nat, target: NodeId, e: GroupEdit)
    requires i < |nodes|
    ensures var n := nodes[i];
      var kids := EditFirst(n.children, target, e);
      EditFirst(nodes[i..], target, e) ==
        if IsTarget(n, target, e) then Found(true, [Edited(n, e)] + nodes[i + 1..])
        else if kids.hit then Found(true, [n.(children := kids.forest)] + nodes[i + 1..])
        else Skipped([n], EditFirst(nodes[i + 1..], target, e))
  {
    assert nodes[i..][0] == nodes[i] && nodes[i..][1..] == nodes[i + 1..];
  }

  /** The search stops at position `i` with `x` in place of the node there. */
  lemma StopAt(nodes: seq<Node>, i: nat, x: Node, all: Found, here: Found)
    requires i < |nodes|
    requires all == Skipped(nodes[..i], here)
    requires here == Found(true, [x] + nodes[i + 1..])
    ensures all == Found(true, nodes[i := x])
  {
    UpdateSplit(nodes, i, x);
  }

  /** The search passes over position `i`. */
  lemma PassAt(nodes: seq<Node>, i: nat, all: Found, here: Found, later: Found)
    requires i < |nodes|
    requires all == Skipped(nodes[..i], here)
    requires here == Skipped([nodes[i]], later)
    ensures all == Skipped(nodes[..i + 1], later)
  {
    assert nodes[..i + 1] == nodes[..i] + [nodes[i]];
    AppendAssoc(nodes[..i], [nodes[i]], later.forest);
  }

  /** `updateNode`: walks the nodes in order; at the first target it edits
      the node's groups and reports success; otherwise it searches the
      node's children, if any, and stops as soon as that search succeeds. */
  method UpdateNode(nodes: seq<Node>, target: NodeId, e: GroupEdit) returns (found: bool, result: seq<Node>)
    ensures Found(found, result) == EditFirst(nodes, target, e)
    decreases nodes
  {
    result := nodes;
    for i := 0 to |nodes|
      invariant EditFirst(nodes, target, e) == Skipped(nodes[..i], EditFirst(nodes[i..], target, e))
    {
      var node := nodes[i];
      EditFirstFrom(nodes, i, target, e);
      if node.id == target && Applies(e, node.groups) {
        found, result := true, nodes[i := Edited(node, e)];
        StopAt(nodes, i, Edited(node, e), EditFirst(nodes, target, e), EditFirst(nodes[i..], target, e));
        return;
      }
      if |node.children| > 0 {
        var sub, kids := UpdateNode(node.children, target, e);
        if sub {
          found, result := true, nodes[i := node.(children := kids)];
          StopAt(nodes, i, node.(children := kids), EditFirst(nodes, target, e), EditFirst(nodes[i..], target, e));
          return;
        }
      }
      PassAt(nodes, i, EditFirst(nodes, target, e), EditFirst(nodes[i..], target, e), EditFirst(nodes[i + 1..], target, e));
    }
    found := false;
    assert nodes[..|nodes|] == nodes && nodes[|nodes|..] == [];
  }
}
