/** The editor's tree: a forest of `server` and `folder` nodes, each with an
    id, a display name, its children in typing order and its access groups. */
module Forest {
  import opened Seqs

  /** `node-<Date.now()>-<line index>-<random>`: the clock reading and the
      index of the source line. The random suffix is not modelled; the line
      index alone keeps ids of one parse apart. */
  datatype NodeId = NodeId(stamp: int, line: nat)

  datatype Kind = Server | Folder

  datatype Node = Node(id: NodeId, name: string, kind: Kind, children: seq<Node>, groups: seq<string>)

  /** A node without its subtree. */
  function Head(n: Node): Node {
    n.(children := [])
  }

  /** Every node of the forest without its subtree, parents before children and
      siblings in order: document order. */
  function Preorder(f: seq<Node>): seq<Node>
  {
    if f == [] then [] else [Head(f[0])] + Preorder(f[0].children) + Preorder(f[1..])
  }

  lemma {:induction false} PreorderAppend(f: seq<Node>, g: seq<Node>)
    ensures Preorder(f + g) == Preorder(f) + Preorder(g)
  {
    if f != [] {
      assert (f + g)[0] == f[0];
      assert (f + g)[1..] == f[1..] + g;
      PreorderAppend(f[1..], g);
    } else {
      assert f + g == g;
    }
  }

  lemma PreorderSingle(n: Node)
    ensures Preorder([n]) == [Head(n)] + Preorder(n.children)
  {
    assert [n][1..] == [];
  }

  /** The forest with every id forgotten: what two parses of the same text
      have in common. */
  function Unlabel(f: seq<Node>): seq<Node>
  {
    if f == [] then []
    else [f[0].(id := NodeId(0, 0), children := Unlabel(f[0].children))] + Unlabel(f[1..])
  }

  lemma {:induction false} UnlabelAppend(f: seq<Node>, g: seq<Node>)
    ensures Unlabel(f + g) == Unlabel(f) + Unlabel(g)
  {
    if f != [] {
      assert (f + g)[0] == f[0];
      assert (f + g)[1..] == f[1..] + g;
      UnlabelAppend(f[1..], g);
    } else {
      assert f + g == g;
    }
  }

  /** The number of nodes in the forest. */
  function Size(f: seq<Node>): nat
  {
    if |f| == 0 then 0 else 1 + Size(f[0].children) + Size(f[1..])
  }

  lemma {:induction false} PreorderSize(f: seq<Node>)
    ensures |Preorder(f)| == Size(f)
  {
    if |f| != 0 {
      PreorderSize(f[0].children);
      PreorderSize(f[1..]);
    }
  }

  /** For each node of `Preorder(f)`, the position in that same order of its
      parent, or `parent` for a root; `base` is the position of `f`'s first
      node. */
  function Parents(f: seq<Node>, base: int, parent: int): (r: seq<int>)
    ensures |r| == Size(f)
  {
    if |f| == 0 then []
    else
      [parent] + Parents(f[0].children, base + 1, base)
      + Parents(f[1..], base + 1 + Size(f[0].children), parent)
  }

  lemma SizeCons(n: Node, f: seq<Node>)
    ensures Size([n] + f) == 1 + Size(n.children) + Size(f)
  {
    assert ([n] + f)[0] == n && ([n] + f)[1..] == f;
  }

  /** The recorded parent position of the `k`-th node in document order. */
  function ParentAt(f: seq<Node>, base: int, parent: int, k: nat): int
    requires k < Size(f)
  {
    Parents(f, base, parent)[k]
  }

  /** The parent positions of a forest whose first tree is `n`: `n` is a
      root, its subtree's nodes follow it, then the remaining trees'. */
  lemma ParentsAt(n: Node, f: seq<Node>, base: int, parent: int, k: nat)
    requires k < 1 + Size(n.children) + Size(f)
    ensures Size([n] + f) == 1 + Size(n.children) + Size(f)
    ensures ParentAt([n] + f, base, parent, k) ==
      if k == 0 then parent
      else if k <= Size(n.children) then ParentAt(n.children, base + 1, base, k - 1)
      else ParentAt(f, base + 1 + Size(n.children), parent, k - 1 - Size(n.children))
  {
    SizeCons(n, f);
    assert ([n] + f)[0] == n && ([n] + f)[1..] == f;
    ConsConcatAt(parent, Parents(n.children, base + 1, base), Parents(f, base + 1 + Size(n.children), parent), k);
  }
}
