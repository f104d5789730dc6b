/** The editor's serializer: the forest back into indented text, one line per
    node in document order, two spaces of indentation per level and a line
    break after every name. */
module Serializer {
  import opened Text
  import opened Forest
  import opened Seqs

  /** The text for `f` when its roots sit at depth `depth`. */
  function Render(f: seq<Node>, depth: nat): string
  {
    if |f| == 0 then ""
    else Indent(depth) + f[0].name + "\n" + Render(f[0].children, depth + 1) + Render(f[1..], depth)
  }

  /** The line of a node at depth `depth`, without its line break. */
  function LineOf(depth: nat, name: string): string {
    Indent(depth) + name
  }

  /** The lines of that text, without their line breaks: each node's name
      behind the indentation of its depth, parents before children. */
  function RenderLines(f: seq<Node>, depth: nat): (r: seq<string>)
    ensures |r| == Size(f)
  {
    if |f| == 0 then []
    else [LineOf(depth, f[0].name)] + RenderLines(f[0].children, depth + 1) + RenderLines(f[1..], depth)
  }

  /** Every line followed by a line break. */
  function Terminated(lines: seq<string>): string
  {
    if |lines| == 0 then "" else lines[0] + "\n" + Terminated(lines[1..])
  }

  lemma {:induction false} TerminatedAppend(xs: seq<string>, ys: seq<string>)
    ensures Terminated(xs + ys) == Terminated(xs) + Terminated(ys)
  {
    if |xs| == 0 {
      assert xs + ys == ys;
    } else {
      DropOfAppend(xs, ys, 1);
      TerminatedAppend(xs[1..], ys);
      AppendAssoc(xs[0] + "\n", Terminated(xs[1..]), Terminated(ys));
    }
  }

  /** The rendered text is the rendered lines, each closed by a line break. */
  lemma {:induction false} RenderIsLines(f: seq<Node>, depth: nat)
    ensures Render(f, depth) == Terminated(RenderLines(f, depth))
  {
    if |f| != 0 {
      var head := LineOf(depth, f[0].name);
      var kids := RenderLines(f[0].children, depth + 1);
      var rest := RenderLines(f[1..], depth);
      RenderIsLines(f[0].children, depth + 1);
      RenderIsLines(f[1..], depth);
      TerminatedAppend([head] + kids, rest);
      TerminatedAppend([head], kids);
      assert ([head] + kids + rest) == ([head] + kids) + rest;
      assert Terminated([head]) == head + "\n";
    }
  }

  /** Splitting the terminated lines at line breaks gives the lines back,
      followed by the empty piece after the last break. */
  lemma {:induction false} SplitTerminated(lines: seq<string>)
    requires forall i | 0 <= i < |lines| :: '\n' !in lines[i]
    ensures Split(Terminated(lines), '\n') == lines + [""]
  {
    if |lines| == 0 {
      assert Terminated(lines) == "";
    } else {
      var rest := Terminated(lines[1..]);
      SplitTerminated(lines[1..]);
      SplitAtSep(lines[0], '\n', rest);
      assert lines[0] + "\n" + rest == lines[0] + ['\n'] + rest;
      assert [lines[0]] + lines[1..] == lines;
      AppendAssoc([lines[0]], lines[1..], [""]);
    }
  }

  lemma {:induction false} RenderAppend(xs: seq<Node>, ys: seq<Node>, depth: nat)
    ensures Render(xs + ys, depth) == Render(xs, depth) + Render(ys, depth)
  {
    if |xs| == 0 {
      assert xs + ys == ys;
    } else {
      DropOfAppend(xs, ys, 1);
      assert (xs + ys)[0] == xs[0];
      RenderAppend(xs[1..], ys, depth);
    }
  }

  /** Rendering one more node of a forest appends its line and its subtree. */
  lemma RenderStep(nodes: seq<Node>, i: nat, depth: nat)
    requires i < |nodes|
    ensures Render(nodes[..i + 1], depth) ==
      Render(nodes[..i], depth) + (Indent(depth) + nodes[i].name + "\n") + Render(nodes[i].children, depth + 1)
  {
    var node := nodes[i];
    assert nodes[..i + 1] == nodes[..i] + [node];
    RenderAppend(nodes[..i], [node], depth);
    assert [node][1..] == [];
    AppendAssoc(Render(nodes[..i], depth), Indent(depth) + node.name + "\n", Render(node.children, depth + 1));
  }

  /** `generateTextFromTree`: appends, node by node, the indented name and a
      line break, then the text of the node's children one level deeper. */
  method GenerateText(nodes: seq<Node>, depth: nat) returns (result: string)
    ensures result == Render(nodes, depth)
    decreases nodes
  {
    result := "";
    for i := 0 to |nodes|
      invariant result == Render(nodes[..i], depth)
    {
      var node := nodes[i];
      var indent := Indent(depth);
      result := result + (indent + node.name + "\n");
      if |node.children| > 0 {
        var sub := GenerateText(node.children, depth + 1);
        result := result + sub;
      }
      RenderStep(nodes, i, depth);
    }
    assert nodes[..|nodes|] == nodes;
  }
}
