/** Parsing what the serializer writes. Rendering a forest whose names the
    parser could have produced and parsing the text again gives the same
    shape, names and kinds, with the groups the naming convention assigns in
    document order; only the ids differ. A forest the parser produced already
    carries exactly those groups, so parse, render and parse again is the
    identity up to ids. */
module RoundTrip {
  import opened Text
  import opened Forest
  import opened Seqs
  import opened Parser
  import opened ParseFacts
  import opened Serializer

  /** Every node name in the forest is one the parser can produce. */
  predicate WellFormedForest(f: seq<Node>)
  {
    |f| == 0 || (WellFormedName(f[0].name, f[0].kind) && WellFormedForest(f[0].children) && WellFormedForest(f[1..]))
  }

  datatype Grouped = Grouped(forest: seq<Node>, server: string)

  /** The naming convention applied to a whole forest: walking the nodes in
      document order while tracking the server id in force, every node gets
      the groups its own line would get. */
  function Regroup(f: seq<Node>, server: string): (r: Grouped)
    ensures |r.forest| == |f|
  {
    if |f| == 0 then Grouped([], server)
    else
      var n := f[0];
      var here := ServerAfter(n.name, server);
      var kids := Regroup(n.children, here);
      var rest := Regroup(f[1..], kids.server);
      Grouped([n.(children := kids.forest, groups := GroupsFor(n.kind, here, n.name))] + rest.forest, rest.server)
  }

  lemma RegroupCons(n: Node, f: seq<Node>, server: string)
    ensures var here := ServerAfter(n.name, server);
      var kids := Regroup(n.children, here);
      var rest := Regroup(f, kids.server);
      Regroup([n] + f, server) == Grouped([n.(children := kids.forest, groups := GroupsFor(n.kind, here, n.name))] + rest.forest, rest.server)
  {
    ConsSlices(n, f);
  }

  // ---------------------------------------------------------------------
  // Entries without ids
  // ---------------------------------------------------------------------

  /** The entries with their ids forgotten. */
  function Anon(es: seq<Entry>): (r: seq<Entry>)
    ensures |r| == |es|
  {
    seq(|es|, i requires 0 <= i < |es| => es[i].(id := NodeId(0, 0)))
  }

  lemma AnonAppend(xs: seq<Entry>, ys: seq<Entry>)
    ensures Anon(xs + ys) == Anon(xs) + Anon(ys)
  {
  }

  lemma AnonSlice(es: seq<Entry>, a: nat, b: nat)
    requires a <= b <= |es|
    ensures Anon(es)[a..b] == Anon(es[a..b])
    ensures Anon(es)[a..] == Anon(es[a..])
  {
  }

  lemma {:induction false} SubtreeLenAnon(es: seq<Entry>, level: int)
    ensures SubtreeLen(Anon(es), level) == SubtreeLen(es, level)
  {
    if es != [] && es[0].level > level {
      AnonSlice(es, 1, |es|);
      SubtreeLenAnon(es[1..], level);
    }
  }

  lemma UnlabelCons(n: Node, f: seq<Node>)
    ensures Unlabel([n] + f) == [n.(id := NodeId(0, 0), children := Unlabel(n.children))] + Unlabel(f)
  {
    ConsSlices(n, f);
  }

  /** The entries of each node, ids forgotten, in document order: depth two
      spaces per level. */
  function Flat(f: seq<Node>, depth: nat): (r: seq<Entry>)
    ensures |r| == Size(f)
  {
    if |f| == 0 then []
    else [Entry(2 * depth, NodeId(0, 0), f[0].name, f[0].kind, f[0].groups)] + Flat(f[0].children, depth + 1) + Flat(f[1..], depth)
  }

  lemma FlatCons(n: Node, f: seq<Node>, depth: nat)
    ensures Flat([n] + f, depth) == [Entry(2 * depth, NodeId(0, 0), n.name, n.kind, n.groups)] + Flat(n.children, depth + 1) + Flat(f, depth)
  {
    ConsSlices(n, f);
  }

  lemma {:induction false} FlatDeeper(f: seq<Node>, depth: nat, level: int)
    requires level < 2 * depth
    ensures AllDeeper(Flat(f, depth), level)
  {
    if |f| != 0 {
      var e := Entry(2 * depth, NodeId(0, 0), f[0].name, f[0].kind, f[0].groups);
      var a := Flat(f[0].children, depth + 1);
      var b := Flat(f[1..], depth);
      FlatDeeper(f[0].children, depth + 1, level);
      FlatDeeper(f[1..], depth, level);
      forall k | 0 <= k < 1 + |a| + |b|
        ensures ([e] + a + b)[k].level > level
      {
        ConsConcatAt(e, a, b, k);
      }
    }
  }

  /** The unlabelled forest is what its own entries build. */
  lemma {:induction false} BuildFlat(f: seq<Node>, depth: nat)
    ensures Build(Flat(f, depth)) == Unlabel(f)
  {
    if |f| == 0 {
      assert Flat(f, depth) == [];
    } else {
      var e := Entry(2 * depth, NodeId(0, 0), f[0].name, f[0].kind, f[0].groups);
      var a := Flat(f[0].children, depth + 1);
      var b := Flat(f[1..], depth);
      BuildFlat(f[0].children, depth + 1);
      BuildFlat(f[1..], depth);
      FlatDeeper(f[0].children, depth + 1, 2 * depth);
      BuildFlatStep(e, a, b, depth);
    }
  }

  lemma BuildFlatStep(e: Entry, a: seq<Entry>, b: seq<Entry>, depth: nat)
    requires e.level == 2 * depth && AllDeeper(a, 2 * depth)
    requires b != [] ==> b[0].level == 2 * depth
    ensures Build([e] + a + b) == [MakeNode(e, Build(a))] + Build(b)
  {
    var es := [e] + a + b;
    assert es[0] == e && es[1..] == a + b;
    SubtreeLenAppend(a, b, 2 * depth);
    SubtreeLenAll(a, 2 * depth);
    assert es[1..1 + |a|] == a && es[1 + |a|..] == b;
    BuildUnfold(es);
  }

  /** Building does not look at ids: forgetting them before or after gives
      the same forest. */
  lemma {:induction false} UnlabelBuild(es: seq<Entry>)
    ensures Unlabel(Build(es)) == Build(Anon(es))
    decreases |es|
  {
    if |es| == 0 {
      assert Build(es) == [] && Anon(es) == [];
    } else {
      var m := SubtreeLen(es[1..], es[0].level);
      UnlabelBuild(es[1..1 + m]);
      UnlabelBuild(es[1 + m..]);
      UnlabelBuildStep(es, m);
    }
  }

  lemma UnlabelBuildStep(es: seq<Entry>, m: nat)
    requires es != [] && m == SubtreeLen(es[1..], es[0].level)
    requires Unlabel(Build(es[1..1 + m])) == Build(Anon(es[1..1 + m]))
    requires Unlabel(Build(es[1 + m..])) == Build(Anon(es[1 + m..]))
    ensures Unlabel(Build(es)) == Build(Anon(es))
  {
    var ae := Anon(es);
    BuildUnfold(es);
    AnonSlice(es, 1, 1 + m);
    AnonSlice(es, 1 + m, |es|);
    SubtreeLenAnon(es[1..], es[0].level);
    assert ae[0] == es[0].(id := NodeId(0, 0));
    BuildUnfold(ae);
    UnlabelCons(MakeNode(es[0], Build(es[1..1 + m])), Build(es[1 + m..]));
  }

  // ---------------------------------------------------------------------
  // Scanning the rendered lines
  // ---------------------------------------------------------------------

  /** A scan with the line classifier as a parameter: the same walk as
      `Scan`, for any classifier. */
  function Fold(cls: (string, nat, string) -> LineResult, lines: seq<string>, base: nat, start: string): ScanState
  {
    if |lines| == 0 then ScanState([], start)
    else
      var prev := Fold(cls, lines[..|lines| - 1], base, start);
      var c := cls(lines[|lines| - 1], base + |lines| - 1, prev.server);
      if c.Skip? then prev else ScanState(prev.entries + [c.entry], c.server)
  }

  /** The editor's classifier for one parse. */
  function Classifier(stamp: int): (string, nat, string) -> LineResult
  {
    (line: string, index: nat, server: string) => ClassifyLine(line, index, stamp, server)
  }

  lemma {:induction false} ScanIsFold(lines: seq<string>, stamp: int, base: nat, start: string)
    ensures Scan(lines, stamp, base, start) == Fold(Classifier(stamp), lines, base, start)
    decreases |lines|
  {
    if |lines| != 0 {
      var init := lines[..|lines| - 1];
      ScanIsFold(init, stamp, base, start);
      var c := ClassifyLine(lines[|lines| - 1], base + |lines| - 1, stamp, Scan(init, stamp, base, start).server);
      assert Classifier(stamp)(lines[|lines| - 1], base + |lines| - 1, Fold(Classifier(stamp), init, base, start).server) == c;
    }
  }

  /** Folding two blocks of lines one after the other: the second starts at
      its own line index with the server id the first leaves in force. */
  lemma {:induction false} FoldAppend(cls: (string, nat, string) -> LineResult, xs: seq<string>, ys: seq<string>, base: nat, start: string)
    ensures var a := Fold(cls, xs, base, start);
      var b := Fold(cls, ys, base + |xs|, a.server);
      && Fold(cls, xs + ys, base, start).entries == a.entries + b.entries
      && Fold(cls, xs + ys, base, start).server == b.server
    decreases |ys|
  {
    var a := Fold(cls, xs, base, start);
    if |ys| == 0 {
      assert xs + ys == xs;
    } else {
      var init := ys[..|ys| - 1];
      var all := xs + ys;
      FoldAppend(cls, xs, init, base, start);
      assert all[..|all| - 1] == xs + init && all[|all| - 1] == ys[|ys| - 1];
      var q := Fold(cls, init, base + |xs|, a.server);
      var c := cls(ys[|ys| - 1], base + |xs| + |ys| - 1, q.server);
      if c.Keep? {
        AppendAssoc(a.entries, q.entries, [c.entry]);
      }
    }
  }

  /** The empty piece after the last line break adds nothing. */
  lemma FoldBlankLast(lines: seq<string>, stamp: int, base: nat, start: string)
    ensures Fold(Classifier(stamp), lines + [""], base, start).entries == Fold(Classifier(stamp), lines, base, start).entries
  {
    var all := lines + [""];
    assert all[..|all| - 1] == lines && all[|all| - 1] == "";
    assert IsBlank("");
  }

  // ---------------------------------------------------------------------
  // Parsing rendered text
  // ---------------------------------------------------------------------

  /** A line the serializer writes for a well-formed name classifies as that
      name at the depth of its indentation, with the naming convention's
      groups under the server id it leaves in force. */
  lemma ClassifyRendered(depth: nat, name: string, kind: Kind, index: nat, stamp: int, server: string)
    requires WellFormedName(name, kind)
    ensures var here := ServerAfter(name, server);
      ClassifyLine(Indent(depth) + name, index, stamp, server) ==
        Keep(Entry(2 * depth, NodeId(stamp, index), name, kind, GroupsFor(kind, here, name)), here)
  {
    var pad := Indent(depth);
    PaddedLine(pad, name);
    assert StartsWith(name, "[") <==> name[0] == '[';
    assert KindOf(name) == kind;
  }

  /** What a classifier does with the lines the serializer writes: a line
      for a well-formed name is kept, at the depth of its indentation, with
      the name, the kind its first character gives, the convention's groups
      under the server id it leaves in force. */
  ghost predicate KeepsRendered(cls: (string, nat, string) -> LineResult)
  {
    forall depth: nat, name: string, index: nat, server: string
      {:trigger cls(LineOf(depth, name), index, server)}
      :: WellFormedName(name, KindOf(name)) ==>
        var c := cls(LineOf(depth, name), index, server);
        var here := ServerAfter(name, server);
        && c.Keep? && c.server == here
        && c.entry.(id := NodeId(0, 0)) == Entry(2 * depth, NodeId(0, 0), name, KindOf(name), GroupsFor(KindOf(name), here, name))
  }

  lemma ClassifierKeepsRendered(stamp: int)
    ensures KeepsRendered(Classifier(stamp))
  {
    forall depth: nat, name: string, index: nat, server: string | WellFormedName(name, KindOf(name))
      ensures var c := Classifier(stamp)(LineOf(depth, name), index, server);
        var here := ServerAfter(name, server);
        && c.Keep? && c.server == here
        && c.entry.(id := NodeId(0, 0)) == Entry(2 * depth, NodeId(0, 0), name, KindOf(name), GroupsFor(KindOf(name), here, name))
    {
      ClassifyRendered(depth, name, KindOf(name), index, stamp, server);
    }
  }

  lemma KindOfWellFormed(name: string, kind: Kind)
    requires WellFormedName(name, kind)
    ensures KindOf(name) == kind
  {
    assert StartsWith(name, "[") <==> name[0] == '[';
  }

  /** Folding a single line. */
  lemma FoldOne(cls: (string, nat, string) -> LineResult, line: string, base: nat, start: string)
    ensures var c := cls(line, base, start);
      Fold(cls, [line], base, start) == if c.Skip? then ScanState([], start) else ScanState([c.entry], c.server)
  {
    assert [line][..0] == [];
  }

  /** Folding a kept head line, then two blocks. */
  lemma FoldThree(cls: (string, nat, string) -> LineResult, h: string, xs: seq<string>, ys: seq<string>,
                  base: nat, start: string, e: Entry, here: string)
    requires cls(h, base, start) == Keep(e, here)
    ensures var a := Fold(cls, xs, base + 1, here);
      var b := Fold(cls, ys, base + 1 + |xs|, a.server);
      && Fold(cls, [h] + xs + ys, base, start).entries == [e] + a.entries + b.entries
      && Fold(cls, [h] + xs + ys, base, start).server == b.server
  {
    FoldOne(cls, h, base, start);
    FoldAppend(cls, [h], xs, base, start);
    FoldAppend(cls, [h] + xs, ys, base, start);
  }

  /** The entries of a regrouped forest whose first node's line yields `e`. */
  lemma FlatRegroupCons(f: seq<Node>, depth: nat, start: string, here: string, kids: Grouped,
                        e: Entry, a: seq<Entry>, b: seq<Entry>)
    requires f != [] && here == ServerAfter(f[0].name, start) && kids == Regroup(f[0].children, here)
    requires e.(id := NodeId(0, 0)) == Entry(2 * depth, NodeId(0, 0), f[0].name, f[0].kind, GroupsFor(f[0].kind, here, f[0].name))
    requires Anon(a) == Flat(kids.forest, depth + 1)
    requires Anon(b) == Flat(Regroup(f[1..], kids.server).forest, depth)
    ensures Anon([e] + a + b) == Flat(Regroup(f, start).forest, depth)
  {
    var n := f[0];
    var rest := Regroup(f[1..], kids.server);
    AnonCons(e, a, b);
    assert [n] + f[1..] == f;
    RegroupCons(n, f[1..], start);
    FlatCons(n.(children := kids.forest, groups := GroupsFor(n.kind, here, n.name)), rest.forest, depth);
  }

  lemma AnonCons(e: Entry, a: seq<Entry>, b: seq<Entry>)
    ensures Anon([e] + a + b) == [e.(id := NodeId(0, 0))] + Anon(a) + Anon(b)
  {
    AnonAppend([e] + a, b);
    AnonAppend([e], a);
    assert Anon([e]) == [e.(id := NodeId(0, 0))];
  }

  /** The scan of rendered lines, ids forgotten, is the regrouped forest's
      own entries, and it leaves the regrouped forest's last server id in
      force. */
  lemma {:induction false} FoldRendered(cls: (string, nat, string) -> LineResult, f: seq<Node>, depth: nat, base: nat, start: string)
    requires KeepsRendered(cls) && WellFormedForest(f)
    ensures Anon(Fold(cls, RenderLines(f, depth), base, start).entries) == Flat(Regroup(f, start).forest, depth)
    ensures Fold(cls, RenderLines(f, depth), base, start).server == Regroup(f, start).server
  {
    if |f| != 0 {
      var n := f[0];
      var kidLines := RenderLines(n.children, depth + 1);
      var here := ServerAfter(n.name, start);
      var kids := Regroup(n.children, here);
      FoldRendered(cls, n.children, depth + 1, base + 1, here);
      var restBase := base + 1 + |kidLines|;
      FoldRendered(cls, f[1..], depth, restBase, kids.server);
      FoldRenderedStep(cls, f, depth, base, start, kidLines, here, kids, restBase);
    }
  }

  lemma FoldRenderedStep(cls: (string, nat, string) -> LineResult, f: seq<Node>, depth: nat, base: nat, start: string,
                         kidLines: seq<string>, here: string, kids: Grouped, restBase: nat)
    requires KeepsRendered(cls) && WellFormedForest(f) && f != []
    requires kidLines == RenderLines(f[0].children, depth + 1) && restBase == base + 1 + |kidLines|
    requires here == ServerAfter(f[0].name, start) && kids == Regroup(f[0].children, here)
    requires Anon(Fold(cls, kidLines, base + 1, here).entries) == Flat(kids.forest, depth + 1)
    requires Fold(cls, kidLines, base + 1, here).server == kids.server
    requires Anon(Fold(cls, RenderLines(f[1..], depth), restBase, kids.server).entries) == Flat(Regroup(f[1..], kids.server).forest, depth)
    requires Fold(cls, RenderLines(f[1..], depth), restBase, kids.server).server == Regroup(f[1..], kids.server).server
    ensures Anon(Fold(cls, RenderLines(f, depth), base, start).entries) == Flat(Regroup(f, start).forest, depth)
    ensures Fold(cls, RenderLines(f, depth), base, start).server == Regroup(f, start).server
  {
    var n := f[0];
    var h := LineOf(depth, n.name);
    var restLines := RenderLines(f[1..], depth);
    KindOfWellFormed(n.name, n.kind);
    var c := cls(h, base, start);
    FoldThree(cls, h, kidLines, restLines, base, start, c.entry, here);
    var a := Fold(cls, kidLines, base + 1, here);
    var b := Fold(cls, restLines, base + 1 + |kidLines|, kids.server);
    FlatRegroupCons(f, depth, start, here, kids, c.entry, a.entries, b.entries);
  }

  /** No rendered line holds a line break. */
  predicate NoBreaks(lines: seq<string>) {
    forall i | 0 <= i < |lines| :: '\n' !in lines[i]
  }

  lemma NoBreaksConcat(x: string, a: seq<string>, b: seq<string>)
    requires '\n' !in x && NoBreaks(a) && NoBreaks(b)
    ensures NoBreaks([x] + a + b)
  {
    forall k | 0 <= k < 1 + |a| + |b|
      ensures '\n' !in ([x] + a + b)[k]
    {
      ConsConcatAt(x, a, b, k);
    }
  }

  lemma {:induction false} RenderLinesNoBreak(f: seq<Node>, depth: nat)
    requires WellFormedForest(f)
    ensures NoBreaks(RenderLines(f, depth))
  {
    if |f| != 0 {
      RenderLinesNoBreak(f[0].children, depth + 1);
      RenderLinesNoBreak(f[1..], depth);
      var pad := Indent(depth);
      assert '\n' !in pad;
      assert LineOf(depth, f[0].name) == pad + f[0].name;
      NoBreaksConcat(LineOf(depth, f[0].name), RenderLines(f[0].children, depth + 1), RenderLines(f[1..], depth));
    }
  }

  /** Parsing what the serializer writes for a forest of well-formed names
      gives back that forest, ids aside, with the groups the naming
      convention assigns in document order. */
  lemma RenderParse(f: seq<Node>, stamp: int)
    requires WellFormedForest(f)
    ensures Unlabel(Parsed(Render(f, 0), stamp)) == Unlabel(Regroup(f, DefaultServer).forest)
  {
    var lines := RenderLines(f, 0);
    var cls := Classifier(stamp);
    RenderIsLines(f, 0);
    RenderLinesNoBreak(f, 0);
    SplitTerminated(lines);
    ScanIsFold(lines + [""], stamp, 0, DefaultServer);
    FoldBlankLast(lines, stamp, 0, DefaultServer);
    ClassifierKeepsRendered(stamp);
    FoldRendered(cls, f, 0, 0, DefaultServer);
    UnlabelBuild(Fold(cls, lines, 0, DefaultServer).entries);
    BuildFlat(Regroup(f, DefaultServer).forest, 0);
  }

  // ---------------------------------------------------------------------
  // A parsed forest already follows the naming convention
  // ---------------------------------------------------------------------

  /** The server id in force after the entries, starting from `server`. */
  function ServerThrough(es: seq<Entry>, server: string): string
    decreases |es|
  {
    if |es| == 0 then server else ServerThrough(es[1..], ServerAfter(es[0].name, server))
  }

  /** Every entry carries the convention's groups under the server id in
      force at it. */
  predicate GroupedFrom(es: seq<Entry>, server: string)
    decreases |es|
  {
    |es| == 0 ||
      (var here := ServerAfter(es[0].name, server);
       es[0].groups == GroupsFor(es[0].kind, here, es[0].name) && GroupedFrom(es[1..], here))
  }

  lemma {:induction false} GroupedAppend(xs: seq<Entry>, ys: seq<Entry>, server: string)
    ensures ServerThrough(xs + ys, server) == ServerThrough(ys, ServerThrough(xs, server))
    ensures GroupedFrom(xs + ys, server) <==> GroupedFrom(xs, server) && GroupedFrom(ys, ServerThrough(xs, server))
    decreases |xs|
  {
    if |xs| == 0 {
      assert xs + ys == ys;
    } else {
      DropOfAppend(xs, ys, 1);
      assert (xs + ys)[0] == xs[0];
      GroupedAppend(xs[1..], ys, ServerAfter(xs[0].name, server));
    }
  }

  lemma GroupedSingle(e: Entry, server: string)
    ensures ServerThrough([e], server) == ServerAfter(e.name, server)
    ensures GroupedFrom([e], server) <==> e.groups == GroupsFor(e.kind, ServerAfter(e.name, server), e.name)
  {
    assert [e][1..] == [];
  }

  /** What the editor's classifier promises about every kept line: it leaves
      in force the server id its name sets, it carries the convention's
      groups under that id, and without a line break in it the name is well
      formed. */
  ghost predicate Conventional(cls: (string, nat, string) -> LineResult)
  {
    forall line: string, index: nat, server: string {:trigger cls(line, index, server)} ::
      var c := cls(line, index, server);
      c.Keep? ==>
        && c.server == ServerAfter(c.entry.name, server)
        && c.entry.groups == GroupsFor(c.entry.kind, c.server, c.entry.name)
        && ('\n' !in line ==> WellFormedName(c.entry.name, c.entry.kind))
  }

  lemma ClassifyConventional(line: string, index: nat, stamp: int, server: string)
    ensures var c := ClassifyLine(line, index, stamp, server);
      c.Keep? ==>
        && c.server == ServerAfter(c.entry.name, server)
        && ('\n' !in line ==> WellFormedName(c.entry.name, c.entry.kind))
  {
    if !IsBlank(line) {
      var name := Trim(line);
      if KindOf(name) == Folder {
        assert CollapseSpaces(name)[0] == name[0];
      }
      if '\n' !in line {
        ClassifyWellFormed(line, index, stamp, server);
      }
    }
  }

  lemma ClassifierConventional(stamp: int)
    ensures Conventional(Classifier(stamp))
  {
    forall line: string, index: nat, server: string
      ensures var c := Classifier(stamp)(line, index, server);
        c.Keep? ==>
          && c.server == ServerAfter(c.entry.name, server)
          && c.entry.groups == GroupsFor(c.entry.kind, c.server, c.entry.name)
          && ('\n' !in line ==> WellFormedName(c.entry.name, c.entry.kind))
    {
      ClassifyConventional(line, index, stamp, server);
    }
  }

  predicate AllWellFormed(es: seq<Entry>) {
    forall i | 0 <= i < |es| :: WellFormedName(es[i].name, es[i].kind)
  }

  lemma {:induction false} FoldConventional(cls: (string, nat, string) -> LineResult, lines: seq<string>, base: nat, start: string)
    requires Conventional(cls) && NoBreaks(lines)
    ensures ConventionalFrom(Fold(cls, lines, base, start), start)
    decreases |lines|
  {
    if |lines| != 0 {
      var init := lines[..|lines| - 1];
      var line := lines[|lines| - 1];
      assert NoBreaks(init) && '\n' !in line;
      FoldConventional(cls, init, base, start);
      var prev := Fold(cls, init, base, start);
      var index := base + |lines| - 1;
      var c := cls(line, index, prev.server);
      FoldConventionalStep(prev, c, Fold(cls, lines, base, start), start, line);
    }
  }

  /** The entries of a scan carry the convention's groups, end with the server
      id the scan leaves in force and have well-formed names. */
  ghost predicate ConventionalFrom(r: ScanState, start: string) {
    && GroupedFrom(r.entries, start)
    && ServerThrough(r.entries, start) == r.server
    && AllWellFormed(r.entries)
  }

  lemma FoldConventionalStep(prev: ScanState, c: LineResult, now: ScanState, start: string, line: string)
    requires ConventionalFrom(prev, start)
    requires now == if c.Skip? then prev else ScanState(prev.entries + [c.entry], c.server)
    requires c.Keep? ==>
        && c.server == ServerAfter(c.entry.name, prev.server)
        && c.entry.groups == GroupsFor(c.entry.kind, c.server, c.entry.name)
        && ('\n' !in line ==> WellFormedName(c.entry.name, c.entry.kind))
    requires '\n' !in line
    ensures ConventionalFrom(now, start)
  {
    if c.Keep? {
      GroupedAppend(prev.entries, [c.entry], start);
      GroupedSingle(c.entry, prev.server);
      assert AllWellFormed(prev.entries + [c.entry]) by {
        forall i | 0 <= i < |prev.entries| + 1
          ensures WellFormedName((prev.entries + [c.entry])[i].name, (prev.entries + [c.entry])[i].kind)
        {
          if i < |prev.entries| {
            assert (prev.entries + [c.entry])[i] == prev.entries[i];
          }
        }
      }
    }
  }

  lemma AllWellFormedSlice(es: seq<Entry>, a: nat, b: nat)
    requires a <= b <= |es| && AllWellFormed(es)
    ensures AllWellFormed(es[a..b])
  {
    forall i | 0 <= i < b - a
      ensures WellFormedName(es[a..b][i].name, es[a..b][i].kind)
    {
      assert es[a..b][i] == es[a + i];
    }
  }

  lemma GroupedSplit(es: seq<Entry>, m: nat, server: string)
    requires 1 + m <= |es|
    ensures var here := ServerAfter(es[0].name, server);
      && ServerThrough(es, server) == ServerThrough(es[1 + m..], ServerThrough(es[1..1 + m], here))
      && (GroupedFrom(es, server) <==>
           es[0].groups == GroupsFor(es[0].kind, here, es[0].name)
           && GroupedFrom(es[1..1 + m], here) && GroupedFrom(es[1 + m..], ServerThrough(es[1..1 + m], here)))
  {
    var here := ServerAfter(es[0].name, server);
    assert es[1..] == es[1..1 + m] + es[1 + m..];
    GroupedAppend(es[1..1 + m], es[1 + m..], here);
  }

  /** Regrouping a forest built from entries that already carry the
      convention's groups changes nothing. */
  lemma {:induction false} RegroupBuild(es: seq<Entry>, server: string)
    requires GroupedFrom(es, server)
    ensures Regroup(Build(es), server) == Grouped(Build(es), ServerThrough(es, server))
    decreases |es|
  {
    if |es| == 0 {
      assert Build(es) == [];
    } else {
      var m := SubtreeLen(es[1..], es[0].level);
      var here := ServerAfter(es[0].name, server);
      GroupedSplit(es, m, server);
      RegroupBuild(es[1..1 + m], here);
      var mid := ServerThrough(es[1..1 + m], here);
      RegroupBuild(es[1 + m..], mid);
      RegroupBuildStep(es, m, server, here, mid);
    }
  }

  lemma RegroupBuildStep(es: seq<Entry>, m: nat, server: string, here: string, mid: string)
    requires es != [] && m == SubtreeLen(es[1..], es[0].level)
    requires here == ServerAfter(es[0].name, server) && mid == ServerThrough(es[1..1 + m], here)
    requires es[0].groups == GroupsFor(es[0].kind, here, es[0].name)
    requires ServerThrough(es, server) == ServerThrough(es[1 + m..], mid)
    requires Regroup(Build(es[1..1 + m]), here) == Grouped(Build(es[1..1 + m]), mid)
    requires Regroup(Build(es[1 + m..]), mid) == Grouped(Build(es[1 + m..]), ServerThrough(es[1 + m..], mid))
    ensures Regroup(Build(es), server) == Grouped(Build(es), ServerThrough(es, server))
  {
    var n := MakeNode(es[0], Build(es[1..1 + m]));
    BuildUnfold(es);
    RegroupCons(n, Build(es[1 + m..]), server);
    assert n.(children := Build(es[1..1 + m]), groups := GroupsFor(n.kind, here, n.name)) == n;
  }

  /** A forest built from well-formed entries is well formed. */
  lemma {:induction false} BuildWellFormed(es: seq<Entry>)
    requires AllWellFormed(es)
    ensures WellFormedForest(Build(es))
    decreases |es|
  {
    if |es| == 0 {
      assert Build(es) == [];
    } else {
      var m := SubtreeLen(es[1..], es[0].level);
      AllWellFormedSlice(es, 1, 1 + m);
      AllWellFormedSlice(es, 1 + m, |es|);
      assert es[1 + m..|es|] == es[1 + m..];
      BuildWellFormed(es[1..1 + m]);
      BuildWellFormed(es[1 + m..]);
      BuildUnfold(es);
      var n := MakeNode(es[0], Build(es[1..1 + m]));
      ConsSlices(n, Build(es[1 + m..]));
    }
  }

  /** Every forest the editor parses has well-formed names and already
      carries the groups the convention assigns. */
  lemma ParsedConventional(text: string, stamp: int)
    ensures WellFormedForest(Parsed(text, stamp))
    ensures Regroup(Parsed(text, stamp), DefaultServer).forest == Parsed(text, stamp)
  {
    var lines := Split(text, '\n');
    ScanIsFold(lines, stamp, 0, DefaultServer);
    ClassifierConventional(stamp);
    FoldConventional(Classifier(stamp), lines, 0, DefaultServer);
    var es := Fold(Classifier(stamp), lines, 0, DefaultServer).entries;
    assert GroupedFrom(es, DefaultServer) && AllWellFormed(es);
    BuildWellFormed(es);
    RegroupBuild(es, DefaultServer);
  }

  /** Parse, serialize, parse again: the same shape, names, kinds and
      groups; only the ids differ. */
  lemma ParseRenderParse(text: string, stamp: int, stamp': int)
    ensures Unlabel(Parsed(Render(Parsed(text, stamp), 0), stamp')) == Unlabel(Parsed(text, stamp))
  {
    ParsedConventional(text, stamp);
    RenderParse(Parsed(text, stamp), stamp');
  }

  // ---------------------------------------------------------------------
  // The text survives a parse
  // ---------------------------------------------------------------------

  /** The text does not show ids. */
  lemma {:induction false} RenderUnlabel(f: seq<Node>, depth: nat)
    ensures Render(Unlabel(f), depth) == Render(f, depth)
  {
    if |f| != 0 {
      RenderUnlabel(f[0].children, depth + 1);
      RenderUnlabel(f[1..], depth);
      var n := f[0].(id := NodeId(0, 0), children := Unlabel(f[0].children));
      ConsSlices(n, Unlabel(f[1..]));
    }
  }

  /** The text does not show groups. */
  lemma {:induction false} RenderRegroup(f: seq<Node>, depth: nat, server: string)
    ensures Render(Regroup(f, server).forest, depth) == Render(f, depth)
  {
    if |f| != 0 {
      var n := f[0];
      var here := ServerAfter(n.name, server);
      var kids := Regroup(n.children, here);
      var rest := Regroup(f[1..], kids.server);
      RenderRegroup(n.children, depth + 1, here);
      RenderRegroup(f[1..], depth, kids.server);
      ConsSlices(n.(children := kids.forest, groups := GroupsFor(n.kind, here, n.name)), rest.forest);
    }
  }

  /** Serializing, parsing and serializing again reproduces the text. */
  lemma RenderParseRender(f: seq<Node>, stamp: int)
    requires WellFormedForest(f)
    ensures Render(Parsed(Render(f, 0), stamp), 0) == Render(f, 0)
  {
    var p := Parsed(Render(f, 0), stamp);
    RenderParse(f, stamp);
    RenderUnlabel(p, 0);
    RenderUnlabel(Regroup(f, DefaultServer).forest, 0);
    RenderRegroup(f, 0, DefaultServer);
  }
}
