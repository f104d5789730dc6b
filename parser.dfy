/** The indent parser of the provisioning editor: free text becomes a forest of
    server and folder nodes. Depth is the count of leading whitespace
    characters, a line nests under the nearest earlier line that is strictly
    shallower, and folder groups are scoped by the most recent server line in
    document order.

    The specification is functional: `Scan` classifies the lines in order,
    threading the current server, and `Build` nests the kept lines. The method
    `Parse` is the editor's own stack algorithm, proved equal to it. */
module Parser {
  import opened Opt
  import opened Text
  import opened Forest
  import opened Seqs

  /** The server id in force before any server line has been seen. */
  const DefaultServer: string := "SERVER"

  /** A kept line: its depth and the node it becomes, still without children. */
  datatype Entry = Entry(level: nat, id: NodeId, name: string, kind: Kind, groups: seq<string>)

  function MakeNode(e: Entry, children: seq<Node>): Node {
    Node(e.id, e.name, e.kind, children, e.groups)
  }

  function Heads(es: seq<Entry>): (r: seq<Node>)
    ensures |r| == |es|
  {
    if es == [] then [] else [MakeNode(es[0], [])] + Heads(es[1..])
  }

  // ---------------------------------------------------------------------
  // Line classification and group naming
  // ---------------------------------------------------------------------

  /** Characters of the captured server id: `[^|\s\]]`. */
  predicate IsIdChar(c: char) {
    c != '|' && c != ']' && !IsSpace(c)
  }

  /** Length of the longest prefix made of id characters. */
  function IdRun(s: string): (n: nat)
    ensures n <= |s|
    ensures forall i | 0 <= i < n :: IsIdChar(s[i])
    ensures n < |s| ==> !IsIdChar(s[n])
  {
    if s == [] || !IsIdChar(s[0]) then 0 else 1 + IdRun(s[1..])
  }

  /** The capture group of `/^\[\s*([^|\s\]]+)/` on a trimmed line, if the
      expression matches: the first run of id characters after the bracket and
      any whitespace. */
  function ServerIdOf(name: string): (r: Option<string>)
    ensures r.Some? ==> StartsWith(name, "[") && r.value != []
    ensures r.Some? ==> forall i | 0 <= i < |r.value| :: IsIdChar(r.value[i])
    ensures r.Some? ==> exists pad :: IsBlank(pad) && StartsWith(name, "[" + pad + r.value)
    ensures r.Some? <==> StartsWith(name, "[") && IdRun(name[1..][LeadingSpaces(name[1..])..]) > 0
    ensures r.Some? ==>
      var body := name[1..][LeadingSpaces(name[1..])..];
      r.value == body[..IdRun(body)]
  {
    if !StartsWith(name, "[") then None
    else
      var rest := name[1..];
      var body := rest[LeadingSpaces(rest)..];
      var k := IdRun(body);
      if k == 0 then None
      else
        var pad := rest[..LeadingSpaces(rest)];
        assert name[..1 + |pad| + k] == "[" + pad + body[..k];
        Some(body[..k])
  }

  /** The naming convention: a read group and a write group per folder,
      `S_<server>_<name>_R` and `S_<server>_<name>_W`. */
  function GroupPair(server: string, name: string): seq<string> {
    ["S_" + server + "_" + name + "_R", "S_" + server + "_" + name + "_W"]
  }

  /** The server id in force after a non-blank line whose trimmed text is
      `name`: a server line whose id matches replaces it, every other line
      keeps it. */
  function ServerAfter(name: string, server: string): string {
    if StartsWith(name, "[") && ServerIdOf(name).Some? then ServerIdOf(name).value else server
  }

  /** A node name the parser can produce: trimmed, on one line, a server
      exactly when it starts with a bracket, and free of whitespace when it is
      a folder. */
  predicate WellFormedName(name: string, kind: Kind) {
    && IsTrimmed(name)
    && '\n' !in name
    && (kind == Server <==> name[0] == '[')
    && (kind == Folder ==> NoSpace(name))
  }

  /** The groups the convention gives a node of this kind under this server. */
  function GroupsFor(kind: Kind, server: string, name: string): seq<string> {
    if kind == Server then [] else GroupPair(server, name)
  }

  datatype LineResult = Skip | Keep(entry: Entry, server: string)

  /** A line is a server line when its trimmed text starts with a bracket. */
  function KindOf(name: string): Kind {
    if StartsWith(name, "[") then Server else Folder
  }

  /** The display name: a server name verbatim, a folder name with each
      whitespace run collapsed to an underscore. */
  function SafeName(name: string): string {
    if KindOf(name) == Server then name else CollapseSpaces(name)
  }

  lemma TrimKeepsOut(line: string, c: char)
    requires c !in line
    ensures c !in Trim(line)
  {
    var t := Trim(line);
    assert forall i | 0 <= i < |t| :: t[i] == line[LeadingSpaces(line) + i];
  }

  /** The name a non-blank line produces is well formed. */
  lemma SafeNameWellFormed(line: string)
    requires !IsBlank(line) && '\n' !in line
    ensures WellFormedName(SafeName(Trim(line)), KindOf(Trim(line)))
  {
    var name := Trim(line);
    TrimKeepsOut(line, '\n');
    if KindOf(name) == Folder {
      var r := CollapseSpaces(name);
      assert r[0] == name[0];
      assert !IsSpace(r[|r| - 1]);
      assert '\n' !in r by {
        assert IsSpace('\n');
      }
    }
  }

  /** One pass of the editor's per-line callback: a blank line is skipped;
      otherwise the line becomes a server node (name verbatim, no groups) when
      its trimmed text starts with a bracket, or a folder node (whitespace runs
      collapsed to underscores, the read/write group pair) otherwise. */
  function ClassifyLine(line: string, index: nat, stamp: int, server: string): (r: LineResult)
    ensures r.Skip? <==> IsBlank(line)
    ensures r.Keep? ==> r.entry.id == NodeId(stamp, index)
    ensures r.Keep? && r.server != server ==> r.entry.kind == Server
    ensures r.Keep? ==> r.entry.groups == GroupsFor(r.entry.kind, r.server, r.entry.name)
  {
    if IsBlank(line) then Skip
    else
      var name := Trim(line);
      var server' := ServerAfter(name, server);
      var kind := KindOf(name);
      var safeName := SafeName(name);
      var groups := if kind == Server then [] else GroupPair(server', safeName);
      Keep(Entry(LeadingSpaces(line), NodeId(stamp, index), safeName, kind, groups), server')
  }

  /** Every node the editor builds from a line has a well-formed name. */
  lemma ClassifyWellFormed(line: string, index: nat, stamp: int, server: string)
    requires '\n' !in line
    ensures var r := ClassifyLine(line, index, stamp, server);
      r.Keep? ==> WellFormedName(r.entry.name, r.entry.kind)
  {
    if !IsBlank(line) {
      SafeNameWellFormed(line);
    }
  }

  datatype ScanState = ScanState(entries: seq<Entry>, server: string)

  /** Classifies `lines` in order, `base` being the index of the first of them
      and `start` the server id in force before it; yields the kept entries
      and the server id in force afterwards. */
  function Scan(lines: seq<string>, stamp: int, base: nat, start: string): ScanState
  {
    if lines == [] then ScanState([], start)
    else
      var prev := Scan(lines[..|lines| - 1], stamp, base, start);
      match ClassifyLine(lines[|lines| - 1], base + |lines| - 1, stamp, prev.server)
      case Skip => prev
      case Keep(e, s) => ScanState(prev.entries + [e], s)
  }

  // ---------------------------------------------------------------------
  // Nesting
  // ---------------------------------------------------------------------

  /** How many leading entries are strictly deeper than `level`: the extent of
      the subtree of a line at that level. */
  function SubtreeLen(es: seq<Entry>, level: int): (k: nat)
    ensures k <= |es|
  {
    if es == [] || es[0].level <= level then 0 else 1 + SubtreeLen(es[1..], level)
  }

  /** The forest the kept entries describe: the first entry is a root whose
      subtree is the maximal run of deeper entries after it; the rest form the
      following roots. */
  function Build(es: seq<Entry>): seq<Node>
    decreases |es|
  {
    if es == [] then []
    else
      var k := SubtreeLen(es[1..], es[0].level);
      [MakeNode(es[0], Build(es[1..1 + k]))] + Build(es[1 + k..])
  }

  /** What the editor shows for `text`, with ids drawn from clock reading `stamp`. */
  function Parsed(text: string, stamp: int): seq<Node> {
    Build(Scan(Split(text, '\n'), stamp, 0, DefaultServer).entries)
  }

  /** Every entry is strictly deeper than `level`. */
  ghost predicate AllDeeper(es: seq<Entry>, level: int) {
    forall i | 0 <= i < |es| :: es[i].level > level
  }

  /** No entry is shallower than `level`. */
  ghost predicate NoneShallower(es: seq<Entry>, level: int) {
    forall i | 0 <= i < |es| :: es[i].level >= level
  }

  lemma NoneShallowerDrop(es: seq<Entry>, k: nat, level: int)
    requires k <= |es| && NoneShallower(es, level)
    ensures NoneShallower(es[k..], level)
  {
    assert forall i | 0 <= i < |es| - k :: es[k..][i] == es[k + i];
  }

  /** The subtree extent is the maximal run of deeper entries. */
  lemma {:induction false} SubtreeLenSpec(es: seq<Entry>, level: int)
    ensures forall i | 0 <= i < SubtreeLen(es, level) :: es[i].level > level
    ensures SubtreeLen(es, level) < |es| ==> es[SubtreeLen(es, level)].level <= level
  {
    if es != [] && es[0].level > level {
      SubtreeLenSpec(es[1..], level);
    }
  }

  /** A run of deeper entries followed by nothing or by a line no deeper than
      `level` ends where that run ends. */
  lemma {:induction false} SubtreeLenAppend(xs: seq<Entry>, ys: seq<Entry>, level: int)
    requires ys != [] ==> ys[0].level <= level
    ensures SubtreeLen(xs + ys, level) == SubtreeLen(xs, level)
  {
    if xs == [] {
      assert xs + ys == ys;
    } else {
      assert (xs + ys)[0] == xs[0];
      if xs[0].level > level {
        DropOfAppend(xs, ys, 1);
        SubtreeLenAppend(xs[1..], ys, level);
      }
    }
  }

  lemma {:induction false} SubtreeLenAll(es: seq<Entry>, level: int)
    requires AllDeeper(es, level)
    ensures SubtreeLen(es, level) == |es|
  {
    if es != [] {
      assert AllDeeper(es[1..], level) by {
        assert forall i | 0 <= i < |es| - 1 :: es[1..][i] == es[i + 1];
      }
      SubtreeLenAll(es[1..], level);
    }
  }

  lemma BuildUnfold(es: seq<Entry>)
    requires es != []
    ensures Build(es) == [MakeNode(es[0], Build(es[1..1 + SubtreeLen(es[1..], es[0].level)]))] + Build(es[1 + SubtreeLen(es[1..], es[0].level)..])
  {
  }

  lemma {:induction false} HeadsAppend(xs: seq<Entry>, ys: seq<Entry>)
    ensures Heads(xs + ys) == Heads(xs) + Heads(ys)
  {
    if xs == [] {
      assert xs + ys == ys;
    } else {
      DropOfAppend(xs, ys, 1);
      HeadsAppend(xs[1..], ys);
    }
  }

  /** An entry followed only by deeper entries is a single tree. */
  lemma BuildRoot(e: Entry, rest: seq<Entry>)
    requires AllDeeper(rest, e.level)
    ensures Build([e] + rest) == [MakeNode(e, Build(rest))]
  {
    ConsSlices(e, rest);
    SubtreeLenAll(rest, e.level);
    BuildUnfold([e] + rest);
  }

  /** One unfolding of `Build` on a concatenation whose first block's
      entries are no shallower than the second block's first entry. */
  lemma BuildConcatStep(xs: seq<Entry>, ys: seq<Entry>)
    requires xs != [] && ys != [] && NoneShallower(xs, ys[0].level)
    ensures var k := SubtreeLen(xs[1..], xs[0].level);
      Build(xs + ys) == [MakeNode(xs[0], Build(xs[1..1 + k]))] + Build(xs[1 + k..] + ys)
  {
    var k := SubtreeLen(xs[1..], xs[0].level);
    assert xs[0].level >= ys[0].level;
    SubtreeLenAppend(xs[1..], ys, xs[0].level);
    ConcatSlices(xs, ys, k);
    BuildUnfold(xs + ys);
  }

  /** Entries that start no shallower than the next block's first entry close
      before it: the forest of a concatenation is the concatenation of the
      forests. */
  lemma {:induction false} BuildConcat(xs: seq<Entry>, ys: seq<Entry>)
    requires ys != [] && NoneShallower(xs, ys[0].level)
    ensures Build(xs + ys) == Build(xs) + Build(ys)
    decreases |xs|
  {
    if xs == [] {
      assert xs + ys == ys;
    } else {
      var k := SubtreeLen(xs[1..], xs[0].level);
      var rest := xs[1 + k..];
      var node := MakeNode(xs[0], Build(xs[1..1 + k]));
      BuildConcatStep(xs, ys);
      BuildUnfold(xs);
      NoneShallowerDrop(xs, 1 + k, ys[0].level);
      BuildConcat(rest, ys);
      AppendAssoc([node], Build(rest), Build(ys));
    }
  }

  /** The nodes of the built forest, in document order, are the entries in
      order: one node per kept line. */
  lemma {:induction false} PreorderBuild(es: seq<Entry>)
    ensures Preorder(Build(es)) == Heads(es)
    decreases |es|
  {
    if es != [] {
      var k := SubtreeLen(es[1..], es[0].level);
      var sub := es[1..1 + k];
      var rest := es[1 + k..];
      var n := MakeNode(es[0], Build(sub));
      BuildUnfold(es);
      PreorderAppend([n], Build(rest));
      PreorderSingle(n);
      PreorderBuild(sub);
      PreorderBuild(rest);
      SliceSplit(es, 1, 1 + k);
      HeadsAppend(sub, rest);
      AppendAssoc([Head(n)], Heads(sub), Heads(rest));
    }
  }

  // ---------------------------------------------------------------------
  // The editor's stack
  // ---------------------------------------------------------------------

  /** A stack entry: the sentinel at level -1 whose children are the result,
      or an open node whose children are still being collected. The editor
      keeps a reference to the node's `children` array; here a frame holds the
      children by value and hands the finished node to the frame below when it
      is popped. */
  datatype Frame = Root(kids: seq<Node>) | Open(entry: Entry, kids: seq<Node>)
  {
    function Level(): int {
      if Root? then -1 else entry.level
    }
  }

  /** Pops the top frame, attaching its finished node to the frame below. */
  function PopFrame(stack: seq<Frame>): (r: seq<Frame>)
    requires |stack| >= 2 && stack[|stack| - 1].Open?
    ensures |r| == |stack| - 1
    ensures forall j | 0 <= j < |r| - 1 :: r[j] == stack[j]
    ensures r[|r| - 1].Level() == stack[|r| - 1].Level()
    ensures r[|r| - 1].kids == stack[|r| - 1].kids + [MakeNode(stack[|r|].entry, stack[|r|].kids)]
  {
    var t := |stack| - 1;
    stack[..t - 1] + [stack[t - 1].(kids := stack[t - 1].kids + [MakeNode(stack[t].entry, stack[t].kids)])]
  }

  /** The sentinel at the bottom and open nodes above it. */
  predicate StackShape(stack: seq<Frame>) {
    && |stack| >= 1
    && stack[0].Root?
    && forall j | 1 <= j < |stack| :: stack[j].Open?
  }

  /** What the sentinel's children are once every open frame is closed, as
      the editor's aliased arrays already hold them. */
  function CloseAll(stack: seq<Frame>): seq<Node>
    requires StackShape(stack)
    decreases |stack|
  {
    if |stack| == 1 then stack[0].kids
    else CloseAll(PopFrame(stack))
  }

  /** The stack invariant against the entries `es` kept so far, with `pos[j]`
      the index in `es` of frame `j`'s entry (-1 for the sentinel). */
  ghost predicate Positions(stack: seq<Frame>, pos: seq<int>, es: seq<Entry>) {
    && StackShape(stack)
    && |pos| == |stack|
    && pos[0] == -1
    && pos[|pos| - 1] < |es|
    && (forall j | 1 <= j < |stack| :: 0 <= pos[j] < |es| && stack[j].entry == es[pos[j]])
    && (forall i, j | 0 <= i < j < |stack| :: pos[i] < pos[j] && stack[i].Level() < stack[j].Level())
  }

  /** Every entry after a frame's own is nested under it. */
  ghost predicate Deep(stack: seq<Frame>, pos: seq<int>, es: seq<Entry>)
    requires |pos| == |stack|
  {
    forall j, q | 0 <= j < |stack| && 0 <= q < |es| && pos[j] < q :: es[q].level > stack[j].Level()
  }

  /** The entries between two adjacent frames close before the upper frame
      was opened: none is shallower than it. */
  ghost predicate Gaps(stack: seq<Frame>, pos: seq<int>, es: seq<Entry>)
    requires |pos| == |stack|
  {
    forall j, q | 0 <= j < |stack| - 1 && 0 <= q < |es| && pos[j] < q < pos[j + 1] :: es[q].level >= stack[j + 1].Level()
  }

  /** Each frame below the top holds the forest of the entries from its own up
      to the next frame's. */
  ghost predicate LowerKids(stack: seq<Frame>, pos: seq<int>, es: seq<Entry>)
    requires Positions(stack, pos, es)
  {
    forall j | 0 <= j < |stack| - 1 :: stack[j].kids == Build(es[pos[j] + 1..pos[j + 1]])
  }

  /** The top frame holds the forest of all entries after its own. */
  ghost predicate TopKids(stack: seq<Frame>, pos: seq<int>, es: seq<Entry>)
    requires Positions(stack, pos, es)
  {
    stack[|stack| - 1].kids == Build(es[pos[|stack| - 1] + 1..])
  }

  ghost predicate Inv(stack: seq<Frame>, pos: seq<int>, es: seq<Entry>) {
    && Positions(stack, pos, es)
    && Deep(stack, pos, es)
    && Gaps(stack, pos, es)
    && LowerKids(stack, pos, es)
    && TopKids(stack, pos, es)
  }

  /** No entry after the top frame's is shallower than `level`. */
  ghost predicate Tail(pos: seq<int>, es: seq<Entry>, level: int)
    requires |pos| >= 1
  {
    forall q | 0 <= q < |es| && pos[|pos| - 1] < q :: es[q].level >= level
  }

  lemma PopPositions(stack: seq<Frame>, pos: seq<int>, es: seq<Entry>)
    requires Positions(stack, pos, es) && |stack| >= 2
    ensures Positions(PopFrame(stack), pos[..|pos| - 1], es)
  {
  }

  lemma PopDeep(stack: seq<Frame>, pos: seq<int>, es: seq<Entry>)
    requires Positions(stack, pos, es) && |stack| >= 2 && Deep(stack, pos, es)
    ensures Deep(PopFrame(stack), pos[..|pos| - 1], es)
  {
  }

  lemma PopGaps(stack: seq<Frame>, pos: seq<int>, es: seq<Entry>)
    requires Positions(stack, pos, es) && |stack| >= 2 && Gaps(stack, pos, es)
    ensures Gaps(PopFrame(stack), pos[..|pos| - 1], es)
  {
  }

  lemma PopTail(stack: seq<Frame>, pos: seq<int>, es: seq<Entry>, level: int)
    requires Positions(stack, pos, es) && |stack| >= 2 && Gaps(stack, pos, es)
    requires stack[|stack| - 1].Level() >= level && Tail(pos, es, level)
    ensures Tail(pos[..|pos| - 1], es, level)
  {
    var t := |stack| - 1;
    forall q | 0 <= q < |es| && pos[t - 1] < q
      ensures es[q].level >= level
    {
      if q < pos[t] {
        assert es[q].level >= stack[t].Level();
      }
    }
  }

  lemma PopLowerKids(stack: seq<Frame>, pos: seq<int>, es: seq<Entry>)
    requires Positions(stack, pos, es) && |stack| >= 2 && LowerKids(stack, pos, es)
    requires Positions(PopFrame(stack), pos[..|pos| - 1], es)
    ensures LowerKids(PopFrame(stack), pos[..|pos| - 1], es)
  {
    var r := PopFrame(stack);
    var pos' := pos[..|pos| - 1];
    forall j | 0 <= j < |r| - 1
      ensures r[j].kids == Build(es[pos'[j] + 1..pos'[j + 1]])
    {
      assert r[j] == stack[j];
      assert pos'[j] == pos[j] && pos'[j + 1] == pos[j + 1];
    }
  }

  /** The entries strictly between `a` and `b` are no shallower than the one
      at `b`: they close before it. */
  ghost predicate ClosedBefore(es: seq<Entry>, a: int, b: nat)
    requires b < |es|
  {
    forall q | 0 <= q && a < q < b :: es[q].level >= es[b].level
  }

  /** The entries after `b` are all nested under it. */
  ghost predicate NestedAfter(es: seq<Entry>, b: nat)
    requires b < |es|
  {
    forall q | b < q < |es| :: es[q].level > es[b].level
  }

  /** Closing the entry at `b` after the entries since `a`: the forest of
      everything after `a` gains it as its last tree. */
  lemma CloseInto(es: seq<Entry>, a: int, b: nat, before: seq<Node>, under: seq<Node>)
    requires -1 <= a < b < |es|
    requires ClosedBefore(es, a, b) && NestedAfter(es, b)
    requires before == Build(es[a + 1..b]) && under == Build(es[b + 1..])
    ensures before + [MakeNode(es[b], under)] == Build(es[a + 1..])
  {
    var xs := es[a + 1..b];
    var below := es[b + 1..];
    assert AllDeeper(below, es[b].level) by {
      assert forall i | 0 <= i < |below| :: below[i] == es[b + 1 + i];
    }
    assert NoneShallower(xs, es[b].level) by {
      assert forall i | 0 <= i < |xs| :: xs[i] == es[a + 1 + i];
    }
    SliceCons(es, b);
    BuildRoot(es[b], below);
    BuildConcat(xs, es[b..]);
    SliceSplit(es, a + 1, b);
  }

  lemma TopBounds(stack: seq<Frame>, pos: seq<int>, es: seq<Entry>)
    requires Positions(stack, pos, es) && Deep(stack, pos, es) && Gaps(stack, pos, es)
    requires |stack| >= 2
    ensures var t := |stack| - 1;
      && -1 <= pos[t - 1] < pos[t] < |es|
      && ClosedBefore(es, pos[t - 1], pos[t])
      && NestedAfter(es, pos[t])
  {
    var t := |stack| - 1;
    assert stack[t].Level() == es[pos[t]].level;
  }

  lemma TopKidsOfPop(stack: seq<Frame>, pos: seq<int>, es: seq<Entry>)
    requires |stack| >= 2 && stack[|stack| - 1].Open? && |pos| == |stack|
    requires Positions(PopFrame(stack), pos[..|pos| - 1], es)
    requires var t := |stack| - 1;
      stack[t - 1].kids + [MakeNode(stack[t].entry, stack[t].kids)] == Build(es[pos[t - 1] + 1..])
    ensures TopKids(PopFrame(stack), pos[..|pos| - 1], es)
  {
    var t := |stack| - 1;
    assert pos[..t][t - 1] == pos[t - 1];
  }

  lemma PopPreserves(stack: seq<Frame>, pos: seq<int>, es: seq<Entry>, level: int)
    requires Inv(stack, pos, es) && |stack| >= 2
    requires stack[|stack| - 1].Level() >= level && Tail(pos, es, level)
    ensures Inv(PopFrame(stack), pos[..|pos| - 1], es)
    ensures Tail(pos[..|pos| - 1], es, level)
  {
    PopPositions(stack, pos, es);
    PopDeep(stack, pos, es);
    PopGaps(stack, pos, es);
    PopTail(stack, pos, es, level);
    PopLowerKids(stack, pos, es);
    TopBounds(stack, pos, es);
    var t := |stack| - 1;
    assert stack[t - 1].kids == Build(es[pos[t - 1] + 1..pos[t]]);
    assert stack[t].entry == es[pos[t]];
    CloseInto(es, pos[t - 1], pos[t], stack[t - 1].kids, stack[t].kids);
    TopKidsOfPop(stack, pos, es);
  }

  lemma PushPositions(stack: seq<Frame>, pos: seq<int>, es: seq<Entry>, e: Entry)
    requires Positions(stack, pos, es)
    requires stack[|stack| - 1].Level() < e.level
    ensures Positions(stack + [Open(e, [])], pos + [|es|], es + [e])
  {
  }

  lemma PushDeep(stack: seq<Frame>, pos: seq<int>, es: seq<Entry>, e: Entry)
    requires Positions(stack, pos, es) && Deep(stack, pos, es)
    requires stack[|stack| - 1].Level() < e.level
    ensures Deep(stack + [Open(e, [])], pos + [|es|], es + [e])
  {
  }

  lemma PushGaps(stack: seq<Frame>, pos: seq<int>, es: seq<Entry>, e: Entry)
    requires Positions(stack, pos, es) && Gaps(stack, pos, es)
    requires Tail(pos, es, e.level)
    ensures Gaps(stack + [Open(e, [])], pos + [|es|], es + [e])
  {
  }

  /** A frame keeps its forest when an entry is pushed above the top: the
      top frame's range now ends at the new entry. */
  lemma PushKidsAt(stack: seq<Frame>, pos: seq<int>, es: seq<Entry>, e: Entry, j: nat)
    requires |pos| == |stack| && j < |stack|
    requires -1 <= pos[j] < |es|
    requires j < |stack| - 1 ==> pos[j] < pos[j + 1] < |es| && stack[j].kids == Build(es[pos[j] + 1..pos[j + 1]])
    requires j == |stack| - 1 ==> stack[j].kids == Build(es[pos[j] + 1..])
    ensures (stack + [Open(e, [])])[j].kids == Build((es + [e])[pos[j] + 1..(pos + [|es|])[j + 1]])
  {
    if j < |stack| - 1 {
      SliceOfAppend(es, [e], pos[j] + 1, pos[j + 1]);
    } else {
      SliceOfAppend(es, [e], pos[j] + 1, |es|);
      assert es[pos[j] + 1..|es|] == es[pos[j] + 1..];
    }
  }

  lemma PushLowerKids(stack: seq<Frame>, pos: seq<int>, es: seq<Entry>, e: Entry)
    requires Positions(stack, pos, es)
    requires Positions(stack + [Open(e, [])], pos + [|es|], es + [e])
    requires LowerKids(stack, pos, es) && TopKids(stack, pos, es)
    ensures LowerKids(stack + [Open(e, [])], pos + [|es|], es + [e])
  {
    forall j | 0 <= j < |stack|
      ensures (stack + [Open(e, [])])[j].kids == Build((es + [e])[(pos + [|es|])[j] + 1..(pos + [|es|])[j + 1]])
    {
      assert (pos + [|es|])[j] == pos[j];
      PushKidsAt(stack, pos, es, e, j);
    }
  }

  lemma PushTopKids(stack: seq<Frame>, pos: seq<int>, es: seq<Entry>, e: Entry)
    requires Positions(stack + [Open(e, [])], pos + [|es|], es + [e])
    ensures TopKids(stack + [Open(e, [])], pos + [|es|], es + [e])
  {
    assert (es + [e])[|es| + 1..] == [];
  }

  lemma PushPreserves(stack: seq<Frame>, pos: seq<int>, es: seq<Entry>, e: Entry)
    requires Inv(stack, pos, es)
    requires stack[|stack| - 1].Level() < e.level && Tail(pos, es, e.level)
    ensures Inv(stack + [Open(e, [])], pos + [|es|], es + [e])
  {
    PushPositions(stack, pos, es, e);
    PushDeep(stack, pos, es, e);
    PushGaps(stack, pos, es, e);
    PushLowerKids(stack, pos, es, e);
    PushTopKids(stack, pos, es, e);
  }

  lemma {:induction false} CloseAllBuild(stack: seq<Frame>, pos: seq<int>, es: seq<Entry>)
    requires Inv(stack, pos, es)
    ensures CloseAll(stack) == Build(es)
    decreases |stack|
  {
    if |stack| == 1 {
      assert es[0..] == es;
    } else {
      PopPreserves(stack, pos, es, 0);
      CloseAllBuild(PopFrame(stack), pos[..|pos| - 1], es);
    }
  }

  /** Scanning one more line extends the scan of the lines before it. */
  lemma ScanStep(lines: seq<string>, stamp: int, idx: nat)
    requires idx < |lines|
    ensures var prev := Scan(lines[..idx], stamp, 0, DefaultServer);
      Scan(lines[..idx + 1], stamp, 0, DefaultServer) ==
        match ClassifyLine(lines[idx], idx, stamp, prev.server)
        case Skip => prev
        case Keep(e, s) => ScanState(prev.entries + [e], s)
  {
    assert lines[..idx + 1][..idx] == lines[..idx];
  }

  /** Once every line is scanned, closing the remaining frames yields the
      editor's forest. */
  lemma ParsedIs(text: string, stamp: int, stack: seq<Frame>, pos: seq<int>, es: seq<Entry>, server: string)
    requires Scan(Split(text, '\n')[..|Split(text, '\n')|], stamp, 0, DefaultServer) == ScanState(es, server)
    requires Inv(stack, pos, es)
    ensures CloseAll(stack) == Parsed(text, stamp)
  {
    TakeAll(Split(text, '\n'));
    CloseAllBuild(stack, pos, es);
  }

  /** The stack adjustment for one kept line: frames no shallower than the
      new node are closed, then the node is opened on top of the nearest
      shallower frame. */
  method OpenNode(stack: seq<Frame>, node: Entry, ghost pos: seq<int>, ghost es: seq<Entry>)
    returns (stack': seq<Frame>, ghost pos': seq<int>)
    requires Inv(stack, pos, es) && pos[|pos| - 1] == |es| - 1
    ensures Inv(stack', pos', es + [node]) && pos'[|pos'| - 1] == |es|
  {
    stack' := stack;
    pos' := pos;
    while |stack'| > 0 && stack'[|stack'| - 1].Level() >= node.level
      invariant Inv(stack', pos', es) && Tail(pos', es, node.level)
      decreases |stack'|
    {
      PopPreserves(stack', pos', es, node.level);
      stack' := PopFrame(stack');
      pos' := pos'[..|pos'| - 1];
    }
    PushPreserves(stack', pos', es, node);
    stack' := stack' + [Open(node, [])];
    pos' := pos' + [|es|];
  }

  /** The editor's effect on `text`: each non-blank line becomes a node, the
      stack of open nodes is unwound to the nearest shallower one, the node
      is attached under it and becomes the new top. */
  method Parse(text: string, stamp: int) returns (forest: seq<Node>)
    ensures forest == Parsed(text, stamp)
  {
    var lines := Split(text, '\n');
    var stack := [Root([])];
    var currentServer := DefaultServer;
    ghost var es: seq<Entry> := [];
    ghost var pos: seq<int> := [-1];
    for idx := 0 to |lines|
      invariant Scan(lines[..idx], stamp, 0, DefaultServer) == ScanState(es, currentServer)
      invariant Inv(stack, pos, es) && pos[|pos| - 1] == |es| - 1
    {
      ScanStep(lines, stamp, idx);
      var classified := ClassifyLine(lines[idx], idx, stamp, currentServer);
      if classified.Skip? {
        continue;
      }
      currentServer := classified.server;
      stack, pos := OpenNode(stack, classified.entry, pos, es);
      es := es + [classified.entry];
    }
    ParsedIs(text, stamp, stack, pos, es, currentServer);
    forest := CloseAll(stack);
  }
}
