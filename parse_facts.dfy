/** What the editor's forest says about the text it was parsed from: one node
    per non-blank line in document order with distinct ids, each node named
    and grouped from its own line under the server id in force there, and
    each line nested under the nearest earlier line that is strictly
    shallower. */
module ParseFacts {
  import opened Opt
  import opened Text
  import opened Forest
  import opened Seqs
  import opened Parser

  /** The entries the editor keeps for `text`. */
  function Entries(text: string, stamp: int): seq<Entry> {
    Scan(Split(text, '\n'), stamp, 0, DefaultServer).entries
  }

  // ---------------------------------------------------------------------
  // One entry per non-blank line
  // ---------------------------------------------------------------------

  /** Every entry comes from a non-blank line of `lines`, whose first line has
      index `base`, and carries the clock reading `stamp`. */
  ghost predicate FromLines(es: seq<Entry>, lines: seq<string>, stamp: int, base: nat) {
    forall k | 0 <= k < |es| ::
      es[k].id.stamp == stamp && base <= es[k].id.line < base + |lines| && !IsBlank(lines[es[k].id.line - base])
  }

  /** The entries follow the lines in order, so no two share a line. */
  ghost predicate InLineOrder(es: seq<Entry>) {
    forall k, l | 0 <= k < l < |es| :: es[k].id.line < es[l].id.line
  }

  /** Every non-blank line has an entry. */
  ghost predicate CoversLines(es: seq<Entry>, lines: seq<string>, base: nat) {
    forall i | 0 <= i < |lines| && !IsBlank(lines[i]) :: exists k :: 0 <= k < |es| && es[k].id.line == base + i
  }

  ghost predicate Facts(es: seq<Entry>, lines: seq<string>, stamp: int, base: nat) {
    FromLines(es, lines, stamp, base) && InLineOrder(es) && CoversLines(es, lines, base)
  }

  lemma FromLinesExtend(es: seq<Entry>, lines: seq<string>, stamp: int, base: nat, e: Entry)
    requires lines != [] && FromLines(es, lines[..|lines| - 1], stamp, base)
    requires e.id == NodeId(stamp, base + |lines| - 1) && !IsBlank(lines[|lines| - 1])
    ensures FromLines(es + [e], lines, stamp, base)
  {
    var init := lines[..|lines| - 1];
    var es' := es + [e];
    forall k | 0 <= k < |es'|
      ensures es'[k].id.stamp == stamp && base <= es'[k].id.line < base + |lines| && !IsBlank(lines[es'[k].id.line - base])
    {
      if k < |es| {
        assert es'[k] == es[k];
        assert init[es[k].id.line - base] == lines[es[k].id.line - base];
      }
    }
  }

  lemma OrderExtend(es: seq<Entry>, lines: seq<string>, stamp: int, base: nat, e: Entry)
    requires lines != [] && FromLines(es, lines[..|lines| - 1], stamp, base) && InLineOrder(es)
    requires e.id == NodeId(stamp, base + |lines| - 1)
    ensures InLineOrder(es + [e])
  {
  }

  lemma CoversExtend(es: seq<Entry>, lines: seq<string>, base: nat, e: Entry)
    requires lines != [] && CoversLines(es, lines[..|lines| - 1], base)
    requires e.id.line == base + |lines| - 1
    ensures CoversLines(es + [e], lines, base)
  {
    var init := lines[..|lines| - 1];
    var es' := es + [e];
    forall i | 0 <= i < |lines| && !IsBlank(lines[i])
      ensures exists k :: 0 <= k < |es'| && es'[k].id.line == base + i
    {
      if i < |lines| - 1 {
        assert init[i] == lines[i];
        var k :| 0 <= k < |es| && es[k].id.line == base + i;
        assert es'[k] == es[k];
      } else {
        assert es'[|es|] == e;
      }
    }
  }

  lemma FactsSkip(es: seq<Entry>, lines: seq<string>, stamp: int, base: nat)
    requires lines != [] && Facts(es, lines[..|lines| - 1], stamp, base)
    requires IsBlank(lines[|lines| - 1])
    ensures Facts(es, lines, stamp, base)
  {
    var init := lines[..|lines| - 1];
    forall k | 0 <= k < |es|
      ensures !IsBlank(lines[es[k].id.line - base])
    {
      assert init[es[k].id.line - base] == lines[es[k].id.line - base];
    }
    forall i | 0 <= i < |lines| && !IsBlank(lines[i])
      ensures exists k :: 0 <= k < |es| && es[k].id.line == base + i
    {
      assert init[i] == lines[i];
    }
  }

  lemma FactsStep(lines: seq<string>, prev: seq<Entry>, es: seq<Entry>, c: LineResult, stamp: int, base: nat)
    requires lines != [] && Facts(prev, lines[..|lines| - 1], stamp, base)
    requires c.Skip? <==> IsBlank(lines[|lines| - 1])
    requires c.Keep? ==> c.entry.id == NodeId(stamp, base + |lines| - 1)
    requires es == if c.Skip? then prev else prev + [c.entry]
    ensures Facts(es, lines, stamp, base)
  {
    if c.Skip? {
      FactsSkip(prev, lines, stamp, base);
    } else {
      FromLinesExtend(prev, lines, stamp, base, c.entry);
      OrderExtend(prev, lines, stamp, base, c.entry);
      CoversExtend(prev, lines, base, c.entry);
    }
  }

  /** How line `i` of `lines` classifies, under the server id in force after
      the lines before it. */
  function ClassifiedAt(lines: seq<string>, stamp: int, base: nat, start: string, i: nat): LineResult
    requires i < |lines|
  {
    ClassifyLine(lines[i], base + i, stamp, Scan(lines[..i], stamp, base, start).server)
  }

  lemma ScanLastEntry(lines: seq<string>, stamp: int, base: nat, start: string)
    requires lines != []
    ensures var prev := Scan(lines[..|lines| - 1], stamp, base, start).entries;
      var es := Scan(lines, stamp, base, start).entries;
      var c := ClassifiedAt(lines, stamp, base, start, |lines| - 1);
      if c.Skip? then es == prev else es == prev + [c.entry]
  {
  }

  lemma {:induction false} ScanLines(lines: seq<string>, stamp: int, base: nat, start: string)
    ensures Facts(Scan(lines, stamp, base, start).entries, lines, stamp, base)
  {
    if lines != [] {
      var n := |lines|;
      var prev := Scan(lines[..n - 1], stamp, base, start).entries;
      var c := ClassifiedAt(lines, stamp, base, start, n - 1);
      ScanLines(lines[..n - 1], stamp, base, start);
      ScanLastEntry(lines, stamp, base, start);
      FactsStep(lines, prev, Scan(lines, stamp, base, start).entries, c, stamp, base);
    }
  }

  lemma ClassifiedAtInit(lines: seq<string>, stamp: int, base: nat, start: string, i: nat)
    requires i < |lines| - 1
    ensures ClassifiedAt(lines[..|lines| - 1], stamp, base, start, i) == ClassifiedAt(lines, stamp, base, start, i)
  {
    assert lines[..|lines| - 1][..i] == lines[..i];
  }

  /** The entry came from the line it records and is what that line
      classifies to. */
  ghost predicate EntryFromLine(lines: seq<string>, stamp: int, base: nat, start: string, e: Entry) {
    && base <= e.id.line < base + |lines|
    && var c := ClassifiedAt(lines, stamp, base, start, e.id.line - base);
      c.Keep? && c.entry == e
  }

  lemma EntryFromInit(lines: seq<string>, stamp: int, base: nat, start: string, e: Entry)
    requires lines != [] && EntryFromLine(lines[..|lines| - 1], stamp, base, start, e)
    ensures EntryFromLine(lines, stamp, base, start, e)
  {
    ClassifiedAtInit(lines, stamp, base, start, e.id.line - base);
  }

  lemma EntryFromLast(lines: seq<string>, stamp: int, base: nat, start: string)
    requires lines != []
    requires ClassifiedAt(lines, stamp, base, start, |lines| - 1).Keep?
    ensures EntryFromLine(lines, stamp, base, start, ClassifiedAt(lines, stamp, base, start, |lines| - 1).entry)
  {
  }

  lemma {:induction false} ScanEntryAt(lines: seq<string>, stamp: int, base: nat, start: string, k: nat)
    requires k < |Scan(lines, stamp, base, start).entries|
    ensures EntryFromLine(lines, stamp, base, start, Scan(lines, stamp, base, start).entries[k])
  {
    var n := |lines|;
    var prev := Scan(lines[..n - 1], stamp, base, start).entries;
    var es := Scan(lines, stamp, base, start).entries;
    ScanLastEntry(lines, stamp, base, start);
    if k < |prev| {
      ScanEntryAt(lines[..n - 1], stamp, base, start, k);
      EntryFromInit(lines, stamp, base, start, prev[k]);
      assert es[k] == prev[k];
    } else {
      EntryFromLast(lines, stamp, base, start);
    }
  }

  /** Every kept line, and only those, gives an entry, in line order. */
  lemma EntriesFromLines(text: string, stamp: int)
    ensures Facts(Entries(text, stamp), Split(text, '\n'), stamp, 0)
  {
    ScanLines(Split(text, '\n'), stamp, 0, DefaultServer);
  }

  // ---------------------------------------------------------------------
  // The server id in force
  // ---------------------------------------------------------------------

  /** A line that changes the server id in force: its trimmed text matches
      `^\[\s*([^|\s\]]+)`. */
  predicate SetsServer(line: string) {
    !IsBlank(line) && ServerIdOf(Trim(line)).Some?
  }

  /** The index of the last element satisfying `p`, if there is one. */
  function LastWhere<T>(s: seq<T>, p: T -> bool): (r: Option<nat>)
    ensures r.None? ==> forall j | 0 <= j < |s| :: !p(s[j])
    ensures r.Some? ==> r.value < |s| && p(s[r.value])
    ensures r.Some? ==> forall q | r.value < q < |s| :: !p(s[q])
  {
    if s == [] then None
    else if p(s[|s| - 1]) then Some(|s| - 1)
    else
      var r := LastWhere(s[..|s| - 1], p);
      assert forall j | 0 <= j < |s| - 1 :: s[..|s| - 1][j] == s[j];
      r
  }

  lemma ScanServerStep(lines: seq<string>, stamp: int, base: nat, start: string)
    requires lines != []
    ensures Scan(lines, stamp, base, start).server ==
      if SetsServer(lines[|lines| - 1]) then ServerIdOf(Trim(lines[|lines| - 1])).value
      else Scan(lines[..|lines| - 1], stamp, base, start).server
  {
  }

  /** The server id in force after some lines is the one captured from the
      last line that sets it, however deep or shallow that line is, or the
      starting one when no line sets it. */
  lemma {:induction false} ServerInForce(lines: seq<string>, stamp: int, base: nat, start: string)
    ensures Scan(lines, stamp, base, start).server ==
      match LastWhere(lines, SetsServer)
      case None => start
      case Some(j) => ServerIdOf(Trim(lines[j])).value
  {
    if lines != [] {
      var n := |lines|;
      var init := lines[..n - 1];
      ServerInForce(init, stamp, base, start);
      ScanServerStep(lines, stamp, base, start);
      if SetsServer(lines[n - 1]) {
        assert LastWhere(lines, SetsServer) == Some(n - 1);
      } else {
        assert LastWhere(lines, SetsServer) == LastWhere(init, SetsServer);
        match LastWhere(init, SetsServer)
        case None =>
        case Some(j) => assert init[j] == lines[j];
      }
    }
  }

  // ---------------------------------------------------------------------
  // The parsed forest, node by node
  // ---------------------------------------------------------------------

  lemma {:induction false} HeadsAt(es: seq<Entry>, k: nat)
    requires k < |es|
    ensures Heads(es)[k] == MakeNode(es[k], [])
  {
    if k > 0 {
      HeadsAt(es[1..], k - 1);
    }
  }

  /** The nodes of the editor's forest, in document order, are the entries. */
  lemma PreorderParsed(text: string, stamp: int, k: nat)
    requires k < |Entries(text, stamp)|
    ensures |Preorder(Parsed(text, stamp))| == |Entries(text, stamp)|
    ensures Preorder(Parsed(text, stamp))[k] == MakeNode(Entries(text, stamp)[k], [])
  {
    PreorderBuild(Entries(text, stamp));
    HeadsAt(Entries(text, stamp), k);
  }

  /** The nodes of the editor's forest in document order are one per
      non-blank line, in line order, so no two share an id. */
  lemma ParsedNodes(text: string, stamp: int)
    ensures var lines := Split(text, '\n');
      var nodes := Preorder(Parsed(text, stamp));
      && (forall k | 0 <= k < |nodes| ::
            nodes[k].id.stamp == stamp && nodes[k].id.line < |lines| && !IsBlank(lines[nodes[k].id.line]))
      && (forall k, l | 0 <= k < l < |nodes| :: nodes[k].id.line < nodes[l].id.line)
      && (forall k, l | 0 <= k < |nodes| && 0 <= l < |nodes| && k != l :: nodes[k].id != nodes[l].id)
      && (forall i | 0 <= i < |lines| && !IsBlank(lines[i]) :: exists k :: 0 <= k < |nodes| && nodes[k].id.line == i)
  {
    var es := Entries(text, stamp);
    var nodes := Preorder(Parsed(text, stamp));
    EntriesFromLines(text, stamp);
    PreorderBuild(es);
    forall k | 0 <= k < |nodes|
      ensures nodes[k].id == es[k].id
    {
      PreorderParsed(text, stamp, k);
    }
  }

  /** Each node carries what its own line gives: its depth is the line's
      leading whitespace, and its name, kind and groups are the line's
      classification under the server id in force after the lines above it. */
  lemma ParsedNode(text: string, stamp: int, k: nat)
    requires k < |Entries(text, stamp)|
    ensures |Preorder(Parsed(text, stamp))| == |Entries(text, stamp)|
    ensures var lines := Split(text, '\n');
      var node := Preorder(Parsed(text, stamp))[k];
      && node.id.line < |lines|
      && Entries(text, stamp)[k].level == LeadingSpaces(lines[node.id.line])
      && var c := ClassifyLine(lines[node.id.line], node.id.line, stamp, Scan(lines[..node.id.line], stamp, 0, DefaultServer).server);
        c.Keep? && node == MakeNode(c.entry, [])
  {
    PreorderBuild(Entries(text, stamp));
    PreorderParsed(text, stamp, k);
    ScanEntryAt(Split(text, '\n'), stamp, 0, DefaultServer, k);
  }

  // ---------------------------------------------------------------------
  // Nesting: the nearest earlier line that is strictly shallower
  // ---------------------------------------------------------------------

  /** The last index before `j` whose entry is shallower than `level`, or -1
      when there is none. */
  function NearestShallower(es: seq<Entry>, level: int, j: nat): (r: int)
    requires j <= |es|
    ensures -1 <= r < j
  {
    if j == 0 then -1
    else if es[j - 1].level < level then j - 1
    else NearestShallower(es, level, j - 1)
  }

  /** `r` is the last index before `j` shallower than `level`. */
  ghost predicate IsNearest(es: seq<Entry>, level: int, j: nat, r: int) {
    && -1 <= r < j <= |es|
    && (r >= 0 ==> es[r].level < level)
    && forall q | r < q < j :: es[q].level >= level
  }

  lemma {:induction false} NearestIsNearest(es: seq<Entry>, level: int, j: nat)
    requires j <= |es|
    ensures IsNearest(es, level, j, NearestShallower(es, level, j))
  {
    if j > 0 && es[j - 1].level >= level {
      NearestIsNearest(es, level, j - 1);
    }
  }

  /** The nearest shallower entry is the only index with that property. */
  lemma {:induction false} NearestUnique(es: seq<Entry>, level: int, j: nat, r: int)
    requires IsNearest(es, level, j, r)
    ensures r == NearestShallower(es, level, j)
  {
    if j > 0 && es[j - 1].level >= level {
      NearestUnique(es, level, j - 1, r);
    }
  }

  /** The parent of the `k`-th entry. */
  function ParentOf(es: seq<Entry>, k: nat): int
    requires k < |es|
  {
    NearestShallower(es, es[k].level, k)
  }

  /** The subtree of the first entry is the run of deeper entries after it;
      the entry after that run, if any, is no deeper than the first. */
  lemma SubtreeShape(es: seq<Entry>)
    requires es != []
    ensures var m := SubtreeLen(es[1..], es[0].level);
      && (forall q | 1 <= q <= m :: es[q].level > es[0].level)
      && (1 + m < |es| ==> es[1 + m].level <= es[0].level)
  {
    var m := SubtreeLen(es[1..], es[0].level);
    SubtreeLenSpec(es[1..], es[0].level);
    assert forall q | 1 <= q < |es| :: es[1..][q - 1] == es[q];
  }

  /** A nearest shallower entry within a slice is one within the whole. */
  lemma NearestShift(es: seq<Entry>, d: nat, e: nat, level: int, j: nat, r: int)
    requires d <= e <= |es| && j <= e - d
    requires IsNearest(es[d..e], level, j, r) && r >= 0
    ensures IsNearest(es, level, d + j, d + r)
  {
    assert forall q | d <= q < e :: es[q] == es[d..e][q - d];
  }

  /** With nothing shallower in the slice before `j`, the nearest shallower
      entry is the one before the slice. */
  lemma NearestShiftNone(es: seq<Entry>, d: nat, e: nat, level: int, j: nat, r: int)
    requires d <= e <= |es| && j <= e - d
    requires IsNearest(es[d..e], level, j, -1) && IsNearest(es, level, d, r)
    ensures IsNearest(es, level, d + j, r)
  {
    assert forall q | d <= q < e :: es[q] == es[d..e][q - d];
  }

  /** A line inside the subtree of the first entry has as parent its parent
      within the subtree, or the first entry when nothing in the subtree
      before it is shallower. */
  lemma ParentInSubtree(es: seq<Entry>, k: nat)
    requires 1 <= k < |es| && k <= SubtreeLen(es[1..], es[0].level)
    ensures var sub := es[1..1 + SubtreeLen(es[1..], es[0].level)];
      var r := ParentOf(sub, k - 1);
      ParentOf(es, k) == if r < 0 then 0 else 1 + r
  {
    var m := SubtreeLen(es[1..], es[0].level);
    var sub := es[1..1 + m];
    var level := es[k].level;
    assert sub[k - 1] == es[k];
    var r := ParentOf(sub, k - 1);
    NearestIsNearest(sub, level, k - 1);
    if r < 0 {
      SubtreeShape(es);
      assert IsNearest(es, level, 1, 0);
      NearestShiftNone(es, 1, 1 + m, level, k - 1, 0);
      NearestUnique(es, level, k, 0);
    } else {
      NearestShift(es, 1, 1 + m, level, k - 1, r);
      NearestUnique(es, level, k, 1 + r);
    }
  }

  /** A line after the subtree of the first entry has as parent its parent
      among the following lines, or none. */
  lemma ParentAfterSubtree(es: seq<Entry>, k: nat)
    requires k < |es| && 1 + SubtreeLen(es[1..], es[0].level) <= k
    ensures var m := SubtreeLen(es[1..], es[0].level);
      var r := ParentOf(es[1 + m..], k - 1 - m);
      ParentOf(es, k) == if r < 0 then -1 else 1 + m + r
  {
    var m := SubtreeLen(es[1..], es[0].level);
    var rest := es[1 + m..];
    var level := es[k].level;
    assert rest == es[1 + m..|es|];
    assert rest[k - 1 - m] == es[k];
    var r := ParentOf(rest, k - 1 - m);
    NearestIsNearest(rest, level, k - 1 - m);
    if r < 0 {
      SubtreeShape(es);
      assert rest[0] == es[1 + m];
      assert es[1 + m].level >= level;
      assert IsNearest(es, level, 1 + m, -1);
      NearestShiftNone(es, 1 + m, |es|, level, k - 1 - m, -1);
      NearestUnique(es, level, k, -1);
    } else {
      NearestShift(es, 1 + m, |es|, level, k - 1 - m, r);
      NearestUnique(es, level, k, 1 + m + r);
    }
  }

  lemma SizeBuild(es: seq<Entry>)
    ensures Size(Build(es)) == |es|
  {
    PreorderBuild(es);
    PreorderSize(Build(es));
  }

  /** The parent positions the forest `f` records for its nodes, the
      entries `es` in document order, with `base` the position of the first
      and `p` the parent of the roots, are the nearest shallower entries. */
  ghost predicate ParentsMatch(f: seq<Node>, es: seq<Entry>, base: int, p: int) {
    && Size(f) == |es|
    && forall k {:trigger ParentAt(f, base, p, k)} | 0 <= k < |es| ::
      ParentAt(f, base, p, k) == if ParentOf(es, k) < 0 then p else base + ParentOf(es, k)
  }

  lemma ParentMatchInSubtree(es: seq<Entry>, m: nat, kids: seq<Node>, base: int, k: nat)
    requires es != [] && m == SubtreeLen(es[1..], es[0].level)
    requires 1 <= k < |es| && k <= m
    requires ParentsMatch(kids, es[1..1 + m], base + 1, base)
    ensures ParentAt(kids, base + 1, base, k - 1) == base + ParentOf(es, k)
  {
    ParentInSubtree(es, k);
  }

  lemma ParentMatchAfterSubtree(es: seq<Entry>, m: nat, tail: seq<Node>, base: int, p: int, k: nat)
    requires es != [] && m == SubtreeLen(es[1..], es[0].level)
    requires k < |es| && 1 + m <= k
    requires ParentsMatch(tail, es[1 + m..], base + 1 + m, p)
    ensures ParentAt(tail, base + 1 + m, p, k - 1 - m) == if ParentOf(es, k) < 0 then p else base + ParentOf(es, k)
  {
    ParentAfterSubtree(es, k);
  }

  lemma ParentStepAt(es: seq<Entry>, m: nat, kids: seq<Node>, tail: seq<Node>, base: int, p: int, k: nat)
    requires es != [] && m == SubtreeLen(es[1..], es[0].level)
    requires ParentsMatch(kids, es[1..1 + m], base + 1, base)
    requires ParentsMatch(tail, es[1 + m..], base + 1 + m, p)
    requires k < |es|
    ensures k < Size([MakeNode(es[0], kids)] + tail)
    ensures ParentAt([MakeNode(es[0], kids)] + tail, base, p, k) == if ParentOf(es, k) < 0 then p else base + ParentOf(es, k)
  {
    var n := MakeNode(es[0], kids);
    ParentsAt(n, tail, base, p, k);
    if 1 <= k <= m {
      ParentMatchInSubtree(es, m, kids, base, k);
    } else if k > m {
      ParentMatchAfterSubtree(es, m, tail, base, p, k);
    }
  }

  lemma ParentsMatchStep(es: seq<Entry>, m: nat, kids: seq<Node>, tail: seq<Node>, base: int, p: int)
    requires es != [] && m == SubtreeLen(es[1..], es[0].level)
    requires ParentsMatch(kids, es[1..1 + m], base + 1, base)
    requires ParentsMatch(tail, es[1 + m..], base + 1 + m, p)
    ensures ParentsMatch([MakeNode(es[0], kids)] + tail, es, base, p)
  {
    var n := MakeNode(es[0], kids);
    SizeCons(n, tail);
    forall k | 0 <= k < |es|
      ensures ParentAt([n] + tail, base, p, k) == if ParentOf(es, k) < 0 then p else base + ParentOf(es, k)
    {
      ParentStepAt(es, m, kids, tail, base, p, k);
    }
  }

  /** In the built forest, the parent of each entry is the nearest earlier
      entry that is strictly shallower; an entry with none is a root. */
  lemma {:induction false} BuildParents(es: seq<Entry>, base: int, p: int)
    ensures ParentsMatch(Build(es), es, base, p)
    decreases |es|, 1
  {
    if es == [] {
      assert Build(es) == [];
    } else {
      BuildParentsCons(es, base, p);
      BuildUnfold(es);
    }
  }

  lemma {:induction false} BuildParentsCons(es: seq<Entry>, base: int, p: int)
    requires es != []
    ensures var m := SubtreeLen(es[1..], es[0].level);
      ParentsMatch([MakeNode(es[0], Build(es[1..1 + m]))] + Build(es[1 + m..]), es, base, p)
    decreases |es|, 0
  {
    var m := SubtreeLen(es[1..], es[0].level);
    var inner := es[1..1 + m];
    var rest := es[1 + m..];
    BuildParents(inner, base + 1, base);
    BuildParents(rest, base + 1 + m, p);
    ParentsMatchStep(es, m, Build(inner), Build(rest), base, p);
  }

  /** In the editor's forest the parent of the node of each kept line is the
      node of the nearest earlier kept line with strictly less leading
      whitespace; a line with none before it is a root. */
  lemma ParsedParents(text: string, stamp: int)
    ensures var es := Entries(text, stamp);
      && Size(Parsed(text, stamp)) == |es|
      && forall k | 0 <= k < |es| :: Parents(Parsed(text, stamp), 0, -1)[k] == ParentOf(es, k)
  {
    var es := Entries(text, stamp);
    BuildParents(es, 0, -1);
    forall k | 0 <= k < |es|
      ensures Parents(Parsed(text, stamp), 0, -1)[k] == ParentOf(es, k)
    {
      assert ParentAt(Parsed(text, stamp), 0, -1, k) == ParentOf(es, k);
    }
  }

  /** Two lines at the same depth with nothing shallower between them are
      siblings. */
  lemma SameDepthSiblings(es: seq<Entry>, k: nat, l: nat)
    requires k < l < |es| && es[k].level == es[l].level
    requires forall q | k < q < l :: es[q].level >= es[l].level
    ensures ParentOf(es, l) == ParentOf(es, k)
  {
    NearestIsNearest(es, es[k].level, k);
    NearestUnique(es, es[l].level, l, ParentOf(es, k));
  }
}
