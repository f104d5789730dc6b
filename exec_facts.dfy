/** What the provisioning walks guarantee: validation checks exactly the
    folders execution creates, each folder's server and path follow from its
    ancestors, every group is recorded once, and every folder gets one
    creation command sent where its server's agent can be reached. */
module ExecutionFacts {
  import opened Text
  import opened Seqs
  import opened Execution

  /** Every node is a server or a folder, as the editor produces them. */
  predicate ServersAndFolders(f: seq<ReqNode>) {
    |f| == 0 ||
    ((f[0].kind == "server" || f[0].kind == "folder")
      && ServersAndFolders(f[0].children) && ServersAndFolders(f[1..]))
  }

  /** The folders execution records, as the checks validation would make
      for them. */
  function FolderRecords(effects: seq<Effect>): (r: seq<Check>)
    ensures |r| <= |effects|
  {
    if |effects| == 0 then []
    else
      (if effects[0].StoreFolder? then [Check(effects[0].server, effects[0].path)] else [])
        + FolderRecords(effects[1..])
  }

  lemma {:induction false} FolderRecordsAppend(xs: seq<Effect>, ys: seq<Effect>)
    ensures FolderRecords(xs + ys) == FolderRecords(xs) + FolderRecords(ys)
  {
    if |xs| == 0 {
      assert xs + ys == ys;
    } else {
      DropOfAppend(xs, ys, 1);
      assert (xs + ys)[0] == xs[0];
      FolderRecordsAppend(xs[1..], ys);
    }
  }

  lemma {:induction false} FolderRecordsOfGroups(groups: seq<string>, owner: string)
    ensures FolderRecords(GroupEffects(groups, owner)) == []
  {
    if |groups| != 0 {
      FolderRecordsOfGroups(groups[1..], owner);
      var two := [CreateGroup(groups[0], "Group for " + owner), StoreGroup(groups[0], "RW")];
      FolderRecordsAppend(two, GroupEffects(groups[1..], owner));
      assert two[1..][1..] == [];
    }
  }

  /** For a server or a folder, validation's own check and child path agree
      with execution's own record and child path. */
  lemma CheckedNodeStep(n: ReqNode, parent: string, context: string, connected: set<string>)
    requires n.kind == "server" || n.kind == "folder"
    ensures OwnCheck(n, parent, context) == FolderRecords(OwnEffects(n, parent, context, connected))
    ensures CheckChildParent(n, CheckPath(n, parent)) == ExecPath(n, parent)
  {
    var folderPart := if n.kind == "folder" then FolderEffects(ExecPath(n, parent), ServerAt(n, context), connected) else [];
    FolderRecordsAppend(folderPart, GroupEffects(n.groups, n.name));
    FolderRecordsOfGroups(n.groups, n.name);
    if n.kind == "folder" {
      assert folderPart[1..][1..] == [];
    }
  }

  lemma CheckedStep(f: seq<ReqNode>, parent: string, context: string, connected: set<string>,
                    own: seq<Check>, kids: seq<Check>, rest: seq<Check>)
    requires |f| != 0
    requires own == FolderRecords(OwnEffects(f[0], parent, context, connected))
    requires own == OwnCheck(f[0], parent, context)
    requires CheckChildParent(f[0], CheckPath(f[0], parent)) == ExecPath(f[0], parent)
    requires kids == FolderRecords(Effects(f[0].children, ExecPath(f[0], parent), ServerAt(f[0], context), connected))
    requires kids == Checks(f[0].children, ExecPath(f[0], parent), ServerAt(f[0], context))
    requires rest == FolderRecords(Effects(f[1..], parent, context, connected))
    requires rest == Checks(f[1..], parent, context)
    ensures Checks(f, parent, context) == FolderRecords(Effects(f, parent, context, connected))
  {
    var n := f[0];
    var a := OwnEffects(n, parent, context, connected);
    var b := Effects(n.children, ExecPath(n, parent), ServerAt(n, context), connected);
    var c := Effects(f[1..], parent, context, connected);
    FolderRecordsAppend(a + b, c);
    FolderRecordsAppend(a, b);
  }

  /** For trees of servers and folders, the paths validation checks are the
      folder paths execution records, in the same order and on the same
      servers. */
  lemma {:induction false} CheckedAreCreated(f: seq<ReqNode>, parent: string, context: string, connected: set<string>)
    requires ServersAndFolders(f)
    ensures Checks(f, parent, context) == FolderRecords(Effects(f, parent, context, connected))
  {
    if |f| != 0 {
      var n := f[0];
      CheckedNodeStep(n, parent, context, connected);
      CheckedAreCreated(n.children, ExecPath(n, parent), ServerAt(n, context), connected);
      CheckedAreCreated(f[1..], parent, context, connected);
      CheckedStep(f, parent, context, connected,
        OwnCheck(n, parent, context),
        Checks(n.children, ExecPath(n, parent), ServerAt(n, context)),
        Checks(f[1..], parent, context));
    }
  }

  /** Other node types break the agreement: below a node of another type,
      validation restarts the path while execution extends it. */
  lemma OtherKindsDiverge()
    ensures var tree := [ReqNode("Share", "share", [ReqNode("Data", "folder", [], [])], [])];
      && Checks(tree, "", DefaultAgent) == [Check(DefaultAgent, "Data")]
      && FolderRecords(Effects(tree, "", DefaultAgent, {})) == [Check(DefaultAgent, "Share\\Data")]
  {
    var leaf := ReqNode("Data", "folder", [], []);
    var share := ReqNode("Share", "share", [leaf], []);
    var tree := [share];
    assert Under("Share", "Data") == "Share\\Data";
    assert ExecPath(share, "") == "Share";
    assert ExecPath(leaf, "Share") == "Share\\Data";
    assert CheckChildParent(share, CheckPath(share, "")) == "";
    ChecksOne(share, "", DefaultAgent);
    ChecksOne(leaf, "", DefaultAgent);
    assert Checks(tree, "", DefaultAgent) == Checks([leaf], "", DefaultAgent);
    var folder := FolderEffects("Share\\Data", DefaultAgent, {});
    EffectsOne(leaf, "Share", DefaultAgent, {});
    assert OwnEffects(leaf, "Share", DefaultAgent, {}) == folder + [];
    assert Effects([leaf], "Share", DefaultAgent, {}) == folder;
    EffectsOne(share, "", DefaultAgent, {});
    assert OwnEffects(share, "", DefaultAgent, {}) == [];
    assert Effects(tree, "", DefaultAgent, {}) == folder;
    FolderRecordsAppend([folder[0]], [folder[1]]);
    assert [folder[0]] + [folder[1]] == folder;
  }

  // ---------------------------------------------------------------------
  // Server and path from the ancestors
  // ---------------------------------------------------------------------

  /** The server of the nearest server ancestor, or the default. */
  function NearestServer(ancestors: seq<ReqNode>): string {
    if |ancestors| == 0 then DefaultAgent
    else if ancestors[|ancestors| - 1].kind == "server" then ancestors[|ancestors| - 1].name
    else NearestServer(ancestors[..|ancestors| - 1])
  }

  /** The names of the ancestors below the nearest server ancestor. */
  function FolderTrail(ancestors: seq<ReqNode>): seq<string> {
    if |ancestors| == 0 then []
    else if ancestors[|ancestors| - 1].kind == "server" then []
    else FolderTrail(ancestors[..|ancestors| - 1]) + [ancestors[|ancestors| - 1].name]
  }

  /** A node met in pre-order, with its ancestors, outermost first. */
  datatype Visit = Visit(ancestors: seq<ReqNode>, node: ReqNode)

  function Visits(f: seq<ReqNode>, ancestors: seq<ReqNode>): seq<Visit> {
    if |f| == 0 then []
    else [Visit(ancestors, f[0])] + Visits(f[0].children, ancestors + [f[0]]) + Visits(f[1..], ancestors)
  }

  /** The check a folder should get: to its nearest server ancestor, at the
      backslash-joined names of its ancestors below that server, then its
      own name. */
  function Expected(v: Visit): seq<Check> {
    if v.node.kind == "folder"
    then [Check(NearestServer(v.ancestors), Join(FolderTrail(v.ancestors) + [v.node.name], '\\'))]
    else []
  }

  function ExpectedChecks(vs: seq<Visit>): seq<Check> {
    if |vs| == 0 then [] else Expected(vs[0]) + ExpectedChecks(vs[1..])
  }

  lemma {:induction false} ExpectedAppend(xs: seq<Visit>, ys: seq<Visit>)
    ensures ExpectedChecks(xs + ys) == ExpectedChecks(xs) + ExpectedChecks(ys)
  {
    if |xs| == 0 {
      assert xs + ys == ys;
    } else {
      DropOfAppend(xs, ys, 1);
      assert (xs + ys)[0] == xs[0];
      ExpectedAppend(xs[1..], ys);
    }
  }

  /** Every node has a non-empty name, as the editor produces them. */
  predicate Named(f: seq<ReqNode>) {
    |f| == 0 || (f[0].name != "" && Named(f[0].children) && Named(f[1..]))
  }

  predicate NoEmpty(names: seq<string>) {
    forall i | 0 <= i < |names| :: names[i] != ""
  }

  /** Joining one more name, as the walks extend a parent path. */
  lemma {:induction false} JoinSnoc(names: seq<string>, name: string)
    requires NoEmpty(names)
    ensures Join(names, '\\') == "" <==> names == []
    ensures Join(names + [name], '\\') == Under(Join(names, '\\'), name)
  {
    if |names| > 1 {
      JoinSnoc(names[1..], name);
      assert (names + [name])[1..] == names[1..] + [name];
      AppendAssoc(names[0] + ['\\'], Join(names[1..], '\\'), "\\" + name);
      AppendAssoc(names[0], ['\\'], Join(names[1..], '\\'));
    } else if |names| == 1 {
      assert names + [name] == [names[0], name];
      assert [names[0], name][1..] == [name];
    }
  }

  lemma AncestorStep(n: ReqNode, ancestors: seq<ReqNode>, parent: string, context: string)
    requires n.kind == "server" || n.kind == "folder"
    requires n.name != "" && NoEmpty(FolderTrail(ancestors))
    requires parent == Join(FolderTrail(ancestors), '\\') && context == NearestServer(ancestors)
    ensures OwnCheck(n, parent, context) == Expected(Visit(ancestors, n))
    ensures NoEmpty(FolderTrail(ancestors + [n]))
    ensures CheckChildParent(n, CheckPath(n, parent)) == Join(FolderTrail(ancestors + [n]), '\\')
    ensures ServerAt(n, context) == NearestServer(ancestors + [n])
  {
    var anc := ancestors + [n];
    assert anc[..|anc| - 1] == ancestors;
    JoinSnoc(FolderTrail(ancestors), n.name);
  }

  lemma AncestorCombine(f: seq<ReqNode>, ancestors: seq<ReqNode>, parent: string, context: string,
                        own: seq<Check>, kids: seq<Check>, rest: seq<Check>)
    requires |f| != 0
    requires own == OwnCheck(f[0], parent, context) && own == Expected(Visit(ancestors, f[0]))
    requires kids == Checks(f[0].children, CheckChildParent(f[0], CheckPath(f[0], parent)), ServerAt(f[0], context))
    requires kids == ExpectedChecks(Visits(f[0].children, ancestors + [f[0]]))
    requires rest == Checks(f[1..], parent, context) && rest == ExpectedChecks(Visits(f[1..], ancestors))
    ensures Checks(f, parent, context) == ExpectedChecks(Visits(f, ancestors))
  {
    var head := [Visit(ancestors, f[0])];
    var below := Visits(f[0].children, ancestors + [f[0]]);
    ExpectedAppend(head + below, Visits(f[1..], ancestors));
    ExpectedAppend(head, below);
    assert head[1..] == [];
  }

  /** Walking below `ancestors`, with the parent path and server they
      determine, validation checks every folder at the place its ancestors
      determine. */
  lemma {:induction false} ChecksFollowAncestors(f: seq<ReqNode>, ancestors: seq<ReqNode>, parent: string, context: string)
    requires ServersAndFolders(f) && Named(f) && NoEmpty(FolderTrail(ancestors))
    requires parent == Join(FolderTrail(ancestors), '\\') && context == NearestServer(ancestors)
    ensures Checks(f, parent, context) == ExpectedChecks(Visits(f, ancestors))
  {
    if |f| != 0 {
      var n := f[0];
      AncestorStep(n, ancestors, parent, context);
      ChecksFollowAncestors(n.children, ancestors + [n], CheckChildParent(n, CheckPath(n, parent)), ServerAt(n, context));
      ChecksFollowAncestors(f[1..], ancestors, parent, context);
      AncestorCombine(f, ancestors, parent, context, OwnCheck(n, parent, context),
        Checks(n.children, CheckChildParent(n, CheckPath(n, parent)), ServerAt(n, context)),
        Checks(f[1..], parent, context));
    }
  }

  /** Each folder of a request is checked, and created, on the server of its
      nearest server ancestor (the default when it has none), at the path of
      its folder ancestors below that server and its own name. */
  lemma PlacedByAncestors(tree: seq<ReqNode>, connected: set<string>)
    requires ServersAndFolders(tree) && Named(tree)
    ensures Checks(tree, "", DefaultAgent) == ExpectedChecks(Visits(tree, []))
    ensures FolderRecords(Effects(tree, "", DefaultAgent, connected)) == ExpectedChecks(Visits(tree, []))
  {
    ChecksFollowAncestors(tree, [], "", DefaultAgent);
    CheckedAreCreated(tree, "", DefaultAgent, connected);
  }

  // ---------------------------------------------------------------------
  // Groups
  // ---------------------------------------------------------------------

  /** Every node's groups, in pre-order and list order. */
  function GroupsOf(f: seq<ReqNode>): seq<string> {
    if |f| == 0 then [] else f[0].groups + GroupsOf(f[0].children) + GroupsOf(f[1..])
  }

  /** The groups created in the directory, in order. */
  function DirectoryGroups(effects: seq<Effect>): seq<string> {
    if |effects| == 0 then []
    else (if effects[0].CreateGroup? then [effects[0].name] else []) + DirectoryGroups(effects[1..])
  }

  /** The group records stored, in order. */
  function GroupRecords(effects: seq<Effect>): seq<Effect> {
    if |effects| == 0 then []
    else (if effects[0].StoreGroup? then [effects[0]] else []) + GroupRecords(effects[1..])
  }

  /** One record of type RW per group. */
  function RWRecords(groups: seq<string>): (r: seq<Effect>)
    ensures |r| == |groups|
    ensures forall i | 0 <= i < |r| :: r[i] == StoreGroup(groups[i], "RW")
  {
    if |groups| == 0 then [] else [StoreGroup(groups[0], "RW")] + RWRecords(groups[1..])
  }

  lemma {:induction false} RWRecordsAppend(xs: seq<string>, ys: seq<string>)
    ensures RWRecords(xs + ys) == RWRecords(xs) + RWRecords(ys)
  {
    if |xs| == 0 {
      assert xs + ys == ys;
    } else {
      DropOfAppend(xs, ys, 1);
      assert (xs + ys)[0] == xs[0];
      RWRecordsAppend(xs[1..], ys);
    }
  }

  lemma {:induction false} GroupExtractAppend(xs: seq<Effect>, ys: seq<Effect>)
    ensures DirectoryGroups(xs + ys) == DirectoryGroups(xs) + DirectoryGroups(ys)
    ensures GroupRecords(xs + ys) == GroupRecords(xs) + GroupRecords(ys)
  {
    if |xs| == 0 {
      assert xs + ys == ys;
    } else {
      DropOfAppend(xs, ys, 1);
      assert (xs + ys)[0] == xs[0];
      GroupExtractAppend(xs[1..], ys);
    }
  }

  lemma {:induction false} GroupEffectsExtract(groups: seq<string>, owner: string)
    ensures DirectoryGroups(GroupEffects(groups, owner)) == groups
    ensures GroupRecords(GroupEffects(groups, owner)) == RWRecords(groups)
  {
    if |groups| != 0 {
      GroupEffectsExtract(groups[1..], owner);
      var two := [CreateGroup(groups[0], "Group for " + owner), StoreGroup(groups[0], "RW")];
      GroupExtractAppend(two, GroupEffects(groups[1..], owner));
      assert two[1..][1..] == [];
      assert [groups[0]] + groups[1..] == groups;
    }
  }

  lemma OwnGroups(n: ReqNode, parent: string, context: string, connected: set<string>)
    ensures DirectoryGroups(OwnEffects(n, parent, context, connected)) == n.groups
    ensures GroupRecords(OwnEffects(n, parent, context, connected)) == RWRecords(n.groups)
  {
    var folderPart := if n.kind == "folder" then FolderEffects(ExecPath(n, parent), ServerAt(n, context), connected) else [];
    GroupExtractAppend(folderPart, GroupEffects(n.groups, n.name));
    GroupEffectsExtract(n.groups, n.name);
    if n.kind == "folder" {
      assert folderPart[1..][1..] == [];
    }
  }

  lemma GroupsCombine(f: seq<ReqNode>, parent: string, context: string, connected: set<string>)
    requires |f| != 0
    requires DirectoryGroups(Effects(f[0].children, ExecPath(f[0], parent), ServerAt(f[0], context), connected)) == GroupsOf(f[0].children)
    requires GroupRecords(Effects(f[0].children, ExecPath(f[0], parent), ServerAt(f[0], context), connected)) == RWRecords(GroupsOf(f[0].children))
    requires DirectoryGroups(Effects(f[1..], parent, context, connected)) == GroupsOf(f[1..])
    requires GroupRecords(Effects(f[1..], parent, context, connected)) == RWRecords(GroupsOf(f[1..]))
    ensures DirectoryGroups(Effects(f, parent, context, connected)) == GroupsOf(f)
    ensures GroupRecords(Effects(f, parent, context, connected)) == RWRecords(GroupsOf(f))
  {
    var n := f[0];
    var a := OwnEffects(n, parent, context, connected);
    var b := Effects(n.children, ExecPath(n, parent), ServerAt(n, context), connected);
    var c := Effects(f[1..], parent, context, connected);
    OwnGroups(n, parent, context, connected);
    GroupExtractAppend(a + b, c);
    GroupExtractAppend(a, b);
    RWRecordsAppend(n.groups + GroupsOf(n.children), GroupsOf(f[1..]));
    RWRecordsAppend(n.groups, GroupsOf(n.children));
  }

  /** Execution creates every group of every node in the directory and
      stores one record of type RW for it, in pre-order and list order,
      whatever the node types. */
  lemma {:induction false} GroupsCreated(f: seq<ReqNode>, parent: string, context: string, connected: set<string>)
    ensures DirectoryGroups(Effects(f, parent, context, connected)) == GroupsOf(f)
    ensures GroupRecords(Effects(f, parent, context, connected)) == RWRecords(GroupsOf(f))
  {
    if |f| != 0 {
      var n := f[0];
      GroupsCreated(n.children, ExecPath(n, parent), ServerAt(n, context), connected);
      GroupsCreated(f[1..], parent, context, connected);
      GroupsCombine(f, parent, context, connected);
    }
  }

  /** Only group records carry group names, whatever else is kept. */
  lemma {:induction false} PersistedGroupNames(es: seq<Effect>)
    ensures GroupRecordNames(Persisted(es)) == GroupRecordNames(es)
  {
    if |es| != 0 {
      PersistedGroupNames(es[1..]);
      if es[0].StoreFolder? || es[0].StoreGroup? {
        var p := [es[0]] + Persisted(es[1..]);
        assert p[0] == es[0] && p[1..] == Persisted(es[1..]);
      } else {
        assert Persisted(es) == Persisted(es[1..]);
        assert GroupRecordNames(es) == GroupRecordNames(es[1..]);
      }
    }
  }

  /** The names of group records that are one RW record per group. */
  lemma {:induction false} RecordNames(es: seq<Effect>, groups: seq<string>)
    requires GroupRecords(es) == RWRecords(groups)
    ensures GroupRecordNames(es) == groups
  {
    if |es| != 0 {
      if es[0].StoreGroup? {
        assert |groups| != 0 && RWRecords(groups)[0] == StoreGroup(groups[0], "RW");
        assert RWRecords(groups)[1..] == RWRecords(groups[1..]);
        RecordNames(es[1..], groups[1..]);
        assert [groups[0]] + groups[1..] == groups;
      } else {
        RecordNames(es[1..], groups);
      }
    } else {
      assert |RWRecords(groups)| == 0;
    }
  }

  /** The final commit of an execution breaks the uniqueness of group names
      exactly when some group of the tree is already stored or two of the
      tree's group lists, or one list twice, name the same group. */
  lemma CommitClashIff(tree: seq<ReqNode>, connected: set<string>, stored: set<string>)
    ensures var gs := GroupsOf(tree);
      Clashes(GroupRecordNames(Persisted(Effects(tree, "", DefaultAgent, connected))), stored) <==>
        (exists i | 0 <= i < |gs| :: gs[i] in stored) || (exists i, j | 0 <= i < j < |gs| :: gs[i] == gs[j])
  {
    var effects := Effects(tree, "", DefaultAgent, connected);
    GroupsCreated(tree, "", DefaultAgent, connected);
    PersistedGroupNames(effects);
    RecordNames(effects, GroupsOf(tree));
    ClashesIff(GroupsOf(tree), stored);
  }

  // ---------------------------------------------------------------------
  // Folder commands
  // ---------------------------------------------------------------------

  /** The folder creation commands, as the folder and server they name. */
  function Commands(effects: seq<Effect>): seq<Check> {
    if |effects| == 0 then [] else CommandOf(effects[0]) + Commands(effects[1..])
  }

  function CommandOf(e: Effect): seq<Check> {
    match e
    case SendTo(_, path, server) => [Check(server, path)]
    case Broadcast(path, server) => [Check(server, path)]
    case _ => []
  }

  /** A command goes to one agent exactly when its server's agent is
      connected, and that agent is the server's. */
  predicate Routed(effects: seq<Effect>, connected: set<string>) {
    forall i | 0 <= i < |effects| ::
      && (effects[i].SendTo? ==> effects[i].agent == effects[i].server && effects[i].server in connected)
      && (effects[i].Broadcast? ==> effects[i].server !in connected)
  }

  lemma {:induction false} CommandsAppend(xs: seq<Effect>, ys: seq<Effect>)
    ensures Commands(xs + ys) == Commands(xs) + Commands(ys)
  {
    if |xs| == 0 {
      assert xs + ys == ys;
    } else {
      DropOfAppend(xs, ys, 1);
      assert (xs + ys)[0] == xs[0];
      CommandsAppend(xs[1..], ys);
      AppendAssoc(CommandOf(xs[0]), Commands(xs[1..]), Commands(ys));
    }
  }

  lemma {:induction false} CommandsOfGroups(groups: seq<string>, owner: string, connected: set<string>)
    ensures Commands(GroupEffects(groups, owner)) == []
    ensures Routed(GroupEffects(groups, owner), connected)
  {
    if |groups| != 0 {
      CommandsOfGroups(groups[1..], owner, connected);
      var two := [CreateGroup(groups[0], "Group for " + owner), StoreGroup(groups[0], "RW")];
      CommandsAppend(two, GroupEffects(groups[1..], owner));
      assert two[1..][1..] == [];
    }
  }

  lemma OwnCommands(n: ReqNode, parent: string, context: string, connected: set<string>)
    ensures Commands(OwnEffects(n, parent, context, connected)) == FolderRecords(OwnEffects(n, parent, context, connected))
    ensures Routed(OwnEffects(n, parent, context, connected), connected)
  {
    var folderPart := if n.kind == "folder" then FolderEffects(ExecPath(n, parent), ServerAt(n, context), connected) else [];
    var groupPart := GroupEffects(n.groups, n.name);
    CommandsAppend(folderPart, groupPart);
    FolderRecordsAppend(folderPart, groupPart);
    CommandsOfGroups(n.groups, n.name, connected);
    FolderRecordsOfGroups(n.groups, n.name);
    if n.kind == "folder" {
      assert folderPart[1..][1..] == [];
    }
  }

  lemma CommandsCombine(a: seq<Effect>, b: seq<Effect>, c: seq<Effect>, connected: set<string>)
    requires Commands(a) == FolderRecords(a) && Commands(b) == FolderRecords(b) && Commands(c) == FolderRecords(c)
    requires Routed(a, connected) && Routed(b, connected) && Routed(c, connected)
    ensures Commands(a + b + c) == FolderRecords(a + b + c)
    ensures Routed(a + b + c, connected)
  {
    CommandsAppend(a + b, c);
    CommandsAppend(a, b);
    FolderRecordsAppend(a + b, c);
    FolderRecordsAppend(a, b);
  }

  /** Each folder execution records gets exactly one creation command, in
      the same order: sent to its server's agent when that agent is
      connected, broadcast to all agents otherwise. */
  lemma {:induction false} OneCommandPerFolder(f: seq<ReqNode>, parent: string, context: string, connected: set<string>)
    ensures Commands(Effects(f, parent, context, connected)) == FolderRecords(Effects(f, parent, context, connected))
    ensures Routed(Effects(f, parent, context, connected), connected)
  {
    if |f| != 0 {
      var n := f[0];
      OwnCommands(n, parent, context, connected);
      OneCommandPerFolder(n.children, ExecPath(n, parent), ServerAt(n, context), connected);
      OneCommandPerFolder(f[1..], parent, context, connected);
      CommandsCombine(OwnEffects(n, parent, context, connected),
        Effects(n.children, ExecPath(n, parent), ServerAt(n, context), connected),
        Effects(f[1..], parent, context, connected), connected);
    }
  }
}
