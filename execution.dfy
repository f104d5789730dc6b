/** The provisioning endpoints. Validation walks the requested tree and asks
    the agent of each folder's server whether the folder already exists;
    execution walks the same tree, records the folders and groups, sends
    each folder's creation to its agent and creates each group in the
    directory. The agents and the directory are outside the model: what they
    answer is an input. */
module Execution {
  import opened Opt
  import opened Text
  import opened Seqs
  import opened Records

  /** A node of a request; `kind` is its `type` string ('server' or
      'folder' from the editor, but any string is accepted). */
  datatype ReqNode = ReqNode(name: string, kind: string, children: seq<ReqNode>, groups: seq<string>)

  /** The server assumed for nodes with no server above them. */
  const DefaultAgent: string := "SERVER01"

  /** An agent's answer to a path check, or no answer within the timeout. */
  datatype Probe = Answered(status: string, exists_: bool) | TimedOut

  /** The agents: which are connected, and how each answers a path check. */
  datatype Agents = Agents(connected: set<string>, probe: (string, string) -> Probe)

  /** The server in force at a node: its own name if it is a server, else
      the one in force above it. */
  function ServerAt(n: ReqNode, context: string): string {
    if n.kind == "server" then n.name else context
  }

  /** Joins a parent path and a name with a backslash, unless the parent
      path is empty. */
  function Under(parent: string, name: string): string {
    if parent != "" then parent + "\\" + name else name
  }

  // ---------------------------------------------------------------------
  // Validation
  // ---------------------------------------------------------------------

  /** A path check sent to an agent. */
  datatype Check = Check(agent: string, path: string)

  /** The path validation gives a node. */
  function CheckPath(n: ReqNode, parent: string): string {
    if n.kind != "server" then Under(parent, n.name) else n.name
  }

  /** The parent path validation passes to a node's children. */
  function CheckChildParent(n: ReqNode, path: string): string {
    if n.kind == "folder" then path else ""
  }

  /** The check of the node itself: one for a folder, to the server in
      force. */
  function OwnCheck(n: ReqNode, parent: string, context: string): seq<Check> {
    if n.kind == "folder" then [Check(ServerAt(n, context), CheckPath(n, parent))] else []
  }

  /** The checks `check_node` makes for `f` under `parent` and `context`, in
      pre-order. */
  function Checks(f: seq<ReqNode>, parent: string, context: string): seq<Check>
  {
    if |f| == 0 then []
    else
      var n := f[0];
      OwnCheck(n, parent, context)
        + Checks(n.children, CheckChildParent(n, CheckPath(n, parent)), ServerAt(n, context))
        + Checks(f[1..], parent, context)
  }

  /** A check finds a conflict when its agent is connected and either does
      not answer in time or reports that the path exists. */
  predicate Conflicting(c: Check, agents: Agents) {
    c.agent in agents.connected &&
    (agents.probe(c.agent, c.path).TimedOut? ||
     (agents.probe(c.agent, c.path).status == "success" && agents.probe(c.agent, c.path).exists_))
  }

  /** The conflict a check reports: none when its agent is not connected;
      a timeout; or an existing folder the agent reports successfully. */
  function ConflictOf(c: Check, agents: Agents): (r: seq<string>)
    ensures |r| <= 1
    ensures c.agent !in agents.connected ==> r == []
    ensures |r| == 1 <==> Conflicting(c, agents)
    ensures (c.agent in agents.connected && agents.probe(c.agent, c.path).TimedOut?) ==>
      r == ["Timeout checking " + c.path + " on " + c.agent]
    ensures (c.agent in agents.connected && agents.probe(c.agent, c.path).Answered?
             && agents.probe(c.agent, c.path).status == "success" && agents.probe(c.agent, c.path).exists_) ==>
      r == ["Folder already exists on " + c.agent + ": " + c.path]
  {
    if c.agent !in agents.connected then []
    else match agents.probe(c.agent, c.path)
      case TimedOut => ["Timeout checking " + c.path + " on " + c.agent]
      case Answered(status, ex) =>
        if status == "success" && ex then ["Folder already exists on " + c.agent + ": " + c.path] else []
  }

  /** The conflicts of the checks, in their order. */
  function ConflictsOf(cs: seq<Check>, agents: Agents): (r: seq<string>)
    ensures |r| <= |cs|
  {
    if |cs| == 0 then [] else ConflictOf(cs[0], agents) + ConflictsOf(cs[1..], agents)
  }

  lemma {:induction false} ChecksAppend(f: seq<ReqNode>, g: seq<ReqNode>, parent: string, context: string)
    ensures Checks(f + g, parent, context) == Checks(f, parent, context) + Checks(g, parent, context)
  {
    if |f| == 0 {
      assert f + g == g;
    } else {
      DropOfAppend(f, g, 1);
      assert (f + g)[0] == f[0];
      ChecksAppend(f[1..], g, parent, context);
      var n := f[0];
      var own := OwnCheck(n, parent, context) + Checks(n.children, CheckChildParent(n, CheckPath(n, parent)), ServerAt(n, context));
      AppendAssoc(own, Checks(f[1..], parent, context), Checks(g, parent, context));
    }
  }

  lemma {:induction false} ConflictsAppend(xs: seq<Check>, ys: seq<Check>, agents: Agents)
    ensures ConflictsOf(xs + ys, agents) == ConflictsOf(xs, agents) + ConflictsOf(ys, agents)
  {
    if |xs| == 0 {
      assert xs + ys == ys;
    } else {
      DropOfAppend(xs, ys, 1);
      assert (xs + ys)[0] == xs[0];
      ConflictsAppend(xs[1..], ys, agents);
    }
  }

  /** The checks of one node: its own, then its children's. */
  lemma ChecksOne(n: ReqNode, parent: string, context: string)
    ensures Checks([n], parent, context) ==
      OwnCheck(n, parent, context) + Checks(n.children, CheckChildParent(n, CheckPath(n, parent)), ServerAt(n, context))
  {
    assert [n][1..] == [];
  }

  /** The checks of a prefix one node longer. */
  lemma ChecksSnoc(f: seq<ReqNode>, i: nat, parent: string, context: string)
    requires i < |f|
    ensures Checks(f[..i + 1], parent, context) == Checks(f[..i], parent, context) + Checks([f[i]], parent, context)
  {
    assert f[..i + 1] == f[..i] + [f[i]];
    ChecksAppend(f[..i], [f[i]], parent, context);
  }

  /** `check_node`: adds to `conflicts` what the node's own check reports,
      then what its children's checks report, in order. */
  method CheckNode(node: ReqNode, parentPath: string, serverContext: string, agents: Agents, conflicts: seq<string>)
    returns (result: seq<string>)
    ensures result == conflicts + ConflictsOf(Checks([node], parentPath, serverContext), agents)
    decreases node
  {
    var currentServer := serverContext;
    if node.kind == "server" {
      currentServer := node.name;
    }
    var fullPath := if parentPath != "" && node.kind != "server" then parentPath + "\\" + node.name else node.name;
    result := conflicts;
    if node.kind == "folder" {
      var target := currentServer;
      if target in agents.connected {
        match agents.probe(target, fullPath) {
          case TimedOut =>
            result := result + ["Timeout checking " + fullPath + " on " + target];
          case Answered(status, ex) =>
            if status == "success" && ex {
              result := result + ["Folder already exists on " + target + ": " + fullPath];
            }
        }
      }
    }
    ghost var own := result;
    var nextParent := if node.kind == "folder" then fullPath else "";
    assert own == conflicts + ConflictsOf(OwnCheck(node, parentPath, serverContext), agents);
    for i := 0 to |node.children|
      invariant result == own + ConflictsOf(Checks(node.children[..i], nextParent, currentServer), agents)
    {
      var child := node.children[i];
      ghost var before := result;
      result := CheckNode(child, nextParent, currentServer, agents, result);
      ChecksSnoc(node.children, i, nextParent, currentServer);
      ghost var done := Checks(node.children[..i], nextParent, currentServer);
      ghost var more := Checks([child], nextParent, currentServer);
      ConflictsAppend(done, more, agents);
      AppendStep(own, before, result, ConflictsOf(done, agents), ConflictsOf(more, agents), ConflictsOf(done + more, agents));
    }
    assert node.children[..|node.children|] == node.children;
    ChecksOne(node, parentPath, serverContext);
    ghost var mine := OwnCheck(node, parentPath, serverContext);
    ghost var below := Checks(node.children, nextParent, currentServer);
    ConflictsAppend(mine, below, agents);
    AppendStep(conflicts, own, result, ConflictsOf(mine, agents), ConflictsOf(below, agents), ConflictsOf(mine + below, agents));
  }

  /** `validate_structure`: checks every root from an empty path under the
      default server, and always reports success with the conflicts found,
      in the order of the walk. */
  method ValidateStructure(tree: seq<ReqNode>, agents: Agents) returns (status: string, conflicts: seq<string>)
    ensures status == "success"
    ensures conflicts == ConflictsOf(Checks(tree, "", DefaultAgent), agents)
  {
    conflicts := [];
    for i := 0 to |tree|
      invariant conflicts == ConflictsOf(Checks(tree[..i], "", DefaultAgent), agents)
    {
      ghost var before := conflicts;
      conflicts := CheckNode(tree[i], "", DefaultAgent, agents, conflicts);
      ChecksSnoc(tree, i, "", DefaultAgent);
      ghost var done := Checks(tree[..i], "", DefaultAgent);
      ghost var more := Checks([tree[i]], "", DefaultAgent);
      ConflictsAppend(done, more, agents);
      AppendStep([], before, conflicts, ConflictsOf(done, agents), ConflictsOf(more, agents), ConflictsOf(done + more, agents));
    }
    assert tree[..|tree|] == tree;
    status := "success";
  }

  /** No connected agent, no conflict. */
  lemma {:induction false} OfflineNoConflicts(cs: seq<Check>, agents: Agents)
    requires forall i | 0 <= i < |cs| :: cs[i].agent !in agents.connected
    ensures ConflictsOf(cs, agents) == []
  {
    if |cs| != 0 {
      OfflineNoConflicts(cs[1..], agents);
    }
  }

  /** There are no conflicts exactly when no check is conflicting, and
      there are never more conflicts than conflicting checks. */
  lemma {:induction false} NoConflictsIff(cs: seq<Check>, agents: Agents)
    ensures ConflictsOf(cs, agents) == [] <==> forall i | 0 <= i < |cs| :: !Conflicting(cs[i], agents)
  {
    if |cs| != 0 {
      NoConflictsIff(cs[1..], agents);
      assert forall i | 1 <= i < |cs| :: cs[i] == cs[1..][i - 1];
      if !Conflicting(cs[0], agents) && ConflictsOf(cs, agents) == [] {
        assert forall i | 0 <= i < |cs[1..]| :: cs[1..][i] == cs[i + 1];
      }
    }
  }

  // ---------------------------------------------------------------------
  // Execution
  // ---------------------------------------------------------------------

  /** What execution does, in order. */
  datatype Effect =
    | StoreFolder(path: string, server: string)          // a `Folder` record
    | SendTo(agent: string, path: string, server: string)  // `create_folder` to one agent
    | Broadcast(path: string, server: string)            // `create_folder` to every agent
    | CreateGroup(name: string, description: string)     // `create_group` in the directory
    | StoreGroup(name: string, kind: string)              // an `ADGroup` record

  /** The parent path execution passes to a node's children, which is also
      a folder's own path. */
  function ExecPath(n: ReqNode, parent: string): string {
    if n.kind == "server" then "" else Under(parent, n.name)
  }

  /** A folder's record and its creation command: to its server's agent
      when that agent is connected, to all agents otherwise. */
  function FolderEffects(path: string, server: string, connected: set<string>): seq<Effect> {
    [StoreFolder(path, server), if server in connected then SendTo(server, path, server) else Broadcast(path, server)]
  }

  /** For each group, in order: its creation in the directory, then its
      record of type RW. */
  function GroupEffects(groups: seq<string>, owner: string): (r: seq<Effect>)
    ensures |r| == 2 * |groups|
  {
    if |groups| == 0 then []
    else [CreateGroup(groups[0], "Group for " + owner), StoreGroup(groups[0], "RW")] + GroupEffects(groups[1..], owner)
  }

  /** The effects of the node itself: a folder's record and command, then
      its groups. */
  function OwnEffects(n: ReqNode, parent: string, context: string, connected: set<string>): seq<Effect> {
    (if n.kind == "folder" then FolderEffects(ExecPath(n, parent), ServerAt(n, context), connected) else [])
      + GroupEffects(n.groups, n.name)
  }

  /** What `process_node` does for `f` under `parent` and `context`, in
      pre-order. */
  function Effects(f: seq<ReqNode>, parent: string, context: string, connected: set<string>): seq<Effect>
  {
    if |f| == 0 then []
    else
      var n := f[0];
      OwnEffects(n, parent, context, connected)
        + Effects(n.children, ExecPath(n, parent), ServerAt(n, context), connected)
        + Effects(f[1..], parent, context, connected)
  }

  lemma {:induction false} EffectsAppend(f: seq<ReqNode>, g: seq<ReqNode>, parent: string, context: string, connected: set<string>)
    ensures Effects(f + g, parent, context, connected) == Effects(f, parent, context, connected) + Effects(g, parent, context, connected)
  {
    if |f| == 0 {
      assert f + g == g;
    } else {
      DropOfAppend(f, g, 1);
      assert (f + g)[0] == f[0];
      EffectsAppend(f[1..], g, parent, context, connected);
      var n := f[0];
      var own := OwnEffects(n, parent, context, connected) + Effects(n.children, ExecPath(n, parent), ServerAt(n, context), connected);
      AppendAssoc(own, Effects(f[1..], parent, context, connected), Effects(g, parent, context, connected));
    }
  }

  lemma EffectsSnoc(f: seq<ReqNode>, i: nat, parent: string, context: string, connected: set<string>)
    requires i < |f|
    ensures Effects(f[..i + 1], parent, context, connected) ==
      Effects(f[..i], parent, context, connected) + Effects([f[i]], parent, context, connected)
  {
    assert f[..i + 1] == f[..i] + [f[i]];
    EffectsAppend(f[..i], [f[i]], parent, context, connected);
  }

  lemma EffectsOne(n: ReqNode, parent: string, context: string, connected: set<string>)
    ensures Effects([n], parent, context, connected) ==
      OwnEffects(n, parent, context, connected) + Effects(n.children, ExecPath(n, parent), ServerAt(n, context), connected)
  {
    assert [n][1..] == [];
  }

  lemma GroupEffectsSnoc(groups: seq<string>, i: nat, owner: string)
    requires i < |groups|
    ensures GroupEffects(groups[..i + 1], owner) ==
      GroupEffects(groups[..i], owner) + [CreateGroup(groups[i], "Group for " + owner), StoreGroup(groups[i], "RW")]
  {
    GroupEffectsAppend(groups[..i], [groups[i]], owner);
    assert groups[..i + 1] == groups[..i] + [groups[i]];
  }

  lemma {:induction false} GroupEffectsAppend(xs: seq<string>, ys: seq<string>, owner: string)
    ensures GroupEffects(xs + ys, owner) == GroupEffects(xs, owner) + GroupEffects(ys, owner)
  {
    if |xs| == 0 {
      assert xs + ys == ys;
    } else {
      DropOfAppend(xs, ys, 1);
      assert (xs + ys)[0] == xs[0];
      GroupEffectsAppend(xs[1..], ys, owner);
    }
  }

  /** `process_node`: appends to `log` the node's folder record and
      command, its groups, and then its children's effects. */
  method ProcessNode(node: ReqNode, parentPath: string, serverContext: string, connected: set<string>, log: seq<Effect>)
    returns (result: seq<Effect>)
    ensures result == log + Effects([node], parentPath, serverContext, connected)
    decreases node
  {
    var currentServer := serverContext;
    var nextParent: string;
    if node.kind == "server" {
      currentServer := node.name;
      nextParent := "";
    } else {
      nextParent := if parentPath != "" then parentPath + "\\" + node.name else node.name;
    }
    result := log;
    if node.kind == "folder" {
      var fullPath := nextParent;
      result := result + [StoreFolder(fullPath, currentServer)];
      if currentServer in connected {
        result := result + [SendTo(currentServer, fullPath, currentServer)];
      } else {
        result := result + [Broadcast(fullPath, currentServer)];
      }
    }
    ghost var folderPart := if node.kind == "folder" then FolderEffects(nextParent, currentServer, connected) else [];
    ghost var own := result;
    assert own == log + folderPart;
    for i := 0 to |node.groups|
      invariant result == own + GroupEffects(node.groups[..i], node.name)
    {
      var groupName := node.groups[i];
      ghost var before := result;
      result := result + [CreateGroup(groupName, "Group for " + node.name)];
      result := result + [StoreGroup(groupName, "RW")];
      GroupEffectsSnoc(node.groups, i, node.name);
      AppendStep(own, before, result, GroupEffects(node.groups[..i], node.name),
        [CreateGroup(groupName, "Group for " + node.name), StoreGroup(groupName, "RW")], GroupEffects(node.groups[..i + 1], node.name));
    }
    assert node.groups[..|node.groups|] == node.groups;
    ghost var grouped := result;
    AppendStep(log, own, grouped, folderPart, GroupEffects(node.groups, node.name), OwnEffects(node, parentPath, serverContext, connected));
    for i := 0 to |node.children|
      invariant result == grouped + Effects(node.children[..i], nextParent, currentServer, connected)
    {
      ghost var before := result;
      result := ProcessNode(node.children[i], nextParent, currentServer, connected, result);
      EffectsSnoc(node.children, i, nextParent, currentServer, connected);
      AppendStep(grouped, before, result, Effects(node.children[..i], nextParent, currentServer, connected),
        Effects([node.children[i]], nextParent, currentServer, connected), Effects(node.children[..i + 1], nextParent, currentServer, connected));
    }
    assert node.children[..|node.children|] == node.children;
    EffectsOne(node, parentPath, serverContext, connected);
    AppendStep(log, grouped, result, OwnEffects(node, parentPath, serverContext, connected),
      Effects(node.children, nextParent, currentServer, connected), Effects([node], parentPath, serverContext, connected));
  }

  /** Where execution fails, if it does: storing the action itself, or the
      effect at position `step` (a position past the last effect is the
      final commit). */
  datatype Fault = NoFault | AtAction(message: string) | AtEffect(step: nat, message: string)

  /** The reply of `execute_structure`. */
  datatype ExecReply = Executed(id: nat, message: string) | ExecFailed(error: string)

  /** The result of one execution: the reply, the action row left in the
      log, the effects that took place, and the records that remain. */
  datatype ExecRun = ExecRun(reply: ExecReply, action: Option<ActionLog>, performed: seq<Effect>, records: seq<Effect>)

  /** The effects that are database records. */
  function Persisted(effects: seq<Effect>): (r: seq<Effect>)
    ensures |r| <= |effects|
  {
    if |effects| == 0 then []
    else (if effects[0].StoreFolder? || effects[0].StoreGroup? then [effects[0]] else []) + Persisted(effects[1..])
  }

  /** The names of the group records among the effects, in order. */
  function GroupRecordNames(effects: seq<Effect>): (r: seq<string>)
    ensures |r| <= |effects|
  {
    if |effects| == 0 then []
    else (if effects[0].StoreGroup? then [effects[0].name] else []) + GroupRecordNames(effects[1..])
  }

  /** Whether inserting group records with these names, in order, into a
      table that already holds the names `stored` breaks the uniqueness of
      the group name column: each insert is checked against the names
      before it. */
  function Clashes(names: seq<string>, stored: set<string>): bool
  {
    if |names| == 0 then false
    else names[0] in stored || Clashes(names[1..], stored + {names[0]})
  }

  /** Inserting clashes exactly when a name is already stored or a name
      repeats. */
  lemma {:induction false} ClashesIff(names: seq<string>, stored: set<string>)
    ensures Clashes(names, stored) <==>
      (exists i | 0 <= i < |names| :: names[i] in stored)
      || (exists i, j | 0 <= i < j < |names| :: names[i] == names[j])
  {
    if |names| != 0 {
      var rest := names[1..];
      ClashesIff(rest, stored + {names[0]});
      assert forall i | 0 <= i < |rest| :: rest[i] == names[i + 1];
      if Clashes(names, stored) {
        if names[0] !in stored {
          if exists i | 0 <= i < |rest| :: rest[i] in stored + {names[0]} {
            var i :| 0 <= i < |rest| && rest[i] in stored + {names[0]};
            if rest[i] == names[0] {
              assert names[0] == names[i + 1];
            } else {
              assert names[i + 1] in stored;
            }
          } else {
            var i, j :| 0 <= i < j < |rest| && rest[i] == rest[j];
            assert names[i + 1] == names[j + 1];
          }
        }
      } else {
        assert names[0] !in stored;
        forall i | 0 <= i < |names|
          ensures names[i] !in stored
        {
          if i > 0 {
            assert rest[i - 1] == names[i];
          }
        }
        forall i, j | 0 <= i < j < |names|
          ensures names[i] != names[j]
        {
          if i == 0 {
            assert rest[j - 1] == names[j];
          } else {
            assert rest[i - 1] == names[i] && rest[j - 1] == names[j];
          }
        }
      }
    }
  }

  /** The error the final commit reports when a group name is already taken. */
  const UniqueGroupError: string := "UNIQUE constraint failed: ad_groups.name"

  /** `execute_structure`, given the id the database assigns the new action,
      the clock reading, the connected agents, the group names already
      stored, and where it fails. The action is stored as running; on
      success every effect takes place and the action is marked "success";
      on a failure the effects before it took place, the records are rolled
      back, and an action that got an id is marked "failed". The records
      are only written at the final commit, so a group name that repeats or
      is already stored fails it after every command and directory call has
      gone out. */
  method ExecuteStructure(tree: seq<ReqNode>, connected: set<string>, storedGroups: set<string>,
                          newId: nat, now: int, fault: Fault)
    returns (outcome: ExecRun)
    ensures fault.NoFault? ==>
      var effects := Effects(tree, "", DefaultAgent, connected);
      outcome == if Clashes(GroupRecordNames(Persisted(effects)), storedGroups) then
        ExecRun(ExecFailed(UniqueGroupError),
          Some(ProvisionAction(newId, now, |tree|, if newId != 0 then "failed" else "Running")), effects, [])
      else
        ExecRun(Executed(newId, "Structure executed"),
          Some(ProvisionAction(newId, now, |tree|, "success")), effects, Persisted(effects))
    ensures outcome.reply.Executed? ==> !Clashes(GroupRecordNames(outcome.records), storedGroups)
    ensures fault.AtAction? ==> outcome == ExecRun(ExecFailed(fault.message), None, [], [])
    ensures fault.AtEffect? ==>
      var effects := Effects(tree, "", DefaultAgent, connected);
      outcome == ExecRun(ExecFailed(fault.message),
        Some(ProvisionAction(newId, now, |tree|, if newId != 0 then "failed" else "Running")),
        effects[..if fault.step < |effects| then fault.step else |effects|], [])
  {
    if fault.AtAction? {
      return ExecRun(ExecFailed(fault.message), None, [], []);
    }
    var action := ProvisionAction(newId, now, |tree|, "Running");
    var log := [];
    for i := 0 to |tree|
      invariant log == Effects(tree[..i], "", DefaultAgent, connected)
    {
      var defaultServer := DefaultAgent;
      ghost var before := log;
      log := ProcessNode(tree[i], "", defaultServer, connected, log);
      EffectsSnoc(tree, i, "", DefaultAgent, connected);
      AppendStep([], before, log, Effects(tree[..i], "", DefaultAgent, connected),
        Effects([tree[i]], "", DefaultAgent, connected), Effects(tree[..i + 1], "", DefaultAgent, connected));
    }
    assert tree[..|tree|] == tree;
    match fault {
      case NoFault =>
        var records := Persisted(log);
        if Clashes(GroupRecordNames(records), storedGroups) {
          if action.id != 0 {
            action := action.(status := "failed");
          }
          outcome := ExecRun(ExecFailed(UniqueGroupError), Some(action), log, []);
        } else {
          action := action.(status := "success");
          outcome := ExecRun(Executed(action.id, "Structure executed"), Some(action), log, records);
        }
      case AtEffect(step, message) =>
        var performed := log[..if step < |log| then step else |log|];
        if action.id != 0 {
          action := action.(status := "failed");
        }
        outcome := ExecRun(ExecFailed(message), Some(action), performed, []);
    }
  }

  /** The action row of a provisioning of `roots` root items. */
  function ProvisionAction(id: nat, now: int, roots: nat, status: string): ActionLog {
    ActionLog(id, now, "Provision", "Provisioned " + NatToString(roots) + " root items", status)
  }
}
