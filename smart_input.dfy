/** The smart-input editor: the text the user types, the tree the text is
    parsed into, and the loading flag of the provisioning button. Typing
    re-parses the text, the tree view's edits write text back or change one
    group in place, and provisioning sends the tree for validation and then
    for execution. */
module Editor {
  import opened Text
  import opened Forest
  import opened Seqs
  import opened Parser
  import opened Serializer
  import opened TreeEdit

  /** Parsing the empty text gives the empty tree. */
  lemma ParsedEmpty(stamp: int)
    ensures Parsed("", stamp) == []
  {
    assert Split("", '\n') == [""];
    assert IsBlank("");
    var lines: seq<string> := [""];
    assert lines[..|lines| - 1] == [];
    assert Scan(lines, stamp, 0, DefaultServer).entries == [];
  }

  /** The text of a forest depends only on its names and nesting. */
  lemma {:induction false} RenderShape(f: seq<Node>, depth: nat)
    ensures Render(Shape(f), depth) == Render(f, depth)
  {
    if |f| != 0 {
      RenderShape(f[0].children, depth + 1);
      RenderShape(f[1..], depth);
    }
  }

  /** A reply of the validation endpoint, or the error its request raised. */
  datatype ValidateReply = ValidateReply(status: string, conflicts: seq<string>) | ValidateError(message: string)

  /** A reply of the execution endpoint, or the error its request raised; an
      empty `error` stands for a missing one. */
  datatype ExecuteReply = ExecuteReply(status: string, id: int, error: string) | ExecuteError(message: string)

  /** The requests provisioning sends, each carrying the whole tree. */
  datatype Request = Validate(tree: seq<Node>) | Execute(tree: seq<Node>)

  /** How a click on the provisioning button ends. */
  datatype Outcome =
    | NotSubmitted
    | Blocked(conflicts: seq<string>)
    | Provisioned(id: int)
    | Failed(message: string)

  /** The validation reply names paths that already exist. */
  predicate Conflicting(v: ValidateReply) {
    v.ValidateReply? && v.status == "success" && |v.conflicts| > 0
  }

  /** How provisioning the tree ends, given the two replies. */
  function ProvisionOutcome(tree: seq<Node>, v: ValidateReply, x: ExecuteReply): (r: Outcome)
    ensures r.NotSubmitted? <==> |tree| == 0
    ensures r.Blocked? <==> |tree| != 0 && Conflicting(v)
    ensures r.Blocked? ==> r.conflicts == v.conflicts
    ensures r.Provisioned? <==> |tree| != 0 && v.ValidateReply? && !Conflicting(v) && x.ExecuteReply? && x.status == "success"
    ensures r.Provisioned? ==> r.id == x.id
    ensures r.Failed? && v.ValidateReply? && x.ExecuteReply? ==> r.message == if x.error == "" then "Unknown error" else x.error
    ensures r.Failed? && v.ValidateError? ==> r.message == v.message
    ensures r.Failed? && v.ValidateReply? && x.ExecuteError? ==> r.message == x.message
  {
    if |tree| == 0 then NotSubmitted
    else match v
      case ValidateError(m) => Failed(m)
      case ValidateReply(_, conflicts) =>
        if Conflicting(v) then Blocked(conflicts)
        else match x
          case ExecuteError(m) => Failed(m)
          case ExecuteReply(status, id, error) =>
            if status == "success" then Provisioned(id)
            else Failed(if error == "" then "Unknown error" else error)
  }

  /** The requests provisioning the tree sends, given the validation reply:
      nothing for an empty tree, and no execution once validation failed or
      found conflicts. */
  function ProvisionRequests(tree: seq<Node>, v: ValidateReply): (r: seq<Request>)
    ensures |tree| == 0 ==> r == []
    ensures |tree| != 0 ==> |r| >= 1 && r[0] == Validate(tree)
    ensures Execute(tree) in r <==> |tree| != 0 && v.ValidateReply? && !Conflicting(v)
  {
    if |tree| == 0 then []
    else if v.ValidateError? || Conflicting(v) then [Validate(tree)]
    else [Validate(tree), Execute(tree)]
  }

  class SmartInput {
    var text: string
    var tree: seq<Node>
    var isLoading: bool
    /** The clock reading of the parse that produced the current tree. */
    ghost var parsedAt: int

    /** The tree has exactly the nodes of the parsed text, with their ids,
        names, kinds and nesting; only group lists may have been edited. */
    ghost predicate Valid()
      reads this
    {
      Shape(tree) == Shape(Parsed(text, parsedAt))
    }

    /** Both views start empty and idle. */
    constructor ()
      ensures Valid()
      ensures text == "" && tree == [] && !isLoading
    {
      text, tree, isLoading := "", [], false;
      parsedAt := 0;
      ParsedEmpty(0);
    }

    /** The tree view shows the outline the text reads as. */
    lemma TreeShowsText()
      requires Valid()
      ensures Render(tree, 0) == Render(Parsed(text, parsedAt), 0)
    {
      RenderShape(tree, 0);
      RenderShape(Parsed(text, parsedAt), 0);
    }

    /** `setText` followed by the parse effect, which runs only when the text
        actually changed; `stamp` is the clock reading it draws ids from. */
    method EditText(newText: string, stamp: int)
      requires Valid()
      modifies this
      ensures Valid()
      ensures text == newText && isLoading == old(isLoading)
      ensures newText != old(text) ==> tree == Parsed(newText, stamp)
      ensures newText == old(text) ==> tree == old(tree)
    {
      if newText != text {
        text := newText;
        tree := Parse(newText, stamp);
        parsedAt := stamp;
      }
    }

    /** `handleTreeUpdate`: the new tree is written back as text, and the
        tree then follows from that text. */
    method TreeUpdate(newTree: seq<Node>, stamp: int)
      requires Valid()
      modifies this
      ensures Valid()
      ensures text == Render(newTree, 0) && isLoading == old(isLoading)
      ensures text != old(text) ==> tree == Parsed(text, stamp)
      ensures text == old(text) ==> tree == old(tree)
    {
      var newText := GenerateText(newTree, 0);
      EditText(newText, stamp);
    }

    /** `handleGroupDelete`: removes the group at `groupIdx` from the first
        node, in document order, with the target id. */
    method GroupDelete(target: NodeId, groupIdx: nat)
      requires Valid()
      modifies this
      ensures Valid()
      ensures tree == EditFirst(old(tree), target, Delete(groupIdx)).forest
      ensures text == old(text) && isLoading == old(isLoading)
    {
      var _, edited := UpdateNode(tree, target, Delete(groupIdx));
      EditKeepsShape(tree, target, Delete(groupIdx));
      tree := edited;
    }

    /** `handleGroupRename`: a blank new name changes nothing; otherwise the
        trimmed name replaces the group at `groupIdx` of the first node, in
        document order, with the target id and such a group. */
    method GroupRename(target: NodeId, groupIdx: nat, newName: string)
      requires Valid()
      modifies this
      ensures Valid()
      ensures IsBlank(newName) ==> tree == old(tree)
      ensures !IsBlank(newName) ==> tree == EditFirst(old(tree), target, Rename(groupIdx, Trim(newName))).forest
      ensures text == old(text) && isLoading == old(isLoading)
    {
      if IsBlank(newName) {
        return;
      }
      var _, edited := UpdateNode(tree, target, Rename(groupIdx, Trim(newName)));
      EditKeepsShape(tree, target, Rename(groupIdx, Trim(newName)));
      tree := edited;
    }

    /** `handleProvision`, with the endpoints' replies as inputs: nothing
        happens for an empty tree; otherwise the tree is validated, conflicts
        stop it, the tree is executed, and a success clears both views. The
        loading flag is down once the click is handled. */
    method Provision(v: ValidateReply, x: ExecuteReply) returns (outcome: Outcome, sent: seq<Request>)
      requires Valid()
      modifies this
      ensures Valid()
      ensures outcome == ProvisionOutcome(old(tree), v, x)
      ensures sent == ProvisionRequests(old(tree), v)
      ensures outcome.Provisioned? ==> tree == [] && text == ""
      ensures !outcome.Provisioned? ==> tree == old(tree) && text == old(text)
      ensures isLoading == if outcome.NotSubmitted? then old(isLoading) else false
    {
      if |tree| == 0 {
        return NotSubmitted, [];
      }
      isLoading := true;
      sent := [Validate(tree)];
      match v {
        case ValidateError(m) =>
          outcome := Failed(m);
        case ValidateReply(status, conflicts) =>
          if status == "success" && |conflicts| > 0 {
            isLoading := false;
            return Blocked(conflicts), sent;
          }
          sent := sent + [Execute(tree)];
          match x {
            case ExecuteError(m) =>
              outcome := Failed(m);
            case ExecuteReply(status', id, error) =>
              if status' == "success" {
                outcome := Provisioned(id);
                tree := [];
                text := "";
                ParsedEmpty(parsedAt);
              } else {
                outcome := Failed(if error == "" then "Unknown error" else error);
              }
          }
      }
      isLoading := false;
    }
  }
}
