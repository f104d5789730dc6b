/** The action history: the log listed newest first, and the rollback that
    marks one action as rolled back. */
module History {
  import opened Opt
  import opened Records

  /** Newest first: timestamps never increase along the list. */
  predicate NewestFirst(s: seq<ActionLog>) {
    forall i, j | 0 <= i < j < |s| :: s[i].timestamp >= s[j].timestamp
  }

  /** `a` placed before the first action that is not newer than it. */
  function Insert(a: ActionLog, s: seq<ActionLog>): (r: seq<ActionLog>)
    ensures |r| == |s| + 1
    ensures r[0] == a || (|s| > 0 && r[0] == s[0])
  {
    if |s| == 0 || a.timestamp >= s[0].timestamp then [a] + s
    else [s[0]] + Insert(a, s[1..])
  }

  /** `get_history`: the actions ordered by timestamp, newest first. Ties
      keep no particular order in the database; here the earlier row comes
      first. */
  function ByNewest(actions: seq<ActionLog>): seq<ActionLog>
  {
    if |actions| == 0 then [] else Insert(actions[0], ByNewest(actions[1..]))
  }

  /** No action of `s` is newer than `t`. */
  predicate AllAtMost(s: seq<ActionLog>, t: int) {
    forall k | 0 <= k < |s| :: s[k].timestamp <= t
  }

  lemma {:induction false} InsertAtMost(a: ActionLog, s: seq<ActionLog>, t: int)
    requires a.timestamp <= t && AllAtMost(s, t)
    ensures AllAtMost(Insert(a, s), t)
  {
    if |s| != 0 && a.timestamp < s[0].timestamp {
      InsertAtMost(a, s[1..], t);
    }
  }

  lemma ConsNewestFirst(x: ActionLog, s: seq<ActionLog>)
    requires AllAtMost(s, x.timestamp) && NewestFirst(s)
    ensures NewestFirst([x] + s)
  {
  }

  lemma {:induction false} InsertSorted(a: ActionLog, s: seq<ActionLog>)
    requires NewestFirst(s)
    ensures NewestFirst(Insert(a, s))
  {
    if |s| == 0 || a.timestamp >= s[0].timestamp {
      ConsNewestFirst(a, s);
    } else {
      InsertSorted(a, s[1..]);
      InsertAtMost(a, s[1..], s[0].timestamp);
      ConsNewestFirst(s[0], Insert(a, s[1..]));
    }
  }

  lemma {:induction false} InsertPerm(a: ActionLog, s: seq<ActionLog>)
    ensures multiset(Insert(a, s)) == multiset{a} + multiset(s)
  {
    if |s| != 0 && a.timestamp < s[0].timestamp {
      InsertPerm(a, s[1..]);
      assert [s[0]] + s[1..] == s;
    }
  }

  /** The history holds every action exactly once, newest first. */
  lemma {:induction false} ByNewestSpec(actions: seq<ActionLog>)
    ensures NewestFirst(ByNewest(actions))
    ensures multiset(ByNewest(actions)) == multiset(actions)
  {
    if |actions| != 0 {
      ByNewestSpec(actions[1..]);
      InsertSorted(actions[0], ByNewest(actions[1..]));
      InsertPerm(actions[0], ByNewest(actions[1..]));
      assert [actions[0]] + actions[1..] == actions;
    }
  }

  /** No two actions share an id, as the primary key demands. */
  predicate UniqueIds(actions: seq<ActionLog>) {
    forall i, j | 0 <= i < j < |actions| :: actions[i].id != actions[j].id
  }

  /** The position of the first action with `id`. */
  function FindAction(actions: seq<ActionLog>, id: int): (r: Option<nat>)
    ensures r.Some? ==> r.value < |actions| && actions[r.value].id == id
    ensures r.None? ==> forall j | 0 <= j < |actions| :: actions[j].id != id
    ensures id < 0 ==> r.None?
  {
    if |actions| == 0 then None
    else if actions[0].id == id then Some(0)
    else match FindAction(actions[1..], id)
      case None => None
      case Some(k) => Some(k + 1)
  }

  /** The reply of `rollback_action`. */
  datatype RollbackReply = RolledBack(id: int) | RollbackFailed(error: string)

  /** The log after rolling back `id`: that action's status becomes
      "rolled_back"; a missing id changes nothing. */
  function RolledBackLog(actions: seq<ActionLog>, id: int): seq<ActionLog> {
    match FindAction(actions, id)
    case None => actions
    case Some(i) => actions[i := actions[i].(status := "rolled_back")]
  }

  /** Only the action with the id changes, whatever its status was, and
      only in its status. */
  lemma RollbackEffect(actions: seq<ActionLog>, id: int)
    requires UniqueIds(actions)
    ensures |RolledBackLog(actions, id)| == |actions|
    ensures forall i | 0 <= i < |actions| ::
      RolledBackLog(actions, id)[i] == (if actions[i].id == id then actions[i].(status := "rolled_back") else actions[i])
  {
  }

  /** Rolling back twice is rolling back once. */
  lemma RollbackIdempotent(actions: seq<ActionLog>, id: int)
    requires UniqueIds(actions)
    ensures RolledBackLog(RolledBackLog(actions, id), id) == RolledBackLog(actions, id)
  {
    RollbackEffect(actions, id);
    var r := RolledBackLog(actions, id);
    assert UniqueIds(r);
    RollbackEffect(r, id);
  }

  /** The action log table. */
  class ActionTable {
    var actions: seq<ActionLog>

    ghost predicate Valid()
      reads this
    {
      UniqueIds(actions)
    }

    constructor (initial: seq<ActionLog>)
      requires UniqueIds(initial)
      ensures Valid() && actions == initial
    {
      actions := initial;
    }

    /** `get_history`. */
    method GetHistory() returns (result: seq<ActionLog>)
      ensures NewestFirst(result)
      ensures multiset(result) == multiset(actions)
    {
      result := ByNewest(actions);
      ByNewestSpec(actions);
    }

    /** `rollback_action`: marks the action with `id` as rolled back, or
        reports that there is none. */
    method Rollback(id: int) returns (reply: RollbackReply)
      requires Valid()
      modifies this
      ensures Valid()
      ensures actions == RolledBackLog(old(actions), id)
      ensures reply == if exists i | 0 <= i < |old(actions)| :: old(actions)[i].id == id
        then RolledBack(id) else RollbackFailed("Action not found")
    {
      RollbackEffect(actions, id);
      match FindAction(actions, id)
      case Some(i) =>
        actions := actions[i := actions[i].(status := "rolled_back")];
        reply := RolledBack(id);
      case None =>
        reply := RollbackFailed("Action not found");
    }
  }
}
