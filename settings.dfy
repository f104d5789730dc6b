/** The settings table: seeding the defaults into an empty table, and the
    upsert of one setting by key. */
module Settings {
  import opened Opt
  import opened Records

  /** The rows seeded into an empty table. */
  function Defaults(): seq<SettingRow> {
    [ SettingRow("ad_server", "", Some("Active Directory Server IP/Hostname")),
      SettingRow("ad_domain", "", Some("Active Directory Domain (e.g. corp.local)")),
      SettingRow("ad_user", "", Some("AD Service Account Username")),
      SettingRow("ad_password", "", Some("AD Service Account Password")),
      SettingRow("mock_mode", "true", Some("Enable Mock Mode (Simulate operations)")),
      SettingRow("agent_install_path", "C:\\PermitFlowAgent", Some("Default install path for agents")) ]
  }

  /** No two rows share a key, as the primary key demands. */
  predicate UniqueKeys(rows: seq<SettingRow>) {
    forall i, j | 0 <= i < j < |rows| :: rows[i].key != rows[j].key
  }

  /** The position of the first row with `key`, as `.filter(key == …).first()`
      finds it. */
  function Find(rows: seq<SettingRow>, key: string): (r: Option<nat>)
    ensures r.Some? ==> r.value < |rows| && rows[r.value].key == key
    ensures r.Some? ==> forall j | 0 <= j < r.value :: rows[j].key != key
    ensures r.None? ==> forall j | 0 <= j < |rows| :: rows[j].key != key
  {
    if |rows| == 0 then None
    else if rows[0].key == key then Some(0)
    else match Find(rows[1..], key)
      case None => None
      case Some(k) => Some(k + 1)
  }

  /** Find stops at the earliest row with the key. */
  lemma {:induction false} FindFirst(rows: seq<SettingRow>, key: string, i: nat)
    requires i < |rows| && rows[i].key == key
    requires forall j | 0 <= j < i :: rows[j].key != key
    ensures Find(rows, key) == Some(i)
  {
    if i > 0 {
      FindFirst(rows[1..], key, i - 1);
    }
  }

  /** The row with `key`, if there is one. */
  function Lookup(rows: seq<SettingRow>, key: string): Option<SettingRow> {
    match Find(rows, key)
    case None => None
    case Some(i) => Some(rows[i])
  }

  /** The six defaults have distinct keys. */
  lemma DefaultsDistinct()
    ensures |Defaults()| == 6
    ensures UniqueKeys(Defaults())
  {
    var d := Defaults();
    var tags := "sdupkn";
    assert forall i | 0 <= i < 6 :: |d[i].key| > 3 && d[i].key[3] == tags[i];
    forall i, j | 0 <= i < j < |d|
      ensures d[i].key != d[j].key
    {
      assert tags[i] != tags[j];
    }
  }

  /** Mock mode is on in the seeded table. */
  lemma DefaultsMock()
    ensures Lookup(Defaults(), "mock_mode") == Some(SettingRow("mock_mode", "true", Some("Enable Mock Mode (Simulate operations)")))
  {
    var d := Defaults();
    assert d[0].key[0] != 'm' && d[1].key[0] != 'm' && d[2].key[0] != 'm' && d[3].key[0] != 'm';
    FindFirst(d, "mock_mode", 4);
  }

  /** A description that Python treats as true: present and non-empty. */
  predicate Given(description: Option<string>) {
    description.Some? && description.value != ""
  }

  /** The row `s` makes of an existing row with its key: the new value, and
      the new description only when one is given. */
  function Merged(row: SettingRow, s: SettingRow): SettingRow {
    row.(value := s.value, description := if Given(s.description) then s.description else row.description)
  }

  /** `update_setting`: an existing row with the key is updated in place; a
      missing key adds `s` as a new row. */
  function Upserted(rows: seq<SettingRow>, s: SettingRow): seq<SettingRow> {
    match Find(rows, s.key)
    case Some(i) => rows[i := Merged(rows[i], s)]
    case None => rows + [s]
  }

  /** After the upsert the key holds the merged row or `s`, and every other
      key holds what it held before. */
  lemma UpsertLookup(rows: seq<SettingRow>, s: SettingRow, key: string)
    requires UniqueKeys(rows)
    ensures Lookup(Upserted(rows, s), key) ==
      if key != s.key then Lookup(rows, key)
      else match Lookup(rows, key)
        case Some(row) => Some(Merged(row, s))
        case None => Some(s)
  {
    var r := Upserted(rows, s);
    match Find(rows, s.key)
    case Some(i) =>
      LookupAt(r, i);
      if key != s.key {
        match Find(rows, key)
        case Some(j) => LookupAt(r, j);
        case None => LookupNone(r, key);
      }
    case None =>
      LookupAt(r, |rows|);
      if key != s.key {
        match Find(rows, key)
        case Some(j) => LookupAt(r, j);
        case None => LookupNone(r, key);
      }
  }

  lemma LookupAt(rows: seq<SettingRow>, i: nat)
    requires i < |rows|
    requires forall j | 0 <= j < |rows| && j != i :: rows[j].key != rows[i].key
    ensures Lookup(rows, rows[i].key) == Some(rows[i])
  {
    var k := Find(rows, rows[i].key);
    assert k.Some?;
  }

  lemma LookupNone(rows: seq<SettingRow>, key: string)
    requires forall j | 0 <= j < |rows| :: rows[j].key != key
    ensures Lookup(rows, key) == None
  {
  }

  /** The upsert keeps keys unique. */
  lemma UpsertUnique(rows: seq<SettingRow>, s: SettingRow)
    requires UniqueKeys(rows)
    ensures UniqueKeys(Upserted(rows, s))
  {
  }

  /** Applying the same update twice is applying it once. */
  lemma UpsertIdempotent(rows: seq<SettingRow>, s: SettingRow)
    ensures Upserted(Upserted(rows, s), s) == Upserted(rows, s)
  {
    var r := Upserted(rows, s);
    match Find(rows, s.key)
    case Some(i) =>
      FindFirst(r, s.key, i);
    case None =>
      FindFirst(r, s.key, |rows|);
  }

  /** The settings table. */
  class SettingsTable {
    var rows: seq<SettingRow>

    ghost predicate Valid()
      reads this
    {
      UniqueKeys(rows)
    }

    constructor (initial: seq<SettingRow>)
      requires UniqueKeys(initial)
      ensures Valid() && rows == initial
    {
      rows := initial;
    }

    /** `get_settings`: an empty table is seeded with the defaults, one
        insert at a time, and they are returned; otherwise the rows are
        returned as they are. */
    method GetSettings() returns (result: seq<SettingRow>)
      requires Valid()
      modifies this
      ensures Valid()
      ensures old(rows) == [] ==> rows == Defaults() && result == Defaults()
      ensures old(rows) != [] ==> rows == old(rows) && result == rows
    {
      if |rows| != 0 {
        return rows;
      }
      var defaults := Defaults();
      result := [];
      for i := 0 to |defaults|
        invariant rows == defaults[..i] && result == defaults[..i]
      {
        var s := defaults[i];
        rows := rows + [s];
        result := result + [s];
        assert defaults[..i + 1] == defaults[..i] + [s];
      }
      assert defaults[..|defaults|] == defaults;
      DefaultsDistinct();
    }

    /** `update_setting`: the upsert; the row now stored under the key is
        returned. */
    method UpdateSetting(s: SettingRow) returns (row: SettingRow)
      requires Valid()
      modifies this
      ensures Valid()
      ensures rows == Upserted(old(rows), s)
      ensures Lookup(rows, s.key) == Some(row)
    {
      UpsertUnique(rows, s);
      UpsertLookup(rows, s, s.key);
      match Find(rows, s.key)
      case Some(i) =>
        row := Merged(rows[i], s);
        rows := rows[i := row];
      case None =>
        row := s;
        rows := rows + [s];
    }
  }
}
