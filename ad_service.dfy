/** The directory service: the settings it reads once when created, the mock
    switch, the names it builds for a directory connection and a new group,
    and the answers of its mock mode. */
module Directory {
  import opened Opt
  import opened Seqs
  import opened Text
  import opened Records
  import Settings

  /** `{s.key: s.value for s in rows}`: a later row with the same key wins. */
  function LoadSettings(rows: seq<SettingRow>): map<string, string>
  {
    if |rows| == 0 then map[]
    else LoadSettings(rows[..|rows| - 1])[rows[|rows| - 1].key := rows[|rows| - 1].value]
  }

  /** The map holds exactly the keys of the rows, each with the value of the
      last row carrying it. */
  lemma {:induction false} LoadSettingsSpec(rows: seq<SettingRow>, key: string)
    ensures key in LoadSettings(rows) <==> exists i | 0 <= i < |rows| :: rows[i].key == key
    ensures forall i | 0 <= i < |rows| && rows[i].key == key && (forall j | i < j < |rows| :: rows[j].key != key) ::
      key in LoadSettings(rows) && LoadSettings(rows)[key] == rows[i].value
  {
    if |rows| != 0 {
      var init := rows[..|rows| - 1];
      LoadSettingsSpec(init, key);
      forall i | 0 <= i < |init| ensures init[i] == rows[i] { }
    }
  }

  /** Over a table with unique keys the map agrees with the table. */
  lemma LoadAgreesWithTable(rows: seq<SettingRow>, key: string)
    requires Settings.UniqueKeys(rows)
    ensures key in LoadSettings(rows) <==> Settings.Lookup(rows, key).Some?
    ensures key in LoadSettings(rows) ==> LoadSettings(rows)[key] == Settings.Lookup(rows, key).value.value
  {
    LoadSettingsSpec(rows, key);
    match Settings.Find(rows, key)
    case None =>
    case Some(i) =>
  }

  /** Python's `dict.get(key, default)`. */
  function Get(m: map<string, string>, key: string, default: string): string {
    if key in m then m[key] else default
  }

  /** `user` qualified by `domain` as `DOMAIN\user`, unless it already
      names a domain. */
  function FullUser(domain: string, user: string): (r: string)
    ensures '\\' in r
    ensures '\\' in user ==> r == user
  {
    if '\\' in user then user else domain + "\\" + user
  }

  /** A plain domain and user name come back apart when the full name is
      split at its backslash. */
  lemma FullUserSplits(domain: string, user: string)
    requires '\\' !in domain && '\\' !in user
    ensures Split(FullUser(domain, user), '\\') == [domain, user]
  {
    SplitJoin([domain, user], '\\');
    assert Join([domain, user], '\\') == domain + "\\" + user;
  }

  /** No piece of a split holds a character the string does not. */
  lemma {:induction false} SplitKeepsOut(s: string, sep: char, c: char)
    requires c !in s
    ensures forall i | 0 <= i < |Split(s, sep)| :: c !in Split(s, sep)[i]
  {
    if s != [] {
      assert c !in s[1..] && c != s[0];
      SplitKeepsOut(s[1..], sep, c);
    }
  }

  /** The `DC=` component for each dot-separated part of the domain. */
  function DomainComponents(domain: string): (r: seq<string>)
    ensures |r| == |Split(domain, '.')|
    ensures forall i | 0 <= i < |r| :: r[i] == "DC=" + Split(domain, '.')[i]
  {
    var parts := Split(domain, '.');
    seq(|parts|, i requires 0 <= i < |parts| => "DC=" + parts[i])
  }

  /** `dc_string`: the components joined by commas. */
  function DcString(domain: string): string {
    Join(DomainComponents(domain), ',')
  }

  /** The distinguished name of a new group in the `Users` container. */
  function GroupDn(name: string, domain: string): string {
    "CN=" + name + ",CN=Users," + DcString(domain)
  }

  /** A component without its `DC=`. */
  function StripDc(c: string): string {
    if StartsWith(c, "DC=") then c[3..] else c
  }

  /** The domain read back from a `dc_string`: each comma-separated
      component without its `DC=`, joined by dots. */
  function DomainOf(dc: string): string {
    var comps := Split(dc, ',');
    Join(seq(|comps|, i requires 0 <= i < |comps| => StripDc(comps[i])), '.')
  }

  /** A domain without commas comes back from its `dc_string`. */
  lemma DcStringRoundTrip(domain: string)
    requires ',' !in domain
    ensures Split(DcString(domain), ',') == DomainComponents(domain)
    ensures DomainOf(DcString(domain)) == domain
  {
    var parts := Split(domain, '.');
    var comps := DomainComponents(domain);
    SplitKeepsOut(domain, '.', ',');
    forall i | 0 <= i < |comps| ensures ',' !in comps[i] {
      assert comps[i] == "DC=" + parts[i];
    }
    SplitJoin(comps, ',');
    forall i | 0 <= i < |comps| ensures StripDc(comps[i]) == parts[i] {
      assert comps[i] == "DC=" + parts[i];
      assert comps[i][..3] == "DC=";
    }
    assert seq(|comps|, i requires 0 <= i < |comps| => StripDc(comps[i])) == parts;
    JoinSplit(domain, '.');
  }

  lemma SplitTwoHeads(a: string, b: string, rest: string, sep: char)
    requires sep !in a && sep !in b
    ensures Split(a + [sep] + b + [sep] + rest, sep) == [a, b] + Split(rest, sep)
  {
    AppendAssoc(a + [sep] + b, [sep], rest);
    AppendAssoc(a + [sep], b, [sep] + rest);
    AppendAssoc(a, [sep], b + ([sep] + rest));
    SplitAtSep(b, sep, rest);
    SplitAtSep(a, sep, b + [sep] + rest);
    assert b + ([sep] + rest) == b + [sep] + rest;
  }

  /** A group's distinguished name splits into its own component, the
      container and the domain components. */
  lemma GroupDnSplits(name: string, domain: string)
    requires ',' !in name && ',' !in domain
    ensures Split(GroupDn(name, domain), ',') == ["CN=" + name, "CN=Users"] + DomainComponents(domain)
  {
    DcStringRoundTrip(domain);
    var dc := DcString(domain);
    var a := "CN=" + name;
    assert GroupDn(name, domain) == a + [','] + "CN=Users" + [','] + dc;
    SplitTwoHeads(a, "CN=Users", dc, ',');
  }

  /** With the seeded defaults the domain setting exists and is empty, so
      the `corp.local` fallback does not apply and the `dc_string` is `DC=`. */
  lemma SeededDomain()
    ensures Get(LoadSettings(Settings.Defaults()), "ad_domain", "corp.local") == ""
    ensures DcString("") == "DC="
  {
    Settings.DefaultsDistinct();
    var d := Settings.Defaults();
    LoadSettingsSpec(d, "ad_domain");
    assert d[1].key == "ad_domain";
    assert Split("", '.') == [""];
  }

  /** `ADService`: the settings map is read from the table when the service
      is created; the directory itself is reached only outside mock mode,
      and its answers are given to the methods as inputs. */
  class ADService {
    var settings: map<string, string>

    constructor (rows: seq<SettingRow>)
      ensures settings == LoadSettings(rows)
    {
      settings := LoadSettings(rows);
    }

    /** Mock mode: the `mock_mode` setting, `"true"` when absent, equals
        `"true"` ignoring case. */
    predicate IsMock()
      reads this
    {
      Lower(Get(settings, "mock_mode", "true")) == "true"
    }

    /** The domain setting, `corp.local` when absent. */
    function Domain(): string
      reads this
    {
      Get(settings, "ad_domain", "corp.local")
    }

    /** The account the connection binds as: none when no user is set (the
        source fails there), otherwise the user qualified by the domain,
        `corp.local` when absent. */
    function ConnectionUser(): (r: Option<string>)
      reads this
      ensures r.Some? <==> "ad_user" in settings
      ensures r.Some? ==> '\\' in r.value
      ensures r.Some? ==> r.value == FullUser(Get(settings, "ad_domain", "corp.local"), settings["ad_user"])
    {
      if "ad_user" !in settings then None
      else Some(FullUser(Domain(), settings["ad_user"]))
    }

    /** The distinguished name `create_group` gives a new group, built from
        the domain setting: its own component, the `Users` container, then
        one component per part of the domain, `DC=corp,DC=local` when the
        setting is absent. */
    function NewGroupDn(name: string): (r: string)
      reads this
      ensures ',' !in name && ',' !in Get(settings, "ad_domain", "corp.local") ==>
        Split(r, ',') == ["CN=" + name, "CN=Users"] + DomainComponents(Get(settings, "ad_domain", "corp.local"))
      ensures ',' !in name && "ad_domain" !in settings ==>
        Split(r, ',') == ["CN=" + name, "CN=Users", "DC=corp", "DC=local"]
    {
      var domain := Domain();
      assert ',' !in name && ',' !in domain ==>
        Split(GroupDn(name, domain), ',') == ["CN=" + name, "CN=Users"] + DomainComponents(domain) by {
        if ',' !in name && ',' !in domain {
          GroupDnSplits(name, domain);
        }
      }
      CorpLocalComponents();
      GroupDn(name, domain)
    }

    /** `create_group`: succeeds in mock mode. Otherwise it fails without a
        configured user, and else reports what the directory answers to
        adding the group under `NewGroupDn` with its account name and its
        description, `Created by PermitFlow` when that is empty. */
    method CreateGroup(name: string, description: string, directory: (string, string, string) -> bool)
      returns (ok: bool)
      ensures IsMock() ==> ok
      ensures !IsMock() && ConnectionUser().None? ==> !ok
      ensures !IsMock() && ConnectionUser().Some? ==>
        ok == directory(NewGroupDn(name), name, if description != "" then description else "Created by PermitFlow")
    {
      if IsMock() {
        return true;
      }
      var account := ConnectionUser();
      if account.None? {
        return false;
      }
      var dn := GroupDn(name, Domain());
      var desc := if description != "" then description else "Created by PermitFlow";
      ok := directory(dn, name, desc);
    }

    /** `add_member`: succeeds in mock mode. Otherwise it fails without a
        configured user, and else reports what the directory answered. */
    method AddMember(groupName: string, username: string, directoryAnswer: bool) returns (ok: bool)
      ensures IsMock() ==> ok
      ensures !IsMock() && ConnectionUser().None? ==> !ok
      ensures !IsMock() && ConnectionUser().Some? ==> ok == directoryAnswer
    {
      if IsMock() {
        return true;
      }
      var account := ConnectionUser();
      if account.None? {
        return false;
      }
      ok := directoryAnswer;
    }

    /** `check_user_exists`: in mock mode every user but `invalid`, in any
        case, exists. Otherwise no user exists without a configured
        account, and else the directory's answer decides. */
    method CheckUserExists(username: string, directoryAnswer: bool) returns (exists_: bool)
      ensures IsMock() ==> (exists_ <==> Lower(username) != "invalid")
      ensures !IsMock() && ConnectionUser().None? ==> !exists_
      ensures !IsMock() && ConnectionUser().Some? ==> exists_ == directoryAnswer
    {
      if IsMock() {
        return Lower(username) != "invalid";
      }
      var account := ConnectionUser();
      if account.None? {
        return false;
      }
      exists_ := directoryAnswer;
    }
  }

  /** A two-part domain has one component per part. */
  lemma TwoComponents(a: string, b: string)
    requires '.' !in a && '.' !in b
    ensures DomainComponents(a + "." + b) == ["DC=" + a, "DC=" + b]
  {
    SplitAtSep(a, '.', b);
    SplitNoSep(b, '.');
    var r := DomainComponents(a + "." + b);
    assert |r| == 2 && r[0] == "DC=" + a && r[1] == "DC=" + b;
  }

  /** The default domain has the components `DC=corp` and `DC=local`. */
  lemma CorpLocalComponents()
    ensures DomainComponents("corp.local") == ["DC=corp", "DC=local"]
  {
    var corp, local := "corp", "local";
    assert '.' !in corp && '.' !in local;
    TwoComponents(corp, local);
    assert corp + "." + local == "corp.local";
    assert "DC=" + corp == "DC=corp" && "DC=" + local == "DC=local";
  }

  /** A service over a freshly seeded table is in mock mode, and a missing
      switch means mock mode too. */
  lemma MockByDefault(rows: seq<SettingRow>)
    ensures "mock_mode" !in LoadSettings(rows) ==> Lower(Get(LoadSettings(rows), "mock_mode", "true")) == "true"
    ensures Lower(Get(LoadSettings(Settings.Defaults()), "mock_mode", "true")) == "true"
  {
    Settings.DefaultsDistinct();
    var d := Settings.Defaults();
    LoadSettingsSpec(d, "mock_mode");
    assert d[4].key == "mock_mode";
  }
}
