/** The inventory search: the folders whose path and the groups whose name
    contain the query, shaped into result records, folders first. */
module Inventory {
  import opened Text
  import opened Records

  datatype SearchResult =
    | FolderHit(id: nat, name: string, path: string, server: string, groups: seq<string>)
    | GroupHit(id: nat, name: string, description: string)

  /** `path.split('\\')[-1]`. */
  function LastSegment(path: string): string {
    var parts := Split(path, '\\');
    parts[|parts| - 1]
  }

  /** The last piece of a split is the longest suffix free of separators:
      either the whole string, or what follows its last separator. */
  lemma {:induction false} LastOfSplit(s: string, sep: char)
    ensures var parts := Split(s, sep); var r := parts[|parts| - 1];
      && sep !in r
      && |r| <= |s| && s[|s| - |r|..] == r
      && (|r| < |s| ==> s[|s| - |r| - 1] == sep)
  {
    var parts := Split(s, sep);
    var r := parts[|parts| - 1];
    if s != [] {
      var rest := Split(s[1..], sep);
      LastOfSplit(s[1..], sep);
      var last := rest[|rest| - 1];
      assert s[1..][|s[1..]| - |last|..] == s[|s| - |last|..];
      if s[0] == sep {
        assert r == last;
      } else if |rest| > 1 {
        assert r == last;
        if |last| == |s| - 1 {
          assert last == s[1..];
          SplitNoSep(s[1..], sep);
          assert false;
        }
      } else {
        JoinSplit(s[1..], sep);
        assert r == [s[0]] + s[1..] == s;
      }
    }
  }

  /** The result's `name`: the last segment when the path has a backslash,
      else the whole path. */
  function FolderName(path: string): string {
    if '\\' in path then LastSegment(path) else path
  }

  /** The two access groups listed with a folder, named after the last
      segment of its path. */
  function AclGroups(path: string): seq<string> {
    var last := LastSegment(path);
    ["ACL_" + last + "_R", "ACL_" + last + "_RW"]
  }

  /** A folder is listed under the last segment of its path (no backslash in
      it, the path ending in it after a backslash or being all of it), and
      its groups are named after that same segment. */
  lemma FolderNameSpec(path: string)
    ensures FolderName(path) == LastSegment(path)
    ensures var name := FolderName(path);
      && '\\' !in name
      && |name| <= |path| && path[|path| - |name|..] == name
      && (|name| < |path| ==> path[|path| - |name| - 1] == '\\')
      && AclGroups(path) == ["ACL_" + name + "_R", "ACL_" + name + "_RW"]
  {
    LastOfSplit(path, '\\');
    if '\\' !in path {
      SplitNoSep(path, '\\');
    }
  }

  function FolderResult(f: FolderRow): SearchResult {
    FolderHit(f.id, FolderName(f.path), f.path, f.server, AclGroups(f.path))
  }

  function GroupResult(g: GroupRow): SearchResult {
    GroupHit(g.id, g.name, "AD Group (" + g.kind + ")")
  }

  /** `query(Folder).filter(Folder.path.contains(q))`, in table order. */
  function FoldersMatching(folders: seq<FolderRow>, q: string): (r: seq<FolderRow>)
    ensures |r| <= |folders|
  {
    if |folders| == 0 then []
    else (if Contains(folders[0].path, q) then [folders[0]] else []) + FoldersMatching(folders[1..], q)
  }

  /** `query(ADGroup).filter(ADGroup.name.contains(q))`, in table order. */
  function GroupsMatching(groups: seq<GroupRow>, q: string): (r: seq<GroupRow>)
    ensures |r| <= |groups|
  {
    if |groups| == 0 then []
    else (if Contains(groups[0].name, q) then [groups[0]] else []) + GroupsMatching(groups[1..], q)
  }

  /** The folders found are exactly those whose path contains the query. */
  lemma {:induction false} FoldersMatchingSpec(folders: seq<FolderRow>, q: string, f: FolderRow)
    ensures f in FoldersMatching(folders, q) <==> f in folders && Contains(f.path, q)
  {
    if |folders| != 0 {
      FoldersMatchingSpec(folders[1..], q, f);
      assert folders == [folders[0]] + folders[1..];
    }
  }

  /** The groups found are exactly those whose name contains the query. */
  lemma {:induction false} GroupsMatchingSpec(groups: seq<GroupRow>, q: string, g: GroupRow)
    ensures g in GroupsMatching(groups, q) <==> g in groups && Contains(g.name, q)
  {
    if |groups| != 0 {
      GroupsMatchingSpec(groups[1..], q, g);
      assert groups == [groups[0]] + groups[1..];
    }
  }

  /** `search_inventory`: nothing for an empty query; otherwise a result
      for each matching folder, then one for each matching group. */
  function SearchResults(q: string, folders: seq<FolderRow>, groups: seq<GroupRow>): (r: seq<SearchResult>)
    ensures q == "" ==> r == []
    ensures q != "" ==> |r| == |FoldersMatching(folders, q)| + |GroupsMatching(groups, q)|
    ensures q != "" ==> forall i | 0 <= i < |r| ::
      (r[i].FolderHit? <==> i < |FoldersMatching(folders, q)|)
    ensures q != "" ==> var fs := FoldersMatching(folders, q);
      forall i | 0 <= i < |fs| :: r[i] == FolderResult(fs[i])
    ensures q != "" ==> var fs := FoldersMatching(folders, q); var gs := GroupsMatching(groups, q);
      forall i | 0 <= i < |gs| :: r[|fs| + i] == GroupResult(gs[i])
  {
    if q == "" then []
    else
      var fs := FoldersMatching(folders, q);
      var gs := GroupsMatching(groups, q);
      seq(|fs|, i requires 0 <= i < |fs| => FolderResult(fs[i])) +
      seq(|gs|, i requires 0 <= i < |gs| => GroupResult(gs[i]))
  }

  /** Every folder whose path contains the query is listed, and every folder
      hit comes from such a folder; the same holds for groups and names. */
  lemma SearchFinds(q: string, folders: seq<FolderRow>, groups: seq<GroupRow>, f: FolderRow, g: GroupRow)
    requires q != ""
    ensures f in folders && Contains(f.path, q) ==> FolderResult(f) in SearchResults(q, folders, groups)
    ensures g in groups && Contains(g.name, q) ==> GroupResult(g) in SearchResults(q, folders, groups)
    ensures var r := SearchResults(q, folders, groups);
      forall i | 0 <= i < |r| ::
        (r[i].FolderHit? ==> exists f' | f' in folders :: Contains(f'.path, q) && r[i] == FolderResult(f'))
        && (r[i].GroupHit? ==> exists g' | g' in groups :: Contains(g'.name, q) && r[i] == GroupResult(g'))
  {
    var r := SearchResults(q, folders, groups);
    var fs := FoldersMatching(folders, q);
    var gs := GroupsMatching(groups, q);
    FoldersMatchingSpec(folders, q, f);
    GroupsMatchingSpec(groups, q, g);
    if f in fs {
      var k :| 0 <= k < |fs| && fs[k] == f;
      assert r[k] == FolderResult(f);
    }
    if g in gs {
      var k :| 0 <= k < |gs| && gs[k] == g;
      assert r[|fs| + k] == GroupResult(g);
    }
    forall i | 0 <= i < |r|
      ensures r[i].FolderHit? ==> exists f' | f' in folders :: Contains(f'.path, q) && r[i] == FolderResult(f')
      ensures r[i].GroupHit? ==> exists g' | g' in groups :: Contains(g'.name, q) && r[i] == GroupResult(g')
    {
      if i < |fs| {
        FoldersMatchingSpec(folders, q, fs[i]);
      } else {
        GroupsMatchingSpec(groups, q, gs[i - |fs|]);
      }
    }
  }

  /** The search as the handler runs it: the two queries, then one loop
      appending the folder results and one appending the group results. */
  method SearchInventory(q: string, folders: seq<FolderRow>, groups: seq<GroupRow>) returns (results: seq<SearchResult>)
    ensures results == SearchResults(q, folders, groups)
  {
    if q == "" {
      return [];
    }
    var fs := FoldersMatching(folders, q);
    var gs := GroupsMatching(groups, q);
    results := [];
    for i := 0 to |fs|
      invariant results == seq(i, k requires 0 <= k < i => FolderResult(fs[k]))
    {
      results := results + [FolderResult(fs[i])];
    }
    ghost var folderPart := results;
    for i := 0 to |gs|
      invariant results == folderPart + seq(i, k requires 0 <= k < i => GroupResult(gs[k]))
    {
      results := results + [GroupResult(gs[i])];
    }
  }
}
