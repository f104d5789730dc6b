# PermitFlow provisioning core in Dafny

PermitFlow provisions Windows file-share folders and the Active Directory
groups that guard them. An operator types an indented outline in the smart
input: server lines in brackets, folder lines below them. The editor parses
the outline into a tree, derives two access groups per folder, lets the
operator delete or rename groups in the tree view, and writes tree edits back
as text. Provisioning first asks the backend to validate the tree: connected
agents report folders that already exist. Only then does it ask the backend
to execute the tree. Execution records every folder and group, sends each
folder's creation command to its server's agent, and creates the groups in
the directory.

This project models that pipeline and proves what it promises:

- **Frontend editor.** The indent parser and its stack, group naming, the
  serializer and its round trip, the group editor's search, and the
  validate-then-execute state machine.
- **Backend routers.** Path and server-context derivation in validation and
  execution, with the agents as an oracle.
- **Small backend cores.** Settings seeding and upsert, history ordering and
  rollback, inventory search, and the directory service's string helpers and
  mock mode.

Modules, one per file:

| file | module | what it holds |
|---|---|---|
| seqs.dfy | Seqs | generic sequence algebra |
| opt.dfy | Opt | `Option` |
| text.dfy | Text | JavaScript whitespace, `trim`, whitespace collapsing, `split`/`join`, indentation, lower case, decimal digits |
| forest.dfy | Forest | editor nodes, pre-order, sizes, parent positions |
| parser.dfy | Parser | line classification, the recursive reference parse `Parsed`, and the stack parser `Parse` proved equal to it |
| parse_facts.dfy | ParseFacts | what the parsed forest holds: one node per non-blank line, server scoping, nesting |
| serializer.dfy | Serializer | `generateTextFromTree` as `Render` and the method `GenerateText` |
| round_trip.dfy | RoundTrip | parse and render are inverse up to ids and generated groups |
| tree_edit.dfy | TreeEdit | the `updateNode` search for group delete and rename |
| smart_input.dfy | Editor | the `SmartInput` component as a class |
| records.dfy | Records | database row shapes |
| settings.dfy | Settings | the settings table |
| history.dfy | History | the action log |
| inventory.dfy | Inventory | inventory search |
| ad_service.dfy | Directory | the directory service |
| execution.dfy | Execution | validation and execution walks |
| exec_facts.dfy | ExecutionFacts | theorems about the two walks |

## Model

| member | source | states |
|---|---|---|
| Text.LeadingSpaces | frontend/src/components/SmartInput.jsx:21 | The depth of a line is its count of leading whitespace. Every character before it is whitespace and the next is not. It equals the length exactly when the line is blank. |
| Text.Trim | frontend/src/components/SmartInput.jsx:19-22 | The trimmed line is empty exactly when the line is blank. Otherwise it is the slice after the leading whitespace, starts and ends with non-whitespace, and only whitespace follows it. |
| Text.CollapseSpaces | frontend/src/components/SmartInput.jsx:36 | Replacing whitespace runs by `_` leaves no whitespace. A name without whitespace is unchanged, a non-empty name stays non-empty, and its first non-space character is kept. |
| Text.CollapseStep | frontend/src/components/SmartInput.jsx:36 | A whitespace-free word, a maximal whitespace run and the rest become the word kept as it is, one `_`, and the rest collapsed: each run becomes one underscore and every other character is kept in order. |
| Text.Split | frontend/src/components/SmartInput.jsx:13 | Splitting gives at least one piece and no piece holds the separator. |
| Text.JoinSplit | frontend/src/components/SmartInput.jsx:13 | Joining the pieces of a split gives back the string. |
| Text.SplitJoin | backend/services/ad_service.py:44-45 | Splitting separator-free pieces joined by the separator gives back the pieces. |
| Text.Indent | frontend/src/components/SmartInput.jsx:71 | The indentation of a depth is exactly twice that many spaces. |
| Text.PaddedLine | frontend/src/components/SmartInput.jsx:19-22 | A blank pad before a trimmed name gives a non-blank line whose depth is the pad's length and whose trim is the name. |
| Text.Lower | backend/services/ad_service.py:15 | Lower-casing keeps the length and leaves no capital letter. Each capital becomes the small letter at the same place in the alphabet, and every other character is kept. |
| Text.LowerIdempotent | backend/services/ad_service.py:15 | Lower-casing twice equals lower-casing once. |
| Text.NatToString | backend/routers/execution.py:121 | A count prints as a non-empty run of decimal digits, without a leading zero, that denotes the count. |
| Parser.IdRun | frontend/src/components/SmartInput.jsx:29 | The longest prefix of characters other than `\|`, `]` and whitespace. |
| Parser.ServerIdOf | frontend/src/components/SmartInput.jsx:27-32 | A name yields a server id exactly when it starts with `[` and an id character follows the blank padding after it. The id is the whole run of id characters there: non-empty, and only id characters. |
| Parser.ClassifyLine | frontend/src/components/SmartInput.jsx:18-50 | A line is skipped exactly when it is blank. A kept line gets the id of its line index. The server in force changes only on a server line. The groups follow the naming rule: none for a server, `S_<srv>_<name>_R` and `_W` for a folder. |
| Parser.SafeNameWellFormed | frontend/src/components/SmartInput.jsx:22-36 | The name of a non-blank line is well formed. A server name is trimmed and starts with `[`. A folder name is non-empty, holds no whitespace, and does not start with `[`. |
| Parser.ClassifyWellFormed | frontend/src/components/SmartInput.jsx:18-47 | Every node a line classifies to has a well-formed name for its kind. |
| Parser.SubtreeLenSpec | frontend/src/components/SmartInput.jsx:53-61 | The subtree of a line is the maximal run of deeper lines after it. |
| Parser.BuildConcat | frontend/src/components/SmartInput.jsx:53-61 | Lines that start no deeper than everything before them begin new roots. |
| Parser.PreorderBuild | frontend/src/components/SmartInput.jsx:53-61 | The reference forest holds the kept lines as its nodes, in document order. |
| Parser.CloseAllBuild | frontend/src/components/SmartInput.jsx:53-61 | Under the stack invariant, the frames folded into their parents give the reference forest. The invariant is that depths strictly increase above the sentinel at -1 and each frame holds the forest of its lines so far. |
| Parser.OpenNode | frontend/src/components/SmartInput.jsx:53-61 | Popping every frame at least as deep as the line and pushing the line's node keeps the stack invariant. |
| Parser.Parse | frontend/src/components/SmartInput.jsx:12-65 | The parse effect's stack loop yields exactly the reference forest of the text. |
| ParseFacts.EntriesFromLines | frontend/src/components/SmartInput.jsx:18-19 | Every non-blank line, and only those, gives one node entry, in line order. |
| ParseFacts.ServerInForce | frontend/src/components/SmartInput.jsx:16 | The server id in force is captured from the last line that sets one, whatever its depth. With no such line it is the start value (`SERVER` for the editor). |
| ParseFacts.PreorderParsed | frontend/src/components/SmartInput.jsx:12-65 | The k-th node of the parsed forest in document order is the k-th kept line's node. |
| ParseFacts.ParsedNodes | frontend/src/components/SmartInput.jsx:18-61 | The forest has one node per non-blank line, in line order, with pairwise distinct ids, and every non-blank line has its node. |
| ParseFacts.ParsedNode | frontend/src/components/SmartInput.jsx:21-50 | Each node's depth is its line's leading whitespace. Its name, kind and groups are what its line classifies to under the server in force after the lines above it. |
| ParseFacts.NearestIsNearest | frontend/src/components/SmartInput.jsx:53-55 | The computed nearest shallower line is earlier, strictly shallower, and nothing between is shallower. |
| ParseFacts.NearestUnique | frontend/src/components/SmartInput.jsx:53-55 | Only one line has the nearest-shallower property. |
| ParseFacts.ParsedParents | frontend/src/components/SmartInput.jsx:53-61 | Each node's parent is the node of the nearest earlier kept line with strictly less depth. A line with none is a root. |
| ParseFacts.SameDepthSiblings | frontend/src/components/SmartInput.jsx:53-61 | Two lines of equal depth with nothing shallower between them are siblings. |
| Serializer.RenderLines | frontend/src/components/SmartInput.jsx:68-78 | The text has one line per node of the forest. |
| Serializer.RenderIsLines | frontend/src/components/SmartInput.jsx:68-78 | The text is each node's line followed by a newline, in pre-order. |
| Serializer.SplitTerminated | frontend/src/components/SmartInput.jsx:13 | Splitting newline-terminated lines at newlines gives the lines and one empty tail. |
| Serializer.RenderAppend | frontend/src/components/SmartInput.jsx:70-76 | The text of consecutive siblings is the concatenation of their texts. |
| Serializer.GenerateText | frontend/src/components/SmartInput.jsx:68-78 | The accumulating loop builds exactly the rendered text. |
| RoundTrip.ClassifyRendered | frontend/src/components/SmartInput.jsx:18-50 | A rendered line of a well-formed node classifies back to that node at twice its depth, with its groups regenerated. |
| RoundTrip.ClassifyConventional | frontend/src/components/SmartInput.jsx:25-36 | Every kept line's server update follows from its name alone, and its name is well formed. |
| RoundTrip.RenderParse | frontend/src/components/SmartInput.jsx:12-78 | Parsing the text of a well-formed forest gives back its names, kinds and nesting. The groups are regenerated by document-order server scoping. Ids are ignored. |
| RoundTrip.ParsedConventional | frontend/src/components/SmartInput.jsx:12-65 | A parsed forest is well formed, and its groups are the ones scoping regenerates. |
| RoundTrip.ParseRenderParse | frontend/src/components/SmartInput.jsx:12-84 | Writing a parsed forest back as text and parsing again gives the same forest up to ids. |
| RoundTrip.RenderParseRender | frontend/src/components/SmartInput.jsx:12-84 | Writing back, parsing and writing back gives the same text. |
| RoundTrip.RenderUnlabel | frontend/src/components/SmartInput.jsx:68-78 | The text does not depend on ids. |
| RoundTrip.RenderRegroup | frontend/src/components/SmartInput.jsx:68-78 | The text does not depend on groups. |
| TreeEdit.Spliced | frontend/src/components/SmartInput.jsx:95 | `splice(idx, 1)` removes exactly the entry at a valid index and shifts later ones left. A past-the-end index changes nothing. |
| TreeEdit.EditFirst | frontend/src/components/SmartInput.jsx:91-104 | The search keeps the number of roots, and leaves the forest unchanged when it finds no target. |
| TreeEdit.FirstTargetSpec | frontend/src/components/SmartInput.jsx:92-98 | The first target in document order exists exactly when some node is a target, and no earlier node is one. |
| TreeEdit.EditFlatAt | frontend/src/components/SmartInput.jsx:117-124 | In document order only the first target changes, and it is edited. Every other node is unchanged. |
| TreeEdit.EditFirstPreorder | frontend/src/components/SmartInput.jsx:91-104 | The recursive search stops exactly when some node in document order is a target. The forest it leaves is the document-order sequence with only the first target edited. |
| TreeEdit.EditKeepsShape | frontend/src/components/SmartInput.jsx:86-134 | A group edit keeps every id, name, kind and nesting. |
| TreeEdit.UpdateNode | frontend/src/components/SmartInput.jsx:91-104 | The early-return loop computes the search's result and whether it stopped. |
| Editor.ParsedEmpty | frontend/src/components/SmartInput.jsx:13-19 | Empty text parses to the empty tree. |
| Editor.RenderShape | frontend/src/components/SmartInput.jsx:68-78 | The text of a tree depends only on its names and nesting. |
| Editor.ProvisionOutcome | frontend/src/components/SmartInput.jsx:136-178 | Nothing happens exactly for an empty tree. Validation conflicts block exactly when the reply is `success` with a non-empty list. Provisioning succeeds exactly when execution replies `success`, with its id. Other failures carry the error text or `Unknown error`. |
| Editor.ProvisionRequests | frontend/src/components/SmartInput.jsx:137-163 | No request goes out for an empty tree. Validation goes first. Execution is requested exactly when validation replied without conflicts. |
| Editor.SmartInput.constructor | frontend/src/components/SmartInput.jsx:6-8 | The text and the tree start empty and the editor idle. |
| Editor.SmartInput.TreeShowsText | frontend/src/components/SmartInput.jsx:12-78 | The tree, group edits included, renders as the text's parse does. |
| Editor.SmartInput.EditText | frontend/src/components/SmartInput.jsx:6-65 | A new text replaces the tree by its parse. An unchanged text leaves the tree alone. |
| Editor.SmartInput.TreeUpdate | frontend/src/components/SmartInput.jsx:80-84 | A tree edit writes the rendered text, and the tree follows it through the parse effect. |
| Editor.SmartInput.GroupDelete | frontend/src/components/SmartInput.jsx:86-108 | Deletes the group from the first matching node. The text and the tree's shape do not change. |
| Editor.SmartInput.GroupRename | frontend/src/components/SmartInput.jsx:110-134 | A blank name changes nothing. Otherwise the trimmed name replaces the group at an existing index of the first matching node. |
| Editor.SmartInput.Provision | frontend/src/components/SmartInput.jsx:136-178 | The click ends as the provisioning outcome and sends its requests. Success clears the tree and the text, and every other ending keeps both. The editor is idle afterwards unless nothing was submitted. |
| Settings.Find | backend/routers/settings.py:43 | The lookup finds the first row with the key, or no row has it. |
| Settings.DefaultsDistinct | backend/routers/settings.py:21-29 | There are six default rows, with distinct keys. |
| Settings.DefaultsMock | backend/routers/settings.py:27 | The seeded `mock_mode` row has value `true`. |
| Settings.UpsertLookup | backend/routers/settings.py:42-54 | After an upsert, the key has the new value. Its description is replaced only by a non-empty one, and a missing key gets a new row. Every other key reads as before. |
| Settings.UpsertUnique | backend/routers/settings.py:42-54 | An upsert keeps keys unique. |
| Settings.UpsertIdempotent | backend/routers/settings.py:42-54 | The same update applied twice equals it applied once. |
| Settings.SettingsTable.GetSettings | backend/routers/settings.py:18-38 | An empty table gets the six defaults inserted by the loop, and they are returned. A non-empty table is returned unchanged. |
| Settings.SettingsTable.UpdateSetting | backend/routers/settings.py:42-54 | The table becomes the upsert of the old one, and the returned row is what the key now reads. |
| History.ByNewestSpec | backend/routers/history.py:17-19 | The history is ordered newest first and holds exactly the logged actions. |
| History.FindAction | backend/routers/history.py:25 | The lookup finds an action with the id, or none has it; a negative id is never found. |
| History.RollbackEffect | backend/routers/history.py:23-30 | Rollback marks the action with the id `rolled_back`, whatever its status, and leaves every other action unchanged. |
| History.RollbackIdempotent | backend/routers/history.py:23-30 | Rolling back twice equals rolling back once. |
| History.ActionTable.GetHistory | backend/routers/history.py:17-19 | Returns the actions newest first, as a permutation of the log. |
| History.ActionTable.Rollback | backend/routers/history.py:23-30 | Takes any integer id and updates the log in place. Replies `rolled_back` with the id when it exists, otherwise `Action not found`. |
| Inventory.LastOfSplit | backend/routers/inventory.py:32 | The last piece of a split is the longest separator-free suffix. |
| Inventory.FolderNameSpec | backend/routers/inventory.py:27-35 | A folder result's name is the path's last backslash segment, or the whole path without a backslash. Its groups are exactly `ACL_<name>_R` and `ACL_<name>_RW`. |
| Inventory.FoldersMatchingSpec | backend/routers/inventory.py:20 | The folders returned are exactly those whose path contains the query. |
| Inventory.GroupsMatchingSpec | backend/routers/inventory.py:21 | The groups returned are exactly those whose name contains the query. |
| Inventory.SearchResults | backend/routers/inventory.py:15-46 | An empty query gives nothing. Otherwise the i-th result is the i-th matching folder's result, and after the folders the i-th group result is the i-th matching group's, so each block keeps the query's order. |
| Inventory.SearchFinds | backend/routers/inventory.py:20-44 | Every folder whose path and every group whose name contains the query is listed, and every hit comes from such a row. |
| Inventory.SearchInventory | backend/routers/inventory.py:15-46 | The two append loops build exactly the search results. |
| Directory.LoadSettingsSpec | backend/services/ad_service.py:10-12 | The settings map holds exactly the keys of the rows, each with the value of the last row carrying it. |
| Directory.LoadAgreesWithTable | backend/services/ad_service.py:10-12 | Over a table with unique keys, the map agrees with the table's lookup. |
| Directory.FullUser | backend/services/ad_service.py:27 | The bind account always names a domain, and a user that already names one is kept. |
| Directory.FullUserSplits | backend/services/ad_service.py:27 | A plain domain and user are recovered by splitting the account at its backslash. |
| Directory.DcStringRoundTrip | backend/services/ad_service.py:44-45 | A comma-free domain is recovered from its `dc_string`. |
| Directory.GroupDnSplits | backend/services/ad_service.py:49 | A group DN splits into `CN=<name>`, `CN=Users` and the domain components. |
| Directory.SeededDomain | backend/services/ad_service.py:44 | Over the seeded defaults the domain setting is present and empty, so `dc_string` is `DC=` and the `corp.local` fallback is not used. |
| Directory.MockByDefault | backend/services/ad_service.py:14-15 | A missing switch means mock mode, and so do the seeded defaults. |
| Directory.ADService.constructor | backend/services/ad_service.py:6-8 | The service reads its settings map from the table once. |
| Directory.ADService.ConnectionUser | backend/services/ad_service.py:21-27 | There is an account exactly when a user is configured. It is the user qualified by the `ad_domain` setting, `corp.local` when absent, and it names a domain. |
| Directory.ADService.NewGroupDn | backend/services/ad_service.py:44-49 | A new group's DN splits into `CN=<name>`, `CN=Users` and one `DC=` component per part of the `ad_domain` setting; without that setting the components are `DC=corp` and `DC=local`. |
| Directory.CorpLocalComponents | backend/services/ad_service.py:44-45 | The default domain `corp.local` gives the components `DC=corp` and `DC=local`. |
| Directory.ADService.CreateGroup | backend/services/ad_service.py:36-67 | Succeeds in mock mode. Otherwise fails without a configured user, and else reports what the directory answers to adding the group under its DN, with its name and its description or `Created by PermitFlow`. |
| Directory.ADService.AddMember | backend/services/ad_service.py:69-100 | Succeeds in mock mode. Otherwise fails without a configured user, and else reports the directory's answer. |
| Directory.ADService.CheckUserExists | backend/services/ad_service.py:101-128 | In mock mode a user exists exactly when the lower-cased name is not `invalid`. Otherwise no user exists without a configured account, and else the directory's answer decides. |
| Execution.ConflictOf | backend/routers/execution.py:65-87 | A check reports at most one conflict. It reports one exactly when its agent is connected and either times out or answers `success` with `exists`. The timeout gives `Timeout checking <path> on <agent>`, the existing folder `Folder already exists on <agent>: <path>`. |
| Execution.NoConflictsIff | backend/routers/execution.py:73-87 | A list of checks reports no conflict exactly when none of them is conflicting. |
| Execution.CheckNode | backend/routers/execution.py:33-102 | The recursive walk appends the conflicts of the node's checks, in pre-order, to the list it was given. |
| Execution.ValidateStructure | backend/routers/execution.py:21-107 | Validation replies `success` with the conflicts of every check in the tree, in traversal order. |
| Execution.OfflineNoConflicts | backend/routers/execution.py:73-87 | With no check's agent connected, there is no conflict. |
| Execution.GroupEffects | backend/routers/execution.py:165-169 | Each group gives exactly two effects. |
| Execution.ProcessNode | backend/routers/execution.py:133-173 | The recursive walk appends the node's effects in pre-order. For a folder: its record, its command, then its groups' creation and records. |
| Execution.ClashesIff | backend/models.py:42 | Inserting group records clashes with the unique name column exactly when a name is already stored or two records share a name. |
| Execution.ExecuteStructure | backend/routers/execution.py:109-188 | Success performs every effect, keeps the records, and marks the action `success` with its id. A failure storing the action leaves nothing. A later failure keeps the effects before it, rolls the records back, and marks the stored action `failed`. Without another fault, the final commit fails exactly when the group records clash with the stored names, after every effect has taken place. Kept records never clash. |
| ExecutionFacts.CheckedAreCreated | backend/routers/execution.py:41-50 | For trees of servers and folders, validation checks exactly the folders execution records, in the same order, on the same servers. |
| ExecutionFacts.OtherKindsDiverge | backend/routers/execution.py:101 | A folder below a node of another type is checked at a path other than the one it is created at. |
| ExecutionFacts.ChecksFollowAncestors | backend/routers/execution.py:33-41 | Below given ancestors, each folder is checked on its nearest server ancestor, at the path of its folder ancestors below it. |
| ExecutionFacts.PlacedByAncestors | backend/routers/execution.py:131-140 | Each folder is checked and created on the server of its nearest server ancestor, or `SERVER01`. Its path is the backslash-joined names of its folder ancestors below that server, then its own. |
| ExecutionFacts.GroupsCreated | backend/routers/execution.py:165-173 | Every group of every node is created in the directory once, with one record of type `RW`, in pre-order and list order. |
| ExecutionFacts.CommitClashIff | backend/routers/execution.py:165-178 | The final commit breaks group-name uniqueness exactly when a group of the tree is already stored or the tree names one group twice, as two folders of the same name under one server do. |
| ExecutionFacts.OneCommandPerFolder | backend/routers/execution.py:142-163 | Every recorded folder gets exactly one creation command, in order. It goes to its server's agent when connected and is broadcast otherwise. |

## Left out

- Parser.ClassifyLine: a node id is a clock reading and the line index. The source reads the clock once per line; the model uses one reading for the whole parse. The random suffix is left out because the line index already keeps ids unique within one parse.
- Text.Trim: JavaScript's `\s` and `trim` are modelled by a fixed character set: ASCII whitespace, U+00A0, U+1680, U+2000-U+200A, U+2028, U+2029, U+202F, U+205F, U+3000 and U+FEFF. Unicode normalisation is not modelled.
- Text.Lower: Python's `lower()` is modelled for ASCII letters only.
- Inventory.FoldersMatchingSpec: SQL `LIKE` behind `contains` is modelled as a plain, case-sensitive substring test. SQLite's ASCII case folding and the `%`/`_` wildcards inside the query are not modelled.
- Inventory.GroupsMatchingSpec: the same substring approximation of `LIKE`.
- TreeEdit.Spliced: the group index is a natural number, so `splice` with a negative index (removal from the end) is not modelled. The tree view never passes one.
- Editor.SmartInput.Provision: the two endpoint replies are inputs. `fetch`, toasts and `alert` are left out, and a failed request or unreadable reply is an error reply. The click is atomic in the model: the source awaits two requests while the text stays editable, and a success then clears whatever was typed in the meantime.
- Editor.SmartInput.EditText: React's re-render and effect scheduling are modelled as the effect running right after `setText`. The deep clone by JSON makes tree values plain values, so no aliasing is modelled.
- History.ActionTable.GetHistory: the order among actions with equal timestamps is not fixed by the database and is not fixed by the model.
- Execution.ExecuteStructure: an exception is modelled as the position of the failing effect. The one exception derived from the data is the unique group name at the final commit; its message is shortened to SQLite's constraint text, without the SQL statement SQLAlchemy adds. Uniqueness of other columns is not modelled: only group names are unique among the records written. The error text `action.details` is not stored, because the action log has no such column. The commit and rollback are modelled as keeping or dropping the records.
- Execution.ValidateStructure: agents are an oracle. The set of connected agents and each probe's answer (a reply with status and `exists`, or a timeout) are inputs, and websocket futures, request ids and the two-second wait are left out.
- Directory.ADService.ConnectionUser: the LDAP connection itself is left out. A missing user, which makes the source fail, is modelled as no account.
- Directory.ADService.CreateGroup: outside mock mode the directory's answer to the add request is an input. The ldap3 calls and a failing bind are folded into that answer.
- Directory.ADService.AddMember: outside mock mode the directory's answer is an input. The searches for the group and user DNs are folded into it.
- Directory.ADService.CheckUserExists: outside mock mode the source returns a dictionary with `exists`, `cn`, `displayName`, `mail` and, on an exception, `error`, and the check-user endpoint passes it through. The model returns only the `exists` flag.
- The agent process, the websocket manager, the health checks and the UI components other than the smart input are not part of this model.
