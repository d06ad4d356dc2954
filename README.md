# Dashboard workspace core, modelled in Dafny

This is a Dafny model of the logic in a personal dashboard/workspace
application. The application keeps a grid of "apps" and "widgets" and a tree
of dashboards, each persisted as a JSON document on disk. The model covers:

- **Grid** (`grid.dfy`): placement of dashboard items on a 6-column grid.
  - Size clamping and rectangle collision.
  - The row-major first-fit search for a free spot. An item whose `dim` is
    undefined makes the collision scan throw a TypeError, which aborts the
    store update it happens in; the model carries that outcome as `None`.
  - The id-keyed updates of the client-side `apps` and `widgets` stores.
- **Apps document** (`storage.dfy`, `backups.dfy`): the server-side apps
  document and its backups.
  - Load with a fallback default, and save with validation before the write.
  - Find, add, update and delete, with document and per-app version counters.
  - The keep-the-ten-newest rotation of backup files, which both stores share.
- **Dashboard tree** (`dashboard_tree.dfy`): the server-side dashboard tree.
  - A map of nodes with parent/children links.
  - Insert, update, delete and lookup, and the breadcrumb walk up the `parentId` chain.
- **Validity rules** (`app_schema.dfy`, `dashboard_schema.dfy`): the schema
  rules every save enforces, as predicates.
- **Client stores:**
  - the kanban board (`kanban.dfy`);
  - the pomodoro timer (`pomodoro.dfy`);
  - the floating-window manager (`windows.dfy`);
  - the dashboard view state and search (`dashboard_view.dfy`).

`common.dfy` holds shared vocabulary:

- `Option`/`Result`;
- string helpers: `trim` over JavaScript's whitespace set, and ASCII
  lower-casing;
- the UTF-16 code-unit order that JavaScript's `sort()` uses on strings;
- a generic `Filter`/`Find`/`FirstIndex` with their lemmas.

How the source's state is represented:

- **Server stores** are classes. The stored document is a `DocFile`:
  `Missing`, `Unparsable` or `Parsed(data)`. The shared backup directory is a
  `BackupDir` object whose listing is a sequence of names.
  - Each operation loads (falling back to the default document and writing it
    when the file is missing, unparsable or fails the schema), transforms the
    document, and saves.
  - A save stamps `lastModified`, checks the schema (`Err("validation
    failed")` otherwise) and writes. When a file exists, a write first backs
    it up.
- **Client stores** that replace whole lists (`widgets.js`, `windows.js`)
  are classes with `seq` fields. Their updaters are pure functions, and each
  method is proved to apply its function.
- **Pure stores** (kanban, pomodoro, view state) are functions on values.
- **Outside inputs are parameters:** fresh ids (`crypto.randomUUID`), clock
  readings (`new Date().toISOString()`, `Date.now()`) and the viewport size.

## Model

| member | source | states |
|---|---|---|
| Grid.ClampSize | src/lib/stores/widgets.js:5-7 | result always in [1,6]; identity on 1..6; below 1 gives 1, above 6 gives 6 |
| Grid.NormalizeDim | src/lib/stores/widgets.js:9-15 | result is valid dimensions; `{1,1}` for apps and for a missing `dim`; for a widget each side on its own: 0 becomes 1, below 1 gives 1, above 6 gives 6, 1..6 is kept |
| Grid.CollideSymmetric | src/lib/stores/widgets.js:17-23 | `collide(a,b) == collide(b,a)` |
| Grid.TouchingEdgesDoNotCollide | src/lib/stores/widgets.js:17-23 | rectangles that only share a vertical edge do not collide, either way round |
| Grid.CollideIffPositiveArea | src/lib/stores/widgets.js:17-23 | for defined sizes, collision holds exactly when the two intervals overlap on both axes |
| Grid.ProbeMeaning | src/lib/stores/widgets.js:34 | `items.some(collide)` stops at the first sized item the candidate overlaps (a hit), throws at an unsized item reached before any hit, and is clear exactly when every item is sized and missed |
| Grid.SizedNeverFaults | src/lib/stores/widgets.js:34 | over items that all have a size the scan never throws |
| Grid.SearchRow | src/lib/stores/widgets.js:27-35 | a spot the inner loop returns lies in row `y` and within `x..6-w` |
| Grid.SearchRowSound | src/lib/stores/widgets.js:27-35 | inner loop: a found spot is in the row, within `0..6-w`, clear, and every earlier `x` of the row is blocked; running out means every `x` in range is blocked; a throw comes from an `x` whose scan throws after blocked ones |
| Grid.SearchFrom | src/lib/stores/widgets.js:26-37 | a spot the outer loop returns lies in the search area, at or below row `y` |
| Grid.SearchFromSound | src/lib/stores/widgets.js:26-37 | outer loop from row `y`: a found spot is in the search area, clear, and every origin before it in row-major order is blocked; running out means every origin from `y` on is blocked; a throw comes from an origin whose scan throws, all earlier ones blocked |
| Grid.FreeSpot | src/lib/stores/widgets.js:25-39 | three outcomes: when some origin is not blocked, the result is in range, free and row-major first; when every origin is blocked, `{0,0}`; `None` (the TypeError) only for an undefined `dim` or when an origin's scan throws with every earlier origin blocked; over sized items it never throws |
| Grid.FindFreeSpot | src/lib/stores/widgets.js:25-39 | the nested loop with early return yields exactly `FreeSpot` |
| Grid.SizedSearchIsFirstFit | src/lib/stores/widgets.js:25-39 | over sized items: never throws; the first free origin in row-major order when one exists, else `{0,0}` |
| Grid.UnsizedItemDefeatsPlacement | src/lib/stores/widgets.js:25-39 | with an unsized item in the list, placement throws or falls back to `{0,0}` with every origin blocked |
| Grid.TooWideFallsBack | src/lib/stores/widgets.js:27-38 | with `dim.w > 6` the inner loop never runs and the result is `{0,0}` |
| Grid.EmptyGridOrigin | src/lib/stores/widgets.js:25-39 | `findFreeSpot([], d)` with `w <= 6` is `{0,0}` |
| Grid.FullFirstRowDropsToNextRow | src/lib/stores/widgets.js:25-39 | a 1×1 search below a full-width first row lands at `{0,1}` |
| Grid.UpdatedWidgets | src/lib/stores/widgets.js:608-621 | length kept; widgets with other ids unchanged; in a matching widget every key the patch carries wins and every key it lacks is kept (kind too); a given `dim` becomes `NormalizeDim` of it (so each side is clamped to 1..6), a missing one leaves `dim` undefined; the id is kept unless the patch carries one |
| Grid.Spread | src/lib/stores/widgets.js:609-617 | the kind is kept; a given `dim` becomes `NormalizeDim` of it, valid, and as given when it already was; no `dim` in the update leaves `dim` undefined |
| Grid.UpdateWithoutDimBreaksPlacement | src/lib/stores/widgets.js:608-621 | after an update without `dim`, no later placement over a list holding that widget lands on a free spot; when it is the first widget, placement over the widgets throws |
| Grid.WithoutId | src/lib/stores/widgets.js:584-586 | exactly the items with other ids remain, in their order and each as often as before; the list is unchanged if the id is absent; an unchanged length means the id was absent |
| Grid.VisibilityToggled | src/lib/stores/widgets.js:627-635 | length kept; only `visible` of matching widgets flips, and every other field stays |
| Grid.ToggleTwiceIsIdentity | src/lib/stores/widgets.js:627-635 | toggling twice gives back the list |
| Grid.Moved | src/lib/stores/widgets.js:653-656 | length kept; only `pos` of matching items becomes the new position |
| Grid.Resized | src/lib/stores/widgets.js:658-667 | length kept; only `dim` of matching widgets changes, to `NormalizeDim` of the request (each side clamped to 1..6), which is the request when that is valid |
| Grid.UpdatersCompose | src/lib/stores/widgets.js:608-667 | a second move overrides the first; move and resize commute; move, resize, toggle and id-less updates keep unique ids unique |
| Grid.WithDuplicate | src/lib/stores/widgets.js:637-651 | absent id: unchanged; present id: the first match is copied with the fresh id, the title plus ` (Kopie)` and the same `dim`, and appended, placed on a free spot when one exists; `None` (the store unchanged) exactly when placing the copy throws, which an unsized original always does; over sized widgets it never throws; fresh ids keep ids unique |
| Grid.CopyOf | src/lib/stores/widgets.js:641-646 | the copy has the fresh id, the given position and the title plus ` (Kopie)`; every other field is the original's |
| Grid.SizesStayDefined | src/lib/stores/widgets.js:584-667 | every updater except an update without `dim` keeps all items sized, so later placements never throw |
| Grid.NewApp | src/lib/stores/widgets.js:567-574 | a new app gets the fresh id, kind app and size 1×1 |
| Grid.NewWidget | src/lib/stores/widgets.js:588-598 | a new widget gets the fresh id and title and is visible; its size is `NormalizeDim` of the draft's (the draft's when valid) or 2×2 by default; type and colour default to `markdown` and `blue` |
| Grid.ItemStores.AddApp | src/lib/stores/widgets.js:567-582 | `placed` exactly when the placement over the combined item list does not throw; then the new app is appended at `FreeSpot`, else the apps are unchanged; widgets unchanged; over sized items it is always placed |
| Grid.ItemStores.AddWidget | src/lib/stores/widgets.js:588-606 | `placed` exactly when the placement over the combined item list does not throw; then the new widget is appended at `FreeSpot`, else the widgets are unchanged; apps unchanged; over sized items it is always placed |
| Grid.ItemStores.DeleteApp | src/lib/stores/widgets.js:584-586 | apps become `WithoutId`; widgets unchanged |
| Grid.ItemStores.UpdateWidget | src/lib/stores/widgets.js:608-621 | widgets become `UpdatedWidgets`; apps unchanged |
| Grid.ItemStores.DeleteWidget | src/lib/stores/widgets.js:623-625 | widgets become `WithoutId`; apps unchanged |
| Grid.ItemStores.ToggleWidgetVisibility | src/lib/stores/widgets.js:627-635 | widgets become `VisibilityToggled`; apps unchanged |
| Grid.ItemStores.DuplicateWidget | src/lib/stores/widgets.js:637-651 | `placed` exactly when `WithDuplicate` does not throw; then widgets become its result, else they are unchanged; apps unchanged |
| Grid.ItemStores.MoveItem | src/lib/stores/widgets.js:653-656 | both stores become `Moved` |
| Grid.ItemStores.ResizeItem | src/lib/stores/widgets.js:658-667 | widgets become `Resized`; apps unchanged |
| AppSchema.EmptyPatchIsValid | src/lib/schemas/app.ts:57-68 | every key of the update schema is optional, so the empty update is valid |
| DashboardSchema.CreateNeverMain | src/lib/schemas/dashboard.ts:41-49 | a valid create request never has type `main` |
| DashboardSchema.ValidityIsFieldWise | src/lib/schemas/dashboard.ts:34-39 | a valid structure exists whose root is absent and whose keys do not match node ids |
| Backups.Stamp | src/lib/server/storage.ts:25 | same length, no `:` or `.`, every other character kept |
| Backups.BackupName | src/lib/server/storage.ts:25-26 | the backup name matches this store's prefix and `.json` |
| Backups.SortAsc | src/lib/server/storage.ts:29-32 | `sort()`: ascending UTF-16 code-unit order and a permutation |
| Common.SupplementaryBeforeHighBmp | src/lib/server/storage.ts:32 | `sort()` compares UTF-16 code units, so a character beyond U+FFFF sorts before U+FFFF |
| Backups.Reverse | src/lib/server/storage.ts:33 | `reverse()`: element `i` is input element `n-1-i` |
| Backups.Newest | src/lib/server/storage.ts:29-33 | the matching names, newest first: sorted descending and a permutation of the filtered listing |
| Backups.Kept | src/lib/server/storage.ts:34 | the kept names are the first `min(10, n)` of the newest-first list |
| Backups.Pruned | src/lib/server/storage.ts:34 | the pruned names are what follows the kept ones in the newest-first list |
| Backups.PruneSelection | src/lib/server/storage.ts:29-37 | only matching names are pruned; exactly `min(10, m)` of the `m` matching names are kept, distinct and matching, and nothing is pruned when `m <= 10`; kept and pruned split the matching names; every pruned name is smaller than every kept one |
| Backups.AtMostTenRemain | src/lib/server/storage.ts:29-37 | after the unlink loop exactly `min(10, m)` matching names remain; other names stay; every removed name is smaller than every remaining matching one |
| Backups.AfterBackup | src/lib/server/storage.ts:24-37 | the directory after a backup is at most one name longer and holds nothing but old names and the copy |
| Backups.BackupDir.Backup | src/lib/server/storage.ts:20-43 | the copy under the stamped name, then the unlink loop, give `AfterBackup`; no duplicates are created |
| Backups.BackupRotation | src/lib/server/storage.ts:20-43 | after one backup into a duplicate-free directory: no duplicates; exactly `min(10, m)` of this store's backups, where `m` counts the old ones plus the copy; other files kept; nothing new but the copy; removed backups older than every remaining one |
| AppsStorage.LoadedData | src/lib/server/storage.ts:65-81 | the loaded document is always valid: the stored one when it parses and passes the schema, else the empty default with version 1 |
| AppsStorage.Stamped | src/lib/server/storage.ts:84-90 | the save succeeds exactly when the document is valid, with the apps and version kept and `lastModified` set |
| AppsStorage.AppById | src/lib/server/storage.ts:99-102 | some exactly when an app has the id; then it is the first such app |
| AppsStorage.WithNewApp | src/lib/server/storage.ts:105-121 | old apps stay as a prefix; the new app follows with the caller's fields, the given id, version 1 and both stamps `now`; document version +1 |
| AppsStorage.Patched | src/lib/server/storage.ts:132-138 | for any `Partial<App>` (widgets, kind, status and createdAt included) every key the update carries wins and every other key is kept; the id is the requested one, `updatedAt` is `now`, the version goes up by one |
| AppsStorage.FromRequest | src/lib/schemas/app.ts:57-68 | a request body that passed the update schema is the `Partial<App>` with its keys and no others |
| AppsStorage.RequestUpdateIsValid | src/lib/schemas/app.ts:57-68 | a body that passes the update schema is an update whose carried keys pass the app schema |
| AppsStorage.WidgetsUpdateReplacesList | src/lib/server/storage.ts:132-138 | the `{widgets: [...]}` update replaces the widget list and otherwise changes only `updatedAt` and `version` |
| AppsStorage.UpdatedData | src/lib/server/storage.ts:124-145 | nothing exactly when no app has the id; else the same number of apps, version +1, and the returned app carries the id and is stored |
| AppsStorage.WithoutApp | src/lib/server/storage.ts:148-160 | nothing only when no app has the id; else version +1 and no app with the id remains |
| AppsStorage.AddAppends | src/lib/server/storage.ts:105-121 | with a fresh id: one app appended last, carrying the caller's fields, with version 1; earlier apps unchanged; document version +1; lookups of other ids unchanged |
| AppsStorage.AddPreservesValidity | src/lib/server/storage.ts:105-121 | a valid document with valid fields stays valid |
| AppsStorage.UpdateReplacesFirstMatch | src/lib/server/storage.ts:124-145 | absent id gives nothing; otherwise the first match is replaced by the app `PatchApplied` describes (every carried key of the `Partial<App>` wins, every other key is kept) with the id kept, version +1 and a fresh `updatedAt`; all other positions unchanged; document version +1; the lookup then finds it |
| AppsStorage.EmptyPatchOnlyBumps | src/lib/server/storage.ts:132-138 | an empty update changes only `updatedAt` and `version` |
| AppsStorage.UpdatePreservesValidity | src/lib/server/storage.ts:124-145 | a valid document and an update whose carried keys pass the app schema (a widget list of valid widgets included) give a valid document |
| AppsStorage.DeleteFindsNothing | src/lib/server/storage.ts:148-156 | `deleteApp` reports nothing removed exactly when no app has the id |
| AppsStorage.DeleteRemovesAll | src/lib/server/storage.ts:150-160 | on removal: no app with the id remains, others keep their order and multiplicity, and the version goes up by one |
| AppsStorage.DeletePreservesValidity | src/lib/server/storage.ts:148-160 | deletion keeps a valid document valid |
| AppsStorage.WritesStayValid | src/lib/server/storage.ts:84-90 | on valid inputs the schema check in every add/update/delete save succeeds |
| AppsStorage.AppsStore.Write | src/lib/server/storage.ts:20-62 | a write backs up the existing file, then stores the document |
| AppsStorage.AppsStore.Load | src/lib/server/storage.ts:65-81 | returns `LoadedData`; a bad or missing file is replaced by the default, with a backup |
| AppsStorage.AppsStore.Save | src/lib/server/storage.ts:84-90 | an invalid document never reaches the write: `Err` leaves file and backups untouched |
| AppsStorage.AppsStore.GetAppById | src/lib/server/storage.ts:99-102 | returns `AppById` of the loaded document |
| AppsStorage.AppsStore.AddApp | src/lib/server/storage.ts:105-121 | saves `WithNewApp` of the loaded document and returns the new app |
| AppsStorage.AppsStore.UpdateApp | src/lib/server/storage.ts:124-145 | takes any `Partial<App>`; absent id: `null` and no save; else saves the updated document and returns the new app |
| AppsStorage.AppsStore.DeleteApp | src/lib/server/storage.ts:148-160 | nothing removed: `false` and no save; else saves and returns `true` |
| DashboardTree.DefaultIsConsistent | src/lib/server/dashboards.ts:74-187 | the default tree is valid and consistent: `main` has no parent and children personal/projects/teams, each pointing back to `main` |
| DashboardTree.DefaultStructure | src/lib/server/dashboards.ts:74-187 | version 1, root `main`, stamped `now`; `main` is stored, has no parent and three children |
| DashboardTree.LoadedStructure | src/lib/server/dashboards.ts:66-191 | the loaded structure is valid: the stored one when it parses and passes, else the consistent default rooted at `main` |
| DashboardTree.Stamped | src/lib/server/dashboards.ts:194-200 | the save succeeds exactly when the structure is valid |
| DashboardTree.NodeById | src/lib/server/dashboards.ts:203-206 | `nodes[id]` when present, else nothing |
| DashboardTree.NewNode | src/lib/server/dashboards.ts:212-222 | the new node has the given id, parent and children, both stamps `now`, creator `user`, the request's tags or `[]`, and is not a template |
| DashboardTree.WithNode | src/lib/server/dashboards.ts:209-234 | the id is stored, every old key stays, the root is kept and the version goes up by one; a node that is not its own parent is stored exactly as built |
| DashboardTree.AddInserts | src/lib/server/dashboards.ts:209-234 | with a fresh id: the node is stored with `user` metadata and the given or empty tags; an existing parent lists it last; nothing else changes; version +1 |
| DashboardTree.AddPreservesConsistency | src/lib/server/dashboards.ts:209-234 | inserting a fresh, childless, valid node keeps the tree consistent and valid |
| DashboardTree.MergedMetadata | src/lib/server/dashboards.ts:248-252 | every key of the metadata update wins, every other key is kept, and `updatedAt` is `now` |
| DashboardTree.PatchedNode | src/lib/server/dashboards.ts:244-253 | the node satisfies `NodePatchApplied` for the update, has the requested id and a fresh `updatedAt` |
| DashboardTree.UpdatedStructure | src/lib/server/dashboards.ts:237-259 | nothing exactly for an absent id; else the same keys, version +1, and the returned node is stored under the id and carries it |
| DashboardTree.UpdatePinsId | src/lib/server/dashboards.ts:237-259 | absent id gives nothing; otherwise the node keeps the requested id, satisfies `NodePatchApplied` (every carried key wins, every other key is kept, metadata merged key by key) with a fresh `updatedAt`; other nodes unchanged; same keys; version +1 |
| DashboardTree.BodyTagsAreIgnored | src/lib/server/dashboards.ts:244-253 | an update built from a request body changes no metadata except `updatedAt`, since the body's `tags` are top-level |
| DashboardTree.BodyPatch | src/lib/server/dashboards.ts:237-259 | the patch built from a request body carries no metadata, id or children; name and parent are the body's |
| DashboardTree.UpdatePreservesConsistency | src/lib/server/dashboards.ts:237-259 | an update touching neither `parentId` nor `children` keeps the tree consistent |
| DashboardTree.DeleteUnlinks | src/lib/server/dashboards.ts:262-287 | refuses an absent id and the root; otherwise removes the node, drops it from its parent's children, leaves other nodes, version +1 |
| DashboardTree.WithoutNode | src/lib/server/dashboards.ts:262-287 | refused exactly for an absent id or the root; else exactly that key is removed and the version goes up by one |
| DashboardTree.DeleteKeepsChildLinks | src/lib/server/dashboards.ts:262-287 | after a delete every listed child exists and points back |
| DashboardTree.DeleteKeepsParentLinks | src/lib/server/dashboards.ts:262-287 | after a delete every node whose parent exists is listed by it |
| DashboardTree.DeletePreservesConsistency | src/lib/server/dashboards.ts:262-287 | a delete keeps the tree consistent and valid; orphaned children keep their dangling `parentId` |
| DashboardTree.WalkUnknown | src/lib/server/dashboards.ts:294-295 | an unknown or empty id gives `[]` |
| DashboardTree.Walk | src/lib/server/dashboards.ts:294-303 | a finished walk has at most `fuel` crumbs and, from a stored node, ends with that node's crumb |
| DashboardTree.WalkLinks | src/lib/server/dashboards.ts:290-306 | the breadcrumb ends with the node itself, every crumb is a stored node, each crumb's parent is the one before it, and the first has no stored parent |
| DashboardTree.WalkFuel | src/lib/server/dashboards.ts:294-303 | once a walk finishes, more steps do not change it |
| DashboardTree.BreadcrumbPath | src/lib/server/dashboards.ts:290-306 | the `while` loop with `unshift` yields exactly the walk, for a chain that ends |
| DashboardTree.SelfLoopNeverEnds | src/lib/server/dashboards.ts:294-303 | from a node that is its own parent the walk never ends, whatever the number of steps |
| DashboardTree.SelfParentUpdateHangs | src/lib/server/dashboards.ts:294-303 | an update whose `parentId` is the node's own id is accepted, and the breadcrumb loop on that node then never ends |
| DashboardTree.SafeWalkLinks | src/lib/server/dashboards.ts:290-306 | with a visited set: ends with the node itself, each crumb is a stored node visited once, each crumb's parent is the one before, and the first one's parent is unstored or already visited |
| DashboardTree.SafeBreadcrumbAgrees | src/lib/server/dashboards.ts:290-306 | on a chain that ends, the walk with a visited set equals the walk as written |
| DashboardTree.SafeWalkSelfParent | src/lib/server/dashboards.ts:290-306 | on a self-parent node the walk with a visited set is that node alone |
| DashboardTree.SafeBreadcrumbPath | src/lib/server/dashboards.ts:290-306 | the loop with a visited set yields exactly that walk, on every structure |
| DashboardTree.DashboardStore.Write | src/lib/server/dashboards.ts:20-63 | a write backs up the existing file, then stores the structure |
| DashboardTree.DashboardStore.Load | src/lib/server/dashboards.ts:66-191 | returns `LoadedStructure`; a bad or missing file is replaced by the default, with a backup |
| DashboardTree.DashboardStore.Save | src/lib/server/dashboards.ts:194-200 | an invalid structure never reaches the write |
| DashboardTree.DashboardStore.GetNode | src/lib/server/dashboards.ts:203-206 | returns `NodeById` of the loaded structure |
| DashboardTree.DashboardStore.AddNode | src/lib/server/dashboards.ts:209-234 | saves `WithNode` of the loaded structure and returns the new node |
| DashboardTree.DashboardStore.UpdateNode | src/lib/server/dashboards.ts:237-259 | absent id: `null` and no save; else saves and returns the updated node |
| DashboardTree.DashboardStore.DeleteNode | src/lib/server/dashboards.ts:262-287 | absent id or root: `false` and no save; else saves the single snapshot without the node |
| DashboardTree.DashboardStore.GetBreadcrumbPath | src/lib/server/dashboards.ts:290-306 | returns the walk with a visited set over the loaded structure, which is the walk as written whenever the parent chain ends |
| DashboardView.ToggleNodeExpansion | src/lib/stores/dashboards.ts:169-179 | the id's membership flips, every other id's membership stays, other fields unchanged |
| DashboardView.ToggleTwice | src/lib/stores/dashboards.ts:169-179 | toggling twice restores the view state |
| DashboardView.SetCurrentView | src/lib/stores/dashboards.ts:158-160 | the view becomes the given one and every other field stays |
| DashboardView.SetPan | src/lib/stores/dashboards.ts:185-187 | the pan becomes the given one and every other field stays |
| DashboardView.SettersAreIndependent | src/lib/stores/dashboards.ts:158-187 | `setCurrentView` and `setPan` change only their own field and commute |
| DashboardView.SelectedNode | src/lib/stores/dashboards.ts:17-23 | some exactly when there is a structure, a non-empty selected id and a node under it; then that node |
| DashboardView.Collected | src/lib/stores/dashboards.ts:40-48 | every collected entry is keyed by its node's id and matches the query |
| DashboardView.CollectedSound | src/lib/stores/dashboards.ts:40-48 | every collected entry matches and is keyed by its node's id; every visited match is collected |
| DashboardView.CollectedKeyed | src/lib/stores/dashboards.ts:37-50 | for a map keyed by node ids, the result is the sub-map of matching nodes, whatever the iteration order |
| DashboardView.FilteredNodes | src/lib/stores/dashboards.ts:32-51 | no structure gives `{}`; a blank query gives all nodes; otherwise the `forEach` loop yields the matches of the lower-cased, untrimmed query |
| Kanban.MapColumnsKeepsShape | src/lib/stores/kanban.js:38-50 | a column update that keeps ids keeps every board's id and column ids |
| Kanban.MapColumns | src/lib/stores/kanban.js:38-50 | the number of boards, their ids and titles are kept |
| Kanban.AddCard | src/lib/stores/kanban.js:37-52 | the ids and order of boards and columns are kept |
| Kanban.DeleteCard | src/lib/stores/kanban.js:84-99 | the ids and order of boards and columns are kept |
| Kanban.MoveCard | src/lib/stores/kanban.js:54-82 | the ids and order of boards and columns are kept |
| Kanban.MoveStep | src/lib/stores/kanban.js:69-77 | id and title kept; the source column keeps no card with the moved id; a different target column gains the card at its end, the rest kept; other columns unchanged |
| Kanban.AddCardAppends | src/lib/stores/kanban.js:37-52 | in matching columns of matching boards the card with the fresh id is appended; everything else unchanged |
| Kanban.AddCardUnknown | src/lib/stores/kanban.js:37-52 | an unknown board or column leaves the boards unchanged |
| Kanban.DeleteCardRemoves | src/lib/stores/kanban.js:84-99 | matching columns lose the cards with the id, keeping the others in order; other columns and boards unchanged |
| Kanban.MoveCardMissing | src/lib/stores/kanban.js:54-63 | a missing board, column or card leaves the boards unchanged |
| Kanban.MoveCardMoves | src/lib/stores/kanban.js:54-82 | with the board, source column and card found and the target present: the source column loses the cards with the id, keeping the others in order; a different target column gets the found card appended; other columns and boards unchanged |
| Kanban.MoveWithinColumnRemoves | src/lib/stores/kanban.js:70-75 | with the same source and target column the card is removed and not re-added |
| Kanban.MoveKeepsCount | src/lib/stores/kanban.js:65-80 | between two distinct existing columns, with the card's id once in the source, the total card count is kept |
| Pomodoro.NextSession | src/lib/stores/pomodoro.js:129-140 | after work a long break exactly when the new count is divisible by 4, else a short break; after a break, work |
| Pomodoro.Tick | src/lib/stores/pomodoro.js:119-158 | above one second: only `timeLeft` drops by one; otherwise count +1, stopped, next session at its full duration with `timeLeft == totalTime`, task kept only for work |
| Pomodoro.Ticks | src/lib/stores/pomodoro.js:119-158 | repeated ticks keep a valid state valid and never lower the completed count |
| Pomodoro.Start | src/lib/stores/pomodoro.js:17-30 | running, not paused, the given task; nothing else changes |
| Pomodoro.Pause | src/lib/stores/pomodoro.js:32-42 | only `isPaused` becomes true |
| Pomodoro.Resume | src/lib/stores/pomodoro.js:44-51 | only `isPaused` becomes false |
| Pomodoro.Stop | src/lib/stores/pomodoro.js:53-69 | stopped, times back to 1500, no task; session and count kept |
| Pomodoro.CompleteCurrentTask | src/lib/stores/pomodoro.js:71-78 | only the task is cleared |
| Pomodoro.SetSession | src/lib/stores/pomodoro.js:80-111 | the chosen session at full duration, stopped; task and count kept |
| Pomodoro.OperationsKeepValid | src/lib/stores/pomodoro.js:17-158 | every operation keeps the total one of 1500/300/900, with 1 ≤ timeLeft ≤ total |
| Pomodoro.CountDown | src/lib/stores/pomodoro.js:154-157 | `n` ticks with more than `n` seconds left only subtract `n` |
| Pomodoro.SessionRunsOut | src/lib/stores/pomodoro.js:119-158 | after exactly `timeLeft` ticks the session ends: count +1, next session at its full time |
| Pomodoro.StopDuringBreak | src/lib/stores/pomodoro.js:53-61 | stopping during a break keeps the break but gives it the 25-minute total |
| Pomodoro.TickingNeverReachesLongBreak | src/lib/stores/pomodoro.js:126-140 | as written, from a state where work has an even count, ticking never reaches a long break |
| Pomodoro.FreshTimerNeverLongBreak | src/lib/stores/pomodoro.js:126-140 | a fresh timer left to tick never gets a long break |
| Pomodoro.IntendedTick | src/lib/stores/pomodoro.js:119-158 | the corrected tick counts only finished work sessions |
| Pomodoro.IntendedCycle | src/lib/stores/pomodoro.js:129-140 | with the corrected tick the k-th work session is followed by a long break exactly when 4 divides k |
| Pomodoro.IntendedFourthWorkIsLong | src/lib/stores/pomodoro.js:126-140 | with the corrected tick, a fresh timer goes short, work, short, work, short, work, long, work, with four work sessions done |
| Pomodoro.FormattedTimeRoundTrip | src/lib/stores/pomodoro.js:162-166 | under 100 minutes the display is five characters `MM:SS` and reads back to the seconds |
| Pomodoro.FormattedTime | src/lib/stores/pomodoro.js:162-166 | at least five characters, with `:` third from the end |
| Pomodoro.ValidStateDisplays | src/lib/stores/pomodoro.js:162-166 | every valid state's time displays as `MM:SS` and reads back |
| Windows.NewWindow | src/lib/stores/windows.js:10-22 | the `n`-th window opens at `(100+20n, 100+20n)`, 320×240, not maximized |
| Windows.Opened | src/lib/stores/windows.js:7-24 | one window is appended after the unchanged list, with the prior count as `n` |
| Windows.Closed | src/lib/stores/windows.js:26-28 | exactly the windows with other ids remain |
| Windows.ClosedKeepsOrder | src/lib/stores/windows.js:26-28 | the remaining windows keep their order, and each window with another id keeps its multiplicity |
| Windows.Fronted | src/lib/stores/windows.js:66-71 | ids and order kept; only `zIndex` of matching windows becomes `z` |
| Windows.Moved | src/lib/stores/windows.js:73-77 | ids and order kept; only `position` of matching windows changes |
| Windows.Resized | src/lib/stores/windows.js:79-83 | ids and order kept; only width and height of matching windows change |
| Windows.UpdateMatching | src/lib/stores/windows.js:66-83 | the shared `map` of the id-keyed updaters: length kept, other windows unchanged, matching windows updated |
| Windows.OrElse | src/lib/stores/windows.js:58 | the fallback of `w.width or 320`: a non-zero value is kept, and the result is zero only when the fallback is |
| Windows.ToggledMaximized | src/lib/stores/windows.js:52-64 | flips `isMaximized`. Maximizing remembers the position and size (a zero side as 320/240) and fills the viewport less 80 pixels of height; un-maximizing puts the remembered values back. Nothing else changes |
| Windows.Maximized | src/lib/stores/windows.js:52-64 | ids kept; matching windows toggled; well-formedness kept |
| Windows.MaximizeTwiceRestores | src/lib/stores/windows.js:52-64 | maximize then un-maximize restores position, and size when both sides were non-zero |
| Windows.MaximizeTwiceRestoresList | src/lib/stores/windows.js:52-64 | the same on the whole list |
| Windows.ListUpdatesCompose | src/lib/stores/windows.js:73-83 | a second move overrides the first; move and resize commute; closing forgets a move |
| Windows.MinimizeStep | src/lib/stores/windows.js:30-39 | present id: the first match is appended to the minimized list and every match leaves the open list; absent id: nothing changes |
| Windows.RestoreStep | src/lib/stores/windows.js:41-50 | present id: the first minimized window with the id, stamped with `now` as z-index, is appended to the open list and every match leaves the minimized list; absent id: nothing changes |
| Windows.MinimizeKeepsWellFormed | src/lib/stores/windows.js:30-39 | minimizing keeps every maximized window's remembered originals |
| Windows.RestoreKeepsWellFormed | src/lib/stores/windows.js:41-50 | restoring keeps every maximized window's remembered originals |
| Windows.MinimizeThenRestore | src/lib/stores/windows.js:30-50 | for an id unique on the desk, minimize then restore moves the window to the end of the open list with a new z-index, and the minimized list is as before |
| Windows.WindowManager.Open | src/lib/stores/windows.js:7-24 | open list becomes `Opened`; minimized list unchanged |
| Windows.WindowManager.Close | src/lib/stores/windows.js:26-28 | open list becomes `Closed`; minimized list unchanged |
| Windows.WindowManager.Minimize | src/lib/stores/windows.js:30-39 | both lists become `MinimizeStep` |
| Windows.WindowManager.Restore | src/lib/stores/windows.js:41-50 | both lists become `RestoreStep` |
| Windows.WindowManager.Maximize | src/lib/stores/windows.js:52-64 | open list becomes `Maximized` |
| Windows.WindowManager.BringToFront | src/lib/stores/windows.js:66-71 | open list becomes `Fronted` |
| Windows.WindowManager.Move | src/lib/stores/windows.js:73-77 | open list becomes `Moved` |
| Windows.WindowManager.Resize | src/lib/stores/windows.js:79-83 | open list becomes `Resized` |

Where the code and its intent part ways, the model follows the code:

- The update route passes the validated body, whose `tags` are top-level,
  as the node patch, so tags are never updated
  (`DashboardTree.BodyTagsAreIgnored`).
- A file that exists but is corrupt is backed up before the default
  overwrites it.
- An update patch that carries `parentId` or `children` does not relink the
  tree. Consistency is therefore proved only for updates without them.

## Findings

| source | as written | input that shows it | evidently intended | confidence | as-written member | corrected member |
|---|---|---|---|---|---|---|
| src/lib/stores/pomodoro.js:126-133 | `completedSessions` goes up after breaks too, and a long break follows work when that count is divisible by 4 | a fresh timer left to tick: work ends at counts 1, 3, 5, 7, … and is always followed by a short break | every fourth work session is followed by the long break | medium, not executed | Pomodoro.TickingNeverReachesLongBreak | Pomodoro.IntendedCycle |
| src/lib/server/dashboards.ts:294-303 | the breadcrumb loop follows `parentId` until it leaves the map, with no check for an id it has visited, and an update may set a node's `parentId` to its own id | update node `X` with `{parentId: "X"}`, then ask for the breadcrumb of `X`: the loop never ends | the walk stops at a visited id, so `X` alone | high, not executed | DashboardTree.SelfParentUpdateHangs | DashboardTree.SafeBreadcrumbAgrees |

The breadcrumb loop as written is `DashboardTree.BreadcrumbPath`. The
store's `getBreadcrumbPath` uses the corrected loop,
`DashboardTree.SafeBreadcrumbPath`, which keeps a set of visited ids. On
a chain that ends, the two give the same path
(`DashboardTree.SafeBreadcrumbAgrees`). On a self-parent node the
corrected loop gives that node alone (`DashboardTree.SafeWalkSelfParent`).
`DashboardTree.SafeWalkLinks` shows that every corrected path is a
duplicate-free chain of parent links.

`Pomodoro.Tick` stays as written, because it is the modelled behaviour.
`Pomodoro.IntendedTick` is the corrected tick, and
`Pomodoro.IntendedFourthWorkIsLong` shows the cycle it gives from a fresh
timer: short, work, short, work, short, work, long.

## Left out

- File I/O is modelled as the `DocFile` value and the `BackupDir` listing.
  Not modelled:
  - directory creation;
  - the temporary-file-and-rename atomic write and its cleanup;
  - swallowed backup errors;
  - partial writes.
- Each store operation takes one `now` for all its clock readings. The
  source reads the clock separately for `createdAt`, `updatedAt`,
  `lastModified` and the backup name.
- `DashboardTree.DashboardStore.DeleteNode`: the recursive deletes of the
  children are not modelled. Each does its own load, save and backup, and
  the outer call's save then overwrites them with its earlier snapshot. The
  model is that single snapshot, so descendants remain as orphans, and the
  backups made by the inner calls are not modelled.
- Concurrent requests, with their read-modify-write races, are not modelled.
- `DashboardTree.BreadcrumbPath`: requires that the parent chain ends,
  because the loop as written does not terminate otherwise (see
  "## Findings"). The store method uses the corrected loop, which ends on
  every structure.
- `Grid.ItemStores.AddApp`, `Grid.ItemStores.AddWidget`: when placement
  throws, the model leaves the store unchanged. In the source the exception
  escapes from the `dashboardItems` subscription callback, so that
  subscription is never removed. The later runs of the leaked subscription
  on store changes are not modelled.
- Strings are sequences of Unicode scalar values, so a lone surrogate
  cannot occur in them. `sort()` and `trim()` are modelled for every
  other string.
- JSON parsing and the zod library are modelled as predicates over typed
  documents:
  - unknown keys are not stripped;
  - non-integer numbers are not modelled (all numbers are integers);
  - `Unparsable` stands for any file `JSON.parse` rejects.
- `AppSchema.ValidApp`: does not check that `url` is a URL, because
  `z.string().url()` is library code. `AppSchema.ValidCreateApp` has the
  same gap.
- `AppSchema.ValidWidget`: the widget `props` record (`z.record(z.any())`)
  is not part of the datatype.
- Lookups by key (`nodes[id] || null`) treat keys that name members of
  `Object.prototype` as absent.
- `toLowerCase` is modelled on ASCII letters only. Unicode case mapping is
  not modelled.
- `Kanban.AddCardAppends`: every matching column gets a card with the same
  fresh id. The source calls `crypto.randomUUID()` once per matching column,
  so duplicate column ids there get distinct card ids.
- `Grid.NewApp`: the `status: 'Installiert'` field and the fields `...app`
  spreads in are not part of the item datatype. The same holds for a new
  widget's `props` and content.
- The client `dashboardItems` store is modelled as the concatenation of the
  two lists that `findFreeSpot` reads. Not modelled:
  - the Svelte subscription plumbing;
  - the seed apps and widgets.
- Timers (`setInterval`/`clearInterval` and the `interval` variable) are not
  modelled; only the tick's state change is. The `selectedTask` store that
  start, stop and complete also write is not modelled either.
- Floating-point code is not modelled:
  - `progressPercentage`;
  - the `setZoom` clamp (the view state carries `zoom` untouched);
  - `Math.round` in `clampSize`, which is the identity on integers.
- `Windows.ToggledMaximized`: the viewport (`window.innerWidth`,
  `innerHeight`) is a parameter. Un-maximizing a maximized window that has
  no remembered originals is excluded by the well-formedness invariant,
  which every operation keeps.
- The fetch actions of the dashboard store, HTTP routes, UI components, the
  auth stub, the settings and view stores, and the legacy Next.js variant
  are not modelled.
