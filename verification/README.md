# Ai-Driven-OS core, modelled in Dafny

Ai-Driven-OS is a browser "operating system" with a desktop of windows. The
user types a natural-language command, and a command endpoint answers it with
a dialogue line and a structured action. The action goes to a window kernel
that opens, focuses or closes application windows. Two of the applications
hold their own pure state: a file explorer and a study planner. The virtual
file system service turns a flat list of stored nodes into a folder tree.

This project models those five pieces of logic as immutable datatypes and
pure functions, and proves properties of them:

- `OSState` (os_state.dfy) is the window kernel:
  - the window records and the stacking counter `highestZIndex`;
  - `openApplication`, `closeApplication` and `focusApplication`;
  - the `executeOSCommand` switchboard.

  `Intent` (intent.dfy) is the action record the kernel receives. It includes
  JavaScript truthiness of its `app_id` and `query` fields.
- `Vfs` (vfs.dfy) is `buildTree` and the `try`/`catch` around its one call.
  The source recursion has no guard. The model carries the set of parent ids
  still on the call stack. It answers `None` where the source would recurse
  forever. `VfsProps.DivergesIffReentry` proves that this happens exactly
  when a walk from the root directory reaches a folder whose id an earlier
  folder on that walk already carries. `getVirtualFileSystem` turns `None`
  into `[]`.
- `OsCommand` (os_command.dfy) is the mock classifier of the command endpoint:
  - lower-casing and substring tests, in their priority order;
  - an exact backtracking model of the regular expression
    `(?:search|find)\s+(.+)`;
  - the 400 answer to a missing prompt.

  `JsText` (js_text.dfy) holds the ASCII string primitives this needs.
  `CommandFlow` (command_flow.dfy) connects the classifier to the kernel.
- `FileExplorer` (file_explorer.dfy) holds:
  - the built-in file system;
  - the listing comparator (folders first, then by name) as a stable
    insertion sort;
  - navigation as a stack of folder ids.
- `SmartPlanner` (smart_planner.dfy) holds adding, toggling and deleting
  tasks.

The `*_props.dfy` files hold the lemmas about each module.

Some of the code's behaviour is easy to miss, and the model keeps it as written:

- Opening a new window does not clear the focus of the other windows. So
  "at most one focused window" is not an invariant:
  `OSStateProps.OpenNewAddsFocused` and `OSStateProps.TwoOpensTwoFocused` show
  it failing. It holds right after a focus of a present window
  (`OSStateProps.FocusLeavesOneFocused`).
- Focusing an absent id is not an error. It bumps the counter and leaves no
  window focused.
- An `open_application` action without an `app_id` is not an error. It
  changes nothing (`OSStateProps.DispatchWithoutAppId`).
- `buildTree` keeps no record of visited ids:
  - A cycle unreachable from the root directory is simply left out
    (`VfsProps.CycleOmitted`).
  - A recursion that re-enters an id never ends (`VfsProps.SharedIdDiverges`,
    `VfsProps.DivergesIffReentry`). The `catch` then makes the whole listing
    empty.

## Model

| member | source | states |
|---|---|---|
| OSStateProps.InitialValid | frontend/src/store/useOSState.ts:26-28 | The session starts with no windows and the counter at 10, and satisfies the kernel invariant |
| OSState.Focus | frontend/src/store/useOSState.ts:58-70 | The counter rises by exactly one even for an absent id. Windows with the id get focus and the new top level. Every other window loses focus and keeps its level. Ids, titles and order are kept, and with an absent id no window is focused |
| OSStateProps.FocusLeavesOneFocused | frontend/src/store/useOSState.ts:58-70 | With unique ids, exactly one window is focused after a focus of a present id and none after a focus of an absent one |
| OSStateProps.FocusRaisesToTop | frontend/src/store/useOSState.ts:58-70 | On a valid session, a window sits at the new top level after a focus exactly when it has the focused id |
| OSStateProps.FocusKeepsValid | frontend/src/store/useOSState.ts:58-70 | Focus keeps ids unique, windows open, and stacking levels distinct and within (10, counter] |
| OSState.Open | frontend/src/store/useOSState.ts:30-50 | Opening a present id is exactly a focus of it. Opening a new id appends one open, focused window with the given title (default "New Window") at the new counter value, and leaves every earlier window as it was |
| OSStateProps.OpenKeepsValid | frontend/src/store/useOSState.ts:30-50 | Opening keeps the kernel invariant |
| OSStateProps.OpenNewOnTop | frontend/src/store/useOSState.ts:39-49 | A newly opened window is stacked strictly above every existing window |
| OSStateProps.OpenNewAddsFocused | frontend/src/store/useOSState.ts:39-49 | Opening a new id adds one to the number of focused windows, because other windows keep their focus |
| OSStateProps.TwoOpensTwoFocused | frontend/src/store/useOSState.ts:39-49 | Two opens of new ids on a fresh session leave two focused windows |
| OSStateProps.ReopenKeepsOneWindow | frontend/src/store/useOSState.ts:34-37 | Opening an id twice leaves one window with that id, which keeps its first title |
| OSState.Close | frontend/src/store/useOSState.ts:52-56 | Closing removes every window with the id and keeps the others. The counter is unchanged, and closing an absent id changes nothing |
| OSStateProps.CloseRemovesOne | frontend/src/store/useOSState.ts:52-56 | With unique ids, closing the id of window k removes exactly that window and keeps the rest in order |
| OSStateProps.CloseKeepsValid | frontend/src/store/useOSState.ts:52-56 | Closing keeps the kernel invariant |
| OSState.Execute | frontend/src/store/useOSState.ts:72-98 | `open_application` with a truthy `app_id` opens it under "Smart Study Planner". `search_virtual_file_system` with a truthy query opens the file explorer titled "Search: " and the query. A missing payload or field, an empty string, `none` or an unknown type changes nothing |
| OSStateProps.ExecuteKeepsValid | frontend/src/store/useOSState.ts:72-98 | Dispatching any action keeps the kernel invariant |
| OSStateProps.RunKeepsValid | frontend/src/store/useOSState.ts:26-98 | Any sequence of opens, closes, focuses and dispatches from a valid session stays valid, and the counter never decreases |
| OSStateProps.DispatchPlannerOnFreshSession | frontend/src/store/useOSState.ts:77-82 | Dispatching the planner action on a fresh session yields the single window "study_planner", titled "Smart Study Planner", focused at level 11 |
| OSStateProps.DispatchWithoutAppId | frontend/src/store/useOSState.ts:77-82 | An `open_application` action with a null payload, or a missing or empty `app_id`, leaves the session unchanged |
| Intent.AppIdOf | frontend/src/store/useOSState.ts:78 | The dispatcher acts on `app_id` exactly when the payload is present and the field is a non-empty string |
| Intent.QueryOf | frontend/src/store/useOSState.ts:85 | The dispatcher acts on `query` exactly when the payload is present and the field is a non-empty string |
| Vfs.ChildrenOf | frontend/src/lib/vfs.ts:64 | The filter keeps exactly the nodes that name the given parent, and never more nodes than it was given |
| VfsProps.ChildrenOfConcat | frontend/src/lib/vfs.ts:64 | The filter works piecewise over a concatenation, so the kept nodes stay in input order |
| VfsProps.ChildrenOfSingle | frontend/src/lib/vfs.ts:64 | On one node, the filter keeps it exactly when it names the parent |
| Vfs.BuildTree | frontend/src/lib/vfs.ts:62-69 | When the recursion returns, the top level is exactly the nodes naming the parent, in input order. Every folder's children are projected the same way, and files are leaves. Each tree keeps its input node |
| Vfs.ProjectFileSystem | frontend/src/lib/vfs.ts:51-56 | The listing is the projection from the root directory, or empty when the recursion never ends |
| VfsProps.BuildTreeReturns | frontend/src/lib/vfs.ts:39-69 | With pairwise-distinct ids, the projection from the root directory always returns, and the listing is that projection |
| VfsProps.RoutesAreRootWalks | frontend/src/lib/vfs.ts:62-69 | A route down the projected forest is exactly a chain of input nodes that starts at the root directory, descends through folders and links each node to its parent |
| VfsProps.AppearsOnlyOnRootWalk | frontend/src/lib/vfs.ts:51-69 | Every node in the listing is reached by a parent chain from the root directory, so dangling or cyclic nodes never appear |
| VfsProps.ProjectionDepthBound | frontend/src/lib/vfs.ts:39-69 | With distinct ids, no route down the listing is longer than the number of nodes |
| VfsProps.ProjectionHasNoDuplicates | frontend/src/lib/vfs.ts:39-69 | With distinct ids, no node appears twice anywhere in the listing |
| VfsProps.WalkUnique | frontend/src/lib/vfs.ts:62-69 | With distinct ids, a node is reached from the root directory by one parent chain only |
| VfsProps.ChainProjects | frontend/src/lib/vfs.ts:62-69 | A root folder, a sub-folder and a file nest as folder, folder, file |
| VfsProps.CycleOmitted | frontend/src/lib/vfs.ts:62-69 | Two folders naming each other as parent, unreachable from the root, give an empty listing without error |
| VfsProps.DivergesIffReentry | frontend/src/lib/vfs.ts:51-69 | `buildTree(nodes, null)` never returns exactly when a walk from the root directory reaches a folder whose id an earlier folder on the walk already carries |
| VfsProps.SharedIdDiverges | frontend/src/lib/vfs.ts:51-69 | A folder that re-enters an id already being projected makes the recursion endless, and the listing is then empty |
| OsCommand.Classify | src/app/api/os-command/route.ts:7-48 | A missing or empty prompt gets status 400 with "No prompt provided". Otherwise the action is `open_application` with "study_planner" exactly when the lower-cased prompt contains "open" and "planner". Failing that, it is a search with the extracted query exactly when it contains "search" or "find". Any other prompt gets `none` with no payload |
| OsCommand.KeywordAt | src/app/api/os-command/route.ts:29 | The alternation `(?:search\|find)` matches six characters exactly at an occurrence of "search", four exactly at one of "find", and nothing elsewhere |
| OsCommand.MatchAt | src/app/api/os-command/route.ts:29 | At one start position, the matcher returns an accepting run with the most white space `\s+` can take. It fails only when no run starts there |
| OsCommand.FirstMatch | src/app/api/os-command/route.ts:29 | The matcher returns the leftmost accepting run, and at that start the greediest one. It finds none only when no run exists |
| OsCommand.SearchQuery | src/app/api/os-command/route.ts:29-30 | The search query is never empty, so the dispatcher always acts on it |
| OsCommandProps.SingleLineCapture | src/app/api/os-command/route.ts:29-30 | On a prompt without line terminators, take the leftmost "search" or "find" that is followed by white space and then any character. The query is the rest of the prompt after that white space. When the white space runs to the end of the prompt, `\s+` gives back one character and the query is the last character |
| OsCommandProps.CaptureNeedsKeyword | src/app/api/os-command/route.ts:29-30 | A capture exists only when the text contains "search" or "find" |
| OsCommandProps.SearchNotes | src/app/api/os-command/route.ts:29-30 | "search notes" yields the query "notes" |
| OsCommandProps.TrailingKeywordFallsBack | src/app/api/os-command/route.ts:29-30 | "find" with nothing after it falls back to "recent files" |
| CommandFlow.ClassifiedActionDispatch | src/app/api/os-command/route.ts:22-39 | Every answered action dispatches as intended. The planner action is an open of "study_planner" under "Smart Study Planner". A search is an open of the file explorer with the title "Search: " and the query; if an explorer window is already open, this only focuses it and its title stays. `none` changes nothing, any other action raises the counter by one, and the kernel invariant is kept |
| JsText.ToLower | src/app/api/os-command/route.ts:19 | Lower-casing keeps the length, turns every ASCII upper-case letter into its lower-case counterpart, and leaves every other character as it is |
| JsText.Trim | src/app/components/apps/SmartPlanner.tsx:20-21 | The result is empty exactly for blank text. Otherwise it has no white space at either end, and it is the text with only white space removed around it |
| JsText.TrimIdempotent | src/app/components/apps/SmartPlanner.tsx:20-21 | Trimming twice is trimming once |
| JsText.TrimPadded | src/app/components/apps/SmartPlanner.tsx:20-21 | Trimming strips exactly the blank padding around text that has none at its own ends |
| FileExplorerProps.InitialFsWellFormed | frontend/src/app/components/apps/FileExplorer.tsx:13-24 | In the built-in file system, every entry is stored under its id and every listed child exists. A child is listed by a folder exactly when it names that folder as parent |
| FileExplorerProps.InitialPathValid | frontend/src/app/components/apps/FileExplorer.tsx:27 | The explorer starts on a valid path: the root folder alone |
| FileExplorer.SortItems | frontend/src/app/components/apps/FileExplorer.tsx:34-37 | The sorted listing is ordered by the comparator and is a permutation of its input |
| FileExplorer.Listing | frontend/src/app/components/apps/FileExplorer.tsx:30-37 | The current folder's listing is a sorted permutation of the entries of its children |
| FileExplorerProps.ListingFoldersFirst | frontend/src/app/components/apps/FileExplorer.tsx:34-37 | No file precedes a folder in a listing, and entries of one kind appear in name order |
| FileExplorerProps.ListingShowsChildren | frontend/src/app/components/apps/FileExplorer.tsx:34 | An entry is in the listing exactly when it is one of the current folder's children |
| FileExplorerProps.DocumentsListedByName | frontend/src/app/components/apps/FileExplorer.tsx:13-37 | The Documents folder lists Notes.txt before Resume.pdf |
| FileExplorer.Navigate | frontend/src/app/components/apps/FileExplorer.tsx:39-45 | Entering a folder appends its id to the path. Choosing a file leaves the path unchanged |
| FileExplorerProps.NavigateKeepsValid | frontend/src/app/components/apps/FileExplorer.tsx:39-45 | Choosing any listed entry keeps the path valid: rooted, all folders, each a child of the one before |
| FileExplorer.GoBack | frontend/src/app/components/apps/FileExplorer.tsx:47-51 | Going back drops the last folder only when more than one is on the path, and otherwise changes nothing |
| FileExplorerProps.GoBackKeepsValid | frontend/src/app/components/apps/FileExplorer.tsx:47-51 | Going back keeps the path valid, so it is never empty and always starts at the root |
| FileExplorerProps.GoBackUndoesNavigate | frontend/src/app/components/apps/FileExplorer.tsx:39-51 | Going back after entering a folder returns to the earlier path |
| FileExplorer.NavigateToBreadcrumb | frontend/src/app/components/apps/FileExplorer.tsx:53-55 | A breadcrumb jump gives a prefix of the path, and for an index on the path it keeps exactly index + 1 folders |
| FileExplorerProps.BreadcrumbKeepsValid | frontend/src/app/components/apps/FileExplorer.tsx:53-74 | Jumping to any shown breadcrumb keeps the path valid |
| FileExplorerProps.GoBackIsBreadcrumb | frontend/src/app/components/apps/FileExplorer.tsx:47-55 | On a path deeper than the root, going back equals jumping to the second-to-last breadcrumb |
| SmartPlanner.AddTask | src/app/components/apps/SmartPlanner.tsx:18-23 | A blank draft changes nothing. Otherwise one open task with the given id is appended and earlier tasks are unchanged. Its title is the draft without surrounding white space, and the draft is cleared |
| SmartPlannerProps.AddTrimsDraft | src/app/components/apps/SmartPlanner.tsx:18-23 | The draft " Read Chapter 4" followed by a newline adds the task "Read Chapter 4" and clears the draft |
| SmartPlannerProps.AddBlankIgnored | src/app/components/apps/SmartPlanner.tsx:20 | A white-space-only draft adds nothing |
| SmartPlannerProps.DeleteUndoesAdd | src/app/components/apps/SmartPlanner.tsx:18-31 | Deleting the id a task was just added under restores the earlier list |
| SmartPlanner.ToggleTask | src/app/components/apps/SmartPlanner.tsx:25-27 | Toggling flips completion on exactly the tasks with the id, and keeps length, order, ids and titles |
| SmartPlannerProps.ToggleTwice | src/app/components/apps/SmartPlanner.tsx:25-27 | Toggling the same id twice restores the list |
| SmartPlannerProps.ToggleAbsent | src/app/components/apps/SmartPlanner.tsx:25-27 | Toggling an absent id changes nothing |
| SmartPlannerProps.ToggleCommutes | src/app/components/apps/SmartPlanner.tsx:25-27 | Toggles of two ids can be applied in either order |
| SmartPlanner.DeleteTask | src/app/components/apps/SmartPlanner.tsx:29-31 | Deleting keeps exactly the tasks with another id and none with the id. The length drops by the number of tasks carrying the id |
| SmartPlannerProps.DeleteAbsent | src/app/components/apps/SmartPlanner.tsx:29-31 | Deleting an absent id changes nothing |
| SmartPlannerProps.DeleteIdempotent | src/app/components/apps/SmartPlanner.tsx:29-31 | Deleting twice is deleting once |
| SmartPlannerProps.DeleteDistributes | src/app/components/apps/SmartPlanner.tsx:29-31 | Deleting from a joined list is joining the two deleted parts, so the order of the rest is kept |
| SmartPlannerProps.DeleteAfterToggle | src/app/components/apps/SmartPlanner.tsx:25-31 | Deleting an id after toggling it is the same as deleting it at once |

## Left out

- The desktop shell (DesktopEnvironment.tsx) is not part of this model, because it is rendering, a clock and an HTTP `fetch`. The same goes for window dragging and styling (OSWindow.tsx), the sign-in popup (LoginButton.tsx) and the background worker (Backend/worker/os_agent.py), which is Firestore I/O in a polling loop.
- The Firestore read in `getVirtualFileSystem` is left out because it is I/O. The model starts from the fetched node list. The `catch` is kept only for the one error the projection itself can raise, the endless recursion.
- The optional `size`, `mimeType` and `storageUrl` fields of a node are left out. The projection copies them unchanged and nothing reads them.
- The HTTP wrapper of the command endpoint is left out: `request.json()`, `NextResponse` and the 500 answer for a body that is not JSON. A prompt is modelled as an optional string, so non-string JSON values for it are not modelled. Likewise, `app_id` and `query` are modelled as optional strings. Other JSON types in those fields are not modelled.
- Unicode case mapping and white space are left out. Only ASCII is modelled: `toLowerCase` maps A-Z, and `\s`/`trim` cover space, tab, line feed, vertical tab, form feed and carriage return. `OsCommandProps.SingleLineCapture` assumes a prompt without line terminators. `OsCommand.FirstMatch` itself handles any prompt.
- FileExplorer.NameCompare: `localeCompare` is modelled as code-point order. The property proved, folders first and then name order, only needs a total order.
- FileExplorer.SortItems: the sort is a stable insertion sort. Sortedness and permutation are proved, but stability is not. Since ids are unique, entries are distinct records, and any two sorted permutations agree up to ties.
- The `alert` shown when a file is chosen in the explorer is left out. It is a side effect, and the path is unchanged.
- SmartPlanner.AddTask: the new id `Date.now().toString()` is a parameter, because clocks are outside the model. Its uniqueness is therefore not guaranteed, and `SmartPlannerProps.DeleteUndoesAdd` assumes it.
- React's asynchronous `setState` and the `console.log`/`console.error` calls are left out. Each handler is modelled as one state-to-state step.
