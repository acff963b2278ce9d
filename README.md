# To-do list: task-list state machine

A Dafny model of the logic inside the `App` component of a single-page to-do
list (`src/App.js`). The app keeps an ordered list of tasks `{id, text,
completed}` and lets the user add, edit, complete, delete and filter them. It
also has a light/dark display mode. Both the list and the mode are stored in
the browser's local storage.

- `js_string.dfy` (module `JsString`): `String.prototype.trim`, defined over the
  ECMAScript WhiteSpace and LineTerminator code points.
- `task_list.dfy` (module `TaskList`): the `Task` record and the new lists the
  handlers compute. These are the append of `handleAddTask`, the `map` of
  `handleToggleCompleted` and `handleSaveEdit`, the `filter` of
  `handleDeleteTask`, and the `filteredTasks` view. The module also holds the
  lemmas about them: involution, idempotence, no-op iff the id is absent,
  exactly one item changed when ids are distinct, preserving distinct ids, and
  the completed/incomplete partition.
- `display_mode.dfy` (module `DisplayMode`): the initial mode, the stored mode
  string and the header toggle.
- `hydration.dfy` (module `Hydration`): `getInitialTasks`. The stored text and
  the JSON parser are inputs.
- `app.dfy` (module `App`): class `TodoApp`. Each React state variable is a
  field. Each handler is a method whose `modifies` clause names only the fields
  whose setters the handler calls. The method sets those fields to the
  `TaskList` function of the old state. Two client methods replay the
  add/toggle/filter/delete and edit/cancel/save scenarios.

Ids are not assumed to be distinct. The app takes them from `Date.now()`, so
`AddTask` receives the id as a parameter. Toggle, save and delete act on every
task with a matching id. The lemmas that need distinct ids (`UniqueIds`) say so
in their `requires`.

Saving an edit stores the draft untrimmed (`src/App.js:99`), while adding trims
(`src/App.js:90`). The model keeps this asymmetry.

## Model

| member | source | states |
|---|---|---|
| JsString.Trim | src/App.js:87-90 | the trimmed input is empty iff the input is all white space; otherwise it neither starts nor ends with white space and is the infix of the input after the leading white space, with only white space around it |
| JsString.TrimIdempotent | src/App.js:87-90 | trimming an already trimmed text changes nothing |
| TaskList.Filter | src/App.js:107-119 | `Array.prototype.filter` on tasks: the result is no longer than the list and every item in it is accepted |
| TaskList.FilterMembers | src/App.js:107-119 | an item is in the filtered list iff it is in the list and accepted |
| TaskList.FilterIsSubsequence | src/App.js:107-119 | the filtered list is a subsequence of the list (relative order kept) |
| TaskList.FilterAppend | src/App.js:107-119 | filtering a concatenation is concatenating the filtered parts |
| TaskList.FilterIdempotent | src/App.js:107-119 | filtering twice by the same test equals filtering once |
| TaskList.FilterUnchangedIff | src/App.js:107-119 | filtering returns the list itself iff every item is accepted |
| TaskList.FilterKeepsUniqueIds | src/App.js:107-119 | a filtered list of items with distinct ids still has distinct ids |
| TaskList.Added | src/App.js:86-93 | the list is unchanged iff the input is blank; otherwise it grows by one, all earlier items keep their place, and the new last item has the given id, the trimmed text and completed = false |
| TaskList.AddFreshIdKeepsUniqueIds | src/App.js:88-91 | an id no task has yet (such as a later reading of a forward-moving clock) keeps all ids distinct after adding |
| TaskList.Toggled | src/App.js:110-114 | same length; every item keeps its id, text and position, and its completed flag changes iff its id is the given one |
| TaskList.ToggleInvolution | src/App.js:110-114 | toggling the same id twice restores the original list |
| TaskList.ToggleUnchangedIff | src/App.js:110-114 | toggling leaves the list unchanged iff no item has the id |
| TaskList.ToggleUniqueId | src/App.js:110-114 | with distinct ids, toggling flips the completed flag of exactly the one item with the id and changes nothing else |
| TaskList.ToggleKeepsUniqueIds | src/App.js:110-114 | toggling keeps distinct ids distinct |
| TaskList.Renamed | src/App.js:98-99 | same length; ids and completed flags unchanged; items with the id get exactly the draft text (untrimmed); all other items unchanged |
| TaskList.RenameIdempotent | src/App.js:98-99 | saving the same draft twice equals saving it once |
| TaskList.RenameAbsentId | src/App.js:98-99 | saving under an id no item has leaves the list unchanged |
| TaskList.RenameUniqueId | src/App.js:98-99 | with distinct ids, saving rewrites the text of exactly the one item with the id |
| TaskList.RenameKeepsUniqueIds | src/App.js:98-99 | saving keeps distinct ids distinct |
| TaskList.Deleted | src/App.js:107-109 | the result holds exactly the items whose id differs, as a subsequence in the original order, and no item with the id |
| TaskList.DeleteSplit | src/App.js:107-109 | the list is an order-keeping merge of the kept tasks and the tasks with the id; so every copy of every other task is kept, and multisets and lengths add up |
| TaskList.DeleteIdempotent | src/App.js:107-109 | deleting twice equals deleting once |
| TaskList.DeleteUnchangedIff | src/App.js:107-109 | deleting leaves the list unchanged iff no item has the id |
| TaskList.DeleteUniqueId | src/App.js:107-109 | with distinct ids, deleting removes exactly the one item with the id and closes the gap |
| TaskList.DeleteKeepsUniqueIds | src/App.js:107-109 | deleting keeps distinct ids distinct |
| TaskList.FilteredTasks | src/App.js:115-119 | "completed" gives exactly the completed items, "incomplete" exactly the others, any other filter value the list itself; always a subsequence of the list |
| TaskList.InterleavingCounts | src/App.js:115-119 | an order-preserving merge of two lists holds exactly their items: multisets and lengths add up |
| TaskList.ViewsPartition | src/App.js:115-119 | the list is an order-preserving merge of the completed and the incomplete view; their multisets add up to the list's and their lengths to its length |
| TaskList.AddKeepsTextsNotBlank | src/App.js:86-93 | if no task text is blank, none is after adding (a blank input adds nothing; a non-blank one is stored trimmed, and that is not blank) |
| TaskList.ToggleKeepsTextsNotBlank | src/App.js:110-114 | toggling keeps every task text non-blank |
| TaskList.DeleteKeepsTextsNotBlank | src/App.js:107-109 | deleting keeps every task text non-blank |
| TaskList.RenameKeepsTextsNotBlank | src/App.js:98-99 | saving a non-blank draft keeps every task text non-blank; saving does not check the draft itself |
| TaskList.SaveKeepsSurroundingSpaces | src/App.js:88-99 | a draft " b " is saved as " b ", while adding " b " stores "b" |
| DisplayMode.Name | src/App.js:50-52 | the stored mode string is "light" or "dark", and it is "dark" iff the mode is dark |
| DisplayMode.InitialMode | src/App.js:20-23 | the initial mode is dark iff the stored value is exactly "dark"; light otherwise, including when nothing is stored |
| DisplayMode.Toggle | src/App.js:160-162 | the toggle always changes the mode |
| DisplayMode.ToggleInvolution | src/App.js:160-162 | toggling twice gives the original mode |
| DisplayMode.StoredModeRoundTrip | src/App.js:20-23 | reading back the stored name of a mode gives that mode |
| Hydration.InitialTasks | src/App.js:54-63 | a non-empty list is loaded only from a non-empty stored text that parses to that array; a parsed array is returned as is; every other case (no entry, empty text, parse failure, not an array) gives [] |
| Hydration.LoadAfterPersist | src/App.js:54-63 | given a serializer that never writes "" and a parser that reads back what it writes, loading what was stored gives back the same list |
| App.TodoApp.constructor | src/App.js:64-68 | initial state: mode and tasks from storage, empty input, no edit session, filter "all" |
| App.TodoApp.SetInput | src/App.js:176 | typing sets the input and nothing else |
| App.TodoApp.AddTask | src/App.js:86-93 | the tasks become `Added` of the old tasks and input; the length grows by one unless the input is blank; the input is cleared unless it was blank; nothing else changes |
| App.TodoApp.BeginEdit | src/App.js:94-97 | the edit session becomes (id, text) and replaces any earlier one; the tasks do not change |
| App.TodoApp.SetEditText | src/App.js:261 | typing in the edit field sets the draft and nothing else |
| App.TodoApp.SaveEdit | src/App.js:98-102 | the tasks become `Renamed` with the old draft, untrimmed; the length is kept; the edit session is cleared |
| App.TodoApp.CancelEdit | src/App.js:103-106 | the edit session is cleared; the tasks do not change |
| App.TodoApp.DeleteTask | src/App.js:107-109 | the tasks become `Deleted` of the old tasks and hold no task with the id |
| App.TodoApp.ToggleCompleted | src/App.js:110-114 | the tasks become `Toggled` of the old tasks; the length is kept |
| App.TodoApp.SetFilter | src/App.js:206-240 | a filter button sets the filter and nothing else |
| App.TodoApp.ToggleMode | src/App.js:160-162 | the mode becomes the toggled mode, which differs from the old one; nothing else changes |

## Left out

- Rendering: all JSX, the MUI components and the `createTheme` palette (`src/App.js:25-47`, `src/App.js:121-268`). These are view code calling a foreign library.
- `src/Task.js`, the task card. Its save-button guard (no blank draft) appears only as a hypothesis of `TaskList.RenameKeepsTextsNotBlank`. The rule that the edit button is disabled for completed tasks is not modelled. Neither is the 60-character limit of the edit field.
- Local-storage reads and writes and `JSON.parse`/`JSON.stringify` (`src/App.js:21`, `src/App.js:50-52`, `src/App.js:56-58`, `src/App.js:81-83`). This is browser I/O. Stored values are `Option<string>` inputs, and the parser is a function parameter.
- Hydration.InitialTasks: a parsed JSON array may hold arbitrary values. The model only admits arrays of `Task` records, because it does not model JSON values.
- The mount-time re-sync effect (`src/App.js:70-79`) and React's effect and re-render scheduling. These are framework lifecycle behaviour.
- `Date.now()` as the id source (`src/App.js:90`). It is a clock read, so `AddTask` takes the id as a parameter.
- Strings: JavaScript strings are UTF-16 code units, while Dafny strings are Unicode scalar values. All the white space that `trim` removes lies in the Basic Multilingual Plane, so trimming is the same on both.
