# Todo screen model

A Dafny model of the single screen of a React Native todo app. The screen keeps
an ordered list of todo records (`id`, `name`, `age`, `completed`), two draft
inputs for the name and the age, and a single-slot alert (a message and a
visible flag). Every change a handler makes to the list is written, as a whole,
to one device storage slot under the key `@todos`. On mount the screen reads
that slot back.

- `records.dfy` (module `Records`) holds the record type and the pure list
  operations the handlers use. Add prepends (`Added`), remove filters by id
  (`Removed`) and toggle maps a flip of `completed` over the records with that
  id (`Toggled`). It also holds the lemmas about these operations: inverses,
  order, multiplicities, "nothing else changes", and id uniqueness under an
  explicit freshness hypothesis.
- `screen.dfy` (module `Screen`) holds the component state as the class
  `TodoScreen`. Its fields are the `useState` variables plus `storage`, the
  `@todos` slot. The handlers are methods. Each method's `modifies` clause names
  the fields it may change, so every other field is provably unchanged.

Ids are an argument of `HandleAdd`. The app derives them from the clock
(`Date.now().toString()`), and nothing in the app stops two records from
sharing an id. So uniqueness is never claimed outright. It is proved to be kept
by add when the caller's id is fresh, and kept unconditionally by remove and
toggle.

Two behaviours of the code worth noting: a failed or empty load leaves the list
as it was instead of resetting it (`Screen.Mount` shows that the two agree at
mount, where the list is still empty), and record ids are not guaranteed unique
(see above).

## Model

| member | source | states |
|---|---|---|
| `Records.Added` | Pages/Todos/index.js:60-61 | the list after an add is one longer, the new record (not completed) is first, and the old list follows unchanged |
| `Records.Removed` | Pages/Todos/index.js:70 | a record is in the result exactly when it was in the list and its id differs from the removed id; the list never grows |
| `Records.Toggled` | Pages/Todos/index.js:77-79 | same length; every record keeps its id, name and age; `completed` is negated exactly on the records carrying the id |
| `Records.AddedUniqueIff` | Pages/Todos/index.js:60-61 | after an add the ids are unique if and only if the new id was fresh and the old ids were unique |
| `Records.RemovedUndoesAdded` | Pages/Todos/index.js:60-70 | removing the id of a record just added with a fresh id gives back the old list |
| `Records.AddedNewestFirst` | Pages/Todos/index.js:61 | two adds leave the later record first and the earlier one second, ahead of the old list |
| `Records.RemovedAbsent` | Pages/Todos/index.js:70 | removing an id no record carries leaves the list unchanged |
| `Records.RemovedConcat` | Pages/Todos/index.js:70 | removal distributes over concatenation, so the kept records stay in their original relative order |
| `Records.RemovedCounts` | Pages/Todos/index.js:70 | every record with the removed id occurs zero times afterwards; every other record keeps its multiplicity |
| `Records.RemovedUniqueAt` | Pages/Todos/index.js:69-70 | with unique ids, removing the id of the record at position k deletes exactly that position |
| `Records.RemovedKeepsUnique` | Pages/Todos/index.js:70 | removal keeps the ids unique |
| `Records.ToggledTwice` | Pages/Todos/index.js:76-79 | toggling the same id twice restores the list |
| `Records.ToggledAbsent` | Pages/Todos/index.js:77-79 | toggling an id no record carries leaves the list unchanged |
| `Records.ToggledKeepsIds` | Pages/Todos/index.js:77-79 | toggling keeps the id sequence, and ids are unique afterwards exactly when they were before |
| `Records.ToggledOnlyAt` | Pages/Todos/index.js:77-79 | when no other record shares the id of the record at position k, toggling that id changes that record's `completed` and nothing else |
| `Records.ToggledUniqueAt` | Pages/Todos/index.js:77-79 | with unique ids, toggling the id of the record at position k changes that record's `completed` and nothing else |
| `Records.RemovedAfterToggled` | Pages/Todos/index.js:70-79 | deleting a record after toggling it gives the same list as deleting it directly |
| `Screen.TodoScreen.constructor` | Pages/Todos/index.js:17-21 | the initial state: empty list, empty drafts, hidden alert with an empty message; the storage slot holds what the device already stores |
| `Screen.TodoScreen.LoadTodos` | Pages/Todos/index.js:31-38 | the list becomes the stored list when the slot holds one; when the slot is empty or unreadable the list is unchanged; nothing else changes |
| `Screen.TodoScreen.SaveTodos` | Pages/Todos/index.js:43-49 | the slot is overwritten with the whole given list; nothing else changes |
| `Screen.TodoScreen.ShowAlert` | Pages/Todos/index.js:51-54 | the alert shows the given message; nothing else changes |
| `Screen.TodoScreen.DismissAlert` | Pages/Todos/index.js:212 | the alert is hidden and keeps its message; nothing else changes |
| `Screen.TodoScreen.SetName` | Pages/Todos/index.js:97 | the name draft becomes the typed text; nothing else changes |
| `Screen.TodoScreen.SetAge` | Pages/Todos/index.js:105 | the age draft becomes the typed text; nothing else changes |
| `Screen.TodoScreen.HandleAdd` | Pages/Todos/index.js:56-67 | an empty name shows the name alert and changes nothing else, even when the age is empty too; otherwise an empty age shows the age alert and changes nothing else; otherwise the new record is prepended, the slot holds the new list, both drafts are cleared and the success alert is shown; a fresh id keeps the ids unique |
| `Screen.TodoScreen.HandleRemove` | Pages/Todos/index.js:69-74 | the list becomes the removal of the id, the slot holds the new list, the delete alert is shown whether or not the id was present, the drafts are untouched, and unique ids stay unique |
| `Screen.TodoScreen.ToggleComplete` | Pages/Todos/index.js:76-82 | the list becomes the toggle of the id and the slot holds the new list; drafts and alert are untouched; id uniqueness is unchanged |
| `Screen.Mount` | Pages/Todos/index.js:16-41 | a freshly mounted screen shows the stored list when the slot holds one and an empty list otherwise, with empty drafts and a hidden alert whose message is empty |
| `Screen.AddTwiceThenRelaunch` | Pages/Todos/index.js:56-67 | for any stored slot and any non-empty names and ages, two adds show the later record first and the earlier one second, ahead of the loaded list; a screen mounted afterwards on the same slot loads exactly the list shown |

## Left out

- Rendering: the JSX tree, styles, the colour cycling over list positions, animations, the swipe gesture and the modal component. They are presentation code on external libraries. Their effects on state are the handler calls modelled above.
- `App.js`: it only mounts the screen inside a gesture-handler root view and has no logic.
- Serialisation: `JSON.stringify` and `JSON.parse` are not modelled. The slot stores the list itself. A stored text that parses to something other than a list of records (for example `null`) cannot be represented. Only "unreadable" (a read or parse that throws) and "empty" (no item) are.
- Storage I/O: reads and writes are asynchronous calls into the storage library. Here each save completes at once, so there is no interleaving of overlapping saves. The mount's load is also taken to finish before the first handler runs. In the app, an add that lands before the load resolves is overwritten in memory by the loaded list, while its save has already overwritten the slot (index.js:39-41 against 62-63); the model does not capture that race.
- Screen.TodoScreen.SaveTodos: a failed write is not modelled. The app catches it and only logs it, so afterwards the slot's content is unknown. The model always stores the list.
- React state batching: the handlers read the state of the last render. The model runs each handler on the current state, one at a time.
- The clock: `Date.now()` is replaced by the `id` argument of `HandleAdd`.
- Diagnostic logging on failed loads and saves: it changes no modelled state.
