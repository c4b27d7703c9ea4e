# Todo app task-list model

A Dafny model of the task-list state machine inside the `TodoApp` React
component of a client-side todo app. The component keeps four pieces of state:
the list `todos`, the new-todo input `newTodo`, the id of the item being edited
`editingId`, and the edit draft `editText`. It persists the list under one fixed
browser storage key, `todo-app-key`. The model covers the following:

- the load of the list when the component mounts;
- the counters shown above the list (total, completed, pending);
- the handlers `addTodo`, `toggleComplete`, `startEdit`, `saveEdit`, the inline
  cancel, `deleteTodo` and `resetLocalStorage`;
- the effect that writes the whole list to storage whenever `todos` changes.

Files:

- `js_string.dfy` (module `JsString`): JavaScript's `String.prototype.trim`
  and the app's emptiness test `!s.trim()`.
- `todo_list.dfy` (module `TodoList`): the `Todo` record. It also holds
  `filter` and `map` on sequences, the stats, and the pure list transforms the
  handlers pass to `setTodos`: append, toggle, text replacement and delete.
  Each transform comes with lemmas about length, order, counts, idempotence
  and "nothing else changes".
- `local_storage.dfy` (module `Storage`): browser storage as a class over a
  map from keys to entries, and the load of the list from what `getItem`
  returned.
- `todo_app.dfy` (module `App`): the component as a class `TodoApp`. Its
  fields are the four pieces of state and a reference to the storage. Each
  handler is a method. Each handler that sets `todos` ends with the
  persistence effect. `Session` replays a short add, toggle, edit and delete
  session and checks the counters at each step.

The environment's side is passed in as parameters:

- ids (`Date.now()`) and the formatted date strings;
- whether each storage call succeeds. `readOk`, `writeOk` and `removeOk` are
  false when the browser call throws, which the code catches and logs.

Where one might expect otherwise, the model follows the code:

- Accepted text is stored as typed. Only the emptiness test trims.
- Ids are not forced to be unique. Toggle, save and delete act on every item
  whose id matches.
- Deleting the item being edited leaves `editingId` set.
- `saveEdit` and the cancel button close the edit but keep the draft in
  `editText`.
- `resetLocalStorage` removes the storage key and leaves the in-memory list
  as it is. The next handler that sets `todos` writes the list back under
  the key.

## Model

| member | source | states |
|---|---|---|
| `JsString.TrimStart` | src/Todo.jsx:48 | the result is a suffix of the input, every dropped character is whitespace, and the result does not start with whitespace |
| `JsString.TrimEnd` | src/Todo.jsx:48 | the result is a prefix of the input, every dropped character is whitespace, and the result does not end with whitespace |
| `JsString.Trim` | src/Todo.jsx:80 | `trim()` is no longer than its input and neither end of a non-empty result is whitespace |
| `JsString.TrimIsMiddleSlice` | src/Todo.jsx:48 | `trim()` returns a middle slice of its input, and everything it removed before and after that slice is whitespace |
| `JsString.IsBlank` | src/Todo.jsx:48 | the test `!newTodo.trim()` (and `!editText.trim()` at line 80) holds when every character is whitespace; `TrimEmptyIffBlank` proves this is exactly `trim()` returning the empty string |
| `JsString.TrimEmptyIffBlank` | src/Todo.jsx:48 | `!s.trim()` holds exactly when every character of `s` is whitespace, so the empty string is rejected too |
| `TodoList.Filter` | src/Todo.jsx:33 | `filter` never lengthens, and an element is in the result exactly when it is in the input and passes the test |
| `TodoList.Map` | src/Todo.jsx:62-70 | `map` keeps the length, and the i-th result is the callback applied to the i-th element |
| `TodoList.FilterConcat` | src/Todo.jsx:96 | filtering a concatenation is the concatenation of the filtered parts, so kept elements keep their relative order |
| `TodoList.FilterCounts` | src/Todo.jsx:96 | every occurrence of a kept element survives the filter and no occurrence of a dropped one does |
| `TodoList.FilterIdempotent` | src/Todo.jsx:96 | filtering twice with the same test is filtering once |
| `TodoList.FilterKeepsAll` | src/Todo.jsx:96 | filtering a list whose elements all pass returns it unchanged |
| `TodoList.FilterMapSameCount` | src/Todo.jsx:82-91 | a map that never changes whether an element passes the test keeps the number of elements that pass it |
| `TodoList.ComputeStats` | src/Todo.jsx:32-34 | total is the list length, completed never exceeds total, pending is never negative, and completed plus pending is total |
| `TodoList.DoneAndOpenPartition` | src/Todo.jsx:33-34 | the completed items and the open items together make up the whole list |
| `TodoList.StatsCountItems` | src/Todo.jsx:32-34 | pending, computed as total minus completed, equals the number of items not yet completed |
| `TodoList.NewTodo` | src/Todo.jsx:50-55 | a new item carries the given id, the text as typed, the given creation stamp, is not completed and has no update stamp |
| `TodoList.AppendStats` | src/Todo.jsx:57 | appending an open item adds one to total and to pending and leaves completed unchanged |
| `TodoList.ToggleById` | src/Todo.jsx:61-71 | the length and order are kept; items with another id are returned unchanged; matching items have `completed` flipped and the new update stamp, with id, text and creation stamp kept |
| `TodoList.ToggleTwiceRestores` | src/Todo.jsx:61-71 | toggling the same id twice gives back every item, except that matching items carry the second update stamp |
| `TodoList.ToggleAbsentId` | src/Todo.jsx:61-71 | toggling an id that no item has leaves the list equal to what it was |
| `TodoList.ToggleStats` | src/Todo.jsx:61-71 | toggling keeps the total; the completed count loses the matching items that were completed and gains the matching items that were open |
| `TodoList.ReplaceText` | src/Todo.jsx:82-91 | the length and order are kept; items whose id is not the edited id are unchanged; edited items get the draft text and the new update stamp, with id, completion and creation stamp kept |
| `TodoList.ReplaceTextKeepsStats` | src/Todo.jsx:82-91 | committing an edit leaves total, completed and pending unchanged |
| `TodoList.ReplaceTextWithoutEdit` | src/Todo.jsx:83 | with `editingId` null, no item matches and the list is unchanged |
| `TodoList.Without` | src/Todo.jsx:95-97 | the list never grows, and an item remains exactly when it was there and its id differs from the deleted id |
| `TodoList.WithoutLength` | src/Todo.jsx:96 | the list shrinks by exactly the number of items carrying the deleted id |
| `TodoList.WithoutKeepsOrder` | src/Todo.jsx:96 | deleting from a concatenation deletes from each part, so the remaining items keep their relative order |
| `TodoList.WithoutCounts` | src/Todo.jsx:96 | items with the deleted id lose all their occurrences and every other item keeps all of its occurrences |
| `TodoList.WithoutIdempotent` | src/Todo.jsx:96 | deleting the same id twice is deleting it once |
| `TodoList.WithoutAbsentId` | src/Todo.jsx:96 | deleting an id that no item has leaves the list equal to what it was |
| `Storage.LocalStorage.Lookup` | src/Todo.jsx:17 | `getItem` returns null exactly when the key is absent, and otherwise returns the stored entry |
| `Storage.LocalStorage.SetItem` | src/Todo.jsx:39 | `setItem` overwrites that one key and keeps every other key; a call that throws changes nothing |
| `Storage.LocalStorage.RemoveItem` | src/Todo.jsx:101 | `removeItem` makes the key absent and keeps every other key; a call that throws changes nothing |
| `Storage.LoadTodos` | src/Todo.jsx:15-25 | an absent key or an unloadable value gives the empty list, and a stored list is loaded as it is |
| `App.AfterWrite` | src/Todo.jsx:36-44 | after a write that succeeds the app's key holds the list; after one that throws the storage is unchanged; other keys are never touched |
| `App.TodoApp.Persisted` | src/Todo.jsx:36-44 | when the key holds the in-memory list, a fresh load gives that list back |
| `App.TodoApp.constructor` | src/Todo.jsx:15-29 | mounting loads the list from the key (the empty list when `getItem` throws), starts the input, the edit id and the draft empty, then the effect writes the loaded list back |
| `App.TodoApp.PersistTodos` | src/Todo.jsx:36-44 | the effect writes the whole list under the app's key, and a successful write leaves the storage matching the list |
| `App.TodoApp.SetNewTodo` | src/Todo.jsx:161 | the input binding sets `newTodo` and nothing else |
| `App.TodoApp.SetEditText` | src/Todo.jsx:194 | the edit binding sets `editText` and nothing else |
| `App.TodoApp.AddTodo` | src/Todo.jsx:46-59 | blank input changes neither the list, the input nor the storage. Otherwise one open item with the untrimmed input is appended after the unchanged earlier items, the input is cleared and the list is written. The edit state is untouched either way |
| `App.TodoApp.ToggleComplete` | src/Todo.jsx:61-71 | the list becomes its toggle by that id and is written; input and edit state are untouched |
| `App.TodoApp.StartEdit` | src/Todo.jsx:74-77 | the edit id and the draft become the item's id and text, replacing any open edit; the list is untouched |
| `App.TodoApp.SaveEdit` | src/Todo.jsx:79-93 | a blank draft leaves the list, the edit id and the storage unchanged. Otherwise the draft is written into the items with the edited id, the edit closes and the list is written. The draft itself is kept either way |
| `App.TodoApp.CancelEdit` | src/Todo.jsx:206 | cancelling clears the edit id only; the draft and the list are kept |
| `App.TodoApp.DeleteTodo` | src/Todo.jsx:95-97 | the list loses every item with that id and is written; the edit id and the draft are untouched even when the edited item is deleted |
| `App.TodoApp.ResetLocalStorage` | src/Todo.jsx:99-105 | a successful reset makes the key absent, so a fresh load gives the empty list; the component state, the in-memory list included, is unchanged |

## Left out

- The JSX markup, styling classes and icons (src/Todo.jsx:8, 107-246) are presentation. So is the rule that the reset button only shows when the list is non-empty (src/Todo.jsx:114).
- `Date.now()` and the `Date` string formatting are inputs. Ids and stamps are parameters, and ids are unbounded integers.
- `JSON.stringify` and `JSON.parse` are abstracted. A stored value is either a list of todos, loaded back as written, or `Malformed`. `Malformed` covers the empty string and text that does not parse. Text that parses to something other than a list of todos is not modelled.
- `console.error` logging is left out. A storage call that throws is modelled as a false `readOk`, `writeOk` or `removeOk` flag, which leaves the state as it was.
- React's scheduling and batching are modelled as one atomic step per handler. A handler that calls `setTodos` is followed by the write, even when the new array equals the old one, because the effect compares arrays by identity. The double mount in development mode is not modelled, and neither is `e.preventDefault()`.
