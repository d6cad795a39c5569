# TODO list view-models

A model of the list/add-entry view-models of a small Android TODO app, with
proofs about them. The model covers two versions of the view-model: the
current one and an older one. Each holds the pending new-item text and the
search text. Each derives the visible list from the stored items and the
query. Each submits the pending text as a new stored item.

- `todos.dfy` (module `Todos`): the stored `Todo` record and the table it
  lives in. The table is a sequence of rows in insertion order. An insert
  appends one row whose key is one more than the largest key present, so
  the first key is 1. This is how an auto-increment key behaves when no row
  is ever deleted, and the code never deletes a row.
- `search.dfy` (module `Search`): the Kotlin `indexOf`/`contains`/`equals`
  string operations, with and without `ignoreCase`. It also holds the list
  filter and the `todoList` combine lambda, `VisibleList`: an empty query
  passes the list through, any other query filters it.
- `viewmodel.dfy` (module `ViewModel`, class `TodoViewModel`): the current
  view-model. It validates the pending text and has a one-shot error
  message. Its search is debounced and ignores case.
- `legacy_viewmodel.dfy` (module `LegacyViewModel`, class `TodoViewModel`):
  the older view-model. It has no validation and no error path. Its search
  uses the query as typed and matches case.

Coroutines and the debounce become explicit steps that a caller runs in any
order their preconditions allow:

- `AddTodo` is `addTodo` up to its `launch`. In the current view-model,
  `RunLaunched` may follow at once, when the main-thread dispatcher runs the
  launched body immediately, or later, when a queued dispatcher defers it.
  The contracts hold under both schedules. In the older view-model the
  launched body starts with `delay(3000)`, so its `RunLaunched` always runs
  after `addTodo` has returned.
- In the current view-model the launched body is split at its `delay(3000)`:
  - `RunLaunched` runs the reserved-input check and raises the in-progress flag.
  - `ResumeAfterDelay` runs the insert, lowers the flag and calls the callback.
- In the older view-model the body runs as one step, `RunLaunched`.
- `SettleDebounce` is the end of the 2000 ms quiet period. It copies the
  typed query into the debounced query.

The fields `launched` and `suspended` count the coroutines at each stage.
The field `completedCalls` counts the `onComplete` calls. Each class's
`Valid()` invariant ties these counts to the number of submissions that
launched work. So every accepted submission calls its callback exactly once
when it finishes. The invariant also says the in-progress flag is up only
while an insert is pending.

The launched body reads `_todo.value` when it runs, not when `addTodo` is
called. The model does the same: the reserved-input check and the insert
use the pending text as it is at that step. In the current view-model, the
reserved input is rejected before the in-progress flag is raised. So on that
path the flag is lowered but never raised.

## Model

| member | source | states |
|---|---|---|
| `Todos.Insert` | data/src/main/java/com/todo/data/dao/TodoDao.kt:12-13 | An insert appends exactly one row. The row carries the given description and a positive key above every existing key. All earlier rows are kept in order. |
| `Todos.MaxId` | data/src/main/java/com/todo/data/model/Todo.kt:8 | The largest key is non-negative, bounds every key in the table and is either 0 or the key of some row. `Insert` gives the next row this value plus one. |
| `Todos.InsertPreservesWellFormed` | data/src/main/java/com/todo/data/model/Todo.kt:8 | Inserting keeps every key positive, unique and ascending in insertion order. |
| `Todos.InsertAddsExactlyOne` | data/src/main/java/com/todo/data/dao/TodoDao.kt:12-13 | The table after an insert is the old table plus exactly one new record. That record was not already in the table. |
| `Search.FoldAscii` | feature/src/main/java/com/todo/feature/viewmodel/TodoViewModel.kt:43 | The folded character is never an ASCII upper-case letter. It is a lower-case letter exactly when the input was an ASCII letter of either case. |
| `Search.FoldAsciiLetterPair` | feature/src/main/java/com/todo/feature/viewmodel/TodoViewModel.kt:43 | Both cases of an ASCII letter fold to its lower-case form, so a case-insensitive comparison treats them as equal. |
| `Search.LowerIdempotent` | feature/src/main/java/com/todo/feature/viewmodel/TodoViewModel.kt:43 | Lowering an already lowered string changes nothing. |
| `Search.IndexOf` | feature/src/main/java/com/todo/feature/viewmodel/TodoViewModel.kt:43 | Kotlin's `indexOf` gives the first index where the query occurs, or -1 exactly when it occurs nowhere. |
| `Search.Contains` | feature/src/main/java/com/todo/feature/TodoViewModel.kt:38 | `contains` is `indexOf >= 0`. When it holds, the query occurs at the index `indexOf` reports and is no longer than the description. `ContainsIffOccurs` states the full equivalence with an occurrence at some index. |
| `Search.EqualsIgnoreCase` | feature/src/main/java/com/todo/feature/viewmodel/TodoViewModel.kt:63 | `equals(ignoreCase = true)` holds exactly when the two lowered strings are equal. |
| `Search.MatchesFromStartIsLoweredEqual` | feature/src/main/java/com/todo/feature/viewmodel/TodoViewModel.kt:63 | Two equal-length strings match from index 0 ignoring case exactly when their lowered forms are equal. |
| `Search.IndexOfFrom` | feature/src/main/java/com/todo/feature/viewmodel/TodoViewModel.kt:43 | The result is the first index at or after the start where the query occurs, or -1 exactly when there is no such index. |
| `Search.ContainsIffOccurs` | feature/src/main/java/com/todo/feature/viewmodel/TodoViewModel.kt:43 | `contains` holds if and only if the query occurs at some index of the description. |
| `Search.ContainsEmpty` | feature/src/main/java/com/todo/feature/viewmodel/TodoViewModel.kt:40-43 | Every description contains the empty query. |
| `Search.MatchesAtIgnoreCaseIsLowered` | feature/src/main/java/com/todo/feature/viewmodel/TodoViewModel.kt:43 | A case-insensitive match at an index is the same as a case-sensitive match of the ASCII-lowered strings. |
| `Search.ContainsIgnoreCaseIsLowered` | feature/src/main/java/com/todo/feature/viewmodel/TodoViewModel.kt:43 | `contains(ignoreCase = true)` holds if and only if the lowered query occurs in the lowered description. |
| `Search.ContainsSensitiveImpliesInsensitive` | feature/src/main/java/com/todo/feature/TodoViewModel.kt:38 | Every case-sensitive match is also a case-insensitive match. |
| `Search.EqualsErrorIgnoreCase` | feature/src/main/java/com/todo/feature/viewmodel/TodoViewModel.kt:63 | The reserved-input test accepts a text if and only if the text lowers to "error". |
| `Search.Filter` | feature/src/main/java/com/todo/feature/viewmodel/TodoViewModel.kt:43 | `todos.filter { … }` keeps no more items than it is given, and every kept item is stored and matches. `FilterIsSubsequence`, `FilterMembership` and `FilterMultiplicity` state order, membership and multiplicity in full. It is used by both view-models, for the older one at feature/src/main/java/com/todo/feature/TodoViewModel.kt:38. |
| `Search.VisibleList` | feature/src/main/java/com/todo/feature/viewmodel/TodoViewModel.kt:39-44 | The combine lambda keeps no more items than are stored and shows only stored items. `VisibleListSpec` states its full result. It is shared with the older view-model's lambda at feature/src/main/java/com/todo/feature/TodoViewModel.kt:34-39. |
| `Search.FilterIsSubsequence` | feature/src/main/java/com/todo/feature/viewmodel/TodoViewModel.kt:43 | The filtered list is an order-preserving sublist of the stored list. |
| `Search.FilterMembership` | feature/src/main/java/com/todo/feature/viewmodel/TodoViewModel.kt:43 | An item is in the filtered list if and only if it is stored and its description contains the query. |
| `Search.FilterMultiplicity` | feature/src/main/java/com/todo/feature/viewmodel/TodoViewModel.kt:43 | A matching item appears as often as it is stored. A non-matching item does not appear at all. |
| `Search.FilterAppend` | feature/src/main/java/com/todo/feature/viewmodel/TodoViewModel.kt:43 | Filtering a concatenation gives the concatenation of the filtered parts. |
| `Search.FilterAllMatch` | feature/src/main/java/com/todo/feature/viewmodel/TodoViewModel.kt:40-44 | When every stored item matches, the filter returns the stored list unchanged. |
| `Search.VisibleListIsFilter` | feature/src/main/java/com/todo/feature/viewmodel/TodoViewModel.kt:39-44 | The empty-query branch of the combine lambda gives the same list as filtering by the empty query would. |
| `Search.VisibleListSpec` | feature/src/main/java/com/todo/feature/viewmodel/TodoViewModel.kt:39-44 | An empty query gives the stored list. Any query gives an order-preserving sublist. That sublist holds exactly the matching stored items, each as often as it is stored. |
| `Search.VisibleListAfterInsert` | feature/src/main/java/com/todo/feature/viewmodel/TodoViewModel.kt:38-45 | After an insert, the visible list is the old visible list, plus the new item at the end when it matches. |
| `Search.SensitiveFilterWithinInsensitive` | feature/src/main/java/com/todo/feature/TodoViewModel.kt:34-39 | The older, case-sensitive filter shows an order-preserving sublist of what the current, case-insensitive filter shows. |
| `ViewModel.TodoViewModel.TodoList` | feature/src/main/java/com/todo/feature/viewmodel/TodoViewModel.kt:26-27 | The list is computed from the debounced query, ignoring case. An empty debounced query gives the table unchanged. Otherwise it is an order-preserving sublist that holds exactly the matching items, each as often as it is stored. |
| `ViewModel.TodoViewModel.constructor` | feature/src/main/java/com/todo/feature/viewmodel/TodoViewModel.kt:20-36 | Initially the pending text and both queries are empty. The error message is absent, both flags are down and no work is pending. |
| `ViewModel.TodoViewModel.OnTodoValueChange` | feature/src/main/java/com/todo/feature/viewmodel/TodoViewModel.kt:47-49 | Sets the pending text. The frame allows no other field to change. |
| `ViewModel.TodoViewModel.ClearErrorEvent` | feature/src/main/java/com/todo/feature/viewmodel/TodoViewModel.kt:51-53 | The error message is absent afterwards, whatever it was. No other field changes. |
| `ViewModel.TodoViewModel.SetSearchQuery` | feature/src/main/java/com/todo/feature/viewmodel/TodoViewModel.kt:55-57 | Sets the typed query at once. The visible list stays the same until the debounce settles. |
| `ViewModel.TodoViewModel.SettleDebounce` | feature/src/main/java/com/todo/feature/viewmodel/TodoViewModel.kt:26-27 | Once the debounce settles, the list uses the last typed query. |
| `ViewModel.TodoViewModel.ValidationSuccess` | feature/src/main/java/com/todo/feature/viewmodel/TodoViewModel.kt:80-84 | Succeeds if and only if the pending text is non-empty. The validation flag is set to the opposite. |
| `ViewModel.TodoViewModel.AddTodo` | feature/src/main/java/com/todo/feature/viewmodel/TodoViewModel.kt:59-61 | Empty text raises the validation flag and launches nothing. Non-empty text lowers the flag and launches one submission. `AddTodo` itself inserts nothing, raises no in-progress flag and calls no callback; the launched body is `RunLaunched`, which may run at once or later. |
| `ViewModel.TodoViewModel.RunLaunched` | feature/src/main/java/com/todo/feature/viewmodel/TodoViewModel.kt:62-74 | For the reserved input, the flag ends down, the message is "Failed to add TODO" and the callback runs once. Otherwise the flag goes up and the submission waits for its insert. The table does not change. |
| `ViewModel.TodoViewModel.ResumeAfterDelay` | feature/src/main/java/com/todo/feature/viewmodel/TodoViewModel.kt:67-75 | Inserts the pending text once, or sets the message when the database fails. Either way the flag ends down and the callback runs once. |
| `ViewModel.SubmitOnFreshViewModel` | feature/src/test/java/com/todo/feature/TodoViewModelTest.kt:65-94 | From a fresh view-model: empty text is rejected with the flag and no callback. The reserved input leaves the table alone, sets the message and calls back once. Any other text inserts exactly one record with that text and calls back once. The in-progress flag always ends down. |
| `ViewModel.SearchBurstOnFreshViewModel` | feature/src/main/java/com/todo/feature/viewmodel/TodoViewModel.kt:26-27 | Before the debounce settles, the list is unfiltered. Afterwards, after two queries in a row, the list holds exactly the items matching the last query, in stored order. |
| `ViewModel.FilteringExample` | feature/src/test/java/com/todo/feature/TodoViewModelTest.kt:97-117 | "Test" over "Test1", "Another Test" and "Sample" gives the first two items. |
| `ViewModel.IgnoresCaseExample` | feature/src/main/java/com/todo/feature/viewmodel/TodoViewModel.kt:43 | "test" finds "Test1" when case is ignored. |
| `LegacyViewModel.TodoViewModel.TodoList` | feature/src/main/java/com/todo/feature/TodoViewModel.kt:33-40 | The list is computed from the typed query with no debounce, matching case. An empty query gives the table unchanged. Otherwise it holds exactly the matching items, in order, each as often as it is stored. |
| `LegacyViewModel.TodoViewModel.constructor` | feature/src/main/java/com/todo/feature/TodoViewModel.kt:24-31 | Initially the pending text and the query are empty and the in-progress flag is down. |
| `LegacyViewModel.TodoViewModel.OnTodoValueChange` | feature/src/main/java/com/todo/feature/TodoViewModel.kt:43-45 | Sets the pending text and nothing else. |
| `LegacyViewModel.TodoViewModel.SetSearchQuery` | feature/src/main/java/com/todo/feature/TodoViewModel.kt:47-49 | Sets the query. The visible list is at once filtered by the new query. |
| `LegacyViewModel.TodoViewModel.AddTodo` | feature/src/main/java/com/todo/feature/TodoViewModel.kt:51-53 | Raises the in-progress flag synchronously and launches one submission, with no validation. |
| `LegacyViewModel.TodoViewModel.RunLaunched` | feature/src/main/java/com/todo/feature/TodoViewModel.kt:53-58 | Inserts exactly one record with the pending text, even empty text. Then lowers the flag and calls the callback once. |
| `LegacyViewModel.SubmitOnFreshViewModel` | feature/src/main/java/com/todo/feature/TodoViewModel.kt:51-58 | From a fresh view-model, the flag is up until the work runs. Then exactly one record with the text is inserted, even empty text. The flag is down and the callback has run once. |
| `LegacyViewModel.SearchOnFreshViewModel` | feature/src/main/java/com/todo/feature/TodoViewModel.kt:33-49 | The list follows the query as soon as it is set. It holds exactly the stored items that contain the query case-sensitively, in order. |
| `LegacyViewModel.MatchesCaseExample` | feature/src/main/java/com/todo/feature/TodoViewModel.kt:38 | "test" finds none of "Test1", "Another Test" and "Sample" when case matters. |

## Left out

- Search.FoldAscii: folds only ASCII letters, while Kotlin's `ignoreCase` compares full Unicode upper and lower cases. Every case-insensitive contract is therefore stated for ASCII folding only.
- Reactive observation is not modelled: `StateFlow`, `mutableStateOf`, `SharingStarted.Lazily` and the empty list `todoList` shows before its first emission. The visible list is a function of the current fields.
- Timing is not modelled: `delay(3000)`, the 2000 ms debounce and coroutine dispatch become the explicit steps described above. The debounce is "settles to the last typed query". A burst of queries therefore settles once, on the last value.
- The database is not modelled: SQL, the REPLACE conflict strategy, which never triggers because keys are generated, and live-query emission. `SELECT *` is taken to return rows in insertion order. Keys are unbounded integers rather than 64-bit.
- Failures after the delay appear only as the `insertFails` parameter of the current view-model's `ResumeAfterDelay`. That parameter covers both the database throwing and the cancellation exception that `delay` or the suspending insert throws when the view-model's scope is cancelled; the `catch (e: Exception)` handles both the same way. In the older view-model an insert failure is uncaught: the coroutine ends, `_addTodoInProgress` stays true, `onComplete` is never called, and the exception goes to the scope's uncaught-exception handler. That path is not modelled, so the older class's `Valid()` promises a callback for every submission, which the source does not make when the insert fails. Cancellation of the older view-model's scope also ends its launched body with the flag up and no callback; the model covers that only as `RunLaunched` never running.
- The `onComplete` callback is counted, not run. A callback that throws inside the `try` block would re-enter the `catch` block, and that path is not modelled.
- Other writers to the same table, for example another screen's view-model, are not modelled. Only this view-model's inserts change `store`.
- The Compose screens, navigation, dependency injection and the placeholder screens contain no logic beyond display and wiring, so they are not part of this model.
