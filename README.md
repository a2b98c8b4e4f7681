# PixelTodoApp task-list state, in Dafny

This project models the in-memory state of the `PixelTodoApp` controller of the
ToDoCss browser client (`script.js`) and proves what each handler does to it.
The state is the task list `todos` (records `{id, title, description,
isCompleted}`), the current filter, and the ids held by the edit and delete
dialogs. The handlers are load, create, update (edit), delete, toggle-complete,
set-filter, and open/close/confirm for the two dialogs. There are also the two
pure views over the list: the filtered list and the three counters.

The network is not modelled. Each handler that calls the REST service takes the
call's `Outcome` as a parameter: `Success(payload)` for a 2xx response, or
`Failure` for anything the request wrapper rejects. A ghost field `requests`
keeps the requests the controller hands to the service, in order. This makes
"no request is made" a provable statement.

Files:

- `jstext.dfy`, module `JsText`: `String.prototype.trim`. It strips the
  ECMAScript WhiteSpace and LineTerminator code points from both ends.
- `sequences.dfy`, module `Sequences`: `Array.prototype.filter` as `Filter`,
  with lemmas that it keeps order (`IsSubsequence`), distributes over `+`, and
  splits a list by a predicate and its negation.
- `todos.dfy`, module `Todos`: the `Todo` record, lookup by id (`findIndex`),
  the merge of an edited record (`ReplaceFirst`), the toggle, deletion
  (`Without`), the filter views and the counters, with their lemmas.
- `app.dfy`, module `App`: the class `PixelTodoApp`. Each method's frame
  (`modifies this`field`) names exactly the fields its handler assigns, so
  "nothing else changes" follows from the frame.

Points where the code's behaviour is easy to misread:

- The delete dialog's confirm step runs only when the stored id is *truthy*, so
  a stored id of 0 is skipped (`ConfirmDelete`). It is not enough for an id to
  be set.
- The filter is any string taken from the button's `data-filter`. Every value
  other than `"completed"` and `"pending"` shows the whole list. The filter is
  not a three-valued enumeration.
- `updateTodo` merges the sent fields into the old record by spreading, and
  `toggleComplete` overwrites the record wholesale. With four-field records
  both leave exactly the sent record, so both are modelled as `ReplaceFirst`
  of the sent record.

## Model

| member | source | states |
|---|---|---|
| `JsText.TrimStart` | script.js:128 | the result is a suffix of the input, everything removed is whitespace, and the result does not start with whitespace |
| `JsText.TrimEnd` | script.js:128 | the result is a prefix of the input, everything removed is whitespace, and the result does not end with whitespace |
| `JsText.Trim` | script.js:128-129 | `trim()` returns the infix of the input left after removing the whitespace at both ends: every character outside it is whitespace, and a non-empty result has no whitespace at either end; so the result is empty exactly when the input is all whitespace (both directions) |
| `JsText.TrimIdempotent` | script.js:162-163 | trimming an already trimmed field changes nothing |
| `Sequences.Filter` | script.js:199 | `filter` keeps exactly the elements that satisfy the predicate (membership in both directions) and never lengthens the list |
| `Sequences.FilterIsSubsequence` | script.js:280-282 | what `filter` keeps stays in its original relative order |
| `Sequences.FilterAppend` | script.js:146 | filtering a list with a record appended is filtering the list, then the record |
| `Sequences.FilterKeepsAll` | script.js:199 | when every element satisfies the predicate, `filter` returns the list unchanged |
| `Sequences.FilterIdempotent` | script.js:199 | filtering twice with the same predicate is filtering once |
| `Sequences.FilterSplit` | script.js:302-303 | filtering by a predicate and by its negation puts each element on exactly one side, counting multiplicity, so the two lengths add up to the total |
| `Todos.IndexOf` | script.js:179 | `findIndex` by id returns the first index holding the id, or none exactly when no record holds it |
| `Todos.IndexOfSameIds` | script.js:224 | two lists with the same ids at every index give the same `findIndex` result, so after a first toggle (or merge) has changed the list, a second toggle (or merge) of the same id finds the same index |
| `Todos.ReplaceFirst` | script.js:179-182 | the merge of an edited record keeps the list's length and the id at every index |
| `Todos.ReplaceFirstAtIndex` | script.js:179-182 | `findIndex` followed by assignment at the found index equals the reference merge; the list is unchanged when no record has the id |
| `Todos.ReplaceFirstOnlyFirst` | script.js:179-182 | only the first record with the id is overwritten, by the sent record; every other index keeps its record |
| `Todos.ReplaceFirstIdempotent` | script.js:179-182 | merging the same edited record twice is merging it once |
| `Todos.ReplaceFirstKeepsUniqueIds` | script.js:181 | an edit keeps ids unique when they were unique before |
| `Todos.Flipped` | script.js:213-216 | the toggled copy has the same id, title and description and the negated completion flag |
| `Todos.Toggled` | script.js:209-227 | the list after a successful toggle has the same length and the same id at every index, and equals the old list when no record has the id |
| `Todos.ToggledKeepsUniqueIds` | script.js:226 | a toggle keeps ids unique when they were unique before |
| `Todos.ToggledChanges` | script.js:209-227 | a toggle keeps the length, does nothing for an absent id, and otherwise negates only the flag of the first record with the id |
| `Todos.ToggledTwice` | script.js:209-227 | toggling the same id twice restores the original list |
| `Todos.Without` | script.js:199 | after a delete no record has the id; the kept records plus the records with the id make up the old list as a multiset, so every other record remains with its multiplicity, in its original order; an absent id leaves the list unchanged |
| `Todos.WithoutIdempotent` | script.js:199 | deleting an id a second time changes nothing |
| `Todos.WithoutUndoesAppend` | script.js:146 | deleting a just-created record whose id was fresh gives back the list from before the create |
| `Todos.FilterKeepsUniqueIds` | script.js:199 | filtering keeps ids unique when they were unique before |
| `Todos.WithoutKeepsUniqueIds` | script.js:199 | a delete keeps ids unique when they were unique before |
| `Todos.AppendKeepsUniqueIds` | script.js:146 | appending the created record keeps ids unique exactly when its id is fresh (both directions) |
| `Todos.Filtered` | script.js:277-286 | the view of a filter is never longer than the list and holds exactly the list's records that the filter selects (both directions) |
| `Todos.FilteredSelects` | script.js:277-286 | the `completed` view holds exactly the completed records and the `pending` view exactly the others, each in original order; any other filter value gives the whole list; the two views together hold every record once |
| `Todos.CountStats` | script.js:300-303 | `total` is the list length, `completed <= total`, and `pending == total - completed` equals the number of records that are not completed |
| `Todos.CountStatsAppend` | script.js:146-148 | a created record raises `total` by one and raises `completed` or `pending` by one according to its flag |
| `App.CreatedRecord` | script.js:145 | the appended record is the one the create response carries, whether wrapped in `data` or bare |
| `App.PixelTodoApp.FilteredTodos` | script.js:277-286 | the rendered view holds exactly the records of `todos` that the current filter selects |
| `App.PixelTodoApp.Stats` | script.js:300-303 | the counters of the current list: `total` is its length, `completed <= total`, `pending` is the number of records not completed, and the two add up to `total` |
| `App.PixelTodoApp.constructor` | script.js:3-16 | starts with filter `"all"`, no dialog ids and an empty list, then runs the initial load: one GET request, and the list is the payload's array or else empty |
| `App.PixelTodoApp.LoadTodos` | script.js:108-121 | issues one GET; the list becomes `data` when it is an array, and becomes empty for any other payload and on failure |
| `App.PixelTodoApp.CreateTodo` | script.js:123-154 | a title that is empty after trimming sends nothing and changes nothing; otherwise one POST of the trimmed fields with `isCompleted` false; on success the returned record (`data`, or the bare response) is appended after the unchanged old list; on failure the list is unchanged |
| `App.PixelTodoApp.UpdateTodo` | script.js:156-191 | a title that is empty after trimming sends nothing and changes nothing; otherwise one PUT of `{id, title, description, isCompleted}` with trimmed texts; on success that record is merged into the first record with the id and the edit dialog's id is cleared; on failure the list and the dialog's id stay as they were |
| `App.PixelTodoApp.DeleteTodo` | script.js:193-207 | one DELETE of the id; on success every record with the id is removed and the delete dialog's id is cleared; on failure nothing else changes |
| `App.PixelTodoApp.ToggleComplete` | script.js:209-236 | an id no record holds sends nothing and changes nothing; otherwise one PUT of the flipped copy of the first record with the id; on success the list is the toggled list; on failure it is unchanged |
| `App.PixelTodoApp.SetFilter` | script.js:288-289 | the current filter becomes the given value, whatever string it is |
| `App.PixelTodoApp.OpenEditModal` | script.js:311-315 | stores the id only when some record holds it; otherwise the dialog state is unchanged |
| `App.PixelTodoApp.CloseEditModal` | script.js:327-331 | clears the edit dialog's id |
| `App.PixelTodoApp.OpenDeleteModal` | script.js:333-336 | stores the id unconditionally |
| `App.PixelTodoApp.CloseDeleteModal` | script.js:338-341 | clears the delete dialog's id |
| `App.PixelTodoApp.ConfirmDelete` | script.js:343-347 | with no stored id, or a stored id of 0, nothing happens; otherwise the effect is exactly that of deleting the stored id |
| `App.ToggleTwice` | script.js:209-236 | two successful toggles of an id some record holds issue exactly two update requests, the flipped record and then the original one, and leave the list as it was; for an absent id nothing is sent |

## Left out

- `apiRequest` and `fetch` (script.js:82-106): network I/O. The outcome of each call is a parameter, and the requests are recorded in the ghost field `requests`. The URL, headers and JSON encoding are not modelled beyond the request's kind, id and body.
- The loading indicator (`showLoading`/`hideLoading`) and the toasts (`showToast`, with its 3-second timer): presentation only. They hold no task-list state.
- `renderTodos`, `escapeHtml`, the DOM parts of `setFilter`, `updateStats` and the dialogs, and the form resets: these change the page, not the controller's state. The rendered view is `FilteredTodos()` and the counters are `Stats()`.
- Event wiring, keyboard shortcuts, the online/offline handlers and the error boundaries (script.js:18-79, 381-435): browser plumbing. The online handler's reload is `LoadTodos`.
- Interleaving of in-flight requests. The model runs each handler to completion with its outcome given. The source takes no measures against races.
- `parseInt` of the hidden id field (script.js:161): the id is taken as an integer. A `NaN` id, which matches no record, is not modelled.
- JavaScript numbers are doubles. Ids are modelled as unbounded integers.
- CreateTodo: only responses that yield a record are modelled (`{data: record}` or a bare record). A 204 with no body makes the source append `null`, a falsy `data` makes it append the wrapper object, and a truthy `data` that is not a record (a string, a number, an array) makes it append that value. The list holds only task records here.
- LoadTodos: an array whose elements are not task records is not modelled. Only arrays of task records are.
- The service's `description` is optional, but `Todo` always carries one. A record without a description cannot be represented. For such a record `toggleComplete`'s spread would send a body with no description, while the model always sends one.
- Records with fields beyond the four: the spread in `updateTodo` and `toggleComplete` would carry extra fields along. The model's records have exactly four fields.
- `setFilter` throws after assigning the filter when no button carries that filter value. The state change is modelled; the exception after it changes no state.
- Id uniqueness is not guaranteed by the source, since the service assigns ids. The model proves which operations keep ids unique (edit, toggle, delete, and create with a fresh id) instead of assuming uniqueness.
