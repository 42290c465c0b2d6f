# A verified model of the to-do list behind `scri.js`

`scri.js` is a browser to-do manager. Behind its DOM code sits a small store:

- an ordered array `tasks` of task records, copied to local storage after each change;
- the selected filter button (`all`, `active`, `completed`);
- the edit dialog: the recorded `currentEditTaskId` and whether the dialog is open.

This project models that store in Dafny, and what the page computes from it:

- the sorted and filtered list `renderAllTasks` draws;
- the counters `updateStats` writes;
- whether `checkEmptyState` shows the empty-state message.

It then proves the properties the application relies on.

Modules:

- `Text` (text.dfy): `String.prototype.trim` with ECMAScript's exact white-space and line-terminator set, ASCII `toLowerCase`, and `includes`.
- `Tasks` (tasks.dfy): the task record, priorities, and the `findIndex` look-up by id.
- `Mutations` (mutations.dfy): each store operation as a function on `seq<Task>`. These are the add, toggle, edit, delete and reorder functions, together with their lemmas. `WellFormed` (unique ids, trimmed non-empty texts) is proved to be preserved.
- `View` (view.dfy): the sort comparator and the key order it stands for. It holds a stable insertion sort (`Array.prototype.sort` is stable), the filter-button and search predicate, the projection, the counters and the empty-state predicate.
- `Store` (store.dfy): the class `TaskStore`. Its fields are the array, the storage slot, the filter and the dialog state. Each method changes them in place as the corresponding handler does. Each method that changes the list is proved to leave it equal to its counterpart in `Mutations`. `UpdateTaskOrder` keeps the source's loop.
- `Examples` (examples.dfy): concrete cases on three tasks. They cover sorting, each filter button, the search, and a blank add.

Three behaviours of the code worth knowing, which the model reproduces:

- `updateTaskOrder` keeps only the tasks whose ids are listed in the DOM order it reads. A task hidden by a filter or search is dropped, not kept in its earlier place.
- `JSON.parse` of a malformed stored value throws at start-up; it is not read as an empty list. The model's `Load` distinguishes only "nothing stored" from a stored list.
- `saveEditTask` returns early on `!currentEditTaskId`, so a recorded id of `0` counts as "no task being edited".

## Model

| member | source | states |
|---|---|---|
| Text.Trim | scri.js:84 | the trimmed text is empty exactly when the input is all white space; otherwise it begins and ends with a non-white-space character |
| Text.TrimIsSlice | scri.js:84 | what `trim` keeps is one contiguous run `s[i..j]` of the input, with only white space before `i` and after `j` |
| Text.TrimIdempotent | scri.js:84 | trimming an already trimmed text changes nothing |
| Text.ToLower | scri.js:220 | lower-casing keeps the length |
| Text.ToLowerIdempotent | scri.js:220 | lower-casing twice is lower-casing once |
| Text.Contains | scri.js:223-225 | `includes` holds exactly when the term occurs at some position of the text |
| Tasks.FindIndex | scri.js:237 | the result is -1 exactly when no task has the id; otherwise it is a position holding the id, and no earlier position does |
| Tasks.IdsOf | scri.js:452-453 | one id per task |
| Tasks.FindOwnId | scri.js:237 | with unique ids, looking up a task's own id finds that task's position |
| Tasks.FindIndexSameIds | scri.js:237 | the look-up depends only on the ids, position by position |
| Mutations.Added | scri.js:83-97 | a text that trims to nothing leaves the list as it was; otherwise exactly one task is appended, with the trimmed text, `completed = false` and the form's values, and the earlier tasks are unchanged |
| Mutations.AddPreservesWellFormed | scri.js:84-97 | adding under a fresh id keeps ids unique and texts trimmed and non-empty |
| Mutations.Toggled | scri.js:236-239 | the length is kept; only the first task with the id has its `completed` flipped, every other task is unchanged, and an unknown id changes nothing |
| Mutations.ToggleTwice | scri.js:236-239 | toggling the same id twice restores the list |
| Mutations.TogglePreservesWellFormed | scri.js:239 | toggling keeps the list well formed |
| Mutations.Edited | scri.js:283-292 | the length is kept; the first task with the id gets the trimmed text, due date, priority and category, and keeps its id, completion and creation time; all other tasks are unchanged; a blank text or an unknown id changes nothing |
| Mutations.EditIdempotent | scri.js:283-292 | saving the same dialog values twice equals saving them once |
| Mutations.EditPreservesWellFormed | scri.js:285-292 | editing keeps the list well formed |
| Mutations.Deleted | scri.js:317 | the result is no longer than the list and carries no task with the id |
| Mutations.DeletedMultiset | scri.js:317 | every task with the id is removed, and every other task stays exactly as often as it occurred |
| Mutations.DeleteConcat | scri.js:317 | deletion works piece by piece, so the survivors keep their relative order |
| Mutations.DeleteAbsent | scri.js:306-307 | deleting an id no task carries changes nothing |
| Mutations.DeleteIdempotent | scri.js:317 | deleting the same id again is a no-op |
| Mutations.DeleteUnique | scri.js:305-329 | with unique ids, deleting a present id removes exactly the task at its position, and the length drops by one |
| Mutations.DeletePreservesWellFormed | scri.js:317 | deleting keeps the list well formed |
| Mutations.Reordered | scri.js:447-460 | the new order holds at most as many tasks as ids are listed |
| Mutations.ReorderMembers | scri.js:451-460 | every task in the new order comes from the list and has a listed id, so a task whose id is not listed is dropped |
| Mutations.ReorderConcat | scri.js:451-457 | reordering by two id lists one after the other concatenates the results |
| Mutations.ReorderListed | scri.js:451-457 | when every listed id is in use, position `k` of the new order holds the first task carrying the `k`-th id |
| Mutations.ReorderFollowsIds | scri.js:451-460 | when every listed id is in use, the ids of the new order are exactly the listed ids, in the listed order |
| Mutations.ReorderOwnIds | scri.js:447-460 | with unique ids, reordering by the list's own ids gives the list back |
| Mutations.ReorderMultiset | scri.js:451-457 | the tasks gathered depend only on how often each id is listed, not on the order |
| Mutations.ReorderPermutation | scri.js:447-460 | for a list with unique ids and a permutation of its ids, the new order is a permutation of the list |
| Mutations.ReorderPreservesWellFormed | scri.js:447-460 | reordering by distinct ids keeps the list well formed |
| View.CompareMeansKeyOrder | scri.js:197-211 | the comparator is at most 0 exactly when the tasks are in key order: incomplete before completed, then priority rank high 0, medium 1, low 2, then due date. It is 0 exactly on equal keys and it is antisymmetric |
| View.InOrderTotalPreorder | scri.js:197-211 | the key order is total and transitive |
| View.InsertMultiset | scri.js:197 | one insertion step adds the task and loses nothing |
| View.InsertSorted | scri.js:197 | inserting into a sorted list leaves it sorted |
| View.Sort | scri.js:197-211 | the sorted list is a permutation of the list and is in key order |
| View.InsertStable | scri.js:197 | an inserted task goes before the tasks with its keys that it is inserted among |
| View.SortStable | scri.js:197-211 | tasks with equal keys keep their relative order through the sort |
| View.Visible | scri.js:214-230 | no more tasks are kept than the list holds, and every task kept passes the filter button and the search |
| View.VisibleFrom | scri.js:214-230 | every task kept comes from the list |
| View.VisibleMultiset | scri.js:214-230 | filtering keeps each passing task as often as it occurs and drops every other task |
| View.VisiblePermutation | scri.js:214-230 | filters of two permutations of each other are permutations of each other |
| View.VisibleSorted | scri.js:214-230 | filtering a sorted list leaves it sorted |
| View.VisibleConcat | scri.js:214-230 | filtering two lists joined is filtering each and joining, so kept tasks keep their relative order |
| View.VisibleWithKeys | scri.js:214-230 | picking the tasks with given keys and filtering give the same list in either order |
| View.ProjectStable | scri.js:193-230 | among tasks with equal keys, the drawn list shows those that pass the filter in their order in the list |
| View.Project | scri.js:193-232 | the drawn list is in key order, is a permutation of the tasks that pass the filter, and holds a task exactly when the list has it and it passes the filter |
| View.EmptySearchShowsAll | scri.js:216-229 | with the `all` filter and an empty search, every task is shown, sorted |
| View.VisibleKeepsAll | scri.js:216-229 | with the `all` filter and an empty search, filtering keeps the whole list |
| View.SearchIgnoresCase | scri.js:220-225 | a search term and its lower-case form show the same list |
| View.VisibleSameFilter | scri.js:220-225 | two search terms with the same lower-case form filter alike |
| View.CompletedCount | scri.js:343 | the number of completed tasks is at most the number of tasks |
| View.ComputeStats | scri.js:341-349 | total is the list length; completed lies between 0 and total; pending is total minus completed |
| View.StatsMatchFilters | scri.js:341-349 | completed is the number of tasks the `completed` button shows without a search, and pending the number the `active` button shows |
| View.StatsIgnoreOrder | scri.js:341-344 | the counters ignore the order of the list |
| View.EmptyStateShown | scri.js:351-376 | the message shows exactly when no task of the list passes the filter and the search |
| View.EmptyStateMatchesProjection | scri.js:351-376 | the message shows exactly when the drawn list is empty |
| Store.TaskStore.Load | scri.js:25-27 | start-up: the stored list, or the empty list when nothing is stored; filter `all`; no edit id |
| Store.TaskStore.AddTask | scri.js:83-98 | the array becomes `Added(...)`: unchanged and not saved for a blank text, otherwise one task appended and saved; well-formedness is kept under a fresh id |
| Store.TaskStore.ToggleTaskCompletion | scri.js:236-240 | the array becomes `Toggled(...)`; it is saved only when the id is found; well-formedness is kept |
| Store.TaskStore.OpenEditModal | scri.js:258-277 | for a known id: records it, opens the dialog and returns the task's text, due date, priority and category. An unknown id changes nothing |
| Store.TaskStore.CloseModal | scri.js:64-74 | the dialog is closed and nothing else changes |
| Store.TaskStore.SaveEditTask | scri.js:280-298 | when an edit id is recorded and non-zero, its task exists and the text is not blank: the array becomes `Edited(...)`, it is saved and the dialog closes. Otherwise nothing changes and the dialog stays as it was |
| Store.TaskStore.DeleteTask | scri.js:305-334 | the array becomes `Deleted(...)`; it is saved only when the id is found; well-formedness is kept |
| Store.TaskStore.UpdateTaskOrder | scri.js:447-462 | the loop builds `Reordered(tasks, domIds)`; the array becomes that and is saved; well-formedness is kept for distinct ids |
| Store.TaskStore.SelectFilter | scri.js:54-59 | the pressed button's filter becomes the current filter |
| Examples.SortExample | scri.js:197-211 | incomplete high, incomplete low, then completed: the comparator's order on three concrete tasks |
| Examples.ShowAllExample | scri.js:193-230 | no filter and no search shows the three tasks in that order |
| Examples.ActiveExample | scri.js:216 | the `active` button hides the completed task |
| Examples.CompletedExample | scri.js:217 | the `completed` button shows only the completed task |
| Examples.SearchMatches | scri.js:220-226 | the term "HIGH" matches the two high-priority tasks through their priority and nothing of the low one |
| Examples.SearchExample | scri.js:214-230 | searching "HIGH" shows both high-priority tasks, in sorted order |
| Examples.BlankAddExample | scri.js:84-85 | a text of spaces, tabs and a line break adds nothing |
| Examples.ReorderDropsHidden | scri.js:447-462 | with one incomplete and one completed task under the `active` button, only the incomplete task is drawn, the drag order names it alone, and the new list holds only it; the counters of the old list are 2, 1, 1 and those of the new list 1, 0, 1 |

## Left out

- Rendering: `renderTask`, the `innerHTML` and class changes, focus handling and event wiring are presentation only. `Rendered`, `Counters` and `EmptyState` on `TaskStore` give what the next full `renderAllTasks`, `updateStats` and `checkEmptyState` would draw from the current state. They are not necessarily what is on screen now.
- `updateTaskOrder` saves the new order but calls none of `renderAllTasks`, `updateStats` and `checkEmptyState`. After a drag that drops a task hidden by the filter or search, the counters on screen still count the dropped task. The list stays in drag order, not sorted, until the next full render. The model does not track the screen, so it does not capture these stale counters; `Examples.ReorderDropsHidden` shows a case where the counters of the list change.
- `addTask` draws only the new task, without re-sorting or re-filtering, until the next full render. The model does not track what is on screen.
- The 300 ms deferral in `deleteTask` is not modelled; only its eventual effect on the array is. The branch with no list item on screen has the same effect.
- Local storage and JSON: the storage slot is a snapshot of the array written after each successful change. Serialisation, and a `JSON.parse` failure on malformed data, are left out.
- Theme switching (`toggleTheme`, `updateThemeIcon`) is presentational.
- Drag geometry (`getDragAfterElement`, the drag handlers) depends on layout and floating point. `UpdateTaskOrder` takes the resulting DOM order of ids as its parameter, and `parseInt` of `data-id` is assumed to give back the number stored there.
- Dates: due dates are whole day numbers. `new Date(...)` parsing, an invalid date's `NaN` in the comparator, `toLocaleDateString` and the overdue/today marks are left out. `createdAt` is a string parameter.
- Ids: `Date.now()` becomes the `id` parameter of `AddTask`.
- Text.ToLower: only ASCII letters are mapped. JavaScript's full Unicode case mapping, including mappings that change the length, is not modelled.
- Form fields are not state here. `AddTask` takes the add form's values as a parameter, and `SaveEditTask` takes the edit dialog's values at the click. The reset of the add form after a successful add is not modelled: `addTask` clears the text and sets today's date, `medium` and `personal` (scri.js:101-106).
- Object identity: the source updates task objects in place. If two tasks ever share an id, `updateTaskOrder` can put the same object into the array twice, and a later edit then changes both entries. The model treats tasks as values.
- Mutations.Reordered: its own contract states only the length bound. What it gathers is stated by `ReorderMembers`, `ReorderListed` and `ReorderPermutation`.
