# RxTodo screen logic in Dafny

RxTodo is a small iOS to-do application with two screens:

- a task list, whose rows can be marked done, deleted, moved and edited;
- a task editor, which creates a task or renames one.

This project models the state logic of both screens, with the UI, the
reactive streams and the persistence calls taken out. It covers the two
revisions that coexist in the repository:

- The **reactor revision**. `TaskEditViewReactor` and `TaskListViewReactor`
  turn user actions into service requests and mutations, and fold those
  mutations into their state with a pure `reduce`.
- The **view-model revision**. `TaskEditViewModel` and `TaskListViewModel`
  state the same rules as derivations from the bound title, and keep an
  in-place task array.

Beneath both revisions the project models:

- the index-path helpers on arrays of table sections;
- the id-based lookup `indexOf(element:)`;
- the task service's `fetchTasks()` and `saveTasks(_:)`;
- the dictionary-backed key-value store they use.

Layout, one module per source file:

- `models.dfy` (`Models`): `Task`, the edit mode, and id lookup (`ModelType.swift`).
- `sections.dfy` (`Sections`): index-path get/set/insert/remove (`Array+SectionModel.swift`).
  Each mutating helper is a method that copies out the section's items,
  changes them and writes the section back. It is proved equal to a
  specification function, whose pointwise properties are its contract.
- `user_defaults.dfy` (`Defaults`): the mock key-value store, a class with a `store` map field.
- `task_service.dfy` (`Service`): fetch and save, and the task events and requests.
- `edit_reactor.dfy` (`EditReactor`): the edit screen's reactor.
  - `InitialState` and `Reduce` are pure.
  - The reactor class's `Mutate` returns the request made, the alert shown and the mutations yielded.
  - `Dispatch` runs one action through mutate and then reduces its mutations in order. This is the mutate-then-reduce pipeline of ReactorKit's `Reactor`, which both reactors subclass; `Architecture.swift` shows the same `scan`, folding `reduce` over the actions.
- `list_reactor.dfy` (`ListReactor`): the list screen's reactor.
  - `MutationFor` (`mutate(taskEvent:)`) and `IndexPathFor` are pure lookups.
  - `Reduce` edits a copy of the sections in place through the section helpers.
  - `Apply` folds one task event into the state.
  - The class holds `currentState`, with `Mutate`, `Dispatch` and `HandleTaskEvent`.
- `edit_view_model.dfy` (`EditViewModel`) and `list_view_model.dfy` (`ListViewModel`): the earlier revision.
  - Lemmas show it agrees with the reactor revision.

Behaviour worth knowing, as the code has it:

- Editing a task whose title is empty starts with `canSubmit == true` and an empty `taskTitle`. The flags are consistent with the typed title only after the first title update. `EditReactor.InitialStateConsistency` states exactly when a session starts consistent.
- The reactor's submit in edit mode sends `memo: nil`. The view model's done keeps the task's memo.
- Every lookup by id finds the first row with that id. No code checks that ids are unique. A row action therefore affects the first row with the selected row's id; the contracts say that this is the selected row itself when no earlier row has the same id.

## Model

| member | source | states |
|---|---|---|
| Models.IndexOfId | RxTodo/Sources/ViewControllers/TaskListViewReactor.swift:161 | A found index is in range and holds the id, and no earlier element has the id; the result is none exactly when no element has the id |
| Models.IndexOf | RxTodo/Sources/Models/ModelType.swift:21-23 | `indexOf(element:)`: the smallest index whose id equals the element's id, none exactly when no element has that id |
| Models.IndexOfComparesIdsOnly | RxTodo/Sources/Models/ModelType.swift:22 | Two elements with the same id are found at the same index, whatever their other fields |
| Models.IndexOfFindsOwnRow | RxTodo/Sources/Models/ModelType.swift:21-23 | The element of a row is found at that row when no earlier row shares its id |
| Sections.Get | RxTodo/Sources/Utils/Array+SectionModel.swift:13-16 | The getter gives the item at the path's position in the path's section |
| Sections.Rebuilt | RxTodo/Sources/Utils/Array+SectionModel.swift:37-46 | A section rebuilt from its original model with new items; the section count and every other section are kept |
| Sections.WithItem | RxTodo/Sources/Utils/Array+SectionModel.swift:17-21 | After the setter, the item at the path is the new value, every other valid path holds its old item, and all section counts and models are kept |
| Sections.WithInserted | RxTodo/Sources/Utils/Array+SectionModel.swift:24-28 | Insert grows the section by one and puts the item at the path; items before keep their place, items from the path on shift right by one; other sections are kept |
| Sections.WithRemoved | RxTodo/Sources/Utils/Array+SectionModel.swift:30-35 | Remove shrinks the section by one; items before keep their place, items after shift left by one; other sections are kept |
| Sections.SetItem | RxTodo/Sources/Utils/Array+SectionModel.swift:17-21 | The copy-assign-write-back setter gives exactly `WithItem` |
| Sections.Insert | RxTodo/Sources/Utils/Array+SectionModel.swift:24-28 | The in-place insert gives exactly `WithInserted` |
| Sections.Remove | RxTodo/Sources/Utils/Array+SectionModel.swift:30-35 | The in-place remove returns the item previously at the path and gives exactly `WithRemoved` |
| Sections.RemoveThenInsertRestores | RxTodo/Sources/Utils/Array+SectionModel.swift:24-35 | Removing at a path and inserting the removed item back at the same path restores the array |
| Sections.InsertThenRemoveRestores | RxTodo/Sources/Utils/Array+SectionModel.swift:24-35 | Inserting at a path and removing at that path restores the array, and the inserted item is the one at the path |
| Sections.MoveKeepsItems | RxTodo/Sources/ViewControllers/TaskListViewReactor.swift:152-155 | A remove followed by an insert of the removed item within one section keeps the section's items as a multiset |
| Defaults.Lookup | RxTodoTests/Sources/Mock/Services/MockUserDefaultsService.swift:14-16 | `value(forKey:)` gives the entry exactly when it is present and has the key's type, and nil otherwise |
| Defaults.MockUserDefaultsService.constructor | RxTodoTests/Sources/Mock/Services/MockUserDefaultsService.swift:12 | The store starts empty |
| Defaults.MockUserDefaultsService.Set | RxTodoTests/Sources/Mock/Services/MockUserDefaultsService.swift:18-24 | A value is stored under the key and read back; nil removes the key so that it reads nil; every other key keeps its presence and its value |
| Service.Encode | RxTodo/Sources/Services/TaskService.swift:46 | A task becomes a record with id, title and done flag; the record has a memo field exactly when the task has a memo |
| Service.Decode | RxTodo/Sources/Services/TaskService.swift:38 | A record decodes exactly when its id and title are text |
| Service.DecodeEncode | RxTodo/Sources/Services/TaskService.swift:38-46 | Decoding an encoded task gives the task back |
| Service.EncodeAll | RxTodo/Sources/Services/TaskService.swift:53 | One record per task, in order |
| Service.DecodeAll | RxTodo/Sources/Services/TaskService.swift:38 | Every record that decodes contributes its task and every task comes from a record that decodes; the result is never longer than the input; when every record decodes, the result is the decoded records position by position; with `DecodeAllAppend` and `DecodeAllOne` this fixes the result as the decoded records in order |
| Service.Fetch | RxTodo/Sources/Services/TaskService.swift:36-49 | After a fetch the task list is always present under its key; a store that already holds it is left as it is; no other key is touched |
| Service.Saved | RxTodo/Sources/Services/TaskService.swift:51-56 | After a save the key reads back exactly the encoded list; no other key is touched |
| Service.DecodeAllAppend | RxTodo/Sources/Services/TaskService.swift:38 | Decoding a concatenation is the concatenation of the decodings, so decoded records keep their order and multiplicity and failures are dropped in place, as `flatMap` does |
| Service.DecodeAllOne | RxTodo/Sources/Services/TaskService.swift:38 | One record gives its task when it decodes and nothing otherwise |
| Service.DecodeAllEncodeAll | RxTodo/Sources/Services/TaskService.swift:36-56 | A saved list is read back unchanged, in order |
| Service.FirstFetchSeedsDefaults | RxTodo/Sources/Services/TaskService.swift:41-48 | On a store without the task list, fetch gives the three default tasks, with their titles in order, not done and without memo, and writes their encoding under the key |
| Service.StoredFetchReadsBack | RxTodo/Sources/Services/TaskService.swift:37-39 | With a list stored under the key, fetch returns its decoded records and writes nothing |
| Service.SecondFetchReadsFirst | RxTodo/Sources/Services/TaskService.swift:36-49 | After any fetch the list is stored, and a later fetch returns the same tasks and leaves the store as it is |
| Service.FetchAfterSave | RxTodo/Sources/Services/TaskService.swift:51-56 | A fetch after a save returns exactly the saved tasks |
| Service.TaskService.FetchTasks | RxTodo/Sources/Services/TaskService.swift:36-49 | `fetchTasks()` returns the tasks of `Fetch` and leaves the store it describes, in which the task list is then present |
| Service.TaskService.SaveTasks | RxTodo/Sources/Services/TaskService.swift:51-56 | `saveTasks(_:)` overwrites the key with the encodings of exactly the given tasks and changes no other key |
| EditReactor.InitialState | RxTodo/Sources/ViewControllers/TaskEditViewReactor.swift:58-80 | New: "New", empty title, cannot submit; Edit(t): "Edit", t's title, can submit; never needs confirmation and is not dismissed |
| EditReactor.Reduce | RxTodo/Sources/ViewControllers/TaskEditViewReactor.swift:126-139 | A title update sets the typed title, keeps the screen title and the dismissal, and makes the flags agree with the typed title; dismiss sets the latch and changes nothing else |
| EditReactor.DismissalIsFinal | RxTodo/Sources/ViewControllers/TaskEditViewReactor.swift:126-139 | No sequence of mutations undoes a dismissal |
| EditReactor.ReduceAllKeepsConsistent | RxTodo/Sources/ViewControllers/TaskEditViewReactor.swift:129-133 | Once the flags agree with the typed title, every sequence of mutations keeps them so and keeps the screen title |
| EditReactor.DismissIsIdempotent | RxTodo/Sources/ViewControllers/TaskEditViewReactor.swift:135-137 | Dismissing twice is dismissing once |
| EditReactor.RestoringTitleClearsConfirmation | RxTodo/Sources/ViewControllers/TaskEditViewReactor.swift:132 | Typing the initial title back clears the need to confirm |
| EditReactor.InitialStateConsistency | RxTodo/Sources/ViewControllers/TaskEditViewReactor.swift:75-80 | A session starts with flags agreeing with its title exactly when it is new or edits a task with a non-empty title |
| EditReactor.TaskEditViewReactor.constructor | RxTodo/Sources/ViewControllers/TaskEditViewReactor.swift:71-81 | The reactor keeps the mode and starts in the mode's initial state |
| EditReactor.TaskEditViewReactor.Mutate | RxTodo/Sources/ViewControllers/TaskEditViewReactor.swift:83-124 | A title update yields only the title mutation; submit without `canSubmit` yields nothing; with it, it requests create(title) or update(task id, title) and yields dismiss; cancel dismisses at once when no confirmation is needed, otherwise shows the alert and dismisses only on leave |
| EditReactor.TaskEditViewReactor.Dispatch | RxTodo/Sources/Architecture.swift:43-57 | Mutate then reduce, as ReactorKit's `Reactor` pipeline runs it (the `scan` here folds only `reduce`): one action moves the current state to the reduction of its mutations: the title update's state, dismissed after an allowed submit or a confirmed cancel, unchanged otherwise |
| EditReactor.CanSubmitTraceForNewTask | RxTodoTests/Sources/Tests/TaskEditViewReactorTests.swift:62-81 | A new task cannot be submitted, can after typing "a", cannot after clearing it |
| EditReactor.CanSubmitTraceForEdit | RxTodoTests/Sources/Tests/TaskEditViewReactorTests.swift:83-102 | Editing "Test": can be submitted at once and after typing "a", cannot after clearing the title |
| EditReactor.ConfirmCancelTraceForNewTask | RxTodoTests/Sources/Tests/TaskEditViewReactorTests.swift:106-124 | A new task needs no confirmation, needs it after typing "a", not after clearing it |
| EditReactor.ConfirmCancelTraceForEdit | RxTodoTests/Sources/Tests/TaskEditViewReactorTests.swift:126-147 | Editing "TEST": no confirmation, then needed after "a" and after "", then not after "TEST" again |
| EditReactor.DismissalTraces | RxTodoTests/Sources/Tests/TaskEditViewReactorTests.swift:150-208 | An untouched cancel dismisses; after typing, stay keeps the screen and leave dismisses; submitting "a" requests create("a") and dismisses |
| ListReactor.Reduced | RxTodo/Sources/ViewControllers/TaskListViewReactor.swift:129-157 | Toggling flips only the editing flag; every other mutation keeps it; every mutation but setSections keeps the section count |
| ListReactor.Reduce | RxTodo/Sources/ViewControllers/TaskListViewReactor.swift:129-157 | The in-place reduction through the section helpers gives exactly `Reduced` |
| ListReactor.ToggleEditingTwice | RxTodo/Sources/ViewControllers/TaskListViewReactor.swift:136-138 | Toggling editing twice is the identity |
| ListReactor.IndexPathFor | RxTodo/Sources/ViewControllers/TaskListViewReactor.swift:159-167 | The path is in section 0, valid, and holds the first row with the id; none exactly when no row of section 0 has the id |
| ListReactor.MutationFor | RxTodo/Sources/ViewControllers/TaskListViewReactor.swift:91-127 | Create always yields a mutation; every other event yields none exactly when no row has its id |
| ListReactor.Apply | RxTodo/Sources/ViewControllers/TaskListViewReactor.swift:91-157 | An event never changes the editing flag, the section count or any section but the first |
| ListReactor.CreateInsertsAtTop | RxTodo/Sources/ViewControllers/TaskListViewReactor.swift:94-97 | A created task becomes row 0, followed by the old rows in order |
| ListReactor.AbsentIdChangesNothing | RxTodo/Sources/ViewControllers/TaskListViewReactor.swift:99-125 | An update, delete, move or mark for an id no row has leaves the state unchanged |
| ListReactor.UpdateReplacesFirstMatch | RxTodo/Sources/ViewControllers/TaskListViewReactor.swift:99-102 | An update replaces the first row with the task's id by the task, and keeps every other row |
| ListReactor.MarkSetsDoneFlag | RxTodo/Sources/ViewControllers/TaskListViewReactor.swift:113-125 | Marking done or undone sets the flag of the first row with the id, keeps the rest of that task, and keeps every other row |
| ListReactor.DeleteRemovesFirstMatch | RxTodo/Sources/ViewControllers/TaskListViewReactor.swift:104-106 | A delete removes the first row with the id and only it, so the row count drops by one |
| ListReactor.MoveRelocatesRow | RxTodo/Sources/ViewControllers/TaskListViewReactor.swift:108-111 | A move puts the first row with the id at the target index, and keeps the row count and the multiset of rows |
| ListReactor.MoveSwapsTwoRows | RxTodo/Sources/ViewControllers/TaskListViewReactor.swift:152-155 | Moving the first of two rows to index 1 swaps them |
| ListReactor.OnItemSelected | RxTodo/Sources/ViewControllers/TaskListViewController.swift:91-119 | Selecting a row toggles its done flag exactly when not editing, and opens the editor on its task when editing |
| ListReactor.TaskListViewReactor.constructor | RxTodo/Sources/ViewControllers/TaskListViewReactor.swift:43-49 | The list starts not editing, with one section and no rows |
| ListReactor.TaskListViewReactor.Mutate | RxTodo/Sources/ViewControllers/TaskListViewReactor.swift:51-81 | Refresh fetches and yields one section of the fetched tasks in order; toggle-editing yields the toggle; toggle-done requests markAsDone exactly when the row is not done, else markAsUndone; delete and move request the service by the row's id and yield no mutation; only refresh touches the store |
| ListReactor.TaskListViewReactor.Dispatch | RxTodo/Sources/Architecture.swift:43-57 | Mutate then reduce, as ReactorKit's `Reactor` pipeline runs it (the `scan` here folds only `reduce`): refresh replaces the sections by one section of the fetched tasks; toggle-editing flips the flag; row actions leave the state unchanged and return their request |
| ListReactor.TaskListViewReactor.HandleTaskEvent | RxTodo/Sources/ViewControllers/TaskListViewReactor.swift:83-89 | A task event moves the current state to `Apply` of it |
| ListReactor.TaskListViewReactor.ReactorForCreatingTask | RxTodo/Sources/ViewControllers/TaskListViewReactor.swift:169-171 | A new edit reactor in new mode, in its initial state |
| ListReactor.TaskListViewReactor.ReactorForEditingTask | RxTodo/Sources/ViewControllers/TaskListViewReactor.swift:173-176 | A new edit reactor editing the row's task, in its initial state |
| ListReactor.ToggleRowAndEcho | RxTodo/Sources/ViewControllers/TaskListViewReactor.swift:64-70 | Toggling a row and folding in the event it requests gives the first row with that row's id the opposite of the selected row's flag and changes nothing else; when no earlier row shares the id, exactly the selected row flips |
| ListReactor.ToggleDoneTrace | RxTodo/Sources/ViewControllers/TaskListViewReactor.swift:113-125 | On the default tasks, toggling rows 0, 0 and 2 gives the done flags FFF, TFF, FFF, FFT |
| ListReactor.EndToEndScenario | RxTodoTests/Sources/Tests/TaskListViewReactorTests.swift:19-33 | A refresh on an empty store shows three rows, which is all the live test checks; the later steps follow the delete code (lines 72-74 and 104-106 of TaskListViewReactor.swift) and the mark-as-done code (lines 64-70 and 113-118), whose tests are commented out: deleting row 0 leaves two, and toggling the new row 0 marks it done |
| EditViewModel.Open | RxTodo/Sources/ViewControllers/TaskEditViewModel.swift:63-72 | New opens as "New" with an empty title; Edit(t) opens as "Edit" with t's title |
| EditViewModel.OpenAgreesWithReactor | RxTodo/Sources/ViewControllers/TaskEditViewModel.swift:63-72 | The view model opens with the reactor's initial screen title and task title |
| EditViewModel.DoneButtonEnabled | RxTodo/Sources/ViewControllers/TaskEditViewModel.swift:74-77 | The done button is enabled exactly when the title is not empty |
| EditViewModel.NeedsPresentCancelAlert | RxTodo/Sources/ViewControllers/TaskEditViewModel.swift:79-86 | Cancel needs the alert exactly when the title differs from the one the screen opened with |
| EditViewModel.DoneEvent | RxTodo/Sources/ViewControllers/TaskEditViewModel.swift:99-111 | Done broadcasts a created task with a fresh id, the title, no memo and not done; or the edited task with only its title changed |
| EditViewModel.React | RxTodo/Sources/ViewControllers/TaskEditViewModel.swift:74-114 | The alert, always with its fixed content, appears exactly on a cancel that needs it; an event appears exactly on a done with a non-empty title; the screen is dismissed exactly on leave, on an enabled done, or on a cancel needing no alert |
| EditViewModel.DismissalRules | RxTodo/Sources/ViewControllers/TaskEditViewModel.swift:113-114 | A cancel showing the alert does not dismiss; done dismisses exactly when it broadcasts; leave dismisses and stay does not |
| EditViewModel.EditedTaskIsFoundInPlace | RxTodo/Sources/ViewControllers/TaskListViewModel.swift:98-104 | The updated task of an edit is found where the original task was, whatever the new title |
| EditViewModel.AgreesWithReactor | RxTodo/Sources/ViewControllers/TaskEditViewReactor.swift:129-133 | After a title is typed, the reactor's `canSubmit` and `shouldConfirmCancel` equal the view model's done-enabled and alert-needed, and done and cancel dismiss in both revisions alike |
| ListViewModel.Titles | RxTodo/Sources/ViewControllers/TaskListViewModel.swift:59-64 | One cell title per task, equal to the task's title, in order |
| ListViewModel.Updated | RxTodo/Sources/ViewControllers/TaskListViewModel.swift:98-104 | The first task with the id is replaced and every other task is kept; nothing changes when the id is absent; the length never changes |
| ListViewModel.Deleted | RxTodo/Sources/ViewControllers/TaskListViewModel.swift:106-112 | The first task with the id is removed and the rest close up in order; nothing changes when the id is absent |
| ListViewModel.UpdateIsIdempotent | RxTodo/Sources/ViewControllers/TaskListViewModel.swift:98-104 | An updated task is found where it was, and updating again changes nothing |
| ListViewModel.DeleteRemovesOne | RxTodo/Sources/ViewControllers/TaskListViewModel.swift:106-112 | A delete takes exactly one task with the id out of the multiset of tasks |
| ListViewModel.CreateThenDeleteRestores | RxTodo/Sources/ViewControllers/TaskListViewModel.swift:92-112 | Creating a task with a fresh id and deleting it gives the list back |
| ListViewModel.DeletingRowRemovesIt | RxTodo/Sources/ViewControllers/TaskListViewModel.swift:106-112 | Deleting through a row's task removes that row when no earlier row shares its id |
| ListViewModel.AgreesWithReactor | RxTodo/Sources/ViewControllers/TaskListViewReactor.swift:91-157 | The reactor folds create, update and delete events into its rows exactly as the view model's handlers change its array |
| ListViewModel.TaskListViewModel.constructor | RxTodo/Sources/ViewControllers/TaskListViewModel.swift:50-58 | The screen is titled "Tasks" and the list starts with the three default tasks in order |
| ListViewModel.TaskListViewModel.CellSections | RxTodo/Sources/ViewControllers/TaskListViewModel.swift:59-64 | One section with one cell per task, titled as the task, in order |
| ListViewModel.TaskListViewModel.ItemDeleted | RxTodo/Sources/ViewControllers/TaskListViewModel.swift:67-72 | Deleting a row broadcasts a delete of exactly the task at that row |
| ListViewModel.TaskListViewModel.SelectedMode | RxTodo/Sources/ViewControllers/TaskListViewModel.swift:80-84 | Selecting a row opens the editor on its task, showing "Edit" and its title |
| ListViewModel.TaskListViewModel.AddedMode | RxTodo/Sources/ViewControllers/TaskListViewModel.swift:77-78 | The add button opens the editor for a new task, showing "New" and an empty title |
| ListViewModel.TaskListViewModel.DidCreate | RxTodo/Sources/ViewControllers/TaskListViewModel.swift:92-96 | A created task is inserted at index 0 |
| ListViewModel.TaskListViewModel.DidUpdate | RxTodo/Sources/ViewControllers/TaskListViewModel.swift:98-104 | The array becomes `Updated` of the old array |
| ListViewModel.TaskListViewModel.DidDelete | RxTodo/Sources/ViewControllers/TaskListViewModel.swift:106-112 | The array becomes `Deleted` of the old array |
| ListViewModel.TaskListViewModel.DeleteRow | RxTodo/Sources/ViewControllers/TaskListViewModel.swift:67-72 | A row deletion followed by its broadcast removes the first task with that row's id, which is exactly that row when no earlier row shares the id |

## Left out

- Views, cells, navigation and app start-up: UIKit layout and binding with no state logic of their own. The one rule they hold is the row-selection guard, which `ListReactor.OnItemSelected` states.
- Reactive streams and schedulers (`Architecture.swift`, the Rx and dependency-injection glue). Each action is processed atomically, in dispatch order, and concurrency is not modelled. `Dispatch` is the left fold of mutate and reduce.
- Task ids: the app draws them from UUIDs. Here they are parameters: `newId` for a created task, and `DefaultIds` for the seeded tasks.
- The service operations create, update, delete, move, markAsDone and markAsUndone are not part of this model, because their code is not shown. The screens' calls to them are returned as `TaskRequest` values. The scenarios feed back by hand the event each request is answered with.
- EditReactor.TaskEditViewReactor.Mutate: assumes a create or update request completes with exactly one value, so a submit yields one dismissal.
- `Task.init(dictionary:)` and `asDictionary()` are not part of this model. `Service.Encode` and `Service.Decode` are a record format of this model's own. The stored-list round trip is proved about that format, not about the app's.
- `UserDefaultsKey.swift` is not part of this model. The task list's key is taken to be named "tasks".
- Row wrappers (`TaskCellReactor`, `TaskCellModel`): a row is its `Task` value.
- The alert service's presentation: its answer (leave, stay or none) is an input, as the mock alert service supplies it.
- EditViewModel.React: `doneButtonEnabled` first emits `false` (`startWith(false)`) before the title's value. The model uses the settled value, `title != ""`. The `memo` input is never read by the source and is not modelled.
- `TaskService.add(event:)` only forwards a stream. The older event enum in `TaskService.swift` is superseded by the reactor's event names, which the model uses.
- String comparison (titles, ids) is equality of code-point sequences, not Swift's comparison by Unicode canonical equivalence. For example, a title "é" written as one code point and retyped as "e" plus a combining accent counts as changed here and as unchanged in Swift.
- Out-of-range index paths trap in Swift. Here they are preconditions: `ValidPath`, `ValidInsertPath`, `ActionInRange` and `Applies`.
