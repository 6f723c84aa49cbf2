/** The earlier revision of the task-list screen: a task array kept in
    the view model and changed in place by the model events. */
module ListViewModel {
  import opened Models
  import opened Sections
  import Service
  import EditViewModel
  import ListReactor

  /** The cell titles, one per task, in order. */
  function Titles(tasks: seq<Task>): (titles: seq<string>)
    ensures |titles| == |tasks|
    ensures forall i :: 0 <= i < |tasks| ==> titles[i] == tasks[i].title
  {
    if tasks == [] then [] else [tasks[0].title] + Titles(tasks[1..])
  }

  /** The list after `didUpdate(task)`: the first element with the task's
      id is replaced by it; without one, nothing changes. */
  function Updated(tasks: seq<Task>, task: Task): (r: seq<Task>)
    ensures |r| == |tasks|
    ensures IndexOf(tasks, task).None? ==> r == tasks
    ensures IndexOf(tasks, task).Some? ==> r[IndexOf(tasks, task).value] == task
    ensures forall j :: 0 <= j < |tasks| && Some(j) != IndexOf(tasks, task) ==> r[j] == tasks[j]
  {
    match IndexOf(tasks, task)
    case None => tasks
    case Some(k) => tasks[k := task]
  }

  /** The list after `didDelete(task)`: the first element with the task's
      id is removed; without one, nothing changes. */
  function Deleted(tasks: seq<Task>, task: Task): (r: seq<Task>)
    ensures IndexOf(tasks, task).None? ==> r == tasks
    ensures IndexOf(tasks, task).Some? ==>
      var k := IndexOf(tasks, task).value;
      && |r| == |tasks| - 1
      && (forall j :: 0 <= j < k ==> r[j] == tasks[j])
      && (forall j :: k <= j < |r| ==> r[j] == tasks[j + 1])
  {
    match IndexOf(tasks, task)
    case None => tasks
    case Some(k) => tasks[..k] + tasks[k + 1..]
  }

  /** Updating twice with the same task is updating once, and the task
      is then found where it was. */
  lemma UpdateIsIdempotent(tasks: seq<Task>, task: Task)
    ensures IndexOf(Updated(tasks, task), task) == IndexOf(tasks, task)
    ensures Updated(Updated(tasks, task), task) == Updated(tasks, task)
  {
    var r := Updated(tasks, task);
    if IndexOf(tasks, task).Some? {
      var k := IndexOf(tasks, task).value;
      assert r[k] == task;
      assert forall j :: 0 <= j < k ==> r[j].id != task.id;
    }
  }

  /** A delete takes exactly one task with the id out of the list. */
  lemma DeleteRemovesOne(tasks: seq<Task>, task: Task)
    requires IndexOf(tasks, task).Some?
    ensures multiset(Deleted(tasks, task)) + multiset{tasks[IndexOf(tasks, task).value]} == multiset(tasks)
  {
    var k := IndexOf(tasks, task).value;
    assert tasks == tasks[..k] + [tasks[k]] + tasks[k + 1..];
  }

  /** Creating a task with a fresh id and deleting it gives the list back. */
  lemma CreateThenDeleteRestores(tasks: seq<Task>, task: Task)
    requires IndexOf(tasks, task).None?
    ensures Deleted([task] + tasks, task) == tasks
  {
    assert IndexOf([task] + tasks, task) == Some(0);
  }

  /** Deleting a row through its task removes that row, as long as no
      earlier row has the same id. */
  lemma DeletingRowRemovesIt(tasks: seq<Task>, row: nat)
    requires row < |tasks|
    requires forall j :: 0 <= j < row ==> tasks[j].id != tasks[row].id
    ensures Deleted(tasks, tasks[row]) == tasks[..row] + tasks[row + 1..]
  {
    IndexOfFindsOwnRow(tasks, row);
  }

  /** Both revisions fold the model events into the rows alike: create
      inserts at the top, update and delete act on the first row with the
      id. */
  lemma AgreesWithReactor(state: ListReactor.State, task: Task)
    requires |state.sections| > 0
    ensures ListReactor.Rows(ListReactor.Apply(state, Service.Create(task))) == [task] + ListReactor.Rows(state)
    ensures ListReactor.Rows(ListReactor.Apply(state, Service.Update(task))) == Updated(ListReactor.Rows(state), task)
    ensures ListReactor.Rows(ListReactor.Apply(state, Service.Delete(task.id))) == Deleted(ListReactor.Rows(state), task)
  {
    var rows := ListReactor.Rows(state);
    ListReactor.CreateInsertsAtTop(state, task);
    match IndexOf(rows, task)
    case None =>
      ListReactor.AbsentIdChangesNothing(state, Service.Update(task));
      ListReactor.AbsentIdChangesNothing(state, Service.Delete(task.id));
    case Some(k) =>
      ListReactor.UpdateReplacesFirstMatch(state, task, k);
      ListReactor.DeleteRemovesFirstMatch(state, task.id, k);
  }

  class TaskListViewModel {
    const navigationBarTitle: string
    var tasks: seq<Task>

    /** `init()`: the screen is titled "Tasks" and lists the three
        default tasks, in order. */
    constructor(ids: Service.DefaultIds)
      ensures navigationBarTitle == "Tasks"
      ensures tasks == Service.DefaultTasks(ids)
    {
      navigationBarTitle := "Tasks";
      tasks := Service.DefaultTasks(ids);
    }

    /** `sections`: one section of cells, one per task, titled alike. */
    function CellSections(): (r: seq<Section<(), string>>)
      reads this
      ensures |r| == 1 && |r[0].items| == |tasks|
      ensures forall i :: 0 <= i < |tasks| ==> r[0].items[i] == tasks[i].title
    {
      [Section((), Titles(tasks))]
    }

    /** `itemDeleted`: the broadcast for the task at the row. */
    method ItemDeleted(row: nat) returns (event: EditViewModel.ModelEvent)
      requires row < |tasks|
      ensures event.DidDelete? && event.task == tasks[row]
    {
      event := EditViewModel.DidDelete(tasks[row]);
    }

    /** `itemDidSelect`: an edit screen on the row's task, opening with
        its title. */
    function SelectedMode(row: nat): (mode: EditMode)
      reads this
      requires row < |tasks|
      ensures mode == Edit(tasks[row])
      ensures EditViewModel.Open(mode) == EditViewModel.Opening("Edit", tasks[row].title)
    {
      Edit(tasks[row])
    }

    /** `addButtonDidTap`: an edit screen for a new task, opening empty. */
    function AddedMode(): (mode: EditMode)
      ensures mode.New? && EditViewModel.Open(mode) == EditViewModel.Opening("New", "")
    {
      New
    }

    /** The `Task.didCreate` handler. */
    method DidCreate(task: Task)
      modifies this
      ensures tasks == [task] + old(tasks)
    {
      tasks := [task] + tasks;
    }

    /** The `Task.didUpdate` handler. */
    method DidUpdate(task: Task)
      modifies this
      ensures tasks == Updated(old(tasks), task)
    {
      var index := IndexOf(tasks, task);
      if index.Some? {
        tasks := tasks[index.value := task];
      }
    }

    /** The `Task.didDelete` handler. */
    method DidDelete(task: Task)
      modifies this
      ensures tasks == Deleted(old(tasks), task)
    {
      var index := IndexOf(tasks, task);
      if index.Some? {
        tasks := tasks[..index.value] + tasks[index.value + 1..];
      }
    }

    /** A swipe-delete of a row followed by its broadcast removes the
        first task with that row's id, which is the row itself when no
        earlier row shares the id. */
    method DeleteRow(row: nat)
      requires row < |tasks|
      modifies this
      ensures tasks == Deleted(old(tasks), old(tasks[row]))
      ensures old(forall j :: 0 <= j < row ==> tasks[j].id != tasks[row].id) ==>
        tasks == old(tasks[..row] + tasks[row + 1..])
    {
      var event := ItemDeleted(row);
      if forall j :: 0 <= j < row ==> tasks[j].id != tasks[row].id {
        DeletingRowRemovesIt(tasks, row);
      }
      DidDelete(event.task);
    }
  }
}
