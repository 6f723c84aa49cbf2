/** The task entity shared by every screen, and the id-based lookup
    that every list update relies on. */
module Models {

  datatype Option<T> = None | Some(value: T)

  /** A to-do item. The id is fixed when the task is created (the app
      draws it from a UUID; here the caller supplies it). */
  datatype Task = Task(id: string, title: string, memo: Option<string>, isDone: bool)

  /** The mode of an edit session: a new task, or an existing one.
      Both revisions of the edit screen declare this same enum. */
  datatype EditMode = New | Edit(task: Task)

  /** Position of the first task whose id is `id`, or None when no task
      has that id. */
  function IndexOfId(tasks: seq<Task>, id: string): (r: Option<nat>)
    ensures r.Some? ==> r.value < |tasks| && tasks[r.value].id == id
    ensures r.Some? ==> forall j :: 0 <= j < r.value ==> tasks[j].id != id
    ensures r.None? <==> forall j :: 0 <= j < |tasks| ==> tasks[j].id != id
  {
    if |tasks| == 0 then None
    else if tasks[0].id == id then Some(0)
    else
      match IndexOfId(tasks[1..], id)
      case None =>
        assert forall j :: 1 <= j < |tasks| ==> tasks[j] == tasks[1..][j - 1];
        None
      case Some(k) =>
        assert forall j :: 1 <= j < k + 1 ==> tasks[j] == tasks[1..][j - 1];
        Some(k + 1)
  }

  /** `indexOf(element)`: the first position holding a task with the
      element's id. Only ids are compared, so an edited copy of a task
      still finds the original. */
  function IndexOf(tasks: seq<Task>, element: Task): (r: Option<nat>)
    ensures r.Some? ==> r.value < |tasks| && tasks[r.value].id == element.id
    ensures r.Some? ==> forall j :: 0 <= j < r.value ==> tasks[j].id != element.id
    ensures r.None? <==> forall j :: 0 <= j < |tasks| ==> tasks[j].id != element.id
  {
    IndexOfId(tasks, element.id)
  }

  /** Two tasks with the same id are found at the same place, whatever
      their titles, memos or done flags. */
  lemma IndexOfComparesIdsOnly(tasks: seq<Task>, a: Task, b: Task)
    requires a.id == b.id
    ensures IndexOf(tasks, a) == IndexOf(tasks, b)
  {
  }

  /** A task is found at its own row whenever no earlier row shares its id. */
  lemma IndexOfFindsOwnRow(tasks: seq<Task>, row: nat)
    requires row < |tasks|
    requires forall j :: 0 <= j < row ==> tasks[j].id != tasks[row].id
    ensures IndexOf(tasks, tasks[row]) == Some(row)
  {
  }
}
