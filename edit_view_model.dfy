/** The earlier revision of the task-edit screen: the same rules as the
    edit reactor, written as derivations from the bound title and the
    mode. Each button tap is an input; its outputs are the alert shown,
    the model event broadcast and whether the screen is dismissed. */
module EditViewModel {
  import opened Models
  import EditReactor

  /** The broadcasts `Task.didCreate`, `Task.didUpdate`, `Task.didDelete`. */
  datatype ModelEvent = DidCreate(task: Task) | DidUpdate(task: Task) | DidDelete(task: Task)

  /** What the screen shows when it opens. */
  datatype Opening = Opening(navigationBarTitle: string, title: string)

  /** `init(mode:)`: the navigation title and the initial bound title. */
  function Open(mode: EditMode): (r: Opening)
    ensures mode.New? ==> r == Opening("New", "")
    ensures mode.Edit? ==> r == Opening("Edit", mode.task.title)
  {
    match mode
    case New => Opening("New", "")
    case Edit(task) => Opening("Edit", task.title)
  }

  /** The screen opens as the reactor's session starts: same navigation
      title, same initial title. */
  lemma OpenAgreesWithReactor(mode: EditMode)
    ensures Open(mode).navigationBarTitle == EditReactor.InitialState(mode).title
    ensures Open(mode).title == EditReactor.InitialState(mode).taskTitle
  {
  }

  /** `doneButtonEnabled`, once the bound title has been read. */
  predicate DoneButtonEnabled(title: string)
    ensures DoneButtonEnabled(title) <==> |title| > 0
  {
    title != ""
  }

  /** `needsPresentCancelAlert`: the title differs from a new task's
      empty title, or from the edited task's title; that is, from the
      title the screen opened with. */
  predicate NeedsPresentCancelAlert(mode: EditMode, title: string)
    ensures NeedsPresentCancelAlert(mode, title) <==> title != Open(mode).title
  {
    match mode
    case New => title != ""
    case Edit(task) => title != task.title
  }

  /** The alert's title, message and button labels. */
  datatype CancelAlert = CancelAlert(title: string, message: string, leave: string, stay: string)

  const CancelAlertContent: CancelAlert := CancelAlert("Really?", "Changes will be lost.", "Leave", "Stay")

  datatype Input = CancelTap | DoneTap | AlertLeaveTap | AlertStayTap

  datatype Output = Output(alert: Option<CancelAlert>, event: Option<ModelEvent>, dismiss: bool)

  /** The task a done tap broadcasts: a new task with a fresh id, or the
      edited task with the new title and its id, memo and flag kept. */
  function DoneEvent(mode: EditMode, title: string, newId: string): (e: ModelEvent)
    ensures mode.New? ==> e == DidCreate(Task(newId, title, None, false))
    ensures mode.Edit? ==> e.DidUpdate? && e.task == mode.task.(title := title)
  {
    match mode
    case New => DidCreate(Task(newId, title, None, false))
    case Edit(task) => DidUpdate(task.(title := title))
  }

  /** The outputs one tap yields while the bound title is `title`.
      `newId` is the id a created task gets. */
  function React(mode: EditMode, title: string, input: Input, newId: string): (out: Output)
    ensures out.alert.Some? ==> out.alert.value == CancelAlertContent
    ensures out.alert.Some? <==> input == CancelTap && NeedsPresentCancelAlert(mode, title)
    ensures out.event.Some? <==> input == DoneTap && DoneButtonEnabled(title)
    ensures out.event.Some? ==> out.event.value == DoneEvent(mode, title, newId)
    ensures out.dismiss <==>
      || input == AlertLeaveTap
      || (input == DoneTap && DoneButtonEnabled(title))
      || (input == CancelTap && !NeedsPresentCancelAlert(mode, title))
  {
    match input
    case CancelTap =>
      if NeedsPresentCancelAlert(mode, title) then Output(Some(CancelAlertContent), None, false)
      else Output(None, None, true)
    case DoneTap =>
      if DoneButtonEnabled(title) then Output(None, Some(DoneEvent(mode, title, newId)), true)
      else Output(None, None, false)
    case AlertLeaveTap => Output(None, None, true)
    case AlertStayTap => Output(None, None, false)
  }

  /** A cancel that shows the alert never dismisses by itself, and a
      done tap dismisses exactly when it broadcasts. */
  lemma DismissalRules(mode: EditMode, title: string, newId: string)
    ensures React(mode, title, CancelTap, newId).alert.Some? ==> !React(mode, title, CancelTap, newId).dismiss
    ensures React(mode, title, DoneTap, newId).dismiss <==> React(mode, title, DoneTap, newId).event.Some?
    ensures React(mode, title, AlertLeaveTap, newId).dismiss && !React(mode, title, AlertStayTap, newId).dismiss
  {
  }

  /** An edited task keeps its id, so the list finds it where the old
      task was, whatever the new title. */
  lemma EditedTaskIsFoundInPlace(tasks: seq<Task>, task: Task, title: string, newId: string)
    ensures var e := React(Edit(task), title, DoneTap, newId).event;
      e.Some? ==> IndexOf(tasks, e.value.task) == IndexOf(tasks, task)
  {
    var e := React(Edit(task), title, DoneTap, newId).event;
    if e.Some? {
      IndexOfComparesIdsOnly(tasks, e.value.task, task);
    }
  }

  /** The two revisions agree: after the title is typed, the reactor's
      `canSubmit` is the done button's state and its
      `shouldConfirmCancel` is the need for the alert; a cancel or a done
      tap dismisses in both or in neither. */
  lemma AgreesWithReactor(mode: EditMode, title: string, newId: string)
    ensures var s := EditReactor.Reduce(EditReactor.InitialState(mode).taskTitle,
                                         EditReactor.InitialState(mode), EditReactor.SetTaskTitle(title));
      && (s.canSubmit <==> DoneButtonEnabled(title))
      && (s.shouldConfirmCancel <==> NeedsPresentCancelAlert(mode, title))
      && (React(mode, title, DoneTap, newId).dismiss <==> s.canSubmit)
      && (React(mode, title, CancelTap, newId).dismiss <==> !s.shouldConfirmCancel)
  {
  }
}
