/** The reactor of the task-edit screen: one create-or-edit session.
    The typed title decides whether the task can be submitted and
    whether leaving needs confirmation; the session ends by a one-way
    dismissal. */
module EditReactor {
  import opened Models
  import Service

  datatype Action = UpdateTaskTitle(text: string) | Cancel | Submit

  /** `SetTaskTitle` is the mutation the source names `updateTaskTitle`. */
  datatype Mutation = SetTaskTitle(text: string) | Dismiss

  datatype State = State(
    title: string,
    taskTitle: string,
    canSubmit: bool,
    shouldConfirmCancel: bool,
    isDismissed: bool)

  /** The two choices the cancel alert offers. */
  datatype AlertAction = Leave | Stay

  /** The cancel-confirmation alert as it is shown. */
  datatype Alert = Alert(title: string, message: string, actions: seq<AlertAction>)

  const CancelAlert: Alert := Alert("Really?", "All changes will be lost", [Leave, Stay])

  /** The state a session starts in. */
  function InitialState(mode: EditMode): (s: State)
    ensures !s.shouldConfirmCancel && !s.isDismissed
    ensures mode.New? ==> s.title == "New" && s.taskTitle == "" && !s.canSubmit
    ensures mode.Edit? ==> s.title == "Edit" && s.taskTitle == mode.task.title && s.canSubmit
  {
    match mode
    case New => State("New", "", false, false, false)
    case Edit(task) => State("Edit", task.title, true, false, false)
  }

  /** The flags agree with the typed title: it can be submitted exactly
      when it is not empty, and leaving needs confirmation exactly when
      it differs from the title the session started with. */
  predicate Consistent(initialTaskTitle: string, s: State) {
    && (s.canSubmit <==> s.taskTitle != "")
    && (s.shouldConfirmCancel <==> s.taskTitle != initialTaskTitle)
  }

  /** `reduce(state:mutation:)`. `initialTaskTitle` is the task title of
      the session's initial state. */
  function Reduce(initialTaskTitle: string, state: State, mutation: Mutation): (r: State)
    ensures r.title == state.title
    ensures state.isDismissed ==> r.isDismissed
    ensures mutation.SetTaskTitle? ==>
      r.taskTitle == mutation.text && r.isDismissed == state.isDismissed && Consistent(initialTaskTitle, r)
    ensures mutation.Dismiss? ==> r.isDismissed && r == state.(isDismissed := true)
  {
    match mutation
    case SetTaskTitle(text) =>
      state.(taskTitle := text, canSubmit := text != "", shouldConfirmCancel := text != initialTaskTitle)
    case Dismiss =>
      state.(isDismissed := true)
  }

  /** The state after the mutations of one action, reduced in order. */
  function ReduceAll(initialTaskTitle: string, state: State, mutations: seq<Mutation>): State
    decreases |mutations|
  {
    if mutations == [] then state
    else ReduceAll(initialTaskTitle, Reduce(initialTaskTitle, state, mutations[0]), mutations[1..])
  }

  /** No mutation undoes a dismissal. */
  lemma {:induction false} DismissalIsFinal(initialTaskTitle: string, state: State, mutations: seq<Mutation>)
    requires state.isDismissed
    ensures ReduceAll(initialTaskTitle, state, mutations).isDismissed
    decreases |mutations|
  {
    if mutations != [] {
      DismissalIsFinal(initialTaskTitle, Reduce(initialTaskTitle, state, mutations[0]), mutations[1..]);
    }
  }

  /** Once the flags agree with the title, every mutation keeps them so,
      and no mutation changes the screen title. */
  lemma {:induction false} ReduceAllKeepsConsistent(initialTaskTitle: string, state: State, mutations: seq<Mutation>)
    requires Consistent(initialTaskTitle, state)
    ensures Consistent(initialTaskTitle, ReduceAll(initialTaskTitle, state, mutations))
    ensures ReduceAll(initialTaskTitle, state, mutations).title == state.title
    decreases |mutations|
  {
    if mutations != [] {
      ReduceAllKeepsConsistent(initialTaskTitle, Reduce(initialTaskTitle, state, mutations[0]), mutations[1..]);
    }
  }

  /** Dismissing twice is dismissing once. */
  lemma DismissIsIdempotent(initialTaskTitle: string, state: State)
    ensures Reduce(initialTaskTitle, Reduce(initialTaskTitle, state, Dismiss), Dismiss)
         == Reduce(initialTaskTitle, state, Dismiss)
  {
  }

  /** Typing the original title back clears the need to confirm. */
  lemma RestoringTitleClearsConfirmation(initialTaskTitle: string, state: State)
    ensures !Reduce(initialTaskTitle, state, SetTaskTitle(initialTaskTitle)).shouldConfirmCancel
  {
  }

  /** A session starts consistent, except when it edits a task whose
      title is empty: then it starts with an empty title that can be
      submitted, until the first title update. */
  lemma InitialStateConsistency(mode: EditMode)
    ensures Consistent(InitialState(mode).taskTitle, InitialState(mode))
        <==> (mode.New? || mode.task.title != "")
  {
  }

  /** The service request a submission makes in each mode. */
  function SubmitRequest(mode: EditMode, taskTitle: string): Service.TaskRequest {
    match mode
    case New => Service.CreateTask(taskTitle, None)
    case Edit(task) => Service.UpdateTask(task.id, taskTitle, None)
  }

  class TaskEditViewReactor {
    const mode: EditMode
    const initialState: State
    var currentState: State

    constructor(mode: EditMode)
      ensures this.mode == mode
      ensures initialState == InitialState(mode) && currentState == initialState
    {
      this.mode := mode;
      initialState := InitialState(mode);
      currentState := InitialState(mode);
    }

    /** `mutate(action:)`: the request made of the task service, the
        alert shown, and the mutations yielded. The alert's answer is an
        input: None when it yields no answer. A request is assumed to
        complete with one value, which yields one dismissal. */
    method Mutate(action: Action, answer: Option<AlertAction>)
      returns (request: Option<Service.TaskRequest>, alert: Option<Alert>, mutations: seq<Mutation>)
      ensures action.UpdateTaskTitle? ==>
        request.None? && alert.None? && mutations == [SetTaskTitle(action.text)]
      ensures action.Submit? && !currentState.canSubmit ==>
        request.None? && alert.None? && mutations == []
      ensures action.Submit? && currentState.canSubmit ==>
        alert.None? && mutations == [Dismiss]
      ensures action.Submit? && currentState.canSubmit && mode.New? ==>
        request == Some(Service.CreateTask(currentState.taskTitle, None))
      ensures action.Submit? && currentState.canSubmit && mode.Edit? ==>
        request == Some(Service.UpdateTask(mode.task.id, currentState.taskTitle, None))
      ensures action.Cancel? ==> request.None?
      ensures action.Cancel? && !currentState.shouldConfirmCancel ==>
        alert.None? && mutations == [Dismiss]
      ensures action.Cancel? && currentState.shouldConfirmCancel ==>
        alert == Some(CancelAlert) && mutations == (if answer == Some(Leave) then [Dismiss] else [])
    {
      match action
      case UpdateTaskTitle(text) =>
        request, alert, mutations := None, None, [SetTaskTitle(text)];
      case Submit =>
        if !currentState.canSubmit {
          request, alert, mutations := None, None, [];
        } else {
          request, alert, mutations := Some(SubmitRequest(mode, currentState.taskTitle)), None, [Dismiss];
        }
      case Cancel =>
        request := None;
        if !currentState.shouldConfirmCancel {
          alert, mutations := None, [Dismiss];
        } else {
          alert := Some(CancelAlert);
          match answer
          case Some(Leave) => mutations := [Dismiss];
          case Some(Stay) => mutations := [];
          case None => mutations := [];
        }
    }

    /** One action through the whole pipeline: mutate, then reduce each
        mutation in order into the current state. */
    method Dispatch(action: Action, answer: Option<AlertAction>)
      returns (request: Option<Service.TaskRequest>, alert: Option<Alert>)
      modifies this
      ensures action.UpdateTaskTitle? ==>
        request.None? && alert.None?
        && currentState == Reduce(initialState.taskTitle, old(currentState), SetTaskTitle(action.text))
      ensures action.Submit? ==>
        alert.None?
        && request == (if old(currentState).canSubmit then Some(SubmitRequest(mode, old(currentState).taskTitle)) else None)
        && currentState == (if old(currentState).canSubmit then old(currentState).(isDismissed := true) else old(currentState))
      ensures action.Cancel? ==>
        request.None?
        && alert == (if old(currentState).shouldConfirmCancel then Some(CancelAlert) else None)
        && currentState == (if !old(currentState).shouldConfirmCancel || answer == Some(Leave)
                            then old(currentState).(isDismissed := true) else old(currentState))
    {
      var mutations;
      request, alert, mutations := Mutate(action, answer);
      ghost var before := currentState;
      for i := 0 to |mutations|
        invariant ReduceAll(initialState.taskTitle, before, mutations)
               == ReduceAll(initialState.taskTitle, currentState, mutations[i..])
      {
        currentState := Reduce(initialState.taskTitle, currentState, mutations[i]);
      }
    }
  }

  /** The `canSubmit` values the tests expect for a new task: false,
      then true after typing "a", then false after clearing it. */
  method CanSubmitTraceForNewTask() returns (trace: seq<bool>)
    ensures trace == [false, true, false]
  {
    var reactor := new TaskEditViewReactor(New);
    trace := [reactor.currentState.canSubmit];
    var req, shown := reactor.Dispatch(UpdateTaskTitle("a"), None);
    trace := trace + [reactor.currentState.canSubmit];
    req, shown := reactor.Dispatch(UpdateTaskTitle(""), None);
    trace := trace + [reactor.currentState.canSubmit];
  }

  /** The `canSubmit` values when editing a task titled "Test": true at
      once, still true after typing "a", false after clearing it. */
  method CanSubmitTraceForEdit(id: string) returns (trace: seq<bool>)
    ensures trace == [true, true, false]
  {
    var reactor := new TaskEditViewReactor(Edit(Task(id, "Test", None, false)));
    trace := [reactor.currentState.canSubmit];
    var req, shown := reactor.Dispatch(UpdateTaskTitle("a"), None);
    trace := trace + [reactor.currentState.canSubmit];
    req, shown := reactor.Dispatch(UpdateTaskTitle(""), None);
    trace := trace + [reactor.currentState.canSubmit];
  }

  /** The `shouldConfirmCancel` values for a new task: no confirmation
      at first, needed after typing "a", not after clearing it. */
  method ConfirmCancelTraceForNewTask() returns (trace: seq<bool>)
    ensures trace == [false, true, false]
  {
    var reactor := new TaskEditViewReactor(New);
    trace := [reactor.currentState.shouldConfirmCancel];
    var req, shown := reactor.Dispatch(UpdateTaskTitle("a"), None);
    trace := trace + [reactor.currentState.shouldConfirmCancel];
    req, shown := reactor.Dispatch(UpdateTaskTitle(""), None);
    trace := trace + [reactor.currentState.shouldConfirmCancel];
  }

  /** The `shouldConfirmCancel` values the tests expect when editing a
      task titled "TEST": typing "a" and "" asks for confirmation,
      typing "TEST" again no longer does. */
  method ConfirmCancelTraceForEdit(id: string) returns (trace: seq<bool>)
    ensures trace == [false, true, true, false]
  {
    var reactor := new TaskEditViewReactor(Edit(Task(id, "TEST", None, false)));
    trace := [reactor.currentState.shouldConfirmCancel];
    var req, shown := reactor.Dispatch(UpdateTaskTitle("a"), None);
    trace := trace + [reactor.currentState.shouldConfirmCancel];
    req, shown := reactor.Dispatch(UpdateTaskTitle(""), None);
    trace := trace + [reactor.currentState.shouldConfirmCancel];
    req, shown := reactor.Dispatch(UpdateTaskTitle("TEST"), None);
    trace := trace + [reactor.currentState.shouldConfirmCancel];
  }

  /** The dismissals the tests expect for a new task: cancelling an
      untouched session dismisses at once; after typing "a", cancelling
      shows the alert and dismisses on "leave" only; submitting "a"
      creates the task and dismisses. */
  method DismissalTraces() returns (untouched: bool, stayed: bool, left: bool, submitted: bool, request: Option<Service.TaskRequest>)
    ensures untouched && !stayed && left && submitted
    ensures request == Some(Service.CreateTask("a", None))
  {
    var r1 := new TaskEditViewReactor(New);
    var req, shown := r1.Dispatch(Cancel, None);
    untouched := r1.currentState.isDismissed;

    var r2 := new TaskEditViewReactor(New);
    req, shown := r2.Dispatch(UpdateTaskTitle("a"), None);
    req, shown := r2.Dispatch(Cancel, Some(Stay));
    stayed := r2.currentState.isDismissed;
    req, shown := r2.Dispatch(Cancel, Some(Leave));
    left := r2.currentState.isDismissed;

    var r3 := new TaskEditViewReactor(New);
    req, shown := r3.Dispatch(UpdateTaskTitle("a"), None);
    request, shown := r3.Dispatch(Submit, None);
    submitted := r3.currentState.isDismissed;
  }
}
