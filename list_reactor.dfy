/** The reactor of the task-list screen. It owns the rows of the table
    (one section of tasks) and the editing flag. Row actions only make
    requests of the task service; the rows change when the service's
    events come back, each folded in by id. */
module ListReactor {
  import opened Models
  import opened Sections
  import Service
  import Defaults
  import EditReactor

  /** One table section; the source wraps each task in a row reactor,
      here a row is its task. */
  type TaskListSection = Section<(), Task>

  datatype Action =
    | Refresh
    | ToggleEditing
    | ToggleTaskDone(path: IndexPath)
    | DeleteTask(path: IndexPath)
    | MoveTask(source: IndexPath, destination: IndexPath)

  datatype Mutation =
    | ToggleEditing
    | SetSections(sections: seq<TaskListSection>)
    | InsertSectionItem(path: IndexPath, item: Task)
    | UpdateSectionItem(path: IndexPath, item: Task)
    | DeleteSectionItem(path: IndexPath)
    | MoveSectionItem(source: IndexPath, destination: IndexPath)

  datatype State = State(isEditing: bool, sections: seq<TaskListSection>)

  /** The state before any action: not editing, one empty section. */
  const InitialState: State := State(false, [Section((), [])])

  /** The rows of the first section: the only section the list has. */
  function Rows(state: State): seq<Task>
    requires |state.sections| > 0
  {
    state.sections[0].items
  }

  /** The index paths a mutation uses exist (the source traps otherwise). */
  predicate Applicable(state: State, m: Mutation) {
    match m
    case ToggleEditing => true
    case SetSections(_) => true
    case InsertSectionItem(p, _) => ValidInsertPath(state.sections, p)
    case UpdateSectionItem(p, _) => ValidPath(state.sections, p)
    case DeleteSectionItem(p) => ValidPath(state.sections, p)
    case MoveSectionItem(s, d) =>
      ValidPath(state.sections, s) && ValidInsertPath(WithRemoved(state.sections, s), d)
  }

  /** `reduce(state:mutation:)` as a function of the old state. */
  function Reduced(state: State, m: Mutation): (r: State)
    requires Applicable(state, m)
    ensures m.ToggleEditing? ==> r.isEditing == !state.isEditing && r.sections == state.sections
    ensures !m.ToggleEditing? ==> r.isEditing == state.isEditing
    ensures !m.SetSections? ==> |r.sections| == |state.sections|
  {
    match m
    case ToggleEditing => state.(isEditing := !state.isEditing)
    case SetSections(ss) => state.(sections := ss)
    case InsertSectionItem(p, x) => state.(sections := WithInserted(state.sections, p, x))
    case UpdateSectionItem(p, x) => state.(sections := WithItem(state.sections, p, x))
    case DeleteSectionItem(p) => state.(sections := WithRemoved(state.sections, p))
    case MoveSectionItem(s, d) =>
      state.(sections := WithInserted(WithRemoved(state.sections, s), d, Get(state.sections, s)))
  }

  /** `reduce(state:mutation:)`: edits a copy of the sections in place. */
  method Reduce(state: State, m: Mutation) returns (r: State)
    requires Applicable(state, m)
    ensures r == Reduced(state, m)
  {
    r := state;
    match m
    case ToggleEditing =>
      r := r.(isEditing := !r.isEditing);
    case SetSections(ss) =>
      r := r.(sections := ss);
    case InsertSectionItem(p, x) =>
      var sections := Insert(r.sections, x, p);
      r := r.(sections := sections);
    case UpdateSectionItem(p, x) =>
      var sections := SetItem(r.sections, p, x);
      r := r.(sections := sections);
    case DeleteSectionItem(p) =>
      var sections, _ := Remove(r.sections, p);
      r := r.(sections := sections);
    case MoveSectionItem(s, d) =>
      var sections, item := Remove(r.sections, s);
      sections := Insert(sections, item, d);
      r := r.(sections := sections);
  }

  /** Toggling the editing flag twice gives the state back. */
  lemma ToggleEditingTwice(state: State)
    ensures Reduced(Reduced(state, Mutation.ToggleEditing), Mutation.ToggleEditing) == state
  {
  }

  /** `indexPath(forTaskID:from:)`: the path of the first row of section 0
      holding the task with that id. */
  function IndexPathFor(id: string, state: State): (r: Option<IndexPath>)
    requires |state.sections| > 0
    ensures r.Some? ==> r.value.section == 0 && ValidPath(state.sections, r.value)
    ensures r.Some? ==> Get(state.sections, r.value).id == id
    ensures r.Some? ==> forall j :: 0 <= j < r.value.item ==> Rows(state)[j].id != id
    ensures r.None? <==> forall j :: 0 <= j < |Rows(state)| ==> Rows(state)[j].id != id
  {
    match IndexOfId(Rows(state), id)
    case None => None
    case Some(item) => Some(IndexPath(0, item))
  }

  /** The id an event names (a created task is not looked up). */
  function EventId(event: Service.TaskEvent): string {
    match event
    case Create(task) => task.id
    case Update(task) => task.id
    case Delete(id) => id
    case Move(id, _) => id
    case MarkAsDone(id) => id
    case MarkAsUndone(id) => id
  }

  /** `mutate(taskEvent:)`: the mutation an event yields, if any. */
  function MutationFor(state: State, event: Service.TaskEvent): (r: Option<Mutation>)
    requires |state.sections| > 0
    ensures event.Create? ==> r.Some?
    ensures !event.Create? ==> (r.None? <==> IndexOfId(Rows(state), EventId(event)).None?)
  {
    match event
    case Create(task) => Some(InsertSectionItem(IndexPath(0, 0), task))
    case Update(task) =>
      (match IndexPathFor(task.id, state)
       case None => None
       case Some(p) => Some(UpdateSectionItem(p, task)))
    case Delete(id) =>
      (match IndexPathFor(id, state)
       case None => None
       case Some(p) => Some(DeleteSectionItem(p)))
    case Move(id, index) =>
      (match IndexPathFor(id, state)
       case None => None
       case Some(p) => Some(MoveSectionItem(p, IndexPath(0, index))))
    case MarkAsDone(id) =>
      (match IndexPathFor(id, state)
       case None => None
       case Some(p) => Some(UpdateSectionItem(p, Get(state.sections, p).(isDone := true))))
    case MarkAsUndone(id) =>
      (match IndexPathFor(id, state)
       case None => None
       case Some(p) => Some(UpdateSectionItem(p, Get(state.sections, p).(isDone := false))))
  }

  /** An event can be folded in: section 0 exists, and a move of a row
      that is found targets a place inside the list. */
  predicate Applies(state: State, event: Service.TaskEvent) {
    && |state.sections| > 0
    && (event.Move? && IndexOfId(Rows(state), event.id).Some? ==> event.index < |Rows(state)|)
  }

  /** One event folded into the state: its mutation reduced, or nothing. */
  function Apply(state: State, event: Service.TaskEvent): (r: State)
    requires Applies(state, event)
    ensures |r.sections| == |state.sections| && r.isEditing == state.isEditing
    ensures forall k :: 1 <= k < |state.sections| ==> r.sections[k] == state.sections[k]
  {
    match MutationFor(state, event)
    case None => state
    case Some(m) => Reduced(state, m)
  }

  /** A created task becomes the first row; the other rows follow in
      their old order. */
  lemma CreateInsertsAtTop(state: State, task: Task)
    requires |state.sections| > 0
    ensures Rows(Apply(state, Service.Create(task))) == [task] + Rows(state)
  {
    var rows := Rows(Apply(state, Service.Create(task)));
    assert rows == [task] + Rows(state) by {
      assert |rows| == |Rows(state)| + 1;
      forall i | 0 <= i < |rows| ensures rows[i] == ([task] + Rows(state))[i] {
      }
    }
  }

  /** An event naming an id no row has changes nothing. */
  lemma AbsentIdChangesNothing(state: State, event: Service.TaskEvent)
    requires Applies(state, event) && !event.Create?
    requires forall j :: 0 <= j < |Rows(state)| ==> Rows(state)[j].id != EventId(event)
    ensures Apply(state, event) == state
  {
  }

  /** An update replaces the first row with the task's id by the task. */
  lemma UpdateReplacesFirstMatch(state: State, task: Task, k: nat)
    requires |state.sections| > 0 && IndexOfId(Rows(state), task.id) == Some(k)
    ensures Rows(Apply(state, Service.Update(task))) == Rows(state)[k := task]
  {
    var rows := Rows(Apply(state, Service.Update(task)));
    assert rows == Rows(state)[k := task] by {
      forall i | 0 <= i < |rows| ensures rows[i] == Rows(state)[k := task][i] {
        if i != k {
          assert ValidPath(state.sections, IndexPath(0, i));
        }
      }
    }
  }

  /** Marking as done (or undone) sets the flag of the first row with the
      id, and keeps that row's task otherwise and every other row. */
  lemma MarkSetsDoneFlag(state: State, id: string, done: bool, k: nat)
    requires |state.sections| > 0 && IndexOfId(Rows(state), id) == Some(k)
    ensures var event := if done then Service.MarkAsDone(id) else Service.MarkAsUndone(id);
      Rows(Apply(state, event)) == Rows(state)[k := Rows(state)[k].(isDone := done)]
  {
    var event := if done then Service.MarkAsDone(id) else Service.MarkAsUndone(id);
    var rows := Rows(Apply(state, event));
    var expected := Rows(state)[k := Rows(state)[k].(isDone := done)];
    assert rows == expected by {
      forall i | 0 <= i < |rows| ensures rows[i] == expected[i] {
        if i != k {
          assert ValidPath(state.sections, IndexPath(0, i));
        }
      }
    }
  }

  /** A delete removes the first row with the id, and only it. */
  lemma DeleteRemovesFirstMatch(state: State, id: string, k: nat)
    requires |state.sections| > 0 && IndexOfId(Rows(state), id) == Some(k)
    ensures Rows(Apply(state, Service.Delete(id))) == Rows(state)[..k] + Rows(state)[k + 1..]
    ensures |Rows(Apply(state, Service.Delete(id)))| == |Rows(state)| - 1
  {
    var rows := Rows(Apply(state, Service.Delete(id)));
    var expected := Rows(state)[..k] + Rows(state)[k + 1..];
    assert rows == expected by {
      forall i | 0 <= i < |rows| ensures rows[i] == expected[i] {
      }
    }
  }

  /** A move takes the first row with the id to the target index; the
      rows stay the same multiset, and their number is unchanged. */
  lemma MoveRelocatesRow(state: State, id: string, index: nat, k: nat)
    requires Applies(state, Service.Move(id, index)) && IndexOfId(Rows(state), id) == Some(k)
    ensures |Rows(Apply(state, Service.Move(id, index)))| == |Rows(state)|
    ensures Rows(Apply(state, Service.Move(id, index)))[index] == Rows(state)[k]
    ensures multiset(Rows(Apply(state, Service.Move(id, index)))) == multiset(Rows(state))
  {
    var ss, p, q := state.sections, IndexPath(0, k), IndexPath(0, index);
    assert IndexPathFor(id, state) == Some(p);
    assert MutationFor(state, Service.Move(id, index)) == Some(MoveSectionItem(p, q));
    var moved := WithInserted(WithRemoved(ss, p), q, Get(ss, p));
    assert Rows(Apply(state, Service.Move(id, index))) == moved[0].items;
    MoveKeepsItems(ss, p, q);
  }

  /** Moving the first of two rows to index 1 swaps them. */
  lemma MoveSwapsTwoRows(state: State, first: Task, second: Task)
    requires |state.sections| > 0 && Rows(state) == [first, second] && first.id != second.id
    ensures Rows(Apply(state, Service.Move(first.id, 1))) == [second, first]
  {
    var rows := Rows(Apply(state, Service.Move(first.id, 1)));
    assert |rows| == 2;
  }

  /** The actions whose index paths exist (the source traps otherwise). */
  predicate ActionInRange(state: State, action: Action) {
    match action
    case Refresh => true
    case ToggleEditing => true
    case ToggleTaskDone(p) => ValidPath(state.sections, p)
    case DeleteTask(p) => ValidPath(state.sections, p)
    case MoveTask(s, _) => ValidPath(state.sections, s)
  }

  /** The mutations an action can yield, which always apply. */
  predicate Unconditional(m: Mutation) {
    m.ToggleEditing? || m.SetSections?
  }

  /** The state after mutations that always apply, reduced in order. */
  function ReducedAll(state: State, ms: seq<Mutation>): State
    requires forall i :: 0 <= i < |ms| ==> Unconditional(ms[i])
    decreases |ms|
  {
    if ms == [] then state
    else
      assert Unconditional(ms[0]);
      ReducedAll(Reduced(state, ms[0]), ms[1..])
  }

  /** What selecting a row does, decided by the editing flag when the
      row is selected: toggle its done flag, or open the editor on it. */
  datatype Selection = Send(action: Action) | PresentEditor(mode: EditMode)

  function OnItemSelected(state: State, path: IndexPath): (r: Selection)
    requires ValidPath(state.sections, path)
    ensures !state.isEditing <==> r.Send?
    ensures r.Send? ==> r.action == ToggleTaskDone(path) && ActionInRange(state, r.action)
    ensures r.PresentEditor? ==> r.mode == Edit(Get(state.sections, path))
  {
    if !state.isEditing then Send(ToggleTaskDone(path)) else PresentEditor(Edit(Get(state.sections, path)))
  }

  class TaskListViewReactor {
    const service: Service.TaskService
    var currentState: State

    constructor(service: Service.TaskService)
      ensures this.service == service
      ensures currentState == InitialState
      ensures !currentState.isEditing && |currentState.sections| == 1 && Rows(currentState) == []
    {
      this.service := service;
      currentState := InitialState;
    }

    /** `mutate(action:)`: the request made of the task service and the
        mutations yielded. Refreshing fetches through the service (the
        ids are used only if the defaults are seeded); row actions only
        make a request. */
    method Mutate(action: Action, ids: Service.DefaultIds)
      returns (request: Option<Service.TaskRequest>, mutations: seq<Mutation>)
      requires ActionInRange(currentState, action)
      modifies service.defaults
      ensures forall i :: 0 <= i < |mutations| ==> Unconditional(mutations[i])
      ensures action.Refresh? ==>
        && request.None?
        && mutations == [SetSections([Section((), Service.Fetch(old(service.defaults.store), ids).tasks)])]
        && service.defaults.store == Service.Fetch(old(service.defaults.store), ids).store
      ensures !action.Refresh? ==> service.defaults.store == old(service.defaults.store)
      ensures action.ToggleEditing? ==> request.None? && mutations == [Mutation.ToggleEditing]
      ensures action.ToggleTaskDone? ==>
        var task := Get(currentState.sections, action.path);
        && mutations == []
        && request == Some(if !task.isDone then Service.MarkTaskAsDone(task.id) else Service.MarkTaskAsUndone(task.id))
      ensures action.DeleteTask? ==>
        mutations == [] && request == Some(Service.DeleteTask(Get(currentState.sections, action.path).id))
      ensures action.MoveTask? ==>
        && mutations == []
        && request == Some(Service.MoveTask(Get(currentState.sections, action.source).id, action.destination.item))
    {
      match action
      case Refresh =>
        var tasks := service.FetchTasks(ids);
        request, mutations := None, [SetSections([Section((), tasks)])];
      case ToggleEditing =>
        request, mutations := None, [Mutation.ToggleEditing];
      case ToggleTaskDone(p) =>
        var task := Get(currentState.sections, p);
        if !task.isDone {
          request := Some(Service.MarkTaskAsDone(task.id));
        } else {
          request := Some(Service.MarkTaskAsUndone(task.id));
        }
        mutations := [];
      case DeleteTask(p) =>
        var task := Get(currentState.sections, p);
        request, mutations := Some(Service.DeleteTask(task.id)), [];
      case MoveTask(s, d) =>
        var task := Get(currentState.sections, s);
        request, mutations := Some(Service.MoveTask(task.id, d.item)), [];
    }

    /** One action through the pipeline: mutate, then reduce each
        mutation in order into the current state. */
    method Dispatch(action: Action, ids: Service.DefaultIds) returns (request: Option<Service.TaskRequest>)
      requires ActionInRange(currentState, action)
      modifies this, service.defaults
      ensures action.Refresh? ==>
        && request.None?
        && currentState == old(currentState).(sections := [Section((), Service.Fetch(old(service.defaults.store), ids).tasks)])
        && service.defaults.store == Service.Fetch(old(service.defaults.store), ids).store
      ensures action.ToggleEditing? ==>
        request.None? && currentState == old(currentState).(isEditing := !old(currentState).isEditing)
      ensures !action.Refresh? ==> service.defaults.store == old(service.defaults.store)
      ensures action.ToggleTaskDone? ==>
        var task := Get(old(currentState).sections, action.path);
        && currentState == old(currentState)
        && request == Some(if !task.isDone then Service.MarkTaskAsDone(task.id) else Service.MarkTaskAsUndone(task.id))
      ensures action.DeleteTask? ==>
        currentState == old(currentState)
        && request == Some(Service.DeleteTask(Get(old(currentState).sections, action.path).id))
      ensures action.MoveTask? ==>
        currentState == old(currentState)
        && request == Some(Service.MoveTask(Get(old(currentState).sections, action.source).id, action.destination.item))
    {
      var mutations;
      request, mutations := Mutate(action, ids);
      ghost var before, store := currentState, service.defaults.store;
      for i := 0 to |mutations|
        invariant ReducedAll(before, mutations) == ReducedAll(currentState, mutations[i..])
        invariant service.defaults.store == store
      {
        currentState := Reduce(currentState, mutations[i]);
      }
    }

    /** A task event from the service, merged into the pipeline. */
    method HandleTaskEvent(event: Service.TaskEvent)
      requires Applies(currentState, event)
      modifies this
      ensures currentState == Apply(old(currentState), event)
    {
      var m := MutationFor(currentState, event);
      if m.Some? {
        currentState := Reduce(currentState, m.value);
      }
    }

    /** `reactorForCreatingTask()`. */
    method ReactorForCreatingTask() returns (r: EditReactor.TaskEditViewReactor)
      ensures fresh(r) && r.mode == New && r.currentState == EditReactor.InitialState(New)
    {
      r := new EditReactor.TaskEditViewReactor(New);
    }

    /** `reactorForEditingTask(_:)`: an edit session on the row's task. */
    method ReactorForEditingTask(row: Task) returns (r: EditReactor.TaskEditViewReactor)
      ensures fresh(r) && r.mode == Edit(row) && r.currentState == EditReactor.InitialState(Edit(row))
    {
      r := new EditReactor.TaskEditViewReactor(Edit(row));
    }
  }

  function DoneFlags(rows: seq<Task>): (flags: seq<bool>)
    ensures |flags| == |rows| && forall i :: 0 <= i < |rows| ==> flags[i] == rows[i].isDone
  {
    if rows == [] then [] else [rows[0].isDone] + DoneFlags(rows[1..])
  }

  /** Selecting a row outside editing, followed by the event the service
      broadcasts for the request, gives the first row with that row's id
      the flag the selected row did not have, and changes nothing else.
      When no earlier row shares the id, that is the selected row itself. */
  method ToggleRowAndEcho(reactor: TaskListViewReactor, row: nat, ids: Service.DefaultIds)
    requires |reactor.currentState.sections| > 0 && row < |Rows(reactor.currentState)|
    modifies reactor, reactor.service.defaults
    ensures |reactor.currentState.sections| == old(|reactor.currentState.sections|)
    ensures reactor.currentState.sections[1..] == old(reactor.currentState.sections[1..])
    ensures reactor.currentState.isEditing == old(reactor.currentState.isEditing)
    ensures Rows(reactor.currentState)
         == old(var rows := Rows(reactor.currentState);
                var k := IndexOfId(rows, rows[row].id).value;
                rows[k := rows[k].(isDone := !rows[row].isDone)])
    ensures old(IndexOfId(Rows(reactor.currentState), Rows(reactor.currentState)[row].id) == Some(row)) ==>
      Rows(reactor.currentState)
        == old(Rows(reactor.currentState)[row := Rows(reactor.currentState)[row].(isDone := !Rows(reactor.currentState)[row].isDone)])
  {
    var before := reactor.currentState;
    var task := Rows(before)[row];
    var k := IndexOfId(Rows(before), task.id).value;
    var request := reactor.Dispatch(ToggleTaskDone(IndexPath(0, row)), ids);
    MarkSetsDoneFlag(before, task.id, !task.isDone, k);
    if !task.isDone {
      reactor.HandleTaskEvent(Service.MarkAsDone(task.id));
    } else {
      reactor.HandleTaskEvent(Service.MarkAsUndone(task.id));
    }
  }

  /** Toggles on rows 0, 0 and 2 of the three default tasks give the
      done flags FFF, TFF, FFF, FFT. */
  method ToggleDoneTrace() returns (flags: seq<seq<bool>>)
    ensures flags == [[false, false, false], [true, false, false], [false, false, false], [false, false, true]]
  {
    var store := new Defaults.MockUserDefaultsService();
    var service := new Service.TaskService(store);
    var reactor := new TaskListViewReactor(service);
    var ids := Service.DefaultIds("a", "b", "c");
    var request := reactor.Dispatch(Refresh, ids);
    var defaults := Service.DefaultTasks(ids);
    assert Rows(reactor.currentState) == defaults;
    assert DoneFlags(defaults) == [false, false, false];
    flags := [DoneFlags(defaults)];
    ToggleRowAndEcho(reactor, 0, ids);
    var rows := defaults[0 := defaults[0].(isDone := true)];
    assert DoneFlags(rows) == [true, false, false];
    flags := flags + [DoneFlags(Rows(reactor.currentState))];
    ToggleRowAndEcho(reactor, 0, ids);
    assert Rows(reactor.currentState) == defaults;
    flags := flags + [DoneFlags(Rows(reactor.currentState))];
    assert IndexOfId(defaults, "c") == Some(2);
    ToggleRowAndEcho(reactor, 2, ids);
    rows := defaults[2 := defaults[2].(isDone := true)];
    assert DoneFlags(rows) == [false, false, true];
    flags := flags + [DoneFlags(Rows(reactor.currentState))];
  }

  /** Refresh on an empty store gives three rows; deleting row 0 leaves
      two; toggling the new row 0 marks it done. */
  method EndToEndScenario() returns (afterRefresh: nat, afterDelete: nat, firstDone: bool)
    ensures afterRefresh == 3 && afterDelete == 2 && firstDone
  {
    var store := new Defaults.MockUserDefaultsService();
    var service := new Service.TaskService(store);
    var reactor := new TaskListViewReactor(service);
    var ids := Service.DefaultIds("a", "b", "c");
    var request := reactor.Dispatch(Refresh, ids);
    afterRefresh := |Rows(reactor.currentState)|;

    request := reactor.Dispatch(DeleteTask(IndexPath(0, 0)), ids);
    assert request == Some(Service.DeleteTask("a"));
    reactor.HandleTaskEvent(Service.Delete("a"));
    afterDelete := |Rows(reactor.currentState)|;

    request := reactor.Dispatch(ToggleTaskDone(IndexPath(0, 0)), ids);
    assert request == Some(Service.MarkTaskAsDone("b"));
    reactor.HandleTaskEvent(Service.MarkAsDone("b"));
    firstDone := Rows(reactor.currentState)[0].isDone;
  }
}
