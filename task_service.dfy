/** The task service: the task list persisted under one key of the
    key-value store, seeded with three default tasks on first run. Also
    the domain events it broadcasts and the requests screens make of it. */
module Service {
  import opened Models
  import opened Defaults

  /** Domain events, as the list screen consumes them. */
  datatype TaskEvent =
    | Create(task: Task)
    | Update(task: Task)
    | Delete(id: string)
    | Move(id: string, index: nat)
    | MarkAsDone(id: string)
    | MarkAsUndone(id: string)

  /** Calls the screens make of the task service; the service answers each
      by broadcasting the matching event. */
  datatype TaskRequest =
    | CreateTask(title: string, memo: Option<string>)
    | UpdateTask(taskID: string, title: string, memo: Option<string>)
    | DeleteTask(taskID: string)
    | MoveTask(taskID: string, to: nat)
    | MarkTaskAsDone(taskID: string)
    | MarkTaskAsUndone(taskID: string)

  /** The key the task list is stored under. */
  const TasksKey: Key := Key("tasks", DictionaryListType)

  /** A task flattened to a record; a missing memo leaves its field out. */
  function Encode(t: Task): (d: Dictionary)
    ensures "id" in d && "title" in d && "isDone" in d
    ensures "memo" in d <==> t.memo.Some?
  {
    var fields := map["id" := Text(t.id), "title" := Text(t.title), "isDone" := Flag(t.isDone)];
    if t.memo.Some? then fields["memo" := Text(t.memo.value)] else fields
  }

  /** A record read back as a task; None when the id or title is missing
      or is not text. */
  function Decode(d: Dictionary): (r: Option<Task>)
    ensures r.Some? <==> "id" in d && d["id"].Text? && "title" in d && d["title"].Text?
  {
    if "id" in d && d["id"].Text? && "title" in d && d["title"].Text? then
      var memo := if "memo" in d && d["memo"].Text? then Some(d["memo"].text) else None;
      var done := "isDone" in d && d["isDone"].Flag? && d["isDone"].flag;
      Some(Task(d["id"].text, d["title"].text, memo, done))
    else
      None
  }

  lemma DecodeEncode(t: Task)
    ensures Decode(Encode(t)) == Some(t)
  {
  }

  /** `tasks.map { $0.asDictionary() }`. */
  function EncodeAll(ts: seq<Task>): (ds: seq<Dictionary>)
    ensures |ds| == |ts|
    ensures forall i :: 0 <= i < |ts| ==> ds[i] == Encode(ts[i])
  {
    if ts == [] then [] else [Encode(ts[0])] + EncodeAll(ts[1..])
  }

  /** `dictionaries.flatMap(Task.init)`: the records that decode, in
      order; the others are dropped. */
  function DecodeAll(ds: seq<Dictionary>): (ts: seq<Task>)
    ensures |ts| <= |ds|
    ensures (forall i :: 0 <= i < |ds| ==> Decode(ds[i]).Some?) ==>
      |ts| == |ds| && forall i :: 0 <= i < |ds| ==> Some(ts[i]) == Decode(ds[i])
    ensures forall i :: 0 <= i < |ds| && Decode(ds[i]).Some? ==> Decode(ds[i]).value in ts
    ensures forall t :: t in ts ==> exists i :: 0 <= i < |ds| && Decode(ds[i]) == Some(t)
  {
    if ds == [] then []
    else
      assert forall i :: 1 <= i < |ds| ==> ds[i] == ds[1..][i - 1];
      var rest := DecodeAll(ds[1..]);
      match Decode(ds[0])
      case Some(t) => [t] + rest
      case None => rest
  }

  /** Tasks written with EncodeAll are read back unchanged. */
  lemma {:induction false} DecodeAllEncodeAll(ts: seq<Task>)
    ensures DecodeAll(EncodeAll(ts)) == ts
  {
    if ts != [] {
      var ds := EncodeAll(ts);
      assert ds[1..] == EncodeAll(ts[1..]);
      DecodeEncode(ts[0]);
      assert Decode(ds[0]) == Some(ts[0]);
      DecodeAllEncodeAll(ts[1..]);
      assert DecodeAll(ds) == [ts[0]] + DecodeAll(ds[1..]);
    }
  }

  /** Decoding a concatenation decodes each part in turn: the decoded
      records keep their order and their number, and a record that fails
      is dropped where it stands. */
  lemma {:induction false} DecodeAllAppend(xs: seq<Dictionary>, ys: seq<Dictionary>)
    ensures DecodeAll(xs + ys) == DecodeAll(xs) + DecodeAll(ys)
  {
    if xs != [] {
      assert (xs + ys)[1..] == xs[1..] + ys;
      DecodeAllAppend(xs[1..], ys);
    } else {
      assert xs + ys == ys;
    }
  }

  /** A single record gives its task when it decodes, and nothing when
      it does not. */
  lemma DecodeAllOne(d: Dictionary)
    ensures DecodeAll([d]) == if Decode(d).Some? then [Decode(d).value] else []
  {
    assert [d][1..] == [];
  }

  /** Ids for the three default tasks (the app draws them from UUIDs). */
  datatype DefaultIds = DefaultIds(first: string, second: string, third: string)

  function DefaultTasks(ids: DefaultIds): seq<Task> {
    [ Task(ids.first, "Go to https://github.com/devxoul", None, false),
      Task(ids.second, "Star repositories I am intersted in", None, false),
      Task(ids.third, "Make a pull request", None, false) ]
  }

  /** What one fetch returns and the store it leaves behind. */
  datatype Fetched = Fetched(tasks: seq<Task>, store: map<string, Stored>)

  /** `fetchTasks()` on a store: the saved tasks when the key holds a
      list of records, otherwise the defaults, which are also written. */
  function Fetch(store: map<string, Stored>, ids: DefaultIds): (r: Fetched)
    ensures Lookup(r.store, TasksKey).Some?
    ensures Lookup(store, TasksKey).Some? ==> r.store == store
    ensures forall k :: k != TasksKey.name ==> (k in r.store <==> k in store)
    ensures forall k :: k != TasksKey.name && k in store ==> r.store[k] == store[k]
  {
    match Lookup(store, TasksKey)
    case Some(saved) => Fetched(DecodeAll(saved.dicts), store)
    case None =>
      var defaults := DefaultTasks(ids);
      Fetched(defaults, store[TasksKey.name := DictionaryList(EncodeAll(defaults))])
  }

  /** `saveTasks(_:)` on a store: the whole list is overwritten. */
  function Saved(store: map<string, Stored>, ts: seq<Task>): (r: map<string, Stored>)
    ensures Lookup(r, TasksKey) == Some(DictionaryList(EncodeAll(ts)))
    ensures forall k :: k != TasksKey.name ==> (k in r <==> k in store)
    ensures forall k :: k != TasksKey.name && k in store ==> r[k] == store[k]
  {
    store[TasksKey.name := DictionaryList(EncodeAll(ts))]
  }

  /** On a store without a task list, fetch gives the three default
      tasks, in order and not done, and writes them to the store. */
  lemma FirstFetchSeedsDefaults(store: map<string, Stored>, ids: DefaultIds)
    requires Lookup(store, TasksKey).None?
    ensures var f := Fetch(store, ids);
      && |f.tasks| == 3
      && f.tasks[0].title == "Go to https://github.com/devxoul"
      && f.tasks[1].title == "Star repositories I am intersted in"
      && f.tasks[2].title == "Make a pull request"
      && (forall i :: 0 <= i < 3 ==> !f.tasks[i].isDone && f.tasks[i].memo.None?)
      && [f.tasks[0].id, f.tasks[1].id, f.tasks[2].id] == [ids.first, ids.second, ids.third]
      && f.store == Saved(store, f.tasks)
  {
  }

  /** With a task list stored, fetch reads it back and writes nothing. */
  lemma StoredFetchReadsBack(store: map<string, Stored>, ids: DefaultIds)
    requires TasksKey.name in store && store[TasksKey.name].DictionaryList?
    ensures Fetch(store, ids) == Fetched(DecodeAll(store[TasksKey.name].dicts), store)
  {
  }

  /** After any fetch, the list is stored, and a second fetch (whatever
      ids it is offered) returns the same tasks and leaves the same store. */
  lemma SecondFetchReadsFirst(store: map<string, Stored>, ids: DefaultIds, laterIds: DefaultIds)
    ensures Lookup(Fetch(store, ids).store, TasksKey).Some?
    ensures Fetch(Fetch(store, ids).store, laterIds) == Fetch(store, ids)
  {
    if Lookup(store, TasksKey).None? {
      DecodeAllEncodeAll(DefaultTasks(ids));
    }
  }

  /** Saving a list and fetching gives the list back. */
  lemma FetchAfterSave(store: map<string, Stored>, ts: seq<Task>, ids: DefaultIds)
    ensures Fetch(Saved(store, ts), ids) == Fetched(ts, Saved(store, ts))
  {
    DecodeAllEncodeAll(ts);
  }

  class TaskService {
    const defaults: MockUserDefaultsService

    constructor(defaults: MockUserDefaultsService)
      ensures this.defaults == defaults
    {
      this.defaults := defaults;
    }

    /** `fetchTasks()`. */
    method FetchTasks(ids: DefaultIds) returns (tasks: seq<Task>)
      modifies defaults
      ensures tasks == Fetch(old(defaults.store), ids).tasks
      ensures defaults.store == Fetch(old(defaults.store), ids).store
      ensures defaults.Value(TasksKey).Some?
    {
      var saved := defaults.Value(TasksKey);
      if saved.Some? {
        tasks := DecodeAll(saved.value.dicts);
        return;
      }
      var defaultTasks := DefaultTasks(ids);
      defaults.Set(Some(DictionaryList(EncodeAll(defaultTasks))), TasksKey);
      tasks := defaultTasks;
    }

    /** `saveTasks(_:)`: overwrites the stored list; emits no value. */
    method SaveTasks(tasks: seq<Task>)
      modifies defaults
      ensures defaults.store == Saved(old(defaults.store), tasks)
    {
      defaults.Set(Some(DictionaryList(EncodeAll(tasks))), TasksKey);
    }
  }
}
