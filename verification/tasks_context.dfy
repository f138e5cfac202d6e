/**
 * The client's `TaskProvider`: the local task list and the effect each
 * handler has on it once its request settles.
 */
module TasksContext {
  import opened Optional
  import opened Http

  type TaskId = nat

  datatype Task = Task(id: TaskId, title: string, description: string)

  const Initial: seq<Task> := []

  /** `tasks.filter((task) => task._id !== id)`. */
  function Without(tasks: seq<Task>, id: TaskId): (r: seq<Task>)
    ensures forall t :: t in r <==> t in tasks && t.id != id
    ensures |r| <= |tasks|
  {
    if |tasks| == 0 then []
    else if tasks[0].id != id then [tasks[0]] + Without(tasks[1..], id)
    else Without(tasks[1..], id)
  }

  /** Filtering distributes over concatenation: the kept tasks stay in their order. */
  lemma {:induction false} WithoutAppend(a: seq<Task>, b: seq<Task>, id: TaskId)
    ensures Without(a + b, id) == Without(a, id) + Without(b, id)
  {
    if |a| == 0 {
      assert a + b == b;
    } else {
      assert (a + b)[1..] == a[1..] + b;
      WithoutAppend(a[1..], b, id);
    }
  }

  /** A list holding no task with `id` is left exactly as it is. */
  lemma {:induction false} WithoutAbsent(tasks: seq<Task>, id: TaskId)
    requires forall i :: 0 <= i < |tasks| ==> tasks[i].id != id
    ensures Without(tasks, id) == tasks
  {
    if |tasks| > 0 {
      WithoutAbsent(tasks[1..], id);
    }
  }

  /** Deleting twice is deleting once. */
  lemma WithoutIdempotent(tasks: seq<Task>, id: TaskId)
    ensures Without(Without(tasks, id), id) == Without(tasks, id)
  {
    var r := Without(tasks, id);
    forall i | 0 <= i < |r| ensures r[i].id != id {
      assert r[i] in r;
    }
    WithoutAbsent(r, id);
  }

  /** `getTasks`: a reply replaces the list; a failure is only logged. */
  function GetTasks(tasks: seq<Task>, reply: Reply<seq<Task>>): (r: seq<Task>)
    ensures reply.Resolved? ==> r == reply.data
    ensures reply.Rejected? ==> r == tasks
  {
    match reply
    case Resolved(_, data) => data
    case Rejected(_) => tasks
  }

  /** `deleteTask(id)`: only a 204 reply removes the task locally. */
  function DeleteTask(tasks: seq<Task>, id: TaskId, reply: Reply<()>): (r: seq<Task>)
    ensures reply.Resolved? && reply.status == 204 ==>
              (forall t :: t in r <==> t in tasks && t.id != id)
    // The kept tasks are exactly the filter's, in their original order.
    ensures reply.Resolved? && reply.status == 204 ==> r == Without(tasks, id)
    ensures !(reply.Resolved? && reply.status == 204) ==> r == tasks
    ensures forall t :: t in r ==> t in tasks
  {
    if reply.Resolved? && reply.status == 204 then Without(tasks, id) else tasks
  }

  /** `createTask`: the reply is only logged; the list is not refreshed. */
  function CreateTask(tasks: seq<Task>, reply: Reply<Task>): (r: seq<Task>)
    ensures r == tasks
  {
    tasks
  }

  /** `getTask(id)`: the task is handed to the caller, not stored. */
  datatype Fetched = Fetched(tasks: seq<Task>, task: Option<Task>)

  function GetTask(tasks: seq<Task>, reply: Reply<Task>): (r: Fetched)
    ensures r.tasks == tasks
    ensures r.task.Some? <==> reply.Resolved?
    ensures reply.Resolved? ==> r.task == Some(reply.data)
  {
    match reply
    case Resolved(_, data) => Fetched(tasks, Some(data))
    case Rejected(_) => Fetched(tasks, None)
  }

  /** `updateTask(id, task)`: the list is not refreshed. */
  function UpdateTask(tasks: seq<Task>, reply: Reply<()>): (r: seq<Task>)
    ensures r == tasks
  {
    tasks
  }

  datatype Event =
    | ListArrived(list: Reply<seq<Task>>)
    | DeleteArrived(id: TaskId, deleted: Reply<()>)
    | CreateArrived(created: Reply<Task>)
    | TaskArrived(one: Reply<Task>)
    | UpdateArrived(updated: Reply<()>)

  function Step(tasks: seq<Task>, e: Event): seq<Task> {
    match e
    case ListArrived(reply) => GetTasks(tasks, reply)
    case DeleteArrived(id, reply) => DeleteTask(tasks, id, reply)
    case CreateArrived(reply) => CreateTask(tasks, reply)
    case TaskArrived(reply) => GetTask(tasks, reply).tasks
    case UpdateArrived(reply) => UpdateTask(tasks, reply)
  }

  function Run(tasks: seq<Task>, events: seq<Event>): seq<Task>
    decreases |events|
  {
    if |events| == 0 then tasks else Run(Step(tasks, events[0]), events[1..])
  }

  predicate Reloads(e: Event) {
    e.ListArrived? && e.list.Resolved?
  }

  /**
   * Between two successful `getTasks`, the list only loses tasks: creating
   * or updating a task never shows up locally until the next reload.
   */
  lemma {:induction false} RunWithoutReloadOnlyShrinks(tasks: seq<Task>, events: seq<Event>)
    requires forall i :: 0 <= i < |events| ==> !Reloads(events[i])
    ensures forall t :: t in Run(tasks, events) ==> t in tasks
    decreases |events|
  {
    if |events| > 0 {
      RunWithoutReloadOnlyShrinks(Step(tasks, events[0]), events[1..]);
    }
  }

  /** Running a sequence and then one more event is stepping the sequence's result. */
  lemma {:induction false} RunSnoc(tasks: seq<Task>, events: seq<Event>, e: Event)
    ensures Run(tasks, events + [e]) == Step(Run(tasks, events), e)
    decreases |events|
  {
    if |events| > 0 {
      assert (events + [e])[1..] == events[1..] + [e];
      RunSnoc(Step(tasks, events[0]), events[1..], e);
    }
  }

  /** Whatever happened before, a run ending in a successful reload shows exactly the server's list. */
  lemma RunEndingInReload(tasks: seq<Task>, events: seq<Event>, status: int, data: seq<Task>)
    ensures Run(tasks, events + [ListArrived(Resolved(status, data))]) == data
  {
    RunSnoc(tasks, events, ListArrived(Resolved(status, data)));
  }
}
