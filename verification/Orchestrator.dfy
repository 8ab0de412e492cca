/**
 * The orchestrator as a state machine: producers and specialists on four Redis lists,
 * the consumer, the worker pool's permits and its registry of active tasks.
 */
module Orchestrator {
  import opened Routing
  import opened Wrappers

  /**
   * The bytes of a queue entry: refused as invalid JSON; refused in another way (not UTF-8, an
   * integer of too many digits, nesting too deep); JSON but not an object; or a task.
   */
  datatype Body = Garbage | Undecodable | NotObject | Task(payload: Payload)

  /** A queue entry. The tag tells entries apart and stays with a task when it is re-enqueued. */
  datatype Item = Item(tag: nat, body: Body)

  /** A background task of the pool: created, inside the supervisor graph, or past its push. */
  datatype Worker =
    | Created(item: Item)
    | Running(item: Item, since: real)
    | Routed(id: Json, since: real)
  {
    predicate Started() { !Created? }

    function TaskId(): Json {
      if Routed? then id else IdOf(item)
    }
  }

  function IdOf(item: Item): Json {
    if item.body.Task? then Get(item.body.payload, "task_id", Str("unknown")) else Str("unknown")
  }

  datatype System = System(
    queues: seq<seq<Item>>,
    hand: Option<Item>,               // popped, waiting for a permit
    workers: seq<Worker>,
    free: nat,                        // semaphore permits
    leaked: nat,                      // permits no worker will release
    active: map<Json, real>,          // the pool's registry: task id to start time
    consuming: bool,                  // the consumer loop is still running
    delivered: seq<Item>,             // taken by a specialist
    rejected: seq<Item>,              // logged as invalid JSON
    crashed: seq<Item>,               // undecodable or no object: ended the consumer loop
    failed: seq<Item>,                // logged as an unhandled exception
    pushed: seq<seq<Item>>,           // everything ever pushed to, and popped from, each queue
    popped: seq<seq<Item>>)

  datatype Event =
    | Push(q: Queue, item: Item)
    | Specialist(q: Queue)
    | Pop
    | Stop
    | Dispatch
    | Start(worker: nat, now: real)
    | Route(worker: nat, clock: int, reply: Reply)
    | Fail(worker: nat)
    | Done(worker: nat)

  function Init(permits: nat): System {
    var none := [[], [], [], []];
    System(none, None, [], permits, 0, map[], true, [], [], [], [], none, none)
  }

  ghost predicate Shaped(s: System) {
    |s.queues| == 4 && |s.pushed| == 4 && |s.popped| == 4
  }

  /** BLPOP over several keys: the first non-empty one, or 4. */
  function FirstNonEmpty(queues: seq<seq<Item>>, from: nat): (q: nat)
    requires |queues| == 4 && from <= 4
    ensures from <= q <= 4
    ensures forall i :: from <= i < q ==> queues[i] == []
    ensures q < 4 ==> queues[q] != []
    decreases 4 - from
  {
    if from == 4 || queues[from] != [] then from else FirstNonEmpty(queues, from + 1)
  }

  function RPush(s: System, q: Queue, item: Item): System
    requires Shaped(s)
  {
    s.(queues := s.queues[q := s.queues[q] + [item]], pushed := s.pushed[q := s.pushed[q] + [item]])
  }

  function LPop(s: System, q: Queue): System
    requires Shaped(s) && s.queues[q] != []
  {
    s.(queues := s.queues[q := s.queues[q][1..]], popped := s.popped[q := s.popped[q] + [s.queues[q][0]]])
  }

  function Remove<T>(s: seq<T>, i: nat): seq<T>
    requires i < |s|
  {
    s[..i] + s[i + 1..]
  }

  /** The `finally` clause of a worker: deregister and release the permit. */
  function Finally(s: System, worker: nat): System
    requires worker < |s.workers|
  {
    s.(workers := Remove(s.workers, worker),
       active := s.active - {s.workers[worker].TaskId()},
       free := s.free + 1)
  }

  ghost predicate Enabled(s: System, e: Event) {
    Shaped(s) &&
    match e
    case Push(_, _) => true
    case Specialist(q) => q != ORCHESTRATOR && s.queues[q] != []
    case Pop => s.consuming && s.hand.None? && FirstNonEmpty(s.queues, 0) < 4
    case Stop => true
    case Dispatch => s.hand.Some? && s.free > 0
    case Start(w, _) => w < |s.workers| && s.workers[w].Created?
    case Route(w, _, _) => w < |s.workers| && s.workers[w].Running?
    case Fail(w) => w < |s.workers| && s.workers[w].Running?
    case Done(w) => w < |s.workers| && s.workers[w].Routed?
  }

  /** _process_task up to the dispatch. */
  function Receive(s: System, item: Item): System {
    match item.body
    case Garbage => s.(rejected := s.rejected + [item])
    case Undecodable => s.(crashed := s.crashed + [item], consuming := false)
    case NotObject => s.(crashed := s.crashed + [item], consuming := false)
    case Task(_) => s.(hand := Some(item))
  }

  function Step(iso: IsoFormat, s: System, e: Event): System
    requires Enabled(s, e)
  {
    match e
    case Push(q, item) => RPush(s, q, item)
    case Specialist(q) => LPop(s, q).(delivered := s.delivered + [s.queues[q][0]])
    case Pop =>
      var q := FirstNonEmpty(s.queues, 0);
      Receive(LPop(s, q), s.queues[q][0])
    case Stop => s.(consuming := false)
    case Dispatch =>
      s.(hand := None, workers := s.workers + [Created(s.hand.value)], free := s.free - 1)
    case Start(w, now) =>
      var item := s.workers[w].item;
      if IdOf(item).Compound? then
        // an unhashable id raises before the try: no permit is released
        s.(workers := Remove(s.workers, w), leaked := s.leaked + 1, failed := s.failed + [item])
      else
        s.(workers := s.workers[w := Running(item, now)], active := s.active[IdOf(item) := now])
    case Route(w, clock, reply) =>
      var item := s.workers[w].item;
      var out := if item.body.Task? then Supervise(iso, item.body.payload, clock, reply) else None;
      if out.None? then Finally(s, w).(failed := s.failed + [item])
      else
        RPush(s.(workers := s.workers[w := Routed(IdOf(item), s.workers[w].since)]),
              out.value.0, Item(item.tag, Task(out.value.1)))
    case Fail(w) => Finally(s, w).(failed := s.failed + [s.workers[w].item])
    case Done(w) => Finally(s, w)
  }

  ghost predicate IsRun(iso: IsoFormat, s: System, run: seq<Event>)
    decreases |run|
  {
    run == [] || (Enabled(s, run[0]) && IsRun(iso, Step(iso, s, run[0]), run[1..]))
  }

  ghost function Exec(iso: IsoFormat, s: System, run: seq<Event>): System
    requires IsRun(iso, s, run)
    decreases |run|
  {
    if run == [] then s else Exec(iso, Step(iso, s, run[0]), run[1..])
  }

  lemma {:induction false} ExecAppend(iso: IsoFormat, s: System, run: seq<Event>, e: Event)
    requires IsRun(iso, s, run) && Enabled(Exec(iso, s, run), e)
    ensures IsRun(iso, s, run + [e]) && Exec(iso, s, run + [e]) == Step(iso, Exec(iso, s, run), e)
    decreases |run|
  {
    if run == [] {
      assert run + [e] == [e];
    } else {
      assert (run + [e])[1..] == run[1..] + [e];
      ExecAppend(iso, Step(iso, s, run[0]), run[1..], e);
    }
  }

  // ---------- conservation ----------

  /** How often a tag occurs among the items. */
  function Count(items: seq<Item>, tag: nat): nat {
    if items == [] then 0 else (if items[0].tag == tag then 1 else 0) + Count(items[1..], tag)
  }

  function CountQueues(queues: seq<seq<Item>>, tag: nat): nat {
    if queues == [] then 0 else Count(queues[0], tag) + CountQueues(queues[1..], tag)
  }

  /** A worker holds its task until it has pushed it on. */
  function Holds(w: Worker, tag: nat): nat {
    if !w.Routed? && w.item.tag == tag then 1 else 0
  }

  function CountWorkers(workers: seq<Worker>, tag: nat): nat {
    if workers == [] then 0 else Holds(workers[0], tag) + CountWorkers(workers[1..], tag)
  }

  /** Every place a task can be: a queue, the consumer, a worker, or gone for one of four reasons. */
  function Places(s: System, tag: nat): nat {
    CountQueues(s.queues, tag)
    + (if s.hand.Some? && s.hand.value.tag == tag then 1 else 0)
    + CountWorkers(s.workers, tag)
    + Count(s.delivered, tag) + Count(s.rejected, tag) + Count(s.crashed, tag) + Count(s.failed, tag)
  }

  /** How often producers put a tag in during a run. */
  function Injected(run: seq<Event>, tag: nat): nat {
    if run == [] then 0
    else (if run[0].Push? && run[0].item.tag == tag then 1 else 0) + Injected(run[1..], tag)
  }

  lemma {:induction false} CountAppend(items: seq<Item>, item: Item, tag: nat)
    ensures Count(items + [item], tag) == Count(items, tag) + Count([item], tag)
  {
    if items == [] {
      assert items + [item] == [item];
    } else {
      assert (items + [item])[1..] == items[1..] + [item];
      CountAppend(items[1..], item, tag);
    }
  }

  lemma {:induction false} CountQueuesUpdate(queues: seq<seq<Item>>, q: nat, items: seq<Item>, tag: nat)
    requires q < |queues|
    ensures CountQueues(queues[q := items], tag)
         == CountQueues(queues, tag) - Count(queues[q], tag) + Count(items, tag)
  {
    var updated := queues[q := items];
    if q == 0 {
      assert updated[1..] == queues[1..];
    } else {
      assert updated[1..] == queues[1..][q - 1 := items];
      CountQueuesUpdate(queues[1..], q - 1, items, tag);
    }
  }

  lemma {:induction false} CountWorkersAppend(workers: seq<Worker>, w: Worker, tag: nat)
    ensures CountWorkers(workers + [w], tag) == CountWorkers(workers, tag) + Holds(w, tag)
  {
    if workers == [] {
      assert workers + [w] == [w];
    } else {
      assert (workers + [w])[1..] == workers[1..] + [w];
      CountWorkersAppend(workers[1..], w, tag);
    }
  }

  lemma {:induction false} CountWorkersUpdate(workers: seq<Worker>, i: nat, w: Worker, tag: nat)
    requires i < |workers|
    ensures CountWorkers(workers[i := w], tag)
         == CountWorkers(workers, tag) - Holds(workers[i], tag) + Holds(w, tag)
  {
    var updated := workers[i := w];
    if i == 0 {
      assert updated[1..] == workers[1..];
    } else {
      assert updated[1..] == workers[1..][i - 1 := w];
      CountWorkersUpdate(workers[1..], i - 1, w, tag);
    }
  }

  lemma {:induction false} CountWorkersRemove(workers: seq<Worker>, i: nat, tag: nat)
    requires i < |workers|
    ensures CountWorkers(Remove(workers, i), tag) == CountWorkers(workers, tag) - Holds(workers[i], tag)
  {
    if i == 0 {
      assert Remove(workers, 0) == workers[1..];
    } else {
      assert Remove(workers, i)[1..] == Remove(workers[1..], i - 1);
      CountWorkersRemove(workers[1..], i - 1, tag);
    }
  }

  lemma PushPlaces(s: System, q: Queue, item: Item, tag: nat)
    requires Shaped(s)
    ensures Places(RPush(s, q, item), tag) == Places(s, tag) + Count([item], tag)
  {
    CountQueuesUpdate(s.queues, q, s.queues[q] + [item], tag);
    CountAppend(s.queues[q], item, tag);
  }

  lemma PopPlaces(s: System, q: Queue, tag: nat)
    requires Shaped(s) && s.queues[q] != []
    ensures Places(LPop(s, q), tag) + Count([s.queues[q][0]], tag) == Places(s, tag)
  {
    CountQueuesUpdate(s.queues, q, s.queues[q][1..], tag);
  }

  lemma QueueStepConserves(iso: IsoFormat, s: System, e: Event, tag: nat)
    requires Enabled(s, e) && (e.Push? || e.Specialist? || e.Pop? || e.Stop?)
    ensures Places(Step(iso, s, e), tag) == Places(s, tag) + if e.Push? && e.item.tag == tag then 1 else 0
  {
    hide FirstNonEmpty;
    match e
    case Push(q, item) => PushPlaces(s, q, item, tag);
    case Specialist(q) =>
      PopPlaces(s, q, tag);
      CountAppend(s.delivered, s.queues[q][0], tag);
    case Pop =>
      var q := FirstNonEmpty(s.queues, 0);
      PopPlaces(s, q, tag);
      CountAppend(s.rejected, s.queues[q][0], tag);
      CountAppend(s.crashed, s.queues[q][0], tag);
    case Stop =>
  }

  lemma FinallyPlaces(s: System, w: nat, tag: nat)
    requires w < |s.workers|
    ensures Places(Finally(s, w), tag) == Places(s, tag) - Holds(s.workers[w], tag)
  {
    CountWorkersRemove(s.workers, w, tag);
  }

  lemma FailedPlaces(s: System, item: Item, tag: nat)
    ensures Places(s.(failed := s.failed + [item]), tag) == Places(s, tag) + Count([item], tag)
  {
    CountAppend(s.failed, item, tag);
  }

  lemma StartConserves(iso: IsoFormat, s: System, w: nat, now: real, tag: nat)
    requires Enabled(s, Start(w, now))
    ensures Places(Step(iso, s, Start(w, now)), tag) == Places(s, tag)
  {
    var item := s.workers[w].item;
    if IdOf(item).Compound? {
      CountWorkersRemove(s.workers, w, tag);
      CountAppend(s.failed, item, tag);
    } else {
      CountWorkersUpdate(s.workers, w, Running(item, now), tag);
    }
  }

  lemma PoolStepConserves(iso: IsoFormat, s: System, e: Event, tag: nat)
    requires Enabled(s, e) && (e.Dispatch? || e.Fail? || e.Done?)
    ensures Places(Step(iso, s, e), tag) == Places(s, tag)
  {
    if e.Dispatch? {
      CountWorkersAppend(s.workers, Created(s.hand.value), tag);
    } else {
      FinallyPlaces(s, e.worker, tag);
      if e.Fail? {
        FailedPlaces(Finally(s, e.worker), s.workers[e.worker].item, tag);
      }
    }
  }

  lemma RouteConserves(iso: IsoFormat, s: System, w: nat, clock: int, reply: Reply, tag: nat)
    requires Enabled(s, Route(w, clock, reply))
    ensures Places(Step(iso, s, Route(w, clock, reply)), tag) == Places(s, tag)
  {
    hide Supervise, IdOf;
    var item := s.workers[w].item;
    var routed := Routed(IdOf(item), s.workers[w].since);
    var out := if item.body.Task? then Supervise(iso, item.body.payload, clock, reply) else None;
    if out.Some? {
      CountWorkersUpdate(s.workers, w, routed, tag);
      PushPlaces(s.(workers := s.workers[w := routed]), out.value.0, Item(item.tag, Task(out.value.1)), tag);
    } else {
      FinallyPlaces(s, w, tag);
      FailedPlaces(Finally(s, w), item, tag);
    }
  }

  lemma StepConserves(iso: IsoFormat, s: System, e: Event, tag: nat)
    requires Enabled(s, e)
    ensures Places(Step(iso, s, e), tag) == Places(s, tag) + if e.Push? && e.item.tag == tag then 1 else 0
  {
    match e
    case Push(_, _) => QueueStepConserves(iso, s, e, tag);
    case Specialist(_) => QueueStepConserves(iso, s, e, tag);
    case Pop => QueueStepConserves(iso, s, e, tag);
    case Stop => QueueStepConserves(iso, s, e, tag);
    case Route(w, clock, reply) => RouteConserves(iso, s, w, clock, reply, tag);
    case Start(w, now) => StartConserves(iso, s, w, now, tag);
    case _ => PoolStepConserves(iso, s, e, tag);
  }

  lemma {:induction false} RunConserves(iso: IsoFormat, s: System, run: seq<Event>, tag: nat)
    requires IsRun(iso, s, run)
    ensures Places(Exec(iso, s, run), tag) == Places(s, tag) + Injected(run, tag)
    decreases |run|
  {
    if run != [] {
      StepConserves(iso, s, run[0], tag);
      RunConserves(iso, Step(iso, s, run[0]), run[1..], tag);
    }
  }

  lemma {:induction false} NoneQueued(queues: seq<seq<Item>>, tag: nat)
    requires forall i :: 0 <= i < |queues| ==> queues[i] == []
    ensures CountQueues(queues, tag) == 0
  {
    if queues != [] {
      NoneQueued(queues[1..], tag);
    }
  }

  /**
   * Conservation over whole runs: a task is in as many places as it was put in. One put in
   * once is, at every moment, in exactly one queue, with the consumer, with one worker, or
   * gone: to a specialist, as rejected JSON, with the consumer's crash, or as a failure.
   */
  lemma TaskConservation(iso: IsoFormat, permits: nat, run: seq<Event>, tag: nat)
    requires IsRun(iso, Init(permits), run)
    ensures Places(Exec(iso, Init(permits), run), tag) == Injected(run, tag)
  {
    RunConserves(iso, Init(permits), run, tag);
    NoneQueued(Init(permits).queues, tag);
  }

  // ---------- order ----------

  /** Each queue is FIFO: what was popped, then what is left, is what was pushed. */
  ghost predicate Fifo(s: System) {
    Shaped(s) && forall q :: 0 <= q < 4 ==> s.pushed[q] == s.popped[q] + s.queues[q]
  }

  lemma StepKeepsFifo(iso: IsoFormat, s: System, e: Event)
    requires Enabled(s, e) && Fifo(s)
    ensures Fifo(Step(iso, s, e))
  {
    hide FirstNonEmpty, Supervise, IdOf, Fifo;
    match e
    case Push(q, item) => PushKeepsFifo(s, q, item);
    case Specialist(q) =>
      PopKeepsFifo(s, q);
      SameQueues(LPop(s, q), Step(iso, s, e));
    case Pop =>
      PopKeepsFifo(s, FirstNonEmpty(s.queues, 0));
      SameQueues(LPop(s, FirstNonEmpty(s.queues, 0)), Step(iso, s, e));
    case Route(w, clock, reply) =>
      var item := s.workers[w].item;
      var out := if item.body.Task? then Supervise(iso, item.body.payload, clock, reply) else None;
      if out.Some? {
        PushKeepsFifo(s, out.value.0, Item(item.tag, Task(out.value.1)));
        SameQueues(RPush(s, out.value.0, Item(item.tag, Task(out.value.1))), Step(iso, s, e));
      } else {
        SameQueues(s, Step(iso, s, e));
      }
    case _ => SameQueues(s, Step(iso, s, e));
  }

  lemma PushKeepsFifo(s: System, q: Queue, item: Item)
    requires Shaped(s) && Fifo(s)
    ensures Fifo(RPush(s, q, item))
  {
  }

  lemma PopKeepsFifo(s: System, q: Queue)
    requires Shaped(s) && s.queues[q] != [] && Fifo(s)
    ensures Fifo(LPop(s, q))
  {
    assert s.queues[q] == [s.queues[q][0]] + s.queues[q][1..];
  }

  lemma SameQueues(s: System, s': System)
    requires Fifo(s) && s'.queues == s.queues && s'.pushed == s.pushed && s'.popped == s.popped
    ensures Fifo(s')
  {
  }

  lemma {:induction false} RunKeepsFifo(iso: IsoFormat, s: System, run: seq<Event>)
    requires IsRun(iso, s, run) && Fifo(s)
    ensures Fifo(Exec(iso, s, run))
    decreases |run|
  {
    if run != [] {
      StepKeepsFifo(iso, s, run[0]);
      RunKeepsFifo(iso, Step(iso, s, run[0]), run[1..]);
    }
  }

  /**
   * The consumer takes the oldest entry of a queue only when those before it are empty: the
   * orchestrator's own first, then the client's, the in-server agent's and the reports. A task
   * goes to the pool, invalid JSON is rejected, and anything else ends the loop.
   */
  lemma PopTakesByPriority(iso: IsoFormat, s: System) returns (q: Queue)
    requires Enabled(s, Pop)
    ensures s.queues[q] != []
    ensures q == CLIENT ==> s.queues[ORCHESTRATOR] == []
    ensures q == INSERVER ==> s.queues[ORCHESTRATOR] == s.queues[CLIENT] == []
    ensures q == REPORT ==> s.queues[ORCHESTRATOR] == s.queues[CLIENT] == s.queues[INSERVER] == []
    ensures var s', item := Step(iso, s, Pop), s.queues[q][0];
      && s'.popped == s.popped[q := s.popped[q] + [item]]
      && s'.queues == s.queues[q := s.queues[q][1..]]
      && match item.body
         case Task(_) => s'.hand == Some(item) && s'.consuming && (s'.rejected, s'.crashed) == (s.rejected, s.crashed)
         case Garbage => s'.hand.None? && s'.consuming && (s'.rejected, s'.crashed) == (s.rejected + [item], s.crashed)
         case _ => s'.hand.None? && !s'.consuming && (s'.rejected, s'.crashed) == (s.rejected, s.crashed + [item])
  {
    q := FirstNonEmpty(s.queues, 0);
  }

  // ---------- where a routed task goes ----------

  /** Exactly queue `q` grows, by `item`; the other three stay as they are. */
  ghost predicate OnlyGrows(s: System, s': System, q: Queue, item: Item) {
    && Shaped(s) && Shaped(s')
    && s'.queues[q] == s.queues[q] + [item] && s'.pushed[q] == s.pushed[q] + [item]
    && forall i :: 0 <= i < 4 && i != q ==> s'.queues[i] == s.queues[i] && s'.pushed[i] == s.pushed[i]
  }

  /**
   * The supervisor graph fails and pushes nothing exactly when it cannot route its task; else
   * it pushes one entry, with the tag it took and the payload of one pass, and its type decides
   * which queue grows.
   */
  lemma RoutePushesByType(iso: IsoFormat, s: System, w: nat, clock: int, reply: Reply)
    requires Enabled(s, Route(w, clock, reply))
    ensures var item, s' := s.workers[w].item, Step(iso, s, Route(w, clock, reply));
      if item.body.Task? && Supervise(iso, item.body.payload, clock, reply).Some? then
        var out := Supervise(iso, item.body.payload, clock, reply).value.1;
        && s'.failed == s.failed && "task_type" in out
        && exists q: Queue :: Belongs(q, out["task_type"]) && OnlyGrows(s, s', q, Item(item.tag, Task(out)))
      else s'.queues == s.queues && s'.pushed == s.pushed && s'.failed == s.failed + [item]
  {
    var item, s' := s.workers[w].item, Step(iso, s, Route(w, clock, reply));
    if item.body.Task? && Supervise(iso, item.body.payload, clock, reply).Some? {
      RoutedByTypeOrAgent(iso, item.body.payload, clock, reply);
      var (q, out) := Supervise(iso, item.body.payload, clock, reply).value;
      hide Supervise;
      assert OnlyGrows(s, s', q, Item(item.tag, Task(out)));
    }
  }

  /** A task of this type is routed to this queue. */
  predicate RightlyOn(q: Queue, item: Item) {
    item.body.Task? && "task_type" in item.body.payload && Belongs(q, item.body.payload["task_type"])
  }

  /** Whatever was pushed to a queue was put there by a producer or is of a type that belongs there. */
  ghost predicate RightlyPushed(s: System, put: (Queue, Item) -> bool) {
    Shaped(s) && forall q: Queue, k :: 0 <= k < |s.pushed[q]| ==> put(q, s.pushed[q][k]) || RightlyOn(q, s.pushed[q][k])
  }

  lemma StepKeepsRightlyPushed(iso: IsoFormat, s: System, e: Event, put: (Queue, Item) -> bool)
    requires Enabled(s, e) && RightlyPushed(s, put) && (e.Push? ==> put(e.q, e.item))
    ensures RightlyPushed(Step(iso, s, e), put)
  {
    hide FirstNonEmpty, Supervise, IdOf, Belongs;
    if e.Route? {
      RoutePushesByType(iso, s, e.worker, e.clock, e.reply);
    }
  }

  lemma {:induction false} RunKeepsRightlyPushed(iso: IsoFormat, s: System, run: seq<Event>,
                                                 put: (Queue, Item) -> bool)
    requires IsRun(iso, s, run) && RightlyPushed(s, put)
    requires forall i :: 0 <= i < |run| && run[i].Push? ==> put(run[i].q, run[i].item)
    ensures RightlyPushed(Exec(iso, s, run), put)
    decreases |run|
  {
    hide RightlyPushed;
    if run != [] {
      StepKeepsRightlyPushed(iso, s, run[0], put);
      RunKeepsRightlyPushed(iso, Step(iso, s, run[0]), run[1..], put);
    }
  }

  /** A worker is registered under its task's id, from the moment it starts. */
  lemma StartRegisters(iso: IsoFormat, s: System, w: nat, now: real)
    requires Enabled(s, Start(w, now)) && s.workers[w].item.body.Task?
    ensures var item, s' := s.workers[w].item, Step(iso, s, Start(w, now));
      var id := if "task_id" in item.body.payload then item.body.payload["task_id"] else Str("unknown");
      if id.Compound? then s'.active == s.active && s'.failed == s.failed + [item] && s'.free == s.free
      else s'.active == s.active[id := now] && s'.workers == s.workers[w := Running(item, now)]
  {
  }

  // ---------- permits ----------

  ghost predicate PermitsAgree(permits: nat, s: System) {
    s.free + |s.workers| + s.leaked == permits
  }

  lemma StepKeepsPermits(iso: IsoFormat, permits: nat, s: System, e: Event)
    requires Enabled(s, e) && PermitsAgree(permits, s)
    ensures PermitsAgree(permits, Step(iso, s, e))
  {
  }

  ghost predicate AllHashable(items: seq<Item>) {
    forall i :: 0 <= i < |items| ==> !IdOf(items[i]).Compound?
  }

  /** Every task the orchestrator can still start has an id that can be a dictionary key. */
  ghost predicate HashableIds(s: System) {
    && Shaped(s) && s.leaked == 0
    && (forall q :: 0 <= q < 4 ==> AllHashable(s.queues[q]))
    && (s.hand.Some? ==> !IdOf(s.hand.value).Compound?)
    && (forall i :: 0 <= i < |s.workers| ==> !s.workers[i].TaskId().Compound?)
  }

  lemma RoutedKeepsId(iso: IsoFormat, item: Item, clock: int, reply: Reply)
    requires item.body.Task? && Supervise(iso, item.body.payload, clock, reply).Some?
    ensures var out := Supervise(iso, item.body.payload, clock, reply).value.1;
      IdOf(Item(item.tag, Task(out))) == IdOf(item)
  {
  }

  lemma StepKeepsQueuesHashable(iso: IsoFormat, s: System, e: Event, q: nat)
    requires Enabled(s, e) && HashableIds(s) && q < 4
    requires e.Push? ==> !IdOf(e.item).Compound?
    ensures AllHashable(Step(iso, s, e).queues[q])
  {
    hide FirstNonEmpty, Supervise, IdOf;
    assert AllHashable(s.queues[q]);
    if e.Route? {
      var item := s.workers[e.worker].item;
      if item.body.Task? && Supervise(iso, item.body.payload, e.clock, e.reply).Some? {
        RoutedKeepsId(iso, item, e.clock, e.reply);
      }
    }
  }

  lemma StepKeepsHashable(iso: IsoFormat, s: System, e: Event)
    requires Enabled(s, e) && HashableIds(s)
    requires e.Push? ==> !IdOf(e.item).Compound?
    ensures HashableIds(Step(iso, s, e))
  {
    forall q | 0 <= q < 4 ensures AllHashable(Step(iso, s, e).queues[q]) {
      StepKeepsQueuesHashable(iso, s, e, q);
    }
    if e.Pop? {
      assert AllHashable(s.queues[FirstNonEmpty(s.queues, 0)]);
    }
    hide AllHashable, Supervise, IdOf;
  }

  /** While every pushed task has a hashable id, each permit is free or with one unfinished task. */
  lemma {:induction false} PermitAccounting(iso: IsoFormat, permits: nat, s: System, run: seq<Event>)
    requires IsRun(iso, s, run) && PermitsAgree(permits, s)
    ensures PermitsAgree(permits, Exec(iso, s, run))
    ensures HashableIds(s) && (forall e :: e in run && e.Push? ==> !IdOf(e.item).Compound?) ==>
      var s' := Exec(iso, s, run); HashableIds(s') && s'.free + |s'.workers| == permits
    decreases |run|
  {
    if run != [] {
      StepKeepsPermits(iso, permits, s, run[0]);
      if HashableIds(s) && (forall e :: e in run && e.Push? ==> !IdOf(e.item).Compound?) {
        assert run[0] in run;
        StepKeepsHashable(iso, s, run[0]);
        assert forall e :: e in run[1..] ==> e in run;
      }
      PermitAccounting(iso, permits, Step(iso, s, run[0]), run[1..]);
    }
  }

  // ---------- the registry of active tasks ----------

  function StartedIds(workers: seq<Worker>): set<Json> {
    if workers == [] then {}
    else (if workers[0].Started() then {workers[0].TaskId()} else {}) + StartedIds(workers[1..])
  }

  function StartedCount(workers: seq<Worker>): nat {
    if workers == [] then 0 else (if workers[0].Started() then 1 else 0) + StartedCount(workers[1..])
  }

  ghost predicate HasStarted(workers: seq<Worker>, k: Json) {
    exists i :: 0 <= i < |workers| && workers[i].Started() && workers[i].TaskId() == k
  }

  lemma HasStartedRemove(workers: seq<Worker>, w: nat, k: Json)
    requires w < |workers| && HasStarted(workers, k)
    requires !workers[w].Started() || workers[w].TaskId() != k
    ensures HasStarted(Remove(workers, w), k)
  {
    var i :| 0 <= i < |workers| && workers[i].Started() && workers[i].TaskId() == k;
    assert Remove(workers, w)[if i < w then i else i - 1] == workers[i];
  }

  lemma HasStartedUpdate(workers: seq<Worker>, w: nat, updated: Worker, k: Json)
    requires w < |workers| && HasStarted(workers, k)
    requires updated.Started() && (workers[w].Started() ==> updated.TaskId() == workers[w].TaskId())
    ensures HasStarted(workers[w := updated], k)
  {
    var i :| 0 <= i < |workers| && workers[i].Started() && workers[i].TaskId() == k;
    assert workers[w := updated][i].TaskId() == k;
  }

  /** Every registered id belongs to some started worker. */
  ghost predicate RegistrySound(s: System) {
    forall k :: k in s.active ==> HasStarted(s.workers, k)
  }

  lemma StepKeepsSound(iso: IsoFormat, s: System, e: Event)
    requires Enabled(s, e) && RegistrySound(s)
    ensures RegistrySound(Step(iso, s, e))
  {
    var s' := Step(iso, s, e);
    forall k | k in s'.active ensures HasStarted(s'.workers, k) {
      if e.Dispatch? {
        var i :| 0 <= i < |s.workers| && s.workers[i].Started() && s.workers[i].TaskId() == k;
        assert s'.workers[i] == s.workers[i];
      } else if s'.workers != s.workers {
        var w := e.worker;
        if |s'.workers| < |s.workers| {
          HasStartedRemove(s.workers, w, k);
        } else if k in s.active {
          HasStartedUpdate(s.workers, w, s'.workers[w], k);
          assert s'.workers == s.workers[w := s'.workers[w]];
        } else {
          assert s'.workers[w].TaskId() == k;
        }
      }
    }
  }

  lemma {:induction false} StartedIdsAre(workers: seq<Worker>)
    ensures forall k :: k in StartedIds(workers) <==> HasStarted(workers, k)
    ensures |StartedIds(workers)| <= StartedCount(workers)
  {
    if workers != [] {
      var rest := workers[1..];
      StartedIdsAre(rest);
      forall k | k in StartedIds(rest)
        ensures HasStarted(workers, k)
      {
        var i :| 0 <= i < |rest| && rest[i].Started() && rest[i].TaskId() == k;
        assert workers[i + 1] == rest[i];
      }
      forall i | 0 <= i < |workers| && workers[i].Started() ensures workers[i].TaskId() in StartedIds(workers) {
        if i > 0 {
          assert rest[i - 1] == workers[i];
        }
      }
    }
  }

  /** active_count never exceeds the number of tasks running. */
  lemma {:induction false} ActiveCountBound(iso: IsoFormat, s: System, run: seq<Event>)
    requires IsRun(iso, s, run) && RegistrySound(s)
    ensures RegistrySound(Exec(iso, s, run))
    ensures |Exec(iso, s, run).active| <= StartedCount(Exec(iso, s, run).workers)
    decreases |run|
  {
    if run == [] {
      StartedIdsAre(s.workers);
      assert s.active.Keys <= StartedIds(s.workers);
      SubsetSize(s.active.Keys, StartedIds(s.workers));
    } else {
      StepKeepsSound(iso, s, run[0]);
      ActiveCountBound(iso, Step(iso, s, run[0]), run[1..]);
    }
  }

  lemma {:induction false} SubsetSize<T>(a: set<T>, b: set<T>)
    requires a <= b
    ensures |a| <= |b|
  {
    if a != {} {
      var x :| x in a;
      SubsetSize(a - {x}, b - {x});
    }
  }

  ghost predicate DistinctStarted(s: System) {
    forall i, j :: 0 <= i < j < |s.workers| && s.workers[i].Started() && s.workers[j].Started() ==>
      s.workers[i].TaskId() != s.workers[j].TaskId()
  }

  /** The registry is exactly the started workers, with their start times. */
  ghost predicate RegistryExact(s: System) {
    RegistrySound(s) && AllRegistered(s.active, s.workers)
  }

  ghost predicate Registered(active: map<Json, real>, w: Worker) {
    w.Started() ==> w.TaskId() in active && active[w.TaskId()] == w.since
  }

  ghost predicate AllRegistered(active: map<Json, real>, workers: seq<Worker>) {
    forall i :: 0 <= i < |workers| ==> Registered(active, workers[i])
  }

  ghost predicate Clash(a: Worker, b: Worker) {
    a.Started() && b.Started() && a.TaskId() == b.TaskId()
  }

  lemma RegisteredRemove(active: map<Json, real>, workers: seq<Worker>, w: nat)
    requires w < |workers| && AllRegistered(active, workers)
    requires forall i :: 0 <= i < |workers| && i != w ==> !Clash(workers[i], workers[w])
    ensures workers[w].Started() ==> AllRegistered(active - {workers[w].TaskId()}, Remove(workers, w))
    ensures AllRegistered(active, Remove(workers, w))
  {
    var rest, deregistered := Remove(workers, w), active - {workers[w].TaskId()};
    forall i | 0 <= i < |rest|
      ensures Registered(active, rest[i])
    {
      assert rest[i] == workers[if i < w then i else i + 1];
    }
    if workers[w].Started() {
      forall i | 0 <= i < |rest| ensures Registered(deregistered, rest[i]) {
        var j := if i < w then i else i + 1;
        assert rest[i] == workers[j] && !Clash(workers[j], workers[w]);
      }
    }
  }

  lemma RegisteredStart(active: map<Json, real>, workers: seq<Worker>, w: nat, started: Worker)
    requires w < |workers| && AllRegistered(active, workers) && started.Started()
    requires forall i :: 0 <= i < |workers| && i != w ==> !Clash(workers[i], started)
    ensures AllRegistered(active[started.TaskId() := started.since], workers[w := started])
  {
    var registered, updated := active[started.TaskId() := started.since], workers[w := started];
    forall i | 0 <= i < |updated| ensures Registered(registered, updated[i]) {
      assert Registered(active, workers[i]);
    }
  }

  lemma StepKeepsExact(iso: IsoFormat, s: System, e: Event)
    requires Enabled(s, e) && RegistryExact(s)
    requires DistinctStarted(s) && DistinctStarted(Step(iso, s, e))
    ensures RegistryExact(Step(iso, s, e))
  {
    hide FirstNonEmpty, Supervise, IdOf;
    StepKeepsSound(iso, s, e);
    var s' := Step(iso, s, e);
    if e.Start? || e.Route? || e.Fail? || e.Done? {
      var w := e.worker;
      assert Registered(s.active, s.workers[w]);
      if |s'.workers| < |s.workers| {
        RegisteredRemove(s.active, s.workers, w);
      } else {
        var started := s'.workers[w];
        assert s'.workers == s.workers[w := started];
        forall i | 0 <= i < |s.workers| && i != w ensures !Clash(s.workers[i], started) {
          assert s'.workers[i] == s.workers[i];
        }
        RegisteredStart(s.active, s.workers, w, started);
        assert s'.active == s.active[started.TaskId() := started.since];
      }
    }
  }

  /** No two started workers share a task id at any moment of the run. */
  ghost predicate AlwaysDistinct(iso: IsoFormat, s: System, run: seq<Event>)
    requires IsRun(iso, s, run)
    decreases |run|
  {
    DistinctStarted(s) && (run == [] || AlwaysDistinct(iso, Step(iso, s, run[0]), run[1..]))
  }

  /** Then the registry is exact throughout. */
  lemma {:induction false} RegistryIsExact(iso: IsoFormat, s: System, run: seq<Event>)
    requires IsRun(iso, s, run) && AlwaysDistinct(iso, s, run) && RegistryExact(s)
    ensures RegistryExact(Exec(iso, s, run))
    decreases |run|
  {
    if run != [] {
      StepKeepsExact(iso, s, run[0]);
      RegistryIsExact(iso, Step(iso, s, run[0]), run[1..]);
    }
  }

  /** What the watchdog reports. */
  ghost function Stuck(active: map<Json, real>, now: real, threshold: real): set<Json> {
    set id | id in active && now - active[id] > threshold
  }

  /** With an exact registry the watchdog reports exactly the started workers over the threshold. */
  lemma WatchdogIsExact(s: System, now: real, threshold: real)
    requires RegistryExact(s)
    ensures forall k :: k in Stuck(s.active, now, threshold) <==>
      exists i :: 0 <= i < |s.workers| && s.workers[i].Started() && s.workers[i].TaskId() == k
                  && now - s.workers[i].since > threshold
  {
    forall k | k in Stuck(s.active, now, threshold)
      ensures exists i :: 0 <= i < |s.workers| && s.workers[i].Started() && s.workers[i].TaskId() == k
                          && now - s.workers[i].since > threshold
    {
      var i :| 0 <= i < |s.workers| && s.workers[i].Started() && s.workers[i].TaskId() == k;
      assert Registered(s.active, s.workers[i]);
    }
  }
}
