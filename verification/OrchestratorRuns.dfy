/**
 * What runs of the orchestrator from an empty system can and cannot lead to, in terms of
 * what producers push and how many permits there are.
 */
module OrchestratorRuns {
  import opened Orchestrator
  import opened Routing
  import opened Wrappers

  // ---------- what is true of every entry ----------

  ghost predicate AllOf(items: seq<Item>, p: Item -> bool) {
    forall i :: 0 <= i < |items| ==> p(items[i])
  }

  /** Every entry in the system, and every one that has left it, satisfies `p`. */
  ghost predicate Everywhere(s: System, p: Item -> bool) {
    && Shaped(s)
    && (forall q :: 0 <= q < 4 ==> AllOf(s.queues[q], p))
    && (s.hand.Some? ==> p(s.hand.value))
    && (forall i :: 0 <= i < |s.workers| && !s.workers[i].Routed? ==> p(s.workers[i].item))
    && AllOf(s.delivered, p) && AllOf(s.rejected, p) && AllOf(s.crashed, p) && AllOf(s.failed, p)
  }

  /** The entry that a pass over `item` pushes, if it pushes one. */
  function Passed(iso: IsoFormat, item: Item, clock: int, reply: Reply): Option<Item> {
    if !item.body.Task? || Supervise(iso, item.body.payload, clock, reply).None? then None
    else Some(Item(item.tag, Task(Supervise(iso, item.body.payload, clock, reply).value.1)))
  }

  ghost predicate KeptByPasses(iso: IsoFormat, p: Item -> bool) {
    forall item, clock, reply :: p(item) && Passed(iso, item, clock, reply).Some? ==>
      p(Passed(iso, item, clock, reply).value)
  }

  ghost predicate Pushes(run: seq<Event>, p: Item -> bool) {
    forall i :: 0 <= i < |run| && run[i].Push? ==> p(run[i].item)
  }

  lemma QueuesKeep(iso: IsoFormat, s: System, e: Event, p: Item -> bool, q: nat)
    requires Enabled(s, e) && Everywhere(s, p) && KeptByPasses(iso, p) && q < 4
    requires e.Push? ==> p(e.item)
    ensures AllOf(Step(iso, s, e).queues[q], p)
  {
    hide Supervise;
    assert AllOf(s.queues[q], p);
    if e.Route? {
      assert Passed(iso, s.workers[e.worker].item, e.clock, e.reply).Some? ==>
        p(Passed(iso, s.workers[e.worker].item, e.clock, e.reply).value);
    }
  }

  lemma HoldersKeep(iso: IsoFormat, s: System, e: Event, p: Item -> bool)
    requires Enabled(s, e) && Everywhere(s, p)
    ensures var s' := Step(iso, s, e);
      && (s'.hand.Some? ==> p(s'.hand.value))
      && (forall i :: 0 <= i < |s'.workers| && !s'.workers[i].Routed? ==> p(s'.workers[i].item))
  {
    hide Supervise, FirstNonEmpty;
    if e.Pop? {
      assert AllOf(s.queues[FirstNonEmpty(s.queues, 0)], p);
    }
  }

  lemma GoneKeep(iso: IsoFormat, s: System, e: Event, p: Item -> bool)
    requires Enabled(s, e) && Everywhere(s, p)
    ensures var s' := Step(iso, s, e);
      AllOf(s'.delivered, p) && AllOf(s'.rejected, p) && AllOf(s'.crashed, p) && AllOf(s'.failed, p)
  {
    hide Supervise, FirstNonEmpty;
    if e.Pop? {
      assert AllOf(s.queues[FirstNonEmpty(s.queues, 0)], p);
    } else if e.Specialist? {
      assert AllOf(s.queues[e.q], p);
    }
  }

  lemma StepKeepsEverywhere(iso: IsoFormat, s: System, e: Event, p: Item -> bool)
    requires Enabled(s, e) && Everywhere(s, p) && KeptByPasses(iso, p)
    requires e.Push? ==> p(e.item)
    ensures Everywhere(Step(iso, s, e), p)
  {
    HoldersKeep(iso, s, e, p);
    GoneKeep(iso, s, e, p);
    hide AllOf, Supervise, FirstNonEmpty;
    forall q | 0 <= q < 4 ensures AllOf(Step(iso, s, e).queues[q], p) {
      QueuesKeep(iso, s, e, p, q);
    }
  }

  /** What holds of all pushed entries, and is kept by a pass, holds of every entry anywhere. */
  lemma {:induction false} RunKeepsEverywhere(iso: IsoFormat, s: System, run: seq<Event>, p: Item -> bool)
    requires IsRun(iso, s, run) && Everywhere(s, p) && KeptByPasses(iso, p) && Pushes(run, p)
    ensures Everywhere(Exec(iso, s, run), p)
    decreases |run|
  {
    if run != [] {
      StepKeepsEverywhere(iso, s, run[0], p);
      RunKeepsEverywhere(iso, Step(iso, s, run[0]), run[1..], p);
    }
  }

  // ---------- what a task carries ----------

  /** The task as it was put in, or as one pass over that leaves it. */
  ghost predicate Carries(iso: IsoFormat, p: Payload, body: Body) {
    || body == Task(p)
    || exists clock: int, reply: Reply ::
         Supervise(iso, p, clock, reply).Some? && body == Task(Supervise(iso, p, clock, reply).value.1)
  }

  /** Wherever the tagged entry is, it carries `p` or one pass over it. */
  ghost predicate CarriedEverywhere(iso: IsoFormat, s: System, tag: nat, p: Payload) {
    Everywhere(s, (item: Item) => item.tag == tag ==> Carries(iso, p, item.body))
  }

  lemma PassKeepsCarried(iso: IsoFormat, p: Payload, item: Item, clock: int, reply: Reply)
    requires iso.RoundTrips() && Carries(iso, p, item.body) && Passed(iso, item, clock, reply).Some?
    ensures Carries(iso, p, Passed(iso, item, clock, reply).value.body)
  {
    hide Supervise;
    if item.body != Task(p) {
      var c: int, r: Reply :| Supervise(iso, p, c, r).Some? && item.body == Task(Supervise(iso, p, c, r).value.1);
      EmittedIsFixed(iso, p, c, r, clock, reply);
    }
  }

  /**
   * Contents over whole runs: if a tag is only ever pushed with payload `p`, then at every
   * moment the entry with that tag, wherever it is, and delivered to a specialist too,
   * carries `p` itself or what one pass over `p` makes of it, however often it was taken back.
   */
  lemma PayloadIsKept(iso: IsoFormat, permits: nat, run: seq<Event>, tag: nat, p: Payload)
    requires iso.RoundTrips() && IsRun(iso, Init(permits), run)
    requires Pushes(run, (item: Item) => item.tag == tag ==> item.body == Task(p))
    ensures CarriedEverywhere(iso, Exec(iso, Init(permits), run), tag, p)
  {
    var carried := (item: Item) => item.tag == tag ==> Carries(iso, p, item.body);
    forall item, clock, reply | carried(item) && Passed(iso, item, clock, reply).Some?
      ensures carried(Passed(iso, item, clock, reply).value)
    {
      if item.tag == tag {
        PassKeepsCarried(iso, p, item, clock, reply);
      }
    }
    forall i | 0 <= i < |run| && run[i].Push? ensures carried(run[i].item) {}
    RunKeepsEverywhere(iso, Init(permits), run, carried);
  }

  /** The task id, with the consumer's default. */
  function TaskIdOf(p: Payload): Json {
    Get(p, "task_id", Str("unknown"))
  }

  /** The fields a specialist reads are the producer's, with the consumer's defaults. */
  ghost predicate SameFields(iso: IsoFormat, p: Payload, out: Payload) {
    && (forall k :: k in {"ticket_id", "server_id", "user_message", "severity"} ==>
        Get(out, k, Null) == Get(p, k, Null))
    && TaskIdOf(out) == TaskIdOf(p)
    && Get(out, "trace_id", TaskIdOf(out)) == Get(p, "trace_id", TaskIdOf(p))
    && (var created := ParseDt(iso, Get(p, "created_at", Null));
        created.Some? ==> ParseDt(iso, Get(out, "created_at", Null)) == created)
    && (var t, t' := Get(p, "task_type", Str("unknown")), Get(out, "task_type", Str("unknown"));
        if t != Str("unknown") then t' == t
        else t' in {Str("unknown"), Str("ticket"), Str("maintenance"), Str("report")})
  }

  /** So wherever the entry turns up, its fields are those that were pushed. */
  lemma CarriedHasFields(iso: IsoFormat, p: Payload, body: Body)
    requires iso.RoundTrips() && Carries(iso, p, body)
    ensures body.Task? && SameFields(iso, p, body.payload)
  {
    if body != Task(p) {
      var c: int, r: Reply :| Supervise(iso, p, c, r).Some? && body == Task(Supervise(iso, p, c, r).value.1);
      FieldsSurvive(iso, p, c, r);
      RoutedByTypeOrAgent(iso, p, c, r);
    }
  }

  lemma FieldsAreKept(iso: IsoFormat, permits: nat, run: seq<Event>, tag: nat, p: Payload, delivered: Item)
    requires iso.RoundTrips() && IsRun(iso, Init(permits), run)
    requires Pushes(run, (item: Item) => item.tag == tag ==> item.body == Task(p))
    requires delivered in Exec(iso, Init(permits), run).delivered && delivered.tag == tag
    ensures delivered.body.Task? && SameFields(iso, p, delivered.body.payload)
  {
    PayloadIsKept(iso, permits, run, tag, p);
    var all := Exec(iso, Init(permits), run).delivered;
    hide Exec, IsRun, Carries;
    var i :| 0 <= i < |all| && all[i] == delivered;
    CarriedHasFields(iso, p, all[i].body);
  }

  // ---------- what stands on a queue ----------

  ghost predicate PutThere(run: seq<Event>, q: Queue, item: Item) {
    exists i :: 0 <= i < |run| && run[i] == Push(q, item)
  }

  /**
   * In every run, what stands on a queue or was taken from it, by a specialist or by the
   * consumer, was put there by a producer or is a task of a type that belongs there: on the
   * orchestrator's queue nothing else, with the in-server agent maintenance, with the report
   * agent reports, and neither of the two with the client agent.
   */
  lemma StandsWhereItBelongs(iso: IsoFormat, permits: nat, run: seq<Event>, q: Queue, item: Item)
    requires IsRun(iso, Init(permits), run)
    requires Shaped(Exec(iso, Init(permits), run))
    requires item in Exec(iso, Init(permits), run).queues[q] || item in Exec(iso, Init(permits), run).popped[q]
    ensures PutThere(run, q, item) || RightlyOn(q, item)
  {
    var put := (q: Queue, item: Item) => PutThere(run, q, item);
    forall i | 0 <= i < |run| && run[i].Push? ensures put(run[i].q, run[i].item) {}
    RunKeepsRightlyPushed(iso, Init(permits), run, put);
    RunKeepsFifo(iso, Init(permits), run);
    hide Exec, IsRun, PutThere, RightlyOn;
    var s := Exec(iso, Init(permits), run);
    assert item in s.pushed[q];
  }

  // ---------- runs from an empty system ----------

  /** One more event at the end of a run from an empty system. */
  lemma Next(iso: IsoFormat, permits: nat, run: seq<Event>, e: Event) returns (longer: seq<Event>)
    requires IsRun(iso, Init(permits), run) && Enabled(Exec(iso, Init(permits), run), e)
    ensures longer == run + [e] && IsRun(iso, Init(permits), longer)
    ensures Exec(iso, Init(permits), longer) == Step(iso, Exec(iso, Init(permits), run), e)
  {
    ExecAppend(iso, Init(permits), run, e);
    longer := run + [e];
  }

  /** The only entry on any queue is `item`, on queue `q`. */
  ghost predicate OnlyQueued(s: System, q: Queue, item: Item) {
    Shaped(s) && forall i :: 0 <= i < 4 ==> s.queues[i] == if i == q then [item] else []
  }

  ghost predicate NoneWaiting(s: System) {
    Shaped(s) && forall i :: 0 <= i < 4 ==> s.queues[i] == []
  }

  /** The only queued task is popped and handed to a worker. */
  lemma Take(iso: IsoFormat, permits: nat, run: seq<Event>, q: Queue, item: Item) returns (longer: seq<Event>)
    requires IsRun(iso, Init(permits), run) && item.body.Task?
    requires var s := Exec(iso, Init(permits), run);
      OnlyQueued(s, q, item) && s.consuming && s.hand.None? && s.free > 0
    ensures longer == run + [Pop] + [Dispatch] && IsRun(iso, Init(permits), longer)
    ensures var s, s' := Exec(iso, Init(permits), run), Exec(iso, Init(permits), longer);
      && NoneWaiting(s') && s'.consuming && s'.hand.None? && s'.active == s.active
      && s'.workers == s.workers + [Created(item)] && s'.free == s.free - 1
  {
    hide Exec, IsRun, Supervise;
    assert FirstNonEmpty(Exec(iso, Init(permits), run).queues, 0) == q;
    longer := Next(iso, permits, run, Pop);
    longer := Next(iso, permits, longer, Dispatch);
  }

  lemma PushFirst(iso: IsoFormat, permits: nat, item: Item) returns (run: seq<Event>)
    ensures run == [Push(ORCHESTRATOR, item)] && IsRun(iso, Init(permits), run)
    ensures var s := Exec(iso, Init(permits), run);
      && OnlyQueued(s, ORCHESTRATOR, item) && s.consuming && s.hand.None?
      && s.workers == [] && s.active == map[] && s.free == permits
  {
    run := Next(iso, permits, [], Push(ORCHESTRATOR, item));
  }

  // ---------- the registry under self-competition ----------

  /** Producers never use a task id twice. */
  ghost predicate DistinctPushes(run: seq<Event>) {
    forall i, j :: 0 <= i < j < |run| && run[i].Push? && run[j].Push? ==> IdOf(run[i].item) != IdOf(run[j].item)
  }

  /** Pushed, popped, started and routed: the task waits where it belongs, its worker has yet to finish. */
  lemma RoutedOnce(iso: IsoFormat, permits: nat, item: Item, clock: int, reply: Reply)
    returns (run: seq<Event>, q: Queue)
    requires 0 < permits && !IdOf(item).Compound? && Passed(iso, item, clock, reply).Some?
    ensures run == [Push(ORCHESTRATOR, item)] + [Pop] + [Dispatch] + [Start(0, 0.0)] + [Route(0, clock, reply)]
    ensures IsRun(iso, Init(permits), run)
    ensures var s, again := Exec(iso, Init(permits), run), Passed(iso, item, clock, reply).value;
      && OnlyQueued(s, q, again) && RightlyOn(q, again) && s.consuming && s.hand.None?
      && s.workers == [Routed(IdOf(item), 0.0)] && s.free == permits - 1
  {
    RoutedByTypeOrAgent(iso, item.body.payload, clock, reply);
    hide Exec, IsRun, Supervise, IdOf, Belongs;
    q := Supervise(iso, item.body.payload, clock, reply).value.0;
    run := PushFirst(iso, permits, item);
    run := Take(iso, permits, run, ORCHESTRATOR, item);
    run := Next(iso, permits, run, Start(0, 0.0));
    run := Next(iso, permits, run, Route(0, clock, reply));
  }

  /** Taken back by the orchestrator and started again, under the same id. */
  lemma TakenBack(iso: IsoFormat, permits: nat, item: Item, clock: int, reply: Reply, later: real)
    returns (run: seq<Event>)
    requires 2 <= permits && !IdOf(item).Compound? && Passed(iso, item, clock, reply).Some?
    ensures run == [Push(ORCHESTRATOR, item)] + [Pop] + [Dispatch] + [Start(0, 0.0)] + [Route(0, clock, reply)]
                 + [Pop] + [Dispatch] + [Start(1, later)]
    ensures IsRun(iso, Init(permits), run)
    ensures var s, again := Exec(iso, Init(permits), run), Passed(iso, item, clock, reply).value;
      Shaped(s) && s.workers == [Routed(IdOf(item), 0.0), Running(again, later)] && IdOf(again) == IdOf(item)
  {
    var again := Passed(iso, item, clock, reply).value;
    RoutedKeepsId(iso, item, clock, reply);
    hide Exec, IsRun, Supervise, IdOf;
    var q: Queue;
    run, q := RoutedOnce(iso, permits, item, clock, reply);
    run := Take(iso, permits, run, q, again);
    run := Next(iso, permits, run, Start(1, later));
  }

  /**
   * Any task that can be routed can lose its registration, given two permits: the
   * orchestrator takes it back from the queue it has just pushed it to, a second worker
   * starts on it, and the first one deregisters it on finishing. The second one then runs
   * unregistered, and no id was pushed twice.
   */
  lemma OwnPushDeregisters(iso: IsoFormat, permits: nat, item: Item, clock: int, reply: Reply, later: real)
    returns (run: seq<Event>)
    requires 2 <= permits && !IdOf(item).Compound? && Passed(iso, item, clock, reply).Some?
    ensures run == [Push(ORCHESTRATOR, item)] + [Pop] + [Dispatch] + [Start(0, 0.0)] + [Route(0, clock, reply)]
                 + [Pop] + [Dispatch] + [Start(1, later)] + [Done(0)]
    ensures IsRun(iso, Init(permits), run) && DistinctPushes(run)
    ensures var s := Exec(iso, Init(permits), run);
      && s.workers == [Running(Passed(iso, item, clock, reply).value, later)]
      && IdOf(item) !in s.active && !RegistryExact(s)
  {
    hide Exec, IsRun, Supervise, IdOf, RegistrySound;
    run := TakenBack(iso, permits, item, clock, reply, later);
    run := Next(iso, permits, run, Done(0));
    var s := Exec(iso, Init(permits), run);
    assert s.workers == [Running(Passed(iso, item, clock, reply).value, later)];
    assert !Registered(s.active, s.workers[0]);
  }

  lemma {:induction false} SingleWorkerIsDistinct(iso: IsoFormat, permits: nat, s: System, run: seq<Event>)
    requires permits <= 1 && IsRun(iso, s, run) && PermitsAgree(permits, s)
    ensures AlwaysDistinct(iso, s, run)
    decreases |run|
  {
    if run != [] {
      StepKeepsPermits(iso, permits, s, run[0]);
      SingleWorkerIsDistinct(iso, permits, Step(iso, s, run[0]), run[1..]);
    }
  }

  /** A task every orchestrator can route. */
  function Ticket(): Item {
    Item(0, Task(map["task_id" := Str("t"), "task_type" := Str("ticket")]))
  }

  /**
   * With task ids that producers never repeat, the registry is exactly the running workers in
   * every run if and only if the pool has at most one permit.
   */
  lemma RegistryExactExactlyWhen(iso: IsoFormat, permits: nat)
    ensures (forall run :: IsRun(iso, Init(permits), run) && DistinctPushes(run) ==>
              RegistryExact(Exec(iso, Init(permits), run)))
       <==> permits <= 1
  {
    if permits <= 1 {
      forall run | IsRun(iso, Init(permits), run) ensures RegistryExact(Exec(iso, Init(permits), run)) {
        SingleWorkerIsDistinct(iso, permits, Init(permits), run);
        RegistryIsExact(iso, Init(permits), run);
      }
    } else {
      var run := OwnPushDeregisters(iso, permits, Ticket(), 0, Raises, 1.0);
    }
  }

  // ---------- permits ----------

  /** A worker that cannot register its task keeps the permit for good. */
  lemma LeakyRun(iso: IsoFormat, permits: nat, item: Item) returns (run: seq<Event>)
    requires 0 < permits && item.body.Task? && IdOf(item).Compound?
    ensures run == [Push(ORCHESTRATOR, item)] + [Pop] + [Dispatch] + [Start(0, 0.0)]
    ensures IsRun(iso, Init(permits), run)
    ensures var s := Exec(iso, Init(permits), run); s.workers == [] && s.free == permits - 1
  {
    hide Exec, IsRun, Supervise, IdOf;
    run := PushFirst(iso, permits, item);
    run := Take(iso, permits, run, ORCHESTRATOR, item);
    run := Next(iso, permits, run, Start(0, 0.0));
  }

  /**
   * Whatever ids producers may use, every permit stays free or with an unfinished worker in
   * every run if and only if there are no permits or none of those ids is a list or object.
   */
  lemma NoLeakExactlyWhen(iso: IsoFormat, permits: nat, ids: Json -> bool)
    ensures (forall run :: IsRun(iso, Init(permits), run) && Pushes(run, (item: Item) => ids(IdOf(item))) ==>
              var s := Exec(iso, Init(permits), run); s.free + |s.workers| == permits)
       <==> permits == 0 || forall id :: ids(id) ==> !id.Compound?
  {
    var ok := (item: Item) => ids(IdOf(item));
    if permits == 0 || forall id :: ids(id) ==> !id.Compound? {
      forall run: seq<Event> | IsRun(iso, Init(permits), run) && Pushes(run, ok)
        ensures var s := Exec(iso, Init(permits), run); s.free + |s.workers| == permits
      {
        forall e | e in run && e.Push? && permits != 0 ensures !IdOf(e.item).Compound? {
          var i :| 0 <= i < |run| && run[i] == e;
          assert ok(run[i].item);
        }
        PermitAccounting(iso, permits, Init(permits), run);
      }
    } else {
      var id :| ids(id) && id.Compound?;
      var item := Item(0, Task(map["task_id" := id]));
      var run := LeakyRun(iso, permits, item);
      assert Pushes(run, ok);
    }
  }

  // ---------- the consumer loop ----------

  /** Reading the entry raises something the consumer does not catch. */
  predicate EndsLoop(body: Body) {
    body.NotObject? || body.Undecodable?
  }

  /** The loop runs on exactly as long as nobody stops it and no popped entry ends it. */
  lemma {:induction false} ConsumesExactlyWhen(iso: IsoFormat, s: System, run: seq<Event>)
    requires IsRun(iso, s, run)
    ensures s.crashed <= Exec(iso, s, run).crashed
    ensures Exec(iso, s, run).consuming <==> s.consuming && Stop !in run && Exec(iso, s, run).crashed == s.crashed
    decreases |run|
  {
    if run != [] {
      StepConsumes(iso, s, run[0]);
      ConsumesExactlyWhen(iso, Step(iso, s, run[0]), run[1..]);
    }
  }

  lemma StepConsumes(iso: IsoFormat, s: System, e: Event)
    requires Enabled(s, e)
    ensures s.crashed <= Step(iso, s, e).crashed
    ensures Step(iso, s, e).consuming <==> s.consuming && !e.Stop? && Step(iso, s, e).crashed == s.crashed
  {
  }

  lemma {:induction false} RunSurvives(iso: IsoFormat, s: System, run: seq<Event>, p: Item -> bool)
    requires IsRun(iso, s, run) && Everywhere(s, p) && KeptByPasses(iso, p) && Pushes(run, p)
    requires forall item :: p(item) ==> !EndsLoop(item.body)
    requires s.consuming && Stop !in run
    ensures Exec(iso, s, run).consuming
    decreases |run|
  {
    if run != [] {
      StepKeepsEverywhere(iso, s, run[0], p);
      StepSurvives(iso, s, run[0], p);
      RunSurvives(iso, Step(iso, s, run[0]), run[1..], p);
    }
  }

  lemma StepSurvives(iso: IsoFormat, s: System, e: Event, p: Item -> bool)
    requires Enabled(s, e) && Everywhere(s, p) && s.consuming && !e.Stop?
    requires forall item :: p(item) ==> !EndsLoop(item.body)
    ensures Step(iso, s, e).consuming
  {
    if e.Pop? {
      var q := FirstNonEmpty(s.queues, 0);
      assert AllOf(s.queues[q], p) && p(s.queues[q][0]);
    }
  }

  /** One such entry, and the loop is over. */
  lemma EntryEndsLoop(iso: IsoFormat, permits: nat, body: Body) returns (run: seq<Event>)
    requires EndsLoop(body)
    ensures run == [Push(ORCHESTRATOR, Item(0, body))] + [Pop] && IsRun(iso, Init(permits), run)
    ensures !Exec(iso, Init(permits), run).consuming
  {
    run := [];
    run := Next(iso, permits, run, Push(ORCHESTRATOR, Item(0, body)));
    run := Next(iso, permits, run, Pop);
  }

  /**
   * Whatever entries producers may push, the loop outlives every run in which nobody stops it
   * if and only if all of them are tasks or refused as invalid JSON.
   */
  lemma SurvivesExactlyWhen(iso: IsoFormat, permits: nat, bodies: Body -> bool)
    ensures (forall run :: IsRun(iso, Init(permits), run) && Stop !in run
                           && Pushes(run, (item: Item) => bodies(item.body)) ==>
              Exec(iso, Init(permits), run).consuming)
       <==> !bodies(NotObject) && !bodies(Undecodable)
  {
    if bodies(NotObject) || bodies(Undecodable) {
      var run := EntryEndsLoop(iso, permits, if bodies(NotObject) then NotObject else Undecodable);
      assert Pushes(run, (item: Item) => bodies(item.body));
    } else {
      var readable := (item: Item) => !EndsLoop(item.body);
      forall run | IsRun(iso, Init(permits), run) && Stop !in run && Pushes(run, (item: Item) => bodies(item.body))
        ensures Exec(iso, Init(permits), run).consuming
      {
        assert Pushes(run, readable);
        RunSurvives(iso, Init(permits), run, readable);
      }
    }
  }
}
