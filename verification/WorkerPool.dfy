/**
 * The consumer and the worker pool as objects: queues, permits and registry are fields
 * updated in place, one method per stretch of code that runs without yielding.
 */
module WorkerPool {
  import opened Wrappers
  import opened Routing
  import opened Orchestrator

  class Pool {
    const iso: IsoFormat
    const permits: nat
    var queues: seq<seq<Item>>
    var hand: Option<Item>
    var workers: seq<Worker>
    var free: nat
    var active: map<Json, real>
    var consuming: bool

    // The steps taken so far, and the state they lead to.
    ghost var run: seq<Event>
    ghost var view: System

    /** The fields are the state that the recorded steps lead to from an empty start. */
    ghost predicate Valid()
      reads this
    {
      && IsRun(iso, Init(permits), run) && view == Exec(iso, Init(permits), run) && Shaped(view)
      && queues == view.queues && hand == view.hand && workers == view.workers
      && free == view.free && active == view.active && consuming == view.consuming
    }

    constructor (iso: IsoFormat, permits: nat)
      ensures Valid() && run == [] && this.iso == iso && this.permits == permits
    {
      this.iso, this.permits := iso, permits;
      queues, hand, workers, free := [[], [], [], []], None, [], permits;
      active, consuming := map[], true;
      run, view := [], Init(permits);
    }

    ghost method Record(e: Event)
      requires IsRun(iso, Init(permits), run) && view == Exec(iso, Init(permits), run) && Enabled(view, e)
      modifies this`run, this`view
      ensures run == old(run) + [e] && view == Step(iso, old(view), e)
      ensures IsRun(iso, Init(permits), run) && view == Exec(iso, Init(permits), run)
    {
      ExecAppend(iso, Init(permits), run, e);
      run, view := run + [e], Step(iso, view, e);
    }

    /** RPUSH by a producer. */
    method Enqueue(q: Queue, item: Item)
      requires Valid()
      modifies this
      ensures Valid() && run == old(run) + [Push(q, item)]
    {
      Record(Push(q, item));
      queues := queues[q := queues[q] + [item]];
    }

    /**
     * BLPOP over the watched keys, then _process_task up to its dispatch. False on a timeout,
     * when nothing changes.
     */
    method ConsumeNext() returns (popped: bool)
      requires Valid() && consuming && hand.None?
      modifies this
      ensures Valid()
      ensures popped <==> exists q :: 0 <= q < 4 && old(queues)[q] != []
      ensures run == old(run) + if popped then [Pop] else []
    {
      var q := 0;
      while q < 4 && queues[q] == []
        invariant q <= 4 && forall i :: 0 <= i < q ==> queues[i] == []
      {
        q := q + 1;
      }
      if q == 4 {
        return false;
      }
      assert FirstNonEmpty(view.queues, 0) == q;
      Record(Pop);
      var item := queues[q][0];
      queues := queues[q := queues[q][1..]];
      match item.body {
        case Garbage =>
        case Undecodable => consuming := false;
        case NotObject => consuming := false;
        case Task(_) => hand := Some(item);
      }
      return true;
    }

    /** dispatch(): the permit is taken before the background task exists. */
    method DispatchHand()
      requires Valid() && hand.Some? && free > 0
      modifies this
      ensures Valid() && run == old(run) + [Dispatch]
    {
      Record(Dispatch);
      free := free - 1;
      workers := workers + [Created(hand.value)];
      hand := None;
    }

    /** The first line of _run. True when the id could be registered. */
    method Begin(w: nat, now: real) returns (registered: bool)
      requires Valid() && w < |workers| && workers[w].Created?
      modifies this
      ensures Valid() && run == old(run) + [Start(w, now)]
      ensures registered <==> !IdOf(old(workers)[w].item).Compound?
    {
      Record(Start(w, now));
      var item := workers[w].item;
      registered := !IdOf(item).Compound?;
      if registered {
        active := active[IdOf(item) := now];
        workers := workers[w := Running(item, now)];
      } else {
        workers := Remove(workers, w);
      }
    }

    /** The supervisor graph up to its push, or the exception that ends it. */
    method RunSupervisor(w: nat, clock: int, reply: Reply)
      requires Valid() && w < |workers| && workers[w].Running?
      modifies this
      ensures Valid() && run == old(run) + [Route(w, clock, reply)]
    {
      Record(Route(w, clock, reply));
      var item, since := workers[w].item, workers[w].since;
      var out := if item.body.Task? then Supervise(iso, item.body.payload, clock, reply) else None;
      if out.None? {
        active := active - {IdOf(item)};
        free := free + 1;
        workers := Remove(workers, w);
      } else {
        var (q, payload) := out.value;
        queues := queues[q := queues[q] + [Item(item.tag, Task(payload))]];
        workers := workers[w := Routed(IdOf(item), since)];
      }
    }

    /** The `finally` clause of _run, after a result or an exception. */
    method End(w: nat)
      requires Valid() && w < |workers| && workers[w].Started()
      modifies this
      ensures Valid()
      ensures run == old(run) + [if old(workers)[w].Routed? then Done(w) else Fail(w)]
    {
      Record(if workers[w].Routed? then Done(w) else Fail(w));
      active := active - {workers[w].TaskId()};
      free := free + 1;
      workers := Remove(workers, w);
    }

    /** One tick of the watchdog: the ids it reports as stuck. */
    method Watchdog(now: real, threshold: real) returns (stuck: set<Json>)
      ensures stuck == Stuck(active, now, threshold)
    {
      stuck := {};
      var rest := active.Keys;
      while rest != {}
        invariant rest <= active.Keys
        invariant stuck == set id | id in active && id !in rest && now - active[id] > threshold
        decreases rest
      {
        var id :| id in rest;
        rest := rest - {id};
        if now - active[id] > threshold {
          stuck := stuck + {id};
        }
      }
    }
  }

  /**
   * What any use of a pool leaves: each task is in as many places as it was put in, every
   * queue is first in, first out, the permits add up, and no more ids are registered than
   * workers have started.
   */
  lemma PoolKeepsItsPromises(pool: Pool, tag: nat)
    requires pool.Valid()
    ensures Places(pool.view, tag) == Injected(pool.run, tag)
    ensures Fifo(pool.view)
    ensures pool.free + |pool.workers| + pool.view.leaked == pool.permits
    ensures |pool.active| <= StartedCount(pool.workers)
  {
    hide Exec, IsRun;
    TaskConservation(pool.iso, pool.permits, pool.run, tag);
    RunKeepsFifo(pool.iso, Init(pool.permits), pool.run);
    PermitAccounting(pool.iso, pool.permits, Init(pool.permits), pool.run);
    ActiveCountBound(pool.iso, Init(pool.permits), pool.run);
  }
}
