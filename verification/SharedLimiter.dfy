/**
 * The whole limiter under concurrency: N agents issue single Redis commands against the
 * three expiring keys. The cost ceiling's step machine is shown to describe it.
 */
module SharedLimiter {
  import opened Pricing
  import opened RedisKeys
  import RL = RateLimiter
  import CC = CostCeiling
  import DC = DailyCost

  /**
   * The keys, where each agent stands, and the instant of the last command; also the calls let
   * through, the costs recorded in all, and how many of them found no live key.
   */
  datatype System = System(
    agents: seq<CC.Phase>,
    counters: RL.Counters,
    daily: Key<real>,
    now: real,
    grants: seq<RL.Call>,
    spent: real,
    lives: nat)

  /** What an agent does next; commands carry the instant at which Redis runs them. */
  datatype Command =
    | Get(agent: nat, at: real)                     // the ceiling check
    | Acquire(agent: nat, at: real, estimate: int)  // the script
    | Call(agent: nat, prompt: nat, completion: nat)  // the model call completes, using these tokens
    | Abandon(agent: nat)
    | Add(agent: nat, at: real)                     // INCRBYFLOAT
    | Expire(at: real, clock: real)                 // EXPIRE by any agent that has recorded
    | Delete(at: real)                              // the ops endpoint

  datatype Config = Config(limits: RL.Limits, ceiling: CC.Config)

  function At(s: System, c: Command): real {
    if c.Call? || c.Abandon? then s.now else c.at
  }

  predicate Enabled(cfg: Config, s: System, c: Command) {
    && s.now <= At(s, c)
    && match c
       case Get(i, _) => i < |s.agents| && s.agents[i].Idle?
       case Acquire(i, _, _) => i < |s.agents| && s.agents[i].Checked?
       case Call(i, prompt, completion) =>
         i < |s.agents| && s.agents[i].Granted? && CallCost(prompt, completion) <= cfg.ceiling.maxCost
       case Abandon(i) => i < |s.agents| && !s.agents[i].Idle?
       case Add(i, _) => i < |s.agents| && s.agents[i].Owes?
       case _ => true
  }

  function Step(cfg: Config, s: System, c: Command): System
    requires Enabled(cfg, s, c)
  {
    match c
    case Get(i, at) =>
      if GetReal(s.daily, at) >= cfg.ceiling.limit then s.(now := at)
      else s.(agents := s.agents[i := CC.Checked], now := at)
    case Acquire(i, at, estimate) =>
      var (counters, granted) := RL.Script(s.counters, cfg.limits, RL.Call(at, estimate));
      s.(agents := s.agents[i := if granted then CC.Granted else CC.Idle], counters := counters,
         grants := if granted then s.grants + [RL.Call(at, estimate)] else s.grants, now := at)
    case Call(i, prompt, completion) => s.(agents := s.agents[i := CC.Owes(CallCost(prompt, completion))])
    case Abandon(i) => s.(agents := s.agents[i := CC.Idle])
    case Add(i, at) =>
      var cost := s.agents[i].cost;
      s.(agents := s.agents[i := CC.Idle], daily := DC.Apply(s.daily, DC.Add(at, cost)), now := at,
         spent := s.spent + cost, lives := if s.daily.LiveAt(at) then s.lives else s.lives + 1)
    case Expire(at, clock) => s.(daily := DC.Apply(s.daily, DC.Refresh(at, clock)), now := at)
    case Delete(at) => s.(daily := DC.Apply(s.daily, DC.Reset(at)), now := at)
  }

  predicate IsRun(cfg: Config, s: System, run: seq<Command>)
    decreases |run|
  {
    run == [] || (Enabled(cfg, s, run[0]) && IsRun(cfg, Step(cfg, s, run[0]), run[1..]))
  }

  function Exec(cfg: Config, s: System, run: seq<Command>): System
    requires IsRun(cfg, s, run)
    decreases |run|
  {
    if run == [] then s else Exec(cfg, Step(cfg, s, run[0]), run[1..])
  }

  function Start(agents: nat, now: real): System {
    System(CC.Start(agents).agents, RL.Counters(Absent, Absent), Absent, now, [], 0.0, 0)
  }

  /** The ceiling's view of a state: what the daily key reads at `t`. */
  function View(s: System, t: real): CC.System {
    CC.System(s.agents, GetReal(s.daily, t))
  }

  // ---------- simulation ----------

  /** While no command arrives the key can only lapse. */
  lemma TimePasses(cfg: Config, s: System, t: real) returns (acts: seq<CC.Action>)
    requires s.now <= t
    ensures CC.IsRun(cfg.ceiling, View(s, s.now), acts)
    ensures CC.Exec(cfg.ceiling, View(s, s.now), acts) == View(s, t)
  {
    if GetReal(s.daily, t) == GetReal(s.daily, s.now) {
      acts := [];
    } else {
      acts := [CC.Clear];
      assert CC.Step(cfg.ceiling, View(s, s.now), CC.Clear) == View(s, t);
    }
  }

  lemma OneAction(cfg: CC.Config, s: CC.System, a: CC.Action)
    requires CC.Allowed(cfg, s, a)
    ensures CC.IsRun(cfg, s, [a]) && CC.Exec(cfg, s, [a]) == CC.Step(cfg, s, a)
  {
    assert [a][1..] == [];
  }

  /** At the instant it runs, each command does what one step of the ceiling's machine does. */
  lemma CommandIsAction(cfg: Config, s: System, c: Command) returns (acts: seq<CC.Action>)
    requires Enabled(cfg, s, c)
    ensures CC.IsRun(cfg.ceiling, View(s, At(s, c)), acts)
    ensures CC.Exec(cfg.ceiling, View(s, At(s, c)), acts) == View(Step(cfg, s, c), At(s, c))
  {
    var before, after := View(s, At(s, c)), View(Step(cfg, s, c), At(s, c));
    if c.Expire? {
      DC.TimeToLiveIsPositive(c.clock);
      assert after == before;
      acts := [];
    } else {
      var a := match c
        case Get(i, _) => CC.ReadCost(i)
        case Acquire(i, at, estimate) => CC.Script(i, RL.Script(s.counters, cfg.limits, RL.Call(at, estimate)).1)
        case Call(i, prompt, completion) => CC.Call(i, CallCost(prompt, completion))
        case Abandon(i) => CC.Abandon(i)
        case Add(i, _) => CC.Record(i)
        case _ => CC.Clear;
      assert CC.Step(cfg.ceiling, before, a) == after;
      OneAction(cfg.ceiling, before, a);
      acts := [a];
    }
  }

  /** Every run on the keys, read at any later instant, is a run of the ceiling's machine. */
  lemma {:induction false} RunSimulates(cfg: Config, s: System, run: seq<Command>, t: real)
    returns (acts: seq<CC.Action>)
    requires IsRun(cfg, s, run) && Exec(cfg, s, run).now <= t
    ensures CC.IsRun(cfg.ceiling, View(s, s.now), acts)
    ensures CC.Exec(cfg.ceiling, View(s, s.now), acts) == View(Exec(cfg, s, run), t)
    decreases |run|
  {
    if run == [] {
      acts := TimePasses(cfg, s, t);
    } else {
      var at := At(s, run[0]);
      var wait := TimePasses(cfg, s, at);
      var act := CommandIsAction(cfg, s, run[0]);
      var rest := RunSimulates(cfg, Step(cfg, s, run[0]), run[1..], t);
      hide CC.IsRun, CC.Exec, Step;
      CC.ExecAppend(cfg.ceiling, View(s, at), act, rest);
      CC.ExecAppend(cfg.ceiling, View(s, s.now), wait, act + rest);
      acts := wait + (act + rest);
    }
  }

  /**
   * So the overshoot bound holds of the Redis key itself: however N agents interleave their
   * commands, and whenever the key is read, it holds nothing or less than the ceiling plus
   * one maximal cost per agent.
   */
  lemma StoredCostBound(cfg: Config, agents: nat, start: real, run: seq<Command>, t: real)
    requires 0.0 <= cfg.ceiling.maxCost
    requires IsRun(cfg, Start(agents, start), run) && Exec(cfg, Start(agents, start), run).now <= t
    ensures var total := GetReal(Exec(cfg, Start(agents, start), run).daily, t);
      0.0 <= total && (total == 0.0 || total < cfg.ceiling.limit + CC.Costs(cfg.ceiling, agents))
  {
    var acts := RunSimulates(cfg, Start(agents, start), run, t);
    assert View(Start(agents, start), start) == CC.Start(agents);
    CC.OvershootBound(cfg.ceiling, agents, acts);
  }

  // ---------- the money spent ----------

  lemma {:induction false} ExecLast(cfg: Config, s: System, run: seq<Command>)
    requires run != [] && IsRun(cfg, s, run)
    ensures var prior, last := run[..|run| - 1], run[|run| - 1];
      && IsRun(cfg, s, prior) && Enabled(cfg, Exec(cfg, s, prior), last)
      && Exec(cfg, s, run) == Step(cfg, Exec(cfg, s, prior), last)
    decreases |run|
  {
    if |run| > 1 {
      ExecLast(cfg, Step(cfg, s, run[0]), run[1..]);
      assert run[1..][..|run| - 2] == run[..|run| - 1][1..];
    } else {
      assert run[..0] == [];
    }
  }

  /** What the agent's latest model call cost. */
  function LatestCost(run: seq<Command>, agent: nat): real {
    if run == [] then 0.0
    else match run[|run| - 1]
      case Call(i, prompt, completion) =>
        if i == agent then CallCost(prompt, completion) else LatestCost(run[..|run| - 1], agent)
      case _ => LatestCost(run[..|run| - 1], agent)
  }

  /** The commands on the daily key, each increment with the cost of its agent's latest call. */
  function DailyEvents(run: seq<Command>): seq<DC.Event> {
    if run == [] then []
    else
      var prior := run[..|run| - 1];
      DailyEvents(prior) + match run[|run| - 1]
        case Add(i, at) => [DC.Add(at, LatestCost(prior, i))]
        case Expire(at, clock) => [DC.Refresh(at, clock)]
        case Delete(at) => [DC.Reset(at)]
        case _ => []
  }

  /** How many of the increments found no live key. */
  function FreshAdds(events: seq<DC.Event>): nat {
    if events == [] then 0
    else
      var prior, last := events[..|events| - 1], events[|events| - 1];
      FreshAdds(prior) + if last.Add? && !DC.Replay(prior).LiveAt(last.at) then 1 else 0
  }

  /** What an agent owes is what its latest call cost. */
  ghost predicate OwesAgree(s: System, run: seq<Command>) {
    forall i :: 0 <= i < |s.agents| && s.agents[i].Owes? ==> s.agents[i].cost == LatestCost(run, i)
  }

  ghost predicate DailyAgrees(s: System, events: seq<DC.Event>) {
    s.daily == DC.Replay(events) && s.spent == DC.CostOf(events) && s.lives == FreshAdds(events)
  }

  lemma EventsAppend(events: seq<DC.Event>, e: DC.Event)
    ensures DC.Replay(events + [e]) == DC.Apply(DC.Replay(events), e)
    ensures DC.CostOf(events + [e]) == DC.CostOf(events) + if e.Add? then e.cost else 0.0
    ensures FreshAdds(events + [e]) == FreshAdds(events) + if e.Add? && !DC.Replay(events).LiveAt(e.at) then 1 else 0
  {
    assert (events + [e])[..|events|] == events;
  }

  lemma StepKeepsOwes(cfg: Config, s: System, prior: seq<Command>, c: Command)
    requires Enabled(cfg, s, c) && OwesAgree(s, prior)
    ensures OwesAgree(Step(cfg, s, c), prior + [c])
  {
    hide DC.Apply, RL.Script, CallCost;
    assert (prior + [c])[..|prior|] == prior;
  }

  lemma StepKeepsDaily(cfg: Config, s: System, prior: seq<Command>, c: Command)
    requires Enabled(cfg, s, c) && OwesAgree(s, prior) && DailyAgrees(s, DailyEvents(prior))
    ensures DailyAgrees(Step(cfg, s, c), DailyEvents(prior + [c]))
  {
    hide DC.Replay, DC.CostOf, FreshAdds, DC.Apply, RL.Script, CallCost, LatestCost;
    assert (prior + [c])[..|prior|] == prior;
    var events := DailyEvents(prior);
    match c
    case Add(i, at) => EventsAppend(events, DC.Add(at, s.agents[i].cost));
    case Expire(at, clock) => EventsAppend(events, DC.Refresh(at, clock));
    case Delete(at) => EventsAppend(events, DC.Reset(at));
    case _ => assert events + [] == events;
  }

  /**
   * The daily key of any run is the one that its own commands lead to, each increment of the
   * price of its agent's latest call; and what is kept count of is the sum of these prices
   * and the number of increments that found no live key.
   */
  lemma {:induction false} DailyIsReplay(cfg: Config, agents: nat, start: real, run: seq<Command>)
    requires IsRun(cfg, Start(agents, start), run)
    ensures var s := Exec(cfg, Start(agents, start), run);
      OwesAgree(s, run) && DailyAgrees(s, DailyEvents(run))
    decreases |run|
  {
    if run != [] {
      hide Step, Enabled, DailyAgrees, OwesAgree, DailyEvents;
      ExecLast(cfg, Start(agents, start), run);
      var prior, last := run[..|run| - 1], run[|run| - 1];
      DailyIsReplay(cfg, agents, start, prior);
      StepKeepsOwes(cfg, Exec(cfg, Start(agents, start), prior), prior, last);
      StepKeepsDaily(cfg, Exec(cfg, Start(agents, start), prior), prior, last);
      assert run == prior + [last];
    }
  }

  /** What `n` lives of the daily key can cost at most. */
  function Budgets(cfg: Config, agents: nat, n: nat): real {
    if n == 0 then 0.0 else Budgets(cfg, agents, n - 1) + cfg.ceiling.limit + CC.Costs(cfg.ceiling, agents)
  }

  /** Each past life of the key stayed within its budget, and the present one holds the rest. */
  ghost predicate WithinBudgets(cfg: Config, agents: nat, s: System) {
    var budget := cfg.ceiling.limit + CC.Costs(cfg.ceiling, agents);
    if s.daily.Absent? then s.spent <= Budgets(cfg, agents, s.lives)
    else 0 < s.lives && s.spent <= Budgets(cfg, agents, s.lives - 1) + s.daily.value && s.daily.value <= budget
  }

  lemma StepWithinBudgets(cfg: Config, agents: nat, s: System, c: Command)
    requires Enabled(cfg, s, c) && WithinBudgets(cfg, agents, s)
    requires c.Add? ==>
      GetReal(Step(cfg, s, c).daily, At(s, c)) <= cfg.ceiling.limit + CC.Costs(cfg.ceiling, agents)
    ensures WithinBudgets(cfg, agents, Step(cfg, s, c))
  {
  }

  /**
   * The money spent, not only what the key reads: in every run the recorded costs add up to at
   * most the ceiling and one maximal cost per agent, for each record that found no live key.
   */
  lemma SpentBound(cfg: Config, agents: nat, start: real, run: seq<Command>)
    requires 0.0 <= cfg.ceiling.limit && 0.0 <= cfg.ceiling.maxCost
    requires IsRun(cfg, Start(agents, start), run)
    ensures DC.CostOf(DailyEvents(run)) <= Budgets(cfg, agents, FreshAdds(DailyEvents(run)))
  {
    DailyIsReplay(cfg, agents, start, run);
    RunWithinBudgets(cfg, agents, start, run);
    hide Exec, IsRun;
    var s := Exec(cfg, Start(agents, start), run);
    if s.daily.Present? {
      assert Budgets(cfg, agents, s.lives)
          == Budgets(cfg, agents, s.lives - 1) + cfg.ceiling.limit + CC.Costs(cfg.ceiling, agents);
    }
  }

  lemma {:induction false} RunWithinBudgets(cfg: Config, agents: nat, start: real, run: seq<Command>)
    requires 0.0 <= cfg.ceiling.limit && 0.0 <= cfg.ceiling.maxCost
    requires IsRun(cfg, Start(agents, start), run)
    ensures WithinBudgets(cfg, agents, Exec(cfg, Start(agents, start), run))
    decreases |run|
  {
    if run != [] {
      ExecLast(cfg, Start(agents, start), run);
      var prior, last := run[..|run| - 1], run[|run| - 1];
      RunWithinBudgets(cfg, agents, start, prior);
      hide Step;
      if last.Add? {
        StoredCostBound(cfg, agents, start, run, last.at);
        CC.CostsOrdered(cfg.ceiling, 0, agents);
      }
      StepWithinBudgets(cfg, agents, Exec(cfg, Start(agents, start), prior), last);
    }
  }

  // ---------- the request and token limits ----------

  /** The script run a command amounts to, if any. */
  function ScriptRun(c: Command): seq<RL.Call> {
    if c.Acquire? then [RL.Call(c.at, c.estimate)] else []
  }

  /** The script runs of a command sequence, in order. */
  function Scripts(run: seq<Command>): seq<RL.Call> {
    if run == [] then [] else Scripts(run[..|run| - 1]) + ScriptRun(run[|run| - 1])
  }

  /** Counters and grants are those that the script runs alone lead to, and these are in time order. */
  ghost predicate Agrees(cfg: Config, s: System, calls: seq<RL.Call>) {
    && RL.History(s.counters, s.grants) == RL.Replay(cfg.limits, calls)
    && RL.InOrder(calls)
    && forall i :: 0 <= i < |calls| ==> calls[i].at <= s.now
  }

  lemma LaterInOrder(calls: seq<RL.Call>, call: RL.Call)
    requires RL.InOrder(calls) && forall i :: 0 <= i < |calls| ==> calls[i].at <= call.at
    ensures RL.InOrder(calls + [call])
  {
  }

  lemma StepAgrees(cfg: Config, s: System, c: Command, calls: seq<RL.Call>)
    requires Enabled(cfg, s, c) && Agrees(cfg, s, calls)
    ensures Agrees(cfg, Step(cfg, s, c), calls + ScriptRun(c))
  {
    hide RL.Script, RL.Replay, DC.Apply;
    if c.Acquire? {
      RL.ReplayAppend(cfg.limits, calls, RL.Call(c.at, c.estimate));
      LaterInOrder(calls, RL.Call(c.at, c.estimate));
    } else {
      assert calls + ScriptRun(c) == calls;
    }
  }

  lemma {:induction false} CountersAreReplay(cfg: Config, agents: nat, start: real, run: seq<Command>)
    requires IsRun(cfg, Start(agents, start), run)
    ensures Agrees(cfg, Exec(cfg, Start(agents, start), run), Scripts(run))
    decreases |run|
  {
    if run != [] {
      hide Agrees, Step;
      ExecLast(cfg, Start(agents, start), run);
      var prior, last := run[..|run| - 1], run[|run| - 1];
      CountersAreReplay(cfg, agents, start, prior);
      StepAgrees(cfg, Exec(cfg, Start(agents, start), prior), last, Scripts(prior));
    }
  }

  /**
   * And the sliding window holds of it: whatever the agents do in between, the calls let
   * through in any half-open minute respect both limits.
   */
  lemma GrantsInWindow(cfg: Config, agents: nat, start: real, run: seq<Command>, from: real)
    requires IsRun(cfg, Start(agents, start), run)
    ensures var minute := RL.InSpan(Exec(cfg, Start(agents, start), run).grants, from, from + 60.0);
      minute == [] ||
      (|minute| <= cfg.limits.rpm &&
       ((forall c :: c in run && c.Acquire? ==> 0 <= c.estimate) ==> RL.Tokens(minute) <= cfg.limits.tpm))
  {
    CountersAreReplay(cfg, agents, start, run);
    RL.SlidingWindowBound(cfg.limits, Scripts(run), from);
    if forall c :: c in run && c.Acquire? ==> 0 <= c.estimate {
      ScriptsNonNegative(run);
    }
  }

  lemma {:induction false} ScriptsNonNegative(run: seq<Command>)
    requires forall c :: c in run && c.Acquire? ==> 0 <= c.estimate
    ensures RL.NonNegative(Scripts(run))
  {
    if run != [] {
      ScriptsNonNegative(run[..|run| - 1]);
      assert run[|run| - 1] in run;
    }
  }
}
