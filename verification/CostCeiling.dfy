/**
 * The daily cost ceiling under concurrency. Reading the cost, acquiring, calling the
 * model and recording the cost are separate steps, interleaved freely among the agents.
 */
module CostCeiling {
  /** Where one agent stands in its read-acquire-call-record cycle. */
  datatype Phase = Idle | Checked | Granted | Owes(cost: real)

  /** `maxCost` bounds what one model call can cost. */
  datatype Config = Config(limit: real, maxCost: real)

  datatype System = System(agents: seq<Phase>, total: real)

  datatype Action =
    | ReadCost(agent: nat)                    // GET the total and compare it with the ceiling
    | Script(agent: nat, granted: bool)       // the request and token script answers
    | Call(agent: nat, cost: real)            // the model call completes
    | Abandon(agent: nat)                     // the agent fails before recording
    | Record(agent: nat)                      // INCRBYFLOAT
    | Clear                                   // the key lapses or is reset by hand

  predicate Allowed(cfg: Config, s: System, a: Action) {
    match a
    case Clear => true
    case ReadCost(i) => i < |s.agents| && s.agents[i].Idle?
    case Script(i, _) => i < |s.agents| && s.agents[i].Checked?
    case Call(i, cost) => i < |s.agents| && s.agents[i].Granted? && 0.0 <= cost <= cfg.maxCost
    case Abandon(i) => i < |s.agents| && !s.agents[i].Idle?
    case Record(i) => i < |s.agents| && s.agents[i].Owes?
  }

  function Step(cfg: Config, s: System, a: Action): System
    requires Allowed(cfg, s, a)
  {
    match a
    case Clear => s.(total := 0.0)
    case ReadCost(i) => if s.total >= cfg.limit then s else s.(agents := s.agents[i := Checked])
    case Script(i, granted) => s.(agents := s.agents[i := if granted then Granted else Idle])
    case Call(i, cost) => s.(agents := s.agents[i := Owes(cost)])
    case Abandon(i) => s.(agents := s.agents[i := Idle])
    case Record(i) => System(s.agents[i := Idle], s.total + s.agents[i].cost)
  }

  function Start(agents: nat): System {
    System(seq(agents, _ => Idle), 0.0)
  }

  /** Every action of the run is allowed where it happens. */
  predicate IsRun(cfg: Config, s: System, run: seq<Action>)
    decreases |run|
  {
    run == [] || (Allowed(cfg, s, run[0]) && IsRun(cfg, Step(cfg, s, run[0]), run[1..]))
  }

  function Exec(cfg: Config, s: System, run: seq<Action>): System
    requires IsRun(cfg, s, run)
    decreases |run|
  {
    if run == [] then s else Exec(cfg, Step(cfg, s, run[0]), run[1..])
  }

  // ---------- the overshoot bound ----------

  /** Agents that passed the ceiling check and have not finished their cycle. */
  function Busy(agents: seq<Phase>): nat {
    if agents == [] then 0 else (if agents[0].Idle? then 0 else 1) + Busy(agents[1..])
  }

  lemma {:induction false} BusyUpdate(agents: seq<Phase>, i: nat, p: Phase)
    requires i < |agents|
    ensures Busy(agents[i := p]) ==
      Busy(agents) - (if agents[i].Idle? then 0 else 1) + (if p.Idle? then 0 else 1)
    ensures Busy(agents) <= |agents|
  {
    if i > 0 {
      BusyUpdate(agents[1..], i - 1, p);
      assert agents[i := p][1..] == agents[1..][i - 1 := p];
    } else {
      assert agents[0 := p][1..] == agents[1..];
      if |agents| > 1 {
        BusyUpdate(agents[1..], 0, agents[1]);
      }
    }
  }

  /** `n` maximal costs. */
  function Costs(cfg: Config, n: nat): real {
    n as real * cfg.maxCost
  }

  lemma CostsOrdered(cfg: Config, m: nat, n: nat)
    requires 0.0 <= cfg.maxCost && m <= n
    ensures 0.0 <= Costs(cfg, m) <= Costs(cfg, n)
    ensures n == m + 1 ==> Costs(cfg, n) == Costs(cfg, m) + cfg.maxCost
  {
    assert Costs(cfg, n) - Costs(cfg, m) == (n - m) as real * cfg.maxCost;
  }

  /** What every step keeps: each busy agent may still add one maximal cost. */
  ghost predicate WithinOvershoot(cfg: Config, s: System) {
    && 0.0 <= s.total
    && (forall i :: 0 <= i < |s.agents| && s.agents[i].Owes? ==> 0.0 <= s.agents[i].cost <= cfg.maxCost)
    && (s.total + Costs(cfg, Busy(s.agents)) < cfg.limit + Costs(cfg, |s.agents|)
        || (s.total == 0.0 && Busy(s.agents) == 0))
  }

  lemma StepKeepsOvershoot(cfg: Config, s: System, a: Action)
    requires 0.0 <= cfg.maxCost && Allowed(cfg, s, a) && WithinOvershoot(cfg, s)
    ensures WithinOvershoot(cfg, Step(cfg, s, a)) && |Step(cfg, s, a).agents| == |s.agents|
  {
    var s' := Step(cfg, s, a);
    if !a.Clear? {
      var phase := s'.agents[a.agent];
      assert s'.agents == s.agents[a.agent := phase];
      BusyUpdate(s.agents, a.agent, phase);
      BusyUpdate(s'.agents, a.agent, phase);
      var before, after := Busy(s.agents), Busy(s'.agents);
      if after <= before {
        CostsOrdered(cfg, after, before);
      } else {
        CostsOrdered(cfg, after, |s.agents|);
      }
    } else {
      CostsOrdered(cfg, 0, Busy(s.agents));
    }
  }

  lemma {:induction false} RunKeepsOvershoot(cfg: Config, s: System, run: seq<Action>)
    requires 0.0 <= cfg.maxCost && IsRun(cfg, s, run) && WithinOvershoot(cfg, s)
    ensures WithinOvershoot(cfg, Exec(cfg, s, run))
    ensures |Exec(cfg, s, run).agents| == |s.agents|
    decreases |run|
  {
    if run != [] {
      StepKeepsOvershoot(cfg, s, run[0]);
      RunKeepsOvershoot(cfg, Step(cfg, s, run[0]), run[1..]);
    }
  }

  lemma {:induction false} NoneBusy(agents: seq<Phase>)
    requires forall i :: 0 <= i < |agents| ==> agents[i].Idle?
    ensures Busy(agents) == 0
  {
    if agents != [] {
      NoneBusy(agents[1..]);
    }
  }

  /**
   * The overshoot bound: however the agents interleave, the daily total never reaches
   * the ceiling plus one maximal cost per agent.
   */
  lemma OvershootBound(cfg: Config, agents: nat, run: seq<Action>)
    requires 0.0 <= cfg.maxCost && IsRun(cfg, Start(agents), run)
    ensures var total := Exec(cfg, Start(agents), run).total;
      0.0 <= total && (total == 0.0 || total < cfg.limit + Costs(cfg, agents))
  {
    NoneBusy(Start(agents).agents);
    RunKeepsOvershoot(cfg, Start(agents), run);
    CostsOrdered(cfg, 0, Busy(Exec(cfg, Start(agents), run).agents));
  }

  lemma {:induction false} ExecAppend(cfg: Config, s: System, a: seq<Action>, b: seq<Action>)
    requires IsRun(cfg, s, a) && IsRun(cfg, Exec(cfg, s, a), b)
    ensures IsRun(cfg, s, a + b) && Exec(cfg, s, a + b) == Exec(cfg, Exec(cfg, s, a), b)
    decreases |a|
  {
    if a == [] {
      assert a + b == b;
    } else {
      assert (a + b)[1..] == a[1..] + b;
      ExecAppend(cfg, Step(cfg, s, a[0]), a[1..], b);
    }
  }
}
