/**
 * How far the daily total can go over its ceiling, to the token, on the real script and keys:
 * runs in which every call is granted and recorded properly and the ceiling is still passed.
 */
module LimiterOvershoot {
  import opened Pricing
  import opened RedisKeys
  import opened SharedLimiter
  import RL = RateLimiter
  import CC = CostCeiling
  import DC = DailyCost

  /** Every script run asks for the same number of tokens, as with the default estimate. */
  ghost predicate Asks(estimate: int, run: seq<Command>) {
    forall i :: 0 <= i < |run| && run[i].Acquire? ==> run[i].estimate == estimate
  }

  /** Every cost is recorded as it should be: the EXPIRE follows at once, with the right time. */
  ghost predicate Recorded(run: seq<Command>) {
    forall i :: 0 <= i < |run| && run[i].Add? ==> i + 1 < |run| && run[i + 1] == Expire(run[i].at, run[i].at)
  }

  /** A run from `s` to `s'` with these two properties. */
  ghost predicate Leads(cfg: Config, s: System, run: seq<Command>, s': System, estimate: int) {
    IsRun(cfg, s, run) && Exec(cfg, s, run) == s' && Asks(estimate, run) && Recorded(run)
  }

  lemma {:induction false} ExecAppend(cfg: Config, s: System, a: seq<Command>, b: seq<Command>)
    requires IsRun(cfg, s, a) && IsRun(cfg, Exec(cfg, s, a), b)
    ensures IsRun(cfg, s, a + b) && Exec(cfg, s, a + b) == Exec(cfg, Exec(cfg, s, a), b)
    decreases |a|
  {
    if a == [] {
      assert a + b == b;
    } else {
      assert (a + b)[1..] == a[1..] + b;
      ExecAppend(cfg, Step(cfg, s, a[0]), a[1..], b);
    }
  }

  lemma LeadsAppend(cfg: Config, s: System, a: seq<Command>, s1: System, b: seq<Command>, s2: System, estimate: int)
    requires Leads(cfg, s, a, s1, estimate) && Leads(cfg, s1, b, s2, estimate)
    ensures Leads(cfg, s, a + b, s2, estimate)
  {
    ExecAppend(cfg, s, a, b);
    hide IsRun, Exec;
    forall i | 0 <= i < |a + b| && (a + b)[i].Add?
      ensures i + 1 < |a + b| && (a + b)[i + 1] == Expire((a + b)[i].at, (a + b)[i].at)
    {
      assert i < |a| ==> a[i].Add?;
      assert i >= |a| ==> b[i - |a|].Add?;
    }
  }

  // ---------- one call a minute ----------

  /** The middle of a minute: half a minute from any midnight. */
  function Tick(n: int): real {
    n as real * 60.0 + 30.0
  }

  /** A key refreshed in the middle of a minute outlasts the next one. */
  lemma TickOutlasts(n: int)
    ensures Tick(n + 1) < Tick(n) + DC.TimeToLive(Tick(n))
  {
    var day := (Tick(n) / DC.DAY).Floor;
    assert Tick(n) / DC.DAY * DC.DAY == Tick(n);
    assert (day as real) * DC.DAY <= Tick(n) < (day as real + 1.0) * DC.DAY;
    assert n - 1440 * day < 1440;
    assert DC.DAY - DC.Mod(Tick(n), DC.DAY) >= 30.0;
  }

  /** At the n-th tick nothing counts against the limits and the total reads the price of `total` tokens. */
  ghost predicate Ready(s: System, n: int, total: int) {
    && s.now <= Tick(n)
    && GetInt(s.counters.rpm, Tick(n)) == 0 && GetInt(s.counters.tpm, Tick(n)) == 0
    && GetReal(s.daily, Tick(n)) == Price(total)
  }

  /** A call that costs as much as `most` prompt tokens is allowed, and none that costs more. */
  predicate AtMost(cfg: Config, most: nat) {
    cfg.ceiling.maxCost == Price(most)
  }

  lemma Check(cfg: Config, s: System, n: int, i: nat, total: int, estimate: int)
    returns (run: seq<Command>, s': System)
    requires Ready(s, n, total) && i < |s.agents| && s.agents[i].Idle? && Price(total) < cfg.ceiling.limit
    ensures Leads(cfg, s, run, s', estimate)
    ensures s'.agents == s.agents[i := CC.Checked] && Ready(s', n, total)
  {
    run := [Get(i, Tick(n))];
    s' := Step(cfg, s, run[0]);
    assert run[1..] == [];
  }

  lemma Prepend(cfg: Config, s: System, c: Command, rest: seq<Command>)
    requires Enabled(cfg, s, c) && IsRun(cfg, Step(cfg, s, c), rest)
    ensures IsRun(cfg, s, [c] + rest) && Exec(cfg, s, [c] + rest) == Exec(cfg, Step(cfg, s, c), rest)
  {
    assert ([c] + rest)[1..] == rest;
  }

  /** A checked agent acquires, calls, and records its cost. */
  lemma Spend(cfg: Config, s: System, n: int, i: nat, most: nat, tokens: nat, total: int, estimate: int)
    returns (run: seq<Command>, s': System)
    requires Ready(s, n, total) && i < |s.agents| && s.agents[i].Checked?
    requires 0 < cfg.limits.rpm && estimate <= cfg.limits.tpm && AtMost(cfg, most) && tokens <= most
    ensures Leads(cfg, s, run, s', estimate)
    ensures s'.agents == s.agents[i := CC.Idle]
    ensures Ready(s', n + 1, total + tokens) && s'.now == Tick(n) && GetReal(s'.daily, s'.now) == Price(total + tokens)
  {
    var at := Tick(n);
    TickOutlasts(n);
    CallCostIsPrice(tokens, 0);
    var s1 := Step(cfg, s, Acquire(i, at, estimate));
    var s2 := Step(cfg, s1, Call(i, tokens, 0));
    var s3 := Step(cfg, s2, Add(i, at));
    s' := Step(cfg, s3, Expire(at, at));
    RL.BumpedKey(s.counters.rpm, at, 1, Tick(n + 1));
    RL.BumpedKey(s.counters.tpm, at, estimate, Tick(n + 1));
    DC.TimeToLiveIsPositive(at);
    run := [Acquire(i, at, estimate), Call(i, tokens, 0), Add(i, at), Expire(at, at)];
    assert run == [Acquire(i, at, estimate)] + ([Call(i, tokens, 0)] + ([Add(i, at)] + ([Expire(at, at)] + [])));
    Prepend(cfg, s3, Expire(at, at), []);
    Prepend(cfg, s2, Add(i, at), [Expire(at, at)] + []);
    Prepend(cfg, s1, Call(i, tokens, 0), [Add(i, at)] + ([Expire(at, at)] + []));
    Prepend(cfg, s, Acquire(i, at, estimate), [Call(i, tokens, 0)] + ([Add(i, at)] + ([Expire(at, at)] + [])));
  }

  lemma SoloCycle(cfg: Config, s: System, n: int, most: nat, tokens: nat, total: int, estimate: int)
    returns (run: seq<Command>, s': System)
    requires Ready(s, n, total) && 0 < |s.agents| && s.agents[0].Idle? && Price(total) < cfg.ceiling.limit
    requires 0 < cfg.limits.rpm && estimate <= cfg.limits.tpm && AtMost(cfg, most) && tokens <= most
    ensures Leads(cfg, s, run, s', estimate)
    ensures s'.agents == s.agents && Ready(s', n + 1, total + tokens)
  {
    var check, s1 := Check(cfg, s, n, 0, total, estimate);
    var spend, s2 := Spend(cfg, s1, n, 0, most, tokens, total, estimate);
    LeadsAppend(cfg, s, check, s1, spend, s2, estimate);
    run, s' := check + spend, s2;
  }

  /** Agent 0 alone, one call a minute, brings the total to any number of tokens priced below the ceiling. */
  lemma FillTo(cfg: Config, s: System, n: int, most: nat, total: int, target: int, estimate: int)
    returns (run: seq<Command>, s': System, n': int)
    requires Ready(s, n, total) && 0 < |s.agents| && s.agents[0].Idle?
    requires 0 < cfg.limits.rpm && estimate <= cfg.limits.tpm && AtMost(cfg, most) && 0 < most
    requires total <= target && Price(target) < cfg.ceiling.limit
    ensures Leads(cfg, s, run, s', estimate)
    ensures s'.agents == s.agents && Ready(s', n', target)
    decreases target - total
  {
    hide Leads, Ready;
    if target - total <= most {
      run, s' := SoloCycle(cfg, s, n, most, target - total, total, estimate);
      n' := n + 1;
    } else {
      var first, s1 := SoloCycle(cfg, s, n, most, most, total, estimate);
      var rest, s2, last := FillTo(cfg, s1, n + 1, most, total + most, target, estimate);
      LeadsAppend(cfg, s, first, s1, rest, s2, estimate);
      run, s', n' := first + rest, s2, last;
    }
  }

  // ---------- all agents at once ----------

  /** Exactly the agents `from .. to` have passed the check. */
  function Waiting(agents: nat, from: nat, to: nat): seq<CC.Phase> {
    seq(agents, i => if from <= i < to then CC.Checked else CC.Idle)
  }

  lemma EmptyRun(cfg: Config, s: System, estimate: int)
    ensures Leads(cfg, s, [], s, estimate)
  {
  }

  lemma {:induction false} AllCheck(cfg: Config, s: System, n: int, k: nat, total: int, estimate: int)
    returns (run: seq<Command>, s': System)
    requires k <= |s.agents| && s.agents == Waiting(|s.agents|, 0, 0)
    requires Ready(s, n, total) && Price(total) < cfg.ceiling.limit
    ensures Leads(cfg, s, run, s', estimate)
    ensures s'.agents == Waiting(|s.agents|, 0, k) && Ready(s', n, total)
  {
    if k == 0 {
      EmptyRun(cfg, s, estimate);
      run, s' := [], s;
    } else {
      hide Leads, Ready;
      var prior, s1 := AllCheck(cfg, s, n, k - 1, total, estimate);
      var check, s2 := Check(cfg, s1, n, k - 1, total, estimate);
      LeadsAppend(cfg, s, prior, s1, check, s2, estimate);
      run, s' := prior + check, s2;
    }
  }

  lemma {:induction false} AllSpend(cfg: Config, s: System, n: int, k: nat, most: nat, total: int, estimate: int)
    returns (run: seq<Command>, s': System)
    requires 0 < k <= |s.agents| && s.agents == Waiting(|s.agents|, 0, |s.agents|)
    requires Ready(s, n, total)
    requires 0 < cfg.limits.rpm && estimate <= cfg.limits.tpm && AtMost(cfg, most)
    ensures Leads(cfg, s, run, s', estimate)
    ensures s'.agents == Waiting(|s.agents|, k, |s.agents|)
    ensures Ready(s', n + k, total + k * most) && GetReal(s'.daily, s'.now) == Price(total + k * most)
  {
    hide Leads, Ready, Price;
    if k == 1 {
      run, s' := Spend(cfg, s, n, 0, most, most, total, estimate);
    } else {
      var prior, s1 := AllSpend(cfg, s, n, k - 1, most, total, estimate);
      var spend, s2 := Spend(cfg, s1, n + k - 1, k - 1, most, most, total + (k - 1) * most, estimate);
      LeadsAppend(cfg, s, prior, s1, spend, s2, estimate);
      assert (k - 1) * most + most == k * most;
      run, s' := prior + spend, s2;
    }
  }

  lemma StartIsReady(agents: nat, start: real) returns (n: int)
    ensures Ready(Start(agents, start), n, 0)
  {
    n := (start / 60.0).Floor + 1;
    assert start / 60.0 * 60.0 == start;
  }

  // ---------- the largest total ----------

  /** The most tokens that can be on the key: all that cost less than the ceiling, and one full call for each agent. */
  function Largest(cfg: Config, agents: nat, most: nat): int {
    Below(cfg.ceiling.limit) + agents * most
  }

  /** Every amount in the state is the price of a whole number of tokens. */
  ghost predicate Whole(s: System) {
    && (s.daily.Present? ==> exists n :: s.daily.value == Price(n))
    && (forall i :: 0 <= i < |s.agents| && s.agents[i].Owes? ==> exists n :: s.agents[i].cost == Price(n))
  }

  lemma StepKeepsWhole(cfg: Config, s: System, c: Command)
    requires Enabled(cfg, s, c) && Whole(s)
    ensures Whole(Step(cfg, s, c))
  {
    var s' := Step(cfg, s, c);
    if c.Call? {
      CallCostIsPrice(c.prompt, c.completion);
    } else if c.Add? {
      var n :| s.agents[c.agent].cost == Price(n);
      if s.daily.LiveAt(c.at) {
        var m :| s.daily.value == Price(m);
        assert s'.daily.value == Price(m + n);
      } else {
        assert s'.daily.value == Price(n);
      }
    }
  }

  lemma {:induction false} RunKeepsWhole(cfg: Config, s: System, run: seq<Command>)
    requires IsRun(cfg, s, run) && Whole(s)
    ensures Whole(Exec(cfg, s, run))
    decreases |run|
  {
    if run != [] {
      hide Whole;
      StepKeepsWhole(cfg, s, run[0]);
      RunKeepsWhole(cfg, Step(cfg, s, run[0]), run[1..]);
    }
  }

  lemma {:induction false} CostsArePrice(cfg: Config, n: nat, most: nat)
    requires AtMost(cfg, most)
    ensures CC.Costs(cfg.ceiling, n) == Price(n * most)
  {
    if n == 0 {
      assert CC.Costs(cfg.ceiling, 0) == 0.0 && 0 * most == 0;
    } else {
      CostsArePrice(cfg, n - 1, most);
      CC.CostsOrdered(cfg.ceiling, n - 1, n);
      assert (n - 1) * most + most == n * most;
    }
  }

  /** Whenever the key is read it holds nothing or at most the price of that many tokens. */
  lemma LargestIsBound(cfg: Config, agents: nat, most: nat, start: real, run: seq<Command>, t: real)
    requires AtMost(cfg, most) && IsRun(cfg, Start(agents, start), run)
    requires Exec(cfg, Start(agents, start), run).now <= t
    ensures var total := GetReal(Exec(cfg, Start(agents, start), run).daily, t);
      total == 0.0 || total <= Price(Largest(cfg, agents, most))
  {
    var s := Exec(cfg, Start(agents, start), run);
    StoredCostBound(cfg, agents, start, run, t);
    RunKeepsWhole(cfg, Start(agents, start), run);
    CostsArePrice(cfg, agents, most);
    var n := ReadingIsWhole(s, t);
    hide Exec, IsRun, Whole, Price, Below;
    if Price(n) != 0.0 {
      WholeBelow(cfg.ceiling.limit, n, agents * most);
    }
  }

  lemma ReadingIsWhole(s: System, t: real) returns (n: int)
    requires Whole(s)
    ensures GetReal(s.daily, t) == Price(n)
  {
    if s.daily.LiveAt(t) {
      n :| s.daily.value == Price(n);
    } else {
      n := 0;
    }
  }

  lemma WholeBelow(limit: real, n: int, busy: int)
    requires Price(n) < limit + Price(busy)
    ensures Price(n) <= Price(Below(limit) + busy)
  {
    hide Price, Below;
    var most := Below(limit) + busy;
    PriceAdds(Below(limit) + 1, busy);
    PriceGrows(most + 1, n);
    PriceGrows(n, most);
  }

  /**
   * And the bound is reached: whenever calls can be granted at all, N agents that do everything
   * properly bring the stored total to it exactly.
   */
  lemma LargestIsReached(cfg: Config, agents: nat, most: nat, start: real, estimate: int)
    returns (run: seq<Command>, s': System)
    requires AtMost(cfg, most) && 0 < agents && 0 < most && 0.0 < cfg.ceiling.limit
    requires 0 < cfg.limits.rpm && estimate <= cfg.limits.tpm
    ensures Leads(cfg, Start(agents, start), run, s', estimate)
    ensures GetReal(s'.daily, s'.now) == Price(Largest(cfg, agents, most))
  {
    var target := Below(cfg.ceiling.limit);
    var s0 := Start(agents, start);
    var n := StartIsReady(agents, start);
    assert s0.agents == Waiting(agents, 0, 0);
    var fill, s1, m := FillTo(cfg, s0, n, most, 0, target, estimate);
    hide Leads, Ready;
    var check, s2 := AllCheck(cfg, s1, m, agents, target, estimate);
    var spend, s3 := AllSpend(cfg, s2, m, agents, most, target, estimate);
    LeadsAppend(cfg, s1, check, s2, spend, s3, estimate);
    LeadsAppend(cfg, s0, fill, s1, check + spend, s3, estimate);
    run, s' := fill + (check + spend), s3;
  }

  // ---------- when the ceiling is a hard stop ----------

  /** Whenever the total is read after the run, nothing is spent or it is not over the ceiling. */
  ghost predicate StaysUnder(cfg: Config, s: System) {
    forall t :: s.now <= t ==> GetReal(s.daily, t) == 0.0 || GetReal(s.daily, t) <= cfg.ceiling.limit
  }

  /** No agent was ever let through. */
  ghost predicate Idle(s: System) {
    && s.counters == RL.Counters(Absent, Absent) && s.daily == Absent
    && forall i :: 0 <= i < |s.agents| ==> s.agents[i].Idle? || s.agents[i].Checked?
  }

  lemma {:induction false} NeverGranted(cfg: Config, s: System, run: seq<Command>)
    requires Idle(s) && IsRun(cfg, s, run)
    requires cfg.limits.rpm <= 0 || forall c :: c in run && c.Acquire? ==> cfg.limits.tpm < c.estimate
    ensures Idle(Exec(cfg, s, run))
    decreases |run|
  {
    if run != [] {
      assert run[0] in run;
      NeverGranted(cfg, Step(cfg, s, run[0]), run[1..]);
    }
  }

  lemma {:induction false} NeverChecked(cfg: Config, s: System, run: seq<Command>)
    requires IsRun(cfg, s, run) && cfg.ceiling.limit <= 0.0
    requires s.daily == Absent && forall i :: 0 <= i < |s.agents| ==> s.agents[i].Idle?
    ensures Exec(cfg, s, run).daily == Absent
    decreases |run|
  {
    if run != [] {
      NeverChecked(cfg, Step(cfg, s, run[0]), run[1..]);
    }
  }

  /** Nothing can be spent: nobody asks, calls are free, or every call is refused. */
  predicate NothingToSpend(cfg: Config, agents: nat, most: nat) {
    agents == 0 || most == 0 || cfg.ceiling.limit <= 0.0 || cfg.limits.rpm <= 0
  }

  /** One agent whose calls use one token at most, and a ceiling that is the price of whole tokens. */
  predicate LandsOnCeiling(cfg: Config, agents: nat, most: nat) {
    agents == 1 && most == 1 && cfg.ceiling.limit == Price(Below(cfg.ceiling.limit) + 1)
  }

  lemma OverExactlyWhen(cfg: Config, agents: nat, most: nat)
    requires 0 < agents && 0 < most
    ensures cfg.ceiling.limit < Price(Largest(cfg, agents, most)) <==> !LandsOnCeiling(cfg, agents, most)
  {
    hide Price, Below;
    var n, busy := Below(cfg.ceiling.limit), agents * most;
    if agents == 1 && most == 1 {
      assert busy == 1;
      PriceGrows(n + 1, n + busy);
    } else {
      assert busy >= 2 by { Product(agents, most); }
      PriceGrows(n + 1, n + busy);
    }
  }

  lemma Product(a: nat, b: nat)
    requires 0 < a && 0 < b
    ensures a <= a * b && b <= a * b
  {
  }

  lemma UnderWhenNothingToSpend(cfg: Config, agents: nat, most: nat, start: real, run: seq<Command>)
    requires AtMost(cfg, most) && IsRun(cfg, Start(agents, start), run)
    requires NothingToSpend(cfg, agents, most) || LandsOnCeiling(cfg, agents, most)
          || forall c :: c in run && c.Acquire? ==> cfg.limits.tpm < c.estimate
    ensures StaysUnder(cfg, Exec(cfg, Start(agents, start), run))
  {
    var s := Exec(cfg, Start(agents, start), run);
    if cfg.ceiling.limit <= 0.0 {
      NeverChecked(cfg, Start(agents, start), run);
    } else if agents == 0 || most == 0 || LandsOnCeiling(cfg, agents, most) {
      assert agents == 0 || most == 0 ==> agents * most == 0;
      forall t | s.now <= t ensures GetReal(s.daily, t) == 0.0 || GetReal(s.daily, t) <= cfg.ceiling.limit {
        LargestIsBound(cfg, agents, most, start, run, t);
      }
    } else {
      NeverGranted(cfg, Start(agents, start), run);
    }
  }

  /** A run whose calls all ask for `estimate` and whose costs are all recorded properly, over the ceiling. */
  lemma OverTheCeiling(cfg: Config, agents: nat, most: nat, start: real, estimate: int) returns (run: seq<Command>)
    requires AtMost(cfg, most) && !NothingToSpend(cfg, agents, most) && !LandsOnCeiling(cfg, agents, most)
    requires estimate <= cfg.limits.tpm
    ensures IsRun(cfg, Start(agents, start), run) && Asks(estimate, run) && Recorded(run)
    ensures !StaysUnder(cfg, Exec(cfg, Start(agents, start), run))
  {
    var s': System;
    run, s' := LargestIsReached(cfg, agents, most, start, estimate);
    OverExactlyWhen(cfg, agents, most);
    assert GetReal(s'.daily, s'.now) > cfg.ceiling.limit;
  }

  /** The ceiling is a hard stop exactly when nothing can be spent, or one agent lands on it token by token. */
  lemma HardStopExactlyWhen(cfg: Config, agents: nat, most: nat, start: real)
    requires AtMost(cfg, most)
    ensures (forall run :: IsRun(cfg, Start(agents, start), run) ==>
              StaysUnder(cfg, Exec(cfg, Start(agents, start), run)))
       <==> NothingToSpend(cfg, agents, most) || LandsOnCeiling(cfg, agents, most)
  {
    if NothingToSpend(cfg, agents, most) || LandsOnCeiling(cfg, agents, most) {
      forall run | IsRun(cfg, Start(agents, start), run)
        ensures StaysUnder(cfg, Exec(cfg, Start(agents, start), run))
      {
        UnderWhenNothingToSpend(cfg, agents, most, start, run);
      }
    } else {
      var run := OverTheCeiling(cfg, agents, most, start, cfg.limits.tpm);
    }
  }

  /**
   * The same for agents that all ask for one estimate and record every cost properly, where
   * an estimate over the token limit is one more way to spend nothing.
   */
  lemma HardStopForEstimateExactlyWhen(cfg: Config, agents: nat, most: nat, start: real, estimate: int)
    requires AtMost(cfg, most)
    ensures (forall run :: IsRun(cfg, Start(agents, start), run) && Asks(estimate, run) && Recorded(run) ==>
              StaysUnder(cfg, Exec(cfg, Start(agents, start), run)))
       <==> NothingToSpend(cfg, agents, most) || LandsOnCeiling(cfg, agents, most) || cfg.limits.tpm < estimate
  {
    if NothingToSpend(cfg, agents, most) || LandsOnCeiling(cfg, agents, most) || cfg.limits.tpm < estimate {
      forall run | IsRun(cfg, Start(agents, start), run) && Asks(estimate, run) && Recorded(run)
        ensures StaysUnder(cfg, Exec(cfg, Start(agents, start), run))
      {
        UnderWhenNothingToSpend(cfg, agents, most, start, run);
      }
    } else {
      var run := OverTheCeiling(cfg, agents, most, start, estimate);
    }
  }
}
