/** The shared store as the agents drive it: acquire, record_usage, reset_daily_cost. */
module LimiterStore {
  import opened Pricing
  import opened RedisKeys
  import RL = RateLimiter
  import DC = DailyCost

  class Store {
    const limits: RL.Limits
    const dailyLimit: real
    var rpm: Key<int>
    var tpm: Key<int>
    var daily: Key<real>

    // Everything the store has been asked to do, in the order it arrived.
    ghost var calls: seq<RL.Call>
    ghost var events: seq<DC.Event>

    /** The keys hold exactly what their histories lead to. */
    ghost predicate Valid()
      reads this
    {
      && RL.InOrder(calls) && RL.Counters(rpm, tpm) == RL.Replay(limits, calls).counters
      && daily == DC.Replay(events)
    }

    /** The calls granted so far. */
    ghost function Grants(): seq<RL.Call>
      reads this
    {
      RL.Replay(limits, calls).grants
    }

    constructor (limits: RL.Limits, dailyLimit: real)
      ensures Valid() && Grants() == [] && calls == [] && events == []
      ensures this.limits == limits && this.dailyLimit == dailyLimit
    {
      this.limits, this.dailyLimit := limits, dailyLimit;
      rpm, tpm, daily := Absent, Absent, Absent;
      calls, events := [], [];
    }

    /**
     * acquire(): the ceiling is read at `readAt`, the script runs at `scriptAt`. Below the
     * ceiling, the call is granted exactly when the burst it joins leaves room.
     */
    method Acquire(readAt: real, scriptAt: real, estimate: int) returns (granted: bool)
      requires Valid()
      requires RL.InOrder(calls + [RL.Call(scriptAt, estimate)])
      modifies this`rpm, this`tpm, this`calls
      ensures Valid()
      ensures GetReal(daily, readAt) >= dailyLimit ==> !granted && calls == old(calls) && Grants() == old(Grants())
      ensures GetReal(daily, readAt) < dailyLimit ==>
        && calls == old(calls) + [RL.Call(scriptAt, estimate)]
        && (granted <==>
            && |RL.Counted(old(Grants()), scriptAt)| < limits.rpm
            && RL.Tokens(RL.Counted(old(Grants()), scriptAt)) + estimate <= limits.tpm)
        && Grants() == if granted then old(Grants()) + [RL.Call(scriptAt, estimate)] else old(Grants())
    {
      if GetReal(daily, readAt) >= dailyLimit {
        return false;
      }
      ghost var call := RL.Call(scriptAt, estimate);
      RL.GrantedExactlyWhenBurstHasRoom(limits, calls, call);
      RL.ReplayAppend(limits, calls, call);
      calls := calls + [call];
      if GetInt(rpm, scriptAt) >= limits.rpm {
        return false;
      }
      if GetInt(tpm, scriptAt) + estimate > limits.tpm {
        return false;
      }
      rpm := IncrBy(rpm, scriptAt, 1);
      rpm := rpm.ExpireIn(scriptAt, RL.WINDOW);
      tpm := IncrBy(tpm, scriptAt, estimate);
      tpm := tpm.ExpireIn(scriptAt, RL.WINDOW);
      return true;
    }

    /** record_usage(): the increment at `addAt`, the clock at `clock`, the expiry at `expireAt`. */
    method RecordUsage(promptTokens: int, completionTokens: int, addAt: real, clock: real, expireAt: real)
      returns (total: real)
      requires Valid()
      modifies this`daily, this`events
      ensures Valid()
      ensures total == GetReal(old(daily), addAt) + CallCost(promptTokens, completionTokens)
      ensures events == old(events)
        + [DC.Add(addAt, CallCost(promptTokens, completionTokens))] + [DC.Refresh(expireAt, clock)]
    {
      var cost := promptTokens as real / 1000.0 * COST_PER_1K_INPUT
                + completionTokens as real / 1000.0 * COST_PER_1K_OUTPUT;
      DC.ReplayAppend(events, DC.Add(addAt, cost));
      daily := IncrByFloat(daily, addAt, cost);
      events := events + [DC.Add(addAt, cost)];
      total := daily.value;
      var secondsUntilMidnight := DC.DAY - DC.Mod(clock, DC.DAY);
      DC.ReplayAppend(events, DC.Refresh(expireAt, clock));
      daily := daily.ExpireIn(expireAt, (secondsUntilMidnight.Floor + 60) as real);
      events := events + [DC.Refresh(expireAt, clock)];
    }

    method ResetDailyCost(at: real)
      requires Valid()
      modifies this`daily, this`events
      ensures Valid() && daily == Absent && events == old(events) + [DC.Reset(at)]
    {
      DC.ReplayAppend(events, DC.Reset(at));
      daily := Absent;
      events := events + [DC.Reset(at)];
    }
  }

  /**
   * What any use of a store leaves: every half-open minute of its grants respects both
   * limits, and a total that can be read is the sum of the costs recorded since the key was
   * last clear.
   */
  lemma StoreKeepsItsPromises(store: Store, from: real, now: real)
    requires store.Valid()
    ensures var minute := RL.InSpan(store.Grants(), from, from + 60.0);
      minute == [] ||
      (|minute| <= store.limits.rpm && (RL.NonNegative(store.calls) ==> RL.Tokens(minute) <= store.limits.tpm))
    ensures store.daily.LiveAt(now) ==> exists first ::
      && 0 <= first < |store.events| && store.events[first].Add? && !DC.LiveBefore(store.events, first)
      && (forall i :: first < i < |store.events| ==> DC.LiveBefore(store.events, i) && !store.events[i].Reset?)
      && store.daily.value == DC.CostOf(store.events[first..])
  {
    RL.SlidingWindowBound(store.limits, store.calls, from);
    if store.daily.LiveAt(now) {
      var first := DC.TotalSinceLastClear(store.events, now);
    }
  }
}
