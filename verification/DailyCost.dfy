/**
 * The daily cost counter: INCRBYFLOAT when a call is recorded, then EXPIRE with a time
 * to live computed from the recorder's own clock. The two commands are not atomic.
 */
module DailyCost {
  import opened RedisKeys
  import opened Wrappers

  const DAY := 86400.0

  /** Python's `%` on floats, for a positive divisor. */
  function Mod(x: real, m: real): real
    requires 0.0 < m
  {
    x - m * (x / m).Floor as real
  }

  /** int(86400 - now % 86400) + 60 */
  function TimeToLive(now: real): real {
    ((DAY - Mod(now, DAY)).Floor + 60) as real
  }

  /** The UTC midnight that starts the given day. */
  function Midnight(day: int): real {
    day as real * 86400.0
  }

  /** `m` is the first UTC midnight strictly after `now`. */
  ghost predicate IsNextMidnight(m: real, now: real) {
    (exists day: int :: m == Midnight(day)) && now < m <= now + 86400.0
  }

  datatype Event =
    | Add(at: real, cost: real)          // INCRBYFLOAT
    | Refresh(at: real, clock: real)     // EXPIRE at `at`, computed from a clock read at `clock`
    | Reset(at: real)                    // DELETE by the ops endpoint

  function Apply(k: Key<real>, e: Event): Key<real> {
    match e
    case Add(at, cost) => IncrByFloat(k, at, cost)
    case Refresh(at, clock) => k.ExpireIn(at, TimeToLive(clock))
    case Reset(_) => Absent
  }

  /** The key after a history of commands on an empty store. */
  function Replay(events: seq<Event>): Key<real> {
    if events == [] then Absent else Apply(Replay(events[..|events| - 1]), events[|events| - 1])
  }

  function CostOf(events: seq<Event>): real {
    if events == [] then 0.0
    else
      var e := events[|events| - 1];
      CostOf(events[..|events| - 1]) + if e.Add? then e.cost else 0.0
  }

  /** The expiry set at `now` lies in the last second of the minute after the next midnight. */
  lemma ExpiryFollowsMidnight(now: real, m: real)
    requires IsNextMidnight(m, now)
    ensures m + 59.0 < now + TimeToLive(now) <= m + 60.0
  {
    var day: int :| m == Midnight(day);
    var q := now / 86400.0;
    assert q * 86400.0 == now;
    assert (day as real - 1.0) * 86400.0 <= q * 86400.0 < day as real * 86400.0;
    assert q.Floor == day - 1;
    assert 86400.0 - Mod(now, 86400.0) == m - now;
  }

  lemma TimeToLiveIsPositive(now: real)
    ensures 60.0 <= TimeToLive(now)
  {
    var q := now / 86400.0;
    assert q * 86400.0 == now;
    assert (q - q.Floor as real) * 86400.0 < 86400.0;
  }

  // ---------- conservation ----------

  /** The key could still be read when event `i` reached the store. */
  ghost predicate LiveBefore(events: seq<Event>, i: nat)
    requires i < |events|
  {
    Replay(events[..i]).LiveAt(events[i].at)
  }

  lemma LiveBeforeOfPrefix(events: seq<Event>, n: nat)
    requires n <= |events|
    ensures forall i :: 0 <= i < n ==> LiveBefore(events, i) == LiveBefore(events[..n], i)
  {
    forall i | 0 <= i < n ensures LiveBefore(events, i) == LiveBefore(events[..n], i) {
      assert events[..n][..i] == events[..i];
    }
  }

  lemma CostOfSuffix(events: seq<Event>, first: nat)
    requires first < |events|
    ensures var last := |events| - 1;
      CostOf(events[first..]) == CostOf(events[..last][first..]) + if events[last].Add? then events[last].cost else 0.0
  {
    var last := |events| - 1;
    assert events[first..][..last - first] == events[..last][first..];
  }

  /**
   * The stored total is the sum of the costs added since the key was last clear: there is
   * an addition that found no live key, and since then the key was live at every command
   * and no reset happened.
   */
  lemma {:induction false} TotalSinceLastClear(events: seq<Event>, now: real) returns (first: nat)
    requires Replay(events).LiveAt(now)
    ensures first < |events| && events[first].Add? && !LiveBefore(events, first)
    ensures forall i :: first < i < |events| ==> LiveBefore(events, i) && !events[i].Reset?
    ensures Replay(events).value == CostOf(events[first..])
  {
    var last := |events| - 1;
    var before, e := events[..last], events[last];
    if e.Add? && !Replay(before).LiveAt(e.at) {
      first := last;
      assert events[last..] == [e] && [e][..0] == [];
    } else {
      first := TotalSinceLastClear(before, e.at);
      LiveBeforeOfPrefix(events, last);
      CostOfSuffix(events, first);
    }
  }

  // ---------- costs survive their day ----------

  /** The key is live until more than 59 s past `m`. */
  ghost predicate HeldPast(k: Key<real>, m: real) {
    k.Present? && k.expiresAt.Some? && m + 59.0 < k.expiresAt.value
  }

  /** The first midnight after the UTC day that ends at `m`, or after any earlier day, is not before `m`. */
  lemma LaterDayLaterMidnight(m: real, clock: real, m': real)
    requires exists day: int :: m == Midnight(day)
    requires IsNextMidnight(m', clock) && m - 86400.0 <= clock
    ensures m <= m'
  {
    var day: int :| m == Midnight(day);
    var day': int :| m' == Midnight(day');
    assert m' - m == (day' - day) as real * 86400.0;
  }

  lemma NextMidnight(now: real) returns (m: real)
    ensures IsNextMidnight(m, now)
  {
    var day := (now / 86400.0).Floor + 1;
    m := Midnight(day);
    assert now / 86400.0 * 86400.0 == now;
  }

  /**
   * Nothing recorded is dropped before its day is over: once an EXPIRE computed on the day
   * ending at `m` has taken effect, the total only grows by what is added until 59 s past
   * `m`, provided nobody resets the counter and no later EXPIRE uses a clock from an
   * earlier day.
   */
  lemma {:induction false} NoCostDroppedBeforeMidnight(
      before: seq<Event>, refresh: Event, later: seq<Event>, m: real, now: real)
    requires refresh.Refresh? && refresh.clock <= refresh.at && IsNextMidnight(m, refresh.clock)
    requires Replay(before).LiveAt(refresh.at)
    requires forall i :: 0 <= i < |later| ==> !later[i].Reset? && later[i].at <= m + 59.0
    requires forall i :: 0 <= i < |later| && later[i].Refresh? ==>
      m - 86400.0 <= later[i].clock <= later[i].at
    requires now <= m + 59.0
    ensures var k := Replay(before + [refresh] + later);
      && k.LiveAt(now) && HeldPast(k, m)
      && k.value == Replay(before).value + CostOf(later)
  {
    var all := before + [refresh] + later;
    if later == [] {
      assert all == before + [refresh] && all[..|before|] == before;
      ExpiryFollowsMidnight(refresh.clock, m);
    } else {
      var shorter, e := later[..|later| - 1], later[|later| - 1];
      NoCostDroppedBeforeMidnight(before, refresh, shorter, m, e.at);
      assert all[..|all| - 1] == before + [refresh] + shorter;
      if e.Refresh? {
        var m' := NextMidnight(e.clock);
        LaterDayLaterMidnight(m, e.clock, m');
        ExpiryFollowsMidnight(e.clock, m');
      }
    }
  }

  // ---------- what a total loses, and when ----------

  /** The key after further commands. */
  function From(k: Key<real>, events: seq<Event>): Key<real> {
    if events == [] then k else Apply(From(k, events[..|events| - 1]), events[|events| - 1])
  }

  predicate Before(t: real, lapse: Option<real>) {
    lapse.None? || t < lapse.value
  }

  /** When a key that lapses at `lapse` does so after the commands, if each of them arrives in time. */
  function Lapse(lapse: Option<real>, events: seq<Event>): Option<real> {
    if events == [] then lapse
    else
      var last := events[|events| - 1];
      if last.Refresh? then Some(last.at + TimeToLive(last.clock)) else Lapse(lapse, events[..|events| - 1])
  }

  /** No command is a reset, and each arrives before the key lapses as the latest EXPIRE before it left it. */
  predicate InTime(lapse: Option<real>, events: seq<Event>) {
    events == [] ||
    (var prior, last := events[..|events| - 1], events[|events| - 1];
     InTime(lapse, prior) && !last.Reset? && Before(last.at, Lapse(lapse, prior)))
  }

  ghost predicate NoNegativeCosts(events: seq<Event>) {
    forall i :: 0 <= i < |events| && events[i].Add? ==> 0.0 <= events[i].cost
  }

  lemma {:induction false} KeptInTime(v: real, lapse: Option<real>, events: seq<Event>)
    requires InTime(lapse, events)
    ensures From(Present(v, lapse), events) == Present(v + CostOf(events), Lapse(lapse, events))
  {
    if events != [] {
      KeptInTime(v, lapse, events[..|events| - 1]);
    }
  }

  /** One command out of time and what the key held before is gone. */
  lemma {:induction false} ForgottenOutOfTime(v: real, w: real, lapse: Option<real>, events: seq<Event>)
    requires !InTime(lapse, events)
    ensures From(Present(v, lapse), events) == From(Present(w, lapse), events)
  {
    var prior, last := events[..|events| - 1], events[|events| - 1];
    if InTime(lapse, prior) {
      KeptInTime(v, lapse, prior);
      KeptInTime(w, lapse, prior);
    } else {
      ForgottenOutOfTime(v, w, lapse, prior);
    }
  }

  /**
   * What the key held counts in a later reading exactly when every command since arrived in
   * time and the reading does too; otherwise the reading is as if the key had held nothing.
   */
  lemma CountsExactlyWhen(v: real, lapse: Option<real>, events: seq<Event>, now: real)
    ensures GetReal(From(Present(v, lapse), events), now)
         == GetReal(From(Present(0.0, lapse), events), now)
            + if InTime(lapse, events) && Before(now, Lapse(lapse, events)) then v else 0.0
  {
    if InTime(lapse, events) {
      KeptInTime(v, lapse, events);
      KeptInTime(0.0, lapse, events);
    } else {
      ForgottenOutOfTime(v, 0.0, lapse, events);
    }
  }

  lemma {:induction false} AtMostCosts(events: seq<Event>, k: Key<real>)
    requires NoNegativeCosts(events) && (k.Present? ==> k.value == 0.0)
    ensures 0.0 <= CostOf(events)
    ensures From(k, events).Present? ==> 0.0 <= From(k, events).value <= CostOf(events)
  {
    if events != [] {
      AtMostCosts(events[..|events| - 1], k);
    }
  }

  /** A reading is complete exactly when everything came in time; if not, all the key held is missing from it. */
  lemma CompleteExactlyWhen(v: real, lapse: Option<real>, events: seq<Event>, now: real)
    requires 0.0 < v && NoNegativeCosts(events)
    ensures var total := GetReal(From(Present(v, lapse), events), now);
      && (total == v + CostOf(events) <==> InTime(lapse, events) && Before(now, Lapse(lapse, events)))
      && (total != v + CostOf(events) ==> total <= CostOf(events))
  {
    CountsExactlyWhen(v, lapse, events, now);
    AtMostCosts(events, Present(0.0, lapse));
    if InTime(lapse, events) {
      KeptInTime(v, lapse, events);
    }
  }

  lemma {:induction false} ReplayThenFrom(before: seq<Event>, later: seq<Event>)
    ensures Replay(before + later) == From(Replay(before), later)
  {
    if later == [] {
      assert before + later == before;
    } else {
      ReplayThenFrom(before, later[..|later| - 1]);
      assert (before + later)[..|before + later| - 1] == before + later[..|later| - 1];
    }
  }

  // ---------- one record ----------

  /**
   * The cost of one record, with any commands of other agents between its INCRBYFLOAT and
   * its EXPIRE: it is in the total that the EXPIRE leaves exactly when those commands and the
   * EXPIRE all came in time for the key the cost was added to. If not, a live total is
   * the one there would be without it.
   */
  lemma RecordKeptExactlyWhen(k: Key<real>, addAt: real, cost: real, between: seq<Event>, expireAt: real, clock: real)
    requires cost != 0.0
    ensures var rest := between + [Refresh(expireAt, clock)];
      var total := GetReal(From(k, [Add(addAt, cost)] + rest), expireAt);
      var without := GetReal(From(k, [Add(addAt, 0.0)] + rest), expireAt);
      var lapse := if k.LiveAt(addAt) then k.expiresAt else None;
      && (total == without + cost <==> InTime(lapse, rest))
      && (total == without <==> !InTime(lapse, rest))
  {
    var rest := between + [Refresh(expireAt, clock)];
    var lapse := if k.LiveAt(addAt) then k.expiresAt else None;
    hide From, InTime, Lapse, GetReal, Before;
    FromAfterAdd(k, addAt, cost, rest);
    FromAfterAdd(k, addAt, 0.0, rest);
    CountsExactlyWhen(GetReal(k, addAt) + cost, lapse, rest, expireAt);
    CountsExactlyWhen(GetReal(k, addAt) + 0.0, lapse, rest, expireAt);
    LiveAfterExpire(lapse, between, expireAt, clock);
  }

  lemma LiveAfterExpire(lapse: Option<real>, between: seq<Event>, expireAt: real, clock: real)
    ensures Before(expireAt, Lapse(lapse, between + [Refresh(expireAt, clock)]))
  {
    TimeToLiveIsPositive(clock);
  }

  lemma {:induction false} FromAfterAdd(k: Key<real>, at: real, cost: real, rest: seq<Event>)
    ensures From(k, [Add(at, cost)] + rest)
         == From(Present(GetReal(k, at) + cost, if k.LiveAt(at) then k.expiresAt else None), rest)
  {
    var all := [Add(at, cost)] + rest;
    if rest == [] {
      assert all == [Add(at, cost)] && all[..0] == [];
    } else {
      FromAfterAdd(k, at, cost, rest[..|rest| - 1]);
      assert all[..|all| - 1] == [Add(at, cost)] + rest[..|rest| - 1];
    }
  }

  // ---------- a stale clock ----------

  /** An EXPIRE that is not a day late keeps the key past `m` exactly when its clock was read on that day or later. */
  lemma FreshExactlyWhen(m: real, clock: real, at: real)
    requires exists day: int :: m == Midnight(day)
    requires clock <= at <= m + 59.0 && at - clock < 86400.0 - 1.0
    ensures m + 59.0 < at + TimeToLive(clock) <==> m - 86400.0 <= clock
  {
    var day: int :| m == Midnight(day);
    var next := NextMidnight(clock);
    ExpiryFollowsMidnight(clock, next);
    if m - 86400.0 <= clock {
      LaterDayLaterMidnight(m, clock, next);
    } else {
      var next': int :| next == Midnight(next');
      assert next - m == (next' - day) as real * 86400.0;
      assert next < m;
      assert next' - day <= -1;
    }
  }

  /** Every EXPIRE was computed at most a day before it arrived. */
  ghost predicate Prompt(events: seq<Event>) {
    forall i :: 0 <= i < |events| && events[i].Refresh? ==>
      events[i].clock <= events[i].at && events[i].at - events[i].clock < 86400.0 - 1.0
  }

  predicate LastClockFrom(start: real, events: seq<Event>) {
    if events == [] then true
    else if events[|events| - 1].Refresh? then start <= events[|events| - 1].clock
    else LastClockFrom(start, events[..|events| - 1])
  }

  lemma {:induction false} LapsePastMidnightExactlyWhen(m: real, lapse: Option<real>, events: seq<Event>)
    requires exists day: int :: m == Midnight(day)
    requires Prompt(events) && forall i :: 0 <= i < |events| ==> events[i].at <= m + 59.0
    requires Before(m + 59.0, lapse)
    ensures Before(m + 59.0, Lapse(lapse, events)) <==> LastClockFrom(m - 86400.0, events)
  {
    if events != [] {
      var last := events[|events| - 1];
      if last.Refresh? {
        FreshExactlyWhen(m, last.clock, last.at);
      } else {
        LapsePastMidnightExactlyWhen(m, lapse, events[..|events| - 1]);
      }
    }
  }

  /**
   * A total that would outlast the day ending at `m` is complete 59 s past `m` exactly when
   * every command came in time and the last EXPIRE used a clock of that day or later.
   */
  lemma KeptPastMidnightExactlyWhen(v: real, lapse: Option<real>, later: seq<Event>, m: real)
    requires exists day: int :: m == Midnight(day)
    requires 0.0 < v && Before(m + 59.0, lapse)
    requires NoNegativeCosts(later) && Prompt(later)
    requires forall i :: 0 <= i < |later| ==> later[i].at <= m + 59.0
    ensures GetReal(From(Present(v, lapse), later), m + 59.0) == v + CostOf(later)
       <==> InTime(lapse, later) && LastClockFrom(m - 86400.0, later)
  {
    CompleteExactlyWhen(v, lapse, later, m + 59.0);
    LapsePastMidnightExactlyWhen(m, lapse, later);
  }

  // ---------- into the next day ----------

  ghost predicate InOrder(events: seq<Event>) {
    forall i, j :: 0 <= i < j < |events| ==> events[i].at <= events[j].at
  }

  /** Commands of the day that starts at `m`: no reset, and every EXPIRE uses a clock of that day. */
  ghost predicate OfDay(m: real, events: seq<Event>) {
    forall i :: 0 <= i < |events| ==>
      && !events[i].Reset?
      && (events[i].Refresh? ==> m <= events[i].clock <= events[i].at && events[i].clock < m + 86400.0)
  }

  ghost predicate RefreshedBefore(e: real, events: seq<Event>) {
    exists i :: 0 <= i < |events| && events[i].Refresh? && events[i].at < e
  }

  lemma RefreshedBeforeAppend(e: real, events: seq<Event>)
    requires events != []
    ensures var last := events[|events| - 1];
      RefreshedBefore(e, events) <==> RefreshedBefore(e, events[..|events| - 1]) || (last.Refresh? && last.at < e)
  {
    var prior := events[..|events| - 1];
    if RefreshedBefore(e, prior) {
      var i :| 0 <= i < |prior| && prior[i].Refresh? && prior[i].at < e;
      assert events[i] == prior[i];
    }
    if i :| 0 <= i < |events| && events[i].Refresh? && events[i].at < e {
      assert i < |prior| ==> prior[i] == events[i];
    }
  }

  /** Before the first EXPIRE the old lapse stands; after it the key outlasts the day. */
  lemma {:induction false} LapseOfDay(m: real, e: real, later: seq<Event>)
    requires exists day: int :: m == Midnight(day)
    requires OfDay(m, later) && InOrder(later)
    requires forall i :: 0 <= i < |later| ==> later[i].at <= m + 86400.0 + 59.0
    ensures RefreshedBefore(e, later) ==> InTime(Some(e), later) && Before(m + 86400.0 + 59.0, Lapse(Some(e), later))
    ensures !RefreshedBefore(e, later) && InTime(Some(e), later) ==> Lapse(Some(e), later) == Some(e)
  {
    if later != [] {
      var prior, last := later[..|later| - 1], later[|later| - 1];
      LapseOfDay(m, e, prior);
      RefreshedBeforeAppend(e, later);
      if last.Refresh? {
        NewDayOutlasts(m, last.clock, last.at);
      }
      if last.Refresh? && last.at < e && !RefreshedBefore(e, prior) {
        AllInTime(e, prior, last.at);
      }
    }
  }

  lemma NewDayOutlasts(m: real, clock: real, at: real)
    requires exists day: int :: m == Midnight(day)
    requires m <= clock <= at && clock < m + 86400.0
    ensures m + 86400.0 + 59.0 < at + TimeToLive(clock)
  {
    var day: int :| m == Midnight(day);
    assert m + 86400.0 == Midnight(day + 1);
    ExpiryFollowsMidnight(clock, m + 86400.0);
  }

  lemma {:induction false} AllInTime(e: real, events: seq<Event>, until: real)
    requires until < e && forall i :: 0 <= i < |events| ==> events[i].at <= until && !events[i].Reset?
    requires !RefreshedBefore(e, events)
    ensures InTime(Some(e), events) && Lapse(Some(e), events) == Some(e)
  {
    if events != [] {
      assert events[|events| - 1].Refresh? ==> RefreshedBefore(e, events);
      RefreshedBeforeAppend(e, events);
      AllInTime(e, events[..|events| - 1], until);
    }
  }

  /**
   * The carry-over, for every previous day and every next one: a total v whose key lapses at
   * `e`, some 60 s into the day that starts at `m`, is part of what that day reads from then
   * on exactly when an EXPIRE of the new day arrives before `e`. Otherwise the reading holds
   * no more than the new day's own costs.
   */
  lemma CarriedOverExactlyWhen(before: seq<Event>, v: real, e: real, m: real, later: seq<Event>, now: real)
    requires Replay(before) == Present(v, Some(e)) && 0.0 < v
    requires exists day: int :: m == Midnight(day)
    requires OfDay(m, later) && InOrder(later) && NoNegativeCosts(later)
    requires forall i :: 0 <= i < |later| ==> later[i].at <= now
    requires e <= now <= m + 86400.0 + 59.0
    ensures var total := GetReal(Replay(before + later), now);
      && (total == v + CostOf(later) <==> RefreshedBefore(e, later))
      && (!RefreshedBefore(e, later) ==> total <= CostOf(later))
  {
    ReplayThenFrom(before, later);
    CompleteExactlyWhen(v, Some(e), later, now);
    LapseOfDay(m, e, later);
  }

  // ---------- histories that lose or keep ----------

  lemma TimesToLive()
    ensures TimeToLive(86000.0) == 460.0 && TimeToLive(86399.0) == 61.0 && TimeToLive(86401.0) == 86459.0
  {
    assert (86000.0 / 86400.0).Floor == 0 && (86399.0 / 86400.0).Floor == 0;
    assert (86401.0 / 86400.0).Floor == 1;
  }

  lemma ReplayAppend(events: seq<Event>, e: Event)
    ensures Replay(events + [e]) == Apply(Replay(events), e)
  {
    assert (events + [e])[..|events|] == events;
  }

  /**
   * Recorded just after midnight, added to the previous day's key, and lost at once
   * because that key lapses before the EXPIRE arrives.
   */
  lemma DroppedBetweenTheCommands()
    ensures Replay([Add(86000.0, 1.0), Refresh(86000.0, 86000.0),
                    Add(86459.0, 5.0), Refresh(86461.0, 86459.0)]) == Absent
  {
    TimesToLive();
    var a, b, c, d :=
      Add(86000.0, 1.0), Refresh(86000.0, 86000.0), Add(86459.0, 5.0), Refresh(86461.0, 86459.0);
    assert [a, b, c, d] == ((([] + [a]) + [b]) + [c]) + [d];
    ReplayAppend([], a);
    ReplayAppend([] + [a], b);
    ReplayAppend([] + [a] + [b], c);
    ReplayAppend([] + [a] + [b] + [c], d);
  }

  /** A slow recorder that read its clock before midnight cuts the new day's key short. */
  lemma StaleClockShortensTheKey()
    ensures var k := Replay([Add(86399.0, 1.0), Add(86401.0, 2.0),
                             Refresh(86401.0, 86401.0), Refresh(86402.0, 86399.0)]);
      k.LiveAt(86462.0) && k.value == 3.0 && !k.LiveAt(86463.0)
  {
    TimesToLive();
    var a, b, c, d :=
      Add(86399.0, 1.0), Add(86401.0, 2.0), Refresh(86401.0, 86401.0), Refresh(86402.0, 86399.0);
    assert [a, b, c, d] == ((([] + [a]) + [b]) + [c]) + [d];
    ReplayAppend([], a);
    ReplayAppend([] + [a], b);
    ReplayAppend([] + [a] + [b], c);
    ReplayAppend([] + [a] + [b] + [c], d);
  }
}
