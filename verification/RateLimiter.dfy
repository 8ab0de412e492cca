/**
 * The request and token limiter shared by all agents: one atomic
 * check-and-acquire script over two expiring counters.
 */
module RateLimiter {
  import opened RedisKeys
  import opened Wrappers

  const WINDOW := 60.0

  /** One run of the acquire script: when it ran and the caller's token estimate. */
  datatype Call = Call(at: real, tokens: int)

  datatype Limits = Limits(rpm: int, tpm: int)

  datatype Counters = Counters(rpm: Key<int>, tpm: Key<int>)

  /** The script: both checks, then each counter is incremented and its expiry refreshed. */
  function Script(c: Counters, limits: Limits, call: Call): (Counters, bool) {
    if GetInt(c.rpm, call.at) >= limits.rpm then (c, false)
    else if GetInt(c.tpm, call.at) + call.tokens > limits.tpm then (c, false)
    else
      var rpm := IncrBy(c.rpm, call.at, 1).ExpireIn(call.at, WINDOW);
      var tpm := IncrBy(c.tpm, call.at, call.tokens).ExpireIn(call.at, WINDOW);
      (Counters(rpm, tpm), true)
  }

  /** The counters and the granted calls after a history of script runs on an empty store. */
  datatype History = History(counters: Counters, grants: seq<Call>)

  /** One more run of the script. */
  function Extend(limits: Limits, h: History, call: Call): History {
    var (counters, granted) := Script(h.counters, limits, call);
    History(counters, if granted then h.grants + [call] else h.grants)
  }

  function Replay(limits: Limits, calls: seq<Call>): History {
    if calls == [] then History(Counters(Absent, Absent), [])
    else Extend(limits, Replay(limits, calls[..|calls| - 1]), calls[|calls| - 1])
  }

  ghost predicate InOrder(calls: seq<Call>) {
    forall i, j :: 0 <= i < j < |calls| ==> calls[i].at <= calls[j].at
  }

  ghost predicate NonNegative(calls: seq<Call>) {
    forall i :: 0 <= i < |calls| ==> 0 <= calls[i].tokens
  }

  function Tokens(calls: seq<Call>): int {
    if calls == [] then 0 else Tokens(calls[..|calls| - 1]) + calls[|calls| - 1].tokens
  }

  /** Where the last burst starts: the longest suffix whose consecutive gaps are under a minute. */
  function BurstStart(grants: seq<Call>): (start: nat)
    ensures grants == [] ==> start == 0
    ensures grants != [] ==> start < |grants|
  {
    if |grants| <= 1 then 0
    else if grants[|grants| - 1].at - grants[|grants| - 2].at >= WINDOW then |grants| - 1
    else BurstStart(grants[..|grants| - 1])
  }

  /** The grants a call at `now` competes with: the last burst, unless a minute has passed since. */
  function Counted(grants: seq<Call>, now: real): seq<Call> {
    if grants == [] || now - grants[|grants| - 1].at >= WINDOW then []
    else grants[BurstStart(grants)..]
  }

  /** The grants from `from` on and before `until`. */
  function InSpan(grants: seq<Call>, from: real, until: real): seq<Call> {
    if grants == [] then []
    else
      var rest := InSpan(grants[..|grants| - 1], from, until);
      var last := grants[|grants| - 1];
      if from <= last.at < until then rest + [last] else rest
  }

  // ---------- what the counters mean ----------

  lemma TokensAppend(a: seq<Call>, c: Call)
    ensures Tokens(a + [c]) == Tokens(a) + c.tokens && Tokens([]) == 0
  {
    assert (a + [c])[..|a|] == a;
  }

  /** A grant at `at` either joins the counted burst or starts a new one. */
  lemma CountedAfterGrant(grants: seq<Call>, call: Call, now: real)
    requires call.at <= now
    ensures Counted(grants + [call], now)
         == if now - call.at >= WINDOW then [] else Counted(grants, call.at) + [call]
  {
    var all := grants + [call];
    assert all[..|all| - 1] == grants;
    if now - call.at < WINDOW && Counted(grants, call.at) != [] {
      assert BurstStart(all) == BurstStart(grants);
      assert all[BurstStart(all)..] == grants[BurstStart(grants)..] + [call];
    }
  }

  /** At `now` the counters read exactly the size and the tokens of the counted burst. */
  ghost predicate Reads(h: History, now: real) {
    && GetInt(h.counters.rpm, now) == |Counted(h.grants, now)|
    && GetInt(h.counters.tpm, now) == Tokens(Counted(h.grants, now))
    && (h.grants == [] || h.grants[|h.grants| - 1].at <= now)
  }

  /** A counter bumped at `at` reads one step higher for a minute, and 0 from then on. */
  lemma BumpedKey(k: Key<int>, at: real, delta: int, now: real)
    requires at <= now
    ensures GetInt(IncrBy(k, at, delta).ExpireIn(at, WINDOW), now)
         == if now - at >= WINDOW then 0 else GetInt(k, at) + delta
  {
  }

  lemma ReadsAfterGrant(h: History, call: Call, now: real)
    requires Reads(h, call.at) && call.at <= now
    ensures var rpm := IncrBy(h.counters.rpm, call.at, 1).ExpireIn(call.at, WINDOW);
      var tpm := IncrBy(h.counters.tpm, call.at, call.tokens).ExpireIn(call.at, WINDOW);
      Reads(History(Counters(rpm, tpm), h.grants + [call]), now)
  {
    hide GetInt, IncrBy, Counted, Tokens;
    BumpedKey(h.counters.rpm, call.at, 1, now);
    BumpedKey(h.counters.tpm, call.at, call.tokens, now);
    CountedAfterGrant(h.grants, call, now);
    TokensAppend(Counted(h.grants, call.at), call);
  }

  lemma ReadsAfterCall(limits: Limits, h: History, call: Call, now: real)
    requires Reads(h, call.at) && Reads(h, now) && call.at <= now
    ensures Reads(Extend(limits, h, call), now)
  {
    ReadsAfterGrant(h, call, now);
    hide Reads;
  }

  /** The counters read, at any later instant, exactly the size and tokens of the counted burst. */
  lemma {:induction false} CountersTrackBurst(limits: Limits, calls: seq<Call>, now: real)
    requires InOrder(calls)
    requires calls == [] || calls[|calls| - 1].at <= now
    ensures Reads(Replay(limits, calls), now)
  {
    if calls != [] {
      var prior, call := calls[..|calls| - 1], calls[|calls| - 1];
      assert calls == prior + [call];
      InOrderPrefix(prior, call);
      CountersTrackBurst(limits, prior, call.at);
      CountersTrackBurst(limits, prior, now);
      ReadsAfterCall(limits, Replay(limits, prior), call, now);
    }
  }

  lemma ReplayAppend(limits: Limits, calls: seq<Call>, call: Call)
    ensures Replay(limits, calls + [call]) == Extend(limits, Replay(limits, calls), call)
  {
    assert (calls + [call])[..|calls|] == calls;
  }

  lemma InOrderPrefix(calls: seq<Call>, call: Call)
    requires InOrder(calls + [call])
    ensures InOrder(calls)
    ensures calls != [] ==> calls[|calls| - 1].at <= call.at
  {
    var all := calls + [call];
    forall i, j | 0 <= i < j < |calls| ensures calls[i].at <= calls[j].at {
      assert all[i].at <= all[j].at;
    }
    if calls != [] {
      assert all[|calls| - 1].at <= all[|calls|].at;
    }
  }

  /**
   * When the limiter grants, in terms of its history alone: the burst that is still
   * counted must leave room for one more request and for the estimated tokens.
   */
  lemma GrantedExactlyWhenBurstHasRoom(limits: Limits, calls: seq<Call>, call: Call)
    requires InOrder(calls + [call])
    ensures var g := Replay(limits, calls).grants;
      Replay(limits, calls + [call]).grants
      == if |Counted(g, call.at)| < limits.rpm && Tokens(Counted(g, call.at)) + call.tokens <= limits.tpm
         then g + [call] else g
  {
    ReplayAppend(limits, calls, call);
    InOrderPrefix(calls, call);
    CountersTrackBurst(limits, calls, call.at);
  }

  // ---------- the sliding window ----------

  /** Every burst of grants, at the moment it was extended, fits both limits. */
  ghost predicate BurstsFit(limits: Limits, grants: seq<Call>) {
    forall n {:trigger grants[..n]} :: 0 < n <= |grants| ==>
      var burst := grants[..n][BurstStart(grants[..n])..];
      |burst| <= limits.rpm && Tokens(burst) <= limits.tpm
  }

  lemma BurstsFitAppend(limits: Limits, grants: seq<Call>, call: Call)
    requires BurstsFit(limits, grants)
    requires |Counted(grants, call.at)| < limits.rpm
    requires Tokens(Counted(grants, call.at)) + call.tokens <= limits.tpm
    ensures BurstsFit(limits, grants + [call])
  {
    var all := grants + [call];
    forall n {:trigger all[..n]} | 0 < n <= |all|
      ensures var burst := all[..n][BurstStart(all[..n])..];
        |burst| <= limits.rpm && Tokens(burst) <= limits.tpm
    {
      if n <= |grants| {
        assert all[..n] == grants[..n];
      } else {
        assert all[..n] == all;
        CountedAfterGrant(grants, call, call.at);
        TokensAppend(Counted(grants, call.at), call);
      }
    }
  }

  lemma {:induction false} GrantsFit(limits: Limits, calls: seq<Call>)
    requires InOrder(calls)
    ensures BurstsFit(limits, Replay(limits, calls).grants)
    ensures InOrder(Replay(limits, calls).grants)
  {
    if calls != [] {
      hide BurstsFit, Counted, Script;
      var prior, call := calls[..|calls| - 1], calls[|calls| - 1];
      assert calls == prior + [call];
      InOrderPrefix(prior, call);
      GrantsFit(limits, prior);
      GrantedExactlyWhenBurstHasRoom(limits, prior, call);
      var grants := Replay(limits, prior).grants;
      if Replay(limits, calls).grants == grants + [call] {
        BurstsFitAppend(limits, grants, call);
        GrantsInOrder(limits, prior, call);
      }
    }
  }

  lemma {:induction false} GrantsNonNegative(limits: Limits, calls: seq<Call>)
    requires NonNegative(calls)
    ensures NonNegative(Replay(limits, calls).grants)
  {
    if calls != [] {
      GrantsNonNegative(limits, calls[..|calls| - 1]);
    }
  }

  lemma GrantsInOrder(limits: Limits, prior: seq<Call>, call: Call)
    requires InOrder(prior) && (prior == [] || prior[|prior| - 1].at <= call.at)
    requires InOrder(Replay(limits, prior).grants)
    ensures InOrder(Replay(limits, prior).grants + [call])
  {
    CountersTrackBurst(limits, prior, call.at);
    var g := Replay(limits, prior).grants;
    if g != [] {
      forall i | 0 <= i < |g| ensures g[i].at <= call.at {
        assert i < |g| - 1 ==> g[i].at <= g[|g| - 1].at;
      }
    }
  }

  /** Grants less than a minute apart belong to one burst. */
  lemma {:induction false} SameBurst(grants: seq<Call>, first: nat)
    requires InOrder(grants) && first < |grants|
    requires grants[|grants| - 1].at - grants[first].at < WINDOW
    ensures BurstStart(grants) <= first
  {
    if first < |grants| - 1 {
      var shorter := grants[..|grants| - 1];
      assert grants[first].at <= grants[|grants| - 2].at;
      assert shorter[|shorter| - 1] == grants[|grants| - 2];
      SameBurst(shorter, first);
    }
  }

  lemma {:induction false} TokensOfSuffix(calls: seq<Call>, k: nat)
    requires NonNegative(calls) && k <= |calls|
    ensures 0 <= Tokens(calls[k..]) <= Tokens(calls)
  {
    if k == 0 {
      assert calls[k..] == calls;
      if calls != [] {
        TokensOfSuffix(calls[..|calls| - 1], 0);
        assert calls[..|calls| - 1][0..] == calls[..|calls| - 1];
      }
    } else if k < |calls| {
      TokensOfSuffix(calls[..|calls| - 1], k);
      assert calls[k..][..|calls| - k - 1] == calls[..|calls| - 1][k..];
    } else {
      TokensOfSuffix(calls, |calls| - 1);
    }
  }

  /** Consecutive grants inside one minute respect both limits. */
  lemma ConsecutiveWithinMinute(limits: Limits, grants: seq<Call>, i: nat, j: nat)
    requires BurstsFit(limits, grants) && InOrder(grants)
    requires i < j <= |grants| && grants[j - 1].at - grants[i].at < WINDOW
    ensures j - i <= limits.rpm
    ensures NonNegative(grants) ==> Tokens(grants[i..j]) <= limits.tpm
  {
    var upTo := grants[..j];
    SameBurst(upTo, i);
    var start := BurstStart(upTo);
    assert upTo[start..][i - start..] == grants[i..j];
    if NonNegative(grants) {
      TokensOfSuffix(upTo[start..], i - start);
    }
  }

  lemma {:induction false} InSpanMembers(grants: seq<Call>, from: real, until: real)
    ensures forall c :: c in InSpan(grants, from, until) ==> from <= c.at < until
  {
    if grants != [] {
      InSpanMembers(grants[..|grants| - 1], from, until);
    }
  }

  lemma InSpanBounds(grants: seq<Call>, from: real, until: real, i: nat, j: nat)
    requires i < j <= |grants| && InSpan(grants, from, until) == grants[i..j]
    ensures from <= grants[i].at && grants[j - 1].at < until
  {
    InSpanMembers(grants, from, until);
    assert grants[i..j][0] == grants[i] && grants[i..j][j - i - 1] == grants[j - 1];
  }

  /** In time order, the grants of a span are consecutive. */
  lemma {:induction false} SpanIsSlice(grants: seq<Call>, from: real, until: real) returns (i: nat, j: nat)
    requires InOrder(grants)
    ensures i <= j <= |grants| && InSpan(grants, from, until) == grants[i..j]
    ensures i < j < |grants| ==> until <= grants[|grants| - 1].at
  {
    if grants == [] {
      i, j := 0, 0;
    } else {
      var shorter, last := grants[..|grants| - 1], grants[|grants| - 1];
      i, j := SpanIsSlice(shorter, from, until);
      assert shorter[i..j] == grants[i..j];
      if from <= last.at < until {
        i := if i == j then |grants| - 1 else i;
        j := |grants|;
      } else if i < j {
        InSpanBounds(grants[..|grants| - 1], from, until, i, j);
      }
    }
  }

  lemma MinuteFits(limits: Limits, grants: seq<Call>, from: real)
    requires BurstsFit(limits, grants) && InOrder(grants)
    ensures var minute := InSpan(grants, from, from + WINDOW);
      minute == [] ||
      (|minute| <= limits.rpm && (NonNegative(grants) ==> Tokens(minute) <= limits.tpm))
  {
    var i, j := SpanIsSlice(grants, from, from + WINDOW);
    if i < j {
      InSpanBounds(grants, from, from + WINDOW, i, j);
      ConsecutiveWithinMinute(limits, grants, i, j);
    }
  }

  /**
   * The sliding-window bound: in every history whose clock never goes back, every half-open
   * span of 60 seconds holds at most `rpm` grants and, when no estimate is negative, at most
   * `tpm` granted tokens. In other words, of any `rpm` + 1 consecutive grants the last comes at
   * least 60 seconds after the first.
   */
  lemma SlidingWindowBound(limits: Limits, calls: seq<Call>, from: real)
    requires InOrder(calls)
    ensures var grants := Replay(limits, calls).grants;
      var minute := InSpan(grants, from, from + 60.0);
      && (minute == [] ||
          (|minute| <= limits.rpm && (NonNegative(calls) ==> Tokens(minute) <= limits.tpm)))
      && (forall i, j :: 0 <= i <= j < |grants| && j - i + 1 > limits.rpm ==>
          grants[j].at - grants[i].at >= 60.0)
  {
    var grants := Replay(limits, calls).grants;
    GrantsFit(limits, calls);
    if NonNegative(calls) {
      GrantsNonNegative(limits, calls);
    }
    MinuteFits(limits, grants, from);
    forall i, j | 0 <= i <= j < |grants| && j - i + 1 > limits.rpm ensures grants[j].at - grants[i].at >= 60.0 {
      if grants[j].at - grants[i].at < 60.0 {
        ConsecutiveWithinMinute(limits, grants, i, j + 1);
      }
    }
  }

  /** After a quiet minute only the call itself matters. */
  lemma QuietMinuteResets(limits: Limits, calls: seq<Call>, call: Call)
    requires InOrder(calls + [call])
    requires var g := Replay(limits, calls).grants;
      g == [] || call.at - g[|g| - 1].at >= 60.0
    ensures |Replay(limits, calls + [call]).grants| == |Replay(limits, calls).grants| + 1
       <==> 0 < limits.rpm && call.tokens <= limits.tpm
  {
    GrantedExactlyWhenBurstHasRoom(limits, calls, call);
  }

  // ---------- compared with a sliding window ----------

  /** What a sliding window would count at `now`: the grants of the past minute. */
  function Recent(grants: seq<Call>, now: real): seq<Call> {
    if grants == [] then []
    else
      var rest, last := Recent(grants[..|grants| - 1], now), grants[|grants| - 1];
      if now - last.at < 60.0 then rest + [last] else rest
  }

  predicate HasRoom(limits: Limits, counted: seq<Call>, tokens: int) {
    |counted| < limits.rpm && Tokens(counted) + tokens <= limits.tpm
  }

  /** Exactly the grants from `k` on are those of the past minute. */
  ghost predicate RecentFrom(grants: seq<Call>, now: real, k: nat) {
    && k <= |grants| && Recent(grants, now) == grants[k..]
    && (k < |grants| ==> now - grants[k].at < WINDOW)
    && (k > 0 ==> now - grants[k - 1].at >= WINDOW)
  }

  lemma OneMoreRecent(prior: seq<Call>, last: Call, now: real, k: nat)
    requires RecentFrom(prior, now, k) && now - last.at < WINDOW
    ensures RecentFrom(prior + [last], now, k)
  {
    assert (prior + [last])[..|prior|] == prior;
    assert (prior + [last])[k..] == prior[k..] + [last];
  }

  lemma {:induction false} RecentIsSuffix(grants: seq<Call>, now: real) returns (k: nat)
    requires InOrder(grants)
    ensures RecentFrom(grants, now, k)
  {
    if grants == [] {
      k := 0;
    } else if now - grants[|grants| - 1].at >= WINDOW {
      NoneRecent(grants, now);
      k := |grants|;
    } else {
      var prior, last := grants[..|grants| - 1], grants[|grants| - 1];
      k := RecentIsSuffix(prior, now);
      hide RecentFrom;
      OneMoreRecent(prior, last, now, k);
      assert grants == prior + [last];
    }
  }

  lemma {:induction false} NoneRecent(grants: seq<Call>, now: real)
    requires forall i :: 0 <= i < |grants| ==> now - grants[i].at >= WINDOW
    ensures Recent(grants, now) == []
  {
    if grants != [] {
      NoneRecent(grants[..|grants| - 1], now);
    }
  }

  /** The counted burst ends with what a sliding window would count. */
  lemma RecentEndsCounted(grants: seq<Call>, now: real) returns (k: nat)
    requires InOrder(grants) && (grants == [] || grants[|grants| - 1].at <= now)
    ensures k <= |Counted(grants, now)| && Recent(grants, now) == Counted(grants, now)[k..]
    ensures k == 0 <==> Counted(grants, now) == [] || now - Counted(grants, now)[0].at < WINDOW
  {
    var i := RecentIsSuffix(grants, now);
    if i == |grants| {
      k := 0;
    } else {
      SameBurst(grants, i);
      k := i - BurstStart(grants);
      assert grants[BurstStart(grants)..][k..] == grants[i..];
    }
  }

  /** The limiter grants nothing that a sliding window would deny. */
  lemma NeverLooserThanSlidingWindow(limits: Limits, grants: seq<Call>, call: Call)
    requires InOrder(grants) && NonNegative(grants) && (grants == [] || grants[|grants| - 1].at <= call.at)
    requires HasRoom(limits, Counted(grants, call.at), call.tokens)
    ensures HasRoom(limits, Recent(grants, call.at), call.tokens)
  {
    var k := RecentEndsCounted(grants, call.at);
    CountedNonNegative(grants, call.at);
    TokensOfSuffix(Counted(grants, call.at), k);
  }

  lemma CountedNonNegative(grants: seq<Call>, now: real)
    requires NonNegative(grants)
    ensures NonNegative(Counted(grants, now))
  {
  }

  ghost predicate Positive(calls: seq<Call>) {
    forall i :: 0 <= i < |calls| ==> 0 < calls[i].tokens
  }

  lemma {:induction false} ShorterSuffixCostsLess(calls: seq<Call>, k: nat)
    requires Positive(calls) && 0 < k <= |calls|
    ensures Tokens(calls[k..]) < Tokens(calls)
  {
    TokensOfSuffix(calls[..|calls| - 1], 0);
    assert calls[..|calls| - 1][0..] == calls[..|calls| - 1];
    if k < |calls| {
      ShorterSuffixCostsLess(calls[..|calls| - 1], k);
      assert calls[k..][..|calls| - k - 1] == calls[..|calls| - 1][k..];
    }
  }

  /** The burst that is counted began within the past minute, if there is one. */
  predicate Fresh(grants: seq<Call>, now: real) {
    Counted(grants, now) == [] || now - Counted(grants, now)[0].at < 60.0
  }

  /** For every estimate from `least` on, both leave room or neither does. */
  ghost predicate SameAnswers(limits: Limits, counted: seq<Call>, recent: seq<Call>, least: int) {
    forall tokens :: least <= tokens ==> (HasRoom(limits, counted, tokens) <==> HasRoom(limits, recent, tokens))
  }

  lemma ShorterAnswers(limits: Limits, counted: seq<Call>, recent: seq<Call>)
    requires |recent| < |counted| <= limits.rpm && Tokens(recent) <= Tokens(counted) <= limits.tpm
    ensures SameAnswers(limits, counted, recent, 0) <==> |counted| < limits.rpm && Tokens(counted) == Tokens(recent)
    ensures Tokens(recent) < Tokens(counted) ==> !SameAnswers(limits, counted, recent, 1)
  {
    hide Tokens;
    var most := limits.tpm - Tokens(recent);
    assert HasRoom(limits, recent, most) && (HasRoom(limits, counted, most) ==> Tokens(counted) == Tokens(recent));
  }

  lemma BurstFits(limits: Limits, grants: seq<Call>, now: real)
    requires BurstsFit(limits, grants) && Counted(grants, now) != []
    ensures |Counted(grants, now)| <= limits.rpm && Tokens(Counted(grants, now)) <= limits.tpm
  {
    assert grants[..|grants|] == grants;
  }

  lemma SameAnswersExactlyWhen(limits: Limits, grants: seq<Call>, now: real)
    requires InOrder(grants) && NonNegative(grants) && BurstsFit(limits, grants)
    requires grants == [] || grants[|grants| - 1].at <= now
    ensures var counted, recent := Counted(grants, now), Recent(grants, now);
      && (SameAnswers(limits, counted, recent, 0) <==>
          Fresh(grants, now) || (|counted| < limits.rpm && Tokens(counted) == Tokens(recent)))
      && (Positive(grants) ==> (SameAnswers(limits, counted, recent, 1) <==> Fresh(grants, now)))
  {
    var counted, recent := Counted(grants, now), Recent(grants, now);
    var k := RecentEndsCounted(grants, now);
    if k == 0 {
      assert counted[0..] == counted;
    } else {
      BurstFits(limits, grants, now);
      CountedNonNegative(grants, now);
      TokensOfSuffix(counted, k);
      hide SameAnswers;
      ShorterAnswers(limits, counted, recent);
      if Positive(grants) {
        assert Positive(counted);
        ShorterSuffixCostsLess(counted, k);
      }
    }
  }

  /**
   * When the limiter's next answers are those of a sliding window, for the limits it runs
   * under: for all estimates from 0 on, exactly if the burst it counts is under a minute old,
   * or has room for one more request and its older part used no tokens. If every
   * call asks for some tokens, the age of the burst alone decides.
   */
  lemma SlidingWindowExactlyWhen(limits: Limits, calls: seq<Call>, now: real)
    requires InOrder(calls) && NonNegative(calls) && (calls == [] || calls[|calls| - 1].at <= now)
    ensures var grants := Replay(limits, calls).grants;
      var counted, recent := Counted(grants, now), Recent(grants, now);
      && (SameAnswers(limits, counted, recent, 0) <==>
          Fresh(grants, now) || (|counted| < limits.rpm && Tokens(counted) == Tokens(recent)))
      && (Positive(calls) ==> (SameAnswers(limits, counted, recent, 1) <==> Fresh(grants, now)))
  {
    GrantsFit(limits, calls);
    GrantsNonNegative(limits, calls);
    CountersTrackBurst(limits, calls, now);
    if Positive(calls) {
      GrantsPositive(limits, calls);
    }
    hide Fresh, SameAnswers, Counted, Recent, Replay, BurstsFit, Positive;
    SameAnswersExactlyWhen(limits, Replay(limits, calls).grants, now);
  }

  lemma {:induction false} GrantsPositive(limits: Limits, calls: seq<Call>)
    requires Positive(calls)
    ensures Positive(Replay(limits, calls).grants)
  {
    if calls != [] {
      GrantsPositive(limits, calls[..|calls| - 1]);
    }
  }

  /**
   * The limiter is stricter than a sliding window: since each grant refreshes the expiry,
   * a call can be denied although the minute before it holds fewer grants than the limit.
   */
  lemma DeniedWithRoomInWindow()
    ensures var limits := Limits(2, 1000);
      var calls := [Call(0.0, 1), Call(50.0, 1)];
      var late := Call(100.0, 1);
      && Replay(limits, calls + [late]).grants == Replay(limits, calls).grants
      && InSpan(Replay(limits, calls).grants, 41.0, 101.0) == [Call(50.0, 1)]
  {
    var limits := Limits(2, 1000);
    var a, b, late := Call(0.0, 1), Call(50.0, 1), Call(100.0, 1);
    var c1 := Counters(Present(1, Some(60.0)), Present(1, Some(60.0)));
    var c2 := Counters(Present(2, Some(110.0)), Present(2, Some(110.0)));
    assert Script(Counters(Absent, Absent), limits, a) == (c1, true);
    assert Script(c1, limits, b) == (c2, true);
    assert Script(c2, limits, late) == (c2, false);
    assert [] + [a] == [a] && [a] + [b] == [a, b];
    ReplayAppend(limits, [], a);
    ReplayAppend(limits, [a], b);
    ReplayAppend(limits, [a, b], late);
    OneInMinute(a, b);
  }

  lemma OneInMinute(a: Call, b: Call)
    requires a.at == 0.0 && b.at == 50.0
    ensures InSpan([a, b], 41.0, 101.0) == [b]
  {
    assert [a, b][..1] == [a] && [a][..0] == [];
    assert InSpan([a], 41.0, 101.0) == [];
  }
}
