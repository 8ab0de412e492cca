/**
 * The ticket resolution graph: seven nodes, a retry cycle, and the state their updates
 * are merged into. The model, the searches, the vault and the tools are arbitrary.
 */
module TicketGraph {
  import opened Wrappers
  import TL = ToolLoop
  import VS = VaultSessions

  datatype Status = Thinking | Executing | Verifying | Done | Failed | Escalated

  datatype Problem = MissingFields | CannotSsh

  datatype Ticket = Ticket(ticketId: string, userMessage: string, serverId: string)

  /** The fields of the graph state that the nodes read or write. */
  datatype State = State(
    status: Status,
    error: Option<Problem>,
    severity: Option<string>,
    ragHits: seq<string>,
    webResults: seq<string>,
    executionLog: seq<TL.LogEntry>,
    retryCount: nat,
    resolved: bool,
    summary: Option<string>)

  datatype Settings = Settings(maxTurns: nat, maxRetries: nat)

  datatype Node = Receive | Classify | RagLookup | WebSearch | Resolve | Verify | Close | End | Aborted

  /** How one visit of the resolve loop went. */
  datatype Attempt = VaultRefused | Raised | Ended(end: TL.End, summary: string)

  /** What the outside world answers at the n-th node visit. */
  datatype Oracle = Oracle(
    raises: nat -> bool,                 // the node fails before doing anything else
    severity: nat -> string,
    hits: nat -> seq<string>,
    web: nat -> seq<string>,
    vault: nat -> Option<string>,        // the session token, None when opening fails
    world: nat -> TL.World)

  /** Where a run is, the merged state, and the trace of what it did. */
  datatype Run = Run(
    at: Node,
    st: State,
    visits: seq<Node>,
    attempts: seq<Attempt>,
    modelCalls: nat,
    writes: seq<Status>,                 // ticket status updates sent to the database
    trace: seq<TL.Use>)                  // sessions opened, tools run, sessions closed

  predicate Stopped(r: Run) {
    r.at == End || r.at == Aborted
  }

  function Begin(): Run {
    var st := State(Thinking, None, None, [], [], [], 0, false, None);
    Run(Receive, st, [], [], 0, [], [])
  }

  predicate Complete(t: Ticket) {
    t.ticketId != "" && t.userMessage != ""
  }

  function ReceiveTicket(t: Ticket, st: State): State {
    if !Complete(t) then st.(status := Failed, error := Some(MissingFields))
    else st.(status := Thinking, executionLog := [], ragHits := [], webResults := [], retryCount := 0)
  }

  function FirstThree(s: seq<string>): seq<string> {
    if |s| <= 3 then s else s[..3]
  }

  function Knowledge(st: State): seq<string> {
    FirstThree(if st.ragHits != [] then st.ragHits else st.webResults)
  }

  function ShouldUseRag(st: State): Node {
    if st.ragHits != [] then Resolve else WebSearch
  }

  /** resolve_loop: open a session when there is a server, run the tool loop, close the session. */
  function ResolveLoop(s: Settings, o: Oracle, t: Ticket, n: nat, before: Run): Run {
    var r := before.(writes := before.writes + [Executing]);
    var token := if t.serverId == "" then Some("") else o.vault(n);
    if token.None? then
      r.(at := Verify, st := r.st.(status := Failed, error := Some(CannotSsh)), attempts := r.attempts + [VaultRefused])
    else
      var out := TL.Attempt(o.world(n), s.maxTurns, token.value, Knowledge(r.st), r.st.executionLog);
      AfterLoop(out, r.(trace := r.trace + TL.SessionTrace(t.serverId != "", token.value, out.calls)))
  }

  /** The update built from the loop's variables, if it did not raise. */
  function AfterLoop(out: TL.Outcome, before: Run): Run {
    var r := before.(modelCalls := before.modelCalls + out.modelCalls);
    match out
    case Crashed(_, _) => r.(at := Aborted, attempts := r.attempts + [Raised])
    case Finished(end, _, log, summary, _, _) =>
      r.(at := Verify,
         attempts := r.attempts + [Ended(end, summary)],
         st := r.st.(status := if end.Resolved? then Verifying else Failed,
                     summary := Some(summary), executionLog := log, resolved := end.Resolved?))
  }

  /** The node as it runs, over the session and the loop. */
  method RunResolveLoop(s: Settings, o: Oracle, t: Ticket, n: nat, before: Run) returns (r: Run)
    ensures r == ResolveLoop(s, o, t, n, before)
  {
    r := before.(writes := before.writes + [Executing]);
    var out, trace := TL.RunTurns(o.world(n), s.maxTurns, t.serverId != "", o.vault(n), Knowledge(r.st),
                                  r.st.executionLog, r.trace);
    if out.None? {
      r := r.(at := Verify, st := r.st.(status := Failed, error := Some(CannotSsh)),
              attempts := r.attempts + [VaultRefused]);
    } else {
      r := AfterLoop(out.value, r.(trace := trace));
    }
  }

  function VerifyOutcome(s: Settings, st: State): State {
    if st.resolved then st.(status := Done)
    else if st.retryCount < s.maxRetries then
      st.(status := Thinking, retryCount := st.retryCount + 1, ragHits := [], webResults := [])
    else st.(status := Escalated)
  }

  function RouteAfterVerify(st: State): Node {
    match st.status
    case Done => Close
    case Thinking => RagLookup
    case _ => End
  }

  /** One node visit. */
  function Step(s: Settings, o: Oracle, t: Ticket, before: Run): Run
    requires !Stopped(before)
  {
    var n := |before.visits|;
    var r := before.(visits := before.visits + [before.at]);
    if o.raises(n) then r.(at := Aborted)
    else match before.at
      case Receive => r.(at := Classify, st := ReceiveTicket(t, r.st))
      case Classify =>
        r.(at := RagLookup, st := r.st.(severity := Some(o.severity(n))),
           modelCalls := r.modelCalls + 1, writes := r.writes + [Thinking])
      case RagLookup =>
        var st := r.st.(ragHits := o.hits(n));
        r.(at := ShouldUseRag(st), st := st)
      case WebSearch => r.(at := Resolve, st := r.st.(webResults := o.web(n)))
      case Resolve => ResolveLoop(s, o, t, n, r)
      case Verify =>
        var st := VerifyOutcome(s, r.st);
        r.(at := RouteAfterVerify(st), st := st,
           writes := if st.status == Escalated then r.writes + [Escalated] else r.writes)
      case Close => r.(at := End, st := r.st.(status := Done), writes := r.writes + [Done])
  }

  /** Nodes that can still come before the next retry. */
  function Rank(n: Node): nat {
    match n
    case Receive => 7 case Classify => 6 case RagLookup => 5 case WebSearch => 4
    case Resolve => 3 case Verify => 2 case Close => 1 case _ => 0
  }

  function RetriesLeft(s: Settings, st: State): nat {
    if st.retryCount < s.maxRetries then s.maxRetries - st.retryCount else 0
  }

  /** The graph run to its end. It stops for every oracle: retries first, then nodes, decrease. */
  function Finish(s: Settings, o: Oracle, t: Ticket, r: Run): (final: Run)
    ensures Stopped(final)
    decreases r.at.Receive?, RetriesLeft(s, r.st), Rank(r.at)
  {
    if Stopped(r) then r else Finish(s, o, t, Step(s, o, t, r))
  }

  // ---------- what every visit keeps ----------

  predicate Succeeded(a: Attempt) {
    a.Ended? && a.end == TL.Resolved
  }

  ghost predicate AllFailed(attempts: seq<Attempt>) {
    forall a :: a in attempts ==> !Succeeded(a) && !a.Raised?
  }

  /** The summary is that of the last attempt, if its loop ended. */
  ghost predicate LastSummary(st: State, attempts: seq<Attempt>) {
    attempts != [] && attempts[|attempts| - 1].Ended? ==> st.summary == Some(attempts[|attempts| - 1].summary)
  }

  /** `resolved` is false at every node before the resolve loop, and the attempts match the retries. */
  ghost predicate AttemptsAgree(s: Settings, r: Run) {
    var st, a := r.st, r.attempts;
    && st.retryCount <= s.maxRetries
    && match r.at
       case Receive => a == [] && !st.resolved && st.retryCount == 0
       case Classify => a == [] && !st.resolved && st.retryCount == 0
       case RagLookup => |a| == st.retryCount && AllFailed(a) && !st.resolved
       case WebSearch => |a| == st.retryCount && AllFailed(a) && !st.resolved
       case Resolve => |a| == st.retryCount && AllFailed(a) && !st.resolved
       case Verify => |a| == st.retryCount + 1 && AllFailed(a[..|a| - 1]) && !a[|a| - 1].Raised?
         && (st.resolved <==> Succeeded(a[|a| - 1])) && LastSummary(st, a)
       case Close =>
         |a| == st.retryCount + 1 && AllFailed(a[..|a| - 1]) && Succeeded(a[|a| - 1]) && st.status == Done
         && LastSummary(st, a)
       case End =>
         && |a| == st.retryCount + 1 && AllFailed(a[..|a| - 1]) && LastSummary(st, a)
         && (st.status == Done || st.status == Escalated)
         && (st.status == Done <==> Succeeded(a[|a| - 1]))
         && (st.status == Escalated ==> |a| == s.maxRetries + 1 && AllFailed(a))
       case Aborted => |a| <= st.retryCount + 1
  }

  /** How far the trace has got: node visits and model calls per attempt. */
  ghost predicate TraceBounded(s: Settings, r: Run) {
    var v, a := |r.visits|, |r.attempts|;
    && r.modelCalls <= (if r.at.Receive? || r.at.Classify? then 0 else 1) + s.maxTurns * a
    && match r.at
       case Receive => v == 0
       case Classify => v == 1
       case RagLookup => v <= 2 + 4 * a
       case WebSearch => v <= 3 + 4 * a
       case Resolve => v <= 4 + 4 * a
       case Verify => v <= 1 + 4 * a
       case Close => v <= 2 + 4 * a
       case End => v <= 3 + 4 * a
       case Aborted => v <= 3 + 4 * (r.st.retryCount + 1)
  }

  /** The ticket row on its way through `n` attempts: thinking, then executing once for each. */
  function Working(n: nat): seq<Status> {
    if n == 0 then [Thinking] else Working(n - 1) + [Executing]
  }

  /** What the ticket row was told, and that no session is open between visits. */
  ghost predicate EffectsAgree(r: Run) {
    && VS.Watched(r.trace) == VS.Shut
    && match r.at
       case Receive => r.writes == []
       case Classify => r.writes == []
       case End => r.writes == Working(|r.attempts|) + [r.st.status]
       case Aborted => true
       case _ => r.writes == Working(|r.attempts|)
  }

  /** `close_ticket` runs once, and only on the way to `done`. */
  ghost predicate ClosedOnce(r: Run) {
    var n := multiset(r.visits)[Close];
    if r.at.Aborted? then n <= 1 else n == if r.at.End? && r.st.status == Done then 1 else 0
  }

  /** `error` is left behind by an incomplete ticket or a refused session, and by nothing else. */
  ghost predicate ErrorAgrees(t: Ticket, r: Run) {
    if r.at.Receive? then r.st.error.None? && r.attempts == []
    else (r.st.error.None? <==> (Complete(t) || (r.at.Aborted? && |r.visits| == 1)) && VaultRefused !in r.attempts)
  }

  /** The severity is what the model said at the second visit. */
  ghost predicate SeverityAgrees(o: Oracle, r: Run) {
    match r.at
    case Receive => r.visits == []
    case Classify => |r.visits| == 1
    case Aborted => true
    case _ => r.st.severity == Some(o.severity(1))
  }

  lemma StepKeepsSeverity(s: Settings, o: Oracle, t: Ticket, r: Run)
    requires !Stopped(r) && SeverityAgrees(o, r)
    ensures SeverityAgrees(o, Step(s, o, t, r))
  {
    hide TL.Attempt, TL.SessionTrace, Knowledge;
  }

  lemma StepKeepsAttempts(s: Settings, o: Oracle, t: Ticket, r: Run)
    requires !Stopped(r) && AttemptsAgree(s, r)
    ensures AttemptsAgree(s, Step(s, o, t, r))
  {
    hide TL.Attempt, TL.SessionTrace, Knowledge;
  }

  /** A visit makes one model call to classify, at most MAX_TURNS in an attempt, and none elsewhere. */
  lemma ModelCallsOfStep(s: Settings, o: Oracle, t: Ticket, r: Run)
    requires !Stopped(r)
    ensures var r' := Step(s, o, t, r);
      && (|r'.attempts| == |r.attempts| || (r.at.Resolve? && |r'.attempts| == |r.attempts| + 1))
      && r'.modelCalls <= r.modelCalls +
          if r.at.Classify? && !r'.at.Aborted? then 1
          else if |r'.attempts| > |r.attempts| then s.maxTurns else 0
  {
    hide TL.Attempt;
    var n := |r.visits|;
    var token := if t.serverId == "" then Some("") else o.vault(n);
    if r.at.Resolve? && token.Some? {
      TL.Transcript(o.world(n), s.maxTurns, token.value, Knowledge(r.st), r.st.executionLog);
    }
  }

  lemma CallsBounded(s: Settings, calls: nat, calls': nat, a: nat, a': nat, intake: nat)
    requires calls <= intake + s.maxTurns * a
    requires (a' == a && calls' <= calls) || (a' == a + 1 && calls' <= calls + s.maxTurns)
    ensures calls' <= intake + s.maxTurns * a'
  {
    assert s.maxTurns * (a + 1) == s.maxTurns * a + s.maxTurns;
  }

  lemma StepKeepsBounds(s: Settings, o: Oracle, t: Ticket, r: Run)
    requires !Stopped(r) && AttemptsAgree(s, r) && TraceBounded(s, r)
    ensures TraceBounded(s, Step(s, o, t, r))
  {
    var r' := Step(s, o, t, r);
    ModelCallsOfStep(s, o, t, r);
    if r.at.Receive? || r.at.Classify? {
      assert r'.attempts == [] && s.maxTurns * 0 == 0;
    } else {
      CallsBounded(s, r.modelCalls, r'.modelCalls, |r.attempts|, |r'.attempts|, 1);
    }
  }

  lemma ResolveLeavesShut(s: Settings, o: Oracle, t: Ticket, n: nat, r: Run)
    requires VS.Watched(r.trace) == VS.Shut
    ensures VS.Watched(ResolveLoop(s, o, t, n, r).trace) == VS.Shut
  {
    hide TL.Attempt, TL.SessionTrace, VS.Watched, Knowledge;
    var token := if t.serverId == "" then Some("") else o.vault(n);
    if token.Some? {
      VS.AttemptLeavesShut(o.world(n), s.maxTurns, t.serverId != "", token.value, Knowledge(r.st), r.st.executionLog,
                           r.trace);
    }
  }

  lemma ResolveKeepsEffects(s: Settings, o: Oracle, t: Ticket, n: nat, r: Run)
    requires r.at.Resolve? && EffectsAgree(r)
    ensures EffectsAgree(ResolveLoop(s, o, t, n, r))
  {
    hide TL.Attempt, TL.SessionTrace, VS.Watched, Knowledge;
    ResolveLeavesShut(s, o, t, n, r);
  }

  lemma StepKeepsEffects(s: Settings, o: Oracle, t: Ticket, r: Run)
    requires !Stopped(r) && AttemptsAgree(s, r) && EffectsAgree(r)
    ensures EffectsAgree(Step(s, o, t, r))
  {
    if r.at.Resolve? {
      ResolveKeepsEffects(s, o, t, |r.visits|, r.(visits := r.visits + [r.at]));
    }
    hide ResolveLoop;
  }

  lemma StepKeepsClose(s: Settings, o: Oracle, t: Ticket, r: Run)
    requires !Stopped(r) && AttemptsAgree(s, r) && ClosedOnce(r)
    ensures ClosedOnce(Step(s, o, t, r))
  {
  }

  lemma StepKeepsError(s: Settings, o: Oracle, t: Ticket, r: Run)
    requires !Stopped(r) && AttemptsAgree(s, r) && ErrorAgrees(t, r)
    requires r.at.Receive? ==> r.visits == []
    requires !r.at.Receive? ==> r.visits != []
    ensures ErrorAgrees(t, Step(s, o, t, r))
  {
  }

  ghost predicate Invariant(s: Settings, o: Oracle, t: Ticket, r: Run) {
    && AttemptsAgree(s, r) && TraceBounded(s, r) && EffectsAgree(r) && ClosedOnce(r) && ErrorAgrees(t, r)
    && SeverityAgrees(o, r)
    && (r.visits == [] <==> r.at.Receive?)
  }

  lemma StepKeeps(s: Settings, o: Oracle, t: Ticket, r: Run)
    requires !Stopped(r) && Invariant(s, o, t, r)
    ensures Invariant(s, o, t, Step(s, o, t, r))
  {
    StepKeepsAttempts(s, o, t, r);
    StepKeepsBounds(s, o, t, r);
    StepKeepsEffects(s, o, t, r);
    StepKeepsClose(s, o, t, r);
    StepKeepsError(s, o, t, r);
    StepKeepsSeverity(s, o, t, r);
    hide AttemptsAgree, TraceBounded, EffectsAgree, ClosedOnce, ErrorAgrees, SeverityAgrees;
  }

  lemma {:induction false} FinishKeeps(s: Settings, o: Oracle, t: Ticket, r: Run)
    requires Invariant(s, o, t, r)
    ensures Invariant(s, o, t, Finish(s, o, t, r))
    decreases r.at.Receive?, RetriesLeft(s, r.st), Rank(r.at)
  {
    hide Invariant;
    if !Stopped(r) {
      StepKeeps(s, o, t, r);
      FinishKeeps(s, o, t, Step(s, o, t, r));
    }
  }

  // ---------- whole runs ----------

  /** The run of one ticket from the executor's initial state, node by node. */
  method RunTicket(s: Settings, o: Oracle, t: Ticket) returns (r: Run)
    ensures r == Finish(s, o, t, Begin())
  {
    r := Begin();
    while !Stopped(r)
      invariant Finish(s, o, t, Begin()) == Finish(s, o, t, r)
      decreases r.at.Receive?, RetriesLeft(s, r.st), Rank(r.at)
    {
      var n := |r.visits|;
      if r.at == Resolve && !o.raises(n) {
        r := RunResolveLoop(s, o, t, n, r.(visits := r.visits + [r.at]));
      } else {
        r := Step(s, o, t, r);
      }
    }
  }

  /**
   * The outcome of every run that does not raise: `done` exactly when the last attempt
   * ended its turn, `escalated` exactly when all MAX_RETRIES + 1 attempts failed, refused
   * vault sessions included. The ticket is closed once, and only when done; its summary is
   * then that of the last attempt, and its severity what the classification said.
   */
  lemma Outcome(s: Settings, o: Oracle, t: Ticket)
    requires Finish(s, o, t, Begin()).at == End
    ensures var r := Finish(s, o, t, Begin());
      var last := |r.attempts| - 1;
      && 0 <= last <= s.maxRetries && AllFailed(r.attempts[..last])
      && (r.st.status == Done || r.st.status == Escalated)
      && (r.st.status == Done <==> Succeeded(r.attempts[last]))
      && (r.st.status == Escalated <==> last == s.maxRetries && AllFailed(r.attempts))
      && multiset(r.visits)[Close] == (if r.st.status == Done then 1 else 0)
      && (r.st.status == Done ==> r.st.summary == Some(r.attempts[last].summary))
      && r.st.severity == Some(o.severity(1))
  {
    FinishKeeps(s, o, t, Begin());
    var r := Finish(s, o, t, Begin());
    assert r.attempts[|r.attempts| - 1] in r.attempts;
  }

  lemma TimesMonotone(m: nat, a: nat, b: nat)
    ensures a <= b ==> m * a <= m * b
    ensures 0 <= m * a
  {
  }

  /** Every run stops within these bounds, whatever the outside world does. */
  lemma Bounds(s: Settings, o: Oracle, t: Ticket)
    ensures var r := Finish(s, o, t, Begin());
      && |r.visits| <= 3 + 4 * (s.maxRetries + 1)
      && |r.attempts| <= s.maxRetries + 1
      && r.modelCalls <= 1 + s.maxTurns * (s.maxRetries + 1)
      && multiset(r.visits)[Close] <= 1
  {
    FinishKeeps(s, o, t, Begin());
    hide Finish, Step, EffectsAgree, ErrorAgrees;
    TimesMonotone(s.maxTurns, |Finish(s, o, t, Begin()).attempts|, s.maxRetries + 1);
  }

  /**
   * In every run, raising ones included, each session opened with a token is closed exactly
   * once, with nothing but tools run before, and every token put into a tool's input is that
   * of the session open around it; the ticket row is told `thinking`, `executing` once per
   * attempt, then the outcome.
   */
  lemma Effects(s: Settings, o: Oracle, t: Ticket)
    ensures var r := Finish(s, o, t, Begin());
      && VS.SessionsBracketed(r.trace)
      && VS.ClosedTokens(r.trace) == VS.NonEmpty(VS.OpenedTokens(r.trace))
      && (r.at == End ==> r.writes == Working(|r.attempts|) + [r.st.status])
  {
    FinishKeeps(s, o, t, Begin());
    VS.WatchedIsBracketed(Finish(s, o, t, Begin()).trace);
    VS.WatchedIsBalanced(Finish(s, o, t, Begin()).trace);
  }

  /**
   * A finished ticket carries an `error` exactly when a field was missing at intake or some
   * attempt could not open its session, even if a later attempt resolved it.
   */
  lemma StaleError(s: Settings, o: Oracle, t: Ticket)
    requires Finish(s, o, t, Begin()).at == End
    ensures var r := Finish(s, o, t, Begin());
      r.st.error.Some? <==> !Complete(t) || VaultRefused in r.attempts
  {
    FinishKeeps(s, o, t, Begin());
  }

  lemma StepExtendsLog(s: Settings, o: Oracle, t: Ticket, r: Run)
    requires !Stopped(r) && !r.at.Receive?
    ensures r.st.executionLog <= Step(s, o, t, r).st.executionLog
  {
    if r.at.Resolve? {
      var n := |r.visits|;
      var token := if t.serverId == "" then Some("") else o.vault(n);
      if token.Some? {
        TL.Transcript(o.world(n), s.maxTurns, token.value, Knowledge(r.st), r.st.executionLog);
        hide TL.Attempt, TL.WellFormed, TL.Traced;
      }
    }
  }

  /** From the classification on, the execution log is only ever extended, across retries too. */
  lemma {:induction false} LogExtends(s: Settings, o: Oracle, t: Ticket, r: Run)
    requires !r.at.Receive?
    ensures r.st.executionLog <= Finish(s, o, t, r).st.executionLog
    decreases RetriesLeft(s, r.st), Rank(r.at)
  {
    if !Stopped(r) {
      StepExtendsLog(s, o, t, r);
      LogExtends(s, o, t, Step(s, o, t, r));
    }
  }

  /**
   * The log holds the tools that were run, in order and on the same inputs; only those of an
   * attempt that raised are missing at its end.
   */
  ghost predicate LogAgrees(r: Run) {
    var ran, log := VS.Ran(r.trace), r.st.executionLog;
    && |log| <= |ran| && TL.Traced(ran[..|log|], log)
    && (Raised !in r.attempts ==> |log| == |ran|)
  }

  lemma AttemptIsLogged(w: TL.World, maxTurns: nat, server: bool, token: string, context: seq<string>,
                        log: seq<TL.LogEntry>, trace: seq<TL.Use>)
    ensures var out := TL.Attempt(w, maxTurns, token, context, log);
      && VS.Ran(trace + TL.SessionTrace(server, token, out.calls)) == VS.Ran(trace) + out.calls
      && (out.Finished? ==> log <= out.log && TL.Traced(out.calls, out.log[|log|..]))
  {
    TL.Transcript(w, maxTurns, token, context, log);
    VS.TurnsRunWith(w, maxTurns, token, 0, [TL.Prompt(context)], log, []);
    VS.RanInSession(trace, server, token, TL.Attempt(w, maxTurns, token, context, log).calls);
  }

  lemma LogsExtend(ran: seq<TL.Use>, calls: seq<TL.Use>, log: seq<TL.LogEntry>, log': seq<TL.LogEntry>)
    requires TL.Traced(ran, log) && log <= log' && TL.Traced(calls, log'[|log|..])
    ensures TL.Traced(ran + calls, log')
  {
    TL.TracedAppend(ran, calls, log, log'[|log|..]);
    assert log + log'[|log|..] == log';
  }

  lemma ResolveKeepsLog(s: Settings, o: Oracle, t: Ticket, n: nat, r: Run)
    requires LogAgrees(r) && Raised !in r.attempts
    ensures LogAgrees(ResolveLoop(s, o, t, n, r))
  {
    hide TL.Attempt, TL.SessionTrace, VS.Ran, TL.Traced;
    var ran, log := VS.Ran(r.trace), r.st.executionLog;
    assert ran[..|log|] == ran;
    var token := if t.serverId == "" then Some("") else o.vault(n);
    if token.Some? {
      var out := TL.Attempt(o.world(n), s.maxTurns, token.value, Knowledge(r.st), log);
      AttemptIsLogged(o.world(n), s.maxTurns, t.serverId != "", token.value, Knowledge(r.st), log, r.trace);
      if out.Finished? {
        LogsExtend(ran, out.calls, log, out.log);
        TracedLength(ran + out.calls, out.log);
        assert (ran + out.calls)[..|out.log|] == ran + out.calls;
      } else {
        assert (ran + out.calls)[..|log|] == ran;
      }
    }
  }

  lemma TracedLength(uses: seq<TL.Use>, log: seq<TL.LogEntry>)
    requires TL.Traced(uses, log)
    ensures |uses| == |log|
  {
  }

  lemma StepKeepsLog(s: Settings, o: Oracle, t: Ticket, r: Run)
    requires !Stopped(r) && LogAgrees(r) && Raised !in r.attempts && (r.at.Receive? ==> r.trace == [])
    ensures var r' := Step(s, o, t, r);
      LogAgrees(r') && (!Stopped(r') ==> Raised !in r'.attempts && !r'.at.Receive?)
  {
    if r.at.Resolve? {
      ResolveKeepsLog(s, o, t, |r.visits|, r.(visits := r.visits + [r.at]));
    }
    hide TL.Attempt, TL.SessionTrace, VS.Ran, LogAgrees;
  }

  lemma {:induction false} FinishKeepsLog(s: Settings, o: Oracle, t: Ticket, r: Run)
    requires LogAgrees(r) && (!Stopped(r) ==> Raised !in r.attempts) && (r.at.Receive? ==> r.trace == [])
    ensures LogAgrees(Finish(s, o, t, r))
    decreases r.at.Receive?, RetriesLeft(s, r.st), Rank(r.at)
  {
    hide LogAgrees;
    if !Stopped(r) {
      StepKeepsLog(s, o, t, r);
      FinishKeepsLog(s, o, t, Step(s, o, t, r));
    }
  }

  /**
   * In every run the execution log is a prefix of the tools run over all attempts, in order
   * and on the same inputs, and if the run reaches its end it is all of them.
   */
  lemma LogIsWhatRan(s: Settings, o: Oracle, t: Ticket)
    ensures var r := Finish(s, o, t, Begin());
      var ran, log := VS.Ran(r.trace), r.st.executionLog;
      && |log| <= |ran| && TL.Traced(ran[..|log|], log)
      && (r.at == End ==> TL.Traced(ran, log))
  {
    FinishKeepsLog(s, o, t, Begin());
    FinishKeeps(s, o, t, Begin());
    var r := Finish(s, o, t, Begin());
    hide Finish, VS.Ran;
    if r.at == End {
      NoneRaised(s, r);
      assert VS.Ran(r.trace)[..|r.st.executionLog|] == VS.Ran(r.trace);
    }
  }

  lemma NoneRaised(s: Settings, r: Run)
    requires AttemptsAgree(s, r) && r.at == End
    ensures Raised !in r.attempts
  {
    var a := r.attempts;
    forall i | 0 <= i < |a| ensures a[i] != Raised {
      if i < |a| - 1 {
        assert a[..|a| - 1][i] in a[..|a| - 1];
      } else {
        assert a[i] in a;
      }
    }
  }

  /** The run after at most `k` node visits. */
  function AfterVisits(s: Settings, o: Oracle, t: Ticket, k: nat): Run {
    if k == 0 then Begin()
    else
      var r := AfterVisits(s, o, t, k - 1);
      if Stopped(r) then r else Step(s, o, t, r)
  }

  /** The knowledge a state offers comes from the lookups just before it. */
  ghost predicate KnowledgeIsFresh(o: Oracle, r: Run) {
    var n := |r.visits|;
    match r.at
    case Resolve =>
      && 0 < n
      && (r.visits[n - 1] == RagLookup ==> r.st.ragHits == o.hits(n - 1) != [] && r.st.webResults == [])
      && (r.visits[n - 1] != RagLookup ==>
          r.visits[n - 1] == WebSearch && r.st.ragHits == [] && r.st.webResults == o.web(n - 1))
    case Verify => true
    case Close => true
    case End => true
    case Aborted => true
    case _ => r.st.ragHits == r.st.webResults == []
  }

  lemma StepKeepsFresh(s: Settings, o: Oracle, t: Ticket, r: Run)
    requires !Stopped(r) && KnowledgeIsFresh(o, r)
    ensures KnowledgeIsFresh(o, Step(s, o, t, r))
  {
  }

  /** The first three things this attempt's own lookups returned, or all if there are fewer. */
  ghost predicate JustFound(o: Oracle, r: Run, knowledge: seq<string>)
    requires r.visits != []
  {
    var n := |r.visits| - 1;
    var found := if r.visits[n] == RagLookup then o.hits(n) else o.web(n);
    knowledge <= found && |knowledge| == if |found| < 3 then |found| else 3
  }

  ghost predicate StartsClean(o: Oracle, r: Run)
    requires r.visits != []
  {
    && !r.st.resolved && JustFound(o, r, Knowledge(r.st))
    && if r.visits[|r.visits| - 1] == RagLookup then r.st.webResults == [] else r.st.ragHits == []
  }

  lemma FreshIsClean(s: Settings, o: Oracle, r: Run)
    requires AttemptsAgree(s, r) && KnowledgeIsFresh(o, r) && r.at == Resolve
    ensures r.visits != [] && StartsClean(o, r)
  {
  }

  lemma {:induction false} VisitsAreFresh(s: Settings, o: Oracle, t: Ticket, k: nat)
    ensures AttemptsAgree(s, AfterVisits(s, o, t, k)) && KnowledgeIsFresh(o, AfterVisits(s, o, t, k))
  {
    if k > 0 {
      hide Step, AttemptsAgree, KnowledgeIsFresh;
      VisitsAreFresh(s, o, t, k - 1);
      var r := AfterVisits(s, o, t, k - 1);
      if !Stopped(r) {
        StepKeepsAttempts(s, o, t, r);
        StepKeepsFresh(s, o, t, r);
      }
    }
  }

  lemma AttemptStartsClean(s: Settings, o: Oracle, t: Ticket, k: nat)
    requires AfterVisits(s, o, t, k).at == Resolve
    ensures AfterVisits(s, o, t, k).visits != []
    ensures StartsClean(o, AfterVisits(s, o, t, k))
  {
    hide AfterVisits;
    VisitsAreFresh(s, o, t, k);
    FreshIsClean(s, o, AfterVisits(s, o, t, k));
  }

  /**
   * `after` follows `r` by an attempt on `knowledge` whose loop went as `out`: a session is
   * open around its tools if there is a server, and the loop's variables are merged.
   */
  ghost predicate AttemptMade(s: Settings, o: Oracle, t: Ticket, knowledge: seq<string>, out: TL.Outcome,
                              r: Run, after: Run)
    requires r.visits != [] && (t.serverId == "" || o.vault(|r.visits|).Some?)
  {
    var token := if t.serverId == "" then "" else o.vault(|r.visits|).value;
    && JustFound(o, r, knowledge)
    && TL.TranscriptHolds(o.world(|r.visits|), s.maxTurns, token, knowledge, r.st.executionLog, out)
    && after.visits == r.visits + [Resolve] && after.writes == r.writes + [Executing]
    && after.modelCalls == r.modelCalls + out.modelCalls
    && after.trace == r.trace + ((if t.serverId != "" then [TL.Opened(token)] else [])
                                 + out.calls + (if token != "" then [TL.Closed(token)] else []))
    && if out.Crashed? then after.at == Aborted && after.attempts == r.attempts + [Raised] && after.st == r.st
       else
         && after.at == Verify && after.attempts == r.attempts + [Ended(out.end, out.summary)]
         && after.st == r.st.(status := if out.end == TL.Resolved then Verifying else Failed, executionLog := out.log,
                              summary := Some(out.summary), resolved := out.end == TL.Resolved)
  }

  /**
   * Every visit of the resolve loop, in every run: no stale field reaches it, `resolved` is
   * false and the prompt holds what this attempt's own lookups returned; a refused session
   * leaves only the error, and otherwise the loop's transcript is merged.
   */
  lemma AttemptVisit(s: Settings, o: Oracle, t: Ticket, k: nat)
    requires AfterVisits(s, o, t, k).at == Resolve && !o.raises(|AfterVisits(s, o, t, k).visits|)
    ensures var r, after := AfterVisits(s, o, t, k), AfterVisits(s, o, t, k + 1);
      var n := |r.visits|;
      && r.visits != [] && StartsClean(o, r)
      && if t.serverId != "" && o.vault(n).None? then
           after == r.(at := Verify, visits := r.visits + [Resolve], writes := r.writes + [Executing],
                       attempts := r.attempts + [VaultRefused],
                       st := r.st.(status := Failed, error := Some(CannotSsh)))
         else exists knowledge, out :: AttemptMade(s, o, t, knowledge, out, r, after)
  {
    AttemptStartsClean(s, o, t, k);
    VisitUnfold(s, o, t, k);
    hide AfterVisits, JustFound, Step, AttemptMade;
    var r := AfterVisits(s, o, t, k);
    if t.serverId != "" && o.vault(|r.visits|).None? {
      RefusedVisit(s, o, t, r);
    } else {
      var out := LoopVisit(s, o, t, r);
    }
  }

  lemma RefusedVisit(s: Settings, o: Oracle, t: Ticket, r: Run)
    requires r.at == Resolve && !o.raises(|r.visits|) && t.serverId != "" && o.vault(|r.visits|).None?
    ensures Step(s, o, t, r) ==
      r.(at := Verify, visits := r.visits + [Resolve], writes := r.writes + [Executing],
         attempts := r.attempts + [VaultRefused], st := r.st.(status := Failed, error := Some(CannotSsh)))
  {
  }

  lemma LoopVisit(s: Settings, o: Oracle, t: Ticket, r: Run) returns (out: TL.Outcome)
    requires r.at == Resolve && !o.raises(|r.visits|) && (t.serverId == "" || o.vault(|r.visits|).Some?)
    requires r.visits != [] && JustFound(o, r, Knowledge(r.st))
    ensures AttemptMade(s, o, t, Knowledge(r.st), out, r, Step(s, o, t, r))
  {
    hide TL.Attempt, TL.TranscriptHolds, Knowledge, JustFound;
    var token := if t.serverId == "" then "" else o.vault(|r.visits|).value;
    TL.Transcript(o.world(|r.visits|), s.maxTurns, token, Knowledge(r.st), r.st.executionLog);
    out := TL.Attempt(o.world(|r.visits|), s.maxTurns, token, Knowledge(r.st), r.st.executionLog);
  }

  lemma VisitUnfold(s: Settings, o: Oracle, t: Ticket, k: nat)
    requires !Stopped(AfterVisits(s, o, t, k))
    ensures AfterVisits(s, o, t, k + 1) == Step(s, o, t, AfterVisits(s, o, t, k))
  {
    hide Step;
  }

  lemma StepDecreases(s: Settings, o: Oracle, t: Ticket, r: Run)
    requires !Stopped(r)
    ensures var r' := Step(s, o, t, r);
      && !r'.at.Receive?
      && (r.at.Receive? || RetriesLeft(s, r'.st) < RetriesLeft(s, r.st)
          || (RetriesLeft(s, r'.st) == RetriesLeft(s, r.st) && Rank(r'.at) < Rank(r.at)))
  {
  }

  lemma FinishUnfold(s: Settings, o: Oracle, t: Ticket, r: Run)
    ensures Finish(s, o, t, r) == if Stopped(r) then r else Finish(s, o, t, Step(s, o, t, r))
  {
    hide Step;
  }

  /** A run is its visits, one after the other. */
  lemma {:induction false} RunIsItsVisits(s: Settings, o: Oracle, t: Ticket, k: nat, r: Run) returns (n: nat)
    requires r == AfterVisits(s, o, t, k)
    ensures k <= n && Finish(s, o, t, r) == AfterVisits(s, o, t, n)
    decreases r.at.Receive?, RetriesLeft(s, r.st), Rank(r.at)
  {
    hide Step, Finish, AfterVisits;
    FinishUnfold(s, o, t, r);
    n := k;
    if !Stopped(r) {
      VisitUnfold(s, o, t, k);
      StepDecreases(s, o, t, r);
      n := RunIsItsVisits(s, o, t, k + 1, Step(s, o, t, r));
    }
  }
}
