/**
 * The SSH sessions of a ticket run: each one opened is closed once, after its last tool, and
 * a token put into a tool's input is that of the session open around it.
 */
module VaultSessions {
  import opened ToolLoop

  /** The tool runs on a token the loop put in, not the model. */
  predicate Injected(u: Use) {
    u.Called? && u.call.ToolCall? && "session_token" !in u.call.input && "session_token" in u.input
  }

  /** An observer of a trace: no session is open, one is, or something was done out of order. */
  datatype Watch = Shut | Open(token: string) | Broken

  function Observe(w: Watch, u: Use): Watch {
    match u
    case Opened(token) => if !w.Shut? then Broken else if token == "" then Shut else Open(token)
    case Called(_, input, _) => if Injected(u) && w != Open(input["session_token"]) then Broken else w
    case Closed(token) => if w == Open(token) then Shut else Broken
  }

  function Watched(trace: seq<Use>): Watch {
    if trace == [] then Shut else Observe(Watched(trace[..|trace| - 1]), trace[|trace| - 1])
  }

  lemma WatchedAppend(trace: seq<Use>, u: Use)
    ensures Watched(trace + [u]) == Observe(Watched(trace), u)
  {
    assert (trace + [u])[..|trace|] == trace;
  }

  /** All of these are tool runs with `token` put in where it belongs. */
  ghost predicate RunWith(token: string, calls: seq<Use>) {
    forall i :: 0 <= i < |calls| ==>
      && calls[i].Called? && calls[i].call.ToolCall?
      && calls[i].input == WithToken(calls[i].call.name, calls[i].call.input, token)
  }

  lemma {:induction false} DispatchedRunWith(w: World, turn: nat, calls: seq<Block>, token: string, n: nat)
    requires n <= |calls| && forall c :: c in calls ==> c.ToolCall?
    ensures RunWith(token, Dispatched(w, turn, calls, token, n))
  {
    if n > 0 {
      DispatchedRunWith(w, turn, calls, token, n - 1);
    }
  }

  /** Whatever way the loop ends, every tool was run with the loop's token. */
  lemma {:induction false} TurnsRunWith(w: World, maxTurns: nat, token: string, turn: nat,
                                        messages: seq<Message>, log: seq<LogEntry>, calls: seq<Use>)
    requires RunWith(token, calls)
    ensures RunWith(token, Turns(w, maxTurns, token, turn, messages, log, calls).calls)
    decreases maxTurns - turn
  {
    hide Completed;
    if turn < maxTurns && w.reply(turn).Reply? && w.reply(turn).stop == ToolUse {
      var blocks := w.reply(turn).blocks;
      DispatchedRunWith(w, turn, ToolCalls(blocks), token, |ToolCalls(blocks)|);
      if Completed(w, token, turn).Some? {
        var a := Completed(w, token, turn).value;
        TurnsRunWith(w, maxTurns, token, turn + 1, messages + [Assistant(blocks), Results(a.results)],
                     log + a.entries, calls + DispatchedIn(w, turn, blocks, token));
      }
    }
  }

  lemma {:induction false} CallsKeepOpen(trace: seq<Use>, token: string, calls: seq<Use>)
    requires Watched(trace) == (if token == "" then Shut else Open(token)) && RunWith(token, calls)
    ensures Watched(trace + calls) == Watched(trace)
  {
    if calls == [] {
      assert trace + calls == trace;
    } else {
      var prior, last := calls[..|calls| - 1], calls[|calls| - 1];
      CallsKeepOpen(trace, token, prior);
      assert trace + calls == (trace + prior) + [last];
      WatchedAppend(trace + prior, last);
    }
  }

  lemma SessionLeavesShut(server: bool, token: string, calls: seq<Use>, trace: seq<Use>)
    requires Watched(trace) == Shut && (!server ==> token == "") && RunWith(token, calls)
    ensures Watched(trace + SessionTrace(server, token, calls)) == Shut
  {
    hide Watched, RunWith;
    var start := if server then trace + [Opened(token)] else trace;
    WatchedAppend(trace, Opened(token));
    CallsKeepOpen(start, token, calls);
    if token == "" {
      assert trace + SessionTrace(server, token, calls) == start + calls;
    } else {
      WatchedAppend(start + calls, Closed(token));
      assert trace + SessionTrace(server, token, calls) == (start + calls) + [Closed(token)];
    }
  }

  /** An attempt leaves no session open and does nothing out of order. */
  lemma AttemptLeavesShut(w: World, maxTurns: nat, server: bool, token: string, context: seq<string>,
                          oldLog: seq<LogEntry>, trace: seq<Use>)
    requires Watched(trace) == Shut && (!server ==> token == "")
    ensures Watched(trace + SessionTrace(server, token, Attempt(w, maxTurns, token, context, oldLog).calls)) == Shut
  {
    TurnsRunWith(w, maxTurns, token, 0, [Prompt(context)], oldLog, []);
    SessionLeavesShut(server, token, Attempt(w, maxTurns, token, context, oldLog).calls, trace);
  }

  /** `j` closes the session that `i` opened; in between only tools run. */
  ghost predicate Brackets(trace: seq<Use>, i: int, j: int) {
    && 0 <= i < j < |trace|
    && trace[i].Opened? && trace[i].token != "" && trace[j] == Closed(trace[i].token)
    && forall k :: i < k < j ==> trace[k].Called?
  }

  ghost predicate Within(trace: seq<Use>, k: int, token: string) {
    exists i, j :: Brackets(trace, i, j) && i < k < j && trace[i].token == token
  }

  /** An opened session is closed, a closing closes one, and a put-in token is that of the session around it. */
  ghost predicate InPlace(trace: seq<Use>, n: nat)
    requires n < |trace|
  {
    && (trace[n].Opened? && trace[n].token != "" ==> exists j :: Brackets(trace, n, j))
    && (trace[n].Closed? ==> exists i :: Brackets(trace, i, n))
    && (Injected(trace[n]) ==> Within(trace, n, trace[n].input["session_token"]))
  }

  ghost predicate SessionsBracketed(trace: seq<Use>) {
    forall n :: 0 <= n < |trace| ==> InPlace(trace, n)
  }

  lemma {:induction false} BrokenStays(trace: seq<Use>, n: nat)
    requires n <= |trace| && Watched(trace[..n]) == Broken
    ensures Watched(trace) == Broken
    decreases |trace| - n
  {
    if n == |trace| {
      assert trace[..n] == trace;
    } else {
      assert trace[..n + 1] == trace[..n] + [trace[n]];
      WatchedAppend(trace[..n], trace[n]);
      BrokenStays(trace, n + 1);
    }
  }

  /** While a session is open there is a place where it was opened, and only tools ran since. */
  lemma {:induction false} OpenedAt(trace: seq<Use>, n: nat) returns (i: nat)
    requires n <= |trace| && Watched(trace[..n]).Open?
    ensures i < n && trace[i] == Opened(Watched(trace[..n]).token) && trace[i].token != ""
    ensures forall k :: i < k < n ==> trace[k].Called?
  {
    assert trace[..n][..n - 1] == trace[..n - 1];
    if trace[n - 1].Opened? {
      i := n - 1;
    } else {
      i := OpenedAt(trace, n - 1);
    }
  }

  /** And if the trace ends with none open, a place where it is closed, with only tools run before. */
  lemma {:induction false} ClosedAt(trace: seq<Use>, n: nat) returns (j: nat)
    requires n <= |trace| && Watched(trace[..n]).Open? && Watched(trace) == Shut
    ensures n <= j < |trace| && trace[j] == Closed(Watched(trace[..n]).token)
    ensures forall k :: n <= k < j ==> trace[k].Called?
    decreases |trace| - n
  {
    assert trace[..|trace|] == trace;
    assert trace[..n + 1] == trace[..n] + [trace[n]];
    WatchedAppend(trace[..n], trace[n]);
    if Watched(trace[..n + 1]) == Broken {
      BrokenStays(trace, n + 1);
    }
    if trace[n].Closed? {
      j := n;
    } else {
      j := ClosedAt(trace, n + 1);
    }
  }

  lemma StepOfWatched(trace: seq<Use>, n: nat)
    requires n < |trace| && Watched(trace) == Shut
    ensures Watched(trace[..n + 1]) == Observe(Watched(trace[..n]), trace[n]) != Broken
  {
    hide Watched, Observe;
    assert trace[..n + 1] == trace[..n] + [trace[n]];
    WatchedAppend(trace[..n], trace[n]);
    if Watched(trace[..n + 1]) == Broken {
      BrokenStays(trace, n + 1);
    }
  }

  lemma OpeningCloses(trace: seq<Use>, i: nat) returns (j: nat)
    requires i < |trace| && Watched(trace) == Shut && trace[i].Opened? && trace[i].token != ""
    ensures Brackets(trace, i, j)
  {
    StepOfWatched(trace, i);
    j := ClosedAt(trace, i + 1);
  }

  lemma ClosingOpens(trace: seq<Use>, j: nat) returns (i: nat)
    requires j < |trace| && Watched(trace) == Shut && trace[j].Closed?
    ensures Brackets(trace, i, j)
  {
    StepOfWatched(trace, j);
    i := OpenedAt(trace, j);
  }

  lemma InjectedNeedsOpen(w: Watch, u: Use)
    requires Injected(u) && Observe(w, u) != Broken
    ensures w == Observe(w, u) == Open(u.input["session_token"])
  {
  }

  lemma RunsBetween(trace: seq<Use>, i: nat, k: nat, j: nat, token: string)
    requires i < k < j < |trace| && trace[i] == Opened(token) && trace[j] == Closed(token) && token != ""
    requires trace[k].Called? && forall n :: i < n < k || k < n < j ==> trace[n].Called?
    ensures Within(trace, k, token)
  {
    assert Brackets(trace, i, j);
  }

  lemma InjectedWithin(trace: seq<Use>, k: nat)
    requires k < |trace| && Watched(trace) == Shut && Injected(trace[k])
    ensures Within(trace, k, trace[k].input["session_token"])
  {
    var token := trace[k].input["session_token"];
    StepOfWatched(trace, k);
    InjectedNeedsOpen(Watched(trace[..k]), trace[k]);
    hide Watched, Observe, Within, Injected;
    var i := OpenedAt(trace, k);
    var j := ClosedAt(trace, k + 1);
    RunsBetween(trace, i, k, j, token);
  }

  /** A trace on which the observer ends with no session open is bracketed throughout. */
  lemma WatchedIsBracketed(trace: seq<Use>)
    requires Watched(trace) == Shut
    ensures SessionsBracketed(trace)
  {
    hide Watched, Brackets, Within;
    forall n | 0 <= n < |trace| ensures InPlace(trace, n) {
      if trace[n].Opened? && trace[n].token != "" {
        var j := OpeningCloses(trace, n);
      } else if trace[n].Closed? {
        var i := ClosingOpens(trace, n);
      } else if Injected(trace[n]) {
        InjectedWithin(trace, n);
      }
    }
  }

  function OpenedTokens(trace: seq<Use>): seq<string> {
    if trace == [] then []
    else
      var last := trace[|trace| - 1];
      OpenedTokens(trace[..|trace| - 1]) + if last.Opened? then [last.token] else []
  }

  function ClosedTokens(trace: seq<Use>): seq<string> {
    if trace == [] then []
    else
      var last := trace[|trace| - 1];
      ClosedTokens(trace[..|trace| - 1]) + if last.Closed? then [last.token] else []
  }

  function NonEmpty(tokens: seq<string>): seq<string> {
    if tokens == [] then []
    else
      var last := tokens[|tokens| - 1];
      NonEmpty(tokens[..|tokens| - 1]) + if last == "" then [] else [last]
  }

  /** The tokens closed are the non-empty ones opened, in order, but for one that is still open. */
  lemma {:induction false} WatchedIsBalanced(trace: seq<Use>)
    ensures !Watched(trace).Broken? ==>
      NonEmpty(OpenedTokens(trace)) == ClosedTokens(trace) + if Watched(trace).Open? then [Watched(trace).token] else []
  {
    if trace != [] {
      WatchedIsBalanced(trace[..|trace| - 1]);
      var before, last := OpenedTokens(trace[..|trace| - 1]), trace[|trace| - 1];
      if last.Opened? {
        assert (before + [last.token])[..|before|] == before;
      } else {
        assert OpenedTokens(trace) == before;
      }
    }
  }

  /** The tools run, in order. */
  function Ran(trace: seq<Use>): seq<Use> {
    if trace == [] then []
    else
      var last := trace[|trace| - 1];
      Ran(trace[..|trace| - 1]) + if last.Called? then [last] else []
  }

  lemma {:induction false} RanAppend(a: seq<Use>, b: seq<Use>)
    ensures Ran(a + b) == Ran(a) + Ran(b)
  {
    if b == [] {
      assert a + b == a;
    } else {
      RanAppend(a, b[..|b| - 1]);
      assert (a + b)[..|a + b| - 1] == a + b[..|b| - 1];
    }
  }

  lemma {:induction false} RanOfCalls(token: string, calls: seq<Use>)
    requires RunWith(token, calls)
    ensures Ran(calls) == calls
  {
    if calls != [] {
      RanOfCalls(token, calls[..|calls| - 1]);
    }
  }

  lemma RanOfOne(u: Use)
    ensures Ran([u]) == (if u.Called? then [u] else []) && Ran([]) == []
  {
    assert [u][..0] == [];
  }

  lemma RanOfThree(trace: seq<Use>, opening: seq<Use>, calls: seq<Use>, closing: seq<Use>)
    requires Ran(opening) == [] && Ran(calls) == calls && Ran(closing) == []
    ensures Ran(trace + (opening + calls + closing)) == Ran(trace) + calls
  {
    hide Ran;
    RanAppend(opening, calls);
    assert Ran(opening + calls) == calls;
    RanAppend(opening + calls, closing);
    assert Ran(opening + calls + closing) == calls;
    RanAppend(trace, opening + calls + closing);
  }

  lemma RanInSession(trace: seq<Use>, server: bool, token: string, calls: seq<Use>)
    requires RunWith(token, calls)
    ensures Ran(trace + SessionTrace(server, token, calls)) == Ran(trace) + calls
  {
    RanOfOne(Opened(token));
    RanOfOne(Closed(token));
    RanOfCalls(token, calls);
    hide Ran, RunWith, WithToken;
    RanOfThree(trace, if server then [Opened(token)] else [], calls, if token != "" then [Closed(token)] else []);
  }
}
