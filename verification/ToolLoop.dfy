/**
 * The client agent's tool-calling loop: ask the model, run the tools it asks for,
 * answer with their results, until it ends its turn or the turns run out.
 */
module ToolLoop {
  import opened PyText
  import opened Wrappers

  datatype Stop = EndTurn | ToolUse | OtherStop

  datatype Block = Text(text: string) | ToolCall(id: string, name: string, input: map<string, string>)

  /** What messages.create does in one turn. */
  datatype Reply = ApiError | Reply(stop: Stop, blocks: seq<Block>)

  /** What dispatch_tool does: an exception is caught, a value json.dumps refuses is not. */
  datatype Tool = Returned(output: string) | Raised(message: string) | Unserialisable

  datatype Output = Value(json: string) | ErrorOf(message: string)

  datatype ToolResult = ToolResult(toolUseId: string, content: Output)

  datatype LogEntry = LogEntry(tool: string, input: map<string, string>, output: Output)

  datatype Message =
    | Prompt(context: seq<string>)
    | Assistant(blocks: seq<Block>)
    | Results(results: seq<ToolResult>)

  /** The model and the tools: the reply of each turn, the outcome of each call of a turn. */
  datatype World = World(reply: nat -> Reply, tool: (nat, nat) -> Tool)

  /** What is done with vault sessions: opened, a tool run on an input, closed. */
  datatype Use =
    | Opened(token: string)
    | Called(call: Block, input: map<string, string>, outcome: Tool)
    | Closed(token: string)

  datatype End = Resolved | Stopped | OutOfTurns

  /** The loop raises, or leaves a transcript, the extended log and a summary; either way tools were run. */
  datatype Outcome =
    | Crashed(modelCalls: nat, calls: seq<Use>)
    | Finished(end: End, messages: seq<Message>, log: seq<LogEntry>, summary: string, modelCalls: nat, calls: seq<Use>)

  function ToolCalls(blocks: seq<Block>): (calls: seq<Block>)
    ensures forall c :: c in calls ==> c.ToolCall? && c in blocks
  {
    if blocks == [] then []
    else if blocks[0].ToolCall? then [blocks[0]] + ToolCalls(blocks[1..])
    else ToolCalls(blocks[1..])
  }

  function Texts(blocks: seq<Block>): seq<string> {
    if blocks == [] then []
    else if blocks[0].Text? then [blocks[0].text] + Texts(blocks[1..])
    else Texts(blocks[1..])
  }

  /** The open session's token goes to the SSH tools, unless the model supplied one. */
  function WithToken(name: string, input: map<string, string>, token: string): map<string, string> {
    if (name == "ssh_execute" || name == "hard_restart") && token != "" && "session_token" !in input
    then input["session_token" := token]
    else input
  }

  function OutputOf(t: Tool): Output
    requires !t.Unserialisable?
  {
    match t case Returned(json) => Value(json) case Raised(message) => ErrorOf(message)
  }

  datatype Answers = Answers(results: seq<ToolResult>, entries: seq<LogEntry>)

  /** The first `n` tool calls of a turn, run in order; None when one of them ends the loop. */
  function Answer(w: World, turn: nat, calls: seq<Block>, token: string, n: nat): Option<Answers>
    requires n <= |calls| && forall c :: c in calls ==> c.ToolCall?
  {
    if n == 0 then Some(Answers([], []))
    else
      var before := Answer(w, turn, calls, token, n - 1);
      var outcome := w.tool(turn, n - 1);
      if before.None? || outcome.Unserialisable? then None
      else
        var call, output := calls[n - 1], OutputOf(outcome);
        var input := WithToken(call.name, call.input, token);
        Some(Answers(before.value.results + [ToolResult(call.id, output)],
                     before.value.entries + [LogEntry(call.name, input, output)]))
  }

  /** The tools run for the first `n` calls of a turn: none after one that ends the loop. */
  function Dispatched(w: World, turn: nat, calls: seq<Block>, token: string, n: nat): seq<Use>
    requires n <= |calls| && forall c :: c in calls ==> c.ToolCall?
  {
    if n == 0 then []
    else
      var before, call := Dispatched(w, turn, calls, token, n - 1), calls[n - 1];
      if Answer(w, turn, calls, token, n - 1).None? then before
      else before + [Called(call, WithToken(call.name, call.input, token), w.tool(turn, n - 1))]
  }

  /** The tools run in a turn whose reply asks for tools. */
  function DispatchedIn(w: World, turn: nat, blocks: seq<Block>, token: string): seq<Use> {
    Dispatched(w, turn, ToolCalls(blocks), token, |ToolCalls(blocks)|)
  }

  /** Some when the reply of `turn` asks for tools and all of them can be answered. */
  function Completed(w: World, token: string, turn: nat): Option<Answers> {
    match w.reply(turn)
    case Reply(ToolUse, blocks) => Answer(w, turn, ToolCalls(blocks), token, |ToolCalls(blocks)|)
    case _ => None
  }

  /** The loop from `turn` on. */
  function Turns(w: World, maxTurns: nat, token: string, turn: nat,
                 messages: seq<Message>, log: seq<LogEntry>, calls: seq<Use>): Outcome
    decreases maxTurns - turn
  {
    if turn >= maxTurns then Finished(OutOfTurns, messages, log, "", turn, calls)
    else match w.reply(turn)
      case ApiError => Crashed(turn + 1, calls)
      case Reply(EndTurn, blocks) =>
        Finished(Resolved, messages + [Assistant(blocks)], log, Strip(JoinWithSpaces(Texts(blocks))), turn + 1, calls)
      case Reply(OtherStop, blocks) =>
        Finished(Stopped, messages + [Assistant(blocks)], log, "", turn + 1, calls)
      case Reply(ToolUse, blocks) =>
        var calls := calls + DispatchedIn(w, turn, blocks, token);
        match Completed(w, token, turn)
        case None => Crashed(turn + 1, calls)
        case Some(a) =>
          Turns(w, maxTurns, token, turn + 1, messages + [Assistant(blocks), Results(a.results)],
                log + a.entries, calls)
  }

  /** The loop of one attempt, from its first turn. */
  function Attempt(w: World, maxTurns: nat, token: string, context: seq<string>, oldLog: seq<LogEntry>): Outcome {
    Turns(w, maxTurns, token, 0, [Prompt(context)], oldLog, [])
  }

  /** What an attempt does with sessions: at most one is opened, and closed after the tools. */
  function SessionTrace(server: bool, token: string, calls: seq<Use>): seq<Use> {
    (if server then [Opened(token)] else []) + calls + (if token != "" then [Closed(token)] else [])
  }

  /** One turn's tools, in order, until one of them raises past the loop. */
  method RunTools(w: World, turn: nat, toolCalls: seq<Block>, token: string, oldLog: seq<LogEntry>, oldTrace: seq<Use>)
    returns (raised: bool, results: seq<ToolResult>, log: seq<LogEntry>, trace: seq<Use>)
    requires forall c :: c in toolCalls ==> c.ToolCall?
    ensures raised <==> Answer(w, turn, toolCalls, token, |toolCalls|).None?
    ensures trace == oldTrace + Dispatched(w, turn, toolCalls, token, |toolCalls|)
    ensures !raised ==>
      var a := Answer(w, turn, toolCalls, token, |toolCalls|).value;
      results == a.results && log == oldLog + a.entries
  {
    results, log, trace := [], oldLog, oldTrace;
    ghost var entries: seq<LogEntry> := [];
    for i := 0 to |toolCalls|
      invariant Answer(w, turn, toolCalls, token, i) == Some(Answers(results, entries))
      invariant log == oldLog + entries
      invariant trace == oldTrace + Dispatched(w, turn, toolCalls, token, i)
    {
      var input := WithToken(toolCalls[i].name, toolCalls[i].input, token);
      var outcome := w.tool(turn, i);
      trace := trace + [Called(toolCalls[i], input, outcome)];
      if outcome.Unserialisable? {
        NotAnswered(w, turn, toolCalls, token, i + 1, |toolCalls|);
        return true, results, log, trace;
      }
      log := log + [LogEntry(toolCalls[i].name, input, OutputOf(outcome))];
      entries := entries + [LogEntry(toolCalls[i].name, input, OutputOf(outcome))];
      results := results + [ToolResult(toolCalls[i].id, OutputOf(outcome))];
    }
    raised := false;
  }

  /**
   * One attempt as the node runs it: open a session if there is a server, run the turns,
   * appending to `messages`, `log`, the turn's results and the trace of what is done with
   * sessions, and close the session on every way out. None when the vault refuses.
   */
  method RunTurns(w: World, maxTurns: nat, server: bool, vault: Option<string>, context: seq<string>,
                  oldLog: seq<LogEntry>, oldTrace: seq<Use>)
    returns (outcome: Option<Outcome>, trace: seq<Use>)
    ensures outcome.None? <==> server && vault.None?
    ensures outcome.None? ==> trace == oldTrace
    ensures outcome.Some? ==>
      var token := if server then vault.value else "";
      && outcome == Some(Attempt(w, maxTurns, token, context, oldLog))
      && trace == oldTrace + SessionTrace(server, token, outcome.value.calls)
  {
    hide Turns, Answer, Dispatched, ToolCalls, Texts, Strip, JoinWithSpaces;
    trace := oldTrace;
    var token := "";
    if server {
      if vault.None? {
        return None, trace;
      }
      token := vault.value;
      trace := trace + [Opened(token)];
    }
    ghost var start, whole := trace, Attempt(w, maxTurns, token, context, oldLog);
    var calls: seq<Use> := [];
    var messages, log := [Prompt(context)], oldLog;
    var turn := 0;
    var o := Crashed(0, []);
    label Try: {
      while turn < maxTurns
        invariant turn <= maxTurns
        invariant whole == Turns(w, maxTurns, token, turn, messages, log, calls)
        invariant trace == start + calls
      {
        TurnsUnfold(w, maxTurns, token, turn, messages, log, calls);
        var reply := w.reply(turn);
        if reply.ApiError? {
          o := Crashed(turn + 1, calls);
          break Try;
        }
        var blocks := reply.blocks;
        var toolCalls := ToolCalls(blocks);
        ghost var prior := messages;
        messages := messages + [Assistant(blocks)];
        if reply.stop == EndTurn {
          o := Finished(Resolved, messages, log, Strip(JoinWithSpaces(Texts(blocks))), turn + 1, calls);
          break Try;
        }
        if reply.stop != ToolUse {
          o := Finished(Stopped, messages, log, "", turn + 1, calls);
          break Try;
        }
        var raised, results;
        raised, results, log, trace := RunTools(w, turn, toolCalls, token, log, trace);
        calls := calls + Dispatched(w, turn, toolCalls, token, |toolCalls|);
        if raised {
          o := Crashed(turn + 1, calls);
          break Try;
        }
        TurnMessages(prior, blocks, results);
        messages := messages + [Results(results)];
        turn := turn + 1;
      }
      TurnsUnfold(w, maxTurns, token, turn, messages, log, calls);
      o := Finished(OutOfTurns, messages, log, "", turn, calls);
    }
    assert o == whole && trace == start + o.calls;
    if token != "" {
      trace := trace + [Closed(token)];
    }
    outcome := Some(o);
  }

  /** One turn of the loop. */
  lemma TurnsUnfold(w: World, maxTurns: nat, token: string, turn: nat,
                    messages: seq<Message>, log: seq<LogEntry>, calls: seq<Use>)
    ensures Turns(w, maxTurns, token, turn, messages, log, calls) ==
      if turn >= maxTurns then Finished(OutOfTurns, messages, log, "", turn, calls)
      else match w.reply(turn)
        case ApiError => Crashed(turn + 1, calls)
        case Reply(EndTurn, blocks) =>
          Finished(Resolved, messages + [Assistant(blocks)], log, Strip(JoinWithSpaces(Texts(blocks))), turn + 1, calls)
        case Reply(OtherStop, blocks) => Finished(Stopped, messages + [Assistant(blocks)], log, "", turn + 1, calls)
        case Reply(ToolUse, blocks) =>
          var calls := calls + DispatchedIn(w, turn, blocks, token);
          match Completed(w, token, turn)
          case None => Crashed(turn + 1, calls)
          case Some(a) =>
            Turns(w, maxTurns, token, turn + 1, messages + [Assistant(blocks), Results(a.results)],
                  log + a.entries, calls)
  {
  }

  lemma TurnMessages(messages: seq<Message>, blocks: seq<Block>, results: seq<ToolResult>)
    ensures messages + [Assistant(blocks)] + [Results(results)] == messages + [Assistant(blocks), Results(results)]
  {
  }

  lemma {:induction false} NotAnswered(w: World, turn: nat, calls: seq<Block>, token: string, m: nat, n: nat)
    requires m <= n <= |calls| && forall c :: c in calls ==> c.ToolCall?
    requires Answer(w, turn, calls, token, m).None?
    ensures Answer(w, turn, calls, token, n).None?
    ensures Dispatched(w, turn, calls, token, n) == Dispatched(w, turn, calls, token, m)
    decreases n
  {
    if m < n {
      NotAnswered(w, turn, calls, token, m, n - 1);
    }
  }

  // ---------- one turn ----------

  /** What a tool did is what is said of it: its value as it is, or the message of what it raised. */
  ghost predicate Says(outcome: Tool, output: Output) {
    match outcome
    case Returned(json) => output == Value(json)
    case Raised(message) => output == ErrorOf(message)
    case Unserialisable => false
  }

  /** The tool calls of a turn. */
  function CallsIn(w: World, turn: nat): (calls: seq<Block>)
    ensures forall c :: c in calls ==> c.ToolCall?
  {
    match w.reply(turn)
    case Reply(ToolUse, blocks) => ToolCalls(blocks)
    case _ => []
  }

  /** Every tool call is answered by exactly one result, in order, with its id and what its tool did. */
  ghost predicate Answered(w: World, turn: nat, calls: seq<Block>, results: seq<ToolResult>) {
    && |results| == |calls|
    && forall i :: 0 <= i < |calls| ==>
      calls[i].ToolCall? && results[i].toolUseId == calls[i].id && Says(w.tool(turn, i), results[i].content)
  }

  /** Each log entry is of one tool run, in order, on its input, with what the tool did. */
  ghost predicate Traced(uses: seq<Use>, entries: seq<LogEntry>) {
    && |uses| == |entries|
    && forall i :: 0 <= i < |uses| ==>
      && uses[i].Called? && uses[i].call.ToolCall?
      && uses[i].call.name == entries[i].tool && uses[i].input == entries[i].input
      && Says(uses[i].outcome, entries[i].output)
  }

  /** The calls of a turn run one by one, each on its input with the token where it belongs. */
  ghost function UsesIn(w: World, token: string, turn: nat): seq<Use> {
    var calls := CallsIn(w, turn);
    seq(|calls|, i requires 0 <= i < |calls| =>
      Called(calls[i], WithToken(calls[i].name, calls[i].input, token), w.tool(turn, i)))
  }

  /** After `n` of the calls none of their tools has ended the loop, or only the last one has. */
  ghost predicate RunUpTo(w: World, turn: nat, n: nat) {
    && n <= |CallsIn(w, turn)|
    && (forall i :: 0 <= i < n - 1 ==> !w.tool(turn, i).Unserialisable?)
    && (n == |CallsIn(w, turn)| || (0 < n && w.tool(turn, n - 1).Unserialisable?))
  }

  lemma {:induction false} AnsweredExactlyWhen(w: World, turn: nat, calls: seq<Block>, token: string, n: nat)
    requires n <= |calls| && forall c :: c in calls ==> c.ToolCall?
    ensures Answer(w, turn, calls, token, n).Some? <==> forall i :: 0 <= i < n ==> !w.tool(turn, i).Unserialisable?
  {
    hide WithToken;
    if n > 0 {
      AnsweredExactlyWhen(w, turn, calls, token, n - 1);
    }
  }

  lemma {:induction false} AnswerAnswers(w: World, turn: nat, calls: seq<Block>, token: string, n: nat)
    requires n <= |calls| && forall c :: c in calls ==> c.ToolCall?
    requires Answer(w, turn, calls, token, n).Some?
    ensures var a := Answer(w, turn, calls, token, n).value;
      Answered(w, turn, calls[..n], a.results) && Traced(Dispatched(w, turn, calls, token, n), a.entries)
  {
    hide WithToken;
    if n > 0 {
      AnswerAnswers(w, turn, calls, token, n - 1);
      hide ToolCalls;
      assert calls[..n] == calls[..n - 1] + [calls[n - 1]];
    }
  }

  lemma OneMoreUse(w: World, token: string, turn: nat, n: nat)
    requires 0 < n <= |CallsIn(w, turn)|
    ensures |UsesIn(w, token, turn)| == |CallsIn(w, turn)|
    ensures var call := CallsIn(w, turn)[n - 1];
      UsesIn(w, token, turn)[..n] == UsesIn(w, token, turn)[..n - 1] +
        [Called(call, WithToken(call.name, call.input, token), w.tool(turn, n - 1))]
  {
    hide WithToken;
  }

  lemma {:induction false} DispatchedIs(w: World, token: string, turn: nat, n: nat) returns (m: nat)
    requires n <= |CallsIn(w, turn)|
    ensures m <= n && Dispatched(w, turn, CallsIn(w, turn), token, n) == UsesIn(w, token, turn)[..m]
    ensures forall i :: 0 <= i < m - 1 ==> !w.tool(turn, i).Unserialisable?
    ensures m == n || (0 < m && w.tool(turn, m - 1).Unserialisable?)
  {
    if n == 0 {
      m := 0;
    } else {
      AnsweredExactlyWhen(w, turn, CallsIn(w, turn), token, n - 1);
      m := DispatchedIs(w, token, turn, n - 1);
      OneMoreUse(w, token, turn, n);
      hide UsesIn, WithToken, CallsIn;
      if Answer(w, turn, CallsIn(w, turn), token, n - 1).Some? {
        m := n;
      }
    }
  }

  /** The reply asks for tools and no tool's value is refused by json.dumps. */
  ghost predicate Completes(w: World, turn: nat) {
    && w.reply(turn).Reply? && w.reply(turn).stop == ToolUse
    && forall i :: 0 <= i < |CallsIn(w, turn)| ==> !w.tool(turn, i).Unserialisable?
  }

  lemma CompletedExactlyWhen(w: World, token: string, turn: nat)
    ensures Completed(w, token, turn).Some? <==> Completes(w, turn)
  {
    if w.reply(turn).Reply? && w.reply(turn).stop == ToolUse {
      AnsweredExactlyWhen(w, turn, CallsIn(w, turn), token, |CallsIn(w, turn)|);
    }
  }

  lemma CompletedTurn(w: World, token: string, turn: nat)
    requires Completed(w, token, turn).Some?
    ensures w.reply(turn).Reply? && w.reply(turn).stop == ToolUse
    ensures var a := Completed(w, token, turn).value;
      && Answered(w, turn, CallsIn(w, turn), a.results)
      && DispatchedIn(w, turn, w.reply(turn).blocks, token) == UsesIn(w, token, turn)
      && Traced(UsesIn(w, token, turn), a.entries)
  {
    var calls := CallsIn(w, turn);
    AnswerAnswers(w, turn, calls, token, |calls|);
    assert calls[..|calls|] == calls;
    var m := DispatchedIs(w, token, turn, |calls|);
    assert UsesIn(w, token, turn)[..|calls|] == UsesIn(w, token, turn);
  }

  lemma TracedAppend(a: seq<Use>, b: seq<Use>, x: seq<LogEntry>, y: seq<LogEntry>)
    requires Traced(a, x) && Traced(b, y)
    ensures Traced(a + b, x + y)
  {
  }

  // ---------- the transcript ----------

  /** The tools run in the first `n` turns, when all of them complete. */
  ghost function UsesBefore(w: World, token: string, n: nat): seq<Use> {
    if n == 0 then [] else UsesBefore(w, token, n - 1) + UsesIn(w, token, n - 1)
  }

  /** Message `i` is a turn's reply at odd places, and answers the calls of the reply before it at even ones. */
  ghost predicate InTurn(w: World, messages: seq<Message>, i: nat)
    requires 0 < i < |messages|
  {
    var turn := (i - 1) / 2;
    && w.reply(turn).Reply?
    && if i % 2 == 1 then messages[i] == Assistant(w.reply(turn).blocks)
       else messages[i].Results? && Answered(w, turn, ToolCalls(w.reply(turn).blocks), messages[i].results)
  }

  /** User and assistant alternate, and each user message after the prompt answers the calls before it. */
  ghost predicate WellFormed(w: World, context: seq<string>, messages: seq<Message>) {
    && messages != [] && messages[0] == Prompt(context)
    && forall i :: 0 < i < |messages| ==> InTurn(w, messages, i)
  }

  lemma WellFormedAppend(w: World, context: seq<string>, messages: seq<Message>, m: Message)
    requires WellFormed(w, context, messages) && InTurn(w, messages + [m], |messages|)
    ensures WellFormed(w, context, messages + [m])
  {
    var all := messages + [m];
    forall i | 0 < i < |all| ensures InTurn(w, all, i) {
      if i < |messages| {
        assert InTurn(w, messages, i);
      }
    }
  }

  /** What a transcript, its log and the tools run satisfy between turns. */
  ghost predicate InStep(w: World, token: string, context: seq<string>, turn: nat,
                         messages: seq<Message>, oldLog: seq<LogEntry>, log: seq<LogEntry>, calls: seq<Use>) {
    && WellFormed(w, context, messages) && |messages| == 1 + 2 * turn
    && oldLog <= log && Traced(calls, log[|oldLog|..]) && calls == UsesBefore(w, token, turn)
    && forall t :: 0 <= t < turn ==> Completes(w, t)
  }

  lemma TurnWellFormed(w: World, context: seq<string>, turn: nat, messages: seq<Message>, results: seq<ToolResult>)
    requires WellFormed(w, context, messages) && |messages| == 1 + 2 * turn
    requires w.reply(turn).Reply? && Answered(w, turn, ToolCalls(w.reply(turn).blocks), results)
    ensures WellFormed(w, context, messages + [Assistant(w.reply(turn).blocks), Results(results)])
  {
    var blocks := w.reply(turn).blocks;
    var one := messages + [Assistant(blocks)];
    TurnMessages(messages, blocks, results);
    WellFormedAppend(w, context, messages, Assistant(blocks));
    WellFormedAppend(w, context, one, Results(results));
  }

  lemma TurnTraced(calls: seq<Use>, uses: seq<Use>, oldLog: seq<LogEntry>, log: seq<LogEntry>, entries: seq<LogEntry>)
    requires oldLog <= log && Traced(calls, log[|oldLog|..]) && Traced(uses, entries)
    ensures Traced(calls + uses, (log + entries)[|oldLog|..])
  {
    TracedAppend(calls, uses, log[|oldLog|..], entries);
    assert (log + entries)[|oldLog|..] == log[|oldLog|..] + entries;
  }

  lemma TurnKeepsInStep(w: World, token: string, context: seq<string>, turn: nat,
                        messages: seq<Message>, oldLog: seq<LogEntry>, log: seq<LogEntry>, calls: seq<Use>)
    requires InStep(w, token, context, turn, messages, oldLog, log, calls) && Completed(w, token, turn).Some?
    ensures w.reply(turn).Reply?
    ensures var blocks, a := w.reply(turn).blocks, Completed(w, token, turn).value;
      InStep(w, token, context, turn + 1, messages + [Assistant(blocks), Results(a.results)], oldLog, log + a.entries,
             calls + DispatchedIn(w, turn, blocks, token))
  {
    var a := Completed(w, token, turn).value;
    CompletedTurn(w, token, turn);
    CompletedExactlyWhen(w, token, turn);
    hide Completed, WellFormed, Answered, Traced, DispatchedIn, UsesIn, Completes;
    TurnWellFormed(w, context, turn, messages, a.results);
    TurnTraced(calls, UsesIn(w, token, turn), oldLog, log, a.entries);
  }

  /** The turns whose tools were all answered. */
  function CompletedTurns(o: Outcome, maxTurns: nat): int {
    if o.Finished? && o.end.OutOfTurns? then maxTurns else o.modelCalls - 1
  }

  /**
   * The loop stops at the first turn that does not complete, if one comes before the turn
   * limit. How it ends is decided by that turn's reply alone, and so is the summary: the texts
   * of a final reply, trimmed, and nothing otherwise.
   */
  ghost predicate StopsAt(w: World, maxTurns: nat, k: nat, o: Outcome) {
    && (forall t :: 0 <= t < k ==> Completes(w, t))
    && if k == maxTurns then o.Finished? && o.end == OutOfTurns && o.modelCalls == maxTurns && o.summary == ""
       else
         && k < maxTurns && !Completes(w, k) && o.modelCalls == k + 1
         && match w.reply(k)
            case Reply(EndTurn, blocks) =>
              o.Finished? && o.end == Resolved && IsTrimOf(o.summary, JoinWithSpaces(Texts(blocks)))
            case Reply(OtherStop, _) => o.Finished? && o.end == Stopped && o.summary == ""
            case _ => o.Crashed?
  }

  /**
   * The transcript of any run: it alternates, starts with the prompt, holds each turn's reply
   * and answers every call by what its tool did. Its length is 1 + 2k after k completed turns,
   * plus one for a closing reply. The tools run are those of the completed turns, in order; the
   * old log is a prefix of the new one and the new entries say what each of them did. A run
   * that raises has run the tools of its last turn up to the one that ended it.
   */
  ghost predicate TranscriptHolds(w: World, maxTurns: nat, token: string, context: seq<string>,
                                  oldLog: seq<LogEntry>, o: Outcome)
  {
    var k := CompletedTurns(o, maxTurns);
    && 0 <= k && StopsAt(w, maxTurns, k, o)
    && if o.Crashed? then CrashedHolds(w, token, k, o.calls) else FinishedHolds(w, token, context, oldLog, k, o)
  }

  ghost predicate FinishedHolds(w: World, token: string, context: seq<string>, oldLog: seq<LogEntry>,
                                k: nat, o: Outcome)
    requires o.Finished?
  {
    && WellFormed(w, context, o.messages)
    && |o.messages| == 1 + 2 * k + (if o.end.OutOfTurns? then 0 else 1)
    && o.calls == UsesBefore(w, token, k)
    && oldLog <= o.log && Traced(o.calls, o.log[|oldLog|..])
  }

  ghost predicate CrashedHolds(w: World, token: string, k: nat, calls: seq<Use>) {
    exists n: nat :: RunUpTo(w, k, n) && calls == UsesBefore(w, token, k) + UsesIn(w, token, k)[..n]
  }

  lemma CrashedTurn(w: World, token: string, turn: nat)
    requires !(w.reply(turn).Reply? && w.reply(turn).stop != ToolUse) && Completed(w, token, turn).None?
    ensures CrashedHolds(w, token, turn, UsesBefore(w, token, turn) +
      if w.reply(turn).Reply? then DispatchedIn(w, turn, w.reply(turn).blocks, token) else [])
  {
    hide WithToken;
    var n := DispatchedIs(w, token, turn, |CallsIn(w, turn)|);
    assert RunUpTo(w, turn, n);
    if w.reply(turn).ApiError? {
      assert UsesIn(w, token, turn)[..n] == [];
    }
  }

  lemma ClosingReply(w: World, token: string, context: seq<string>, turn: nat,
                     messages: seq<Message>, oldLog: seq<LogEntry>, log: seq<LogEntry>, calls: seq<Use>)
    requires InStep(w, token, context, turn, messages, oldLog, log, calls) && w.reply(turn).Reply?
    ensures forall end: End, summary, n :: end != OutOfTurns ==>
      var all := messages + [Assistant(w.reply(turn).blocks)];
      FinishedHolds(w, token, context, oldLog, turn, Finished(end, all, log, summary, n, calls))
  {
    hide WellFormed, Traced, UsesBefore;
    WellFormedAppend(w, context, messages, Assistant(w.reply(turn).blocks));
  }

  lemma {:induction false} TranscriptOf(w: World, maxTurns: nat, token: string, context: seq<string>, turn: nat,
                                        messages: seq<Message>, oldLog: seq<LogEntry>, log: seq<LogEntry>,
                                        calls: seq<Use>)
    requires turn <= maxTurns && InStep(w, token, context, turn, messages, oldLog, log, calls)
    ensures TranscriptHolds(w, maxTurns, token, context, oldLog,
                            Turns(w, maxTurns, token, turn, messages, log, calls))
    decreases maxTurns - turn
  {
    if turn < maxTurns && Completed(w, token, turn).Some? {
      hide InStep, TranscriptHolds, DispatchedIn;
      TurnKeepsInStep(w, token, context, turn, messages, oldLog, log, calls);
      var a := Completed(w, token, turn).value;
      TranscriptOf(w, maxTurns, token, context, turn + 1,
        messages + [Assistant(w.reply(turn).blocks), Results(a.results)], oldLog, log + a.entries,
        calls + DispatchedIn(w, turn, w.reply(turn).blocks, token));
    } else {
      LastTurn(w, maxTurns, token, context, turn, messages, oldLog, log, calls);
    }
  }

  lemma LastTurn(w: World, maxTurns: nat, token: string, context: seq<string>, turn: nat,
                 messages: seq<Message>, oldLog: seq<LogEntry>, log: seq<LogEntry>, calls: seq<Use>)
    requires turn <= maxTurns && InStep(w, token, context, turn, messages, oldLog, log, calls)
    requires turn < maxTurns ==> Completed(w, token, turn).None?
    ensures TranscriptHolds(w, maxTurns, token, context, oldLog,
                            Turns(w, maxTurns, token, turn, messages, log, calls))
  {
    hide Completed, InStep, FinishedHolds, CrashedHolds, DispatchedIn, UsesBefore, Completes;
    hide Strip, JoinWithSpaces, Texts, IsTrimOf;
    NoMoreTurns(w, maxTurns, token, context, turn, messages, oldLog, log, calls);
    CompletedExactlyWhen(w, token, turn);
    if turn < maxTurns {
      if w.reply(turn).Reply? {
        StripTrims(JoinWithSpaces(Texts(w.reply(turn).blocks)));
      }
      if w.reply(turn).Reply? && w.reply(turn).stop != ToolUse {
        ClosingReply(w, token, context, turn, messages, oldLog, log, calls);
      } else {
        CrashedTurn(w, token, turn);
      }
    }
  }

  lemma NoMoreTurns(w: World, maxTurns: nat, token: string, context: seq<string>, turn: nat,
                    messages: seq<Message>, oldLog: seq<LogEntry>, log: seq<LogEntry>, calls: seq<Use>)
    requires InStep(w, token, context, turn, messages, oldLog, log, calls)
    ensures FinishedHolds(w, token, context, oldLog, turn, Finished(OutOfTurns, messages, log, "", turn, calls))
    ensures calls == calls + [] == UsesBefore(w, token, turn)
    ensures forall t :: 0 <= t < turn ==> Completes(w, t)
  {
    hide WellFormed, Traced, Completes;
  }

  lemma Transcript(w: World, maxTurns: nat, token: string, context: seq<string>, oldLog: seq<LogEntry>)
    ensures TranscriptHolds(w, maxTurns, token, context, oldLog, Attempt(w, maxTurns, token, context, oldLog))
  {
    TranscriptOf(w, maxTurns, token, context, 0, [Prompt(context)], oldLog, oldLog, []);
  }

  // ---------- the parts of a reply and of an input ----------

  /** The calls of a reply are its call blocks and the texts its text blocks, in order. */
  lemma {:induction false} PartsOfReply(a: seq<Block>, b: Block)
    ensures ToolCalls(a + [b]) == ToolCalls(a) + if b.ToolCall? then [b] else []
    ensures Texts(a + [b]) == Texts(a) + if b.Text? then [b.text] else []
    ensures ToolCalls([]) == [] && Texts([]) == []
  {
    if a != [] {
      PartsOfReply(a[1..], b);
      assert (a + [b])[1..] == a[1..] + [b];
    }
  }

  /**
   * The SSH tools get the open session's token unless the model supplied one; nothing else in
   * their input changes, nothing in that of other tools, and nothing without a session.
   */
  lemma SshCallsCarryToken(name: string, input: map<string, string>, token: string)
    ensures var run := WithToken(name, input, token);
      && (forall k :: k in input ==> k in run && run[k] == input[k])
      && (forall k :: k in run && k !in input ==> k == "session_token" && run[k] == token)
      && ("session_token" in run <==>
          "session_token" in input || (token != "" && name in {"ssh_execute", "hard_restart"}))
  {
  }
}
