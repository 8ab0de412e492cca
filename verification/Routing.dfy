/** The supervisor: what a queue payload becomes after one pass of classify and route. */
module Routing {
  import opened Wrappers

  /** A decoded JSON value. Lists and objects are kept opaque. */
  datatype Json = Null | Bool(b: bool) | Num(n: int) | Str(s: string) | Compound(text: string)

  type Payload = map<string, Json>

  /** The watched queues in priority order: orchestrator, client, inserver, report. */
  type Queue = q: nat | q < 4
  const ORCHESTRATOR: Queue := 0
  const CLIENT: Queue := 1
  const INSERVER: Queue := 2
  const REPORT: Queue := 3

  /** datetime.fromisoformat, None where it raises, and datetime.isoformat. */
  datatype IsoFormat = IsoFormat(parse: string -> Option<int>, write: int -> string)
  {
    /** What Python promises of the pair. */
    ghost predicate RoundTrips() {
      forall t: int :: write(t) != "" && parse(write(t)) == Some(t)
    }
  }

  /** What the classification call brings back. */
  datatype Reply = Raises | NotJson | Agent(name: Json)

  datatype AgentState = AgentState(
    taskId: Json,
    traceId: Json,
    taskType: Json,
    severity: Json,
    ticketId: Json,
    userMessage: Json,
    serverId: Json,
    createdAt: int)

  function Get(p: Payload, key: string, default: Json): Json {
    if key in p then p[key] else default
  }

  /** _parse_dt: falsy values and values that do not parse give None. */
  function ParseDt(iso: IsoFormat, value: Json): Option<int> {
    if value.Str? && value.s != "" then iso.parse(value.s) else None
  }

  function InitialState(iso: IsoFormat, p: Payload, now: int): AgentState {
    var taskId := Get(p, "task_id", Str("unknown"));
    var created := ParseDt(iso, Get(p, "created_at", Null));
    AgentState(
      taskId,
      Get(p, "trace_id", taskId),
      Get(p, "task_type", Str("unknown")),
      Get(p, "severity", Null),
      Get(p, "ticket_id", Null),
      Get(p, "user_message", Null),
      Get(p, "server_id", Null),
      if created.Some? then created.value else now)
  }

  function TypeOfAgent(name: Json): Json {
    if name == Str("client-agent") then Str("ticket")
    else if name == Str("inserver-agent") then Str("maintenance")
    else if name == Str("report-agent") then Str("report")
    else Str("ticket")
  }

  /** classify_node: the task type, or None when the node raises. */
  function Classify(st: AgentState, reply: Reply): Option<Json> {
    if st.taskType != Str("unknown") then Some(st.taskType)
    else match reply
      case Raises => None
      case NotJson => Some(Str("ticket"))
      case Agent(name) => if name.Compound? then None else Some(TypeOfAgent(name))
  }

  function QueueFor(taskType: Json): Queue {
    if taskType == Str("ticket") then CLIENT
    else if taskType == Str("maintenance") then INSERVER
    else if taskType == Str("report") then REPORT
    else CLIENT
  }

  function Emit(iso: IsoFormat, st: AgentState, taskType: Json): Payload {
    map[
      "task_id" := st.taskId,
      "trace_id" := st.traceId,
      "task_type" := taskType,
      "ticket_id" := st.ticketId,
      "server_id" := st.serverId,
      "user_message" := st.userMessage,
      "severity" := st.severity,
      "created_at" := Str(iso.write(st.createdAt))
    ]
  }

  /** One pass: the queue and payload pushed, or None when a node raises. */
  function Supervise(iso: IsoFormat, p: Payload, now: int, reply: Reply): Option<(Queue, Payload)> {
    var st := InitialState(iso, p, now);
    var taskType := Classify(st, reply);
    if taskType.None? || taskType.value.Compound? then None
    else Some((QueueFor(taskType.value), Emit(iso, st, taskType.value)))
  }

  /** `n` further passes over an emitted payload, each with its own clock and model reply. */
  function Passes(iso: IsoFormat, p: Payload, clock: nat -> int, replies: nat -> Reply, n: nat)
    : Option<(Queue, Payload)>
  {
    if n == 0 then Supervise(iso, p, clock(0), replies(0))
    else
      var before := Passes(iso, p, clock, replies, n - 1);
      if before.None? then None else Supervise(iso, before.value.1, clock(n), replies(n))
  }

  // ---------- a second pass changes nothing ----------

  /** An emitted payload is a fixed point: same queue, same payload, and no model call. */
  lemma EmittedIsFixed(iso: IsoFormat, p: Payload, now: int, reply: Reply, later: int, other: Reply)
    requires iso.RoundTrips() && Supervise(iso, p, now, reply).Some?
    ensures var (q, out) := Supervise(iso, p, now, reply).value;
      && out["task_type"] != Str("unknown")
      && Supervise(iso, out, later, other) == Some((q, out))
  {
    var st := InitialState(iso, p, now);
    var taskType := Classify(st, reply).value;
    assert taskType != Str("unknown");
    var out := Emit(iso, st, taskType);
    assert ParseDt(iso, out["created_at"]) == Some(st.createdAt);
    assert InitialState(iso, out, later).(taskType := st.taskType) == st;
  }

  /** So the task that the orchestrator takes back any number of times is routed as if once. */
  lemma {:induction false} AnyPassesEqualOne(iso: IsoFormat, p: Payload, clock: nat -> int, replies: nat -> Reply,
                                             n: nat)
    requires iso.RoundTrips()
    ensures Passes(iso, p, clock, replies, n) == Supervise(iso, p, clock(0), replies(0))
  {
    if n > 0 {
      AnyPassesEqualOne(iso, p, clock, replies, n - 1);
      if Supervise(iso, p, clock(0), replies(0)).Some? {
        EmittedIsFixed(iso, p, clock(0), replies(0), clock(n), replies(n));
      }
    }
  }

  /**
   * A pass is lost exactly when the type is a list or object, or when the type is unknown
   * and the model call raises or names no agent that can be looked up.
   */
  lemma LostExactlyWhen(iso: IsoFormat, p: Payload, now: int, reply: Reply)
    ensures var t := Get(p, "task_type", Str("unknown"));
      Supervise(iso, p, now, reply).None? <==>
        || t.Compound?
        || (t == Str("unknown") && (reply.Raises? || (reply.Agent? && reply.name.Compound?)))
  {
  }

  /** The time a payload gives, if it gives one that can be parsed; otherwise the clock's. */
  function CreatedAt(iso: IsoFormat, p: Payload, now: int): int {
    if "created_at" in p && p["created_at"].Str? && p["created_at"].s != "" && iso.parse(p["created_at"].s).Some?
    then iso.parse(p["created_at"].s).value else now
  }

  /** The queue of a task type: two types have their own, all others share the client's. */
  predicate Belongs(q: Queue, taskType: Json) {
    && (q == INSERVER <==> taskType == Str("maintenance"))
    && (q == REPORT <==> taskType == Str("report"))
    && q != ORCHESTRATOR
  }

  /**
   * Where a task goes: by its own type if it has one; else by the agent the model names, and
   * to the client agent if it names another one or answers no JSON.
   */
  lemma RoutedByTypeOrAgent(iso: IsoFormat, p: Payload, now: int, reply: Reply)
    requires Supervise(iso, p, now, reply).Some?
    ensures var (q, out) := Supervise(iso, p, now, reply).value;
      var t := Get(p, "task_type", Str("unknown"));
      && "task_type" in out && Belongs(q, out["task_type"])
      && (t != Str("unknown") ==> out["task_type"] == t)
      && (t == Str("unknown") ==>
          && !reply.Raises?
          && (reply == Agent(Str("client-agent")) ==> q == CLIENT && out["task_type"] == Str("ticket"))
          && (reply == Agent(Str("inserver-agent")) ==> q == INSERVER && out["task_type"] == Str("maintenance"))
          && (reply == Agent(Str("report-agent")) ==> q == REPORT && out["task_type"] == Str("report"))
          && (reply.NotJson? || reply.name !in {Str("client-agent"), Str("inserver-agent"), Str("report-agent")} ==>
              q == CLIENT && out["task_type"] == Str("ticket")))
  {
  }

  /** What the specialist reads is what the producer wrote, field by field. */
  lemma FieldsSurvive(iso: IsoFormat, p: Payload, now: int, reply: Reply)
    requires iso.RoundTrips() && Supervise(iso, p, now, reply).Some?
    ensures var (q, out) := Supervise(iso, p, now, reply).value;
      && (forall k :: k in {"ticket_id", "server_id", "user_message", "severity"} ==> out[k] == Get(p, k, Null))
      && out["task_id"] == Get(p, "task_id", Str("unknown"))
      && out["trace_id"] == Get(p, "trace_id", out["task_id"])
      && out["created_at"] == Str(iso.write(CreatedAt(iso, p, now)))
      && ParseDt(iso, out["created_at"]) == Some(CreatedAt(iso, p, now))
  {
  }
}
