/**
 * The vault's table of SSH sessions: tokens to clients with an expiry, cleaned up on
 * use, on request, by a periodic eviction and at shutdown.
 */
module SessionRegistry {
  type Token = string
  type ClientId = nat

  datatype Session = Session(serverId: string, agentId: string, client: ClientId, expiresAt: real)

  /** What happens to one SSHClient: exec_command at an instant, or close. */
  datatype Use = Ran(command: string, at: real) | Shut

  /** An SSHClient by the uses made of it, and the instant its session expires. */
  datatype Client = Client(deadline: real, uses: seq<Use>)
  {
    predicate Open() {
      uses == [] || uses[|uses| - 1] != Shut
    }
  }

  datatype State = State(sessions: map<Token, Session>, clients: map<ClientId, Client>)

  datatype Result = Ok | UnknownToken | ExpiredToken | BlockedCommand

  /** What the registry is asked to do, with the wall clock it reads. */
  datatype Op =
    | Create(token: Token, serverId: string, agentId: string, client: ClientId, ttl: int, now: real)
    | Execute(token: Token, command: string, now: real)
    | Close(token: Token)
    | Tick(now: real)
    | Stop

  /** The default time to live and the command filter. */
  datatype Policy = Policy(defaultTtl: int, safe: string -> bool)

  function Expiry(p: Policy, ttl: int, now: real): real {
    now + (if ttl == 0 then p.defaultTtl else ttl) as real
  }

  /** One more use of a client that exists. */
  function Using(clients: map<ClientId, Client>, id: ClientId, u: Use): map<ClientId, Client> {
    if id !in clients then clients
    else clients[id := clients[id].(uses := clients[id].uses + [u])]
  }

  /** Every session has a client. */
  predicate Linked(s: State) {
    forall t :: t in s.sessions ==> s.sessions[t].client in s.clients
  }

  /** The clients whose sessions are among `tokens`. */
  ghost predicate Affected(s: State, tokens: set<Token>, id: ClientId) {
    exists t :: t in tokens && t in s.sessions && s.sessions[t].client == id
  }

  /** Several sessions closed: their tokens forgotten, each of their clients shut once. */
  ghost function Without(s: State, tokens: set<Token>): State {
    State(s.sessions - tokens,
          map id | id in s.clients ::
            if Affected(s, tokens, id) then s.clients[id].(uses := s.clients[id].uses + [Shut]) else s.clients[id])
  }

  ghost function Expired(s: State, now: real): set<Token> {
    set t | t in s.sessions && now > s.sessions[t].expiresAt
  }

  /** Tokens are freshly generated, and the client handed in is newly connected. */
  predicate Allowed(s: State, op: Op) {
    op.Create? ==> op.token !in s.sessions && op.client !in s.clients
  }

  ghost function Step(p: Policy, s: State, op: Op): (State, Result) {
    match op
    case Create(token, serverId, agentId, client, ttl, now) =>
      var deadline := Expiry(p, ttl, now);
      (State(s.sessions[token := Session(serverId, agentId, client, deadline)],
             s.clients[client := Client(deadline, [])]), Ok)
    case Execute(token, command, now) =>
      if token !in s.sessions then (s, UnknownToken)
      else if now > s.sessions[token].expiresAt then (Without(s, {token}), ExpiredToken)
      else if !p.safe(command) then (s, BlockedCommand)
      else (s.(clients := Using(s.clients, s.sessions[token].client, Ran(command, now))), Ok)
    case Close(token) => (Without(s, {token}), Ok)
    case Tick(now) => (Without(s, Expired(s, now)), Ok)
    case Stop => (Without(s, s.sessions.Keys), Ok)
  }

  // ---------- resource safety ----------

  /** A client is only ever given safe commands, before its deadline, and is shut at most once, last. */
  ghost predicate WellUsed(p: Policy, c: Client) {
    forall i :: 0 <= i < |c.uses| ==>
      match c.uses[i]
      case Ran(command, at) => p.safe(command) && at <= c.deadline
      case Shut => i == |c.uses| - 1
  }

  ghost predicate Owner(s: State, t: Token, id: ClientId) {
    t in s.sessions && s.sessions[t].client == id
  }

  /** The registry and its clients agree: open exactly while registered, under one token. */
  ghost predicate Safe(p: Policy, s: State) {
    && Linked(s)
    && (forall t, u, id :: Owner(s, t, id) && Owner(s, u, id) ==> t == u)
    && (forall t, id :: Owner(s, t, id) ==> s.clients[id].deadline == s.sessions[t].expiresAt)
    && (forall id :: id in s.clients ==> WellUsed(p, s.clients[id]))
    && (forall id :: id in s.clients ==> (s.clients[id].Open() <==> exists t :: Owner(s, t, id)))
  }

  lemma WithoutIsSafe(p: Policy, s: State, tokens: set<Token>)
    requires Safe(p, s)
    ensures Safe(p, Without(s, tokens))
  {
    var s' := Without(s, tokens);
    forall t, id ensures Owner(s', t, id) <==> Owner(s, t, id) && t !in tokens {}
    forall id | id in s'.clients
      ensures WellUsed(p, s'.clients[id])
      ensures s'.clients[id].Open() <==> exists t :: Owner(s', t, id)
    {
      var c, c' := s.clients[id], s'.clients[id];
      assert WellUsed(p, c);
      if Affected(s, tokens, id) {
        var t :| t in tokens && Owner(s, t, id);
        assert c.Open() && !c'.Open();
        forall i | 0 <= i < |c.uses| ensures c.uses[i].Ran? {
          assert c.uses[i].Shut? ==> i == |c.uses| - 1;
        }
      } else if t :| Owner(s, t, id) {
        assert Owner(s', t, id);
      }
    }
  }

  lemma CreateIsSafe(p: Policy, s: State, op: Op)
    requires Safe(p, s) && op.Create? && Allowed(s, op)
    ensures Safe(p, Step(p, s, op).0)
  {
    var s' := Step(p, s, op).0;
    forall t, id ensures Owner(s', t, id) <==> if t == op.token then id == op.client else Owner(s, t, id) {}
    assert Owner(s', op.token, op.client);
    forall id | id in s'.clients && id != op.client
      ensures s'.clients[id].Open() <==> exists t :: Owner(s', t, id)
    {
      if t :| Owner(s, t, id) {
        assert Owner(s', t, id);
      }
    }
  }

  lemma RunIsSafe(p: Policy, s: State, token: Token, command: string, now: real)
    requires Safe(p, s) && token in s.sessions && now <= s.sessions[token].expiresAt && p.safe(command)
    ensures Safe(p, Step(p, s, Execute(token, command, now)).0)
  {
    var s' := Step(p, s, Execute(token, command, now)).0;
    var id := s.sessions[token].client;
    assert Owner(s, token, id);
    assert s.clients[id].Open();
    forall t, c ensures Owner(s', t, c) <==> Owner(s, t, c) {}
    forall c | c in s'.clients
      ensures WellUsed(p, s'.clients[c])
      ensures s'.clients[c].Open() <==> exists t :: Owner(s', t, c)
    {
      assert WellUsed(p, s.clients[c]);
      if t :| Owner(s, t, c) {
        assert Owner(s', t, c);
      }
    }
  }

  lemma StepIsSafe(p: Policy, s: State, op: Op)
    requires Safe(p, s) && Allowed(s, op)
    ensures Safe(p, Step(p, s, op).0)
  {
    match op
    case Create(_, _, _, _, _, _) => CreateIsSafe(p, s, op);
    case Execute(token, command, now) =>
      WithoutIsSafe(p, s, {token});
      if token in s.sessions && now <= s.sessions[token].expiresAt && p.safe(command) {
        RunIsSafe(p, s, token, command, now);
      }
    case Close(token) => WithoutIsSafe(p, s, {token});
    case Tick(now) => WithoutIsSafe(p, s, Expired(s, now));
    case Stop => WithoutIsSafe(p, s, s.sessions.Keys);
  }

  ghost predicate IsRun(p: Policy, s: State, ops: seq<Op>)
    decreases |ops|
  {
    ops == [] || (Allowed(s, ops[0]) && IsRun(p, Step(p, s, ops[0]).0, ops[1..]))
  }

  ghost function Exec(p: Policy, s: State, ops: seq<Op>): State
    decreases |ops|
  {
    if ops == [] then s else Exec(p, Step(p, s, ops[0]).0, ops[1..])
  }

  /**
   * Over every run with fresh tokens and clients: a client is open exactly while its token
   * is registered, it is closed exactly once on leaving and used no more, and it is never
   * given an unsafe command or one past its expiry.
   */
  lemma {:induction false} ResourceSafety(p: Policy, s: State, ops: seq<Op>)
    requires Safe(p, s) && IsRun(p, s, ops)
    ensures Safe(p, Exec(p, s, ops))
    decreases |ops|
  {
    if ops != [] {
      StepIsSafe(p, s, ops[0]);
      ResourceSafety(p, Step(p, s, ops[0]).0, ops[1..]);
    }
  }

  lemma EmptyIsSafe(p: Policy)
    ensures Safe(p, State(map[], map[]))
  {
  }

  function Shuts(uses: seq<Use>): nat {
    if uses == [] then 0 else (if uses[0] == Shut then 1 else 0) + Shuts(uses[1..])
  }

  lemma {:induction false} ShutsAtEnd(uses: seq<Use>)
    requires forall i :: 0 <= i < |uses| - 1 ==> uses[i] != Shut
    ensures Shuts(uses) == if uses != [] && uses[|uses| - 1] == Shut then 1 else 0
  {
    if |uses| > 1 {
      assert uses[1..][|uses| - 2] == uses[|uses| - 1];
      ShutsAtEnd(uses[1..]);
    }
  }

  /** close() has been called on a client once if its session is gone, and not at all before. */
  lemma ClosedExactlyOnce(p: Policy, s: State, id: ClientId)
    requires Safe(p, s) && id in s.clients
    ensures Shuts(s.clients[id].uses) == if exists t :: Owner(s, t, id) then 0 else 1
  {
    var uses := s.clients[id].uses;
    assert WellUsed(p, s.clients[id]);
    forall i | 0 <= i < |uses| - 1 ensures uses[i] != Shut {
      assert uses[i].Shut? ==> i == |uses| - 1;
    }
    ShutsAtEnd(uses);
  }

  /** An eviction leaves exactly the sessions that have not expired, untouched; Stop leaves none. */
  lemma CleanUp(p: Policy, s: State, now: real)
    requires Safe(p, s)
    ensures var s' := Step(p, s, Tick(now)).0;
      && (forall t :: t in s'.sessions <==> t in s.sessions && now <= s.sessions[t].expiresAt)
      && (forall t :: t in s'.sessions ==>
          s'.sessions[t] == s.sessions[t] && s'.clients[s.sessions[t].client] == s.clients[s.sessions[t].client])
    ensures Step(p, s, Stop).0.sessions == map[]
    ensures forall id :: id in s.clients ==> !Step(p, s, Stop).0.clients[id].Open()
  {
    WithoutIsSafe(p, s, s.sessions.Keys);
    var s' := Step(p, s, Tick(now)).0;
    forall t | t in s'.sessions ensures s'.clients[s.sessions[t].client] == s.clients[s.sessions[t].client] {
      assert Owner(s, t, s.sessions[t].client);
      var id := s.sessions[t].client;
      assert forall u :: u in s.sessions && s.sessions[u].client == id ==> Owner(s, u, id);
    }
  }

  /**
   * A command reaches a client exactly when its token is registered and unexpired and the
   * filter allows it, and then it is that session's client and no other.
   */
  lemma RunsExactlyWhenAllowed(p: Policy, s: State, token: Token, command: string, now: real)
    requires Safe(p, s)
    ensures var (s', r) := Step(p, s, Execute(token, command, now));
      && (r == Ok <==> token in s.sessions && now <= s.sessions[token].expiresAt && p.safe(command))
      && (forall id :: id in s.clients ==>
          (Ran(command, now) in s'.clients[id].uses[|s.clients[id].uses|..] <==> r == Ok && Owner(s, token, id)))
      && (r == ExpiredToken ==> token !in s'.sessions)
  {
    if token in s.sessions {
      assert Owner(s, token, s.sessions[token].client);
    }
  }

  // ---------- how long a session lives ----------

  /** The operation neither closes the session under `token` nor finds it past its deadline. */
  predicate Spares(op: Op, token: Token, deadline: real) {
    match op
    case Close(t) => t != token
    case Stop => false
    case Tick(now) => now <= deadline
    case Execute(t, _, now) => t == token ==> now <= deadline
    case Create(_, _, _, _, _, _) => true
  }

  lemma {:induction false} SparedSessionStays(p: Policy, s: State, ops: seq<Op>, token: Token)
    requires token in s.sessions && IsRun(p, s, ops)
    requires forall op :: op in ops ==> Spares(op, token, s.sessions[token].expiresAt)
    ensures var s' := Exec(p, s, ops); token in s'.sessions && s'.sessions[token] == s.sessions[token]
    decreases |ops|
  {
    if ops != [] {
      assert ops[0] in ops;
      assert forall op :: op in ops[1..] ==> op in ops;
      SparedSessionStays(p, Step(p, s, ops[0]).0, ops[1..], token);
    }
  }

  /**
   * The life of a session: created at `now`, with a time to live of its own or, for 0, the
   * default one, and spared by what happens since, it runs a safe command at `later` exactly
   * while that time lasts, and its record is what was given.
   */
  lemma SessionLives(p: Policy, s: State, token: Token, serverId: string, agentId: string, client: ClientId, ttl: int,
                     now: real, ops: seq<Op>, command: string, later: real)
    requires token !in s.sessions && client !in s.clients && p.safe(command)
    requires var created := Step(p, s, Create(token, serverId, agentId, client, ttl, now)).0;
      && IsRun(p, created, ops)
      && forall op :: op in ops ==>
           Spares(op, token, now + (if ttl != 0 then ttl as real else p.defaultTtl as real))
    ensures var created := Step(p, s, Create(token, serverId, agentId, client, ttl, now)).0;
      var lifetime := if ttl != 0 then ttl as real else p.defaultTtl as real;
      var r := Step(p, Exec(p, created, ops), Execute(token, command, later)).1;
      && created.sessions == s.sessions[token := Session(serverId, agentId, client, now + lifetime)]
      && (r == Ok <==> later <= now + lifetime) && (r == ExpiredToken <==> later > now + lifetime)
  {
    var created := Step(p, s, Create(token, serverId, agentId, client, ttl, now)).0;
    SparedSessionStays(p, created, ops, token);
  }

  // ---------- the registry object ----------

  lemma WithoutOneMore(s: State, done: set<Token>, token: Token)
    requires Linked(s) && token in s.sessions && token !in done
    requires forall t, u, id :: Owner(s, t, id) && Owner(s, u, id) ==> t == u
    ensures Without(s, done + {token})
         == State(Without(s, done).sessions - {token}, Using(Without(s, done).clients, s.sessions[token].client, Shut))
  {
    var more := done + {token};
    assert s.sessions - more == s.sessions - done - {token};
    forall id | id in s.clients
      ensures Affected(s, more, id) <==> Affected(s, done, id) || id == s.sessions[token].client
      ensures Affected(s, done, id) ==> id != s.sessions[token].client
    {
      assert Owner(s, token, s.sessions[token].client);
      if Affected(s, done, id) {
        var t :| t in done && t in s.sessions && s.sessions[t].client == id;
        assert Owner(s, t, id) && t in more;
      }
      if id == s.sessions[token].client {
        assert token in more;
      }
    }
  }

  lemma WithoutTwice(p: Policy, s: State, done: set<Token>, token: Token)
    requires Safe(p, s) && token in s.sessions && token !in done
    ensures Without(Without(s, done), {token}) == Without(s, done + {token})
  {
    var mid := Without(s, done);
    WithoutIsSafe(p, s, done);
    WithoutOneMore(s, done, token);
    WithoutNone(mid);
    WithoutOneMore(mid, {}, token);
    assert {} + {token} == {token};
  }

  lemma WithoutNone(s: State)
    ensures Without(s, {}) == s
  {
    assert s.sessions - {} == s.sessions;
  }

  class Registry {
    const policy: Policy
    var sessions: map<Token, Session>
    var clients: map<ClientId, Client>    // the connections, as the registry has used them

    ghost function View(): State
      reads this
    {
      State(sessions, clients)
    }

    ghost predicate Valid()
      reads this
    {
      Safe(policy, View())
    }

    constructor (policy: Policy)
      ensures Valid() && View() == State(map[], map[]) && this.policy == policy
    {
      this.policy := policy;
      sessions, clients := map[], map[];
      new;
      EmptyIsSafe(policy);
    }

    /** create(): `token` is what the generator returned, `client` a newly connected SSHClient. */
    method Register(token: Token, serverId: string, agentId: string, client: ClientId, ttl: int, now: real)
      requires Valid() && token !in sessions && client !in clients
      modifies this
      ensures Valid()
      ensures View() == Step(policy, old(View()), Create(token, serverId, agentId, client, ttl, now)).0
      ensures clients[client].Open()
      ensures sessions == old(sessions)[token := Session(serverId, agentId, client, now +
                                          if ttl != 0 then ttl as real else policy.defaultTtl as real)]
    {
      StepIsSafe(policy, View(), Create(token, serverId, agentId, client, ttl, now));
      hide Safe, Linked, Without;
      var lifetime := if ttl == 0 then policy.defaultTtl else ttl;
      sessions := sessions[token := Session(serverId, agentId, client, now + lifetime as real)];
      clients := clients[client := Client(now + lifetime as real, [])];
    }

    /** _close(): pop the token and close its client. */
    method CloseSession(token: Token)
      requires Linked(View()) && forall t, u, id :: Owner(View(), t, id) && Owner(View(), u, id) ==> t == u
      modifies this
      ensures View() == Without(old(View()), {token})
    {
      WithoutNone(View());
      if token in sessions {
        WithoutOneMore(View(), {}, token);
        assert {} + {token} == {token};
        var session := sessions[token];
        sessions := sessions - {token};
        clients := Using(clients, session.client, Shut);
      } else {
        assert sessions - {token} == sessions;
      }
    }

    /** execute(), up to the call of exec_command. */
    method Run(token: Token, command: string, now: real) returns (r: Result)
      requires Valid()
      modifies this
      ensures Valid() && (View(), r) == Step(policy, old(View()), Execute(token, command, now))
    {
      StepIsSafe(policy, View(), Execute(token, command, now));
      if token !in sessions {
        return UnknownToken;
      }
      if now > sessions[token].expiresAt {
        CloseSession(token);
        return ExpiredToken;
      }
      if !policy.safe(command) {
        return BlockedCommand;
      }
      clients := Using(clients, sessions[token].client, Ran(command, now));
      return Ok;
    }

    /** One round of a closing loop that started at `before` and has closed `done`. */
    method CloseNext(ghost before: State, ghost done: set<Token>, token: Token)
      requires Safe(policy, before) && View() == Without(before, done)
      requires token in before.sessions && token !in done
      modifies this
      ensures View() == Without(before, done + {token})
    {
      WithoutIsSafe(policy, before, done);
      WithoutTwice(policy, before, done, token);
      CloseSession(token);
    }

    /** The loop shared by the eviction and by stop(): close every listed session. */
    method CloseAll(tokens: set<Token>)
      requires Valid() && tokens <= sessions.Keys
      modifies this
      ensures Valid() && View() == Without(old(View()), tokens)
    {
      ghost var before := View();
      WithoutNone(before);
      var rest := tokens;
      ghost var done := {};
      while rest != {}
        invariant done + rest == tokens && done !! rest
        invariant View() == Without(before, done)
        decreases rest
      {
        var token :| token in rest;
        CloseNext(before, done, token);
        rest := rest - {token};
        done := done + {token};
      }
      assert done == tokens;
      WithoutIsSafe(policy, before, tokens);
    }

    /** One pass of the eviction loop. */
    method Evict(now: real)
      requires Valid()
      modifies this
      ensures Valid() && View() == Step(policy, old(View()), Tick(now)).0
    {
      var expired := set t | t in sessions && now > sessions[t].expiresAt;
      CloseAll(expired);
    }

    /** stop() */
    method Shutdown()
      requires Valid()
      modifies this
      ensures Valid() && View() == Step(policy, old(View()), Stop).0
    {
      CloseAll(sessions.Keys);
    }
  }
}
