/** Many requests over one table and one clock: what holds over every interleaving of their
    statements. Each client moves by `Advance`, the control flow `Guard.Wrap` is proved to
    follow, on replies computed from the table at that moment. */
module IdempotencyRuns {
  import opened Numbers
  import opened Options
  import opened Idempotency

  datatype Client = Client(key: RowKey, fp: Fingerprint, pc: Pc)

  /** History: reservations obtained (a handler starts) and responses stored. */
  datatype Event =
    | Started(key: RowKey, token: Token, at: int)
    | Stored(key: RowKey, token: Token, since: int, fp: Fingerprint, response: Response)

  datatype System = System(now: int, rows: Table, clients: map<nat, Client>, used: set<Token>, log: seq<Event>)

  datatype Action =
    | Tick(delta: nat)
    | Arrive(c: nat, key: RowKey, fp: Fingerprint)
    | Reserve(c: nat, token: Token, fault: Fault)
    | Read(c: nat, failed: bool)
    | Return(c: nat, response: Option<Response>)
    | Complete(c: nat, fault: Fault)
    | Release(c: nat, fault: Fault)
    | Crash(c: nat)
    | Sweep

  function Moved(s: System, c: nat, reply: Reply): map<nat, Client>
    requires c in s.clients
  {
    var cl := s.clients[c];
    s.clients[c := cl.(pc := Advance(cl.pc, cl.fp, reply))]
  }

  function Init(now: int): System { System(now, map[], map[], {}, []) }

  /** One atomic step. Reservations draw a fresh lock token. */
  ghost predicate Next(s: System, a: Action, s': System, cfg: Config) {
    match a
    case Tick(delta) => s' == s.(now := s.now + delta)
    case Arrive(c, key, fp) =>
      c !in s.clients && s' == s.(clients := s.clients[c := Client(key, fp, Reserving(0))])
    case Reserve(c, token, fault) =>
      && c in s.clients && s.clients[c].pc.Reserving? && token !in s.used
      && var k, fp := s.clients[c].key, s.clients[c].fp;
         var ok := CanReserve(s.rows, k, s.now, cfg);
         var rows := if fault == Refused then s.rows else AfterReserve(s.rows, k, fp, token, s.now, cfg);
         var reply := if fault != NoFault then StoreFailed else if ok then Reserved(token, s.now) else Conflict;
         s' == System(s.now, rows, Moved(s, c, reply), s.used + {token},
                      if reply.Reserved? then s.log + [Started(k, token, s.now)] else s.log)
    case Read(c, failed) =>
      && c in s.clients && s.clients[c].pc.Reading?
      && s' == s.(clients := Moved(s, c, if failed then StoreFailed else Found(Lookup(s.rows, s.clients[c].key, s.now))))
    case Return(c, response) =>
      && c in s.clients && s.clients[c].pc.Running?
      && s' == s.(clients := Moved(s, c, Returned(response)))
    case Complete(c, fault) =>
      && c in s.clients && s.clients[c].pc.Completing?
      && var k, pc := s.clients[c].key, s.clients[c].pc;
         var effective := fault != Refused && Owns(s.rows, k, pc.token);
         s' == s.(rows := if fault == Refused then s.rows else AfterComplete(s.rows, k, pc.token, pc.response),
                  clients := Moved(s, c, Bookkept),
                  log := if effective then s.log + [Stored(k, pc.token, pc.since, s.clients[c].fp, pc.response)] else s.log)
    case Release(c, fault) =>
      && c in s.clients && s.clients[c].pc.Releasing?
      && s' == s.(rows := if fault == Refused then s.rows else AfterRelease(s.rows, s.clients[c].key, s.clients[c].pc.token),
                  clients := Moved(s, c, Bookkept))
    case Crash(c) =>
      c in s.clients && s' == s.(clients := s.clients[c := s.clients[c].(pc := Done(Crashed))])
    case Sweep => s' == s.(rows := AfterSweep(s.rows, s.now))
  }

  ghost predicate Run(states: seq<System>, actions: seq<Action>, cfg: Config) {
    && |states| == |actions| + 1
    && states[0] == Init(states[0].now)
    && forall i | 0 <= i < |actions| :: Next(states[i], actions[i], states[i + 1], cfg)
  }

  // ----- the invariant

  /** The handler of `cl` has started and its reservation is not yet completed or released. */
  predicate Active(cl: Client) { cl.pc.Running? || cl.pc.Completing? || cl.pc.Releasing? }

  function TokenOf(cl: Client): Token
    requires Active(cl)
  {
    cl.pc.token
  }

  function SinceOf(cl: Client): int
    requires Active(cl)
  {
    cl.pc.since
  }

  function Window(cfg: Config): int { Min(cfg.ttl, cfg.lease) }

  /** Rows carry used tokens, expire a TTL after creation, and are not from the future. */
  ghost predicate RowsSane(s: System, cfg: Config) {
    forall k | k in s.rows ::
      && s.rows[k].token in s.used && s.rows[k].createdAt <= s.now
      && s.rows[k].expiresAt == s.rows[k].createdAt + cfg.ttl
  }

  /** An active request still holds its pending row, or its window has passed. */
  ghost predicate Holds(s: System, cl: Client, cfg: Config)
    requires Active(cl)
  {
    && TokenOf(cl) in s.used && SinceOf(cl) <= s.now
    && (cl.key in s.rows && s.rows[cl.key].token == TokenOf(cl) ==>
          !s.rows[cl.key].completed && s.rows[cl.key].createdAt == SinceOf(cl) && s.rows[cl.key].fp == cl.fp)
    && (!(cl.key in s.rows && s.rows[cl.key].token == TokenOf(cl)) ==> s.now >= SinceOf(cl) + Window(cfg))
  }

  ghost predicate ClientsHold(s: System, cfg: Config) {
    forall c | c in s.clients && Active(s.clients[c]) :: Holds(s, s.clients[c], cfg)
  }

  /** Active requests have different tokens, and for one key their starts are a window apart. */
  ghost predicate Apart(a: Client, b: Client, cfg: Config)
    requires Active(a) && Active(b)
  {
    && TokenOf(a) != TokenOf(b)
    && (a.key == b.key ==> SinceOf(a) + Window(cfg) <= SinceOf(b) || SinceOf(b) + Window(cfg) <= SinceOf(a))
  }

  ghost predicate ClientsApart(s: System, cfg: Config) {
    forall c, d | c in s.clients && d in s.clients && c != d && Active(s.clients[c]) && Active(s.clients[d]) ::
      Apart(s.clients[c], s.clients[d], cfg)
  }

  ghost predicate Logged(log: seq<Event>, k: RowKey, row: Row)
    requires row.response.Some?
  {
    Stored(k, row.token, row.createdAt, row.fp, row.response.value) in log
  }

  /** A completed row is the record of a logged completion. */
  ghost predicate RowsLogged(s: System) {
    forall k | k in s.rows && s.rows[k].completed :: s.rows[k].response.Some? && Logged(s.log, k, s.rows[k])
  }

  /** A stored response stays in its row until the TTL is over. */
  ghost predicate Kept(s: System, e: Event, cfg: Config)
    requires e.Stored?
  {
    || (e.key in s.rows && s.rows[e.key] == Row(e.fp, true, e.token, Some(e.response), e.since, e.since + cfg.ttl))
    || s.now >= e.since + cfg.ttl
  }

  ghost predicate StoredKept(s: System, cfg: Config) {
    forall i | 0 <= i < |s.log| && s.log[i].Stored? :: Kept(s, s.log[i], cfg)
  }

  /** After a stored response no handler for its key starts before the TTL is over. */
  ghost predicate NoRerun(log: seq<Event>, cfg: Config) {
    forall i, j | 0 <= i < j < |log| && log[i].Stored? && log[j].Started? && log[i].key == log[j].key ::
      log[j].at >= log[i].since + cfg.ttl
  }

  /** Every active request was logged as started; so was every stored response, before it. */
  ghost predicate StartsLogged(s: System) {
    && (forall c | c in s.clients && Active(s.clients[c]) ::
          Started(s.clients[c].key, TokenOf(s.clients[c]), SinceOf(s.clients[c])) in s.log)
    && (forall e | e in s.log && e.Stored? :: Started(e.key, e.token, e.since) in s.log)
    && (forall e | e in s.log :: e.token in s.used)
  }

  /** A replayed answer is a stored one, for the same key and fingerprint. */
  ghost predicate ReplayTrue(cl: Client, log: seq<Event>) {
    cl.pc.Done? && cl.pc.result.Replayed? ==>
      exists e | e in log && e.Stored? :: e.key == cl.key && e.fp == cl.fp && e.response == cl.pc.result.response
  }

  ghost predicate ReplaysTrue(s: System) {
    forall c | c in s.clients :: ReplayTrue(s.clients[c], s.log)
  }

  ghost predicate Inv(s: System, cfg: Config) {
    && RowsSane(s, cfg) && ClientsHold(s, cfg) && ClientsApart(s, cfg) && RowsLogged(s)
    && StoredKept(s, cfg) && NoRerun(s.log, cfg) && StartsLogged(s) && ReplaysTrue(s)
  }

  // ----- each step keeps it

  lemma InitInv(now: int, cfg: Config)
    ensures Inv(Init(now), cfg)
  {
  }

  lemma TickKeeps(s: System, delta: nat, cfg: Config)
    requires Inv(s, cfg)
    ensures Inv(s.(now := s.now + delta), cfg)
  {
  }

  /** Moving one client without touching rows, token set or log, to an active state only
      when it already was active with the same token. */
  lemma MoveKeeps(s: System, c: nat, cl: Client, s': System, cfg: Config)
    requires Inv(s, cfg) && s' == s.(clients := s.clients[c := cl])
    requires Active(cl) ==>
               c in s.clients && Active(s.clients[c]) && cl.key == s.clients[c].key && cl.fp == s.clients[c].fp
               && TokenOf(cl) == TokenOf(s.clients[c]) && SinceOf(cl) == SinceOf(s.clients[c])
    requires ReplayTrue(cl, s.log)
    ensures Inv(s', cfg)
  {
    forall d | d in s'.clients && Active(s'.clients[d])
      ensures Holds(s', s'.clients[d], cfg)
    {
      assert Holds(s, s.clients[d], cfg);
    }
    hide Holds;
    hide Kept;
    hide ReplayTrue;
    assert StoredKept(s', cfg) by {
      forall i | 0 <= i < |s'.log| && s'.log[i].Stored?
        ensures Kept(s', s'.log[i], cfg)
      {
        KeptByRows(s, s', s'.log[i], cfg);
      }
    }
  }

  lemma KeptByRows(s: System, s': System, e: Event, cfg: Config)
    requires e.Stored? && Kept(s, e, cfg) && s'.rows == s.rows && s'.now == s.now
    ensures Kept(s', e, cfg)
  {
  }

  lemma SweepKeeps(s: System, s': System, cfg: Config)
    requires Inv(s, cfg) && s' == s.(rows := AfterSweep(s.rows, s.now))
    ensures Inv(s', cfg)
  {
    forall c | c in s'.clients && Active(s'.clients[c])
      ensures Holds(s', s'.clients[c], cfg)
    {
      assert Holds(s, s.clients[c], cfg);
    }
    forall i | 0 <= i < |s'.log| && s'.log[i].Stored?
      ensures Kept(s', s'.log[i], cfg)
    {
      assert Kept(s, s.log[i], cfg);
    }
  }

  /** Inserting or taking over a row, before the client hears of it. */
  lemma TakeRowKeeps(s: System, k: RowKey, fp: Fingerprint, token: Token, s': System, cfg: Config)
    requires Inv(s, cfg) && CanReserve(s.rows, k, s.now, cfg) && token !in s.used
    requires s' == s.(rows := AfterReserve(s.rows, k, fp, token, s.now, cfg), used := s.used + {token})
    ensures Inv(s', cfg)
  {
    forall c | c in s'.clients && Active(s'.clients[c])
      ensures Holds(s', s'.clients[c], cfg)
    {
      assert Holds(s, s.clients[c], cfg);
    }
    forall i | 0 <= i < |s'.log| && s'.log[i].Stored?
      ensures Kept(s', s'.log[i], cfg)
    {
      assert Kept(s, s.log[i], cfg);
    }
  }

  /** The client of the row just taken starts its handler. */
  lemma StartKeeps(s: System, c: nat, token: Token, s': System, cfg: Config)
    requires Inv(s, cfg) && c in s.clients && !Active(s.clients[c])
    requires var k, fp := s.clients[c].key, s.clients[c].fp;
             && k in s.rows && s.rows[k] == Row(fp, false, token, None, s.now, s.now + cfg.ttl) && token in s.used
             && s' == s.(clients := s.clients[c := Client(k, fp, Running(token, s.now))], log := s.log + [Started(k, token, s.now)])
    requires forall d | d in s.clients && Active(s.clients[d]) :: TokenOf(s.clients[d]) != token
    ensures Inv(s', cfg)
  {
    var k := s.clients[c].key;
    forall d | d in s'.clients && Active(s'.clients[d])
      ensures Holds(s', s'.clients[d], cfg)
      ensures d != c ==> Apart(s'.clients[d], s'.clients[c], cfg)
    {
      if d != c { assert Holds(s, s.clients[d], cfg); }
    }
    StartIsLate(s, k, cfg);
    LogStart(s, s', cfg);
    forall i | 0 <= i < |s'.log| && s'.log[i].Stored?
      ensures Kept(s', s'.log[i], cfg)
    {
      assert Kept(s, s.log[i], cfg);
    }
    forall d | d in s'.clients
      ensures ReplayTrue(s'.clients[d], s'.log)
    {
      if d != c { ReplayGrows(s.clients[d], s.log, s'.log[|s.log|]); }
    }
  }

  lemma ReplayGrows(cl: Client, log: seq<Event>, e: Event)
    requires ReplayTrue(cl, log)
    ensures ReplayTrue(cl, log + [e])
  {
    if cl.pc.Done? && cl.pc.result.Replayed? {
      var x :| x in log && x.Stored? && x.key == cl.key && x.fp == cl.fp && x.response == cl.pc.result.response;
      assert x in log + [e];
    }
  }

  lemma StartIsLate(s: System, k: RowKey, cfg: Config)
    requires StoredKept(s, cfg) && k in s.rows && !s.rows[k].completed
    ensures forall i | 0 <= i < |s.log| && s.log[i].Stored? && s.log[i].key == k :: s.now >= s.log[i].since + cfg.ttl
  {
    forall i | 0 <= i < |s.log| && s.log[i].Stored? && s.log[i].key == k
      ensures s.now >= s.log[i].since + cfg.ttl
    {
      assert Kept(s, s.log[i], cfg);
    }
  }

  lemma LogStart(s: System, s': System, cfg: Config)
    requires NoRerun(s.log, cfg) && |s'.log| == |s.log| + 1 && s'.log[..|s.log|] == s.log
    requires var e := s'.log[|s.log|];
             && e.Started? && e.at == s.now
             && forall i | 0 <= i < |s.log| && s.log[i].Stored? && s.log[i].key == e.key :: s.now >= s.log[i].since + cfg.ttl
    ensures NoRerun(s'.log, cfg)
  {
    forall i, j | 0 <= i < j < |s'.log| && s'.log[i].Stored? && s'.log[j].Started? && s'.log[i].key == s'.log[j].key
      ensures s'.log[j].at >= s'.log[i].since + cfg.ttl
    {
      assert s'.log[i] == s.log[i];
      if j < |s.log| { assert s'.log[j] == s.log[j]; }
    }
  }

  /** Storing one's response in one's own pending row. */
  lemma StoreKeeps(s: System, c: nat, s': System, cfg: Config)
    requires Inv(s, cfg) && c in s.clients && s.clients[c].pc.Completing?
    requires Owns(s.rows, s.clients[c].key, s.clients[c].pc.token)
    requires var cl := s.clients[c];
             s' == s.(rows := AfterComplete(s.rows, cl.key, cl.pc.token, cl.pc.response),
                      clients := s.clients[c := cl.(pc := Done(Ran(cl.pc.response)))],
                      log := s.log + [Stored(cl.key, cl.pc.token, cl.pc.since, cl.fp, cl.pc.response)])
    ensures Inv(s', cfg)
  {
    var cl := s.clients[c];
    var e := Stored(cl.key, cl.pc.token, cl.pc.since, cl.fp, cl.pc.response);
    assert Holds(s, cl, cfg);
    assert s.rows[cl.key].expiresAt == cl.pc.since + cfg.ttl;
    assert Kept(s', e, cfg);
    StartIsLate(s, cl.key, cfg);
    forall d | d in s'.clients && Active(s'.clients[d])
      ensures Holds(s', s'.clients[d], cfg)
    {
      assert Holds(s, s.clients[d], cfg) && Apart(s.clients[d], cl, cfg);
    }
    hide Holds;
    hide Apart;
    StoreKeepsStored(s, s', e, cfg);
    forall k | k in s'.rows && s'.rows[k].completed
      ensures s'.rows[k].response.Some? && Logged(s'.log, k, s'.rows[k])
    {
      if k == cl.key {
        assert s'.log[|s.log|] == e;
      } else {
        assert Logged(s.log, k, s.rows[k]);
      }
    }
    forall d | d in s'.clients
      ensures ReplayTrue(s'.clients[d], s'.log)
    {
      if d != c { ReplayGrows(s.clients[d], s.log, e); }
    }
  }

  lemma StoreKeepsStored(s: System, s': System, e: Event, cfg: Config)
    requires StoredKept(s, cfg) && e.Stored? && Kept(s', e, cfg) && s'.log == s.log + [e] && s'.now == s.now
    requires e.key in s.rows && !s.rows[e.key].completed
    requires forall k | k in s.rows && k != e.key :: k in s'.rows && s'.rows[k] == s.rows[k]
    ensures StoredKept(s', cfg)
  {
    forall i | 0 <= i < |s'.log| && s'.log[i].Stored?
      ensures Kept(s', s'.log[i], cfg)
    {
      if i < |s.log| {
        assert s'.log[i] == s.log[i];
        assert Kept(s, s.log[i], cfg);
      }
    }
  }

  /** Deleting one's own pending row. */
  lemma FreeKeeps(s: System, k: RowKey, token: Token, s': System, cfg: Config)
    requires Inv(s, cfg) && Owns(s.rows, k, token)
    requires forall d | d in s.clients && Active(s.clients[d]) :: TokenOf(s.clients[d]) != token
    requires s' == s.(rows := AfterRelease(s.rows, k, token))
    ensures Inv(s', cfg)
  {
    forall d | d in s'.clients && Active(s'.clients[d])
      ensures Holds(s', s'.clients[d], cfg)
    {
      assert Holds(s, s.clients[d], cfg);
    }
    forall i | 0 <= i < |s'.log| && s'.log[i].Stored?
      ensures Kept(s', s'.log[i], cfg)
    {
      assert Kept(s, s.log[i], cfg);
    }
  }

  lemma DrawKeeps(s: System, token: Token, s': System, cfg: Config)
    requires Inv(s, cfg) && s' == s.(used := s.used + {token})
    ensures Inv(s', cfg)
  {
    forall c | c in s'.clients && Active(s'.clients[c])
      ensures Holds(s', s'.clients[c], cfg)
    {
      assert Holds(s, s.clients[c], cfg);
    }
    forall i | 0 <= i < |s'.log| && s'.log[i].Stored?
      ensures Kept(s', s'.log[i], cfg)
    {
      assert Kept(s, s.log[i], cfg);
    }
  }

  lemma ReserveKeeps(s: System, c: nat, token: Token, fault: Fault, s': System, cfg: Config)
    requires Inv(s, cfg) && Next(s, Reserve(c, token, fault), s', cfg)
    ensures Inv(s', cfg)
  {
    var cl := s.clients[c];
    assert forall d | d in s.clients && Active(s.clients[d]) :: TokenOf(s.clients[d]) != token by {
      forall d | d in s.clients && Active(s.clients[d])
        ensures TokenOf(s.clients[d]) != token
      {
        assert Holds(s, s.clients[d], cfg);
      }
    }
    var drawn := s.(rows := s'.rows, used := s'.used);
    if CanReserve(s.rows, cl.key, s.now, cfg) && fault != Refused {
      TakeRowKeeps(s, cl.key, cl.fp, token, drawn, cfg);
      if fault == NoFault {
        hide Inv;
        StartKeeps(drawn, c, token, s', cfg);
      } else {
        hide *;
        FailedReserve(drawn, c, StoreFailed, s', cfg);
      }
    } else {
      DrawKeeps(s, token, drawn, cfg);
      hide *;
      FailedReserve(drawn, c, if fault != NoFault then StoreFailed else Conflict, s', cfg);
    }
  }

  lemma FailedReserve(s: System, c: nat, reply: Reply, s': System, cfg: Config)
    requires Inv(s, cfg) && c in s.clients && s.clients[c].pc.Reserving? && (reply == StoreFailed || reply == Conflict)
    requires s' == s.(clients := Moved(s, c, reply))
    ensures Inv(s', cfg)
  {
    hide Inv;
    MoveKeeps(s, c, s'.clients[c], s', cfg);
  }

  lemma ReadKeeps(s: System, c: nat, failed: bool, s': System, cfg: Config)
    requires Inv(s, cfg) && Next(s, Read(c, failed), s', cfg)
    ensures Inv(s', cfg)
  {
    var cl := s'.clients[c];
    assert ReplayTrue(cl, s.log) by {
      if cl.pc.Done? && cl.pc.result.Replayed? {
        assert Logged(s.log, cl.key, s.rows[cl.key]);
      }
    }
    hide Inv;
    MoveKeeps(s, c, cl, s', cfg);
  }

  lemma CompleteKeeps(s: System, c: nat, fault: Fault, s': System, cfg: Config)
    requires Inv(s, cfg) && Next(s, Complete(c, fault), s', cfg)
    ensures Inv(s', cfg)
  {
    hide Inv;
    if fault != Refused && Owns(s.rows, s.clients[c].key, s.clients[c].pc.token) {
      StoreKeeps(s, c, s', cfg);
    } else {
      assert s' == s.(clients := s.clients[c := s'.clients[c]]);
      MoveKeeps(s, c, s'.clients[c], s', cfg);
    }
  }

  lemma ReleaseKeeps(s: System, c: nat, fault: Fault, s': System, cfg: Config)
    requires Inv(s, cfg) && Next(s, Release(c, fault), s', cfg)
    ensures Inv(s', cfg)
  {
    var token := s.clients[c].pc.token;
    var moved := s.(clients := s'.clients);
    assert forall d | d in moved.clients && Active(moved.clients[d]) :: TokenOf(moved.clients[d]) != token by {
      forall d | d in moved.clients && Active(moved.clients[d])
        ensures TokenOf(moved.clients[d]) != token
      {
        assert Apart(s.clients[d], s.clients[c], cfg);
      }
    }
    hide Inv;
    MoveKeeps(s, c, s'.clients[c], moved, cfg);
    if fault != Refused && Owns(s.rows, s.clients[c].key, token) {
      FreeKeeps(moved, s.clients[c].key, token, s', cfg);
    } else {
      assert s' == moved;
    }
  }

  /** Every step of every interleaving keeps the invariant. */
  lemma NextKeeps(s: System, a: Action, s': System, cfg: Config)
    requires Inv(s, cfg) && Next(s, a, s', cfg)
    ensures Inv(s', cfg)
  {
    hide Inv;
    hide CanReserve;
    hide AfterReserve;
    match a
    case Tick(delta) => TickKeeps(s, delta, cfg);
    case Arrive(c, key, fp) => MoveKeeps(s, c, Client(key, fp, Reserving(0)), s', cfg);
    case Reserve(c, token, fault) => ReserveKeeps(s, c, token, fault, s', cfg);
    case Read(c, failed) => ReadKeeps(s, c, failed, s', cfg);
    case Return(c, response) => MoveKeeps(s, c, s'.clients[c], s', cfg);
    case Complete(c, fault) => CompleteKeeps(s, c, fault, s', cfg);
    case Release(c, fault) => ReleaseKeeps(s, c, fault, s', cfg);
    case Crash(c) => MoveKeeps(s, c, s'.clients[c], s', cfg);
    case Sweep => SweepKeeps(s, s', cfg);
  }

  lemma {:induction false} RunKeepsInv(states: seq<System>, actions: seq<Action>, cfg: Config)
    requires Run(states, actions, cfg)
    ensures forall i | 0 <= i < |states| :: Inv(states[i], cfg)
    decreases |actions|
  {
    if actions == [] {
      InitInv(states[0].now, cfg);
    } else {
      var n := |actions| - 1;
      RunKeepsInv(states[..n + 1], actions[..n], cfg);
      assert Inv(states[..n + 1][n], cfg);
      NextKeeps(states[n], actions[n], states[n + 1], cfg);
      hide *;
      forall i | 0 <= i < |states|
        ensures Inv(states[i], cfg)
      {
        if i <= n { assert states[..n + 1][i] == states[i]; }
      }
    }
  }
}
