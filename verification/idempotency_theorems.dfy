/** What every run of the Idempotency-Key protocol guarantees. */
module IdempotencyTheorems {
  import opened Numbers
  import opened Options
  import opened Idempotency
  import opened IdempotencyRuns

  // ----- starting a handler

  /** The step at which client `c` reserved, under the token and at the time it carries. */
  ghost predicate ReservedAt(s: System, a: Action, s': System, c: nat, cl: Client, cfg: Config)
    requires Active(cl)
  {
    && a == Action.Reserve(c, TokenOf(cl), NoFault) && TokenOf(cl) !in s.used
    && CanReserve(s.rows, cl.key, s.now, cfg) && s.now == SinceOf(cl)
    && cl.key in s'.rows
    && s'.rows[cl.key] == Row(cl.fp, false, TokenOf(cl), None, s.now, s.now + cfg.ttl)
  }

  lemma ReservesOrKeeps(s: System, a: Action, s': System, cfg: Config, c: nat)
    requires Next(s, a, s', cfg) && c in s'.clients && Active(s'.clients[c])
    ensures ReservedAt(s, a, s', c, s'.clients[c], cfg) || (c in s.clients && Active(s.clients[c]) && SameLease(s.clients[c], s'.clients[c]))
  {
    match a
    case Tick(_) =>
    case Arrive(_, _, _) =>
    case Reserve(_, _, _) =>
    case Read(_, _) =>
    case Return(_, _) =>
    case Complete(_, _) =>
    case Release(_, _) =>
    case Crash(_) =>
    case Sweep =>
  }

  predicate SameLease(a: Client, b: Client)
    requires Active(a) && Active(b)
  {
    a.key == b.key && a.fp == b.fp && TokenOf(a) == TokenOf(b) && SinceOf(a) == SinceOf(b)
  }

  lemma DrawnGrows(s: System, a: Action, s': System, cfg: Config)
    requires Next(s, a, s', cfg)
    ensures s.used <= s'.used
    ensures a.Reserve? ==> a.token !in s.used && a.token in s'.used
  {
  }

  lemma {:induction false} DrawnOnce(states: seq<System>, actions: seq<Action>, cfg: Config, i: nat, j: nat)
    requires Run(states, actions, cfg) && i < j < |states| && actions[i].Reserve?
    ensures actions[i].token in states[j].used
    ensures j < |actions| && actions[j].Reserve? ==> actions[j].token != actions[i].token
    decreases j
  {
    assert Next(states[j - 1], actions[j - 1], states[j], cfg);
    assert j < |actions| ==> Next(states[j], actions[j], states[j + 1], cfg);
    hide Run;
    hide Next;
    DrawnGrows(states[j - 1], actions[j - 1], states[j], cfg);
    if j < |actions| { DrawnGrows(states[j], actions[j], states[j + 1], cfg); }
    if i < j - 1 { DrawnOnce(states, actions, cfg, i, j - 1); }
  }

  /** No handler runs without a reservation of its own: every request that is running, completing
      or releasing reserved at just one earlier step, when no live row stood in the way, under a
      token that no other step of the run draws. */
  lemma HandlerHasReservation(states: seq<System>, actions: seq<Action>, cfg: Config, i: nat, c: nat) returns (j: nat)
    requires Run(states, actions, cfg) && i < |states|
    requires c in states[i].clients && Active(states[i].clients[c])
    ensures j < i && ReservedAt(states[j], actions[j], states[j + 1], c, states[i].clients[c], cfg)
    ensures forall n | 0 <= n < |actions| && actions[n].Reserve? :: actions[n].token == TokenOf(states[i].clients[c]) ==> n == j
  {
    j := Reservation(states, actions, cfg, i, c);
    forall n | 0 <= n < |actions| && actions[n].Reserve?
      ensures actions[n].token == TokenOf(states[i].clients[c]) ==> n == j
    {
      hide Run;
      if n < j { DrawnOnce(states, actions, cfg, n, j); }
      if j < n { DrawnOnce(states, actions, cfg, j, n); }
    }
  }

  lemma {:induction false} Reservation(states: seq<System>, actions: seq<Action>, cfg: Config, i: nat, c: nat) returns (j: nat)
    requires Run(states, actions, cfg) && i < |states|
    requires c in states[i].clients && Active(states[i].clients[c])
    ensures j < i && ReservedAt(states[j], actions[j], states[j + 1], c, states[i].clients[c], cfg)
    decreases i
  {
    assert i > 0 ==> Next(states[i - 1], actions[i - 1], states[i], cfg);
    assert states[0].clients == map[];
    hide Run;
    hide Next;
    if i > 0 {
      ReservesOrKeeps(states[i - 1], actions[i - 1], states[i], cfg, c);
      if ReservedAt(states[i - 1], actions[i - 1], states[i], c, states[i].clients[c], cfg) {
        j := i - 1;
      } else {
        j := Reservation(states, actions, cfg, i - 1, c);
      }
    }
  }

  /** Two requests for one key are in their handlers at the same time only when their
      reservations are at least min(lease, TTL) apart. */
  lemma OverlapOnlyAfterWindow(states: seq<System>, actions: seq<Action>, cfg: Config, i: nat, c: nat, d: nat)
    requires Run(states, actions, cfg) && i < |states|
    requires var cs := states[i].clients;
             c in cs && d in cs && c != d && Active(cs[c]) && Active(cs[d]) && cs[c].key == cs[d].key
    ensures var cs := states[i].clients;
            && TokenOf(cs[c]) != TokenOf(cs[d])
            && (SinceOf(cs[d]) - SinceOf(cs[c]) >= Min(cfg.lease, cfg.ttl)
                || SinceOf(cs[c]) - SinceOf(cs[d]) >= Min(cfg.lease, cfg.ttl))
  {
    RunKeepsInv(states, actions, cfg);
    assert Inv(states[i], cfg);
    assert Apart(states[i].clients[c], states[i].clients[d], cfg);
  }

  /** Once a response is stored, no handler for its key starts before the reservation's TTL is over. */
  lemma NoRerunWithinTTL(states: seq<System>, actions: seq<Action>, cfg: Config, i: nat, j: nat)
    requires Run(states, actions, cfg)
    requires var log := states[|actions|].log;
             i < j < |log| && log[i].Stored? && log[j].Started? && log[i].key == log[j].key
    ensures states[|actions|].log[j].at >= states[|actions|].log[i].since + cfg.ttl
  {
    RunKeepsInv(states, actions, cfg);
    assert Inv(states[|actions|], cfg);
  }

  // ----- rows

  lemma ClockAdvances(s: System, a: Action, s': System, cfg: Config)
    requires Next(s, a, s', cfg)
    ensures s.now <= s'.now
  {
  }

  lemma StepKeepsCompleted(s: System, a: Action, s': System, cfg: Config, k: RowKey)
    requires Next(s, a, s', cfg)
    requires k in s.rows && s.rows[k].completed && s.now < s.rows[k].expiresAt
    ensures k in s'.rows && s'.rows[k] == s.rows[k]
  {
  }

  /** A completed row is frozen until it expires. */
  lemma {:induction false} CompletedRowFrozen(states: seq<System>, actions: seq<Action>, cfg: Config, i: nat,
                                              j: nat, k: RowKey)
    requires Run(states, actions, cfg) && i <= j < |states|
    requires k in states[i].rows && states[i].rows[k].completed
    requires states[j].now < states[i].rows[k].expiresAt
    ensures k in states[j].rows && states[j].rows[k] == states[i].rows[k]
    decreases j
  {
    if i < j {
      assert Next(states[j - 1], actions[j - 1], states[j], cfg);
      hide *;
      ClockAdvances(states[j - 1], actions[j - 1], states[j], cfg);
      CompletedRowFrozen(states, actions, cfg, i, j - 1, k);
      StepKeepsCompleted(states[j - 1], actions[j - 1], states[j], cfg, k);
    }
  }

  /** The row of `k`, if any, belongs to another reservation. */
  predicate Lost(rows: Table, k: RowKey, token: Token) { k in rows ==> rows[k].token != token }

  lemma StepKeepsLost(s: System, a: Action, s': System, cfg: Config, k: RowKey, token: Token)
    requires Next(s, a, s', cfg) && token in s.used && Lost(s.rows, k, token)
    ensures token in s'.used && Lost(s'.rows, k, token)
  {
  }

  /** A reservation that was taken over, swept or released never comes back: from then on
      neither completing nor releasing under its token changes the table or stores a response. */
  lemma {:induction false} LostLeaseIsHarmless(states: seq<System>, actions: seq<Action>, cfg: Config, i: nat,
                                               j: nat, c: nat)
    requires Run(states, actions, cfg) && i <= j < |actions|
    requires c in states[i].clients && Active(states[i].clients[c])
    requires Lost(states[i].rows, states[i].clients[c].key, TokenOf(states[i].clients[c]))
    requires c in states[j].clients && Active(states[j].clients[c]) && states[j].clients[c].key == states[i].clients[c].key
    requires TokenOf(states[j].clients[c]) == TokenOf(states[i].clients[c])
    ensures Lost(states[j].rows, states[i].clients[c].key, TokenOf(states[i].clients[c]))
    ensures (actions[j].Complete? || actions[j].Release?) && actions[j].c == c ==>
              states[j + 1].rows == states[j].rows && states[j + 1].log == states[j].log
  {
    RunKeepsInv(states, actions, cfg);
    assert Inv(states[i], cfg);
    assert Holds(states[i], states[i].clients[c], cfg);
    hide Inv;
    hide Holds;
    StaysLost(states, actions, cfg, i, j, states[i].clients[c].key, TokenOf(states[i].clients[c]));
    assert Next(states[j], actions[j], states[j + 1], cfg);
    hide Run;
  }

  lemma {:induction false} StaysLost(states: seq<System>, actions: seq<Action>, cfg: Config, i: nat, j: nat,
                                     k: RowKey, token: Token)
    requires Run(states, actions, cfg) && i <= j < |states|
    requires token in states[i].used && Lost(states[i].rows, k, token)
    ensures token in states[j].used && Lost(states[j].rows, k, token)
    decreases j
  {
    if i < j {
      StaysLost(states, actions, cfg, i, j - 1, k, token);
      assert Next(states[j - 1], actions[j - 1], states[j], cfg);
      hide *;
      StepKeepsLost(states[j - 1], actions[j - 1], states[j], cfg, k, token);
    }
  }

  /** A failed handler (a panic or a status of 500 and above) that still holds its lease frees
      the key: the next request may reserve it at once. */
  lemma FailureFreesKey(states: seq<System>, actions: seq<Action>, cfg: Config, i: nat, now: int)
    requires Run(states, actions, cfg) && i < |actions|
    requires actions[i].Release? && actions[i].fault == NoFault
    requires actions[i].c in states[i].clients && Active(states[i].clients[actions[i].c])
    requires !Lost(states[i].rows, states[i].clients[actions[i].c].key, TokenOf(states[i].clients[actions[i].c]))
    ensures CanReserve(states[i + 1].rows, states[i].clients[actions[i].c].key, now, cfg)
  {
    RunKeepsInv(states, actions, cfg);
    assert Next(states[i], actions[i], states[i + 1], cfg);
    assert Inv(states[i], cfg);
    assert Holds(states[i], states[i].clients[actions[i].c], cfg);
  }

  // ----- answers without running

  /** An execution of `Guard.Wrap` whose first two calls meet the same live row is refused when it
      differs from the row's request, told to wait while that is pending, and otherwise answered
      from the row; it never reaches its handler. */
  lemma {:induction false} LiveRowAnswers(moves: seq<Move>, k: RowKey, fp: Fingerprint, cfg: Config, outcome: Option<Response>)
    requires Progress(moves, k, fp, cfg, outcome) && |moves| == 2 && moves[0].fault == moves[1].fault == NoFault
    requires moves[0].rows == moves[1].rows && moves[0].now == moves[1].now
    requires !CanReserve(moves[0].rows, k, moves[0].now, cfg)
    ensures var row, end := moves[0].rows[k], Follow(Reserving(0), fp, moves);
            && (end == Done(KeyReused) <==> row.fp != fp)
            && (end == Done(InProgress) <==> row.fp == fp && !row.completed)
            && (end == Done(Replayed(ReplayOf(row))) <==> row.fp == fp && row.completed)
  {
    assert moves[..1][..0] == [] && moves[..1][0] == moves[0];
    assert Progress(moves[..1], k, fp, cfg, outcome);
    assert Follow(Reserving(0), fp, moves[..1]) == Reading(0);
  }

  /** A key is blocked for just two reasons: a response stored less than a TTL after its
      reservation, or a pending reservation younger than min(lease, TTL). A crashed or cut-off
      request therefore blocks its key no longer than that. */
  lemma BlockedKeyHasReason(states: seq<System>, actions: seq<Action>, cfg: Config, i: nat, k: RowKey)
    requires Run(states, actions, cfg) && i < |states|
    ensures var s := states[i];
            !CanReserve(s.rows, k, s.now, cfg) <==>
              k in s.rows && s.now < s.rows[k].createdAt + if s.rows[k].completed then cfg.ttl else Min(cfg.lease, cfg.ttl)
    ensures var s := states[i];
            !CanReserve(s.rows, k, s.now, cfg) && s.rows[k].completed ==>
              exists e | e in s.log && e.Stored? :: e.key == k && e.since == s.rows[k].createdAt && s.now < e.since + cfg.ttl
  {
    RunKeepsInv(states, actions, cfg);
    var s := states[i];
    assert Inv(s, cfg);
    if k in s.rows && s.rows[k].completed {
      assert Logged(s.log, k, s.rows[k]);
    }
  }

  // ----- where replays come from

  /** At some step of the run the handler holding `token` returned `response`. */
  ghost predicate Answered(states: seq<System>, actions: seq<Action>, key: RowKey, fp: Fingerprint,
                           token: Token, since: int, response: Response)
    requires |states| == |actions| + 1
  {
    exists i | 0 <= i < |actions| :: AnsweredAt(states[i], actions[i], key, fp, token, since, response)
  }

  ghost predicate AnsweredAt(s: System, a: Action, key: RowKey, fp: Fingerprint, token: Token, since: int,
                             response: Response) {
    && a.Return? && a.response == Some(response) && response.status < 500
    && a.c in s.clients && s.clients[a.c] == Client(key, fp, Running(token, since))
  }

  ghost predicate AllAnswered(states: seq<System>, actions: seq<Action>)
    requires |states| == |actions| + 1
  {
    var s := states[|actions|];
    && (forall c | c in s.clients && s.clients[c].pc.Completing? ::
          Answered(states, actions, s.clients[c].key, s.clients[c].fp, s.clients[c].pc.token, s.clients[c].pc.since, s.clients[c].pc.response))
    && (forall e | e in s.log && e.Stored? :: Answered(states, actions, e.key, e.fp, e.token, e.since, e.response))
  }

  lemma AnsweredGrows(states: seq<System>, actions: seq<Action>, key: RowKey, fp: Fingerprint, token: Token,
                      since: int, response: Response)
    requires |states| == |actions| + 1 && actions != []
    requires Answered(states[..|actions|], actions[..|actions| - 1], key, fp, token, since, response)
    ensures Answered(states, actions, key, fp, token, since, response)
  {
    var n := |actions| - 1;
    var i :| 0 <= i < n && AnsweredAt(states[..n + 1][i], actions[..n][i], key, fp, token, since, response);
    assert AnsweredAt(states[i], actions[i], key, fp, token, since, response);
  }

  lemma {:induction false} RunAnswers(states: seq<System>, actions: seq<Action>, cfg: Config)
    requires Run(states, actions, cfg)
    ensures AllAnswered(states, actions)
    decreases |actions|
  {
    if actions != [] {
      var n := |actions| - 1;
      var before, done := states[..n + 1], actions[..n];
      RunAnswers(before, done, cfg);
      var s, a, s' := states[n], actions[n], states[n + 1];
      assert before[n] == s;
      assert Next(s, a, s', cfg);
      hide Answered;
      forall c | c in s'.clients && s'.clients[c].pc.Completing?
        ensures var cl := s'.clients[c]; Answered(states, actions, cl.key, cl.fp, cl.pc.token, cl.pc.since, cl.pc.response)
      {
        CompletingAnswered(states, actions, cfg, c);
      }
      forall e | e in s'.log && e.Stored?
        ensures Answered(states, actions, e.key, e.fp, e.token, e.since, e.response)
      {
        StoredAnswered(states, actions, cfg, e);
      }
    }
  }

  lemma CompletingAnswered(states: seq<System>, actions: seq<Action>, cfg: Config, c: nat)
    requires actions != [] && Run(states, actions, cfg)
    requires AllAnswered(states[..|actions|], actions[..|actions| - 1])
    requires c in states[|actions|].clients && states[|actions|].clients[c].pc.Completing?
    ensures var cl := states[|actions|].clients[c];
            Answered(states, actions, cl.key, cl.fp, cl.pc.token, cl.pc.since, cl.pc.response)
  {
    var n := |actions| - 1;
    var s, a, cl := states[n], actions[n], states[n + 1].clients[c];
    assert Next(s, a, states[n + 1], cfg);
    if c in s.clients && s.clients[c] == cl {
      assert states[..n + 1][n] == s;
      hide Next;
      AnsweredGrows(states, actions, cl.key, cl.fp, cl.pc.token, cl.pc.since, cl.pc.response);
    } else {
      assert AnsweredAt(s, a, cl.key, cl.fp, cl.pc.token, cl.pc.since, cl.pc.response);
    }
  }

  lemma StoredAnswered(states: seq<System>, actions: seq<Action>, cfg: Config, e: Event)
    requires actions != [] && Run(states, actions, cfg)
    requires AllAnswered(states[..|actions|], actions[..|actions| - 1])
    requires e in states[|actions|].log && e.Stored?
    ensures Answered(states, actions, e.key, e.fp, e.token, e.since, e.response)
  {
    var n := |actions| - 1;
    assert Next(states[n], actions[n], states[n + 1], cfg);
    assert states[..n + 1][n] == states[n];
    if e !in states[n].log {
      assert actions[n].Complete?;
    }
    AnsweredGrows(states, actions, e.key, e.fp, e.token, e.since, e.response);
  }

  /** A replay carries exactly the status, content type and body some handler run of this key
      returned and stored, and goes only to a request with the same method, path and body hash. */
  lemma ReplaysAreStored(states: seq<System>, actions: seq<Action>, cfg: Config,
                         c: nat) returns (i: nat, token: Token, since: int)
    requires Run(states, actions, cfg)
    requires c in states[|actions|].clients
    requires states[|actions|].clients[c].pc.Done? && states[|actions|].clients[c].pc.result.Replayed?
    ensures i < |actions|
    ensures var cl := states[|actions|].clients[c];
            && AnsweredAt(states[i], actions[i], cl.key, cl.fp, token, since, cl.pc.result.response)
            && Stored(cl.key, token, since, cl.fp, cl.pc.result.response) in states[|actions|].log
            && Started(cl.key, token, since) in states[|actions|].log
  {
    var s := states[|actions|];
    var cl := s.clients[c];
    RunKeepsInv(states, actions, cfg);
    assert Inv(s, cfg);
    RunAnswers(states, actions, cfg);
    assert ReplayTrue(cl, s.log);
    var e :| e in s.log && e.Stored? && e.key == cl.key && e.fp == cl.fp && e.response == cl.pc.result.response;
    assert Answered(states, actions, e.key, e.fp, e.token, e.since, e.response);
    i :| 0 <= i < |actions| && AnsweredAt(states[i], actions[i], e.key, e.fp, e.token, e.since, e.response);
    token, since := e.token, e.since;
  }
}
