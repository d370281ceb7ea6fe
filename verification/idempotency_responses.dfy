/** Which outcome of a handler is stored, and what that means for the requests that follow. */
module IdempotencyResponses {
  import opened Numbers
  import opened Options
  import opened Idempotency
  import opened IdempotencyRuns
  import opened IdempotencyTheorems

  // ----- what the handler's outcome decides

  /** A handler that returns below 500 goes on to store exactly its response; one that panics or
      returns 500 or above goes on to give the key back. Nothing else changes at that step. */
  lemma ReturnDecides(states: seq<System>, actions: seq<Action>, cfg: Config, i: nat)
    requires Run(states, actions, cfg) && i < |actions| && actions[i].Return?
    ensures var c, r, s, s' := actions[i].c, actions[i].response, states[i], states[i + 1];
            && c in s.clients && s.clients[c].pc.Running?
            && var cl := s.clients[c];
               && (r.Some? && r.value.status < 500 ==>
                     s' == s.(clients := s.clients[c := cl.(pc := Completing(cl.pc.token, cl.pc.since, r.value))]))
               && (r.None? || r.value.status >= 500 ==>
                     s' == s.(clients := s.clients[c := cl.(pc := Releasing(cl.pc.token, cl.pc.since))]))
  {
    assert Next(states[i], actions[i], states[i + 1], cfg);
  }

  predicate Ending(pc: Pc) { pc.Completing? || pc.Releasing? }

  lemma EndingStep(s: System, a: Action, s': System, cfg: Config, c: nat)
    requires Next(s, a, s', cfg) && c in s.clients && (Ending(s.clients[c].pc) || s.clients[c].pc.Done?)
    ensures c in s'.clients && s'.clients[c].key == s.clients[c].key && s'.clients[c].fp == s.clients[c].fp
    ensures s'.clients[c].pc == s.clients[c].pc || s'.clients[c].pc.Done?
  {
  }

  /** A request about to store its response or to give its key back does nothing else first. */
  lemma {:induction false} EndingStays(states: seq<System>, actions: seq<Action>, cfg: Config, i: nat, j: nat, c: nat)
    requires Run(states, actions, cfg) && i <= j < |states|
    requires c in states[i].clients && (Ending(states[i].clients[c].pc) || states[i].clients[c].pc.Done?)
    ensures c in states[j].clients
    ensures states[j].clients[c].key == states[i].clients[c].key && states[j].clients[c].fp == states[i].clients[c].fp
    ensures states[j].clients[c].pc == states[i].clients[c].pc || states[j].clients[c].pc.Done?
    decreases j
  {
    if i < j {
      EndingStays(states, actions, cfg, i, j - 1, c);
      assert Next(states[j - 1], actions[j - 1], states[j], cfg);
      hide *;
      EndingStep(states[j - 1], actions[j - 1], states[j], cfg, c);
    }
  }

  lemma LogStep(s: System, a: Action, s': System, cfg: Config)
    requires Next(s, a, s', cfg)
    ensures |s.log| <= |s'.log| && s'.log[..|s.log|] == s.log
  {
  }

  lemma {:induction false} LogGrows(states: seq<System>, actions: seq<Action>, cfg: Config, i: nat, j: nat)
    requires Run(states, actions, cfg) && i <= j < |states|
    ensures |states[i].log| <= |states[j].log| && states[j].log[..|states[i].log|] == states[i].log
    decreases j
  {
    if i < j {
      LogGrows(states, actions, cfg, i, j - 1);
      assert Next(states[j - 1], actions[j - 1], states[j], cfg);
      hide *;
      LogStep(states[j - 1], actions[j - 1], states[j], cfg);
      var early, late := states[i].log, states[j].log;
      assert late[..|early|] == late[..|states[j - 1].log|][..|early|];
    }
  }

  // ----- a response is kept

  /** The row that stores `r` for the reservation made at `since` under `token`. */
  predicate Holding(rows: Table, key: RowKey, fp: Fingerprint, token: Token, since: int, r: Response, cfg: Config) {
    key in rows && rows[key] == Row(fp, true, token, Some(r), since, since + cfg.ttl)
  }

  /** A handler returned `r` below 500 and its request gets to store it, the statement taking
      effect: if the row is still its own, which it is at the latest until min(lease, TTL) after
      the reservation, the row and the log then hold exactly `r`. */
  lemma ResponseStored(states: seq<System>, actions: seq<Action>, cfg: Config, i: nat, j: nat, r: Response)
    requires Run(states, actions, cfg) && i < j < |actions|
    requires actions[i].Return? && actions[i].response == Some(r) && r.status < 500
    requires actions[j].Complete? && actions[j].c == actions[i].c && actions[j].fault != Refused
    requires var c, s := actions[i].c, states[j];
             && c in states[i].clients && states[i].clients[c].pc.Running?
             && var cl := states[i].clients[c];
                || Owns(s.rows, cl.key, cl.pc.token)
                || s.now < cl.pc.since + Min(cfg.lease, cfg.ttl)
    ensures var cl := states[i].clients[actions[i].c];
            && Stored(cl.key, cl.pc.token, cl.pc.since, cl.fp, r) in states[j + 1].log
            && Holding(states[j + 1].rows, cl.key, cl.fp, cl.pc.token, cl.pc.since, r, cfg)
  {
    var c := actions[i].c;
    var cl := states[i].clients[c];
    ReturnDecides(states, actions, cfg, i);
    EndingStays(states, actions, cfg, i + 1, j, c);
    assert Next(states[j], actions[j], states[j + 1], cfg);
    RunKeepsInv(states, actions, cfg);
    assert Inv(states[j], cfg);
    hide Run;
    Stores(states[j], actions[j], states[j + 1], cfg, cl.pc.token, cl.pc.since, r);
  }

  lemma Stores(s: System, a: Action, s': System, cfg: Config, token: Token, since: int, r: Response)
    requires Inv(s, cfg) && Next(s, a, s', cfg) && a.Complete? && a.fault != Refused
    requires a.c in s.clients && s.clients[a.c].pc == Completing(token, since, r)
    requires Owns(s.rows, s.clients[a.c].key, token) || s.now < since + Min(cfg.lease, cfg.ttl)
    ensures var cl := s.clients[a.c];
            && Stored(cl.key, token, since, cl.fp, r) in s'.log
            && Holding(s'.rows, cl.key, cl.fp, token, since, r, cfg)
  {
    var cl := s.clients[a.c];
    assert Holds(s, cl, cfg);
    assert s'.log[|s.log|] == Stored(cl.key, token, since, cl.fp, r);
  }

  /** While such a row is within its TTL nobody runs a handler for the key: an attempt to reserve
      goes on to read, and a read is answered with exactly `r` if method, path and body hash are
      the stored request's, and refused otherwise. */
  lemma HoldingAnswers(s: System, a: Action, s': System, cfg: Config, key: RowKey, fp: Fingerprint, token: Token,
                       since: int, r: Response)
    requires Next(s, a, s', cfg) && Holding(s.rows, key, fp, token, since, r, cfg) && s.now < since + cfg.ttl
    ensures a.Reserve? && s.clients[a.c].key == key ==>
              s'.rows == s.rows && s'.log == s.log && (s'.clients[a.c].pc.Reading? || s'.clients[a.c].pc == Done(StoreError))
    ensures a.Read? && !a.failed && s.clients[a.c].key == key ==>
              s'.clients[a.c].pc == Done(if s.clients[a.c].fp == fp then Replayed(r) else KeyReused)
  {
  }

  /** What follows: the client of a request whose handler returned `r` below 500, that still owned
      its row and stored it, may send the request again at will. Until a TTL after the
      reservation the handler does not run again, and the answer is `r`. */
  lemma ResponseKept(states: seq<System>, actions: seq<Action>, cfg: Config, i: nat, j: nat, r: Response, n: nat)
    requires Run(states, actions, cfg) && i < j < n < |actions|
    requires actions[i].Return? && actions[i].response == Some(r) && r.status < 500
    requires actions[j].Complete? && actions[j].c == actions[i].c && actions[j].fault != Refused
    requires actions[i].c in states[i].clients && states[i].clients[actions[i].c].pc.Running?
    requires var cl := states[i].clients[actions[i].c];
             Owns(states[j].rows, cl.key, cl.pc.token) || states[j].now < cl.pc.since + Min(cfg.lease, cfg.ttl)
    ensures var cl := states[i].clients[actions[i].c];
            forall m | |states[j + 1].log| <= m < |states[n].log| ::
              states[n].log[m].Started? && states[n].log[m].key == cl.key ==> states[n].log[m].at >= cl.pc.since + cfg.ttl
    ensures var cl, d, s, s' := states[i].clients[actions[i].c], actions[n], states[n], states[n + 1];
            s.now < cl.pc.since + cfg.ttl ==>
              && (d.Reserve? && s.clients[d.c].key == cl.key ==>
                    s'.log == s.log && (s'.clients[d.c].pc.Reading? || s'.clients[d.c].pc == Done(StoreError)))
              && (d.Read? && !d.failed && s.clients[d.c].key == cl.key ==>
                    s'.clients[d.c].pc == Done(if s.clients[d.c].fp == cl.fp then Replayed(r) else KeyReused))
  {
    var cl := states[i].clients[actions[i].c];
    ResponseStored(states, actions, cfg, i, j, r);
    LogGrows(states, actions, cfg, j + 1, n);
    assert Next(states[n], actions[n], states[n + 1], cfg);
    hide Next;
    var log := states[n].log;
    var at :| 0 <= at < |states[j + 1].log| && states[j + 1].log[at] == Stored(cl.key, cl.pc.token, cl.pc.since, cl.fp, r);
    assert log[..|states[j + 1].log|][at] == log[at];
    assert Run(states[..n + 1], actions[..n], cfg);
    forall m | |states[j + 1].log| <= m < |log| && log[m].Started? && log[m].key == cl.key
      ensures log[m].at >= cl.pc.since + cfg.ttl
    {
      NoRerunWithinTTL(states[..n + 1], actions[..n], cfg, at, m);
    }
    if states[n].now < cl.pc.since + cfg.ttl {
      CompletedRowFrozen(states, actions, cfg, j + 1, n, cl.key);
      hide Run;
      HoldingAnswers(states[n], actions[n], states[n + 1], cfg, cl.key, cl.fp, cl.pc.token, cl.pc.since, r);
    }
  }

  // ----- a failure is not

  /** A handler that panics or returns 500 or above never has a response stored under its
      reservation, in any state of the run. */
  lemma FailureNeverStored(states: seq<System>, actions: seq<Action>, cfg: Config, i: nat)
    requires Run(states, actions, cfg) && i < |actions| && actions[i].Return?
    requires actions[i].response.None? || actions[i].response.value.status >= 500
    ensures var c := actions[i].c;
            && c in states[i].clients && states[i].clients[c].pc.Running?
            && forall e | e in states[|actions|].log && e.Stored? :: e.token != states[i].clients[c].pc.token
  {
    ReturnDecides(states, actions, cfg, i);
    RunAnswers(states, actions, cfg);
    var c := actions[i].c;
    var token := states[i].clients[c].pc.token;
    forall e | e in states[|actions|].log && e.Stored?
      ensures e.token != token
    {
      if e.token == token {
        assert Answered(states, actions, e.key, e.fp, e.token, e.since, e.response);
        var n :| 0 <= n < |actions| && AnsweredAt(states[n], actions[n], e.key, e.fp, e.token, e.since, e.response);
        var j := HandlerHasReservation(states, actions, cfg, i, c);
        var m := HandlerHasReservation(states, actions, cfg, n, actions[n].c);
        hide Run;
        assert actions[n].c == c;
        ReturnsOnce(states, actions, cfg, i, n);
      }
    }
  }

  lemma ReturnsOnce(states: seq<System>, actions: seq<Action>, cfg: Config, i: nat, n: nat)
    requires Run(states, actions, cfg) && i < |actions| && n < |actions|
    requires actions[i].Return? && actions[n].Return? && actions[i].c == actions[n].c
    ensures i == n
  {
    var c := actions[i].c;
    ReturnDecides(states, actions, cfg, i);
    ReturnDecides(states, actions, cfg, n);
    if i < n { EndingStays(states, actions, cfg, i + 1, n, c); }
    if n < i { EndingStays(states, actions, cfg, n + 1, i, c); }
  }
}
