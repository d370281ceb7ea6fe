/** What the calls of one request to the table make of its result. */
module IdempotencyAnswers {
  import opened Options
  import opened Idempotency

  // ----- what one call met

  /** A live row stood in the way of the reservation. */
  predicate Blocked(m: Move, k: RowKey, cfg: Config) {
    && m.fault == NoFault && m.after == m.rows && k in m.rows && m.now < m.rows[k].expiresAt
    && (m.rows[k].completed || m.now < m.rows[k].createdAt + cfg.lease)
  }

  /** When the request came to read it, the row was gone or expired. */
  predicate Vanished(m: Move, k: RowKey) {
    m.fault == NoFault && m.after == m.rows && (k in m.rows ==> m.rows[k].expiresAt <= m.now)
  }

  predicate Met(m: Move, k: RowKey) {
    m.fault == NoFault && m.after == m.rows && k in m.rows && m.now < m.rows[k].expiresAt
  }

  /** The reservation came through: no row, an expired one or a stale pending one gave way. */
  predicate Took(m: Move, k: RowKey, fp: Fingerprint, cfg: Config) {
    && m.fault == NoFault
    && (k in m.rows && m.now < m.rows[k].expiresAt ==> !m.rows[k].completed && m.rows[k].createdAt + cfg.lease <= m.now)
    && m.after == m.rows[k := Row(fp, false, m.token, None, m.now, m.now + cfg.ttl)]
  }

  /** The last call, which stores the response or frees the key, but only if the row is its own. */
  predicate Closed(m: Move, k: RowKey, token: Token, kept: Option<Response>) {
    var own := k in m.rows && m.rows[k].token == token && !m.rows[k].completed;
    m.after == if m.fault == Refused || !own then m.rows
               else if kept.Some? then m.rows[k := m.rows[k].(completed := true, response := kept)]
               else map x | x in m.rows && x != k :: m.rows[x]
  }

  /** The first `n` attempts each met a row that then vanished. */
  predicate Tried(moves: seq<Move>, k: RowKey, cfg: Config, n: nat) {
    && n <= 3 && |moves| >= 2 * n
    && forall a | 0 <= a < n :: Blocked(moves[2 * a], k, cfg) && Vanished(moves[2 * a + 1], k)
  }

  // ----- the result

  /** How `result` comes about, when `n` attempts were in vain. */
  predicate Explained(moves: seq<Move>, k: RowKey, fp: Fingerprint, cfg: Config, outcome: Option<Response>, result: Result, n: nat) {
    var at, read, end := 2 * n, 2 * n + 1, 2 * n + 2;
    match result
    case InProgress =>
      || n == 3
      || (|moves| > read && Blocked(moves[at], k, cfg) && Met(moves[read], k)
          && moves[read].rows[k].fp == fp && !moves[read].rows[k].completed)
    case KeyReused =>
      n < 3 && |moves| > read && Blocked(moves[at], k, cfg) && Met(moves[read], k) && moves[read].rows[k].fp != fp
    case Replayed(r) =>
      && n < 3 && |moves| > read && Blocked(moves[at], k, cfg) && Met(moves[read], k)
      && moves[read].rows[k].fp == fp && moves[read].rows[k].completed
      && r == match moves[read].rows[k].response { case Some(stored) => stored case None => Response(200, None, []) }
    case StoreError =>
      n < 3 && |moves| > at && (moves[at].fault != NoFault || (|moves| > read && Blocked(moves[at], k, cfg) && moves[read].fault != NoFault))
    case Ran(r) =>
      && n < 3 && |moves| > end && Took(moves[at], k, fp, cfg) && moves[read].after == moves[read].rows
      && outcome == Some(r) && r.status < 500 && Closed(moves[end], k, moves[at].token, Some(r))
    case HandlerFailed =>
      && n < 3 && |moves| > end && Took(moves[at], k, fp, cfg) && moves[read].after == moves[read].rows
      && (outcome.None? || outcome.value.status >= 500) && Closed(moves[end], k, moves[at].token, None)
    case Crashed => false
  }

  /** Where a request stands, by the calls it has made. */
  predicate Stands(moves: seq<Move>, k: RowKey, fp: Fingerprint, cfg: Config, outcome: Option<Response>, pc: Pc, n: nat) {
    && Tried(moves, k, cfg, n)
    && match pc
       case Reserving(a) => a == n < 3 && |moves| == 2 * n
       case Reading(a) => a == n < 3 && |moves| == 2 * n + 1 && Blocked(moves[2 * n], k, cfg)
       case Running(token, since) => n < 3 && |moves| == 2 * n + 1 && Held(moves, k, fp, cfg, token, since, n)
       case Completing(token, since, r) =>
         && n < 3 && |moves| == 2 * n + 2 && Held(moves, k, fp, cfg, token, since, n)
         && moves[2 * n + 1].after == moves[2 * n + 1].rows && outcome == Some(r) && r.status < 500
       case Releasing(token, since) =>
         && n < 3 && |moves| == 2 * n + 2 && Held(moves, k, fp, cfg, token, since, n)
         && moves[2 * n + 1].after == moves[2 * n + 1].rows && (outcome.None? || outcome.value.status >= 500)
       case Done(result) => Explained(moves, k, fp, cfg, outcome, result, n)
  }

  predicate Held(moves: seq<Move>, k: RowKey, fp: Fingerprint, cfg: Config, token: Token, since: int, n: nat) {
    |moves| > 2 * n && Took(moves[2 * n], k, fp, cfg) && moves[2 * n].token == token && moves[2 * n].now == since
  }

  /** Every execution of `Guard.Wrap` that comes to an end comes to the result its calls explain:
      a reservation that comes through runs the handler once, a row in the way keeps it from
      running, and after three rows that vanished the request is told to wait. */
  lemma ResultMeans(moves: seq<Move>, k: RowKey, fp: Fingerprint, cfg: Config, outcome: Option<Response>, result: Result)
    returns (n: nat)
    requires Progress(moves, k, fp, cfg, outcome) && Follow(Reserving(0), fp, moves) == Done(result)
    ensures Tried(moves, k, cfg, n) && Explained(moves, k, fp, cfg, outcome, result, n)
  {
    n := StandsSomewhere(moves, k, fp, cfg, outcome);
  }

  lemma {:induction false} StandsSomewhere(moves: seq<Move>, k: RowKey, fp: Fingerprint, cfg: Config, outcome: Option<Response>)
    returns (n: nat)
    requires Progress(moves, k, fp, cfg, outcome)
    ensures Stands(moves, k, fp, cfg, outcome, Follow(Reserving(0), fp, moves), n)
    decreases |moves|
  {
    n := 0;
    if moves != [] {
      var last := |moves| - 1;
      var m := moves[last];
      n := StandsSomewhere(moves[..last], k, fp, cfg, outcome);
      assert moves == moves[..last] + [m];
      assert Legal(m, k, fp, cfg, outcome);
      hide Follow;
      hide Progress;
      n := StandsNext(moves[..last], m, k, fp, cfg, outcome, n);
    }
  }

  lemma StandsNext(moves: seq<Move>, m: Move, k: RowKey, fp: Fingerprint, cfg: Config, outcome: Option<Response>, n: nat)
    returns (n': nat)
    requires Stands(moves, k, fp, cfg, outcome, m.pc, n) && Legal(m, k, fp, cfg, outcome)
    ensures Stands(moves + [m], k, fp, cfg, outcome, Advance(m.pc, fp, m.reply), n')
  {
    n' := n;
    TriedGrows(moves, m, k, cfg, n);
    match m.pc
    case Reserving(_) =>
    case Reading(_) => n' := ReadNext(moves, m, k, fp, cfg, outcome, n);
    case Running(_, _) =>
    case Completing(_, _, _) =>
    case Releasing(_, _) =>
    case Done(_) =>
  }

  lemma TriedGrows(moves: seq<Move>, m: Move, k: RowKey, cfg: Config, n: nat)
    requires Tried(moves, k, cfg, n)
    ensures Tried(moves + [m], k, cfg, n)
  {
    hide Blocked;
    hide Vanished;
  }

  lemma ReadNext(moves: seq<Move>, m: Move, k: RowKey, fp: Fingerprint, cfg: Config, outcome: Option<Response>, n: nat)
    returns (n': nat)
    requires m.pc == Reading(n) && Stands(moves, k, fp, cfg, outcome, m.pc, n) && Legal(m, k, fp, cfg, outcome)
    ensures Stands(moves + [m], k, fp, cfg, outcome, Advance(m.pc, fp, m.reply), n')
  {
    n' := n;
    var all := moves + [m];
    TriedGrows(moves, m, k, cfg, n);
    if m.reply == Found(None) {
      n' := n + 1;
      assert Vanished(m, k);
      hide Blocked;
      hide Vanished;
      forall a | 0 <= a < n'
        ensures Blocked(all[2 * a], k, cfg) && Vanished(all[2 * a + 1], k)
      {
        if a == n { assert all[2 * a] == moves[2 * n] && all[2 * a + 1] == m; }
      }
    }
  }
}
