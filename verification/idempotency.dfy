/** Idempotency-Key handling (internal/idempotency/idempotency.go) over its table's
    statements (internal/db/idempotency.sql.go). Each statement is one atomic step. */
module Idempotency {
  import opened Options

  type Token = nat
  type Bytes = seq<bv8>

  datatype RowKey = RowKey(user: nat, key: string)

  /** What identifies a request: method, path and hash of the body. */
  datatype Fingerprint = Fingerprint(verb: string, path: string, hash: string)

  datatype Response = Response(status: int, contentType: Option<string>, body: Bytes)

  datatype Row = Row(fp: Fingerprint, completed: bool, token: Token, response: Option<Response>, createdAt: int, expiresAt: int)

  type Table = map<RowKey, Row>

  /** The Guard's configuration, in the database clock's unit. */
  datatype Config = Config(ttl: int, lease: int)

  // ----- the statements

  /** No row, an expired row, or a pending row whose lease went stale. */
  predicate CanReserve(rows: Table, k: RowKey, now: int, cfg: Config) {
    || k !in rows
    || rows[k].expiresAt <= now
    || (!rows[k].completed && rows[k].createdAt <= now - cfg.lease)
  }

  /** INSERT .. ON CONFLICT DO UPDATE */
  function AfterReserve(rows: Table, k: RowKey, fp: Fingerprint, token: Token, now: int, cfg: Config): Table {
    if CanReserve(rows, k, now, cfg) then rows[k := Row(fp, false, token, None, now, now + cfg.ttl)] else rows
  }

  /** SELECT of an unexpired row. */
  function Lookup(rows: Table, k: RowKey, now: int): Option<Row> {
    if k in rows && rows[k].expiresAt > now then Some(rows[k]) else None
  }

  predicate Owns(rows: Table, k: RowKey, token: Token) {
    k in rows && rows[k].token == token && !rows[k].completed
  }

  /** UPDATE .. SET state = 'completed' of one's own pending row. */
  function AfterComplete(rows: Table, k: RowKey, token: Token, response: Response): Table {
    if Owns(rows, k, token) then rows[k := rows[k].(completed := true, response := Some(response))] else rows
  }

  /** DELETE of one's own pending row. */
  function AfterRelease(rows: Table, k: RowKey, token: Token): Table {
    if Owns(rows, k, token) then rows - {k} else rows
  }

  /** DELETE of the expired rows. */
  function AfterSweep(rows: Table, now: int): Table {
    map k | k in rows && rows[k].expiresAt > now :: rows[k]
  }

  /** The response `replay` writes for a completed row. */
  function ReplayOf(row: Row): Response {
    if row.response.Some? then row.response.value else Response(200, None, [])
  }

  // ----- one request's progress

  const MAX_ATTEMPTS := 3

  datatype Result =
    | Ran(response: Response) | HandlerFailed | Replayed(response: Response)
    | KeyReused | InProgress | StoreError | Crashed

  datatype Pc =
    | Reserving(attempt: nat)
    | Reading(attempt: nat)
    | Running(token: Token, since: int)
    | Completing(token: Token, since: int, response: Response)
    | Releasing(token: Token, since: int)
    | Done(result: Result)

  /** What a call to the store or the handler came back with. */
  datatype Reply =
    | Reserved(token: Token, at: int)
    | Conflict
    | Found(row: Option<Row>)
    | Returned(response: Option<Response>)   // None: the handler panicked
    | Bookkept                               // complete or release, whatever its own outcome
    | StoreFailed

  /** The control flow of `Wrap` and `run`: where a request goes on which reply. */
  function Advance(pc: Pc, fp: Fingerprint, reply: Reply): Pc {
    match (pc, reply)
    case (Reserving(n), Reserved(token, at)) => Running(token, at)
    case (Reserving(n), Conflict) => Reading(n)
    case (Reserving(n), StoreFailed) => Done(StoreError)
    case (Reading(n), StoreFailed) => Done(StoreError)
    case (Reading(n), Found(None)) => if n + 1 < MAX_ATTEMPTS then Reserving(n + 1) else Done(InProgress)
    case (Reading(n), Found(Some(row))) =>
      if row.fp != fp then Done(KeyReused)
      else if !row.completed then Done(InProgress)
      else Done(Replayed(ReplayOf(row)))
    case (Running(token, since), Returned(r)) =>
      if r.Some? && r.value.status < 500 then Completing(token, since, r.value) else Releasing(token, since)
    case (Completing(token, since, response), Bookkept) => Done(Ran(response))
    case (Releasing(token, since), Bookkept) => Done(HandlerFailed)
    case _ => pc
  }

  /** Faults of one call to the store: none, an error before the statement took effect, or
      an error reported although it did. */
  datatype Fault = NoFault | Refused | Lost

  /** What a request at `pc` does to the table. */
  function Effect(pc: Pc, k: RowKey, fp: Fingerprint, token: Token, fault: Fault, rows: Table, now: int,
                  cfg: Config): Table {
    if fault == Refused then rows
    else match pc
      case Reserving(_) => AfterReserve(rows, k, fp, token, now, cfg)
      case Completing(own, _, response) => AfterComplete(rows, k, own, response)
      case Releasing(own, _) => AfterRelease(rows, k, own)
      case _ => rows
  }

  /** What it hears back. `outcome` is what its handler returns, None for a panic. */
  function Answer(pc: Pc, k: RowKey, token: Token, fault: Fault, rows: Table, now: int, cfg: Config,
                  outcome: Option<Response>): Reply {
    match pc
    case Reserving(_) =>
      if fault != NoFault then StoreFailed
      else if CanReserve(rows, k, now, cfg) then Reserved(token, now) else Conflict
    case Reading(_) => if fault != NoFault then StoreFailed else Found(Lookup(rows, k, now))
    case Running(_, _) => Returned(outcome)
    case _ => Bookkept
  }

  /** One step of a request: where it stood, the token and fault it met, the table around it. */
  datatype Move = Move(pc: Pc, token: Token, fault: Fault, now: int, rows: Table, after: Table, reply: Reply)

  function Follow(pc: Pc, fp: Fingerprint, moves: seq<Move>): Pc {
    if moves == [] then pc else Advance(Follow(pc, fp, moves[..|moves| - 1]), fp, moves[|moves| - 1].reply)
  }

  predicate Legal(m: Move, k: RowKey, fp: Fingerprint, cfg: Config, outcome: Option<Response>) {
    && m.after == Effect(m.pc, k, fp, m.token, m.fault, m.rows, m.now, cfg)
    && m.reply == Answer(m.pc, k, m.token, m.fault, m.rows, m.now, cfg, outcome)
  }

  /** The moves of one request from its start: each legal, and where the last one led. */
  predicate Progress(moves: seq<Move>, k: RowKey, fp: Fingerprint, cfg: Config, outcome: Option<Response>) {
    moves != [] ==>
      var m := moves[|moves| - 1];
      && Progress(moves[..|moves| - 1], k, fp, cfg, outcome)
      && m.pc == Follow(Reserving(0), fp, moves[..|moves| - 1])
      && Legal(m, k, fp, cfg, outcome)
  }

  /** The statements among the moves: every call but those refused, and not the handler's run. */
  function Statements(moves: seq<Move>): seq<Touch> {
    if moves == [] then []
    else
      var m := moves[|moves| - 1];
      Statements(moves[..|moves| - 1]) +
      if m.pc.Running? || m.fault == Refused then [] else [Touch(m.now, m.rows, m.after)]
  }

  lemma {:induction false} OneMore(moves: seq<Move>, m: Move, k: RowKey, fp: Fingerprint, cfg: Config, outcome: Option<Response>)
    requires Progress(moves, k, fp, cfg, outcome) && m.pc == Follow(Reserving(0), fp, moves) && Legal(m, k, fp, cfg, outcome)
    ensures Progress(moves + [m], k, fp, cfg, outcome)
    ensures Follow(Reserving(0), fp, moves + [m]) == Advance(m.pc, fp, m.reply)
    ensures Statements(moves + [m]) == Statements(moves) + if m.pc.Running? || m.fault == Refused then [] else [Touch(m.now, m.rows, m.after)]
  {
    assert (moves + [m])[..|moves|] == moves;
  }

  // ----- the table as the statements see it

  /** A statement as it ran: the clock, and the table before and after. */
  datatype Touch = Touch(now: int, rows: Table, after: Table)

  class Store {
    var rows: Table
    var now: int
    ghost var history: seq<Touch>   // one request's own statements

    constructor (now: int)
      ensures rows == map[] && this.now == now && history == []
    {
      rows, this.now, history := map[], now, [];
    }

    /** Everything other requests and the clock may do between two of one's own statements. */
    method Others()
      modifies this`rows, this`now
      ensures now >= old(now)
    {
    }

    method ReserveIdempotencyKey(k: RowKey, fp: Fingerprint, token: Token, cfg: Config) returns (reserved: bool)
      modifies this`rows, this`history
      ensures reserved <==> CanReserve(old(rows), k, now, cfg)
      ensures rows == AfterReserve(old(rows), k, fp, token, now, cfg)
      ensures history == old(history) + [Touch(now, old(rows), rows)]
    {
      history := history + [Touch(now, rows, AfterReserve(rows, k, fp, token, now, cfg))];
      if k !in rows {
        rows := rows[k := Row(fp, false, token, None, now, now + cfg.ttl)];
        return true;
      }
      var row := rows[k];
      if row.expiresAt <= now || (!row.completed && row.createdAt <= now - cfg.lease) {
        rows := rows[k := row.(fp := fp, completed := false, token := token, response := None,
                               createdAt := now, expiresAt := now + cfg.ttl)];
        return true;
      }
      return false;
    }

    method GetIdempotencyKey(k: RowKey) returns (row: Option<Row>)
      modifies this`history
      ensures row == Lookup(rows, k, now)
      ensures history == old(history) + [Touch(now, rows, rows)]
    {
      history := history + [Touch(now, rows, rows)];
      if k in rows && rows[k].expiresAt > now {
        return Some(rows[k]);
      }
      return None;
    }

    method CompleteIdempotencyKey(k: RowKey, token: Token, response: Response) returns (affected: nat)
      modifies this`rows, this`history
      ensures affected == if Owns(old(rows), k, token) then 1 else 0
      ensures rows == AfterComplete(old(rows), k, token, response)
      ensures history == old(history) + [Touch(now, old(rows), rows)]
    {
      history := history + [Touch(now, rows, AfterComplete(rows, k, token, response))];
      if k in rows && rows[k].token == token && !rows[k].completed {
        rows := rows[k := rows[k].(completed := true, response := Some(response))];
        return 1;
      }
      return 0;
    }

    method ReleaseIdempotencyKey(k: RowKey, token: Token)
      modifies this`rows, this`history
      ensures rows == AfterRelease(old(rows), k, token)
      ensures history == old(history) + [Touch(now, old(rows), rows)]
    {
      history := history + [Touch(now, rows, AfterRelease(rows, k, token))];
      if k in rows && rows[k].token == token && !rows[k].completed {
        rows := rows - {k};
      }
    }

    method DeleteExpiredIdempotencyKeys() returns (deleted: nat)
      modifies this`rows
      ensures rows == AfterSweep(old(rows), now)
      ensures forall k :: k in rows <==> k in old(rows) && now < old(rows)[k].expiresAt
      ensures forall k | k in rows :: rows[k] == old(rows)[k]
      ensures deleted == |old(rows)| - |rows|
    {
      var expired := set k | k in rows && rows[k].expiresAt <= now;
      deleted := |expired|;
      assert rows.Keys == (rows - expired).Keys + expired;
      assert |rows.Keys| == |(rows - expired).Keys| + |expired|;
      rows := rows - expired;
    }
  }

  // ----- the recorder

  /** The underlying http.ResponseWriter: the first status wins, writing implies 200. */
  class Wire {
    var status: int
    var body: Bytes

    constructor ()
      ensures status == 0 && body == []
    {
      status, body := 0, [];
    }

    method WriteHeader(code: int)
      modifies this
      ensures status == (if old(status) == 0 then code else old(status)) && body == old(body)
    {
      if status == 0 { status := code; }
    }

    method Write(b: Bytes)
      modifies this
      ensures status == (if old(status) == 0 then 200 else old(status)) && body == old(body) + b
    {
      if status == 0 { status := 200; }
      body := body + b;
    }
  }

  datatype Op = Header(code: int) | Body(bytes: Bytes)

  /** A handler run: its content type header, its writes, and whether it then panics. */
  datatype Script = Script(contentType: string, ops: seq<Op>, panics: bool)

  function StatusAfter(ops: seq<Op>): int {
    if ops == [] then 0
    else
      var s := StatusAfter(ops[..|ops| - 1]);
      if s != 0 then s
      else match ops[|ops| - 1]
        case Header(code) => code
        case Body(_) => 200
  }

  function BodyAfter(ops: seq<Op>): Bytes {
    if ops == [] then []
    else BodyAfter(ops[..|ops| - 1]) + match ops[|ops| - 1] case Header(_) => [] case Body(b) => b
  }

  /** The response a client of a non-panicking handler sees. */
  function SentBy(script: Script, sniff: Bytes -> string): Response {
    var status, body := StatusAfter(script.ops), BodyAfter(script.ops);
    var contentType := if script.contentType == "" && body != [] then sniff(body) else script.contentType;
    Response(if status == 0 then 200 else status, if contentType != "" then Some(contentType) else None, body)
  }

  /** `response` is what the client at the other end of `wire` got: its status, 200 if nothing set
      one, its body, and the content type the handler set or else the one sniffed from a body. */
  ghost predicate Shows(wire: Wire, contentType: string, sniff: Bytes -> string, response: Response)
    reads wire
  {
    && response.status == (if wire.status == 0 then 200 else wire.status)
    && response.body == wire.body
    && (contentType != "" ==> response.contentType == Some(contentType))
    && (contentType == "" ==>
          response.contentType == if wire.body == [] || sniff(wire.body) == "" then None else Some(sniff(wire.body)))
  }

  class Recorder {
    const wire: Wire
    var status: int
    var body: Bytes

    ghost predicate Valid()
      reads this, wire
    {
      wire.status == status && wire.body == body
    }

    constructor (wire: Wire)
      requires wire.status == 0 && wire.body == []
      ensures this.wire == wire && status == 0 && body == [] && Valid()
    {
      this.wire, status, body := wire, 0, [];
    }

    method WriteHeader(code: int)
      requires Valid()
      modifies this, wire
      ensures Valid() && status == (if old(status) == 0 then code else old(status)) && body == old(body)
    {
      if status == 0 { status := code; }
      wire.WriteHeader(code);
    }

    method Write(b: Bytes)
      requires Valid()
      modifies this, wire
      ensures Valid() && status == (if old(status) == 0 then 200 else old(status)) && body == old(body) + b
    {
      if status == 0 { status := 200; }
      body := body + b;
      wire.Write(b);
    }
  }

  /** `next.ServeHTTP(rec, r)` */
  method Serve(rec: Recorder, ops: seq<Op>)
    requires rec.Valid() && rec.status == 0 && rec.body == []
    modifies rec, rec.wire
    ensures rec.Valid() && rec.status == StatusAfter(ops) && rec.body == BodyAfter(ops)
  {
    for i := 0 to |ops|
      invariant rec.Valid() && rec.status == StatusAfter(ops[..i]) && rec.body == BodyAfter(ops[..i])
    {
      assert ops[..i + 1][..i] == ops[..i];
      match ops[i] {
        case Header(code) => rec.WriteHeader(code);
        case Body(b) => rec.Write(b);
      }
    }
    assert ops[..|ops|] == ops;
  }

  // ----- the guard

  /** What a handler behaving as `script` comes back with. */
  function Outcome(script: Script, sniff: Bytes -> string): Option<Response> {
    if script.panics then None else Some(SentBy(script, sniff))
  }

  class Guard {
    const store: Store
    const cfg: Config

    constructor (store: Store, cfg: Config)
      ensures this.store == store && this.cfg == cfg
    {
      this.store, this.cfg := store, cfg;
    }

    /** Serves one request whose handler behaves as `script`. `tokens` and the faults are the
        random tokens drawn and the faults met, by attempt. Its moves are legal steps from
        Reserving(0) to the result, its statements are exactly those the moves stand for, and
        the wire carries what the handler sent if it ran. */
    method Wrap(k: RowKey, fp: Fingerprint, script: Script, sniff: Bytes -> string,
                tokens: nat -> Token, reserveFaults: nat -> Fault, readFaults: nat -> Fault, endFault: Fault, wire: Wire)
      returns (result: Result, ghost moves: seq<Move>)
      requires wire.status == 0 && wire.body == []
      modifies store, wire
      ensures Progress(moves, k, fp, cfg, Outcome(script, sniff))
      ensures Follow(Reserving(0), fp, moves) == Done(result)
      ensures store.history == old(store.history) + Statements(moves)
      ensures wire.body == if result.Ran? || result.HandlerFailed? then BodyAfter(script.ops) else []
      ensures wire.status == if result.Ran? || result.HandlerFailed? then StatusAfter(script.ops) else 0
      ensures result.Ran? ==> !script.panics && Shows(wire, script.contentType, sniff, result.response) && result.response.status < 500
      ensures result.HandlerFailed? ==> script.panics || wire.status >= 500
    {
      moves := [];
      ghost var outcome := Outcome(script, sniff);
      assert Follow(Reserving(0), fp, moves) == Reserving(0) && Progress(moves, k, fp, cfg, outcome) && Statements(moves) == [];
      hide Follow;
      hide Progress;
      hide Statements;
      hide StatusAfter;
      hide BodyAfter;
      hide CanReserve;
      hide AfterReserve;
      hide SentBy;
      hide Outcome;
      hide ReplayOf;
      for attempt := 0 to MAX_ATTEMPTS
        invariant Progress(moves, k, fp, cfg, outcome)
        invariant Follow(Reserving(0), fp, moves) == if attempt < 3 then Reserving(attempt) else Done(InProgress)
        invariant store.history == old(store.history) + Statements(moves)
        invariant wire.status == 0 && wire.body == []
      {
        var token := tokens(attempt);
        var reserved;
        reserved, moves := Reserve(k, fp, token, reserveFaults(attempt), outcome, old(store.history), attempt, moves);
        if reserveFaults(attempt) != NoFault {
          return StoreError, moves;
        }
        if reserved {
          result, moves := Run(k, token, store.now, fp, script, sniff, endFault, wire, old(store.history), moves);
          return result, moves;
        }
        var existing;
        existing, moves := Read(k, fp, readFaults(attempt), outcome, old(store.history), attempt, moves);
        if readFaults(attempt) != NoFault {
          return StoreError, moves;
        }
        if existing.None? {
          continue;
        }
        if existing.value.fp != fp {
          return KeyReused, moves;
        }
        if !existing.value.completed {
          return InProgress, moves;
        }
        return Replayed(ReplayOf(existing.value)), moves;
      }
      return InProgress, moves;
    }

    /** The call that reserves, with the fault it meets. */
    method Reserve(k: RowKey, fp: Fingerprint, token: Token, fault: Fault, ghost outcome: Option<Response>,
                   ghost history: seq<Touch>, ghost attempt: nat, ghost before: seq<Move>)
      returns (reserved: bool, ghost moves: seq<Move>)
      requires Progress(before, k, fp, cfg, outcome) && Follow(Reserving(0), fp, before) == Reserving(attempt)
      requires store.history == history + Statements(before)
      modifies store
      ensures Progress(moves, k, fp, cfg, outcome) && store.history == history + Statements(moves)
      ensures Follow(Reserving(0), fp, moves) ==
                if fault != NoFault then Done(StoreError) else if reserved then Running(token, store.now) else Reading(attempt)
    {
      hide Follow;
      hide Progress;
      hide Statements;
      hide CanReserve;
      hide AfterReserve;
      store.Others();
      ghost var rows := store.rows;
      reserved := false;
      if fault != Refused {
        reserved := store.ReserveIdempotencyKey(k, fp, token, cfg);
      }
      moves := Record(k, fp, token, fault, rows, outcome, before);
    }

    /** The call that reads the row in the way, with the fault it meets. */
    method Read(k: RowKey, fp: Fingerprint, fault: Fault, ghost outcome: Option<Response>,
                ghost history: seq<Touch>, ghost attempt: nat, ghost before: seq<Move>)
      returns (existing: Option<Row>, ghost moves: seq<Move>)
      requires Progress(before, k, fp, cfg, outcome) && Follow(Reserving(0), fp, before) == Reading(attempt)
      requires store.history == history + Statements(before)
      modifies store
      ensures Progress(moves, k, fp, cfg, outcome) && store.history == history + Statements(moves)
      ensures Follow(Reserving(0), fp, moves) ==
                if fault != NoFault then Done(StoreError) else Advance(Reading(attempt), fp, Found(existing))
    {
      hide Follow;
      hide Progress;
      hide Statements;
      hide Lookup;
      store.Others();
      ghost var rows := store.rows;
      existing := None;
      if fault != Refused {
        existing := store.GetIdempotencyKey(k);
      }
      moves := Record(k, fp, 0, fault, rows, outcome, before);
    }

    /** The move just made, by the request standing where `moves` lead. */
    ghost method Record(k: RowKey, fp: Fingerprint, token: Token, fault: Fault, rows: Table,
                        outcome: Option<Response>, moves: seq<Move>)
      returns (r: seq<Move>)
      requires Progress(moves, k, fp, cfg, outcome)
      ensures var pc := Follow(Reserving(0), fp, moves);
              && Progress(r, k, fp, cfg, outcome)
              && Follow(Reserving(0), fp, r) == Advance(pc, fp, Answer(pc, k, token, fault, rows, store.now, cfg, outcome))
              && Statements(r) == Statements(moves) +
                   if pc.Running? || fault == Refused then []
                   else [Touch(store.now, rows, Effect(pc, k, fp, token, fault, rows, store.now, cfg))]
    {
      var pc := Follow(Reserving(0), fp, moves);
      var m := Move(pc, token, fault, store.now, rows, Effect(pc, k, fp, token, fault, rows, store.now, cfg),
                    Answer(pc, k, token, fault, rows, store.now, cfg, outcome));
      assert Legal(m, k, fp, cfg, outcome);
      hide *;
      OneMore(moves, m, k, fp, cfg, outcome);
      r := moves + [m];
    }

    /** Runs the handler under the recorder; the response is what its client is being sent. */
    method Recorded(script: Script, sniff: Bytes -> string, wire: Wire) returns (response: Response)
      requires wire.status == 0 && wire.body == []
      modifies wire
      ensures response == SentBy(script, sniff) && Shows(wire, script.contentType, sniff, response)
      ensures wire.body == BodyAfter(script.ops) && wire.status == StatusAfter(script.ops)
    {
      var rec := new Recorder(wire);
      Serve(rec, script.ops);
      var status := rec.status;
      if status == 0 {
        status := 200;
      }
      var contentType := script.contentType;
      if contentType == "" && |rec.body| > 0 {
        contentType := sniff(rec.body);
      }
      return Response(status, if contentType != "" then Some(contentType) else None, rec.body);
    }

    /** `Guard.run`: the handler, then completing the reservation or giving it back. */
    method Run(k: RowKey, token: Token, ghost since: int, ghost fp: Fingerprint, script: Script, sniff: Bytes -> string,
               endFault: Fault, wire: Wire, ghost history: seq<Touch>, ghost before: seq<Move>)
      returns (result: Result, ghost moves: seq<Move>)
      requires Progress(before, k, fp, cfg, Outcome(script, sniff))
      requires Follow(Reserving(0), fp, before) == Running(token, since)
      requires store.history == history + Statements(before)
      requires wire.status == 0 && wire.body == []
      modifies store, wire
      ensures Progress(moves, k, fp, cfg, Outcome(script, sniff))
      ensures Follow(Reserving(0), fp, moves) == Done(result) && (result.Ran? || result.HandlerFailed?)
      ensures store.history == history + Statements(moves)
      ensures wire.body == BodyAfter(script.ops) && wire.status == StatusAfter(script.ops)
      ensures result.Ran? ==> !script.panics && Shows(wire, script.contentType, sniff, result.response) && result.response.status < 500
      ensures result.HandlerFailed? ==> script.panics || wire.status >= 500
    {
      hide Follow;
      hide Progress;
      hide Statements;
      hide StatusAfter;
      hide BodyAfter;
      hide AfterComplete;
      hide AfterRelease;
      var keep := false;
      var response := Recorded(script, sniff, wire);
      hide SentBy;
      ghost var outcome := Outcome(script, sniff);
      moves := Record(k, fp, token, endFault, store.rows, outcome, before);
      store.Others();
      ghost var rows := store.rows;
      if !script.panics && response.status < 500 {
        keep := true;
        if endFault != Refused {
          var _ := store.CompleteIdempotencyKey(k, token, response);
        }
        result := Ran(response);
      }
      if !keep {
        if endFault != Refused {
          store.ReleaseIdempotencyKey(k, token);
        }
        result := HandlerFailed;
      }
      moves := Record(k, fp, token, endFault, rows, outcome, moves);
    }
  }
}
