/** A whole execution of `Guard.Wrap`, with whatever other requests, the sweeper and the clock do
    between its statements, is a run of the system. */
module IdempotencyRefinement {
  import opened Options
  import opened Idempotency
  import opened IdempotencyRuns
  import opened IdempotencyTheorems

  // ----- one move

  /** The action of client `c` a move stands for. */
  function ActionOf(c: nat, m: Move, outcome: Option<Response>): Action {
    match m.pc
    case Reserving(_) => Action.Reserve(c, m.token, m.fault)
    case Reading(_) => Action.Read(c, m.fault != NoFault)
    case Running(_, _) => Return(c, outcome)
    case Completing(_, _, _) => Complete(c, m.fault)
    case Releasing(_, _) => Release(c, m.fault)
    case Done(_) => Tick(0)
  }

  function AfterMove(s: System, c: nat, m: Move): System
    requires c in s.clients
  {
    var k, fp := s.clients[c].key, s.clients[c].fp;
    var stored := m.fault != Refused && m.pc.Completing? && Owns(s.rows, k, m.pc.token);
    System(s.now, m.after, Moved(s, c, m.reply),
           if m.pc.Reserving? then s.used + {m.token} else s.used,
           if m.reply.Reserved? then s.log + [Started(k, m.token, s.now)]
           else if stored then s.log + [Stored(k, m.pc.token, m.pc.since, fp, m.pc.response)]
           else s.log)
  }

  /** The system stands where the move was made. */
  ghost predicate At(s: System, c: nat, m: Move, k: RowKey, fp: Fingerprint) {
    && c in s.clients && s.clients[c] == Client(k, fp, m.pc)
    && s.rows == m.rows && s.now == m.now
    && (m.pc.Reserving? ==> m.token !in s.used)
  }

  /** Every legal move `Guard.Wrap` makes on the table is one atomic step of the system, with
      the same effect on the table and the same next place for the request. */
  lemma MovesAreSteps(s: System, c: nat, k: RowKey, fp: Fingerprint, cfg: Config, m: Move, outcome: Option<Response>)
    requires Legal(m, k, fp, cfg, outcome) && At(s, c, m, k, fp)
    ensures var s' := AfterMove(s, c, m);
            && Next(s, ActionOf(c, m, outcome), s', cfg)
            && s'.rows == m.after && s'.now == s.now
            && s'.clients == s.clients[c := Client(k, fp, Advance(m.pc, fp, m.reply))]
  {
    hide CanReserve;
    hide AfterReserve;
    hide AfterComplete;
    hide AfterRelease;
    hide Lookup;
    if m.pc.Done? {
      assert s.clients[c := s.clients[c]] == s.clients;
    }
  }

  // ----- stages of a run

  /** An action and the state it led to. */
  datatype Stage = Stage(action: Action, after: System)

  function End(s: System, stages: seq<Stage>): System {
    if stages == [] then s else stages[|stages| - 1].after
  }

  ghost predicate Chain(s: System, stages: seq<Stage>, cfg: Config) {
    forall i | 0 <= i < |stages| :: Next(End(s, stages[..i]), stages[i].action, stages[i].after, cfg)
  }

  lemma ChainAppend(s: System, first: seq<Stage>, second: seq<Stage>, cfg: Config)
    requires Chain(s, first, cfg) && Chain(End(s, first), second, cfg)
    ensures Chain(s, first + second, cfg) && End(s, first + second) == End(End(s, first), second)
  {
    hide Next;
    var all, n := first + second, |first|;
    forall i | 0 <= i < |all|
      ensures Next(End(s, all[..i]), all[i].action, all[i].after, cfg)
    {
      if i < n {
        assert all[..i] == first[..i];
      } else {
        assert all[..i] == first + second[..i - n];
        assert End(s, all[..i]) == End(End(s, first), second[..i - n]);
      }
    }
  }

  lemma ChainOne(s: System, a: Action, s': System, cfg: Config)
    requires Next(s, a, s', cfg)
    ensures Chain(s, [Stage(a, s')], cfg) && End(s, [Stage(a, s')]) == s'
  {
    hide Next;
    assert [Stage(a, s')][..0] == [];
  }

  function States(s: System, stages: seq<Stage>): (r: seq<System>)
    ensures |r| == |stages| + 1
  {
    seq(|stages| + 1, i requires 0 <= i <= |stages| => End(s, stages[..i]))
  }

  function Actions(stages: seq<Stage>): (r: seq<Action>)
    ensures |r| == |stages|
  {
    seq(|stages|, i requires 0 <= i < |stages| => stages[i].action)
  }

  lemma ChainIsRun(now: int, stages: seq<Stage>, cfg: Config)
    requires Chain(Init(now), stages, cfg)
    ensures Run(States(Init(now), stages), Actions(stages), cfg)
    ensures States(Init(now), stages)[|stages|] == End(Init(now), stages)
  {
    hide Next;
    var states := States(Init(now), stages);
    assert stages[..|stages|] == stages && states[0] == Init(now);
    forall i | 0 <= i < |stages|
      ensures Next(states[i], Actions(stages)[i], states[i + 1], cfg)
    {
      assert stages[..i + 1][i] == stages[i];
      assert states[i + 1] == stages[i].after;
    }
  }

  // ----- the moves between what others do

  /** Gap, move, gap, move and so on: the moves of client `c`, each after what others did. */
  function Woven(s: System, c: nat, moves: seq<Move>, gaps: seq<seq<Stage>>, outcome: Option<Response>): seq<Stage>
    requires |gaps| == |moves|
  {
    if moves == [] then []
    else
      var n := |moves| - 1;
      var before := Woven(s, c, moves[..n], gaps[..n], outcome) + gaps[n];
      var at := End(s, before);
      before + [Stage(ActionOf(c, moves[n], outcome), if c in at.clients then AfterMove(at, c, moves[n]) else at)]
  }

  /** The gaps are steps of the system that leave client `c` alone and set the scene for the
      moves: the tables and clocks these found, and tokens not drawn before. */
  ghost predicate Fits(s: System, c: nat, moves: seq<Move>, gaps: seq<seq<Stage>>, k: RowKey, fp: Fingerprint,
                       outcome: Option<Response>, cfg: Config)
    requires |gaps| == |moves|
  {
    moves != [] ==>
      var n := |moves| - 1;
      var at := End(s, Woven(s, c, moves[..n], gaps[..n], outcome));
      && Fits(s, c, moves[..n], gaps[..n], k, fp, outcome, cfg)
      && Chain(at, gaps[n], cfg)
      && var met := End(at, gaps[n]);
         && (c in at.clients ==> c in met.clients && met.clients[c] == at.clients[c])
         && met.rows == moves[n].rows && met.now == moves[n].now
         && (moves[n].pc.Reserving? ==> moves[n].token !in met.used)
  }

  lemma {:induction false} WovenChains(s: System, c: nat, moves: seq<Move>, gaps: seq<seq<Stage>>, k: RowKey, fp: Fingerprint,
                                       outcome: Option<Response>, cfg: Config)
    requires |gaps| == |moves| && Fits(s, c, moves, gaps, k, fp, outcome, cfg)
    requires Progress(moves, k, fp, cfg, outcome)
    requires c in s.clients && s.clients[c] == Client(k, fp, Reserving(0))
    ensures var stages := Woven(s, c, moves, gaps, outcome);
            && Chain(s, stages, cfg)
            && c in End(s, stages).clients
            && End(s, stages).clients[c] == Client(k, fp, Follow(Reserving(0), fp, moves))
    decreases |moves|
  {
    hide AfterMove;
    hide ActionOf;
    hide Next;
    hide Legal;
    hide Advance;
    hide Chain;
    if moves == [] {
      ChainEmpty(s, cfg);
    } else {
      var n := |moves| - 1;
      var m := moves[n];
      WovenChains(s, c, moves[..n], gaps[..n], k, fp, outcome, cfg);
      var first := Woven(s, c, moves[..n], gaps[..n], outcome);
      ChainAppend(s, first, gaps[n], cfg);
      var met := End(s, first + gaps[n]);
      MovesAreSteps(met, c, k, fp, cfg, m, outcome);
      ChainOne(met, ActionOf(c, m, outcome), AfterMove(met, c, m), cfg);
      ChainAppend(s, first + gaps[n], [Stage(ActionOf(c, m, outcome), AfterMove(met, c, m))], cfg);
    }
  }

  lemma ChainEmpty(s: System, cfg: Config)
    ensures Chain(s, [], cfg)
  {
  }

  /** Take any run that ends with request `c` just arrived, and any execution of `Guard.Wrap` for
      it, with steps of others in between. Put together they are a run, and in its last state the
      request stands where the execution ended: the theorems about runs apply to it. */
  lemma {:induction false} WrapIsARun(now: int, earlier: seq<Stage>, c: nat, moves: seq<Move>, gaps: seq<seq<Stage>>, k: RowKey, fp: Fingerprint,
                                      outcome: Option<Response>, cfg: Config, result: Result)
    requires Chain(Init(now), earlier, cfg)
    requires var s := End(Init(now), earlier);
             && c in s.clients && s.clients[c] == Client(k, fp, Reserving(0))
             && |gaps| == |moves| && Fits(s, c, moves, gaps, k, fp, outcome, cfg)
    requires Progress(moves, k, fp, cfg, outcome) && Follow(Reserving(0), fp, moves) == Done(result)
    ensures var stages := earlier + Woven(End(Init(now), earlier), c, moves, gaps, outcome);
            var states := States(Init(now), stages);
            && Run(states, Actions(stages), cfg)
            && c in states[|stages|].clients
            && states[|stages|].clients[c] == Client(k, fp, Done(result))
  {
    hide *;
    var s := End(Init(now), earlier);
    WovenChains(s, c, moves, gaps, k, fp, outcome, cfg);
    ChainAppend(Init(now), earlier, Woven(s, c, moves, gaps, outcome), cfg);
    ChainIsRun(now, earlier + Woven(s, c, moves, gaps, outcome), cfg);
  }

  /** So when `Guard.Wrap` replays a response, some handler run of the same key and fingerprint
      returned exactly that response, and it was stored. */
  lemma WrapReplaysStored(now: int, earlier: seq<Stage>, c: nat, moves: seq<Move>, gaps: seq<seq<Stage>>, k: RowKey, fp: Fingerprint,
                          outcome: Option<Response>, cfg: Config, response: Response)
    returns (i: nat, token: Token, since: int)
    requires Chain(Init(now), earlier, cfg)
    requires var s := End(Init(now), earlier);
             && c in s.clients && s.clients[c] == Client(k, fp, Reserving(0))
             && |gaps| == |moves| && Fits(s, c, moves, gaps, k, fp, outcome, cfg)
    requires Progress(moves, k, fp, cfg, outcome) && Follow(Reserving(0), fp, moves) == Done(Replayed(response))
    ensures var stages := earlier + Woven(End(Init(now), earlier), c, moves, gaps, outcome);
            && i < |stages|
            && AnsweredAt(States(Init(now), stages)[i], stages[i].action, k, fp, token, since, response)
            && Stored(k, token, since, fp, response) in End(Init(now), stages).log
  {
    var stages := earlier + Woven(End(Init(now), earlier), c, moves, gaps, outcome);
    assert stages[..|stages|] == stages;
    hide Woven;
    hide Fits;
    hide Chain;
    hide Progress;
    hide Follow;
    hide AnsweredAt;
    hide Run;
    WrapIsARun(now, earlier, c, moves, gaps, k, fp, outcome, cfg, Replayed(response));
    i, token, since := ReplaysAreStored(States(Init(now), stages), Actions(stages), cfg, c);
  }
}
