/** Revoking all of a user's sessions while refreshes are in flight, under READ COMMITTED: the
    statements `RotateSession` and `RevokeAllUserSessions` of internal/db/auth.sql.go are no longer
    atomic. A rotation locks the old row and its successor shows when it commits. The revocation
    takes a snapshot, goes through the rows that were live in it, waits for a lock on each, skips
    those revoked by then, and never sees rows that were committed after its snapshot. */
module SessionRace {
  import opened Entities

  type Id = nat

  /** `late`: committed after the snapshot of the revocation now running. */
  datatype Row = Row(user: UserId, live: bool, late: bool)

  datatype Revocation = Idle | Running(user: UserId, todo: set<Id>, locked: set<Id>)

  /** The committed rows, the rotations in flight (successor to predecessor), the revocation. */
  datatype State = State(rows: map<Id, Row>, inflight: map<Id, Id>, revocation: Revocation)

  datatype Action =
    | SignIn(id: Id, user: UserId)
    | BeginRotate(prev: Id, id: Id)
    | CommitRotate(id: Id)
    | Snapshot(user: UserId)
    | RevokeRow(id: Id)
    | CommitRevoke

  predicate LiveOf(s: State, i: Id, user: UserId) { i in s.rows && s.rows[i].user == user && s.rows[i].live }

  function LiveIds(s: State, user: UserId): set<Id> { set i | i in s.rows && LiveOf(s, i, user) }

  predicate LockedByRotation(s: State, i: Id) { i in s.inflight.Values }

  predicate LockedByRevocation(s: State, i: Id) { s.revocation.Running? && i in s.revocation.locked }

  predicate Fresh(s: State, id: Id) { id !in s.rows && id !in s.inflight }

  /** A committed insertion, late while the user's revocation runs. */
  function Inserted(s: State, id: Id, user: UserId): map<Id, Row> {
    s.rows[id := Row(user, true, s.revocation.Running? && s.revocation.user == user)]
  }

  ghost predicate Next(s: State, a: Action, s': State) {
    match a
    case SignIn(id, user) => Fresh(s, id) && s' == s.(rows := Inserted(s, id, user))
    case BeginRotate(prev, id) =>
      && prev in s.rows && s.rows[prev].live && !LockedByRotation(s, prev) && !LockedByRevocation(s, prev)
      && Fresh(s, id) && s' == s.(inflight := s.inflight[id := prev])
    case CommitRotate(id) =>
      && id in s.inflight && s.inflight[id] in s.rows
      && var prev := s.inflight[id];
         s' == s.(rows := Inserted(s, id, s.rows[prev].user)[prev := s.rows[prev].(live := false)], inflight := s.inflight - {id})
    case Snapshot(user) =>
      && s.revocation.Idle?
      && s' == s.(rows := map i | i in s.rows :: s.rows[i].(late := false), revocation := Running(user, LiveIds(s, user), {}))
    case RevokeRow(i) =>
      && s.revocation.Running? && i in s.revocation.todo && !LockedByRotation(s, i)
      && var r := s.revocation;
         s' == s.(revocation := Running(r.user, r.todo - {i}, if LiveOf(s, i, r.user) then r.locked + {i} else r.locked))
    case CommitRevoke =>
      && s.revocation.Running? && s.revocation.todo == {}
      && s' == s.(rows := map i | i in s.rows :: if i in s.revocation.locked then s.rows[i].(live := false) else s.rows[i],
                  revocation := Idle)
  }

  function Init(): State { State(map[], map[], Idle) }

  ghost predicate Run(states: seq<State>, actions: seq<Action>) {
    && |states| == |actions| + 1 && states[0] == Init()
    && forall i | 0 <= i < |actions| :: Next(states[i], actions[i], states[i + 1])
  }

  // ----- the invariant

  /** Rotations in flight replace live rows, one rotation each, and their successors are new. */
  ghost predicate RotationsSound(s: State) {
    && (forall id | id in s.inflight :: id !in s.rows && s.inflight[id] in s.rows && s.rows[s.inflight[id]].live)
    && (forall id, other | id in s.inflight && other in s.inflight && s.inflight[id] == s.inflight[other] :: id == other)
  }

  /** What was live in the snapshot and still is lies ahead of the revocation or is locked by it;
      what it has locked is live, from the snapshot, and nobody else's. */
  ghost predicate RevocationSound(s: State) {
    s.revocation.Running? ==>
      var r := s.revocation;
      && (forall i | LiveOf(s, i, r.user) && !s.rows[i].late :: i in r.todo || i in r.locked)
      && (forall i | i in r.locked :: LiveOf(s, i, r.user) && !s.rows[i].late && !LockedByRotation(s, i))
      && (forall i | i in r.todo :: i in s.rows && !s.rows[i].late)
      && (forall i | i in s.rows && s.rows[i].late :: s.rows[i].user == r.user)
  }

  /** A late row that was rotated on has a late successor. */
  ghost predicate LateLives(s: State) {
    s.revocation.Running? && (exists i | i in s.rows :: s.rows[i].late) ==> exists i | i in s.rows :: s.rows[i].late && s.rows[i].live
  }

  ghost predicate Inv(s: State) { RotationsSound(s) && RevocationSound(s) && LateLives(s) }

  lemma SignInKeeps(s: State, id: Id, user: UserId, s': State)
    requires Inv(s) && Next(s, SignIn(id, user), s')
    ensures Inv(s')
  {
    if s.revocation.Running? && s.revocation.user == user {
      assert s'.rows[id].late && s'.rows[id].live;
    } else if i :| i in s.rows && s.rows[i].late && s.rows[i].live {
      assert s'.rows[i].late && s'.rows[i].live;
    }
  }

  lemma BeginKeeps(s: State, prev: Id, id: Id, s': State)
    requires Inv(s) && Next(s, BeginRotate(prev, id), s')
    ensures Inv(s')
  {
    assert forall x | x in s'.inflight :: s'.inflight[x] == if x == id then prev else s.inflight[x];
    assert forall x | x in s.inflight :: s.inflight[x] in s.inflight.Values;
  }

  lemma CommitKeepsRotations(s: State, id: Id, s': State)
    requires RotationsSound(s) && Next(s, CommitRotate(id), s')
    ensures RotationsSound(s')
  {
    assert forall x | x in s'.inflight :: s'.inflight[x] == s.inflight[x] && s'.inflight[x] != s.inflight[id];
  }

  lemma CommitKeepsRevocation(s: State, id: Id, s': State)
    requires RotationsSound(s) && RevocationSound(s) && Next(s, CommitRotate(id), s')
    ensures RevocationSound(s')
  {
    var prev := s.inflight[id];
    assert prev in s.inflight.Values;
    assert forall x | x in s'.inflight :: s'.inflight[x] == s.inflight[x];
  }

  lemma CommitKeepsLate(s: State, id: Id, s': State)
    requires RotationsSound(s) && RevocationSound(s) && LateLives(s) && Next(s, CommitRotate(id), s')
    ensures LateLives(s')
  {
    var prev := s.inflight[id];
    hide RevocationSound;
    if s.revocation.Running? {
      if s.rows[prev].user == s.revocation.user {
        assert s'.rows[id].late && s'.rows[id].live;
      } else if i :| i in s.rows && s.rows[i].late && s.rows[i].live {
        assert i != prev by { LateIsUsers(s, i); }
        assert s'.rows[i].late && s'.rows[i].live;
      }
    }
  }

  lemma LateIsUsers(s: State, i: Id)
    requires RevocationSound(s) && s.revocation.Running? && i in s.rows && s.rows[i].late
    ensures s.rows[i].user == s.revocation.user
  {
  }

  lemma CommitKeeps(s: State, id: Id, s': State)
    requires Inv(s) && Next(s, CommitRotate(id), s')
    ensures Inv(s')
  {
    CommitKeepsRotations(s, id, s');
    CommitKeepsRevocation(s, id, s');
    CommitKeepsLate(s, id, s');
    hide RotationsSound;
    hide RevocationSound;
    hide LateLives;
    hide Next;
  }

  lemma RevokeKeeps(s: State, a: Action, s': State)
    requires Inv(s) && Next(s, a, s') && (a.Snapshot? || a.RevokeRow? || a.CommitRevoke?)
    ensures Inv(s')
  {
    if a.CommitRevoke? {
      assert forall id | id in s.inflight :: s.inflight[id] in s.inflight.Values;
    }
  }

  lemma NextKeeps(s: State, a: Action, s': State)
    requires Inv(s) && Next(s, a, s')
    ensures Inv(s')
  {
    hide Inv;
    hide Next;
    match a
    case SignIn(id, user) => SignInKeeps(s, id, user, s');
    case BeginRotate(prev, id) => BeginKeeps(s, prev, id, s');
    case CommitRotate(id) => CommitKeeps(s, id, s');
    case _ => RevokeKeeps(s, a, s');
  }

  lemma {:induction false} RunKeeps(states: seq<State>, actions: seq<Action>, k: nat)
    requires Run(states, actions) && k < |states|
    ensures Inv(states[k])
  {
    if k > 0 {
      assert Next(states[k - 1], actions[k - 1], states[k]);
      hide Next;
      hide Inv;
      RunKeeps(states, actions, k - 1);
      NextKeeps(states[k - 1], actions[k - 1], states[k]);
    } else {
      assert Inv(Init());
    }
  }

  // ----- who escapes

  /** When the revocation is through, the user's sessions still live are exactly those that were
      committed after its snapshot and not rotated on since. */
  lemma EscapedIff(states: seq<State>, actions: seq<Action>, k: nat, i: Id)
    requires Run(states, actions) && k < |actions| && actions[k].CommitRevoke?
    ensures states[k].revocation.Running?
    ensures var user := states[k].revocation.user;
            LiveOf(states[k + 1], i, user) <==> LiveOf(states[k], i, user) && states[k].rows[i].late
  {
    RunKeeps(states, actions, k);
    assert Next(states[k], actions[k], states[k + 1]);
  }

  ghost predicate NoneLive(s: State, user: UserId) {
    forall i :: !LiveOf(s, i, user)
  }

  /** The revocation leaves the user without a session if and only if no rotation and no sign-in of
      the user's committed between its snapshot and its end. */
  lemma RevokedAllIff(states: seq<State>, actions: seq<Action>, k: nat)
    requires Run(states, actions) && k < |actions| && actions[k].CommitRevoke?
    ensures states[k].revocation.Running?
    ensures NoneLive(states[k + 1], states[k].revocation.user) <==> forall i | i in states[k].rows :: !states[k].rows[i].late
  {
    RunKeeps(states, actions, k);
    assert Next(states[k], actions[k], states[k + 1]);
    var user := states[k].revocation.user;
    hide Next;
    hide Run;
    forall i
      ensures LiveOf(states[k + 1], i, user) <==> LiveOf(states[k], i, user) && states[k].rows[i].late
    {
      EscapedIff(states, actions, k, i);
    }
    if i :| i in states[k].rows && states[k].rows[i].late {
      var j :| j in states[k].rows && states[k].rows[j].late && states[k].rows[j].live;
      assert LiveOf(states[k + 1], j, user);
    }
  }

  /** Late means just that: a row is late if and only if the step that inserted it came after the
      snapshot. */
  lemma LateIff(s: State, a: Action, s': State, i: Id)
    requires Inv(s) && Next(s, a, s') && s'.revocation.Running? && i in s'.rows
    ensures a.Snapshot? ==> !s'.rows[i].late
    ensures !a.Snapshot? && i in s.rows ==> s'.rows[i].late == s.rows[i].late
    ensures !a.Snapshot? && i !in s.rows ==> (s'.rows[i].late <==> s'.rows[i].user == s'.revocation.user)
  {
  }

  /** A refresh that holds the row's lock when the revocation takes its snapshot, and commits before
      the revocation reaches the row: its new session outlives the revocation. */
  lemma RotationEscapes() returns (states: seq<State>, actions: seq<Action>)
    ensures Run(states, actions) && actions == [SignIn(1, 7), BeginRotate(1, 2), Snapshot(7), CommitRotate(2), RevokeRow(1), CommitRevoke]
    ensures LiveOf(states[|actions|], 2, 7)
  {
    actions := [SignIn(1, 7), BeginRotate(1, 2), Snapshot(7), CommitRotate(2), RevokeRow(1), CommitRevoke];
    states := [Init(), ONE, TWO, THREE, FOUR, FIVE, FIVE.(revocation := Idle)];
    FirstSteps();
    LastSteps();
    hide Next;
  }

  const ONE: State := State(map[1 := Row(7, true, false)], map[], Idle)
  const TWO: State := ONE.(inflight := map[2 := 1])
  const THREE: State := TWO.(revocation := Running(7, {1}, {}))
  const FOUR: State := State(map[1 := Row(7, false, false), 2 := Row(7, true, true)], map[], Running(7, {1}, {}))
  const FIVE: State := FOUR.(revocation := Running(7, {}, {}))

  lemma FirstSteps()
    ensures Next(Init(), SignIn(1, 7), ONE) && Next(ONE, BeginRotate(1, 2), TWO) && Next(TWO, Snapshot(7), THREE)
  {
    assert LiveIds(TWO, 7) == {1};
  }

  lemma LastSteps()
    ensures Next(THREE, CommitRotate(2), FOUR) && Next(FOUR, RevokeRow(1), FIVE) && Next(FIVE, CommitRevoke, FIVE.(revocation := Idle))
  {
    assert THREE.inflight - {2} == map[];
    assert FOUR.revocation.todo - {1} == {};
  }
}
