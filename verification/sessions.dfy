/** Refresh-token sessions: the statements of internal/db/auth.sql.go, the service methods of
    internal/auth/auth.go and the handlers of internal/auth/handlers.go that run them. */
module Sessions {
  import opened Entities
  import opened Options

  type Id = nat

  const DAY := 86400
  const RETENTION := 30 * DAY

  /** What stays the same while a sign-in is refreshed. */
  datatype Origin = Origin(user: UserId, agent: Option<string>, ip: Option<string>, createdAt: int)

  datatype Session = Session(origin: Origin, hash: string, rotatedFrom: Option<Id>, expiresAt: int, revokedAt: Option<int>)

  type Table = map<Id, Session>

  predicate Live(s: Session) { s.revokedAt.None? }

  predicate LiveWith(rows: Table, hash: string, i: Id) { i in rows && rows[i].hash == hash && Live(rows[i]) }

  function Revoked(s: Session, now: int): Session { s.(revokedAt := Some(now)) }

  // ----- the statements

  function AfterCreate(rows: Table, id: Id, origin: Origin, hash: string, expiresAt: int): Table {
    rows[id := Session(origin, hash, None, expiresAt, None)]
  }

  /** Rotating the live session `p`: revoke it and insert its successor. */
  function AfterRotate(rows: Table, p: Id, id: Id, hash: string, now: int): Table
    requires p in rows
  {
    rows[p := Revoked(rows[p], now)][id := Session(rows[p].origin, hash, Some(p), now + RETENTION, None)]
  }

  /** Without a test for earlier revocation: the time of revocation moves. */
  function AfterRevokeByHash(rows: Table, hash: string, now: int): Table {
    map i | i in rows :: if rows[i].hash == hash then Revoked(rows[i], now) else rows[i]
  }

  function AfterRevokeAll(rows: Table, user: UserId, now: int): Table {
    map i | i in rows :: if rows[i].origin.user == user && Live(rows[i]) then Revoked(rows[i], now) else rows[i]
  }

  function AfterRevokeById(rows: Table, id: Id, user: UserId, now: int): Table {
    map i | i in rows :: if i == id && rows[i].origin.user == user && Live(rows[i]) then Revoked(rows[i], now) else rows[i]
  }

  predicate Stale(s: Session, now: int) {
    || (s.revokedAt.Some? && s.revokedAt.value < now - RETENTION)
    || s.expiresAt < now - RETENTION
  }

  /** DELETE of the stale rows; references to them become NULL. */
  function AfterPrune(rows: Table, now: int): Table {
    map i | i in rows && !Stale(rows[i], now) ::
      if rows[i].rotatedFrom.Some? && rows[i].rotatedFrom.value in rows && Stale(rows[rows[i].rotatedFrom.value], now)
      then rows[i].(rotatedFrom := None) else rows[i]
  }

  // ----- histories

  /** A session as it was born: the sign-in it descends from, its hash and origin. */
  datatype Birth = Birth(root: Id, hash: string, origin: Origin)

  datatype Event =
    | SignedIn(id: Id)
    | Rotated(from: Id, to: Id)
    | RevokedAll(earlier: set<Id>)   // every session the user ever had by then

  datatype State = State(now: int, rows: Table, births: map<Id, Birth>, log: seq<Event>)

  datatype Change =
    | Login(id: Id, user: UserId, hash: string, agent: Option<string>, ip: Option<string>, days: int)
    | Refresh(previous: string, hash: string, id: Id)
    | Logout(hash: string)
    | RevokeAll(user: UserId)
    | RevokeOne(id: Id, user: UserId)
    | Prune
    | Tick(delta: nat)

  /** New sessions draw an id and a token never drawn before. */
  ghost predicate Fresh(s: State, id: Id, hash: string) {
    id !in s.births && forall i | i in s.births :: s.births[i].hash != hash
  }

  ghost predicate Next(s: State, c: Change, s': State) {
    match c
    case Login(id, user, hash, agent, ip, days) =>
      var origin := Origin(user, agent, ip, s.now);
      && Fresh(s, id, hash)
      && s' == State(s.now, AfterCreate(s.rows, id, origin, hash, s.now + days * DAY),
                     s.births[id := Birth(id, hash, origin)], s.log + [SignedIn(id)])
    case Refresh(previous, hash, id) =>
      && Fresh(s, id, hash)
      && ((s' == s && forall p :: !LiveWith(s.rows, previous, p)) || exists p :: RefreshedFrom(s, p, previous, hash, id, s'))
    case Logout(hash) => s' == s.(rows := AfterRevokeByHash(s.rows, hash, s.now))
    case RevokeAll(user) =>
      s' == s.(rows := AfterRevokeAll(s.rows, user, s.now),
               log := s.log + [RevokedAll(set i | i in s.births && s.births[i].origin.user == user)])
    case RevokeOne(id, user) => s' == s.(rows := AfterRevokeById(s.rows, id, user, s.now))
    case Prune => s' == s.(rows := AfterPrune(s.rows, s.now))
    case Tick(delta) => s' == s.(now := s.now + delta)
  }

  ghost predicate RefreshedFrom(s: State, p: Id, previous: string, hash: string, id: Id, s': State) {
    && LiveWith(s.rows, previous, p) && p in s.births
    && s' == State(s.now, AfterRotate(s.rows, p, id, hash, s.now),
                   s.births[id := Birth(s.births[p].root, hash, s.births[p].origin)], s.log + [Rotated(p, id)])
  }

  // ----- the invariant

  ghost predicate RowsBorn(s: State) {
    forall i | i in s.rows :: i in s.births && s.births[i].hash == s.rows[i].hash && s.births[i].origin == s.rows[i].origin
  }

  ghost predicate ChainsRooted(s: State) {
    forall i | i in s.births ::
      var r := s.births[i].root;
      r in s.births && s.births[r].root == r && s.births[r].origin == s.births[i].origin
  }

  ghost predicate HashesDiffer(s: State) {
    forall i, j | i in s.births && j in s.births && s.births[i].hash == s.births[j].hash :: i == j
  }

  /** At most one unrevoked session per sign-in. */
  ghost predicate OneLive(s: State)
    requires RowsBorn(s)
  {
    forall i, j | i in s.rows && j in s.rows && Live(s.rows[i]) && Live(s.rows[j]) && s.births[i].root == s.births[j].root :: i == j
  }

  /** A predecessor still in the table is of the same sign-in and revoked. */
  ghost predicate Linked(s: State)
    requires RowsBorn(s)
  {
    forall i | i in s.rows && s.rows[i].rotatedFrom.Some? ::
      var p := s.rows[i].rotatedFrom.value;
      p in s.rows && s.births[p].root == s.births[i].root && !Live(s.rows[p])
  }

  /** Sessions that can no longer be refreshed. */
  ghost predicate Spent(s: State, ids: set<Id>) {
    && (forall i | i in ids :: i in s.births)
    && forall i | i in ids && i in s.rows :: !Live(s.rows[i])
  }

  /** Together with a session its whole sign-in so far, successors included. */
  ghost predicate Closed(s: State, ids: set<Id>) {
    forall i | i in s.births && s.births[i].root in ids :: i in ids
  }

  function SpentBy(e: Event): set<Id> {
    match e
    case SignedIn(_) => {}
    case Rotated(from, _) => {from}
    case RevokedAll(earlier) => earlier
  }

  ghost predicate LogSpends(s: State) {
    && (forall k | 0 <= k < |s.log| :: Spent(s, SpentBy(s.log[k])))
    && (forall k | 0 <= k < |s.log| && s.log[k].RevokedAll? :: Closed(s, s.log[k].earlier))
  }

  /** What an event spent is not refreshed later. */
  ghost predicate NeverAgain(log: seq<Event>) {
    forall j, k | 0 <= j < k < |log| && log[k].Rotated? :: log[k].from !in SpentBy(log[j])
  }

  ghost predicate Inv(s: State) {
    && RowsBorn(s) && ChainsRooted(s) && HashesDiffer(s) && OneLive(s) && Linked(s) && LogSpends(s) && NeverAgain(s.log)
  }

  // ----- each step keeps it

  /** Steps that only revoke and delete. */
  ghost predicate Shrunk(s: State, s': State) {
    && s'.births == s.births && s'.log == s.log
    && forall i | i in s'.rows ::
         && i in s.rows && s'.rows[i].hash == s.rows[i].hash && s'.rows[i].origin == s.rows[i].origin
         && (Live(s'.rows[i]) ==> Live(s.rows[i]))
  }

  lemma ShrinkingKeeps(s: State, s': State)
    requires Inv(s) && Shrunk(s, s') && (RowsBorn(s') ==> Linked(s'))
    ensures Inv(s')
  {
    hide Live;
    hide Linked;
    assert RowsBorn(s') && OneLive(s');
    hide RowsBorn;
    hide OneLive;
    forall k | 0 <= k < |s'.log|
      ensures Spent(s', SpentBy(s'.log[k]))
      ensures s'.log[k].RevokedAll? ==> Closed(s', s'.log[k].earlier)
    {
      assert Spent(s, SpentBy(s.log[k]));
      assert s.log[k].RevokedAll? ==> Closed(s, s.log[k].earlier);
    }
  }

  lemma RevokingKeeps(s: State, s': State)
    requires Inv(s) && s' == s.(rows := s'.rows) && s'.rows.Keys == s.rows.Keys
    requires forall i | i in s.rows ::
               s'.rows[i] == s.rows[i].(revokedAt := s'.rows[i].revokedAt) && (Live(s'.rows[i]) ==> Live(s.rows[i]))
    ensures Inv(s')
  {
    assert forall i | i in s'.rows :: i in s.rows;
    assert Linked(s);
    hide Inv;
    ShrinkingKeeps(s, s');
  }

  lemma PruneKeeps(s: State, s': State)
    requires Inv(s) && s' == s.(rows := AfterPrune(s.rows, s.now))
    ensures Inv(s')
  {
    hide Stale;
    PruneLinks(s, s');
    hide Inv;
    hide Linked;
    ShrinkingKeeps(s, s');
  }

  lemma PruneLinks(s: State, s': State)
    requires RowsBorn(s) && Linked(s) && s' == s.(rows := AfterPrune(s.rows, s.now))
    ensures RowsBorn(s') && Linked(s')
  {
    hide Stale;
  }

  lemma LoginKeeps(s: State, id: Id, origin: Origin, hash: string, expiresAt: int, s': State)
    requires Inv(s) && Fresh(s, id, hash)
    requires s' == State(s.now, AfterCreate(s.rows, id, origin, hash, expiresAt), s.births[id := Birth(id, hash, origin)], s.log + [SignedIn(id)])
    ensures Inv(s')
  {
    BirthKeeps(s, id, Birth(id, hash, origin), s');
    LoginLive(s, id, origin, hash, expiresAt, s');
    LoginLogs(s, id, origin, hash, expiresAt, s');
  }

  lemma LoginLogs(s: State, id: Id, origin: Origin, hash: string, expiresAt: int, s': State)
    requires RowsBorn(s) && LogSpends(s) && NeverAgain(s.log) && id !in s.births
    requires s' == State(s.now, AfterCreate(s.rows, id, origin, hash, expiresAt), s.births[id := Birth(id, hash, origin)], s.log + [SignedIn(id)])
    ensures LogSpends(s') && NeverAgain(s'.log)
  {
    assert forall i | i in s.rows :: i in s.births && i != id;
    assert s'.log[|s.log|] == SignedIn(id);
    hide RowsBorn;
    hide LogSpends;
    hide NeverAgain;
    LogGrows(s, s');
  }

  lemma LoginLive(s: State, id: Id, origin: Origin, hash: string, expiresAt: int, s': State)
    requires RowsBorn(s) && ChainsRooted(s) && OneLive(s) && Linked(s) && RowsBorn(s') && Fresh(s, id, hash)
    requires s'.rows == AfterCreate(s.rows, id, origin, hash, expiresAt) && s'.births == s.births[id := Birth(id, hash, origin)]
    ensures OneLive(s') && Linked(s')
  {
    assert forall i | i in s.rows :: i in s.births && i != id;
  }

  /** A fresh birth, of a new sign-in or within a chain. */
  lemma BirthKeeps(s: State, id: Id, b: Birth, s': State)
    requires RowsBorn(s) && ChainsRooted(s) && HashesDiffer(s) && Fresh(s, id, b.hash)
    requires s'.births == s.births[id := b] && s'.rows.Keys <= s.rows.Keys + {id}
    requires forall i | i in s'.rows && i != id :: s'.rows[i].hash == s.rows[i].hash && s'.rows[i].origin == s.rows[i].origin
    requires id in s'.rows ==> s'.rows[id].hash == b.hash && s'.rows[id].origin == b.origin
    requires b.root == id || (b.root in s.births && s.births[b.root].root == b.root && s.births[b.root].origin == b.origin)
    ensures RowsBorn(s') && ChainsRooted(s') && HashesDiffer(s')
  {
    assert forall i | i in s.rows :: i in s.births && i != id;
  }

  /** Earlier events stay spent and closed when a session outside them is born and only
      sessions that were not live, or are not spent, come to be live. */
  lemma LogGrows(s: State, s': State)
    requires LogSpends(s) && NeverAgain(s.log)
    requires |s'.log| == |s.log| + 1 && s'.log[..|s.log|] == s.log
    requires forall i | i in s.births :: i in s'.births && s'.births[i] == s.births[i]
    requires forall i | i in s'.rows && i in s.births :: i in s.rows && (Live(s'.rows[i]) ==> Live(s.rows[i]))
    requires forall i | i in s'.births && i !in s.births ::
               s'.births[i].root == i
               || exists p :: p in s.births && s.births[p].root == s'.births[i].root && p in s.rows && Live(s.rows[p])
    requires s'.log[|s.log|].Rotated? ==> s'.log[|s.log|].from in s.rows && Live(s.rows[s'.log[|s.log|].from])
    requires Spent(s', SpentBy(s'.log[|s.log|]))
    requires s'.log[|s.log|].RevokedAll? ==> Closed(s', s'.log[|s.log|].earlier)
    ensures LogSpends(s') && NeverAgain(s'.log)
  {
    hide Live;
    forall k | 0 <= k < |s'.log|
      ensures Spent(s', SpentBy(s'.log[k]))
      ensures s'.log[k].RevokedAll? ==> Closed(s', s'.log[k].earlier)
    {
      if k < |s.log| {
        assert s'.log[k] == s.log[k] && Spent(s, SpentBy(s.log[k]));
        if s.log[k].RevokedAll? {
          assert Closed(s, s.log[k].earlier);
        }
      }
    }
    forall j, k | 0 <= j < k < |s'.log| && s'.log[k].Rotated?
      ensures s'.log[k].from !in SpentBy(s'.log[j])
    {
      assert s'.log[j] == s.log[j] && Spent(s, SpentBy(s.log[j]));
      if k < |s.log| { assert s'.log[k] == s.log[k]; }
    }
  }

  lemma RefreshKeeps(s: State, p: Id, previous: string, hash: string, id: Id, s': State)
    requires Inv(s) && Fresh(s, id, hash) && RefreshedFrom(s, p, previous, hash, id, s')
    ensures Inv(s')
  {
    BirthKeeps(s, id, Birth(s.births[p].root, hash, s.births[p].origin), s');
    RefreshLive(s, p, previous, hash, id, s');
    RefreshLogs(s, p, previous, hash, id, s');
  }

  lemma RefreshLogs(s: State, p: Id, previous: string, hash: string, id: Id, s': State)
    requires RowsBorn(s) && LogSpends(s) && NeverAgain(s.log) && id !in s.births
    requires RefreshedFrom(s, p, previous, hash, id, s')
    ensures LogSpends(s') && NeverAgain(s'.log)
  {
    assert forall i | i in s.rows :: i in s.births && i != id;
    assert s'.births[id].root == s.births[p].root && p in s.rows && Live(s.rows[p]);
    assert Spent(s', {p}) && SpentBy(s'.log[|s.log|]) == {p};
    hide RowsBorn;
    hide LogSpends;
    hide NeverAgain;
    hide Spent;
    LogGrows(s, s');
  }

  lemma RefreshLive(s: State, p: Id, previous: string, hash: string, id: Id, s': State)
    requires RowsBorn(s) && OneLive(s) && Linked(s) && RowsBorn(s')
    requires Fresh(s, id, hash) && RefreshedFrom(s, p, previous, hash, id, s')
    ensures OneLive(s') && Linked(s')
  {
    assert forall i | i in s.rows :: i in s.births && i != id;
  }

  lemma RevokeAllKeeps(s: State, user: UserId, s': State)
    requires Inv(s) && Next(s, RevokeAll(user), s')
    ensures Inv(s')
  {
    var mid := s.(rows := s'.rows);
    RevokingKeeps(s, mid);
    var earlier := set i | i in s.births && s.births[i].origin.user == user;
    assert Spent(s', earlier) && Closed(s', earlier);
    assert s'.log[|s.log|] == RevokedAll(earlier) && s'.log[..|s.log|] == s.log;
    assert RowsBorn(s') && ChainsRooted(s') && HashesDiffer(s') && OneLive(s') && Linked(s');
    hide RowsBorn;
    hide ChainsRooted;
    hide HashesDiffer;
    hide OneLive;
    hide Linked;
    hide LogSpends;
    hide NeverAgain;
    hide Spent;
    hide Closed;
    LogGrows(s, s');
  }

  lemma NextKeeps(s: State, c: Change, s': State)
    requires Inv(s) && Next(s, c, s')
    ensures Inv(s')
  {
    match c
    case Login(id, user, hash, agent, ip, days) =>
      hide Inv;
      LoginKeeps(s, id, Origin(user, agent, ip, s.now), hash, s.now + days * DAY, s');
    case Refresh(previous, hash, id) =>
      hide Inv;
      if s' != s {
        var p :| RefreshedFrom(s, p, previous, hash, id, s');
        RefreshKeeps(s, p, previous, hash, id, s');
      }
    case Logout(_) =>
      hide Inv;
      RevokingKeeps(s, s');
    case RevokeAll(user) =>
      RevokeAllKeeps(s, user, s');
    case RevokeOne(_, _) =>
      hide Inv;
      RevokingKeeps(s, s');
    case Prune =>
      hide Inv;
      PruneKeeps(s, s');
    case Tick(_) =>
      TickKeeps(s, s');
  }

  lemma TickKeeps(s: State, s': State)
    requires Inv(s) && s' == s.(now := s'.now)
    ensures Inv(s')
  {
    forall k | 0 <= k < |s.log|
      ensures Spent(s', SpentBy(s.log[k]))
      ensures s.log[k].RevokedAll? ==> Closed(s', s.log[k].earlier)
    {
      assert Spent(s, SpentBy(s.log[k]));
      assert s.log[k].RevokedAll? ==> Closed(s, s.log[k].earlier);
    }
  }

  // ----- what each change does, row by row

  /** The sessions that end now; all others, and everything else about these, stay as they were. */
  ghost predicate OnlyEnds(before: Table, after: Table, ids: set<Id>, now: int) {
    && after.Keys == before.Keys
    && forall i | i in before ::
         after[i] == if i in ids then Session(before[i].origin, before[i].hash, before[i].rotatedFrom, before[i].expiresAt, Some(now))
                     else before[i]
  }

  ghost predicate OnlyAdds(before: Table, after: Table, id: Id, s: Session) {
    && id !in before && after.Keys == before.Keys + {id} && after[id] == s
    && forall i | i in before :: after[i] == before[i]
  }

  /** Revoked, or expired, more than thirty days of seconds ago. */
  predicate LongDead(s: Session, now: int) {
    (s.revokedAt.Some? && now - s.revokedAt.value > 2592000) || now - s.expiresAt > 2592000
  }

  ghost predicate OnlyDrops(before: Table, after: Table, now: int) {
    && (forall i :: i in after <==> i in before && !LongDead(before[i], now))
    && forall i | i in after ::
         var p := before[i].rotatedFrom;
         after[i] == Session(before[i].origin, before[i].hash, if p.Some? && p.value in before && p.value !in after then None else p,
                             before[i].expiresAt, before[i].revokedAt)
  }

  ghost predicate Rotates(before: Table, after: Table, p: Id, previous: string, hash: string, id: Id, now: int) {
    && p in before && before[p].hash == previous && before[p].revokedAt.None? && id !in before
    && after.Keys == before.Keys + {id}
    && after[id] == Session(before[p].origin, hash, Some(p), now + 2592000, None)
    && OnlyEnds(before, after - {id}, {p}, now)
  }

  /** The table after a change, told without the statement that made it. */
  ghost predicate RowsFollow(c: Change, before: Table, after: Table, now: int) {
    match c
    case Login(id, user, hash, agent, ip, days) =>
      OnlyAdds(before, after, id, Session(Origin(user, agent, ip, now), hash, None, now + 86400 * days, None))
    case Refresh(previous, hash, id) =>
      || (after == before && forall p | p in before && before[p].hash == previous :: before[p].revokedAt.Some?)
      || exists p :: Rotates(before, after, p, previous, hash, id, now)
    case Logout(hash) => OnlyEnds(before, after, (set i | i in before && before[i].hash == hash), now)
    case RevokeAll(user) =>
      OnlyEnds(before, after, (set i | i in before && before[i].origin.user == user && before[i].revokedAt.None?), now)
    case RevokeOne(id, user) =>
      OnlyEnds(before, after, (set i | i in before && i == id && before[i].origin.user == user && before[i].revokedAt.None?), now)
    case Prune => OnlyDrops(before, after, now)
    case Tick(_) => after == before
  }

  lemma ChangeMeans(s: State, c: Change, s': State)
    requires RowsBorn(s) && Next(s, c, s')
    ensures RowsFollow(c, s.rows, s'.rows, s.now)
  {
    match c
    case Login(_, _, _, _, _, _) =>
    case Refresh(previous, hash, id) =>
      hide RowsBorn;
      RefreshMeans(s, previous, hash, id, s');
    case Logout(_) =>
    case RevokeAll(_) =>
    case RevokeOne(_, _) =>
    case Prune =>
    case Tick(_) =>
  }

  lemma RefreshMeans(s: State, previous: string, hash: string, id: Id, s': State)
    requires RowsBorn(s) && Next(s, Refresh(previous, hash, id), s')
    ensures RowsFollow(Refresh(previous, hash, id), s.rows, s'.rows, s.now)
  {
    if p :| RefreshedFrom(s, p, previous, hash, id, s') {
      RotationMeans(s, p, previous, hash, id, s');
    } else {
      forall p | p in s.rows && s.rows[p].hash == previous
        ensures s.rows[p].revokedAt.Some?
      {
        assert !LiveWith(s.rows, previous, p);
      }
    }
  }

  lemma RotationMeans(s: State, p: Id, previous: string, hash: string, id: Id, s': State)
    requires RowsBorn(s) && id !in s.births && RefreshedFrom(s, p, previous, hash, id, s')
    ensures Rotates(s.rows, s'.rows, p, previous, hash, id, s.now)
  {
    assert id !in s.rows;
  }
}
