/** What every run of sign-ins, refreshes, logouts, resets and pruning guarantees. */
module SessionRuns {
  import opened Entities
  import opened Options
  import opened Sessions

  ghost predicate Run(states: seq<State>, changes: seq<Change>) {
    && |states| == |changes| + 1
    && states[0] == State(states[0].now, map[], map[], [])
    && forall k | 0 <= k < |changes| :: Next(states[k], changes[k], states[k + 1])
  }

  lemma {:induction false} RunKeepsInv(states: seq<State>, changes: seq<Change>, k: nat)
    requires Run(states, changes) && k < |states|
    ensures Inv(states[k])
    decreases k
  {
    if k > 0 {
      assert Next(states[k - 1], changes[k - 1], states[k]);
      hide Next;
      hide Inv;
      RunKeepsInv(states, changes, k - 1);
      NextKeeps(states[k - 1], changes[k - 1], states[k]);
    }
  }

  /** Every step of every run changes the rows it is for, in the way it is for, and no others: a
      sign-in adds its session, a refresh ends the one it replaces and adds a successor for thirty
      days, revoking ends live sessions of the one user, logging out those of the one token, and
      pruning drops just the sessions dead for more than thirty days. */
  lemma StepMeans(states: seq<State>, changes: seq<Change>, k: nat)
    requires Run(states, changes) && k < |changes|
    ensures RowsFollow(changes[k], states[k].rows, states[k + 1].rows, states[k].now)
  {
    RunKeepsInv(states, changes, k);
    assert Next(states[k], changes[k], states[k + 1]);
    hide Next;
    hide RowsFollow;
    ChangeMeans(states[k], changes[k], states[k + 1]);
  }

  /** So nobody's session ends but by their own sign-in's refresh or logout, by revoking their
      user's sessions or that one, or by pruning what has been dead long: a live session of
      another user outlives `RevokeAll` as it was. */
  lemma OthersStayLive(states: seq<State>, changes: seq<Change>, k: nat, i: Id)
    requires Run(states, changes) && k < |changes| && i in states[k].rows && states[k].rows[i].revokedAt.None?
    requires !(i in states[k + 1].rows && states[k + 1].rows[i].revokedAt.None?)
    ensures var c, row := changes[k], states[k].rows[i];
            || ((c.Refresh? && c.previous == row.hash) || (c.Logout? && c.hash == row.hash))
            || ((c.RevokeAll? || (c.RevokeOne? && c.id == i)) && c.user == row.origin.user)
            || (c.Prune? && states[k].now - row.expiresAt > 2592000)
  {
    StepMeans(states, changes, k);
    hide Run;
    var before, after := states[k].rows, states[k + 1].rows;
    if changes[k].Refresh? && after != before {
      var p :| Rotates(before, after, p, changes[k].previous, changes[k].hash, changes[k].id, states[k].now);
      assert i in after - {changes[k].id};
    }
  }

  /** Every sign-in has at most one session that can be refreshed, and all its sessions carry
      the user, device and time of the sign-in. */
  lemma OneSessionPerSignIn(states: seq<State>, changes: seq<Change>, k: nat, i: Id, j: Id)
    requires Run(states, changes) && k < |states| && i in states[k].rows && j in states[k].rows
    ensures i in states[k].births && j in states[k].births
    ensures var b := states[k].births;
            && (b[i].root == b[j].root && i != j ==> !Live(states[k].rows[i]) || !Live(states[k].rows[j]))
            && b[i].root in b && states[k].rows[i].origin == b[b[i].root].origin
            && (b[i].root == b[j].root ==> states[k].rows[i].origin == states[k].rows[j].origin)
  {
    RunKeepsInv(states, changes, k);
  }

  /** A refresh token is exchanged at most once: two rotations start from different tokens. */
  lemma RotatesOnce(states: seq<State>, changes: seq<Change>, j: nat, k: nat)
    requires Run(states, changes)
    requires var log := states[|changes|].log;
             j < k < |log| && log[j].Rotated? && log[k].Rotated?
    ensures var s := states[|changes|];
            && s.log[j].from in s.births && s.log[k].from in s.births
            && s.births[s.log[j].from].hash != s.births[s.log[k].from].hash
  {
    RunKeepsInv(states, changes, |changes|);
    var s := states[|changes|];
    assert Spent(s, SpentBy(s.log[j])) && Spent(s, SpentBy(s.log[k]));
    assert s.log[j].from in SpentBy(s.log[j]) && s.log[k].from in SpentBy(s.log[k]);
    assert s.log[k].from !in SpentBy(s.log[j]);
  }

  /** A session once born keeps its birth, and history only grows. */
  lemma StepGrows(s: State, c: Change, s': State)
    requires Next(s, c, s')
    ensures forall i | i in s.births :: i in s'.births && s'.births[i] == s.births[i]
    ensures s.log <= s'.log
  {
  }

  predicate Dead(s: State, i: Id) { i in s.births && (i in s.rows ==> !Live(s.rows[i])) }

  lemma StepKeepsDead(s: State, c: Change, s': State, i: Id)
    requires Next(s, c, s') && Dead(s, i)
    ensures Dead(s', i)
  {
  }

  /** A token that can no longer be refreshed, rotated, revoked or pruned, never can again. */
  lemma {:induction false} DeadStaysDead(states: seq<State>, changes: seq<Change>, j: nat, k: nat, i: Id)
    requires Run(states, changes) && j <= k < |states| && Dead(states[j], i)
    ensures Dead(states[k], i) && states[k].births[i] == states[j].births[i]
    decreases k
  {
    if j < k {
      assert Next(states[k - 1], changes[k - 1], states[k]);
      DeadStaysDead(states, changes, j, k - 1, i);
      hide Next;
      StepGrows(states[k - 1], changes[k - 1], states[k]);
      StepKeepsDead(states[k - 1], changes[k - 1], states[k], i);
    }
  }

  /** Refreshing with the token of a dead session changes nothing. */
  lemma DeadTokenRefused(states: seq<State>, changes: seq<Change>, k: nat, i: Id)
    requires Run(states, changes) && k < |changes| && Dead(states[k], i)
    requires changes[k].Refresh? && changes[k].previous == states[k].births[i].hash
    ensures states[k + 1] == states[k]
  {
    RunKeepsInv(states, changes, k);
    assert Next(states[k], changes[k], states[k + 1]);
  }

  /** Logging out ends the token it names and leaves every other session as it was. */
  lemma LogoutEndsToken(states: seq<State>, changes: seq<Change>, k: nat, i: Id)
    requires Run(states, changes) && k < |changes| && changes[k].Logout? && i in states[k].births
    ensures if states[k].births[i].hash == changes[k].hash then Dead(states[k + 1], i)
            else i in states[k].rows ==> i in states[k + 1].rows && states[k + 1].rows[i] == states[k].rows[i]
  {
    RunKeepsInv(states, changes, k);
    assert Next(states[k], changes[k], states[k + 1]);
  }

  lemma {:induction false} LogGrows(states: seq<State>, changes: seq<Change>, j: nat, k: nat)
    requires Run(states, changes) && j <= k < |states|
    ensures states[j].log <= states[k].log
    ensures forall i | i in states[j].births :: i in states[k].births && states[k].births[i] == states[j].births[i]
    decreases k
  {
    if j < k {
      assert Next(states[k - 1], changes[k - 1], states[k]);
      hide Next;
      LogGrows(states, changes, j, k - 1);
      StepGrows(states[k - 1], changes[k - 1], states[k]);
    }
  }

  /** After all of a user's sessions are revoked (by request or a password reset), no session or
      token from before leads to a live one: what is live later stems from a later sign-in, and
      no rotation starts from an earlier session. */
  lemma RevokeAllIsFinal(states: seq<State>, changes: seq<Change>, j: nat, k: nat, i: Id)
    requires Run(states, changes) && j < k < |states| && changes[j].RevokeAll?
    requires i in states[k].rows && states[k].rows[i].origin.user == changes[j].user && Live(states[k].rows[i])
    ensures i in states[k].births && states[k].births[i].root !in states[j].births && i !in states[j].births
    ensures forall e | |states[j].log| <= e < |states[k].log| && states[k].log[e].Rotated? ::
              states[k].log[e].from in states[j].births ==>
                states[j].births[states[k].log[e].from].origin.user != changes[j].user
  {
    RunKeepsInv(states, changes, k);
    RunKeepsInv(states, changes, j);
    LogGrows(states, changes, j, j + 1);
    LogGrows(states, changes, j + 1, k);
    assert Next(states[j], changes[j], states[j + 1]);
    hide Run;
    FinalAt(states[j], changes[j].user, states[j + 1], states[k], i);
  }

  lemma FinalAt(s: State, user: UserId, s': State, t: State, i: Id)
    requires Inv(s) && Inv(t) && Next(s, RevokeAll(user), s') && s'.log <= t.log
    requires forall x | x in s.births :: x in t.births && t.births[x] == s.births[x]
    requires i in t.rows && t.rows[i].origin.user == user && Live(t.rows[i])
    ensures i in t.births && t.births[i].root !in s.births && i !in s.births
    ensures forall e | |s.log| <= e < |t.log| && t.log[e].Rotated? ::
              t.log[e].from in s.births ==> s.births[t.log[e].from].origin.user != user
  {
    var n := |s.log|;
    var earlier := set x | x in s.births && s.births[x].origin.user == user;
    assert t.log[n] == s'.log[n] == RevokedAll(earlier);
    assert Spent(t, SpentBy(t.log[n])) && Closed(t, earlier);
    assert i !in earlier;
    var r := t.births[i].root;
    assert t.births[r].origin.user == user;
    forall e | n <= e < |t.log| && t.log[e].Rotated? && t.log[e].from in s.births
      ensures s.births[t.log[e].from].origin.user != user
    {
      assert t.log[e].from !in SpentBy(t.log[n]);
    }
  }

  // ----- the code

  datatype ResetToken = ResetToken(user: UserId, used: bool, expiresAt: int)

  datatype Reply = Unauthorized | Tokens(user: UserId, sid: Id) | Invalid | Failed | Done

  /** The three statements of a password reset and its commit. */
  datatype Stage = Begin | UpdatePassword | MarkUsed | RevokeSessions | Commit

  class AuthStore {
    var now: int
    var rows: Table
    var passwords: map<UserId, string>
    var resets: map<string, ResetToken>
    ghost var births: map<Id, Birth>
    ghost var log: seq<Event>

    ghost function Current(): State
      reads this
    {
      State(now, rows, births, log)
    }

    constructor (now: int)
      ensures Inv(Current()) && rows == map[] && births == map[] && log == [] && this.now == now
    {
      this.now, rows, passwords, resets, births, log := now, map[], map[], map[], map[], [];
    }

    /** `Service.CreateSession` */
    method CreateSession(user: UserId, hash: string, agent: string, ip: string, expiryDays: int, id: Id)
      requires Inv(Current()) && Fresh(Current(), id, hash)
      modifies this`rows, this`births, this`log
      ensures Next(old(Current()), Login(id, user, hash, Text(agent), Text(ip), expiryDays), Current()) && Inv(Current())
      ensures RowsFollow(Login(id, user, hash, Text(agent), Text(ip), expiryDays), old(rows), rows, now)
    {
      var origin := Origin(user, Text(agent), Text(ip), now);
      ghost var s := Current();
      rows := rows[id := Session(origin, hash, None, now + expiryDays * DAY, None)];
      births := births[id := Birth(id, hash, origin)];
      log := log + [SignedIn(id)];
      NextKeeps(s, Login(id, user, hash, Text(agent), Text(ip), expiryDays), Current());
      ChangeMeans(s, Login(id, user, hash, Text(agent), Text(ip), expiryDays), Current());
    }

    /** `Service.RotateSession`: the new session's id, or None for "unauthorized". */
    method RotateSession(previous: string, hash: string, id: Id) returns (sid: Option<Id>)
      requires Inv(Current()) && Fresh(Current(), id, hash)
      modifies this`rows, this`births, this`log
      ensures Next(old(Current()), Change.Refresh(previous, hash, id), Current()) && Inv(Current())
      ensures RowsFollow(Change.Refresh(previous, hash, id), old(rows), rows, now)
      ensures sid.None? ==> Current() == old(Current())
      ensures sid.Some? ==> sid == Some(id) && exists p :: RefreshedFrom(old(Current()), p, previous, hash, id, Current())
    {
      ghost var s := Current();
      assert RowsBorn(s);
      var p := FindLive(previous);
      if p.None? {
        ChangeMeans(s, Change.Refresh(previous, hash, id), s);
        return None;
      }
      var row := rows[p.value];
      hide Inv;
      hide Fresh;
      rows := rows[p.value := Revoked(row, now)][id := Session(row.origin, hash, Some(p.value), now + RETENTION, None)];
      births := births[id := Birth(births[p.value].root, hash, births[p.value].origin)];
      log := log + [Rotated(p.value, id)];
      assert RefreshedFrom(s, p.value, previous, hash, id, Current());
      NextKeeps(s, Change.Refresh(previous, hash, id), Current());
      ChangeMeans(s, Change.Refresh(previous, hash, id), Current());
      return Some(id);
    }

    method FindLive(hash: string) returns (p: Option<Id>)
      ensures p.Some? ==> LiveWith(rows, hash, p.value)
      ensures p.None? ==> forall i :: !LiveWith(rows, hash, i)
    {
      var left := rows.Keys;
      while left != {}
        invariant left <= rows.Keys
        invariant forall i | i in rows && i !in left :: !LiveWith(rows, hash, i)
        decreases left
      {
        var i :| i in left;
        if rows[i].hash == hash && rows[i].revokedAt.None? {
          return Some(i);
        }
        left := left - {i};
      }
      return None;
    }

    method RevokeSession(hash: string)
      requires Inv(Current())
      modifies this`rows
      ensures Next(old(Current()), Change.Logout(hash), Current()) && Inv(Current())
      ensures RowsFollow(Change.Logout(hash), old(rows), rows, now)
    {
      ghost var s := Current();
      rows := AfterRevokeByHash(rows, hash, now);
      NextKeeps(s, Change.Logout(hash), Current());
      ChangeMeans(s, Change.Logout(hash), Current());
    }

    method RevokeAllSessions(user: UserId)
      requires Inv(Current())
      modifies this`rows, this`log
      ensures Next(old(Current()), RevokeAll(user), Current()) && Inv(Current())
      ensures RowsFollow(RevokeAll(user), old(rows), rows, now)
    {
      ghost var s := Current();
      rows := AfterRevokeAll(rows, user, now);
      log := log + [RevokedAll(set i | i in births && births[i].origin.user == user)];
      NextKeeps(s, RevokeAll(user), Current());
      ChangeMeans(s, RevokeAll(user), Current());
    }

    method RevokeSessionByID(id: Id, user: UserId) returns (found: bool)
      requires Inv(Current())
      modifies this`rows
      ensures Next(old(Current()), RevokeOne(id, user), Current()) && Inv(Current())
      ensures RowsFollow(RevokeOne(id, user), old(rows), rows, now)
      ensures found <==> id in old(rows) && old(rows)[id].origin.user == user && Live(old(rows)[id])
    {
      ghost var s := Current();
      found := id in rows && rows[id].origin.user == user && rows[id].revokedAt.None?;
      rows := AfterRevokeById(rows, id, user, now);
      NextKeeps(s, RevokeOne(id, user), Current());
      ChangeMeans(s, RevokeOne(id, user), Current());
    }

    method DeleteStaleSessions()
      requires Inv(Current())
      modifies this`rows
      ensures Next(old(Current()), Prune, Current()) && Inv(Current())
      ensures RowsFollow(Prune, old(rows), rows, now)
    {
      ghost var s := Current();
      rows := AfterPrune(rows, now);
      NextKeeps(s, Prune, Current());
      ChangeMeans(s, Prune, Current());
    }

    /** `Handler.Refresh`: new tokens for the session's own user, under the new session's id. */
    method Refresh(previous: string, hash: string, id: Id) returns (reply: Reply)
      requires Inv(Current()) && Fresh(Current(), id, hash)
      modifies this`rows, this`births, this`log
      ensures Next(old(Current()), Change.Refresh(previous, hash, id), Current()) && Inv(Current())
      ensures RowsFollow(Change.Refresh(previous, hash, id), old(rows), rows, now)
      ensures reply == Unauthorized || (reply.Tokens? && reply.sid == id)
      ensures reply == Unauthorized <==> forall i :: !LiveWith(old(rows), previous, i)
      ensures reply.Tokens? ==> forall i | LiveWith(old(rows), previous, i) :: reply.user == old(rows)[i].origin.user
    {
      ghost var s := Current();
      var sid := RotateSession(previous, hash, id);
      if sid.None? {
        assert forall p :: !RefreshedFrom(s, p, previous, hash, id, s);
        return Unauthorized;
      }
      ghost var p :| RefreshedFrom(s, p, previous, hash, id, Current());
      assert forall i | LiveWith(s.rows, previous, i) :: i == p;
      return Tokens(rows[id].origin.user, sid.value);
    }

    /** `Handler.Logout` */
    method Logout(refreshToken: string)
      requires Inv(Current())
      modifies this`rows
      ensures refreshToken == "" ==> Current() == old(Current())
      ensures refreshToken != "" ==>
                Next(old(Current()), Change.Logout(refreshToken), Current()) && RowsFollow(Change.Logout(refreshToken), old(rows), rows, now)
      ensures Inv(Current())
    {
      if refreshToken != "" {
        RevokeSession(refreshToken);
      }
    }

    /** `Handler.ResetPassword`, in one transaction: all of it or nothing. */
    method ResetPassword(token: string, newPassword: string, passwordHash: string,
                         faults: Stage -> bool) returns (reply: Reply)
      requires Inv(Current())
      modifies this`rows, this`log, this`passwords, this`resets
      ensures Inv(Current())
      ensures reply == Done <==>
                && |newPassword| >= 8 && (forall x :: !faults(x))
                && token in old(resets) && !old(resets)[token].used && old(resets)[token].expiresAt > now
      ensures reply == Done ==>
                var user := old(resets)[token].user;
                && Next(old(Current()), RevokeAll(user), Current()) && RowsFollow(RevokeAll(user), old(rows), rows, now)
                && passwords == old(passwords)[user := passwordHash]
                && resets == old(resets)[token := old(resets)[token].(used := true)]
      ensures reply != Done ==>
                Current() == old(Current()) && passwords == old(passwords) && resets == old(resets)
    {
      if |newPassword| < 8 {
        return Invalid;
      }
      if token !in resets || resets[token].used || resets[token].expiresAt <= now {
        return Invalid;
      }
      var user := resets[token].user;
      if faults(Begin) {
        return Failed;
      }
      var savedRows, savedPasswords, savedResets := rows, passwords, resets;
      ghost var savedLog := log;
      hide Inv;
      passwords := passwords[user := passwordHash];
      if faults(UpdatePassword) {
        passwords := savedPasswords;
        return Failed;
      }
      resets := resets[token := resets[token].(used := true)];
      if faults(MarkUsed) {
        passwords, resets := savedPasswords, savedResets;
        return Failed;
      }
      RevokeAllSessions(user);
      if faults(RevokeSessions) || faults(Commit) {
        rows, passwords, resets, log := savedRows, savedPasswords, savedResets, savedLog;
        return Failed;
      }
      assert forall x :: !faults(x) by {
        forall x: Stage
          ensures !faults(x)
        {
          match x { case Begin => case UpdatePassword => case MarkUsed => case RevokeSessions => case Commit => }
        }
      }
      return Done;
    }
  }

  function Text(s: string): Option<string> { if s == "" then None else Some(s) }
}
