/**
  The two tables behind the login sessions and the refresh tokens, and the
  effect of every statement and transaction that writes them.

  A row is a value; a table is a map from row id to row.  A statement
  `UPDATE ... WHERE` is a function on tables, and a transaction is a function
  that either yields the new tables or `None` when it rolls back.
*/
module SessionTables {
  import opened Ids
  import opened Options

  type Id = nat
  type Time = int

  /** The all-zero identifier, which no row carries. */
  const NIL: Id := 0

  datatype Session = Session(userId: Id, expiresAt: Time, revokedAt: Option<Time>) {
    predicate ActiveAt(now: Time) {
      revokedAt.None? && now < expiresAt
    }
  }

  datatype RefreshToken = RefreshToken(
    sessionId: Id, userId: Id, hash: Digest, expiresAt: Time,
    revokedAt: Option<Time>, replacedBy: Option<Id>)
  {
    predicate Live() {
      revokedAt.None?
    }
  }

  type Sessions = map<Id, Session>
  type Tokens = map<Id, RefreshToken>

  predicate Active(ss: Sessions, x: Id, now: Time) {
    x in ss && ss[x].ActiveAt(now)
  }

  predicate Live(ts: Tokens, t: Id) {
    t in ts && ts[t].Live()
  }

  // ----- Row counts that the repositories turn into ErrNotFound -----

  predicate UserHasLiveToken(ts: Tokens, userId: Id) {
    exists t | t in ts :: ts[t].userId == userId && ts[t].Live()
  }

  predicate SessionHasLiveToken(ts: Tokens, x: Id) {
    exists t | t in ts :: ts[t].sessionId == x && ts[t].Live()
  }

  predicate UserHasActiveSession(ss: Sessions, userId: Id, now: Time) {
    exists x | x in ss :: ss[x].userId == userId && ss[x].ActiveAt(now)
  }

  // ----- Statements -----

  function RevokeToken(ts: Tokens, t: Id, now: Time): Tokens
    requires t in ts
  {
    ts[t := ts[t].(revokedAt := Some(now))]
  }

  function RevokeTokensOfUser(ts: Tokens, userId: Id, now: Time): Tokens {
    map t | t in ts ::
      if ts[t].userId == userId && ts[t].Live() then ts[t].(revokedAt := Some(now)) else ts[t]
  }

  function RevokeTokensOfSession(ts: Tokens, x: Id, now: Time): Tokens {
    map t | t in ts ::
      if ts[t].sessionId == x && ts[t].Live() then ts[t].(revokedAt := Some(now)) else ts[t]
  }

  function RevokeSession(ss: Sessions, x: Id, now: Time): Sessions {
    if x in ss && ss[x].revokedAt.None? then ss[x := ss[x].(revokedAt := Some(now))] else ss
  }

  function RevokeSessionsOfUser(ss: Sessions, userId: Id, now: Time): Sessions {
    map x | x in ss ::
      if ss[x].userId == userId && ss[x].ActiveAt(now) then ss[x].(revokedAt := Some(now)) else ss[x]
  }

  // ----- Transactions -----

  datatype Tables = Tables(sessions: Sessions, tokens: Tokens)

  /**
    Rotation: revoke the presented token if it is still live, insert its
    successor, link the two.  The compare-and-swap on the first statement
    rolls everything back when the token has been revoked in the meantime.
  */
  function RotateTx(ts: Tokens, t: Id, next: Id, row: RefreshToken, now: Time): Option<Tokens> {
    if !Live(ts, t) then None
    else
      var revoked := RevokeToken(ts, t, now);
      var created := revoked[next := row];
      Some(created[t := created[t].(replacedBy := Some(next))])
  }

  /** Logout of one session; without a live token the token update fails the transaction. */
  function LogoutTx(db: Tables, x: Id, now: Time): Option<Tables> {
    if !SessionHasLiveToken(db.tokens, x) then None
    else Some(Tables(RevokeSession(db.sessions, x, now), RevokeTokensOfSession(db.tokens, x, now)))
  }

  /** Logout everywhere; without a live token the token update fails the transaction. */
  function LogoutAllTx(db: Tables, userId: Id, now: Time): Option<Tables> {
    if !UserHasLiveToken(db.tokens, userId) then None
    else Some(Tables(RevokeSessionsOfUser(db.sessions, userId, now), RevokeTokensOfUser(db.tokens, userId, now)))
  }

  /** Reuse handling tolerates empty updates on both tables, so it always commits. */
  function ReuseTx(db: Tables, userId: Id, now: Time): Tables {
    Tables(RevokeSessionsOfUser(db.sessions, userId, now), RevokeTokensOfUser(db.tokens, userId, now))
  }

  /**
    Containment at the commit of reuse handling: the user is left without a
    live token and without an active session, and no row of anybody else moves.
  */
  lemma ReuseContains(db: Tables, userId: Id, now: Time)
    requires forall t :: t in db.tokens ==>
               db.tokens[t].sessionId in db.sessions
                 && db.sessions[db.tokens[t].sessionId].userId == db.tokens[t].userId
    ensures var d := ReuseTx(db, userId, now);
      && !UserHasLiveToken(d.tokens, userId)
      && !UserHasActiveSession(d.sessions, userId, now)
      && d.tokens.Keys == db.tokens.Keys && d.sessions.Keys == db.sessions.Keys
      && (forall t :: t in db.tokens && d.tokens[t] != db.tokens[t] ==>
          db.tokens[t].userId == userId && Live(db.tokens, t))
      && (forall x :: x in db.sessions && d.sessions[x] != db.sessions[x] ==>
            db.sessions[x].userId == userId && Active(db.sessions, x, now))
      && (forall x :: x in db.sessions && db.sessions[x].userId == userId ==> !SessionHasLiveToken(d.tokens, x))
  {
    var d := ReuseTx(db, userId, now);
    forall x | x in db.sessions && db.sessions[x].userId == userId
      ensures !SessionHasLiveToken(d.tokens, x)
    {
      forall t | t in d.tokens && d.tokens[t].sessionId == x
        ensures !d.tokens[t].Live()
      {
        assert db.tokens[t].userId == userId;
      }
    }
  }

  /**
    A session logs out exactly when one of its tokens is live.  The orphan that
    a half-finished login leaves behind therefore cannot be logged out.
  */
  lemma LogoutCommitsIffLiveToken(db: Tables, x: Id, now: Time)
    ensures LogoutTx(db, x, now).Some? <==> exists t :: Live(db.tokens, t) && db.tokens[t].sessionId == x
    ensures LogoutTx(db, x, now).Some? ==>
      var d := LogoutTx(db, x, now).value;
      && (x in d.sessions ==> d.sessions[x].revokedAt.Some?)
      && !SessionHasLiveToken(d.tokens, x)
      && (forall y :: y in db.sessions && y != x ==> y in d.sessions && d.sessions[y] == db.sessions[y])
      && (forall t :: t in db.tokens && db.tokens[t].sessionId != x ==> t in d.tokens && d.tokens[t] == db.tokens[t])
  {
    if SessionHasLiveToken(db.tokens, x) {
      var t :| t in db.tokens && db.tokens[t].sessionId == x && db.tokens[t].Live();
      assert Live(db.tokens, t);
    }
  }

  /** Logging out everywhere commits exactly when the user has a live token in some session. */
  lemma LogoutAllCommitsIffLiveToken(db: Tables, userId: Id, now: Time)
    ensures LogoutAllTx(db, userId, now).Some? <==> exists t :: Live(db.tokens, t) && db.tokens[t].userId == userId
    ensures LogoutAllTx(db, userId, now).Some? ==>
      var d := LogoutAllTx(db, userId, now).value;
      && !UserHasActiveSession(d.sessions, userId, now) && !UserHasLiveToken(d.tokens, userId)
      && (forall y :: y in db.sessions && db.sessions[y].userId != userId ==>
          y in d.sessions && d.sessions[y] == db.sessions[y])
      && (forall t :: t in db.tokens && db.tokens[t].userId != userId ==> t in d.tokens && d.tokens[t] == db.tokens[t])
  {
    if UserHasLiveToken(db.tokens, userId) {
      var t :| t in db.tokens && db.tokens[t].userId == userId && db.tokens[t].Live();
      assert Live(db.tokens, t);
    }
  }
}
