/**
  One-time user tokens, the notification rows that carry them, and the calls
  that spend them.  Issuing is one transaction; spending is a sequence of
  separately committed statements, because that code passes the outer context.
*/
module UserTokens {
  import opened Ids
  import opened Options

  type Id = nat
  type Time = int
  type CallId = nat

  const HOUR: Time := 3600

  datatype TokenType = EmailVerification | PasswordReset | PasswordSet

  datatype Status = Pending | Active | Deleted

  datatype User = User(
    email: string, status: Status, passwordHash: Option<string>, emailVerified: bool, softDeleted: bool)

  datatype Token = Token(
    userId: Id, kind: TokenType, hash: Digest, expiresAt: Time, usedAt: Option<Time>, revokedAt: Option<Time>)
  {
    predicate ValidAt(now: Time) {
      usedAt.None? && revokedAt.None? && now < expiresAt
    }
  }

  /** An outbox row, reduced to what its payload says about the token. */
  datatype Notice = Notice(userId: Id, kind: TokenType, raw: string)

  type Users = map<Id, User>
  type Tokens = map<Id, Token>
  type Outbox = map<Id, Notice>

  predicate Valid(ts: Tokens, t: Id, now: Time) {
    t in ts && ts[t].ValidAt(now)
  }

  // ----- Statements -----

  function RevokeByUserAndType(ts: Tokens, u: Id, kind: TokenType, now: Time): Tokens {
    map t | t in ts ::
      if ts[t].userId == u && ts[t].kind == kind && ts[t].ValidAt(now) then ts[t].(revokedAt := Some(now)) else ts[t]
  }

  predicate Exists(users: Users, u: Id) {
    u in users && !users[u].softDeleted
  }

  /** A new token row: unused id and, by the unique index, an unused hash. */
  predicate NewToken(ts: Tokens, t: Id, raw: string) {
    t !in ts && forall x :: x in ts ==> ts[x].hash != Digest(raw)
  }

  datatype Issued = Issued(tokens: Tokens, outbox: Outbox)

  /** The common part of the four issuing transactions. */
  function Issue(
    db: Issued, u: Id, revoked: TokenType, kind: TokenType, ttl: Time, raw: string, t: Id, e: Id, now: Time): Issued
  {
    Issued(RevokeByUserAndType(db.tokens, u, revoked, now)[t := Token(u, kind, Digest(raw), now + ttl, None, None)],
           db.outbox[e := Notice(u, kind, raw)])
  }

  // ----- At most one valid token per user and type -----

  ghost predicate OneValid(ts: Tokens, now: Time) {
    forall t, x ::
      && Valid(ts, t, now) && Valid(ts, x, now)
      && ts[t].userId == ts[x].userId && ts[t].kind == ts[x].kind
      ==> t == x
  }

  ghost predicate OtherValid(ts: Tokens, u: Id, kind: TokenType, now: Time) {
    exists t :: Valid(ts, t, now) && ts[t].userId == u && ts[t].kind == kind
  }

  /**
    Issuing keeps at most one valid token per user and type exactly when it
    revokes the type it creates, or the user had no valid token of that type.
    ResendVerification creates an email verification token whatever type it revokes.
  */
  lemma IssueKeepsOneValid(
    db: Issued, u: Id, revoked: TokenType, kind: TokenType, ttl: Time, raw: string, t: Id, e: Id, now: Time)
    requires OneValid(db.tokens, now) && NewToken(db.tokens, t, raw) && ttl > 0
    ensures OneValid(Issue(db, u, revoked, kind, ttl, raw, t, e, now).tokens, now)
            <==> revoked == kind || !OtherValid(db.tokens, u, kind, now)
  {
    var ts' := Issue(db, u, revoked, kind, ttl, raw, t, e, now).tokens;
    assert Valid(ts', t, now);
    if revoked != kind && OtherValid(db.tokens, u, kind, now) {
      var x :| Valid(db.tokens, x, now) && db.tokens[x].userId == u && db.tokens[x].kind == kind;
      assert x != t && Valid(ts', x, now);
    } else {
      forall x, y | Valid(ts', x, now) && Valid(ts', y, now) && ts'[x].userId == ts'[y].userId
        && ts'[x].kind == ts'[y].kind
        ensures x == y
      {
        if x != t { assert Valid(db.tokens, x, now); }
        if y != t { assert Valid(db.tokens, y, now); }
      }
    }
  }

  /** Revoking the created type leaves exactly the new token valid and touches no other user or type. */
  lemma IssueLeavesExactlyOne(db: Issued, u: Id, kind: TokenType, ttl: Time, raw: string, t: Id, e: Id, now: Time)
    requires NewToken(db.tokens, t, raw) && ttl > 0
    ensures var ts' := Issue(db, u, kind, kind, ttl, raw, t, e, now).tokens;
      && (forall x :: Valid(ts', x, now) && ts'[x].userId == u && ts'[x].kind == kind <==> x == t)
      && (forall x :: x in db.tokens && (db.tokens[x].userId != u || db.tokens[x].kind != kind) ==>
            x in ts' && ts'[x] == db.tokens[x])
  {
  }

  // ----- One token per notice -----

  /** What a token row and its notification row have in common. */
  datatype Label = Label(hash: Digest, userId: Id, kind: TokenType)

  function TokenLabel(k: Token): Label {
    Label(k.hash, k.userId, k.kind)
  }

  function NoticeLabel(n: Notice): Label {
    Label(Digest(n.raw), n.userId, n.kind)
  }

  ghost function TokenLabels(ts: Tokens): set<Label> {
    set t | t in ts :: TokenLabel(ts[t])
  }

  ghost function NoticeLabels(outbox: Outbox): set<Label> {
    set e | e in outbox :: NoticeLabel(outbox[e])
  }

  /**
    Token rows and notification rows correspond one to one: both tables carry
    the same labels, and no label, indeed no hash, occurs twice in either.
  */
  ghost predicate OneToOne(db: Issued) {
    && TokenLabels(db.tokens) == NoticeLabels(db.outbox)
    && (forall t, x :: t in db.tokens && x in db.tokens && db.tokens[t].hash == db.tokens[x].hash ==> t == x)
    && (forall e, f :: e in db.outbox && f in db.outbox && db.outbox[e].raw == db.outbox[f].raw ==> e == f)
    && |db.tokens| == |db.outbox|
  }

  /** Changing dates on token rows does not change their labels. */
  ghost predicate SameTokens(ts: Tokens, ts': Tokens) {
    && ts'.Keys == ts.Keys
    && forall t :: t in ts ==> ts'[t].hash == ts[t].hash && ts'[t].userId == ts[t].userId && ts'[t].kind == ts[t].kind
  }

  lemma OneToOneKept(db: Issued, ts': Tokens)
    requires OneToOne(db) && SameTokens(db.tokens, ts')
    ensures OneToOne(Issued(ts', db.outbox))
  {
    forall l
      ensures l in TokenLabels(ts') <==> l in TokenLabels(db.tokens)
    {
      if l in TokenLabels(db.tokens) {
        var t :| t in db.tokens && l == TokenLabel(db.tokens[t]);
        assert l == TokenLabel(ts'[t]);
      }
      if l in TokenLabels(ts') {
        var t :| t in ts' && l == TokenLabel(ts'[t]);
        assert l == TokenLabel(db.tokens[t]);
      }
    }
    SameSize(db.tokens, ts');
  }

  lemma SameSize<A, B>(m: map<A, B>, n: map<A, B>)
    requires m.Keys == n.Keys
    ensures |m| == |n|
  {
    assert |m| == |m.Keys| && |n| == |n.Keys|;
  }

  lemma OneToOneExtended(db: Issued, t: Id, token: Token, e: Id, notice: Notice)
    requires OneToOne(db) && t !in db.tokens && e !in db.outbox && TokenLabel(token) == NoticeLabel(notice)
    requires forall x :: x in db.tokens ==> db.tokens[x].hash != token.hash
    ensures OneToOne(Issued(db.tokens[t := token], db.outbox[e := notice]))
  {
    hide TokenLabels, NoticeLabels;
    RawIsNew(db, token, notice);
    LabelsGrow(db, t, token, e, notice);
    SizeGrows(db.tokens, t, token);
    SizeGrows(db.outbox, e, notice);
  }

  lemma SizeGrows<A, B>(m: map<A, B>, k: A, v: B)
    requires k !in m
    ensures |m[k := v]| == |m| + 1
  {
    assert m[k := v].Keys == m.Keys + {k};
    assert |m| == |m.Keys| && |m[k := v]| == |m[k := v].Keys|;
  }

  /** A hash that no token carries has no notice either. */
  lemma RawIsNew(db: Issued, token: Token, notice: Notice)
    requires TokenLabels(db.tokens) == NoticeLabels(db.outbox) && TokenLabel(token) == NoticeLabel(notice)
    requires forall x :: x in db.tokens ==> db.tokens[x].hash != token.hash
    ensures forall f :: f in db.outbox ==> db.outbox[f].raw != notice.raw
  {
    forall f | f in db.outbox
      ensures db.outbox[f].raw != notice.raw
    {
      assert NoticeLabel(db.outbox[f]) in TokenLabels(db.tokens);
    }
  }

  lemma LabelsGrow(db: Issued, t: Id, token: Token, e: Id, notice: Notice)
    requires t !in db.tokens && e !in db.outbox
    ensures TokenLabels(db.tokens[t := token]) == TokenLabels(db.tokens) + {TokenLabel(token)}
    ensures NoticeLabels(db.outbox[e := notice]) == NoticeLabels(db.outbox) + {NoticeLabel(notice)}
  {
    var ts', outbox' := db.tokens[t := token], db.outbox[e := notice];
    assert forall x :: x in db.tokens ==> x in ts' && ts'[x] == db.tokens[x];
    assert forall f :: f in db.outbox ==> f in outbox' && outbox'[f] == db.outbox[f];
    assert ts'[t] == token && outbox'[e] == notice;
  }

  /** A committed issue adds one token and its one notice. */
  lemma IssueKeepsOneToOne(
    db: Issued, u: Id, revoked: TokenType, kind: TokenType, ttl: Time, raw: string, t: Id, e: Id, now: Time)
    requires OneToOne(db) && NewToken(db.tokens, t, raw) && e !in db.outbox
    ensures OneToOne(Issue(db, u, revoked, kind, ttl, raw, t, e, now))
  {
    var ts1 := RevokeByUserAndType(db.tokens, u, revoked, now);
    OneToOneKept(db, ts1);
    OneToOneExtended(Issued(ts1, db.outbox), t, Token(u, kind, Digest(raw), now + ttl, None, None), e,
                     Notice(u, kind, raw));
  }
}
