/**
  Register, CreateUser, ResendVerification, ForgotPassword, VerifyEmail,
  SetPassword and ResetPassword in the form of the source, with a possible
  failure at every repository call and other calls running in between.
*/
module UserTokenService {
  import opened Ids
  import opened Options
  import opened UserTokens
  import opened UserTokenProtocol
  import opened UserTokenRaces

  ghost predicate Reaches(s: State, s': State) {
    exists evs :: ValidRun(s, evs) && Run(s, evs) == s'
  }

  ghost predicate OthersReach(me: CallId, s: State, s': State) {
    exists evs :: ValidRun(s, evs) && (forall e :: e in evs ==> Actor(e) != Some(me)) && Run(s, evs) == s'
  }

  /** A run in which call `me` has written a user row or not, as `wrote` says. */
  ghost predicate Ran(me: CallId, s: State, s': State, wrote: bool) {
    exists evs :: ValidRun(s, evs) && Run(s, evs) == s' && (wrote <==> AnyWrite(evs, me))
  }

  lemma RanSelf(me: CallId, s: State)
    ensures Ran(me, s, s, false)
  {
    assert ValidRun(s, []) && Run(s, []) == s && !AnyWrite([], me);
  }

  lemma RanStep(me: CallId, s0: State, s: State, e: Event, wrote: bool)
    requires Ran(me, s0, s, wrote) && Enabled(s, e)
    ensures Ran(me, s0, Next(s, e), wrote || WritesUser(e, me))
  {
    var evs :| ValidRun(s0, evs) && Run(s0, evs) == s && (wrote <==> AnyWrite(evs, me));
    var evs' := Extend(s0, evs, e);
    assert AnyWrite(evs', me) <==> AnyWrite(evs, me) || WritesUser(e, me);
  }

  lemma RanTransitive(me: CallId, a: State, b: State, c: State, wrote: bool, more: bool)
    requires Ran(me, a, b, wrote) && Ran(me, b, c, more)
    ensures Ran(me, a, c, wrote || more)
  {
    var p :| ValidRun(a, p) && Run(a, p) == b && (wrote <==> AnyWrite(p, me));
    var q :| ValidRun(b, q) && Run(b, q) == c && (more <==> AnyWrite(q, me));
    RunConcat(a, p, q);
    assert AnyWrite(p + q, me) <==> AnyWrite(p, me) || AnyWrite(q, me);
  }

  lemma RanReaches(me: CallId, s: State, s': State, wrote: bool)
    requires Ran(me, s, s', wrote)
    ensures Reaches(s, s')
  {
  }

  lemma ReachesSelf(s: State)
    ensures Reaches(s, s)
  {
    assert ValidRun(s, []) && Run(s, []) == s;
  }

  lemma ReachesStep(s0: State, s: State, e: Event)
    requires Reaches(s0, s) && Enabled(s, e)
    ensures Reaches(s0, Next(s, e))
  {
    var evs :| ValidRun(s0, evs) && Run(s0, evs) == s;
    var evs' := Extend(s0, evs, e);
  }

  lemma ReachesTransitive(a: State, b: State, c: State)
    requires Reaches(a, b) && Reaches(b, c)
    ensures Reaches(a, c)
  {
    var p :| ValidRun(a, p) && Run(a, p) == b;
    var q :| ValidRun(b, q) && Run(b, q) == c;
    RunConcat(a, p, q);
  }

  /** Rows of users and tokens are never removed, and a token keeps its identity. */
  ghost predicate Keeps(s: State, s': State) {
    && s.users.Keys <= s'.users.Keys
    && forall t :: t in s.tokens ==> t in s'.tokens && s'.tokens[t].hash == s.tokens[t].hash
  }

  lemma {:induction false} OthersKeep(me: CallId, s: State, evs: seq<Event>)
    requires ValidRun(s, evs) && forall e :: e in evs ==> Actor(e) != Some(me)
    ensures me in s.calls <==> me in Run(s, evs).calls
    ensures me in s.calls ==> Run(s, evs).calls[me] == s.calls[me]
    ensures Keeps(s, Run(s, evs))
    decreases |evs|
  {
    if evs != [] {
      OthersKeepStep(me, s, evs[0]);
      OthersKeep(me, Next(s, evs[0]), evs[1..]);
    }
  }

  lemma OthersKeepStep(me: CallId, s: State, e: Event)
    requires Enabled(s, e) && Actor(e) != Some(me)
    ensures me in s.calls <==> me in Next(s, e).calls
    ensures me in s.calls ==> Next(s, e).calls[me] == s.calls[me]
    ensures Keeps(s, Next(s, e))
  {
  }

  lemma OthersFacts(me: CallId, s: State, s': State)
    requires Inv(s) && OthersReach(me, s, s')
    ensures Ran(me, s, s', false) && Inv(s') && Keeps(s, s')
    ensures me in s.calls <==> me in s'.calls
    ensures me in s.calls ==> s'.calls[me] == s.calls[me]
  {
    var evs :| ValidRun(s, evs) && (forall e :: e in evs ==> Actor(e) != Some(me)) && Run(s, evs) == s';
    InvRun(s, evs);
    OthersKeep(me, s, evs);
    assert !AnyWrite(evs, me) by {
      assert Actor(StorePassword(me)) == Some(me) && Actor(StoreVerified(me)) == Some(me);
    }
  }

  lemma OthersTransitive(me: CallId, a: State, b: State, c: State)
    requires OthersReach(me, a, b) && OthersReach(me, b, c)
    ensures OthersReach(me, a, c)
  {
    var p :| ValidRun(a, p) && (forall e :: e in p ==> Actor(e) != Some(me)) && Run(a, p) == b;
    var q :| ValidRun(b, q) && (forall e :: e in q ==> Actor(e) != Some(me)) && Run(b, q) == c;
    RunConcat(a, p, q);
  }

  lemma OthersSelf(me: CallId, s: State)
    ensures OthersReach(me, s, s)
  {
    assert ValidRun(s, []) && Run(s, []) == s;
  }

  // ----- What the calls are refused for -----

  /** The unique index on addresses covers deleted users too. */
  predicate HasAddress(users: Users, email: string) {
    exists u | u in users :: users[u].email == email
  }

  predicate Taken(ts: Tokens, hash: Digest) {
    exists t | t in ts :: ts[t].hash == hash
  }

  /** White space in the sense of Go's `unicode.IsSpace`. */
  predicate Space(c: char) {
    || '\t' <= c <= '\r' || c == ' ' || c == '\U{85}' || c == '\U{A0}' || c == '\U{1680}'
    || '\U{2000}' <= c <= '\U{200A}' || c == '\U{2028}' || c == '\U{2029}' || c == '\U{202F}'
    || c == '\U{205F}' || c == '\U{3000}'
  }

  predicate Blank(text: string) {
    forall c :: c in text ==> Space(c)
  }

  /** The input checks of SetPassword and ResetPassword. */
  predicate BadInput(raw: string, password: string, confirm: string) {
    Blank(raw) || Blank(password) || Blank(confirm) || password != confirm
  }

  /** The token is valid for this raw value and type in `s`. */
  ghost predicate ReadValid(s: State, t: Id, raw: string, kind: TokenType) {
    Valid(s.tokens, t, s.clock) && s.tokens[t].hash == Digest(raw) && s.tokens[t].kind == kind
  }

  ghost predicate NoValidToken(ts: Tokens, now: Time, hash: Digest, kind: TokenType) {
    forall t :: Valid(ts, t, now) ==> ts[t].hash != hash || ts[t].kind != kind
  }

  ghost predicate NoneValid(s: State, raw: string, kind: TokenType) {
    NoValidToken(s.tokens, s.clock, Digest(raw), kind)
  }

  /** The user may not be given a password by a token of this type: gone, deleted, or not without one. */
  predicate MayNotSet(users: Users, u: Id, kind: TokenType) {
    || !Exists(users, u) || users[u].status == Deleted
    || (kind == PasswordSet && users[u].passwordHash.Some? && users[u].passwordHash.value != "")
  }

  predicate Gone(s: State, t: Id, u: Id) {
    !Exists(s.users, u) || (t in s.tokens && s.tokens[t].usedAt.Some?)
  }

  lemma MarkedIsUsed(s: State, me: CallId)
    requires Inv(s) && me in s.calls && s.calls[me].Marked?
    ensures s.calls[me].token in s.tokens && s.tokens[s.calls[me].token].usedAt.Some?
  {
  }

  class Store {
    var clock: Time
    var users: Users
    var tokens: Tokens
    var outbox: Outbox
    ghost var calls: map<CallId, Call>
    ghost var faults: nat  // failures met by the calls made through this object

    ghost function St(): State
      reads this
    {
      State(clock, users, tokens, outbox, calls)
    }

    constructor (now: Time)
      ensures Init(St()) && Inv(St())
    {
      clock, users, tokens, outbox, calls, faults := now, map[], map[], map[], map[], 0;
      new;
      InitInv(St());
    }

    /** Any run of other calls and services; the caller sees only this contract. */
    method Interfere(ghost me: CallId)
      modifies this
      ensures OthersReach(me, old(St()), St()) && faults == old(faults)
    {
      assert ValidRun(St(), []) && Run(St(), []) == St();
    }

    /** Others run; call `me` stays where it is. */
    method Yield(ghost me: CallId, ghost s0: State, ghost wrote: bool)
      requires Inv(St()) && Ran(me, s0, St(), wrote)
      modifies this
      ensures Inv(St()) && Ran(me, s0, St(), wrote) && Keeps(old(St()), St()) && faults == old(faults)
      ensures Reaches(old(St()), St())
      ensures me in old(calls) <==> me in calls
      ensures me in old(calls) ==> calls[me] == old(calls)[me]
    {
      Interfere(me);
      OthersFacts(me, old(St()), St());
      RanTransitive(me, s0, old(St()), St(), wrote, false);
      RanReaches(me, old(St()), St(), false);
    }

    /** Others run while the call has written nothing of its own. */
    method Pause(ghost me: CallId, ghost s0: State)
      requires Inv(St()) && OthersReach(me, s0, St())
      modifies this
      ensures Inv(St()) && OthersReach(me, s0, St()) && Keeps(old(St()), St()) && faults == old(faults)
    {
      Interfere(me);
      OthersFacts(me, old(St()), St());
      OthersTransitive(me, s0, old(St()), St());
    }

    /** Accounts for an atomic step that took `before` to the current tables. */
    ghost method Took(me: CallId, s0: State, before: State, e: Event, wrote: bool)
      requires Inv(before) && Ran(me, s0, before, wrote) && Enabled(before, e)
      requires St() == Next(before, e).(calls := before.calls)
      modifies this`calls
      ensures St() == Next(before, e) && Inv(St()) && Ran(me, s0, St(), wrote || WritesUser(e, me))
    {
      calls := Next(before, e).calls;
      InvStep(before, e);
      RanStep(me, s0, before, e, wrote);
    }

    // ----- Repositories -----

    /** The row of this e-mail, if there is one that is not soft-deleted. */
    method FindByEmail(email: string) returns (r: Result<Option<Id>>)
      modifies this`faults
      ensures if r.Ok? then faults == old(faults) else faults > old(faults)
      ensures r.Ok? && r.value.Some? ==> Exists(users, r.value.value) && users[r.value.value].email == email
      ensures r.Ok? && r.value.None? ==> forall u :: Exists(users, u) ==> users[u].email != email
    {
      var fault: bool := *;
      if fault {
        faults := faults + 1;
        return Err(Fault);
      }
      if u :| u in users && !users[u].softDeleted && users[u].email == email {
        r := Ok(Some(u));
      } else {
        r := Ok(None);
      }
    }

    method CreateUserRow(user: User) returns (err: Option<Error>, u: Id)
      modifies this`users, this`faults
      ensures faults >= old(faults) && (err.None? ==> faults == old(faults))
      ensures err.Some? && faults == old(faults) ==> HasAddress(old(users), user.email)
      ensures err.None? ==> u !in old(users) && users == old(users)[u := user]
      ensures err.Some? ==> users == old(users)
    {
      UnusedId(users.Keys);
      u :| u !in users;
      var fault: bool := *;
      if fault {
        faults := faults + 1;
        return Some(Fault), u;
      }
      if exists x | x in users :: users[x].email == user.email { return Some(Fault), u; }
      users := users[u := user];
      err := None;
    }

    /** Afterwards the user has no valid token of the type; every other row is as it was. */
    method RevokeTokens(u: Id, kind: TokenType) returns (err: Option<Error>)
      modifies this`tokens, this`faults
      ensures if err.None? then faults == old(faults) else faults > old(faults)
      ensures tokens.Keys == old(tokens).Keys
      ensures err.None? ==> forall t :: Valid(tokens, t, clock) ==> tokens[t].userId != u || tokens[t].kind != kind
      ensures err.None? ==> forall t :: t in tokens && tokens[t] != old(tokens)[t] ==>
                && Valid(old(tokens), t, clock) && tokens[t].userId == u && tokens[t].kind == kind
                && tokens[t] == old(tokens)[t].(revokedAt := Some(clock))
      ensures err.None? ==> tokens == RevokeByUserAndType(old(tokens), u, kind, clock)
      ensures err.Some? ==> tokens == old(tokens)
    {
      var fault: bool := *;
      if fault {
        faults := faults + 1;
        return Some(Fault);
      }
      tokens := RevokeByUserAndType(tokens, u, kind, clock);
      err := None;
    }

    method CreateToken(row: Token) returns (err: Option<Error>, t: Id)
      modifies this`tokens, this`faults
      ensures faults >= old(faults) && (err.None? ==> faults == old(faults))
      ensures err.Some? && faults == old(faults) ==> Taken(old(tokens), row.hash)
      ensures err.None? ==> NewToken(old(tokens), t, row.hash.raw) && tokens == old(tokens)[t := row]
      ensures err.Some? ==> tokens == old(tokens)
    {
      UnusedId(tokens.Keys);
      t :| t !in tokens;
      var fault: bool := *;
      if fault {
        faults := faults + 1;
        return Some(Fault), t;
      }
      if exists x | x in tokens :: tokens[x].hash == row.hash { return Some(Fault), t; }
      tokens := tokens[t := row];
      err := None;
    }

    method CreateNotice(topic: string, row: Notice) returns (err: Option<Error>, e: Id)
      modifies this`outbox, this`faults
      ensures faults >= old(faults) && (err.None? ==> faults == old(faults))
      ensures err.Some? && faults == old(faults) ==> topic == ""
      ensures err.None? ==> e !in old(outbox) && outbox == old(outbox)[e := row]
      ensures err.Some? ==> outbox == old(outbox)
      ensures topic == "" ==> err.Some?
    {
      UnusedId(outbox.Keys);
      e :| e !in outbox;
      if topic == "" { return Some(Fault), e; }
      var fault: bool := *;
      if fault {
        faults := faults + 1;
        return Some(Fault), e;
      }
      outbox := outbox[e := row];
      err := None;
    }

    /** The audit entry lives in a table of its own; only its failure matters here. */
    method LogAudit() returns (err: Option<Error>)
      modifies this`faults
      ensures if err.None? then faults == old(faults) else faults > old(faults)
    {
      var fault: bool := *;
      err := if fault then Some(Fault) else None;
      if fault { faults := faults + 1; }
    }

    method FindValidToken(hash: Digest, kind: TokenType) returns (r: Result<Id>)
      modifies this`faults
      ensures faults >= old(faults) && (r.Ok? ==> faults == old(faults))
      ensures r.Err? && faults == old(faults) ==> r == Err(NotFound)
      ensures r.Ok? ==> Valid(tokens, r.value, clock) && tokens[r.value].hash == hash && tokens[r.value].kind == kind
      ensures r == Err(NotFound) ==> NoValidToken(tokens, clock, hash, kind)
    {
      var fault: bool := *;
      if fault {
        faults := faults + 1;
        return Err(Fault);
      }
      if t :| t in tokens && tokens[t].hash == hash && tokens[t].kind == kind && tokens[t].ValidAt(clock) {
        r := Ok(t);
      } else {
        r := Err(NotFound);
      }
    }

    method FindByID(u: Id) returns (r: Result<User>)
      modifies this`faults
      ensures faults >= old(faults) && (r.Ok? ==> faults == old(faults))
      ensures r.Err? && faults == old(faults) ==> !Exists(users, u)
      ensures r.Ok? ==> Exists(users, u) && r.value == users[u]
    {
      var fault: bool := *;
      if fault {
        faults := faults + 1;
        return Err(Fault);
      }
      r := if Exists(users, u) then Ok(users[u]) else Err(NotFound);
    }

    method UpdatePassword(u: Id, hash: string) returns (err: Option<Error>)
      modifies this`users, this`faults
      ensures faults >= old(faults) && (err.None? ==> faults == old(faults))
      ensures err.Some? && faults == old(faults) ==> !Exists(old(users), u)
      ensures err.None? ==>
                && Exists(old(users), u)
                && users == old(users)[u := old(users)[u].(passwordHash := Some(hash))]
      ensures err.Some? ==> users == old(users)
    {
      var fault: bool := *;
      if fault {
        faults := faults + 1;
        return Some(Fault);
      }
      if !Exists(users, u) { return Some(NotFound); }
      users := users[u := users[u].(passwordHash := Some(hash))];
      err := None;
    }

    method MarkEmailVerified(u: Id) returns (err: Option<Error>)
      modifies this`users, this`faults
      ensures faults >= old(faults) && (err.None? ==> faults == old(faults))
      ensures err.Some? && faults == old(faults) ==> !Exists(old(users), u)
      ensures err.None? ==>
                && Exists(old(users), u)
                && users == old(users)[u := old(users)[u].(emailVerified := true, status := Active)]
      ensures err.Some? ==> users == old(users)
    {
      var fault: bool := *;
      if fault {
        faults := faults + 1;
        return Some(Fault);
      }
      if !Exists(users, u) { return Some(NotFound); }
      users := users[u := users[u].(emailVerified := true, status := Active)];
      err := None;
    }

    method MarkTokenUsed(t: Id) returns (err: Option<Error>)
      modifies this`tokens, this`faults
      ensures faults >= old(faults) && (err.None? ==> faults == old(faults))
      ensures err.Some? && faults == old(faults) ==> t !in old(tokens) || old(tokens)[t].usedAt.Some?
      ensures err.None? ==>
                && t in old(tokens) && old(tokens)[t].usedAt.None?
                && tokens == old(tokens)[t := old(tokens)[t].(usedAt := Some(clock))]
      ensures err.Some? ==> tokens == old(tokens)
    {
      var fault: bool := *;
      if fault {
        faults := faults + 1;
        return Some(Fault);
      }
      if t !in tokens || tokens[t].usedAt.Some? { return Some(NotFound); }
      tokens := tokens[t := tokens[t].(usedAt := Some(clock))];
      err := None;
    }

    // ----- Transactions -----

    /** The two inserts; after an error the first may have to be rolled back. */
    method InsertBoth(u: Id, kind: TokenType, expiresAt: Time, raw: string, topic: string)
      returns (err: Option<Error>, t: Id, e: Id)
      modifies this`tokens, this`outbox, this`faults
      ensures faults >= old(faults) && (err.None? ==> faults == old(faults))
      ensures err.Some? && faults == old(faults) ==> topic == "" || Taken(old(tokens), Digest(raw))
      ensures err.None? ==>
                && NewToken(old(tokens), t, raw) && e !in old(outbox)
                && tokens == old(tokens)[t := Token(u, kind, Digest(raw), expiresAt, None, None)]
                && outbox == old(outbox)[e := Notice(u, kind, raw)]
    {
      e := 0;
      err, t := CreateToken(Token(u, kind, Digest(raw), expiresAt, None, None));
      if err.Some? { return; }
      err, e := CreateNotice(topic, Notice(u, kind, raw));
    }

    /** Revoke, insert the token, insert its notification, audit: all of it or none of it. */
    method IssueInTx(u: Id, revoked: TokenType, kind: TokenType, ttl: Time, raw: string, topic: string)
      returns (err: Option<Error>, t: Id, e: Id)
      modifies this`tokens, this`outbox, this`faults
      ensures faults >= old(faults) && (err.None? ==> faults == old(faults))
      ensures err.Some? && faults == old(faults) ==> topic == "" || Taken(old(tokens), Digest(raw))
      ensures err.None? ==>
                && NewToken(old(tokens), t, raw) && e !in old(outbox)
                && Issued(tokens, outbox)
                   == Issue(Issued(old(tokens), old(outbox)), u, revoked, kind, ttl, raw, t, e, clock)
      ensures err.Some? ==> tokens == old(tokens) && outbox == old(outbox)
    {
      var begun := Issued(tokens, outbox);
      t, e := 0, 0;
      err := RevokeTokens(u, revoked);
      if err.Some? { tokens, outbox := begun.tokens, begun.outbox; return; }
      assert forall x :: x in begun.tokens ==> x in tokens && tokens[x].hash == begun.tokens[x].hash;
      err, t, e := InsertBoth(u, kind, clock + ttl, raw, topic);
      if err.Some? { tokens, outbox := begun.tokens, begun.outbox; return; }
      err := LogAudit();
      if err.Some? { tokens, outbox := begun.tokens, begun.outbox; return; }
    }

    /** The same with the user row inserted first. */
    method OpenAccountInTx(user: User, kind: TokenType, raw: string, topic: string)
      returns (err: Option<Error>, u: Id, t: Id, e: Id)
      modifies this`users, this`tokens, this`outbox, this`faults
      ensures faults >= old(faults) && (err.None? ==> faults == old(faults))
      ensures err.Some? && faults == old(faults) ==>
                topic == "" || Taken(old(tokens), Digest(raw)) || HasAddress(old(users), user.email)
      ensures err.None? ==>
                && u !in old(users) && users == old(users)[u := user]
                && NewToken(old(tokens), t, raw) && e !in old(outbox)
                && Issued(tokens, outbox)
                   == Issue(Issued(old(tokens), old(outbox)), u, kind, kind, 24 * HOUR, raw, t, e, clock)
      ensures err.Some? ==> users == old(users) && tokens == old(tokens) && outbox == old(outbox)
    {
      var begun := users;
      t, e := 0, 0;
      err, u := CreateUserRow(user);
      if err.Some? { users := begun; return; }
      err, t, e := IssueInTx(u, kind, kind, 24 * HOUR, raw, topic);
      if err.Some? { users := begun; return; }
    }
  }

  class Service {
    const db: Store
    const topic: string

    constructor (db: Store, topic: string)
      ensures this.db == db && this.topic == topic
    {
      this.db, this.topic := db, topic;
    }

    /** The call wrote nothing up to `mid`, and its one commit took `mid` to the present. */
    ghost predicate Committed(me: CallId, s0: State, mid: State, e: Event)
      reads db
    {
      OthersReach(me, s0, mid) && Enabled(mid, e) && db.St() == Next(mid, e)
    }

    /** Only others have written since `s0`. */
    ghost predicate WroteNothing(me: CallId, s0: State)
      reads db
    {
      OthersReach(me, s0, db.St())
    }

    /** The user's new token, unused and with this many seconds to live, and its notification. */
    ghost predicate Carries(u: Id, t: Id, e: Id, kind: TokenType, raw: string, seconds: Time)
      reads db
    {
      && t in db.tokens && db.tokens[t] == Token(u, kind, Digest(raw), db.clock + seconds, None, None)
      && e in db.outbox && db.outbox[e] == Notice(u, kind, raw)
    }

    /** The address or the token was taken when the call got there. */
    ghost predicate Unissuable(me: CallId, s0: State, s: State, email: string, raw: string) {
      OthersReach(me, s0, s) && (HasAddress(s.users, email) || Taken(s.tokens, Digest(raw)))
    }

    /**
      `prepared` stands for the validation of the input, the user name lookup,
      hashing, token generation and the role lookup.
    */
    method Register(email: string, passwordHash: string, prepared: bool, raw: string, ghost me: CallId)
      returns (err: Option<Error>)
      requires Inv(db.St())
      modifies db
      ensures Inv(db.St())
      ensures err.None? ==> exists mid, u, t, e ::
                && Committed(me, old(db.St()), mid,
                     UserTokenProtocol.Register(u, User(email, Pending, Some(passwordHash), false, false), raw, t, e))
                && Carries(u, t, e, EmailVerification, raw, 86400)
                && u in db.users && db.users[u] == User(email, Pending, Some(passwordHash), false, false)
      ensures err.Some? ==> WroteNothing(me, old(db.St()))
      ensures err.None? ==> prepared
      ensures db.faults >= old(db.faults)
      ensures err.Some? && db.faults == old(db.faults) ==>
                !prepared || topic == "" || exists s :: Unissuable(me, old(db.St()), s, email, raw)
    {
      hide Inv, OthersReach;
      ghost var s0 := db.St();
      OthersSelf(me, s0);
      db.Pause(me, s0);
      var existing := db.FindByEmail(email);
      if existing.Err? { return Some(Fault); }
      if existing.value.Some? {
        assert Unissuable(me, s0, db.St(), email, raw);
        return Some(Fault);
      }
      if !prepared { return Some(Fault); }
      db.Pause(me, s0);
      ghost var mid := db.St();
      var user := User(email, Pending, Some(passwordHash), false, false);
      var u, t, e;
      err, u, t, e := db.OpenAccountInTx(user, EmailVerification, raw, topic);
      if err.Some? {
        assert db.faults == old(db.faults) && topic != "" ==> Unissuable(me, s0, mid, email, raw);
        return;
      }
      ghost var step := UserTokenProtocol.Register(u, user, raw, t, e);
      InvStep(mid, step);
      assert Committed(me, s0, mid, step) && Carries(u, t, e, EmailVerification, raw, 86400);
    }

    method CreateUser(email: string, prepared: bool, raw: string, ghost me: CallId) returns (err: Option<Error>)
      requires Inv(db.St())
      modifies db
      ensures Inv(db.St())
      ensures err.None? ==> exists mid, u, t, e ::
                && Committed(me, old(db.St()), mid,
                     UserTokenProtocol.CreateUser(u, User(email, Pending, None, false, false), raw, t, e))
                && Carries(u, t, e, PasswordSet, raw, 86400)
                && u in db.users && db.users[u] == User(email, Pending, None, false, false)
      ensures err.Some? ==> WroteNothing(me, old(db.St()))
      ensures err.None? ==> prepared
      ensures db.faults >= old(db.faults)
      ensures err.Some? && db.faults == old(db.faults) ==>
                !prepared || topic == "" || exists s :: Unissuable(me, old(db.St()), s, email, raw)
    {
      hide Inv, OthersReach;
      ghost var s0 := db.St();
      OthersSelf(me, s0);
      db.Pause(me, s0);
      var existing := db.FindByEmail(email);
      if existing.Err? { return Some(Fault); }
      if existing.value.Some? {
        assert Unissuable(me, s0, db.St(), email, raw);
        return Some(Fault);
      }
      if !prepared { return Some(Fault); }
      db.Pause(me, s0);
      ghost var mid := db.St();
      var user := User(email, Pending, None, false, false);
      var u, t, e;
      err, u, t, e := db.OpenAccountInTx(user, PasswordSet, raw, topic);
      if err.Some? {
        assert db.faults == old(db.faults) && topic != "" ==> Unissuable(me, s0, mid, email, raw);
        return;
      }
      ghost var step := UserTokenProtocol.CreateUser(u, user, raw, t, e);
      InvStep(mid, step);
      assert Committed(me, s0, mid, step) && Carries(u, t, e, PasswordSet, raw, 86400);
    }

    /** The user that the call had read by this address when it began its transaction. */
    ghost predicate Addressed(me: CallId, s0: State, read: State, mid: State, u: Id, email: string) {
      OthersReach(me, s0, read) && OthersReach(me, read, mid) && Exists(read.users, u) && read.users[u].email == email
    }

    ghost predicate NoUser(s: State, email: string) {
      forall u :: Exists(s.users, u) ==> s.users[u].email != email
    }

    /** Without a user the source dereferences nil inside the transaction, which rolls back. */
    method ResendVerification(email: string, kind: TokenType, raw: string, ghost me: CallId)
      returns (err: Option<Error>)
      requires Inv(db.St())
      modifies db
      ensures Inv(db.St())
      ensures err.None? ==> exists read, mid, u, t, e ::
                && Addressed(me, old(db.St()), read, mid, u, email)
                && Committed(me, old(db.St()), mid, UserTokenProtocol.Resend(u, kind, raw, t, e))
                && Carries(u, t, e, EmailVerification, raw, 86400)
      ensures err.Some? ==> WroteNothing(me, old(db.St()))
      ensures db.faults >= old(db.faults)
      ensures err.Some? && db.faults == old(db.faults) ==>
                || topic == ""
                || exists s :: OthersReach(me, old(db.St()), s) && (NoUser(s, email) || Taken(s.tokens, Digest(raw)))
    {
      hide Inv, OthersReach;
      ghost var s0 := db.St();
      OthersSelf(me, s0);
      db.Pause(me, s0);
      ghost var read := db.St();
      OthersSelf(me, read);
      var user := db.FindByEmail(email);
      if user.Err? { return Some(Fault); }
      if user.value.None? {
        assert NoUser(read, email);
        return Some(Fault);
      }
      var u := user.value.value;
      db.Pause(me, read);
      ghost var mid := db.St();
      OthersTransitive(me, s0, read, mid);
      var t, e;
      err, t, e := db.IssueInTx(u, kind, EmailVerification, 24 * HOUR, raw, topic);
      if err.Some? {
        assert db.faults == old(db.faults) && topic != "" ==> Taken(mid.tokens, Digest(raw));
        return;
      }
      ghost var step := UserTokenProtocol.Resend(u, kind, raw, t, e);
      InvStep(mid, step);
      assert Carries(u, t, e, EmailVerification, raw, 86400);
      assert Addressed(me, s0, read, mid, u, email) && Committed(me, s0, mid, step);
    }

    /** When the call read it, the address belonged to nobody or to a deleted user. */
    ghost predicate NobodyToMail(read: State, email: string) {
      || NoUser(read, email)
      || (exists u :: Exists(read.users, u) && read.users[u].email == email && read.users[u].status == Deleted)
    }

    /** An unknown or deleted user is answered with success, and nothing is written. */
    method ForgotPassword(email: string, raw: string, ghost me: CallId) returns (err: Option<Error>, sent: bool)
      requires Inv(db.St())
      modifies db
      ensures Inv(db.St())
      ensures sent ==> err.None? && exists read, mid, u, t, e ::
                && Addressed(me, old(db.St()), read, mid, u, email) && read.users[u].status != Deleted
                && Committed(me, old(db.St()), mid, UserTokenProtocol.Forgot(u, raw, t, e))
                && Carries(u, t, e, PasswordReset, raw, 3600)
      ensures !sent ==> WroteNothing(me, old(db.St()))
      ensures err.None? && !sent ==>
                exists read :: OthersReach(me, old(db.St()), read) && OthersReach(me, read, db.St())
                  && NobodyToMail(read, email)
      ensures db.faults >= old(db.faults)
      ensures err.Some? && db.faults == old(db.faults) ==>
                topic == "" || exists s :: OthersReach(me, old(db.St()), s) && Taken(s.tokens, Digest(raw))
    {
      hide Inv, OthersReach;
      ghost var s0 := db.St();
      OthersSelf(me, s0);
      sent := false;
      db.Pause(me, s0);
      ghost var read := db.St();
      OthersSelf(me, read);
      var user := db.FindByEmail(email);
      if user.Err? { err := Some(Fault); return; }
      if user.value.None? { err := None; return; }
      var u := user.value.value;
      if db.users[u].status == Deleted { err := None; return; }
      db.Pause(me, read);
      ghost var mid := db.St();
      OthersTransitive(me, s0, read, mid);
      var t, e;
      err, t, e := db.IssueInTx(u, PasswordReset, PasswordReset, 1 * HOUR, raw, topic);
      if err.Some? {
        assert db.faults == old(db.faults) && topic != "" ==> Taken(mid.tokens, Digest(raw));
        return;
      }
      sent := true;
      ghost var step := UserTokenProtocol.Forgot(u, raw, t, e);
      InvStep(mid, step);
      assert Carries(u, t, e, PasswordReset, raw, 3600);
      assert Addressed(me, s0, read, mid, u, email) && Committed(me, s0, mid, step);
    }

    // ----- Spending -----

    ghost method Leave(s0: State, me: CallId, wrote: bool)
      requires Inv(db.St()) && Ran(me, s0, db.St(), wrote) && me in db.calls
      modifies db`calls
      ensures Inv(db.St()) && Ran(me, s0, db.St(), wrote) && db.St() == Next(old(db.St()), Abort(me))
    {
      db.Took(me, s0, db.St(), Abort(me), wrote);
    }

    /** The call ended by reporting success for the token with this raw value. */
    ghost predicate Succeeded(me: CallId, s0: State, mid: State, raw: string)
      reads db
    {
      && Reaches(s0, mid) && Enabled(mid, Return(me)) && db.St() == Next(mid, Return(me))
      && mid.calls[me].token in mid.tokens && mid.tokens[mid.calls[me].token].hash == Digest(raw)
      && mid.tokens[mid.calls[me].token].usedAt.Some?
    }

    /**
      The call read a valid token of this type in `first`, found its owner fit in
      `checked`, and in `mid`, having written nothing before, stored this password
      for that owner.
    */
    ghost predicate Overwrote(
      me: CallId, s0: State, first: State, checked: State, mid: State, t: Id,
      raw: string, hash: string, kind: TokenType)
    {
      && Reaches(s0, first) && ReadValid(first, t, raw, kind)
      && Reaches(first, checked) && !MayNotSet(checked.users, first.tokens[t].userId, kind)
      && Reaches(checked, mid) && Ran(me, s0, mid, false) && Enabled(mid, StorePassword(me))
      && mid.calls[me].job == Job(t, first.tokens[t].userId, kind, Some(hash))
      && Next(mid, StorePassword(me)).users[first.tokens[t].userId].passwordHash == Some(hash)
    }

    /** In `v` the call, which had stored this first password, verified the owner's address. */
    ghost predicate VerifiedToo(me: CallId, s0: State, v: State, t: Id, u: Id, hash: string) {
      && Reaches(s0, v) && Enabled(v, StoreVerified(me)) && v.calls[me] == Wrote(Job(t, u, PasswordSet, Some(hash)))
      && u in Next(v, StoreVerified(me)).users
      && Next(v, StoreVerified(me)).users[u].emailVerified && Next(v, StoreVerified(me)).users[u].status == Active
    }

    /**
      A token that was valid in `first` could not be used in `s`: its owner was not
      fit before the call had written, or had disappeared, or the token was used.
    */
    ghost predicate Stopped(me: CallId, s0: State, first: State, s: State, t: Id, raw: string, kind: TokenType) {
      && Reaches(s0, first) && ReadValid(first, t, raw, kind) && Reaches(first, s)
      && ((Ran(me, s0, s, false) && MayNotSet(s.users, first.tokens[t].userId, kind))
          || Gone(s, t, first.tokens[t].userId))
    }

    /**
      SetPassword and ResetPassword; `hashed` is the bcrypt hash of the password
      unless hashing failed.  `wrote` says whether UpdatePassword went through; a
      call that fails afterwards leaves the new password in place.
    */
    method ApplyPasswordByToken(
      raw: string, password: string, confirm: string, hashed: Option<string>, kind: TokenType, ghost me: CallId)
      returns (err: Option<Error>, ghost wrote: bool)
      requires Inv(db.St()) && me !in db.calls
      modifies db
      ensures Inv(db.St()) && Ran(me, old(db.St()), db.St(), wrote)
      ensures err.None? ==> wrote && exists mid :: Succeeded(me, old(db.St()), mid, raw)
      ensures wrote ==> !BadInput(raw, password, confirm) && hashed.Some?
      ensures wrote ==> exists first, checked, mid, t ::
                && Overwrote(me, old(db.St()), first, checked, mid, t, raw, hashed.value, kind)
                && Reaches(Next(mid, StorePassword(me)), db.St())
                && (err.None? && kind == PasswordSet ==>
                      exists v :: VerifiedToo(me, old(db.St()), v, t, first.tokens[t].userId, hashed.value)
                                  && Reaches(Next(v, StoreVerified(me)), db.St()))
      ensures db.faults >= old(db.faults)
      ensures err.Some? && db.faults == old(db.faults) ==>
                || BadInput(raw, password, confirm) || hashed.None? || kind == EmailVerification
                || (exists s :: Reaches(old(db.St()), s) && NoneValid(s, raw, kind))
                || (exists first, s, t :: Stopped(me, old(db.St()), first, s, t, raw, kind))
    {
      hide Inv, Ran, Reaches;
      ghost var s0 := db.St();
      RanSelf(me, s0);
      wrote := false;
      if Blank(raw) || Blank(password) || Blank(confirm) { err := Some(Fault); return; }
      if password != confirm { err := Some(Fault); return; }
      db.Yield(me, s0, false);
      ghost var first := db.St();
      RanReaches(me, s0, first, false);
      var found := db.FindValidToken(Digest(raw), kind);
      if found.Err? {
        assert found == Err(NotFound) ==> NoneValid(first, raw, kind);
        err := Some(NotFound);
        return;
      }
      var t, u := found.value, db.tokens[found.value].userId;
      db.Took(me, s0, first, Find(me, Job(t, u, kind, hashed)), false);
      err, wrote := ChangePassword(t, u, raw, hashed, kind, me, s0, first);
    }

    /** From the owner's row on. */
    method ChangePassword(
      t: Id, u: Id, raw: string, hashed: Option<string>, kind: TokenType,
      ghost me: CallId, ghost s0: State, ghost first: State)
      returns (err: Option<Error>, ghost wrote: bool)
      requires Inv(db.St()) && Ran(me, s0, db.St(), false) && me in db.calls
      requires db.calls[me] == Found(Job(t, u, kind, hashed))
      requires Reaches(s0, first) && ReadValid(first, t, raw, kind) && first.tokens[t].userId == u
      requires Enabled(first, Find(me, Job(t, u, kind, hashed)))
      requires db.St() == Next(first, Find(me, Job(t, u, kind, hashed)))
      modifies db
      ensures Inv(db.St()) && Ran(me, s0, db.St(), wrote)
      ensures err.None? ==> wrote && exists mid :: Succeeded(me, s0, mid, raw)
      ensures wrote ==> hashed.Some? && exists checked, mid ::
                && Overwrote(me, s0, first, checked, mid, t, raw, hashed.value, kind)
                && Reaches(Next(mid, StorePassword(me)), db.St())
                && (err.None? && kind == PasswordSet ==>
                      exists v :: VerifiedToo(me, s0, v, t, u, hashed.value)
                                  && Reaches(Next(v, StoreVerified(me)), db.St()))
      ensures db.faults >= old(db.faults)
      ensures err.Some? && db.faults == old(db.faults) ==>
                hashed.None? || kind == EmailVerification || exists s :: Stopped(me, s0, first, s, t, raw, kind)
    {
      hide Inv, Ran, Reaches;
      wrote := false;
      ReachesSelf(first);
      ReachesStep(first, first, Find(me, Job(t, u, kind, hashed)));
      db.Yield(me, s0, false);
      ghost var checked := db.St();
      ReachesTransitive(first, old(db.St()), checked);
      var user := db.FindByID(u);
      if user.Err? || user.value.status == Deleted {
        assert db.faults == old(db.faults) ==> Stopped(me, s0, first, checked, t, raw, kind);
        Leave(s0, me, false);
        err := Some(Fault);
        return;
      }
      if kind == PasswordSet {
        if user.value.passwordHash.Some? && user.value.passwordHash.value != "" {
          assert Stopped(me, s0, first, checked, t, raw, kind);
          Leave(s0, me, false);
          err := Some(Fault);
          return;
        }
      }
      if hashed.None? { Leave(s0, me, false); err := Some(Fault); return; }
      db.Took(me, s0, checked, Check(me), false);
      if kind == EmailVerification { Leave(s0, me, false); err := Some(Fault); return; }
      ReachesSelf(checked);
      ReachesStep(checked, checked, Check(me));
      err, wrote := WriteAndSpend(Job(t, u, kind, hashed), raw, hashed.value, me, s0, first, checked);
    }

    /** The statements of the password calls, each committed on its own. */
    method WriteAndSpend(
      job: Job, raw: string, hash: string, ghost me: CallId, ghost s0: State, ghost first: State, ghost checked: State)
      returns (err: Option<Error>, ghost wrote: bool)
      requires Inv(db.St()) && Ran(me, s0, db.St(), false) && me in db.calls && db.calls[me] == Ready(job)
      requires job.password == Some(hash) && job.kind != EmailVerification
      requires Reaches(s0, first) && ReadValid(first, job.token, raw, job.kind)
      requires first.tokens[job.token].userId == job.user
      requires Reaches(first, checked) && !MayNotSet(checked.users, job.user, job.kind) && Reaches(checked, db.St())
      requires job.token in db.tokens && db.tokens[job.token].hash == Digest(raw)
      modifies db
      ensures Inv(db.St()) && Ran(me, s0, db.St(), wrote)
      ensures err.None? ==> wrote && exists mid :: Succeeded(me, s0, mid, raw)
      ensures wrote ==> exists mid ::
                && Overwrote(me, s0, first, checked, mid, job.token, raw, hash, job.kind)
                && Reaches(Next(mid, StorePassword(me)), db.St())
                && (err.None? && job.kind == PasswordSet ==>
                      exists v :: VerifiedToo(me, s0, v, job.token, job.user, hash)
                                  && Reaches(Next(v, StoreVerified(me)), db.St()))
      ensures db.faults >= old(db.faults)
      ensures err.Some? && db.faults == old(db.faults) ==>
                exists s :: Stopped(me, s0, first, s, job.token, raw, job.kind)
    {
      hide Inv, Ran, Reaches, ReadValid, MayNotSet, Valid;
      wrote := false;
      ghost var mid, v, last;
      err, mid := Write(job, hash, me, s0, checked);
      ReachesTransitive(first, checked, mid);
      if err.Some? {
        assert db.faults == old(db.faults) ==> Stopped(me, s0, first, mid, job.token, raw, job.kind);
        return;
      }
      wrote := true;
      assert Overwrote(me, s0, first, checked, mid, job.token, raw, hash, job.kind);
      ReachesSelf(mid);
      ReachesStep(mid, mid, StorePassword(me));
      ReachesTransitive(first, mid, db.St());
      err, v, last := Settle(job, raw, hash, me, s0, mid, first);
      if err.Some? {
        assert db.faults == old(db.faults) ==> Stopped(me, s0, first, last, job.token, raw, job.kind);
      }
    }

    /** UpdatePassword, committed on its own. */
    method Write(job: Job, hash: string, ghost me: CallId, ghost s0: State, ghost checked: State)
      returns (err: Option<Error>, ghost mid: State)
      requires Inv(db.St()) && Ran(me, s0, db.St(), false) && me in db.calls && db.calls[me] == Ready(job)
      requires job.password == Some(hash) && job.kind != EmailVerification && Reaches(checked, db.St())
      modifies db
      ensures Inv(db.St()) && Keeps(old(db.St()), db.St())
      ensures Ran(me, s0, mid, false) && Reaches(checked, mid) && Keeps(old(db.St()), mid)
      ensures err.Some? ==> Ran(me, s0, db.St(), false)
      ensures err.None? ==>
                && me in mid.calls && mid.calls[me] == Ready(job)
                && Enabled(mid, StorePassword(me)) && db.St() == Next(mid, StorePassword(me))
      ensures db.faults >= old(db.faults)
      ensures err.Some? && db.faults == old(db.faults) ==> !Exists(mid.users, job.user)
    {
      hide Inv, Ran, Reaches;
      db.Yield(me, s0, false);
      mid := db.St();
      ReachesTransitive(checked, old(db.St()), mid);
      err := db.UpdatePassword(job.user, hash);
      if err.Some? { Leave(s0, me, false); return; }
      db.Took(me, s0, mid, StorePassword(me), false);
    }

    /**
      What follows UpdatePassword: for a first password the verification, in `v`, and
      then MarkUsed.  A refusal was met in `last`.
    */
    method Settle(
      job: Job, raw: string, hash: string, ghost me: CallId, ghost s0: State, ghost mid: State, ghost first: State)
      returns (err: Option<Error>, ghost v: State, ghost last: State)
      requires Inv(db.St()) && Ran(me, s0, mid, false) && me in mid.calls && mid.calls[me] == Ready(job)
      requires Enabled(mid, StorePassword(me)) && db.St() == Next(mid, StorePassword(me))
      requires job.token in mid.tokens && mid.tokens[job.token].hash == Digest(raw) && job.password == Some(hash)
      requires Reaches(first, db.St())
      modifies db
      ensures Inv(db.St()) && Ran(me, s0, db.St(), true)
      ensures Reaches(Next(mid, StorePassword(me)), db.St())
      ensures err.None? ==> exists end :: Succeeded(me, s0, end, raw)
      ensures err.None? && job.kind == PasswordSet ==>
                VerifiedToo(me, s0, v, job.token, job.user, hash) && Reaches(Next(v, StoreVerified(me)), db.St())
      ensures db.faults >= old(db.faults)
      ensures err.Some? && db.faults == old(db.faults) ==> Reaches(first, last) && Gone(last, job.token, job.user)
    {
      hide Inv, Ran, Reaches;
      ghost var s1 := db.St();
      RanSelf(me, s1);
      RanStep(me, s0, mid, StorePassword(me), false);
      RanReaches(me, s0, s1, true);
      ghost var more := false;
      err, v, last := None, s1, s1;
      if job.kind == PasswordSet {
        err, more, v := Verify(job, me, s1);
        last := v;
        ReachesTransitive(s0, s1, v);
        ReachesTransitive(first, s1, v);
      }
      ghost var s2 := db.St();
      ReachesSelf(s2);
      if err.None? {
        err, last := Spend(job, raw, me, s1, more);
        ReachesTransitive(first, s1, last);
      }
      RanTransitive(me, s0, s1, db.St(), true, more);
      RanReaches(me, s1, db.St(), more);
      if err.None? {
        ghost var end :| Succeeded(me, s1, end, raw);
        ReachesTransitive(s0, s1, end);
        assert Succeeded(me, s0, end, raw);
      }
    }

    method Verify(job: Job, ghost me: CallId, ghost s0: State)
      returns (err: Option<Error>, ghost wrote: bool, ghost mid: State)
      requires Inv(db.St()) && Ran(me, s0, db.St(), false) && me in db.calls
      requires db.calls[me] == Wrote(job) || (db.calls[me] == Ready(job) && job.password.None?)
      modifies db
      ensures Inv(db.St()) && Ran(me, s0, db.St(), wrote) && Keeps(old(db.St()), db.St())
      ensures Reaches(s0, mid) && Keeps(old(db.St()), mid)
      ensures wrote <==> err.None?
      ensures err.None? ==>
                && me in db.calls && db.calls[me] == Stored(job)
                && me in mid.calls && mid.calls[me] == old(db.calls)[me]
                && Enabled(mid, StoreVerified(me)) && db.St() == Next(mid, StoreVerified(me))
      ensures db.faults >= old(db.faults)
      ensures err.Some? && db.faults == old(db.faults) ==> !Exists(mid.users, job.user)
      ensures err.None? ==>
                job.user in db.users && db.users[job.user].emailVerified && db.users[job.user].status == Active
    {
      hide Inv, Ran, Reaches;
      db.Yield(me, s0, false);
      mid := db.St();
      RanReaches(me, s0, mid, false);
      err := db.MarkEmailVerified(job.user);
      wrote := err.None?;
      if err.Some? { Leave(s0, me, false); return; }
      db.Took(me, s0, mid, StoreVerified(me), false);
    }

    /** MarkUsed decides the race; the audit entry may still turn success into an error. */
    method Spend(job: Job, raw: string, ghost me: CallId, ghost s0: State, ghost wrote: bool)
      returns (err: Option<Error>, ghost before: State)
      requires Inv(db.St()) && Ran(me, s0, db.St(), wrote) && me in db.calls && db.calls[me] == Stored(job)
      requires job.token in db.tokens && db.tokens[job.token].hash == Digest(raw)
      modifies db
      ensures Inv(db.St()) && Ran(me, s0, db.St(), wrote) && Reaches(s0, before)
      ensures Reaches(old(db.St()), db.St())
      ensures err.None? ==> exists mid :: Succeeded(me, s0, mid, raw)
      ensures db.faults >= old(db.faults)
      ensures err.Some? && db.faults == old(db.faults) ==>
                job.token in before.tokens && before.tokens[job.token].usedAt.Some?
    {
      hide Inv, Ran, Reaches;
      ghost var start := db.St();
      RanSelf(me, start);
      db.Yield(me, s0, wrote);
      before := db.St();
      RanReaches(me, s0, before, wrote);
      err := db.MarkTokenUsed(job.token);
      if err.Some? {
        ReachesStep(start, before, Abort(me));
        Leave(s0, me, wrote);
        return;
      }
      ReachesStep(start, before, MarkUsed(me));
      db.Took(me, s0, before, MarkUsed(me), wrote);
      err := Report(raw, me, s0, start, wrote);
    }

    /** The audit entry and the return. */
    method Report(raw: string, ghost me: CallId, ghost s0: State, ghost start: State, ghost wrote: bool)
      returns (err: Option<Error>)
      requires Inv(db.St()) && Ran(me, s0, db.St(), wrote) && Reaches(start, db.St())
      requires me in db.calls && db.calls[me].Marked?
      requires db.calls[me].token in db.tokens && db.tokens[db.calls[me].token].hash == Digest(raw)
      modifies db
      ensures Inv(db.St()) && Ran(me, s0, db.St(), wrote) && Reaches(start, db.St())
      ensures err.None? ==> exists mid :: Succeeded(me, s0, mid, raw)
      ensures if err.None? then db.faults == old(db.faults) else db.faults > old(db.faults)
    {
      hide Inv, Ran, Reaches;
      ghost var begun := db.St();
      db.Yield(me, s0, wrote);
      ghost var mid := db.St();
      ReachesTransitive(start, begun, mid);
      err := db.LogAudit();
      if err.Some? {
        ReachesStep(start, mid, Abort(me));
        Leave(s0, me, wrote);
        return;
      }
      MarkedIsUsed(mid, me);
      RanReaches(me, s0, mid, wrote);
      ReachesStep(start, mid, Return(me));
      db.Took(me, s0, mid, Return(me), wrote);
      assert Succeeded(me, s0, mid, raw);
    }

    /** In `mid` the token with this raw value belonged to a user that was active already. */
    ghost predicate AlreadyActive(mid: State, t: Id, u: Id, raw: string) {
      && t in mid.tokens && mid.tokens[t].hash == Digest(raw)
      && Exists(mid.users, u) && mid.users[u].status == Active
    }

    /**
      A user that is already active is answered with success without spending the
      token, which was valid for this type in `first`.
    */
    method VerifyEmail(raw: string, kind: TokenType, ghost me: CallId)
      returns (err: Option<Error>, spent: bool, ghost wrote: bool)
      requires Inv(db.St()) && me !in db.calls
      modifies db
      ensures Inv(db.St()) && Ran(me, old(db.St()), db.St(), wrote)
      ensures spent ==> err.None? && wrote && exists mid :: Succeeded(me, old(db.St()), mid, raw)
      ensures err.None? || wrote ==> exists first, t :: Reaches(old(db.St()), first) && ReadValid(first, t, raw, kind)
      ensures err.None? && !spent ==> !wrote && exists first, mid, t ::
                && Reaches(old(db.St()), first) && ReadValid(first, t, raw, kind)
                && Reaches(first, mid) && AlreadyActive(mid, t, first.tokens[t].userId, raw)
      ensures db.faults >= old(db.faults)
      ensures err.Some? && db.faults == old(db.faults) ==>
                || (exists s :: Reaches(old(db.St()), s) && NoneValid(s, raw, kind))
                || (exists first, s, t :: Blocked(old(db.St()), first, s, t, raw, kind))
    {
      hide Inv, Ran, Reaches;
      ghost var s0 := db.St();
      RanSelf(me, s0);
      spent, wrote := false, false;
      db.Yield(me, s0, false);
      ghost var first := db.St();
      RanReaches(me, s0, first, false);
      var found := db.FindValidToken(Digest(raw), kind);
      if found.Err? {
        assert found == Err(NotFound) ==> NoneValid(first, raw, kind);
        err := Some(NotFound);
        return;
      }
      var job := Job(found.value, db.tokens[found.value].userId, kind, None);
      db.Took(me, s0, first, Find(me, job), false);
      ReachesSelf(first);
      ReachesStep(first, first, Find(me, job));
      err, spent, wrote := Confirm(job, raw, me, s0, first);
    }

    /** The token was valid in `first`, and in `s` its owner was gone or deleted, or the token used. */
    ghost predicate Blocked(s0: State, first: State, s: State, t: Id, raw: string, kind: TokenType) {
      && Reaches(s0, first) && ReadValid(first, t, raw, kind) && Reaches(first, s)
      && (Gone(s, t, first.tokens[t].userId) || s.users[first.tokens[t].userId].status == Deleted)
    }

    method Confirm(job: Job, raw: string, ghost me: CallId, ghost s0: State, ghost first: State)
      returns (err: Option<Error>, spent: bool, ghost wrote: bool)
      requires Inv(db.St()) && Ran(me, s0, db.St(), false) && me in db.calls && db.calls[me] == Found(job)
      requires job.password.None? && Reaches(s0, first) && ReadValid(first, job.token, raw, job.kind)
      requires first.tokens[job.token].userId == job.user && Reaches(first, db.St())
      requires job.token in db.tokens && db.tokens[job.token].hash == Digest(raw)
      modifies db
      ensures Inv(db.St()) && Ran(me, s0, db.St(), wrote)
      ensures spent ==> err.None? && wrote && exists mid :: Succeeded(me, s0, mid, raw)
      ensures err.None? && !spent ==> !wrote && exists mid ::
                Reaches(first, mid) && AlreadyActive(mid, job.token, job.user, raw)
      ensures db.faults >= old(db.faults)
      ensures err.Some? && db.faults == old(db.faults) ==>
                exists s :: Blocked(s0, first, s, job.token, raw, job.kind)
    {
      hide Inv, Ran, Reaches, ReadValid, Valid;
      spent, wrote := false, false;
      db.Yield(me, s0, false);
      ghost var mid := db.St();
      ReachesTransitive(first, old(db.St()), mid);
      var user := db.FindByID(job.user);
      if user.Err? || user.value.status == Deleted {
        assert db.faults == old(db.faults) ==> Blocked(s0, first, mid, job.token, raw, job.kind);
        Leave(s0, me, false);
        err := Some(Fault);
        return;
      }
      if user.value.status == Active {
        Leave(s0, me, false);
        assert AlreadyActive(mid, job.token, job.user, raw);
        err := None;
        return;
      }
      db.Took(me, s0, mid, Check(me), false);
      ReachesStep(first, mid, Check(me));
      err, spent, wrote := VerifyAndSpend(job, raw, me, s0, first);
    }

    method VerifyAndSpend(job: Job, raw: string, ghost me: CallId, ghost s0: State, ghost first: State)
      returns (err: Option<Error>, spent: bool, ghost wrote: bool)
      requires Inv(db.St()) && Ran(me, s0, db.St(), false) && me in db.calls && db.calls[me] == Ready(job)
      requires job.password.None? && Reaches(s0, first) && ReadValid(first, job.token, raw, job.kind)
      requires first.tokens[job.token].userId == job.user && Reaches(first, db.St())
      requires job.token in db.tokens && db.tokens[job.token].hash == Digest(raw)
      modifies db
      ensures Inv(db.St()) && Ran(me, s0, db.St(), wrote) && spent == err.None?
      ensures spent ==> wrote && exists mid :: Succeeded(me, s0, mid, raw)
      ensures db.faults >= old(db.faults)
      ensures err.Some? && db.faults == old(db.faults) ==>
                exists s :: Blocked(s0, first, s, job.token, raw, job.kind)
    {
      hide Inv, Ran, Reaches, ReadValid, Valid;
      ghost var s1, v, last := db.St(), db.St(), db.St();
      RanSelf(me, s1);
      RanReaches(me, s0, s1, false);
      err, wrote, v := Verify(job, me, s1);
      ReachesTransitive(first, s1, v);
      if err.None? {
        err, last := Spend(job, raw, me, s1, wrote);
        ReachesTransitive(first, s1, last);
        if err.Some? {
          assert db.faults == old(db.faults) ==> Blocked(s0, first, last, job.token, raw, job.kind);
        }
      } else {
        assert db.faults == old(db.faults) ==> Blocked(s0, first, v, job.token, raw, job.kind);
      }
      RanTransitive(me, s0, s1, db.St(), false, wrote);
      spent := err.None?;
      if err.None? {
        ghost var end :| Succeeded(me, s1, end, raw);
        ReachesTransitive(s0, s1, end);
        assert Succeeded(me, s0, end, raw);
      }
    }
  }
}
