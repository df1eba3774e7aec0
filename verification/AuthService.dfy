/**
  The session services in the form of the source: repository statements that
  update the rows in place, transactions that roll back, and service methods
  that call them in order.  Between any two atomic steps of a method other
  calls may run; every method is shown to take only steps of the session
  machine, so what holds over all runs of the machine holds for this code.
*/
module AuthService {
  import opened Ids
  import opened Options
  import opened SessionTables
  import opened SessionProtocol
  import opened SessionInvariants
  import opened SessionLimits
  import opened SessionTheorems

  // ----- Reachability -----

  predicate NoEvict(evs: seq<Event>) {
    forall e :: e in evs ==> !e.Evict?
  }

  /** A run in which call `me` takes no step; `kept` says that the revocation store lost no key in it. */
  ghost predicate OthersReach(me: CallId, s: State, s': State, kept: bool) {
    exists evs ::
      && ValidRun(s, evs) && Run(s, evs) == s'
      && (forall e :: e in evs ==> Actor(e) != Some(me)) && (kept <==> NoEvict(evs))
  }

  lemma ReachesSelf(s: State)
    ensures Reaches(s, s)
  {
    assert ValidRun(s, []) && Run(s, []) == s;
  }

  lemma ReachesStep(s0: State, s: State, e: Event)
    requires Reaches(s0, s) && Enabled(s, e)
    ensures Reaches(s0, Next(s, e))
  {
    var evs :| ValidRun(s0, evs) && Run(s0, evs) == s;
    var evs' := Extend(s0, evs, e);
  }

  lemma ReachesTransitive(a: State, b: State, c: State)
    requires Reaches(a, b) && Reaches(b, c)
    ensures Reaches(a, c)
  {
    var p :| ValidRun(a, p) && Run(a, p) == b;
    var q :| ValidRun(b, q) && Run(b, q) == c;
    RunConcat(a, p, q);
  }

  lemma ReachesInv(s: State, s': State)
    requires Inv(s) && Reaches(s, s')
    ensures Inv(s') && Grows(s, s')
  {
    var evs :| ValidRun(s, evs) && Run(s, evs) == s';
    InvRun(s, evs);
    RunGrows(s, evs);
  }

  lemma {:induction false} OthersLeaveAbsent(s: State, evs: seq<Event>, c: CallId)
    requires ValidRun(s, evs) && c !in s.calls && forall e :: e in evs ==> Actor(e) != Some(c)
    ensures c !in Run(s, evs).calls
    decreases |evs|
  {
    if evs != [] {
      if c in Next(s, evs[0]).calls {
        CallEffect(s, evs[0], c);
        assert false;
      }
      OthersLeaveAbsent(Next(s, evs[0]), evs[1..], c);
    }
  }

  /** What a call may rely on after others have run. */
  lemma OthersFacts(me: CallId, s: State, s': State, kept: bool)
    requires Inv(s) && OthersReach(me, s, s', kept)
    ensures Reaches(s, s') && Inv(s') && Grows(s, s')
    ensures me in s.calls ==> me in s'.calls && s'.calls[me] == s.calls[me]
    ensures me !in s.calls ==> me !in s'.calls
  {
    var evs :|
      && ValidRun(s, evs) && Run(s, evs) == s'
      && (forall e :: e in evs ==> Actor(e) != Some(me)) && (kept <==> NoEvict(evs));
    ReachesInv(s, s');
    if me in s.calls {
      OthersKeep(s, evs, me);
    } else {
      OthersLeaveAbsent(s, evs, me);
    }
  }

  // ----- Runs through the marking loop -----

  /**
    A run in which call `me` is not cut short.  `stored` says that every store
    command of the call succeeded, `kept` that the store lost no key.
  */
  ghost predicate Unbroken(me: CallId, s: State, s': State, stored: bool, kept: bool) {
    exists evs ::
      && ValidRun(s, evs) && Run(s, evs) == s' && Abort(me) !in evs
      && (stored <==> MarkStore(me, false) !in evs) && (kept <==> NoEvict(evs))
  }

  lemma OthersUnbroken(me: CallId, s: State, s': State, kept: bool)
    requires OthersReach(me, s, s', kept)
    ensures Unbroken(me, s, s', true, kept)
  {
    var evs :|
      && ValidRun(s, evs) && Run(s, evs) == s'
      && (forall e :: e in evs ==> Actor(e) != Some(me)) && (kept <==> NoEvict(evs));
    assert Abort(me) !in evs && MarkStore(me, false) !in evs by {
      assert Actor(Abort(me)) == Some(me) && Actor(MarkStore(me, false)) == Some(me);
    }
  }

  lemma UnbrokenSelf(me: CallId, s: State)
    ensures Unbroken(me, s, s, true, true)
  {
    assert ValidRun(s, []) && Run(s, []) == s && NoEvict([]);
  }

  lemma UnbrokenStep(me: CallId, s0: State, s: State, e: Event, stored: bool, kept: bool)
    requires Unbroken(me, s0, s, stored, kept) && Enabled(s, e) && e != Abort(me)
    ensures Unbroken(me, s0, Next(s, e), stored && e != MarkStore(me, false), kept && !e.Evict?)
  {
    var evs :|
      && ValidRun(s0, evs) && Run(s0, evs) == s && Abort(me) !in evs
      && (stored <==> MarkStore(me, false) !in evs) && (kept <==> NoEvict(evs));
    var evs' := Extend(s0, evs, e);
    assert forall x :: x in evs' <==> x in evs || x == e;
  }

  lemma UnbrokenTransitive(
    me: CallId, a: State, b: State, c: State, stored: bool, kept: bool, more: bool, still: bool)
    requires Unbroken(me, a, b, stored, kept) && Unbroken(me, b, c, more, still)
    ensures Unbroken(me, a, c, stored && more, kept && still)
  {
    var p :|
      && ValidRun(a, p) && Run(a, p) == b && Abort(me) !in p
      && (stored <==> MarkStore(me, false) !in p) && (kept <==> NoEvict(p));
    var q :|
      && ValidRun(b, q) && Run(b, q) == c && Abort(me) !in q
      && (more <==> MarkStore(me, false) !in q) && (still <==> NoEvict(q));
    RunConcat(a, p, q);
    assert forall x :: x in p + q <==> x in p || x in q;
  }

  lemma UnbrokenReaches(me: CallId, s: State, s': State, stored: bool, kept: bool)
    requires Unbroken(me, s, s', stored, kept)
    ensures Reaches(s, s')
  {
  }

  /** Call `me` committed with step `e` in state `mid` and then ran to its end in `s'`. */
  ghost predicate Committed(me: CallId, s: State, mid: State, e: Event, s': State, stored: bool, kept: bool) {
    && Reaches(s, mid) && me in mid.calls && Enabled(mid, e)
    && Unbroken(me, Next(mid, e), s', stored, kept) && me !in s'.calls
  }

  /** With a store that failed no command and lost no key, every entry of the list is in it unless it has expired. */
  lemma ListIsStored(me: CallId, d: State, s': State, l: seq<Listed>)
    requires Inv(d) && Unbroken(me, d, s', true, true)
    requires me in d.calls && d.calls[me] == Marking(l) && me !in s'.calls
    ensures forall i :: 0 <= i < |l| && s'.clock < l[i].expiresAt ==> CacheHit(s', l[i].id)
  {
    hide Inv, ValidRun, Run;
    var evs :|
      && ValidRun(d, evs) && Run(d, evs) == s' && Abort(me) !in evs
      && (true <==> MarkStore(me, false) !in evs) && (true <==> NoEvict(evs));
    ListedAreContained(d, evs, me, l);
    forall i | 0 <= i < |l| && s'.clock < l[i].expiresAt
      ensures CacheHit(s', l[i].id)
    {
      assert Contained(s', me, l[i]) && !Pending(s', me, l[i]);
    }
  }

  lemma CommittedIsStored(me: CallId, s0: State, mid: State, e: Event, s': State, l: seq<Listed>)
    requires Inv(s0) && Committed(me, s0, mid, e, s', true, true)
    requires me in Next(mid, e).calls && Next(mid, e).calls[me] == Marking(l)
    ensures forall i :: 0 <= i < |l| && s'.clock < l[i].expiresAt ==> CacheHit(s', l[i].id)
  {
    hide Inv, Unbroken, Enabled, Next, Reaches;
    ReachesInv(s0, mid);
    InvStep(mid, e);
    ListIsStored(me, Next(mid, e), s', l);
  }

  /** The reuse transaction for this user committed in `mid`, and the marking ran to its end. */
  ghost predicate Handled(me: CallId, s0: State, mid: State, s': State, userId: Id, stored: bool, kept: bool) {
    && Committed(me, s0, mid, ReuseRevoke(me), s', stored, kept)
    && me in mid.calls && mid.calls[me].ReuseListed? && mid.calls[me].userId == userId
  }

  /**
    After handled reuse the user is left with no live token and no active session
    of those that existed at the commit, at the return of the call and for good;
    and every listed session that has not expired is in a store that worked.
  */
  lemma HandledIsContained(me: CallId, s0: State, mid: State, s': State, userId: Id, stored: bool, kept: bool)
    requires Inv(s0) && Handled(me, s0, mid, s', userId, stored, kept)
    ensures forall t :: t in mid.tokens && mid.tokens[t].userId == userId ==> t in s'.tokens && !Live(s'.tokens, t)
    ensures forall x :: x in mid.sessions && mid.sessions[x].userId == userId ==> Dead(s', x)
    ensures stored && kept ==>
      var l := mid.calls[me].listed;
      forall i :: 0 <= i < |l| && s'.clock < l[i].expiresAt ==> CacheHit(s', l[i].id)
  {
    hide Inv, Reaches, Unbroken, Enabled;
    var d := Next(mid, ReuseRevoke(me));
    ReachesInv(s0, mid);
    ReuseCommits(mid, me);
    StepGrows(mid, ReuseRevoke(me));
    InvStep(mid, ReuseRevoke(me));
    UnbrokenReaches(me, d, s', stored, kept);
    ReachesInv(d, s');
    if stored && kept {
      CommittedIsStored(me, s0, mid, ReuseRevoke(me), s', mid.calls[me].listed);
    }
  }

  // ----- Runs of a login -----

  ghost predicate OpensExactly(evs: seq<Event>, me: CallId, inserted: Option<Id>) {
    forall x: Id :: LoginOpen(me, x) in evs <==> inserted == Some(x)
  }

  ghost predicate IssuesExactly(evs: seq<Event>, me: CallId, issued: Option<Id>, hash: Digest) {
    forall t: Id, h: Digest :: LoginIssue(me, t, h) in evs <==> issued == Some(t) && h == hash
  }

  /**
    A run in which login `me` has committed the session `inserted` and the token
    `issued` with this hash, and no others.
  */
  ghost predicate Wrote(me: CallId, s: State, s': State, inserted: Option<Id>, issued: Option<Id>, hash: Digest) {
    exists evs ::
      && ValidRun(s, evs) && Run(s, evs) == s'
      && OpensExactly(evs, me, inserted) && IssuesExactly(evs, me, issued, hash)
  }

  lemma WroteSelf(me: CallId, s: State, hash: Digest)
    ensures Wrote(me, s, s, None, None, hash)
  {
    var evs: seq<Event> := [];
    assert ValidRun(s, evs) && Run(s, evs) == s && OpensExactly(evs, me, None) && IssuesExactly(evs, me, None, hash);
  }

  function OpenedBy(e: Event, me: CallId, inserted: Option<Id>): Option<Id> {
    if e.LoginOpen? && e.c == me then Some(e.sessionId) else inserted
  }

  function IssuedBy(e: Event, me: CallId, issued: Option<Id>): Option<Id> {
    if e.LoginIssue? && e.c == me then Some(e.tokenId) else issued
  }

  lemma WroteStep(me: CallId, s0: State, s: State, e: Event, inserted: Option<Id>, issued: Option<Id>, hash: Digest)
    requires Wrote(me, s0, s, inserted, issued, hash) && Enabled(s, e)
    requires e.LoginOpen? && e.c == me ==> inserted.None?
    requires e.LoginIssue? && e.c == me ==> issued.None? && e.hash == hash
    ensures Wrote(me, s0, Next(s, e), OpenedBy(e, me, inserted), IssuedBy(e, me, issued), hash)
  {
    var evs :|
      && ValidRun(s0, evs) && Run(s0, evs) == s
      && OpensExactly(evs, me, inserted) && IssuesExactly(evs, me, issued, hash);
    var evs' := Extend(s0, evs, e);
    assert forall x :: x in evs' <==> x in evs || x == e;
    assert OpensExactly(evs', me, OpenedBy(e, me, inserted));
    assert IssuesExactly(evs', me, IssuedBy(e, me, issued), hash);
  }

  lemma WroteOthers(
    me: CallId, a: State, b: State, c: State, inserted: Option<Id>, issued: Option<Id>, hash: Digest, kept: bool)
    requires Wrote(me, a, b, inserted, issued, hash) && OthersReach(me, b, c, kept)
    ensures Wrote(me, a, c, inserted, issued, hash)
  {
    var p :|
      && ValidRun(a, p) && Run(a, p) == b
      && OpensExactly(p, me, inserted) && IssuesExactly(p, me, issued, hash);
    var q :|
      && ValidRun(b, q) && Run(b, q) == c
      && (forall e :: e in q ==> Actor(e) != Some(me)) && (kept <==> NoEvict(q));
    RunConcat(a, p, q);
    forall x
      ensures LoginOpen(me, x) in p + q <==> LoginOpen(me, x) in p
    {
      assert Actor(LoginOpen(me, x)) == Some(me);
    }
    forall t, h
      ensures LoginIssue(me, t, h) in p + q <==> LoginIssue(me, t, h) in p
    {
      assert Actor(LoginIssue(me, t, h)) == Some(me);
    }
    assert OpensExactly(p + q, me, inserted) && IssuesExactly(p + q, me, issued, hash);
  }

  lemma WroteReaches(me: CallId, s: State, s': State, inserted: Option<Id>, issued: Option<Id>, hash: Digest)
    requires Wrote(me, s, s', inserted, issued, hash)
    ensures Reaches(s, s')
  {
  }

  // ----- What the calls are refused for -----

  /** The part of a user row that LogIn and Refresh look at. */
  datatype Account = Account(id: Id, passwordHash: Option<string>, emailVerified: bool, deleted: bool)

  /** LogIn accepts the user; `matches` is the comparison of the password with the stored hash. */
  predicate Admitted(user: Option<Account>, matches: bool) {
    && user.Some? && user.value.passwordHash.Some? && user.value.passwordHash.value != ""
    && matches && user.value.emailVerified && !user.value.deleted
  }

  /** Refresh accepts the owner of the session. */
  predicate Usable(user: Option<Account>) {
    user.Some? && !user.value.deleted && user.value.emailVerified
  }

  predicate Taken(ts: Tokens, hash: Digest) {
    exists u | u in ts :: ts[u].hash == hash
  }

  /** In this state the token could not be exchanged. */
  predicate NoExchange(s: State, t: Id, row: RefreshToken, drawn: string, user: Option<Account>) {
    || row.expiresAt <= s.clock || !Active(s.sessions, row.sessionId, s.clock)
    || !Usable(user) || !Live(s.tokens, t) || Taken(s.tokens, Digest(drawn))
  }

  /** In this state the session could not be logged out. */
  predicate NoLogout(s: State, x: Id) {
    !Active(s.sessions, x, s.clock) || !SessionHasLiveToken(s.tokens, x)
  }

  /** What looking up the presented token gave, and the state it was read in. */
  datatype Lookup = Unread | Absent(at: State) | Found(at: State, token: Id)

  // ----- Parts of the invariant that the services use -----

  lemma CallOf(s: State, c: CallId)
    requires Inv(s) && c in s.calls
    ensures CallSound(s, s.calls[c])
  {
  }

  lemma OwnerKnown(s: State, t: Id)
    requires Inv(s) && t in s.tokens
    ensures s.tokens[t].userId != NIL
  {
    assert s.sessions[s.tokens[t].sessionId].userId == s.tokens[t].userId;
  }

  lemma CachedIsDead(s: State, x: Id)
    requires Inv(s) && x in s.cache
    ensures Dead(s, x)
  {
  }

  class Store {
    var clock: Time
    var sessions: Sessions
    var tokens: Tokens
    var cache: map<Id, Time>
    ghost var calls: map<CallId, Call>
    ghost var faults: nat  // failures met by the calls made through this object
    const refreshTTL: int

    ghost function St(): State
      reads this
    {
      State(clock, refreshTTL, sessions, tokens, cache, calls)
    }

    constructor (ttl: int, now: Time)
      ensures Init(St()) && Inv(St()) && refreshTTL == ttl
    {
      clock, sessions, tokens, cache, calls := now, map[], map[], map[], map[];
      refreshTTL, faults := ttl, 0;
      new;
      InitInv(St());
    }

    // ----- The rest of the system -----

    /** Any run of other calls, the clock and the store; the caller sees only this contract. */
    method Interfere(ghost me: CallId) returns (ghost kept: bool)
      modifies this
      ensures OthersReach(me, old(St()), St(), kept) && faults == old(faults)
    {
      assert ValidRun(St(), []) && Run(St(), []) == St() && NoEvict([]);
      kept := true;
    }

    method Yield(ghost me: CallId, ghost s0: State)
      requires Inv(St()) && Reaches(s0, St())
      modifies this
      ensures Inv(St()) && Reaches(s0, St()) && Grows(old(St()), St()) && faults == old(faults)
      ensures me in old(calls) ==> me in calls && calls[me] == old(calls)[me]
      ensures me !in old(calls) ==> me !in calls
    {
      ghost var kept := Interfere(me);
      OthersFacts(me, old(St()), St(), kept);
      ReachesTransitive(s0, old(St()), St());
    }

    /** Accounts for an atomic step that took `before` to the current tables. */
    ghost method Took(s0: State, before: State, e: Event)
      requires Inv(before) && Reaches(s0, before) && Enabled(before, e)
      requires St() == Next(before, e).(calls := before.calls)
      modifies this`calls
      ensures St() == Next(before, e) && Inv(St()) && Reaches(s0, St())
    {
      calls := Next(before, e).calls;
      InvStep(before, e);
      ReachesStep(s0, before, e);
    }

    // ----- Session repository -----

    method CreateSession(row: Session) returns (err: Option<Error>, x: Id)
      modifies this`sessions, this`faults
      ensures if err.None? then faults == old(faults) else faults > old(faults)
      ensures err.None? ==> x != NIL && x !in old(sessions) && sessions == old(sessions)[x := row]
      ensures err.Some? ==> sessions == old(sessions)
    {
      FreshId(sessions.Keys);
      x :| x != NIL && x !in sessions;
      var fault: bool := *;
      if fault {
        faults := faults + 1;
        return Some(Fault), x;
      }
      sessions := sessions[x := row];
      err := None;
    }

    method FindActiveByID(x: Id) returns (r: Result<Session>)
      modifies this`faults
      ensures faults >= old(faults) && (r.Ok? ==> faults == old(faults))
      ensures r.Err? && faults == old(faults) ==> r == Err(NotFound)
      ensures r.Ok? ==> Active(sessions, x, clock) && r.value == sessions[x]
      ensures r == Err(NotFound) ==> !Active(sessions, x, clock)
    {
      var fault: bool := *;
      if fault {
        faults := faults + 1;
        return Err(Fault);
      }
      r := if Active(sessions, x, clock) then Ok(sessions[x]) else Err(NotFound);
    }

    method ListActiveByUserID(userId: Id) returns (r: Result<seq<Listed>>)
      modifies this`faults
      ensures if r.Ok? then faults == old(faults) else faults > old(faults)
      ensures r.Ok? ==> ListsActive(sessions, userId, clock, r.value)
    {
      var fault: bool := *;
      if fault {
        faults := faults + 1;
        return Err(Fault);
      }
      var rest := sessions.Keys;
      var rows: seq<Listed> := [];
      while rest != {}
        invariant rest <= sessions.Keys && faults == old(faults)
        invariant forall l :: l in rows ==>
                    Active(sessions, l.id, clock) && sessions[l.id].userId == userId
                      && sessions[l.id].expiresAt == l.expiresAt
        invariant forall x :: Active(sessions, x, clock) && sessions[x].userId == userId && x !in rest ==>
                    Listed(x, sessions[x].expiresAt) in rows
        decreases rest
      {
        var x :| x in rest;
        rest := rest - {x};
        if sessions[x].userId == userId && sessions[x].ActiveAt(clock) {
          rows := rows + [Listed(x, sessions[x].expiresAt)];
        }
      }
      r := Ok(rows);
    }

    method RevokeSessionByID(x: Id) returns (err: Option<Error>)
      modifies this`sessions, this`faults
      ensures faults >= old(faults) && (err != Some(Fault) ==> faults == old(faults))
      ensures err.Some? && faults == old(faults) ==> err == Some(NotFound)
      ensures err != Some(Fault) ==> sessions == RevokeSession(old(sessions), x, clock)
      ensures err == Some(Fault) ==> sessions == old(sessions)
      ensures err.None? ==> x in old(sessions) && old(sessions)[x].revokedAt.None?
      ensures err == Some(NotFound) ==> !(x in sessions && sessions[x].revokedAt.None?)
    {
      var fault: bool := *;
      if fault {
        faults := faults + 1;
        return Some(Fault);
      }
      if x !in sessions || sessions[x].revokedAt.Some? { return Some(NotFound); }
      sessions := sessions[x := sessions[x].(revokedAt := Some(clock))];
      err := None;
    }

    method RevokeAllByUserID(userId: Id) returns (err: Option<Error>)
      modifies this`sessions, this`faults
      ensures faults >= old(faults) && (err != Some(Fault) ==> faults == old(faults))
      ensures err.Some? && faults == old(faults) ==> err == Some(NotFound)
      ensures err != Some(Fault) ==> sessions == RevokeSessionsOfUser(old(sessions), userId, clock)
      ensures err == Some(Fault) ==> sessions == old(sessions)
      ensures err.None? ==> UserHasActiveSession(old(sessions), userId, clock)
      ensures err == Some(NotFound) ==> !UserHasActiveSession(old(sessions), userId, clock)
    {
      var fault: bool := *;
      if fault {
        faults := faults + 1;
        return Some(Fault);
      }
      if !UserHasActiveSession(sessions, userId, clock) {
        assert sessions == RevokeSessionsOfUser(sessions, userId, clock);
        return Some(NotFound);
      }
      sessions := RevokeSessionsOfUser(sessions, userId, clock);
      err := None;
    }

    /** Random generation and the signature of an access token; both may only fail. */
    method Generate() returns (ok: bool)
      modifies this`faults
      ensures if ok then faults == old(faults) else faults > old(faults)
    {
      ok := *;
      if !ok { faults := faults + 1; }
    }

    // ----- Refresh token repository -----

    method CreateToken(row: RefreshToken) returns (err: Option<Error>, t: Id)
      modifies this`tokens, this`faults
      ensures faults >= old(faults) && (err.None? ==> faults == old(faults))
      ensures err.Some? && faults == old(faults) ==> Taken(old(tokens), row.hash)
      ensures err.None? ==> NewToken(old(tokens), t, row.hash) && tokens == old(tokens)[t := row]
      ensures err.Some? ==> tokens == old(tokens)
    {
      FreshId(tokens.Keys);
      t :| t != NIL && t !in tokens;
      var fault: bool := *;
      if fault {
        faults := faults + 1;
        return Some(Fault), t;
      }
      if exists u | u in tokens :: tokens[u].hash == row.hash { return Some(Fault), t; }
      tokens := tokens[t := row];
      err := None;
    }

    method FindByTokenHash(hash: Digest) returns (r: Result<Id>)
      modifies this`faults
      ensures faults >= old(faults) && (r.Ok? ==> faults == old(faults))
      ensures r.Err? && faults == old(faults) ==> r == Err(NotFound)
      ensures r.Ok? ==> r.value in tokens && tokens[r.value].hash == hash
      ensures r == Err(NotFound) ==> forall t :: t in tokens ==> tokens[t].hash != hash
    {
      var fault: bool := *;
      if fault {
        faults := faults + 1;
        return Err(Fault);
      }
      if t :| t in tokens && tokens[t].hash == hash {
        r := Ok(t);
      } else {
        r := Err(NotFound);
      }
    }

    method RevokeTokenByID(t: Id) returns (err: Option<Error>)
      modifies this`tokens, this`faults
      ensures faults >= old(faults) && (err != Some(Fault) ==> faults == old(faults))
      ensures err.Some? && faults == old(faults) ==> err == Some(NotFound)
      ensures err.None? ==> Live(old(tokens), t) && tokens == RevokeToken(old(tokens), t, clock)
      ensures err.Some? ==> tokens == old(tokens)
      ensures err == Some(NotFound) ==> !Live(old(tokens), t)
    {
      var fault: bool := *;
      if fault {
        faults := faults + 1;
        return Some(Fault);
      }
      if !Live(tokens, t) { return Some(NotFound); }
      tokens := tokens[t := tokens[t].(revokedAt := Some(clock))];
      err := None;
    }

    method RevokeTokensByUserID(userId: Id) returns (err: Option<Error>)
      modifies this`tokens, this`faults
      ensures faults >= old(faults) && (err != Some(Fault) ==> faults == old(faults))
      ensures err.Some? && faults == old(faults) ==> err == Some(NotFound)
      ensures err.None? ==> UserHasLiveToken(old(tokens), userId)
      ensures err != Some(Fault) ==> tokens == RevokeTokensOfUser(old(tokens), userId, clock)
      ensures err == Some(Fault) ==> tokens == old(tokens)
      ensures err == Some(NotFound) ==> !UserHasLiveToken(old(tokens), userId)
    {
      var fault: bool := *;
      if fault {
        faults := faults + 1;
        return Some(Fault);
      }
      if !UserHasLiveToken(tokens, userId) {
        assert tokens == RevokeTokensOfUser(tokens, userId, clock);
        return Some(NotFound);
      }
      tokens := RevokeTokensOfUser(tokens, userId, clock);
      err := None;
    }

    method RevokeTokensBySessionID(x: Id) returns (err: Option<Error>)
      modifies this`tokens, this`faults
      ensures faults >= old(faults) && (err != Some(Fault) ==> faults == old(faults))
      ensures err.Some? && faults == old(faults) ==> err == Some(NotFound)
      ensures err.None? ==>
                && SessionHasLiveToken(old(tokens), x)
                && tokens == RevokeTokensOfSession(old(tokens), x, clock)
      ensures err.Some? ==> tokens == old(tokens)
      ensures err == Some(NotFound) ==> !SessionHasLiveToken(old(tokens), x)
    {
      var fault: bool := *;
      if fault {
        faults := faults + 1;
        return Some(Fault);
      }
      if !SessionHasLiveToken(tokens, x) { return Some(NotFound); }
      tokens := RevokeTokensOfSession(tokens, x, clock);
      err := None;
    }

    method MarkReplacement(t: Id, next: Id) returns (err: Option<Error>)
      modifies this`tokens, this`faults
      ensures faults >= old(faults) && (err != Some(Fault) ==> faults == old(faults))
      ensures err.Some? && faults == old(faults) ==> err == Some(NotFound)
      ensures err.None? ==> t in old(tokens) && tokens == old(tokens)[t := old(tokens)[t].(replacedBy := Some(next))]
      ensures err.Some? ==> tokens == old(tokens)
      ensures err == Some(NotFound) ==> t !in old(tokens)
    {
      var fault: bool := *;
      if fault {
        faults := faults + 1;
        return Some(Fault);
      }
      if t !in tokens { return Some(NotFound); }
      tokens := tokens[t := tokens[t].(replacedBy := Some(next))];
      err := None;
    }

    // ----- Transactions: all of it or none of it -----

    method RotateInTx(t: Id, row: RefreshToken) returns (err: Option<Error>, next: Id)
      modifies this`tokens, this`faults
      ensures faults >= old(faults) && (err.None? ==> faults == old(faults))
      ensures err.Some? && faults == old(faults) ==> !Live(old(tokens), t) || Taken(old(tokens), row.hash)
      ensures err.None? ==>
                && Live(old(tokens), t) && NewToken(old(tokens), next, row.hash)
                && RotateTx(old(tokens), t, next, row, clock) == Some(tokens)
      ensures err.Some? ==> tokens == old(tokens)
    {
      var begun := tokens;
      err := RevokeTokenByID(t);
      if err.Some? { tokens, next := begun, NIL; return; }
      assert forall u :: u in begun ==> u in tokens && tokens[u].hash == begun[u].hash;
      err, next := CreateToken(row);
      if err.Some? { tokens := begun; return; }
      err := MarkReplacement(t, next);
      if err.Some? { tokens := begun; return; }
    }

    method LogoutInTx(x: Id) returns (err: Option<Error>)
      modifies this`sessions, this`tokens, this`faults
      ensures faults >= old(faults) && (err.None? ==> faults == old(faults))
      ensures err.Some? && faults == old(faults) ==>
                LogoutTx(Tables(old(sessions), old(tokens)), x, clock).None?
      ensures err.None? ==> LogoutTx(Tables(old(sessions), old(tokens)), x, clock) == Some(Tables(sessions, tokens))
      ensures err.Some? ==> sessions == old(sessions) && tokens == old(tokens)
      ensures err == Some(NotFound) ==> LogoutTx(Tables(old(sessions), old(tokens)), x, clock).None?
    {
      var begun := Tables(sessions, tokens);
      err := RevokeSessionByID(x);
      if err == Some(Fault) { sessions, tokens := begun.sessions, begun.tokens; return; }
      err := RevokeTokensBySessionID(x);
      if err.Some? { sessions, tokens := begun.sessions, begun.tokens; return; }
    }

    method LogoutAllInTx(userId: Id) returns (err: Option<Error>)
      modifies this`sessions, this`tokens, this`faults
      ensures faults >= old(faults) && (err.None? ==> faults == old(faults))
      ensures err.Some? && faults == old(faults) ==>
                LogoutAllTx(Tables(old(sessions), old(tokens)), userId, clock).None?
      ensures err.None? ==>
                LogoutAllTx(Tables(old(sessions), old(tokens)), userId, clock) == Some(Tables(sessions, tokens))
      ensures err.Some? ==> sessions == old(sessions) && tokens == old(tokens)
      ensures err == Some(NotFound) ==> LogoutAllTx(Tables(old(sessions), old(tokens)), userId, clock).None?
    {
      var begun := Tables(sessions, tokens);
      err := RevokeAllByUserID(userId);
      if err == Some(Fault) { sessions, tokens := begun.sessions, begun.tokens; return; }
      err := RevokeTokensByUserID(userId);
      if err.Some? { sessions, tokens := begun.sessions, begun.tokens; return; }
    }

    method ReuseInTx(userId: Id) returns (err: Option<Error>)
      modifies this`sessions, this`tokens, this`faults
      ensures if err.None? then faults == old(faults) else faults > old(faults)
      ensures err.None? ==> ReuseTx(Tables(old(sessions), old(tokens)), userId, clock) == Tables(sessions, tokens)
      ensures err.Some? ==> err == Some(Fault) && sessions == old(sessions) && tokens == old(tokens)
    {
      var begun := Tables(sessions, tokens);
      err := RevokeAllByUserID(userId);
      if err == Some(Fault) { sessions, tokens := begun.sessions, begun.tokens; return; }
      err := RevokeTokensByUserID(userId);
      if err == Some(Fault) { sessions, tokens := begun.sessions, begun.tokens; return; }
      err := None;
    }
  }

  /**
    What presenting a revoked token led to: its row, what reuse handling reported,
    and whether the revocation store then failed no command and lost no key.
  */
  datatype Reuse = Reuse(row: RefreshToken, error: Option<Error>, stored: bool, kept: bool)

  class Service {
    const db: Store

    constructor (db: Store)
      ensures this.db == db
    {
      this.db := db;
    }

    /** Drops the call after an error or at its end. */
    ghost method Leave(s0: State, me: CallId)
      requires Inv(db.St()) && Reaches(s0, db.St()) && me in db.calls
      modifies db`calls
      ensures Inv(db.St()) && Reaches(s0, db.St()) && db.St() == Ends(old(db.St()), me)
    {
      db.Took(s0, db.St(), Abort(me));
    }

    /** Others run during a login. */
    method Wait(ghost me: CallId, ghost s0: State, ghost inserted: Option<Id>, ghost hash: Digest)
      requires Inv(db.St()) && Wrote(me, s0, db.St(), inserted, None, hash)
      modifies db
      ensures Inv(db.St()) && Wrote(me, s0, db.St(), inserted, None, hash) && db.faults == old(db.faults)
      ensures me in old(db.calls) ==> me in db.calls && db.calls[me] == old(db.calls)[me]
      ensures me !in old(db.calls) ==> me !in db.calls
    {
      ghost var kept := db.Interfere(me);
      OthersFacts(me, old(db.St()), db.St(), kept);
      WroteOthers(me, s0, old(db.St()), db.St(), inserted, None, hash, kept);
    }

    /** Accounts for a step of a login. */
    ghost method Advance(s0: State, before: State, e: Event, me: CallId, inserted: Option<Id>, hash: Digest)
      requires Inv(before) && Wrote(me, s0, before, inserted, None, hash) && Enabled(before, e)
      requires e.LoginOpen? && e.c == me ==> inserted.None?
      requires e.LoginIssue? && e.c == me ==> e.hash == hash
      requires db.St() == Next(before, e).(calls := before.calls)
      modifies db`calls
      ensures db.St() == Next(before, e) && Inv(db.St())
      ensures Wrote(me, s0, db.St(), OpenedBy(e, me, inserted), IssuedBy(e, me, None), hash)
    {
      ReachesSelf(before);
      db.Took(before, before, e);
      WroteStep(me, s0, before, e, inserted, None, hash);
    }

    /**
      The login's rows: a session of this user, with the issued token as its only
      one or without any token for good.
    */
    ghost predicate LoginRows(userId: Id, raw: string, inserted: Option<Id>, issued: Option<Id>)
      reads db
    {
      && (issued.Some? ==>
            && inserted.Some? && Live(db.tokens, issued.value)
            && db.tokens[issued.value].hash == Digest(raw) && db.tokens[issued.value].userId == userId
            && ChainOf(db.tokens, inserted.value, [issued.value]))
      && (inserted.Some? ==> inserted.value in db.sessions && db.sessions[inserted.value].userId == userId)
      && (inserted.Some? && issued.None? ==> Orphan(db.St(), inserted.value))
    }

    /**
      `user` is the row found by the identifier, `matches` the comparison of the
      password with its hash.  `inserted` and `issued` are the session and the token
      that the call has committed, whether it reports success or not: a failing
      token insert leaves an orphan session, a failing signature a session with a
      live token.
    */
    method LogIn(user: Option<Account>, matches: bool, raw: string, ghost me: CallId)
      returns (r: Result<Id>, ghost inserted: Option<Id>, ghost issued: Option<Id>)
      requires Inv(db.St()) && me !in db.calls && (user.Some? ==> user.value.id != NIL)
      modifies db
      ensures Inv(db.St()) && Wrote(me, old(db.St()), db.St(), inserted, issued, Digest(raw))
      ensures r.Ok? ==> issued == Some(r.value)
      ensures inserted.Some? || issued.Some? ==>
                Admitted(user, matches) && LoginRows(user.value.id, raw, inserted, issued)
      ensures db.faults >= old(db.faults)
      ensures Admitted(user, matches) && r.Err? && db.faults == old(db.faults) ==>
                exists s :: Reaches(old(db.St()), s) && Taken(s.tokens, Digest(raw))
    {
      hide Inv, Wrote, OthersReach, Orphan, Reaches;
      inserted, issued := None, None;
      ghost var s0, hash := db.St(), Digest(raw);
      WroteSelf(me, s0, hash);
      Wait(me, s0, None, hash);
      if user.None? { r := Err(Fault); return; }
      var u := user.value;
      if u.passwordHash.None? || u.passwordHash.value == "" { r := Err(Fault); return; }
      if !matches { r := Err(Fault); return; }
      if !u.emailVerified { r := Err(Fault); return; }
      if u.deleted { r := Err(Fault); return; }
      var drawn := db.Generate();
      if !drawn { r := Err(Fault); return; }
      var expiresAt := db.clock + db.refreshTTL;
      Advance(s0, db.St(), LoginStart(me, u.id), me, None, hash);

      Wait(me, s0, None, hash);
      ghost var before := db.St();
      var err, x := db.CreateSession(Session(u.id, expiresAt, None));
      if err.Some? {
        Advance(s0, before, Abort(me), me, None, hash);
        r := Err(Fault);
        return;
      }
      inserted := Some(x);
      Advance(s0, before, LoginOpen(me, x), me, None, hash);
      r, issued := Issue(x, u.id, expiresAt, raw, me, s0);
    }

    /** The second half of LogIn: the first refresh token of its session, and the signature of the access token. */
    method Issue(x: Id, userId: Id, expiresAt: Time, raw: string, ghost me: CallId, ghost s0: State)
      returns (r: Result<Id>, ghost issued: Option<Id>)
      requires Inv(db.St()) && Wrote(me, s0, db.St(), Some(x), None, Digest(raw))
      requires me in db.calls && db.calls[me] == LoginOpened(userId, x, expiresAt)
      modifies db
      ensures Inv(db.St()) && Wrote(me, s0, db.St(), Some(x), issued, Digest(raw))
      ensures LoginRows(userId, raw, Some(x), issued)
      ensures r.Ok? ==> issued == Some(r.value)
      ensures db.faults >= old(db.faults)
      ensures r.Err? && db.faults == old(db.faults) ==> exists s :: Reaches(s0, s) && Taken(s.tokens, Digest(raw))
    {
      hide Inv, Wrote, OthersReach, Reaches;
      issued := None;
      Wait(me, s0, Some(x), Digest(raw));
      ghost var before := db.St();
      WroteReaches(me, s0, before, Some(x), None, Digest(raw));
      CallOf(before, me);
      assert ChainOf(before.tokens, x, []);
      var row := RefreshToken(x, userId, Digest(raw), expiresAt, None, None);
      var err, t := db.CreateToken(row);
      if err.Some? {
        OrphanStep(before, Abort(me), x);
        Advance(s0, before, Abort(me), me, Some(x), Digest(raw));
        r := Err(Fault);
        return;
      }
      ChainStarts(before.tokens, x, [], t, row);
      Advance(s0, before, LoginIssue(me, t, Digest(raw)), me, Some(x), Digest(raw));
      issued := Some(t);

      var signed := db.Generate();
      r := if signed then Ok(t) else Err(Fault);
    }

    /**
      Token `t`, read as `row`, has been exchanged for the live token `next` of
      the same unrevoked session, which expires when the session does.
    */
    ghost predicate Rotated(row: RefreshToken, drawn: string, t: Id, next: Id)
      reads db
    {
      && CopyOf(db.St(), t, row) && !Live(db.tokens, t) && db.tokens[t].replacedBy == Some(next)
      && Live(db.tokens, next) && db.tokens[next].hash == Digest(drawn) && db.tokens[next].sessionId == row.sessionId
      && row.sessionId in db.sessions && db.sessions[row.sessionId].revokedAt.None?
      && db.tokens[next].expiresAt == db.sessions[row.sessionId].expiresAt
    }

    /**
      `raw` is the presented token without surrounding blanks, `drawn` the token
      generated for the successor, `user` the row of the session's owner.  `lookup`
      is what the token was read as, and `reuse` what a revoked one led to; the
      source only logs that.  An error without a failure of any call means that the
      token was unknown, revoked, or at some point not exchangeable.
    */
    method Refresh(raw: string, drawn: string, user: Option<Account>, ghost me: CallId)
      returns (r: Result<Id>, ghost lookup: Lookup, ghost reuse: Option<Reuse>)
      requires Inv(db.St()) && me !in db.calls
      modifies db
      ensures Inv(db.St()) && Reaches(old(db.St()), db.St()) && db.faults >= old(db.faults)
      ensures raw == "" ==> lookup.Unread?
      ensures lookup.Unread? ==> reuse.None? && r.Err? && (raw == "" || db.faults > old(db.faults))
      ensures !lookup.Unread? ==> Reaches(old(db.St()), lookup.at)
      ensures lookup.Absent? ==> !Taken(lookup.at.tokens, Digest(raw))
      ensures lookup.Found? ==>
                lookup.token in lookup.at.tokens && lookup.at.tokens[lookup.token].hash == Digest(raw)
      ensures reuse.Some? <==> lookup.Found? && !Live(lookup.at.tokens, lookup.token)
      ensures reuse.Some? ==>
                && reuse.value.row == lookup.at.tokens[lookup.token]
                && (reuse.value.error.Some? ==> db.faults > old(db.faults))
                && (reuse.value.error.None? ==>
                      exists mid :: Handled(me, old(db.St()), mid, db.St(), reuse.value.row.userId,
                                            reuse.value.stored, reuse.value.kept))
                && (db.faults == old(db.faults) ==> reuse.value.stored)
      ensures r.Ok? ==>
                && lookup.Found? && Live(lookup.at.tokens, lookup.token) && Usable(user)
                && Rotated(lookup.at.tokens[lookup.token], drawn, lookup.token, r.value)
      ensures r.Err? && lookup.Found? && reuse.None? && db.faults == old(db.faults) ==>
                exists s :: Reaches(old(db.St()), s)
                            && NoExchange(s, lookup.token, lookup.at.tokens[lookup.token], drawn, user)
    {
      hide Inv, Reaches, Unbroken, Handled;
      lookup, reuse := Unread, None;
      ghost var s0 := db.St();
      ReachesSelf(s0);
      if raw == "" { r := Err(Fault); return; }
      db.Yield(me, s0);
      var found := db.FindByTokenHash(Digest(raw));
      if found.Err? {
        if found.error == NotFound { lookup := Absent(db.St()); }
        r := Err(NotFound);
        return;
      }
      var t := found.value;
      var row := db.tokens[t];
      lookup := Found(db.St(), t);
      if !row.Live() {
        var logged;
        ghost var stored, kept;
        logged, stored, kept := HandleReuse(t, row, me, s0);
        reuse := Some(Reuse(row, logged, stored, kept));
        r := Err(NotFound);
        return;
      }
      db.Took(s0, db.St(), RefreshFind(me, t));

      db.Yield(me, s0);
      var now := db.clock;
      if !(now < row.expiresAt) {
        assert NoExchange(db.St(), t, row, drawn, user);
        Leave(s0, me);
        r := Err(NotFound);
        return;
      }
      db.Took(s0, db.St(), RefreshCheck(me));

      r := Exchange(t, row, now, drawn, user, me, s0);
    }

    /** The second half of Refresh: the session read, the checks on its owner, and the rotation. */
    method Exchange(
      t: Id, row: RefreshToken, now: Time, drawn: string, user: Option<Account>, ghost me: CallId, ghost s0: State)
      returns (r: Result<Id>)
      requires Inv(db.St()) && Reaches(s0, db.St()) && me in db.calls && db.calls[me] == RefreshChecked(t, row, now)
      modifies db
      ensures Inv(db.St()) && Reaches(s0, db.St()) && db.faults >= old(db.faults)
      ensures r.Ok? ==> Usable(user) && Rotated(row, drawn, t, r.value)
      ensures r.Err? && db.faults == old(db.faults) ==>
                exists s :: Reaches(s0, s) && NoExchange(s, t, row, drawn, user)
    {
      hide Inv, Reaches, Unbroken;
      CallOf(db.St(), me);
      db.Yield(me, s0);
      var session := db.FindActiveByID(row.sessionId);
      if session.Err? {
        assert session.error == NotFound ==> NoExchange(db.St(), t, row, drawn, user);
        Leave(s0, me);
        return Err(NotFound);
      }
      var expiresAt := now + db.refreshTTL;
      if expiresAt > session.value.expiresAt {
        expiresAt := session.value.expiresAt;
      }
      db.Took(s0, db.St(), RefreshSession(me));
      if user.None? || user.value.deleted || !user.value.emailVerified {
        assert NoExchange(db.St(), t, row, drawn, user);
        Leave(s0, me);
        return Err(Fault);
      }
      var made := db.Generate();
      if !made { Leave(s0, me); return Err(Fault); }
      r := Rotate(t, row, session.value.userId, expiresAt, drawn, user, me, s0);
    }

    method Rotate(
      t: Id, row: RefreshToken, userId: Id, expiresAt: Time, drawn: string, ghost user: Option<Account>,
      ghost me: CallId, ghost s0: State)
      returns (r: Result<Id>)
      requires Inv(db.St()) && Reaches(s0, db.St()) && CopyOf(db.St(), t, row)
      requires me in db.calls && db.calls[me] == RefreshReady(t, row.sessionId, userId, expiresAt)
      modifies db
      ensures Inv(db.St()) && Reaches(s0, db.St()) && db.faults >= old(db.faults)
      ensures r.Ok? ==> Rotated(row, drawn, t, r.value)
      ensures r.Err? && db.faults == old(db.faults) ==>
                exists s :: Reaches(s0, s) && NoExchange(s, t, row, drawn, user)
    {
      hide Inv, Reaches, Unbroken;
      db.Yield(me, s0);
      ghost var before := db.St();
      var successor := RefreshToken(row.sessionId, userId, Digest(drawn), expiresAt, None, None);
      var err, next := db.RotateInTx(t, successor);
      if err.Some? {
        assert db.faults == old(db.faults) ==> NoExchange(before, t, row, drawn, user);
        Leave(s0, me);
        return Err(Fault);
      }
      CallOf(before, me);
      NoRotationWhenRevoked(before, RefreshRotate(me, next, Digest(drawn)));
      db.Took(s0, before, RefreshRotate(me, next, Digest(drawn)));
      r := Ok(next);
    }

    method HandleReuse(t: Id, row: RefreshToken, ghost me: CallId, ghost s0: State)
      returns (err: Option<Error>, ghost stored: bool, ghost kept: bool)
      requires Inv(db.St()) && Reaches(s0, db.St()) && me !in db.calls
      requires t in db.tokens && db.tokens[t] == row && !row.Live()
      modifies db
      ensures Inv(db.St()) && Reaches(s0, db.St())
      ensures db.faults >= old(db.faults) && (err.Some? ==> db.faults > old(db.faults))
      ensures db.faults == old(db.faults) ==> stored
      ensures err.None? ==> exists mid :: Handled(me, s0, mid, db.St(), row.userId, stored, kept)
    {
      hide Inv, Reaches, Unbroken, Handled;
      stored, kept := true, true;
      OwnerKnown(db.St(), t);
      db.Took(s0, db.St(), RefreshFind(me, t));

      db.Yield(me, s0);
      var listed := db.ListActiveByUserID(row.userId);
      if listed.Err? { Leave(s0, me); err := Some(Fault); return; }
      db.Took(s0, db.St(), ReuseList(me, listed.value));

      db.Yield(me, s0);
      err, stored, kept := RevokeAndMark(row.userId, listed.value, me, s0);
    }

    /** The second half of reuse handling: the transaction and the marking loop. */
    method RevokeAndMark(userId: Id, listed: seq<Listed>, ghost me: CallId, ghost s0: State)
      returns (err: Option<Error>, ghost stored: bool, ghost kept: bool)
      requires Inv(db.St()) && Reaches(s0, db.St())
      requires me in db.calls && db.calls[me] == ReuseListed(userId, listed)
      modifies db
      ensures Inv(db.St()) && Reaches(s0, db.St())
      ensures db.faults >= old(db.faults) && (err.Some? ==> db.faults > old(db.faults))
      ensures db.faults == old(db.faults) ==> stored
      ensures err.None? ==> Handled(me, s0, old(db.St()), db.St(), userId, stored, kept)
    {
      hide Inv, Reaches, Unbroken;
      stored, kept := true, true;
      ghost var before := db.St();
      err := db.ReuseInTx(userId);
      if err.Some? { Leave(s0, me); return; }
      db.Took(s0, before, ReuseRevoke(me));
      stored, kept := Finish(listed, me, s0, before, ReuseRevoke(me));
    }

    /** An error without a failure means that the session was not active or had no live token to revoke. */
    method Logout(actor: Option<Id>, sessionId: Id, ghost me: CallId)
      returns (err: Option<Error>, ghost stored: bool, ghost kept: bool)
      requires Inv(db.St()) && me !in db.calls
      modifies db
      ensures Inv(db.St()) && Reaches(old(db.St()), db.St())
      ensures err.None? ==>
                exists mid ::
                  && Committed(me, old(db.St()), mid, LogoutRevoke(me), db.St(), stored, kept)
                  && me in mid.calls && mid.calls[me].LogoutFound? && mid.calls[me].sessionId == sessionId
      ensures err.None? ==> actor.Some?
      ensures db.faults >= old(db.faults) && (db.faults == old(db.faults) ==> stored)
      ensures err.Some? && db.faults == old(db.faults) ==>
                || actor.None? || sessionId == NIL
                || exists s :: Reaches(old(db.St()), s) && NoLogout(s, sessionId)
    {
      hide Inv, Reaches, Unbroken;
      ghost var s0 := db.St();
      ReachesSelf(s0);
      stored, kept := true, true;
      if actor.None? || sessionId == NIL { err := Some(Fault); return; }
      db.Yield(me, s0);
      var session := db.FindActiveByID(sessionId);
      if session.Err? {
        assert session.error == NotFound ==> NoLogout(db.St(), sessionId);
        err := Some(session.error);
        return;
      }
      db.Took(s0, db.St(), LogoutFind(me, sessionId));

      db.Yield(me, s0);
      ghost var before := db.St();
      err, stored, kept := EndSession(sessionId, session.value.expiresAt, me, s0);
      if err.Some? { assert db.faults == old(db.faults) ==> NoLogout(before, sessionId); }
    }

    /** The second half of Logout: the transaction and the marking. */
    method EndSession(sessionId: Id, expiresAt: Time, ghost me: CallId, ghost s0: State)
      returns (err: Option<Error>, ghost stored: bool, ghost kept: bool)
      requires Inv(db.St()) && Reaches(s0, db.St())
      requires me in db.calls && db.calls[me] == LogoutFound(sessionId, expiresAt)
      modifies db
      ensures Inv(db.St()) && Reaches(s0, db.St())
      ensures err.None? ==> Committed(me, s0, old(db.St()), LogoutRevoke(me), db.St(), stored, kept)
      ensures db.faults >= old(db.faults) && (db.faults == old(db.faults) ==> stored)
      ensures err.Some? && db.faults == old(db.faults) ==> !SessionHasLiveToken(old(db.tokens), sessionId)
    {
      hide Inv, Reaches, Unbroken;
      stored, kept := true, true;
      ghost var before := db.St();
      err := db.LogoutInTx(sessionId);
      if err.Some? { Leave(s0, me); return; }
      db.Took(s0, before, LogoutRevoke(me));
      stored, kept := Finish([Listed(sessionId, expiresAt)], me, s0, before, LogoutRevoke(me));
    }

    /** An error without a failure means that the user had no live token to revoke. */
    method LogoutAll(actor: Option<Id>, ghost me: CallId)
      returns (err: Option<Error>, ghost stored: bool, ghost kept: bool)
      requires Inv(db.St()) && me !in db.calls
      modifies db
      ensures Inv(db.St()) && Reaches(old(db.St()), db.St())
      ensures err.None? ==>
                exists mid ::
                  && Committed(me, old(db.St()), mid, LogoutAllRevoke(me), db.St(), stored, kept)
                  && me in mid.calls && mid.calls[me].LogoutAllListed? && Some(mid.calls[me].userId) == actor
      ensures db.faults >= old(db.faults) && (db.faults == old(db.faults) ==> stored)
      ensures err.Some? && db.faults == old(db.faults) ==>
                || actor.None? || actor.value == NIL
                || exists s :: Reaches(old(db.St()), s) && !UserHasLiveToken(s.tokens, actor.value)
    {
      hide Inv, Reaches, Unbroken;
      ghost var s0 := db.St();
      ReachesSelf(s0);
      stored, kept := true, true;
      if actor.None? || actor.value == NIL { err := Some(Fault); return; }
      var userId := actor.value;
      db.Yield(me, s0);
      var listed := db.ListActiveByUserID(userId);
      if listed.Err? { err := Some(Fault); return; }
      db.Took(s0, db.St(), LogoutAllList(me, userId, listed.value));

      db.Yield(me, s0);
      ghost var before := db.St();
      err := db.LogoutAllInTx(userId);
      if err.Some? {
        assert db.faults == old(db.faults) ==> !UserHasLiveToken(before.tokens, userId);
        Leave(s0, me);
        return;
      }
      db.Took(s0, before, LogoutAllRevoke(me));
      stored, kept := Finish(listed.value, me, s0, before, LogoutAllRevoke(me));
    }

    /** The tail that the three revoking calls share after their commit. */
    method Finish(listed: seq<Listed>, ghost me: CallId, ghost s0: State, ghost mid: State, ghost e: Event)
      returns (ghost stored: bool, ghost kept: bool)
      requires Inv(db.St()) && Reaches(s0, mid) && me in mid.calls && Enabled(mid, e) && db.St() == Next(mid, e)
      requires Reaches(s0, db.St()) && me in db.calls && db.calls[me] == Marking(listed)
      modifies db
      ensures Inv(db.St()) && Reaches(s0, db.St()) && Committed(me, s0, mid, e, db.St(), stored, kept)
      ensures db.faults >= old(db.faults) && (db.faults == old(db.faults) ==> stored)
    {
      hide Inv, Reaches, Unbroken, Next, Enabled;
      ghost var after := db.St();
      stored, kept := MarkAll(listed, me);
      UnbrokenReaches(me, after, db.St(), stored, kept);
      ReachesTransitive(s0, after, db.St());
    }

    /**
      One key, unless the id is nil or the session has no time left.  A key that
      the store took outlives the session.
    */
    method MarkRevoked(
      l: Listed, ghost rest: seq<Listed>, ghost me: CallId, ghost s0: State, ghost soFar: bool, ghost held: bool)
      returns (ghost skipped: bool, ghost stored: bool, ghost kept: bool)
      requires Inv(db.St()) && Unbroken(me, s0, db.St(), soFar, held)
      requires me in db.calls && db.calls[me] == Marking([l] + rest)
      modifies db
      ensures Inv(db.St()) && Unbroken(me, s0, db.St(), soFar && (skipped || stored), kept)
      ensures me in db.calls && db.calls[me] == Marking(rest)
      ensures skipped ==> l.id == NIL || l.expiresAt <= db.clock
      ensures stored ==> !skipped && l.id in db.cache && l.expiresAt <= db.cache[l.id]
      ensures l.id == NIL || l.expiresAt <= old(db.clock) ==> skipped
      ensures db.faults >= old(db.faults) && (db.faults == old(db.faults) ==> skipped || stored)
    {
      hide Inv, Reaches, Unbroken;
      skipped, stored := true, false;
      kept := Pause(me, s0, soFar, held);
      assert ([l] + rest)[1..] == rest;
      var ttl := l.expiresAt - db.clock;
      Marked(s0, db.St(), MarkNext(me), me, soFar, kept);
      if l.id != NIL && ttl > 0 {
        skipped := false;
        stored, kept := SetKey(l, ttl, rest, me, s0, soFar, kept);
      }
    }

    /** The command to the store, or its failure. */
    method SetKey(
      l: Listed, ttl: Time, ghost rest: seq<Listed>, ghost me: CallId, ghost s0: State,
      ghost soFar: bool, ghost held: bool)
      returns (ghost stored: bool, ghost kept: bool)
      requires Inv(db.St()) && Unbroken(me, s0, db.St(), soFar, held)
      requires me in db.calls && db.calls[me] == Storing(l.id, ttl, rest) && l.expiresAt <= db.clock + ttl
      modifies db
      ensures Inv(db.St()) && Unbroken(me, s0, db.St(), soFar && stored, kept)
      ensures me in db.calls && db.calls[me] == Marking(rest)
      ensures stored ==> l.id in db.cache && l.expiresAt <= db.cache[l.id]
      ensures if stored then db.faults == old(db.faults) else db.faults > old(db.faults)
    {
      hide Inv, Reaches, Unbroken;
      kept := Pause(me, s0, soFar, held);
      ghost var before := db.St();
      var ok: bool := *;
      if ok {
        db.cache := db.cache[l.id := db.clock + ttl];
      } else {
        db.faults := db.faults + 1;
      }
      Marked(s0, before, MarkStore(me, ok), me, soFar, kept);
      stored := ok;
    }

    /** Others run; the call stays unbroken. */
    method Pause(ghost me: CallId, ghost s0: State, ghost stored: bool, ghost held: bool) returns (ghost kept: bool)
      requires Inv(db.St()) && Unbroken(me, s0, db.St(), stored, held)
      modifies db
      ensures Inv(db.St()) && Unbroken(me, s0, db.St(), stored, kept) && old(db.clock) <= db.clock
      ensures db.faults == old(db.faults)
      ensures me in old(db.calls) ==> me in db.calls && db.calls[me] == old(db.calls)[me]
    {
      hide Inv, Unbroken, OthersReach;
      kept := db.Interfere(me);
      OthersFacts(me, old(db.St()), db.St(), kept);
      OthersUnbroken(me, old(db.St()), db.St(), kept);
      UnbrokenTransitive(me, s0, old(db.St()), db.St(), stored, held, true, kept);
      kept := held && kept;
    }

    /** Accounts for a step of the marking loop. */
    ghost method Marked(s0: State, before: State, e: Event, me: CallId, stored: bool, kept: bool)
      requires Inv(before) && Unbroken(me, s0, before, stored, kept) && Enabled(before, e)
      requires e.MarkNext? || e.MarkStore?
      requires db.St() == Next(before, e).(calls := before.calls)
      modifies db`calls
      ensures db.St() == Next(before, e) && Inv(db.St())
      ensures Unbroken(me, s0, db.St(), stored && e != MarkStore(me, false), kept)
    {
      hide Unbroken;
      ReachesSelf(before);
      db.Took(before, before, e);
      UnbrokenStep(me, s0, before, e, stored, kept);
    }

    /**
      Puts the listed sessions into the revocation store; a failing store is only
      logged.  `stored` says that no store command of the loop failed.
    */
    method MarkAll(listed: seq<Listed>, ghost me: CallId) returns (ghost stored: bool, ghost kept: bool)
      requires Inv(db.St()) && me in db.calls && db.calls[me] == Marking(listed)
      modifies db
      ensures Inv(db.St()) && Unbroken(me, old(db.St()), db.St(), stored, kept) && me !in db.calls
      ensures db.faults >= old(db.faults) && (db.faults == old(db.faults) ==> stored)
    {
      hide Inv, Reaches, Unbroken;
      ghost var s0 := db.St();
      UnbrokenSelf(me, s0);
      stored, kept := true, true;
      for i := 0 to |listed|
        invariant Inv(db.St()) && Unbroken(me, s0, db.St(), stored, kept)
        invariant me in db.calls && db.calls[me] == Marking(listed[i..])
        invariant db.faults >= old(db.faults) && (db.faults == old(db.faults) ==> stored)
      {
        assert listed[i..] == [listed[i]] + listed[i + 1..];
        ghost var skipped, taken;
        skipped, taken, kept := MarkRevoked(listed[i], listed[i + 1..], me, s0, stored, kept);
        stored := stored && (skipped || taken);
      }
      kept := Pause(me, s0, stored, kept);
      Marked(s0, db.St(), MarkNext(me), me, stored, kept);
    }
  }

  class Authenticator {
    const db: Store

    constructor (db: Store)
      ensures this.db == db
    {
      this.db := db;
    }

    /**
      Parsed claims in, permission codes of the claimed role out.  A store that
      cannot be asked counts as one that does not know the session.
    */
    method Authenticate(claims: Claims, role: Option<seq<string>>, ghost me: CallId) returns (r: Result<seq<string>>)
      requires Inv(db.St()) && me !in db.calls
      modifies db
      ensures Inv(db.St()) && Reaches(old(db.St()), db.St())
      ensures r.Ok? ==> DbAccepts(db.St(), claims) && role == Some(r.value)
      ensures r.Ok? ==>
                && claims.sessionId in db.sessions && db.sessions[claims.sessionId].userId == claims.userId
                && db.sessions[claims.sessionId].revokedAt.None? && db.clock < db.sessions[claims.sessionId].expiresAt
      ensures r == Err(NotFound) ==> !DbAccepts(db.St(), claims)
      ensures db.faults >= old(db.faults)
      ensures r.Err? && db.faults == old(db.faults) ==>
                || role.None? || !Active(db.sessions, claims.sessionId, db.clock)
                || db.sessions[claims.sessionId].userId != claims.userId
    {
      hide Inv, Reaches, Unbroken;
      ghost var s0 := db.St();
      ReachesSelf(s0);
      db.Yield(me, s0);
      var ok: bool := *;
      var revoked := claims.sessionId != NIL && ok && claims.sessionId in db.cache
        && db.clock < db.cache[claims.sessionId];
      ghost var asked := db.St();
      db.Took(s0, asked, AuthLookup(me, claims, ok));
      if revoked {
        CachedIsDead(asked, claims.sessionId);
        return Err(NotFound);
      }
      r := CheckSession(claims, role, me, s0);
    }

    /** The session row, its owner, and the role. */
    method CheckSession(claims: Claims, role: Option<seq<string>>, ghost me: CallId, ghost s0: State)
      returns (r: Result<seq<string>>)
      requires Inv(db.St()) && Reaches(s0, db.St()) && me in db.calls && db.calls[me] == AuthUncached(claims)
      modifies db
      ensures Inv(db.St()) && Reaches(s0, db.St())
      ensures r.Ok? ==> DbAccepts(db.St(), claims) && role == Some(r.value)
      ensures r.Ok? ==>
                && claims.sessionId in db.sessions && db.sessions[claims.sessionId].userId == claims.userId
                && db.sessions[claims.sessionId].revokedAt.None? && db.clock < db.sessions[claims.sessionId].expiresAt
      ensures r == Err(NotFound) ==> !DbAccepts(db.St(), claims)
      ensures db.faults >= old(db.faults)
      ensures r.Err? && db.faults == old(db.faults) ==>
                || role.None? || !Active(db.sessions, claims.sessionId, db.clock)
                || db.sessions[claims.sessionId].userId != claims.userId
    {
      hide Inv, Reaches, Unbroken;
      db.Yield(me, s0);
      ghost var before := db.St();
      var session := db.FindActiveByID(claims.sessionId);
      if session.Err? || session.value.userId != claims.userId {
        db.Took(s0, before, Abort(me));
        return Err(if session.Err? then session.error else NotFound);
      }
      db.Took(s0, before, AuthVerify(me));
      if role.None? { return Err(Fault); }

      var perms: seq<string> := [];
      for i := 0 to |role.value|
        invariant perms == role.value[..i]
      {
        perms := perms + [role.value[i]];
      }
      assert perms == role.value;
      r := Ok(perms);
    }
  }
}
