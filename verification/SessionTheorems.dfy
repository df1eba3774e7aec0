/**
  What the session machine guarantees over whole runs, for any number of
  concurrent calls and any interleaving of their steps.
*/
module SessionTheorems {
  import opened Ids
  import opened Options
  import opened SessionTables
  import opened SessionProtocol
  import opened SessionInvariants

  /** The state just before the `i`-th event of a run. */
  ghost function StateAt(s: State, evs: seq<Event>, i: nat): State
    requires ValidRun(s, evs) && i <= |evs|
  {
    RunPrefix(s, evs, i);
    Run(s, evs[..i])
  }

  lemma AtIndex(s: State, evs: seq<Event>, i: nat)
    requires ValidRun(s, evs) && i < |evs|
    ensures Enabled(StateAt(s, evs, i), evs[i])
    ensures StateAt(s, evs, i + 1) == Next(StateAt(s, evs, i), evs[i])
  {
    RunPrefix(s, evs, i);
    assert evs[i..][0] == evs[i];
    var upTo := Extend(s, evs[..i], evs[i]);
    assert upTo == evs[..i + 1];
  }

  lemma Between(s: State, evs: seq<Event>, i: nat, j: nat)
    requires Inv(s) && ValidRun(s, evs) && i <= j <= |evs|
    ensures Inv(StateAt(s, evs, i)) && Inv(StateAt(s, evs, j))
    ensures Grows(StateAt(s, evs, i), StateAt(s, evs, j))
  {
    RunPrefix(s, evs, i);
    RunPrefix(s, evs, j);
    InvRun(s, evs[..i]);
    InvRun(s, evs[..j]);
    RunPrefix(s, evs[..j], i);
    assert evs[..j][..i] == evs[..i];
    RunGrows(Run(s, evs[..i]), evs[..j][i..]);
  }

  lemma InitInv(s: State)
    requires Init(s)
    ensures Inv(s)
  {
  }

  // ----- Rotation chains -----

  lemma {:induction false} ChainRun(s: State, evs: seq<Event>, x: Id, c: seq<Id>) returns (c': seq<Id>)
    requires Inv(s) && ValidRun(s, evs) && ChainOf(s.tokens, x, c)
    ensures c <= c' && ChainOf(Run(s, evs).tokens, x, c')
    decreases |evs|
  {
    if evs == [] {
      c' := c;
    } else {
      var c1 := ChainStep(s, evs[0], x, c);
      InvStep(s, evs[0]);
      c' := ChainRun(Next(s, evs[0]), evs[1..], x, c1);
    }
  }

  /**
    In every reachable state the refresh tokens of a session form one chain, so
    at most one of them is live.
  */
  lemma OneLiveTokenPerSession(s: State, evs: seq<Event>, x: Id)
    requires Init(s) && ValidRun(s, evs) && x in Run(s, evs).sessions
    ensures var ts := Run(s, evs).tokens;
      && Linear(ts, x)
      && forall t, u :: Live(ts, t) && Live(ts, u) && ts[t].sessionId == x && ts[u].sessionId == x ==> t == u
  {
    InitInv(s);
    InvRun(s, evs);
    var ts := Run(s, evs).tokens;
    var c :| ChainOf(ts, x, c);
    forall t, u | Live(ts, t) && Live(ts, u) && ts[t].sessionId == x && ts[u].sessionId == x
      ensures t == u
    {
      LiveIsTail(ts, x, c, t);
      LiveIsTail(ts, x, c, u);
    }
  }

  /** The chain starts at the token that the login issued, however long the run goes on. */
  lemma ChainStartsAtLogin(s: State, evs: seq<Event>, i: nat) returns (c: seq<Id>)
    requires Init(s) && ValidRun(s, evs) && i < |evs| && evs[i].LoginIssue?
    ensures var si := StateAt(s, evs, i);
      && evs[i].c in si.calls && si.calls[evs[i].c].LoginOpened?
      && ChainOf(Run(s, evs).tokens, si.calls[evs[i].c].sessionId, c)
      && |c| > 0 && c[0] == evs[i].tokenId
  {
    InitInv(s);
    AtIndex(s, evs, i);
    var si := StateAt(s, evs, i);
    Between(s, evs, i, i + 1);
    var k := si.calls[evs[i].c];
    assert CallSound(si, k);
    assert HasNoToken(si.tokens, k.sessionId);
    assert ChainOf(si.tokens, k.sessionId, []);
    ChainStarts(si.tokens, k.sessionId, [], evs[i].tokenId,
                RefreshToken(k.sessionId, k.userId, evs[i].hash, k.expiresAt, None, None));
    RunPrefix(s, evs, i + 1);
    c := ChainRun(StateAt(s, evs, i + 1), evs[i + 1..], k.sessionId, [evs[i].tokenId]);
  }

  /** The token that a rotation consumes, and the session it serves. */
  ghost function Presented(s: State, e: Event): Id
    requires Enabled(s, e) && e.RefreshRotate?
  {
    s.calls[e.c].tokenId
  }

  ghost function Served(s: State, e: Event): Id
    requires Enabled(s, e) && e.RefreshRotate?
  {
    s.calls[e.c].sessionId
  }

  /** No two rotations of a run consume the same refresh token. */
  lemma ExchangedAtMostOnce(s: State, evs: seq<Event>, i: nat, j: nat)
    requires Inv(s) && ValidRun(s, evs) && i < j < |evs| && evs[i].RefreshRotate? && evs[j].RefreshRotate?
    ensures Enabled(StateAt(s, evs, i), evs[i]) && Enabled(StateAt(s, evs, j), evs[j])
    ensures Presented(StateAt(s, evs, i), evs[i]) != Presented(StateAt(s, evs, j), evs[j])
  {
    hide Inv, ValidRun;
    AtIndex(s, evs, i);
    AtIndex(s, evs, j);
    Between(s, evs, i + 1, j);
    assert !Live(StateAt(s, evs, i + 1).tokens, Presented(StateAt(s, evs, i), evs[i])) by {
      var si := StateAt(s, evs, i);
      assert si.calls[evs[i].c].tokenId != evs[i].tokenId;
    }
  }

  // ----- Finality of revocation -----

  /** A revoked session is never served again, not even by a Refresh that had already passed its checks. */
  lemma NoRotationWhenRevoked(s: State, e: Event)
    requires Inv(s) && Enabled(s, e) && e.RefreshRotate?
    ensures Served(s, e) in s.sessions && s.sessions[Served(s, e)].revokedAt.None?
  {
    assert CallSound(s, s.calls[e.c]);
  }

  lemma RevocationIsFinal(s: State, evs: seq<Event>, i: nat, j: nat, x: Id)
    requires Inv(s) && ValidRun(s, evs) && i <= j < |evs| && evs[j].RefreshRotate?
    requires var si := StateAt(s, evs, i); x in si.sessions && si.sessions[x].revokedAt.Some?
    ensures Enabled(StateAt(s, evs, j), evs[j]) && Served(StateAt(s, evs, j), evs[j]) != x
  {
    AtIndex(s, evs, j);
    Between(s, evs, i, j);
    NoRotationWhenRevoked(StateAt(s, evs, j), evs[j]);
  }

  /** The commit of Logout revokes the session it was called for, with all its tokens. */
  lemma LogoutRevokes(s: State, c: CallId)
    requires Inv(s) && Enabled(s, LogoutRevoke(c))
    ensures var x, s' := s.calls[c].sessionId, Next(s, LogoutRevoke(c));
      x in s'.sessions && s'.sessions[x].revokedAt.Some? && !SessionHasLiveToken(s'.tokens, x)
  {
    assert CallSound(s, s.calls[c]);
    LogoutCommitsIffLiveToken(Db(s), s.calls[c].sessionId, s.clock);
  }

  /** The user whose rows the step revokes. */
  ghost predicate RevokesUser(s: State, e: Event, u: Id)
    requires Enabled(s, e)
  {
    (e.LogoutAllRevoke? || e.ReuseRevoke?) && s.calls[e.c].userId == u
  }

  /** The commit of LogoutAll and of reuse handling revokes every active session of the user, with all its tokens. */
  lemma UserRevokes(s: State, e: Event, x: Id)
    requires TokensBelong(s) && Enabled(s, e)
    requires Active(s.sessions, x, s.clock) && RevokesUser(s, e, s.sessions[x].userId)
    ensures var s' := Next(s, e);
      x in s'.sessions && s'.sessions[x].revokedAt.Some? && !SessionHasLiveToken(s'.tokens, x)
  {
    ReuseContains(Db(s), s.sessions[x].userId, s.clock);
  }

  // ----- Absolute lifetime -----

  /**
    A session opened by a login that sampled the clock at `s.clock` expires at
    that instant plus the TTL, and so does every refresh token it will ever have.
  */
  lemma LifetimeIsAbsolute(s: State, c: CallId, u: Id, mid: seq<Event>, x: Id, rest: seq<Event>)
    requires Inv(s) && Enabled(s, LoginStart(c, u))
    requires ValidRun(Next(s, LoginStart(c, u)), mid) && forall e :: e in mid ==> Actor(e) != Some(c)
    requires Enabled(Run(Next(s, LoginStart(c, u)), mid), LoginOpen(c, x))
    requires ValidRun(Next(Run(Next(s, LoginStart(c, u)), mid), LoginOpen(c, x)), rest)
    ensures var last := Run(Next(Run(Next(s, LoginStart(c, u)), mid), LoginOpen(c, x)), rest);
      && x in last.sessions && last.sessions[x].expiresAt == s.clock + s.refreshTTL
      && forall t :: t in last.tokens && last.tokens[t].sessionId == x ==>
          last.tokens[t].expiresAt == s.clock + s.refreshTTL
  {
    var s1 := Next(s, LoginStart(c, u));
    InvStep(s, LoginStart(c, u));
    InvRun(s1, mid);
    OthersKeep(s1, mid, c);
    var s2 := Run(s1, mid);
    InvStep(s2, LoginOpen(c, x));
    var s3 := Next(s2, LoginOpen(c, x));
    InvRun(s3, rest);
    RunGrows(s3, rest);
  }

  /** Only its own steps move a call. */
  lemma {:induction false} OthersKeep(s: State, evs: seq<Event>, c: CallId)
    requires ValidRun(s, evs) && c in s.calls && forall e :: e in evs ==> Actor(e) != Some(c)
    ensures c in Run(s, evs).calls && Run(s, evs).calls[c] == s.calls[c]
    decreases |evs|
  {
    if evs != [] {
      OthersKeepStep(s, evs[0], c);
      OthersKeep(Next(s, evs[0]), evs[1..], c);
    }
  }

  lemma OthersKeepStep(s: State, e: Event, c: CallId)
    requires Enabled(s, e) && c in s.calls && Actor(e) != Some(c)
    ensures c in Next(s, e).calls && Next(s, e).calls[c] == s.calls[c]
  {
  }

  /** The event lets a Refresh pass the expiry or the session check, or an Authenticate succeed, for session `x`. */
  ghost predicate Admits(s: State, e: Event, x: Id)
    requires Enabled(s, e)
  {
    || (e.RefreshCheck? && s.calls[e.c].row.sessionId == x)
    || (e.RefreshSession? && s.calls[e.c].row.sessionId == x)
    || (e.AuthVerify? && s.calls[e.c].claims.sessionId == x)
  }

  lemma ExpiredAdmitsNothing(s: State, e: Event, x: Id)
    requires TokensBelong(s) && CallsSound(s) && Enabled(s, e)
    requires x in s.sessions && s.sessions[x].expiresAt <= s.clock
    ensures !Admits(s, e, x)
  {
    if e.RefreshCheck? {
      assert CallSound(s, s.calls[e.c]);
    }
  }

  /** Once a session's expiry has passed, no later step of any run admits it. */
  lemma NothingAfterExpiry(s: State, evs: seq<Event>, i: nat, j: nat, x: Id)
    requires Inv(s) && ValidRun(s, evs) && i <= j < |evs|
    requires var si := StateAt(s, evs, i); x in si.sessions && si.sessions[x].expiresAt <= si.clock
    ensures Enabled(StateAt(s, evs, j), evs[j]) && !Admits(StateAt(s, evs, j), evs[j], x)
  {
    AtIndex(s, evs, j);
    Between(s, evs, i, j);
    ExpiredAdmitsNothing(StateAt(s, evs, j), evs[j], x);
  }

  // ----- The revocation cache -----

  /** Authenticate as the code stages it: the store is asked in `s`, the database in `s'`. */
  ghost predicate Authenticates(s: State, ok: bool, s': State, claims: Claims) {
    !SaysRevoked(s, claims.sessionId, ok) && DbAccepts(s', claims)
  }

  /** The store changes no answer, whether it knows the session, has forgotten it, or fails. */
  lemma CacheIsTransparent(s: State, ok: bool, evs: seq<Event>, claims: Claims)
    requires Inv(s) && ValidRun(s, evs)
    ensures Authenticates(s, ok, Run(s, evs), claims) <==> DbAccepts(Run(s, evs), claims)
  {
    RunGrows(s, evs);
    if SaysRevoked(s, claims.sessionId, ok) {
      assert Dead(s, claims.sessionId);
    }
  }

  // ----- Containment after reuse -----

  /** The part of the call's list that it has not stored yet. */
  ghost predicate Pending(s: State, c: CallId, l: Listed) {
    && c in s.calls
    && match s.calls[c]
       case Marking(rest) => l in rest
       case Storing(x, ttl, rest) => x == l.id || l in rest
       case _ => false
  }

  ghost predicate Contained(s: State, c: CallId, l: Listed) {
    Pending(s, c, l) || l.expiresAt <= s.clock || CacheHit(s, l.id)
  }

  /** No store failure, crash or key loss hits this call's entries. */
  ghost predicate StoreWorks(e: Event, c: CallId) {
    e != Abort(c) && e != MarkStore(c, false) && !e.Evict?
  }

  lemma KeyKept(s: State, e: Event, x: Id)
    requires Enabled(s, e) && !e.Evict? && x in s.cache
    ensures x in Next(s, e).cache
  {
  }

  /** Each of the call's own steps stores the entry, skips it because it expired, or leaves it pending. */
  lemma PendingStep(s: State, e: Event, c: CallId, l: Listed)
    requires Pending(s, c, l) && CallSound(s, s.calls[c]) && SessionsBounded(s) && Noted(s, l)
    requires Enabled(s, e) && StoreWorks(e, c) && Actor(e) == Some(c)
    ensures Pending(Next(s, e), c, l) || l.expiresAt <= Next(s, e).clock || l.id in Next(s, e).cache
  {
    assert e.MarkNext? || e.MarkStore?;
    assert l.id != NIL;
  }

  lemma ContainedStep(s: State, e: Event, c: CallId, l: Listed)
    requires Inv(s) && Enabled(s, e) && StoreWorks(e, c)
    requires Noted(s, l) && Contained(s, c, l)
    ensures Noted(Next(s, e), l) && Contained(Next(s, e), c, l)
  {
    var s' := Next(s, e);
    CacheSoundStep(s, e);
    StepGrows(s, e);
    if CacheHit(s, l.id) {
      KeyKept(s, e, l.id);
    } else if Pending(s, c, l) {
      if Actor(e) == Some(c) {
        PendingStep(s, e, c, l);
      } else {
        OthersKeepStep(s, e, c);
      }
    }
  }

  lemma {:induction false} ContainedRun(s: State, evs: seq<Event>, c: CallId, l: Listed)
    requires Inv(s) && ValidRun(s, evs) && forall e :: e in evs ==> StoreWorks(e, c)
    requires Noted(s, l) && Contained(s, c, l)
    ensures Contained(Run(s, evs), c, l)
    decreases |evs|
  {
    if evs != [] {
      ContainedStep(s, evs[0], c, l);
      InvStep(s, evs[0]);
      ContainedRun(Next(s, evs[0]), evs[1..], c, l);
    }
  }

  /** A revoked token sends the call into reuse handling for the owner of the token's session. */
  lemma ReuseServesOwner(s: State, c: CallId, t: Id, a: seq<Event>, l: seq<Listed>)
    requires Inv(s) && Enabled(s, RefreshFind(c, t)) && !Live(s.tokens, t)
    requires ValidRun(Next(s, RefreshFind(c, t)), a) && forall e :: e in a ==> Actor(e) != Some(c)
    requires Enabled(Run(Next(s, RefreshFind(c, t)), a), ReuseList(c, l))
    ensures var s' := Next(Run(Next(s, RefreshFind(c, t)), a), ReuseList(c, l));
      s'.calls[c] == ReuseListed(s.tokens[t].userId, l)
    ensures s.tokens[t].sessionId in s.sessions && s.sessions[s.tokens[t].sessionId].userId == s.tokens[t].userId
  {
    assert s.sessions[s.tokens[t].sessionId].userId == s.tokens[t].userId;
    OthersKeep(Next(s, RefreshFind(c, t)), a, c);
  }

  lemma {:induction false} ListedAreContained(s: State, rest: seq<Event>, c: CallId, l: seq<Listed>)
    requires Inv(s) && c in s.calls && s.calls[c] == Marking(l)
    requires ValidRun(s, rest) && forall e :: e in rest ==> StoreWorks(e, c)
    ensures forall i :: 0 <= i < |l| ==> Contained(Run(s, rest), c, l[i])
  {
    assert CallSound(s, s.calls[c]);
    forall i | 0 <= i < |l|
      ensures Contained(Run(s, rest), c, l[i])
    {
      ContainedRun(s, rest, c, l[i]);
    }
  }

  /** The commit of reuse handling, on the tables. */
  lemma ReuseCommits(s: State, c: CallId)
    requires Inv(s) && Enabled(s, ReuseRevoke(c))
    ensures var u := s.calls[c].userId;
      var s' := Next(s, ReuseRevoke(c));
      && !UserHasLiveToken(s'.tokens, u) && !UserHasActiveSession(s'.sessions, u, s'.clock)
      && (forall t :: t in s.tokens && s.tokens[t].userId != u ==> t in s'.tokens && s'.tokens[t] == s.tokens[t])
      && (forall x :: x in s.sessions && s.sessions[x].userId != u ==>
          x in s'.sessions && s'.sessions[x] == s.sessions[x])
      && s'.calls[c] == Marking(s.calls[c].listed)
  {
    ReuseContains(Db(s), s.calls[c].userId, s.clock);
  }

  /**
    Reuse handling that reaches its commit in `s` leaves the user without a live
    token or an active session and moves nobody else's rows.  When the store
    works as well, every session it listed is in the store by the end of the
    call unless it has expired.
  */
  lemma ReuseIsContained(s: State, c: CallId, rest: seq<Event>)
    requires Inv(s) && Enabled(s, ReuseRevoke(c))
    requires ValidRun(Next(s, ReuseRevoke(c)), rest) && forall e :: e in rest ==> StoreWorks(e, c)
    ensures var u := s.calls[c].userId;
      var s' := Next(s, ReuseRevoke(c));
      && !UserHasLiveToken(s'.tokens, u) && !UserHasActiveSession(s'.sessions, u, s'.clock)
      && (forall t :: t in s.tokens && s.tokens[t].userId != u ==> t in s'.tokens && s'.tokens[t] == s.tokens[t])
      && (forall x :: x in s.sessions && s.sessions[x].userId != u ==>
          x in s'.sessions && s'.sessions[x] == s.sessions[x])
    ensures var l := s.calls[c].listed;
      var last := Run(Next(s, ReuseRevoke(c)), rest);
      c !in last.calls ==> forall i :: 0 <= i < |l| && last.clock < l[i].expiresAt ==> CacheHit(last, l[i].id)
  {
    var s' := Next(s, ReuseRevoke(c));
    ReuseCommits(s, c);
    InvStep(s, ReuseRevoke(c));
    ListedAreContained(s', rest, c, s.calls[c].listed);
  }
}
