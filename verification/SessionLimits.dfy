/**
  Where the session code stops short of what one might expect, with a run that
  shows it and the exact condition: rotations that commit after the session has
  expired (`RotationWasChecked`), logins that leave a session without a token
  (`OrphanExactly`), and active sessions that cannot be logged out (`LogoutExactly`).
*/
module SessionLimits {
  import opened Ids
  import opened Options
  import opened SessionTables
  import opened SessionProtocol
  import opened SessionInvariants
  import opened SessionTheorems

  // ----- Rotations after the expiry -----

  /** Only the session check makes a call ready to rotate, and it remembers the session it found active. */
  lemma ReadyStep(s: State, e: Event, c: CallId)
    requires Enabled(s, e) && c in Next(s, e).calls && Next(s, e).calls[c].RefreshReady?
    ensures || (c in s.calls && s.calls[c] == Next(s, e).calls[c])
            || (e == RefreshSession(c) && Active(s.sessions, Next(s, e).calls[c].sessionId, s.clock))
  {
  }

  /** A call that is ready to rotate passed its own session check while that session was active. */
  lemma {:induction false} ReadyWasChecked(s: State, evs: seq<Event>, c: CallId) returns (i: nat)
    requires Init(s) && ValidRun(s, evs) && c in Run(s, evs).calls && Run(s, evs).calls[c].RefreshReady?
    ensures i < |evs| && evs[i] == RefreshSession(c)
    ensures var si := StateAt(s, evs, i); Active(si.sessions, Run(s, evs).calls[c].sessionId, si.clock)
    decreases |evs|
  {
    assert evs != [];
    var n := |evs| - 1;
    AtIndex(s, evs, n);
    RunPrefix(s, evs, n);
    assert evs[..n + 1] == evs;
    var before := StateAt(s, evs, n);
    ReadyStep(before, evs[n], c);
    if c in before.calls && before.calls[c] == Run(s, evs).calls[c] {
      i := ReadyWasChecked(s, evs[..n], c);
      assert evs[..n][..i] == evs[..i];
    } else {
      i := n;
    }
  }

  /**
    Every rotation of a run, however late, was preceded by its own call's session
    check, and that check found the session unrevoked before its expiry.
  */
  lemma RotationWasChecked(s: State, evs: seq<Event>, j: nat) returns (i: nat)
    requires Init(s) && ValidRun(s, evs) && j < |evs| && evs[j].RefreshRotate?
    ensures i < j && evs[i] == RefreshSession(evs[j].c)
    ensures Enabled(StateAt(s, evs, j), evs[j])
    ensures var si := StateAt(s, evs, i); Active(si.sessions, Served(StateAt(s, evs, j), evs[j]), si.clock)
  {
    AtIndex(s, evs, j);
    RunPrefix(s, evs, j);
    i := ReadyWasChecked(s, evs[..j], evs[j].c);
    assert evs[..j][..i] == evs[..i];
  }

  /**
    A remark on the guard: the passing of time takes nothing from a call that got
    that far.  At any later instant, the expiry of the session included, it can
    rotate exactly when its token is still live, and its token expires with the session.
  */
  lemma LateRotation(s: State, c: CallId, now: Time, t: Id, h: Digest)
    requires Inv(s) && s.clock <= now && NewToken(s.tokens, t, h)
    ensures Enabled(Next(s, Tick(now)), RefreshRotate(c, t, h))
            <==> c in s.calls && s.calls[c].RefreshReady? && Live(s.tokens, s.calls[c].tokenId)
    ensures Enabled(Next(s, Tick(now)), RefreshRotate(c, t, h)) ==>
      var s' := Next(Next(s, Tick(now)), RefreshRotate(c, t, h));
      var x := s.calls[c].sessionId;
      x in s.sessions && s'.tokens[t].sessionId == x && s'.tokens[t].expiresAt == s.sessions[x].expiresAt
  {
    hide TokensBelong, SessionsBounded, AllLinear, CacheSound, LoginsApart;
    if c in s.calls {
      assert CallSound(s, s.calls[c]);
    }
  }

  /** User 1 logged in: session 1 with its token 1. */
  ghost function LoggedIn(s: State): State {
    var exp := s.clock + s.refreshTTL;
    s.(sessions := map[1 := Session(1, exp, None)],
       tokens := map[1 := RefreshToken(1, 1, Digest("a"), exp, None, None)])
  }

  lemma LoginExample(s: State) returns (evs: seq<Event>)
    requires Init(s)
    ensures ValidRun(s, evs) && Run(s, evs) == LoggedIn(s)
  {
    evs := [];
    evs := Extend(s, evs, LoginStart(0, 1));
    evs := Extend(s, evs, LoginOpen(0, 1));
    evs := Extend(s, evs, LoginIssue(0, 1, Digest("a")));
    assert Run(s, evs).calls == s.calls;
  }

  /** From any initial state a refresh can pass its checks and commit when its session has just expired. */
  lemma LateExample(s: State) returns (evs: seq<Event>)
    requires Init(s) && s.refreshTTL > 0
    ensures ValidRun(s, evs) && evs != [] && evs[|evs| - 1].RefreshRotate?
    ensures var t, last := StateAt(s, evs, |evs| - 1), evs[|evs| - 1];
      Enabled(t, last) && Served(t, last) in t.sessions && t.sessions[Served(t, last)].expiresAt <= t.clock
  {
    evs := LoginExample(s);
    var now := s.clock + s.refreshTTL;
    var row := LoggedIn(s).tokens[1];
    hide Init;
    evs := Extend(s, evs, RefreshFind(1, 1));
    assert Run(s, evs) == LoggedIn(s).(calls := s.calls[1 := RefreshFound(1, row)]);
    evs := Extend(s, evs, RefreshCheck(1));
    assert Run(s, evs) == LoggedIn(s).(calls := s.calls[1 := RefreshChecked(1, row, s.clock)]);
    evs := Extend(s, evs, RefreshSession(1));
    assert Run(s, evs) == LoggedIn(s).(calls := s.calls[1 := RefreshReady(1, 1, 1, now)]);
    evs := Extend(s, evs, Tick(now));
    var upTo := evs;
    LateCommit(Run(s, upTo));
    evs := Extend(s, evs, RefreshRotate(1, 2, Digest("b")));
    assert evs[..|evs| - 1] == upTo;
  }

  lemma LateCommit(t: State)
    requires 1 in t.calls && t.calls[1].RefreshReady? && t.calls[1].tokenId == 1
    requires t.tokens.Keys == {1} && t.tokens[1].Live() && t.tokens[1].hash == Digest("a")
    ensures Enabled(t, RefreshRotate(1, 2, Digest("b")))
  {
    assert Digest("a") != Digest("b") by {
      assert "a"[0] != "b"[0];
    }
  }

  // ----- Sessions without a token -----

  /** No login is going to give the session its first token any more. */
  ghost predicate Orphan(s: State, x: Id) {
    && x in s.sessions && HasNoToken(s.tokens, x)
    && forall c :: c in s.calls && s.calls[c].LoginOpened? ==> s.calls[c].sessionId != x
  }

  /** The event ends a login that has inserted session `x` and not its token. */
  ghost predicate Strands(s: State, e: Event, x: Id) {
    e.Abort? && e.c in s.calls && s.calls[e.c].LoginOpened? && s.calls[e.c].sessionId == x
  }

  lemma OrphanStays(s: State, e: Event, x: Id)
    requires CallsSound(s) && Enabled(s, e) && Orphan(s, x)
    ensures Orphan(Next(s, e), x)
  {
    var s' := Next(s, e);
    SessionsGrow(s, e);
    if e.LoginIssue? || e.RefreshRotate? {
      assert CallSound(s, s.calls[e.c]);
    } else {
      TokenEffect(s, e);
    }
    forall c | c in s'.calls && s'.calls[c].LoginOpened?
      ensures s'.calls[c].sessionId != x
    {
      OpenedBefore(s, e, c);
    }
  }

  lemma StrandedIsOrphan(s: State, e: Event, x: Id)
    requires CallsSound(s) && LoginsApart(s) && Enabled(s, e) && Strands(s, e, x)
    ensures Orphan(Next(s, e), x)
  {
    assert CallSound(s, s.calls[e.c]);
  }

  /** A session that a step inserts is held by its login. */
  lemma NewIsHeld(s: State, e: Event, x: Id)
    requires Enabled(s, e) && x !in s.sessions
    ensures !Orphan(Next(s, e), x)
  {
    SessionEffect(s, e);
    if e.LoginOpen? && e.sessionId == x {
      assert Next(s, e).calls[e.c].sessionId == x;
    }
  }

  /** An orphan was one before, or a login has just been cut short. */
  lemma OrphanBefore(s: State, e: Event, x: Id)
    requires Enabled(s, e) && Orphan(Next(s, e), x)
    ensures Orphan(s, x) || Strands(s, e, x)
  {
    var s' := Next(s, e);
    StepGrows(s, e);
    assert HasNoToken(s.tokens, x);
    if x !in s.sessions {
      NewIsHeld(s, e, x);
    }
    if !Strands(s, e, x) {
      forall c | c in s.calls && s.calls[c].LoginOpened?
        ensures s.calls[c].sessionId != x
      {
        OpenedAfter(s, e, c);
      }
    }
  }

  /** A login holding a session goes on holding it, is cut short, or inserts the token. */
  lemma OpenedAfter(s: State, e: Event, c: CallId)
    requires Enabled(s, e) && c in s.calls && s.calls[c].LoginOpened?
    ensures var x := s.calls[c].sessionId;
      || (c in Next(s, e).calls && Next(s, e).calls[c] == s.calls[c])
      || Strands(s, e, x) || !HasNoToken(Next(s, e).tokens, x)
  {
    if e.LoginIssue? && e.c == c {
      assert e.tokenId in Next(s, e).tokens && Next(s, e).tokens[e.tokenId].sessionId == s.calls[c].sessionId;
    }
  }

  /** One step makes an orphan exactly when it cuts short the login that had inserted the session. */
  lemma OrphanStep(s: State, e: Event, x: Id)
    requires Inv(s) && Enabled(s, e)
    ensures Orphan(Next(s, e), x) <==> Orphan(s, x) || Strands(s, e, x)
  {
    hide TokensBelong, HashesUnique, SessionsBounded, AllLinear, CacheSound, Orphan, Strands;
    if Orphan(s, x) {
      OrphanStays(s, e, x);
    } else if Strands(s, e, x) {
      StrandedIsOrphan(s, e, x);
    } else if Orphan(Next(s, e), x) {
      OrphanBefore(s, e, x);
    }
  }

  /** Some login of the run was cut short between its two inserts, leaving session `x`. */
  ghost predicate Stranded(s: State, evs: seq<Event>, x: Id)
    requires ValidRun(s, evs)
    decreases |evs|
  {
    evs != [] && (Strands(s, evs[0], x) || Stranded(Next(s, evs[0]), evs[1..], x))
  }

  /**
    Over any run: a session ends up as an orphan exactly when it was one at the
    start or its login was cut short after the first of its two inserts.
  */
  lemma {:induction false} OrphanExactly(s: State, evs: seq<Event>, x: Id)
    requires Inv(s) && ValidRun(s, evs)
    ensures Orphan(Run(s, evs), x) <==> Orphan(s, x) || Stranded(s, evs, x)
    decreases |evs|
  {
    if evs != [] {
      OrphanStep(s, evs[0], x);
      InvStep(s, evs[0]);
      OrphanExactly(Next(s, evs[0]), evs[1..], x);
    }
  }

  /** A session left without a token stays so, and from then on no logout of it ever commits. */
  lemma OrphanForever(s: State, evs: seq<Event>, x: Id)
    requires Inv(s) && ValidRun(s, evs) && Orphan(s, x)
    ensures Orphan(Run(s, evs), x)
    ensures forall c :: Enabled(Run(s, evs), LogoutRevoke(c)) ==> Run(s, evs).calls[c].sessionId != x
  {
    OrphanExactly(s, evs, x);
    var t := Run(s, evs);
    forall c | Enabled(t, LogoutRevoke(c))
      ensures t.calls[c].sessionId != x
    {
      LogoutCommitsIffLiveToken(Db(t), t.calls[c].sessionId, t.clock);
    }
  }

  /** A login that fails between its two inserts leaves such a session, and leaves it active. */
  lemma OrphanExample(s: State, c: CallId, userId: Id, x: Id) returns (evs: seq<Event>)
    requires Inv(s) && s.refreshTTL > 0 && c !in s.calls && userId != NIL && x != NIL && x !in s.sessions
    ensures evs == [LoginStart(c, userId), LoginOpen(c, x), Abort(c)] && ValidRun(s, evs)
    ensures Orphan(Run(s, evs), x) && Active(Run(s, evs).sessions, x, Run(s, evs).clock)
  {
    evs := [];
    evs := Extend(s, evs, LoginStart(c, userId));
    evs := Extend(s, evs, LoginOpen(c, x));
    evs := Extend(s, evs, Abort(c));
    forall d | d in s.calls && s.calls[d].LoginOpened?
      ensures s.calls[d].sessionId != x
    {
      assert CallSound(s, s.calls[d]);
    }
  }

  // ----- Sessions with a token -----

  /** An active session that was given a token has a live one. */
  ghost predicate Supplied(s: State) {
    forall x :: Active(s.sessions, x, s.clock) && !HasNoToken(s.tokens, x) ==> SessionHasLiveToken(s.tokens, x)
  }

  /** The new token of a login or a rotation is live; every other session keeps its live token. */
  lemma SuppliedByInsert(s: State, e: Event, x: Id)
    requires Supplied(s) && Enabled(s, e) && (e.LoginIssue? || e.RefreshRotate?) && CallsSound(s)
    requires Active(s.sessions, x, s.clock) && !HasNoToken(Next(s, e).tokens, x)
    ensures SessionHasLiveToken(Next(s, e).tokens, x)
  {
    var k, ts' := s.calls[e.c], Next(s, e).tokens;
    assert CallSound(s, k);
    if k.sessionId == x {
      assert e.tokenId in ts' && ts'[e.tokenId].sessionId == x && ts'[e.tokenId].Live();
    } else {
      var t :| t in ts' && ts'[t].sessionId == x;
      assert t in s.tokens && s.tokens[t].sessionId == x;
      var u :| u in s.tokens && s.tokens[u].sessionId == x && s.tokens[u].Live();
      assert u in ts' && ts'[u] == s.tokens[u];
    }
  }

  /** What a revoking commit does not revoke it leaves supplied: a session that is still active lost no token. */
  lemma SuppliedByRevocation(s: State, e: Event, x: Id)
    requires Supplied(s) && TokensBelong(s) && Enabled(s, e)
    requires e.LogoutRevoke? || e.LogoutAllRevoke? || e.ReuseRevoke?
    requires Active(Next(s, e).sessions, x, s.clock) && !HasNoToken(Next(s, e).tokens, x)
    ensures SessionHasLiveToken(Next(s, e).tokens, x)
  {
    var s' := Next(s, e);
    assert Active(s.sessions, x, s.clock);
    TokenEffect(s, e);
    var t :| t in s'.tokens && s'.tokens[t].sessionId == x;
    assert s.tokens[t].sessionId == x;
    var u :| u in s.tokens && s.tokens[u].sessionId == x && s.tokens[u].Live();
    assert s'.tokens[u] == s.tokens[u];
  }

  lemma SuppliedStep(s: State, e: Event)
    requires Inv(s) && Supplied(s) && Enabled(s, e)
    ensures Supplied(Next(s, e))
  {
    hide HashesUnique, SessionsBounded, AllLinear, CacheSound, LoginsApart, CallSound;
    var s' := Next(s, e);
    forall x | Active(s'.sessions, x, s'.clock) && !HasNoToken(s'.tokens, x)
      ensures SessionHasLiveToken(s'.tokens, x)
    {
      if e.LoginIssue? || e.RefreshRotate? {
        SuppliedByInsert(s, e, x);
      } else if e.LogoutRevoke? || e.LogoutAllRevoke? || e.ReuseRevoke? {
        SuppliedByRevocation(s, e, x);
      } else {
        TokensUntouched(s, e);
        ActiveBefore(s, e, x);
      }
    }
  }

  lemma ActiveBefore(s: State, e: Event, x: Id)
    requires Enabled(s, e) && Active(Next(s, e).sessions, x, Next(s, e).clock) && !HasNoToken(Next(s, e).tokens, x)
    requires TokensBelong(s) && Next(s, e).tokens == s.tokens
    ensures Active(s.sessions, x, s.clock)
  {
    StepGrows(s, e);
    assert x in s.sessions;
  }

  lemma {:induction false} SuppliedRun(s: State, evs: seq<Event>)
    requires Inv(s) && Supplied(s) && ValidRun(s, evs)
    ensures Supplied(Run(s, evs))
    decreases |evs|
  {
    if evs != [] {
      SuppliedStep(s, evs[0]);
      InvStep(s, evs[0]);
      SuppliedRun(Next(s, evs[0]), evs[1..]);
    }
  }

  /** In every reachable state an active session with any token has exactly one live one. */
  lemma ExactlyOneLiveToken(s: State, evs: seq<Event>, x: Id) returns (t: Id)
    requires Init(s) && ValidRun(s, evs)
    requires Active(Run(s, evs).sessions, x, Run(s, evs).clock) && !HasNoToken(Run(s, evs).tokens, x)
    ensures var ts := Run(s, evs).tokens;
      forall u :: Live(ts, u) && ts[u].sessionId == x <==> u == t
  {
    InitInv(s);
    SuppliedRun(s, evs);
    OneLiveTokenPerSession(s, evs, x);
    var ts := Run(s, evs).tokens;
    t :| t in ts && ts[t].sessionId == x && ts[t].Live();
    assert Live(ts, t);
  }

  /**
    In every reachable state the transaction that logs out an active session
    commits exactly when the session has a token: when it is not an orphan and its
    login is not still about to insert the first one.
  */
  lemma LogoutExactly(s: State, evs: seq<Event>, x: Id)
    requires Init(s) && ValidRun(s, evs) && Active(Run(s, evs).sessions, x, Run(s, evs).clock)
    ensures var t := Run(s, evs);
      && (LogoutTx(Db(t), x, t.clock).Some? <==> !HasNoToken(t.tokens, x))
      && (HasNoToken(t.tokens, x) <==>
            Orphan(t, x) || exists c :: c in t.calls && t.calls[c].LoginOpened? && t.calls[c].sessionId == x)
  {
    InitInv(s);
    InvRun(s, evs);
    SuppliedRun(s, evs);
    var t := Run(s, evs);
    forall c | c in t.calls && t.calls[c].LoginOpened? && t.calls[c].sessionId == x
      ensures HasNoToken(t.tokens, x)
    {
      assert CallSound(t, t.calls[c]);
    }
  }
}
