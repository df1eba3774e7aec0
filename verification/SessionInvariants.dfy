/**
  The inductive invariant of the session machine and its preservation by
  every step.
*/
module SessionInvariants {
  import opened Ids
  import opened Options
  import opened SessionTables
  import opened SessionProtocol

  // ----- The invariant -----

  /** A token agrees with its session on the owner and on the expiry. */
  ghost predicate TokensBelong(s: State) {
    forall t :: t in s.tokens ==>
      var k := s.tokens[t];
      && k.sessionId in s.sessions
      && k.userId == s.sessions[k.sessionId].userId
      && k.expiresAt == s.sessions[k.sessionId].expiresAt
  }

  ghost predicate HashesUnique(ts: Tokens) {
    forall t, u :: t in ts && u in ts && ts[t].hash == ts[u].hash ==> t == u
  }

  ghost predicate SessionsBounded(s: State) {
    forall x :: x in s.sessions ==>
      x != NIL && s.sessions[x].userId != NIL && s.sessions[x].expiresAt <= s.clock + s.refreshTTL
  }

  /** `c` lists the tokens of session `x`, each one replaced by the next. */
  ghost predicate ChainOf(ts: Tokens, x: Id, c: seq<Id>) {
    && (forall i, j :: 0 <= i < j < |c| ==> c[i] != c[j])
    && (forall t :: t in ts && ts[t].sessionId == x ==> t in c)
    && (forall i :: 0 <= i < |c| ==> c[i] in ts && ts[c[i]].sessionId == x)
    && (forall i :: 0 <= i < |c| - 1 ==> ts[c[i]].replacedBy == Some(c[i + 1]) && !ts[c[i]].Live())
    && (|c| > 0 ==> ts[c[|c| - 1]].replacedBy == None)
  }

  ghost predicate Linear(ts: Tokens, x: Id) {
    exists c: seq<Id> :: ChainOf(ts, x, c)
  }

  ghost predicate AllLinear(s: State) {
    forall x :: x in s.sessions ==> Linear(s.tokens, x)
  }

  /** Revoked or expired, for good. */
  ghost predicate Dead(s: State, x: Id) {
    x in s.sessions && !s.sessions[x].ActiveAt(s.clock)
  }

  /** A key names a dead session and outlives that session's expiry. */
  ghost predicate CacheSound(s: State) {
    forall x :: x in s.cache ==> Dead(s, x) && s.sessions[x].expiresAt <= s.cache[x]
  }

  /** The listed entry was read from a row of this user. */
  ghost predicate Noted(s: State, l: Listed) {
    l.id in s.sessions && s.sessions[l.id].expiresAt == l.expiresAt
  }

  /** The copy a Refresh holds differs from the row at most in the mutable columns. */
  ghost predicate CopyOf(s: State, t: Id, row: RefreshToken) {
    && t in s.tokens
    && s.tokens[t].sessionId == row.sessionId && s.tokens[t].userId == row.userId
    && s.tokens[t].expiresAt == row.expiresAt && s.tokens[t].hash == row.hash
  }

  ghost predicate HasNoToken(ts: Tokens, x: Id) {
    forall t :: t in ts ==> ts[t].sessionId != x
  }

  ghost predicate CallSound(s: State, k: Call) {
    match k
    case LoginReady(u, exp) => u != NIL && exp <= s.clock + s.refreshTTL
    case LoginOpened(u, x, exp) =>
      x in s.sessions && s.sessions[x].userId == u && s.sessions[x].expiresAt == exp && HasNoToken(s.tokens, x)
    case RefreshFound(t, row) => CopyOf(s, t, row)
    case RefreshChecked(t, row, now) => CopyOf(s, t, row) && now < row.expiresAt <= now + s.refreshTTL
    case RefreshReady(t, x, u, exp) =>
      && t in s.tokens && s.tokens[t].sessionId == x
      && x in s.sessions && s.sessions[x].userId == u && s.sessions[x].expiresAt == exp
      && (s.sessions[x].revokedAt.Some? ==> !Live(s.tokens, t))
    case ReuseFound(u) => true
    case ReuseListed(u, l) => forall i :: 0 <= i < |l| ==> Noted(s, l[i]) && s.sessions[l[i].id].userId == u
    case LogoutFound(x, exp) => Noted(s, Listed(x, exp))
    case LogoutAllListed(u, l) => forall i :: 0 <= i < |l| ==> Noted(s, l[i]) && s.sessions[l[i].id].userId == u
    case Marking(l) => forall i :: 0 <= i < |l| ==> Noted(s, l[i]) && Dead(s, l[i].id)
    case Storing(x, ttl, l) =>
      && Dead(s, x) && s.sessions[x].expiresAt <= s.clock + ttl
      && forall i :: 0 <= i < |l| ==> Noted(s, l[i]) && Dead(s, l[i].id)
    case AuthUncached(_) => true
  }

  ghost predicate CallsSound(s: State) {
    forall c :: c in s.calls ==> CallSound(s, s.calls[c])
  }

  /** Two logins never hold the same session. */
  ghost predicate LoginsApart(s: State) {
    forall c, d ::
      && c in s.calls && d in s.calls && s.calls[c].LoginOpened? && s.calls[d].LoginOpened?
      && s.calls[c].sessionId == s.calls[d].sessionId
      ==> c == d
  }

  ghost predicate Inv(s: State) {
    && TokensBelong(s) && HashesUnique(s.tokens) && SessionsBounded(s) && AllLinear(s)
    && CacheSound(s) && CallsSound(s) && LoginsApart(s)
  }

  // ----- What every step does to the rows -----

  /** Rows stay, keep their immutable columns, and never become live again. */
  ghost predicate Grows(s: State, s': State) {
    && s.clock <= s'.clock && s.refreshTTL == s'.refreshTTL
    && (forall x :: x in s.sessions ==>
          && x in s'.sessions && s'.sessions[x].userId == s.sessions[x].userId
          && s'.sessions[x].expiresAt == s.sessions[x].expiresAt
          && (s.sessions[x].revokedAt.Some? ==> s'.sessions[x].revokedAt.Some?))
    && (forall t :: t in s.tokens ==>
          && t in s'.tokens && s'.tokens[t].sessionId == s.tokens[t].sessionId
          && s'.tokens[t].userId == s.tokens[t].userId && s'.tokens[t].expiresAt == s.tokens[t].expiresAt
          && s'.tokens[t].hash == s.tokens[t].hash
          && (!s.tokens[t].Live() ==> !s'.tokens[t].Live()))
  }

  /** A step that revokes a session revokes every token the session has. */
  ghost predicate Sweeps(s: State, s': State) {
    forall x, t :: x in s.sessions && x in s'.sessions && t in s.tokens && t in s'.tokens
                   && s.tokens[t].sessionId == x
                   && s.sessions[x].revokedAt.None? && s'.sessions[x].revokedAt.Some?
                   ==> !s'.tokens[t].Live()
  }

  lemma SessionsGrow(s: State, e: Event)
    requires Enabled(s, e)
    ensures forall x :: x in s.sessions ==>
              && x in Next(s, e).sessions && Next(s, e).sessions[x].userId == s.sessions[x].userId
              && Next(s, e).sessions[x].expiresAt == s.sessions[x].expiresAt
              && (s.sessions[x].revokedAt.Some? ==> Next(s, e).sessions[x].revokedAt.Some?)
  {
  }

  lemma StepGrows(s: State, e: Event)
    requires Enabled(s, e)
    ensures Grows(s, Next(s, e))
  {
    SessionsGrow(s, e);
  }

  lemma StepSweeps(s: State, e: Event)
    requires Enabled(s, e) && TokensBelong(s)
    ensures Sweeps(s, Next(s, e))
  {
    var s' := Next(s, e);
    forall x, t | x in s.sessions && x in s'.sessions && t in s.tokens && t in s'.tokens && s.tokens[t].sessionId == x
                  && s.sessions[x].revokedAt.None? && s'.sessions[x].revokedAt.Some?
      ensures !s'.tokens[t].Live()
    {
      assert s.tokens[t].userId == s.sessions[x].userId;
    }
  }

  /** A call that does not take the step keeps its part of the invariant. */
  lemma CallKept(s: State, s': State, k: Call)
    requires CallSound(s, k) && Grows(s, s') && Sweeps(s, s')
    requires k.LoginOpened? ==> HasNoToken(s'.tokens, k.sessionId)
    ensures CallSound(s', k)
  {
  }

  // ----- Chains -----

  /** Revocation alone does not touch a chain. */
  lemma ChainKept(ts: Tokens, ts': Tokens, x: Id, c: seq<Id>)
    requires ChainOf(ts, x, c)
    requires forall t :: t in ts ==>
               && t in ts' && ts'[t].sessionId == ts[t].sessionId && ts'[t].replacedBy == ts[t].replacedBy
               && (!ts[t].Live() ==> !ts'[t].Live())
    requires forall t :: t in ts' && ts'[t].sessionId == x ==> t in ts
    ensures ChainOf(ts', x, c)
  {
  }

  /** Only the last token of a chain can be live. */
  lemma LiveIsTail(ts: Tokens, x: Id, c: seq<Id>, t: Id)
    requires ChainOf(ts, x, c) && Live(ts, t) && ts[t].sessionId == x
    ensures |c| > 0 && c[|c| - 1] == t
  {
    var i :| 0 <= i < |c| && c[i] == t;
  }

  /** A rotation replaces the tail and becomes the new tail. */
  lemma ChainRotated(ts: Tokens, x: Id, c: seq<Id>, t: Id, next: Id, row: RefreshToken, now: Time)
    requires ChainOf(ts, x, c) && Live(ts, t) && ts[t].sessionId == x
    requires next !in ts && row.sessionId == x && row.replacedBy == None
    ensures |c| > 0 && c[|c| - 1] == t && ChainOf(RotateTx(ts, t, next, row, now).value, x, c + [next])
  {
    LiveIsTail(ts, x, c, t);
    var ts' := RotateTx(ts, t, next, row, now).value;
    var c' := c + [next];
    forall i | 0 <= i < |c'| - 1
      ensures ts'[c'[i]].replacedBy == Some(c'[i + 1]) && !ts'[c'[i]].Live()
    {
      if i < |c| - 1 {
        assert c'[i] == c[i] != t;
      }
    }
    forall u | u in ts' && ts'[u].sessionId == x
      ensures u in c'
    {
      if u != next {
        assert u in c;
      } else {
        assert c'[|c|] == next;
      }
    }
  }

  /** A rotation in another session leaves this chain alone. */
  lemma ChainBeside(ts: Tokens, x: Id, c: seq<Id>, t: Id, next: Id, row: RefreshToken, now: Time)
    requires ChainOf(ts, x, c) && Live(ts, t) && ts[t].sessionId != x
    requires next !in ts && row.sessionId != x
    ensures ChainOf(RotateTx(ts, t, next, row, now).value, x, c)
  {
    var ts' := RotateTx(ts, t, next, row, now).value;
    assert forall u :: u in ts && u != t ==> u in ts' && ts'[u] == ts[u];
    assert forall i :: 0 <= i < |c| ==> c[i] != t;
  }

  /** The first token starts the chain of a session that had none. */
  lemma ChainStarts(ts: Tokens, x: Id, c: seq<Id>, t: Id, row: RefreshToken)
    requires ChainOf(ts, x, c) && t !in ts && row.replacedBy == None
    ensures row.sessionId == x && HasNoToken(ts, x) ==> c == [] && ChainOf(ts[t := row], x, [t])
    ensures row.sessionId != x ==> ChainOf(ts[t := row], x, c)
  {
    if row.sessionId != x {
      ChainKept(ts, ts[t := row], x, c);
    }
  }

  // ----- Which columns a step can touch -----

  ghost predicate OnlyRevokes(ts: Tokens, ts': Tokens) {
    && ts'.Keys == ts.Keys
    && forall t :: t in ts ==>
         && ts'[t].(revokedAt := ts[t].revokedAt) == ts[t]
         && (!ts[t].Live() ==> !ts'[t].Live())
  }

  lemma TokensUntouched(s: State, e: Event)
    requires Enabled(s, e) && !e.LoginIssue? && !e.RefreshRotate?
    requires !e.LogoutRevoke? && !e.LogoutAllRevoke? && !e.ReuseRevoke?
    ensures Next(s, e).tokens == s.tokens
  {
  }

  /** Token rows are written by the login insert, by the rotation and by bulk revocation only. */
  lemma TokenEffect(s: State, e: Event)
    requires Enabled(s, e)
    ensures !e.LoginIssue? && !e.RefreshRotate? ==> OnlyRevokes(s.tokens, Next(s, e).tokens)
  {
    if !e.LogoutRevoke? && !e.LogoutAllRevoke? && !e.ReuseRevoke? && !e.LoginIssue? && !e.RefreshRotate? {
      TokensUntouched(s, e);
    }
  }

  lemma SessionEffect(s: State, e: Event)
    requires Enabled(s, e)
    ensures !e.LoginOpen? ==> Next(s, e).sessions.Keys == s.sessions.Keys
  {
  }

  lemma CallEffect(s: State, e: Event, d: CallId)
    requires Enabled(s, e) && d in Next(s, e).calls && Actor(e) != Some(d)
    ensures d in s.calls && Next(s, e).calls[d] == s.calls[d]
  {
  }

  /** Along every step a session's chain keeps its head and only grows at its tail. */
  lemma ChainStep(s: State, e: Event, x: Id, c: seq<Id>) returns (c': seq<Id>)
    requires CallsSound(s) && Enabled(s, e) && ChainOf(s.tokens, x, c)
    ensures c <= c' && ChainOf(Next(s, e).tokens, x, c')
  {
    c' := c;
    if e.RefreshRotate? {
      var k := s.calls[e.c];
      assert CallSound(s, k);
      var row := RefreshToken(k.sessionId, k.userId, e.hash, k.expiresAt, None, None);
      if k.sessionId == x {
        ChainRotated(s.tokens, x, c, k.tokenId, e.tokenId, row, s.clock);
        c' := c + [e.tokenId];
      } else {
        ChainBeside(s.tokens, x, c, k.tokenId, e.tokenId, row, s.clock);
      }
    } else if e.LoginIssue? {
      var k := s.calls[e.c];
      assert CallSound(s, k);
      ChainStarts(s.tokens, x, c, e.tokenId, RefreshToken(k.sessionId, k.userId, e.hash, k.expiresAt, None, None));
      c' := if k.sessionId == x then [e.tokenId] else c;
    } else {
      TokenEffect(s, e);
      ChainKept(s.tokens, Next(s, e).tokens, x, c);
    }
  }

  // ----- Preservation, conjunct by conjunct -----

  lemma TokensBelongStep(s: State, e: Event)
    requires TokensBelong(s) && HashesUnique(s.tokens) && CallsSound(s) && Enabled(s, e)
    ensures TokensBelong(Next(s, e)) && HashesUnique(Next(s, e).tokens)
  {
    StepGrows(s, e);
    if e.LoginIssue? || e.RefreshRotate? {
      assert CallSound(s, s.calls[e.c]);
    } else {
      TokenEffect(s, e);
    }
  }

  lemma SessionsBoundedStep(s: State, e: Event)
    requires SessionsBounded(s) && CallsSound(s) && Enabled(s, e)
    ensures SessionsBounded(Next(s, e))
  {
    StepGrows(s, e);
    if e.LoginOpen? {
      assert CallSound(s, s.calls[e.c]);
    } else {
      SessionEffect(s, e);
    }
  }

  lemma LoginsApartStep(s: State, e: Event)
    requires LoginsApart(s) && CallsSound(s) && Enabled(s, e)
    ensures LoginsApart(Next(s, e))
  {
    var s' := Next(s, e);
    forall c, d |
      && c in s'.calls && d in s'.calls && s'.calls[c].LoginOpened? && s'.calls[d].LoginOpened?
      && s'.calls[c].sessionId == s'.calls[d].sessionId
      ensures c == d
    {
      OpenedBefore(s, e, c);
      OpenedBefore(s, e, d);
      if c in s.calls { assert CallSound(s, s.calls[c]); }
      if d in s.calls { assert CallSound(s, s.calls[d]); }
    }
  }

  lemma OpenedBefore(s: State, e: Event, c: CallId)
    requires Enabled(s, e) && c in Next(s, e).calls && Next(s, e).calls[c].LoginOpened?
    ensures (e.LoginOpen? && e.c == c && Next(s, e).calls[c].sessionId == e.sessionId && e.sessionId !in s.sessions)
            || (c in s.calls && s.calls[c] == Next(s, e).calls[c])
  {
  }

  lemma AllLinearStep(s: State, e: Event)
    requires AllLinear(s) && TokensBelong(s) && CallsSound(s) && Enabled(s, e)
    ensures AllLinear(Next(s, e))
  {
    var s' := Next(s, e);
    forall x | x in s'.sessions
      ensures Linear(s'.tokens, x)
    {
      if x in s.sessions {
        var c :| ChainOf(s.tokens, x, c);
        var c' := ChainStep(s, e, x, c);
      } else {
        SessionEffect(s, e);
        assert ChainOf(s'.tokens, x, []);
      }
    }
  }

  lemma CacheEffect(s: State, e: Event)
    requires Enabled(s, e)
    ensures var cache, cache' := s.cache, Next(s, e).cache;
      if e.MarkStore? && e.ok then cache' == cache[s.calls[e.c].sessionId := s.clock + s.calls[e.c].ttl]
      else forall x :: x in cache' ==> x in cache && cache'[x] == cache[x]
  {
  }

  lemma CacheSoundStep(s: State, e: Event)
    requires CacheSound(s) && CallsSound(s) && Enabled(s, e)
    ensures CacheSound(Next(s, e))
  {
    hide Next;
    StepGrows(s, e);
    CacheEffect(s, e);
    if e.MarkStore? {
      assert CallSound(s, s.calls[e.c]);
    }
  }

  /** Nothing inserts a token for a session that a different login still holds open. */
  lemma StillNoToken(s: State, e: Event, d: CallId)
    requires CallsSound(s) && LoginsApart(s) && Enabled(s, e) && Actor(e) != Some(d)
    requires d in s.calls && s.calls[d].LoginOpened?
    ensures HasNoToken(Next(s, e).tokens, s.calls[d].sessionId)
  {
    var x := s.calls[d].sessionId;
    assert CallSound(s, s.calls[d]);
    if e.LoginIssue? || e.RefreshRotate? {
      assert CallSound(s, s.calls[e.c]);
      assert s.calls[e.c].sessionId != x;
    } else {
      TokenEffect(s, e);
    }
  }

  /** The three revoking commits leave every session they listed earlier dead. */
  lemma ListedAreDead(s: State, e: Event)
    requires CallsSound(s) && Enabled(s, e)
    requires e.ReuseRevoke? || e.LogoutRevoke? || e.LogoutAllRevoke?
    ensures CallSound(Next(s, e), Next(s, e).calls[e.c])
  {
    StepGrows(s, e);
    assert CallSound(s, s.calls[e.c]);
  }

  /** A listing notes sessions of its user. */
  lemma ListerStep(s: State, e: Event)
    requires Enabled(s, e) && (e.ReuseList? || e.LogoutFind? || e.LogoutAllList?)
    ensures CallSound(Next(s, e), Next(s, e).calls[e.c])
  {
  }

  /** The marking loop only drops entries from its list. */
  lemma MarkerStep(s: State, e: Event)
    requires CallsSound(s) && Enabled(s, e) && (e.MarkNext? || e.MarkStore?) && e.c in Next(s, e).calls
    ensures CallSound(Next(s, e), Next(s, e).calls[e.c])
  {
    assert CallSound(s, s.calls[e.c]);
  }

  /** The call that takes the step re-establishes its part of the invariant. */
  lemma ActorStep(s: State, e: Event)
    requires TokensBelong(s) && SessionsBounded(s) && CallsSound(s) && Enabled(s, e)
    requires Actor(e).Some? && e.c in Next(s, e).calls
    ensures CallSound(Next(s, e), Next(s, e).calls[e.c])
  {
    if e.ReuseRevoke? || e.LogoutRevoke? || e.LogoutAllRevoke? {
      ListedAreDead(s, e);
    } else if e.ReuseList? || e.LogoutFind? || e.LogoutAllList? {
      ListerStep(s, e);
    } else if e.MarkNext? || e.MarkStore? {
      MarkerStep(s, e);
    } else if e.RefreshSession? {
      var k := s.calls[e.c];
      assert CallSound(s, k);
      assert s.tokens[k.tokenId].expiresAt == s.sessions[k.row.sessionId].expiresAt;
    } else if e.c in s.calls {
      assert CallSound(s, s.calls[e.c]);
    }
  }

  lemma CallsSoundStep(s: State, e: Event)
    requires TokensBelong(s) && SessionsBounded(s) && CallsSound(s) && LoginsApart(s) && Enabled(s, e)
    ensures CallsSound(Next(s, e))
  {
    var s' := Next(s, e);
    StepGrows(s, e);
    StepSweeps(s, e);
    forall d | d in s'.calls
      ensures CallSound(s', s'.calls[d])
    {
      if Actor(e) == Some(d) {
        ActorStep(s, e);
      } else {
        CallEffect(s, e, d);
        if s.calls[d].LoginOpened? {
          StillNoToken(s, e, d);
        }
        CallKept(s, s', s.calls[d]);
      }
    }
  }

  /** Every step keeps the invariant. */
  lemma InvStep(s: State, e: Event)
    requires Inv(s) && Enabled(s, e)
    ensures Inv(Next(s, e))
  {
    TokensBelongStep(s, e);
    SessionsBoundedStep(s, e);
    AllLinearStep(s, e);
    CacheSoundStep(s, e);
    CallsSoundStep(s, e);
    LoginsApartStep(s, e);
  }

  lemma {:induction false} InvRun(s: State, evs: seq<Event>)
    requires Inv(s) && ValidRun(s, evs)
    ensures Inv(Run(s, evs))
    decreases |evs|
  {
    if evs != [] {
      InvStep(s, evs[0]);
      InvRun(Next(s, evs[0]), evs[1..]);
    }
  }

  lemma GrowsTransitive(a: State, b: State, c: State)
    requires Grows(a, b) && Grows(b, c)
    ensures Grows(a, c)
  {
  }

  lemma {:induction false} RunGrows(s: State, evs: seq<Event>)
    requires ValidRun(s, evs)
    ensures Grows(s, Run(s, evs))
    decreases |evs|
  {
    if evs != [] {
      StepGrows(s, evs[0]);
      RunGrows(Next(s, evs[0]), evs[1..]);
      GrowsTransitive(s, Next(s, evs[0]), Run(s, evs));
    }
  }
}
