/**
  LogIn, Refresh, reuse handling, Logout, LogoutAll and Authenticate as one
  state machine.  Every call is a sequence of atomic steps; a step is one
  repository read, one committed statement or one committed transaction, so
  everything a call read earlier may be stale by its next step.  A call may
  stop after any step, which covers failing repositories and crashes.
*/
module SessionProtocol {
  import opened Ids
  import opened Options
  import opened SessionTables

  type CallId = nat

  /** What `ListActiveByUserID` hands back for one session. */
  datatype Listed = Listed(id: Id, expiresAt: Time)

  /** The part of an access token that Authenticate compares with the database. */
  datatype Claims = Claims(userId: Id, sessionId: Id)

  /** Where a running call stands, with everything it remembers from its reads. */
  datatype Call =
    | LoginReady(userId: Id, expiresAt: Time)
    | LoginOpened(userId: Id, sessionId: Id, expiresAt: Time)
    | RefreshFound(tokenId: Id, row: RefreshToken)
    | RefreshChecked(tokenId: Id, row: RefreshToken, now: Time)
    | RefreshReady(tokenId: Id, sessionId: Id, userId: Id, expiresAt: Time)
    | ReuseFound(userId: Id)
    | ReuseListed(userId: Id, listed: seq<Listed>)
    | LogoutFound(sessionId: Id, expiresAt: Time)
    | LogoutAllListed(userId: Id, listed: seq<Listed>)
    | Marking(listed: seq<Listed>)
    | Storing(sessionId: Id, ttl: Time, listed: seq<Listed>)
    | AuthUncached(claims: Claims)

  /**
    `cache` is the revocation store: session id to the instant its key lapses.
    `calls` holds the calls in flight.
  */
  datatype State = State(
    clock: Time, refreshTTL: int,
    sessions: Sessions, tokens: Tokens,
    cache: map<Id, Time>, calls: map<CallId, Call>)

  datatype Event =
    | Tick(now: Time)                                   // time passes
    | Evict(sessionId: Id)                              // the store loses a key
    | Abort(c: CallId)                                  // a call returns an error or crashes
    | LoginStart(c: CallId, userId: Id)                 // credentials accepted, expiry computed
    | LoginOpen(c: CallId, sessionId: Id)               // session row committed on its own
    | LoginIssue(c: CallId, tokenId: Id, hash: Digest)     // first refresh token committed
    | RefreshFind(c: CallId, tokenId: Id)               // presented token read by its hash
    | RefreshCheck(c: CallId)                           // expiry compared with the clock
    | RefreshSession(c: CallId)                         // session read while active
    | RefreshRotate(c: CallId, tokenId: Id, hash: Digest)  // rotation committed
    | ReuseList(c: CallId, listed: seq<Listed>)
    | ReuseRevoke(c: CallId)
    | LogoutFind(c: CallId, sessionId: Id)
    | LogoutRevoke(c: CallId)
    | LogoutAllList(c: CallId, userId: Id, listed: seq<Listed>)
    | LogoutAllRevoke(c: CallId)
    | MarkNext(c: CallId)                               // TTL of the next listed session
    | MarkStore(c: CallId, ok: bool)                    // the SET command, or its failure
    | AuthLookup(c: CallId, claims: Claims, ok: bool)   // revocation store asked
    | AuthVerify(c: CallId)                             // session row read while active

  /** The call that takes the step, if it is a step of a call. */
  function Actor(e: Event): Option<CallId> {
    if e.Tick? || e.Evict? then None else Some(e.c)
  }

  /** A new row: unused non-nil id and, by the unique index, an unused hash. */
  predicate NewToken(ts: Tokens, t: Id, hash: Digest) {
    t != NIL && t !in ts && forall u :: u in ts ==> ts[u].hash != hash
  }

  /** The listing returns exactly the user's active sessions. */
  ghost predicate ListsActive(ss: Sessions, userId: Id, now: Time, listed: seq<Listed>) {
    && (forall l :: l in listed ==>
          Active(ss, l.id, now) && ss[l.id].userId == userId && ss[l.id].expiresAt == l.expiresAt)
    && (forall x :: Active(ss, x, now) && ss[x].userId == userId ==> Listed(x, ss[x].expiresAt) in listed)
  }

  predicate CacheHit(s: State, x: Id) {
    x in s.cache && s.clock < s.cache[x]
  }

  /** `IsRevoked` as Authenticate uses it: an error counts as "not revoked". */
  predicate SaysRevoked(s: State, x: Id, ok: bool) {
    x != NIL && ok && CacheHit(s, x)
  }

  /** The decision on the database alone. */
  predicate DbAccepts(s: State, claims: Claims) {
    Active(s.sessions, claims.sessionId, s.clock) && s.sessions[claims.sessionId].userId == claims.userId
  }

  function Db(s: State): Tables {
    Tables(s.sessions, s.tokens)
  }

  ghost predicate Enabled(s: State, e: Event) {
    match e
    case Tick(now) => s.clock <= now
    case Evict(x) => x in s.cache
    case Abort(c) => c in s.calls
    case LoginStart(c, u) => c !in s.calls && u != NIL
    case LoginOpen(c, x) => c in s.calls && s.calls[c].LoginReady? && x != NIL && x !in s.sessions
    case LoginIssue(c, t, h) => c in s.calls && s.calls[c].LoginOpened? && NewToken(s.tokens, t, h)
    case RefreshFind(c, t) => c !in s.calls && t in s.tokens
    case RefreshCheck(c) => c in s.calls && s.calls[c].RefreshFound? && s.clock < s.calls[c].row.expiresAt
    case RefreshSession(c) =>
      c in s.calls && s.calls[c].RefreshChecked? && Active(s.sessions, s.calls[c].row.sessionId, s.clock)
    case RefreshRotate(c, t, h) =>
      c in s.calls && s.calls[c].RefreshReady? && Live(s.tokens, s.calls[c].tokenId) && NewToken(s.tokens, t, h)
    case ReuseList(c, l) =>
      c in s.calls && s.calls[c].ReuseFound? && ListsActive(s.sessions, s.calls[c].userId, s.clock, l)
    case ReuseRevoke(c) => c in s.calls && s.calls[c].ReuseListed?
    case LogoutFind(c, x) => c !in s.calls && x != NIL && Active(s.sessions, x, s.clock)
    case LogoutRevoke(c) =>
      c in s.calls && s.calls[c].LogoutFound? && LogoutTx(Db(s), s.calls[c].sessionId, s.clock).Some?
    case LogoutAllList(c, u, l) => c !in s.calls && u != NIL && ListsActive(s.sessions, u, s.clock, l)
    case LogoutAllRevoke(c) =>
      c in s.calls && s.calls[c].LogoutAllListed? && LogoutAllTx(Db(s), s.calls[c].userId, s.clock).Some?
    case MarkNext(c) => c in s.calls && s.calls[c].Marking?
    case MarkStore(c, ok) => c in s.calls && s.calls[c].Storing?
    case AuthLookup(c, claims, ok) => c !in s.calls
    case AuthVerify(c) => c in s.calls && s.calls[c].AuthUncached? && DbAccepts(s, s.calls[c].claims)
  }

  function Ends(s: State, c: CallId): State {
    s.(calls := s.calls - {c})
  }

  function At(s: State, c: CallId, pc: Call): State {
    s.(calls := s.calls[c := pc])
  }

  /** What Refresh will store: now + TTL, capped by the session's own expiry. */
  function CappedExpiry(now: Time, ttl: int, cap: Time): Time {
    if now + ttl > cap then cap else now + ttl
  }

  ghost function Next(s: State, e: Event): State
    requires Enabled(s, e)
  {
    match e
    case Tick(now) => s.(clock := now)
    case Evict(x) => s.(cache := s.cache - {x})
    case Abort(c) => Ends(s, c)
    case LoginStart(c, u) => At(s, c, LoginReady(u, s.clock + s.refreshTTL))
    case LoginOpen(c, x) =>
      var k := s.calls[c];
      At(s.(sessions := s.sessions[x := Session(k.userId, k.expiresAt, None)]), c,
         LoginOpened(k.userId, x, k.expiresAt))
    case LoginIssue(c, t, h) =>
      var k := s.calls[c];
      Ends(s.(tokens := s.tokens[t := RefreshToken(k.sessionId, k.userId, h, k.expiresAt, None, None)]), c)
    case RefreshFind(c, t) =>
      var row := s.tokens[t];
      if row.Live() then At(s, c, RefreshFound(t, row))
      else if row.userId == NIL then s
      else At(s, c, ReuseFound(row.userId))
    case RefreshCheck(c) => At(s, c, RefreshChecked(s.calls[c].tokenId, s.calls[c].row, s.clock))
    case RefreshSession(c) =>
      var k := s.calls[c];
      var x := k.row.sessionId;
      At(s, c, RefreshReady(k.tokenId, x, s.sessions[x].userId,
                            CappedExpiry(k.now, s.refreshTTL, s.sessions[x].expiresAt)))
    case RefreshRotate(c, t, h) =>
      var k := s.calls[c];
      var row := RefreshToken(k.sessionId, k.userId, h, k.expiresAt, None, None);
      Ends(s.(tokens := RotateTx(s.tokens, k.tokenId, t, row, s.clock).value), c)
    case ReuseList(c, l) => At(s, c, ReuseListed(s.calls[c].userId, l))
    case ReuseRevoke(c) =>
      var k := s.calls[c];
      var d := ReuseTx(Db(s), k.userId, s.clock);
      At(s.(sessions := d.sessions, tokens := d.tokens), c, Marking(k.listed))
    case LogoutFind(c, x) => At(s, c, LogoutFound(x, s.sessions[x].expiresAt))
    case LogoutRevoke(c) =>
      var k := s.calls[c];
      var d := LogoutTx(Db(s), k.sessionId, s.clock).value;
      At(s.(sessions := d.sessions, tokens := d.tokens), c, Marking([Listed(k.sessionId, k.expiresAt)]))
    case LogoutAllList(c, u, l) => At(s, c, LogoutAllListed(u, l))
    case LogoutAllRevoke(c) =>
      var k := s.calls[c];
      var d := LogoutAllTx(Db(s), k.userId, s.clock).value;
      At(s.(sessions := d.sessions, tokens := d.tokens), c, Marking(k.listed))
    case MarkNext(c) =>
      var l := s.calls[c].listed;
      if l == [] then Ends(s, c)
      else if l[0].id == NIL || l[0].expiresAt - s.clock <= 0 then At(s, c, Marking(l[1..]))
      else At(s, c, Storing(l[0].id, l[0].expiresAt - s.clock, l[1..]))
    case MarkStore(c, ok) =>
      var k := s.calls[c];
      var cache := if ok then s.cache[k.sessionId := s.clock + k.ttl] else s.cache;
      At(s.(cache := cache), c, Marking(k.listed))
    case AuthLookup(c, claims, ok) =>
      if SaysRevoked(s, claims.sessionId, ok) then s else At(s, c, AuthUncached(claims))
    case AuthVerify(c) => Ends(s, c)
  }

  // ----- Runs -----

  ghost predicate Init(s: State) {
    s.sessions == map[] && s.tokens == map[] && s.cache == map[] && s.calls == map[]
  }

  ghost predicate ValidRun(s: State, evs: seq<Event>)
    decreases |evs|
  {
    evs == [] || (Enabled(s, evs[0]) && ValidRun(Next(s, evs[0]), evs[1..]))
  }

  ghost function Run(s: State, evs: seq<Event>): State
    requires ValidRun(s, evs)
    decreases |evs|
  {
    if evs == [] then s else Run(Next(s, evs[0]), evs[1..])
  }

  lemma {:induction false} RunConcat(s: State, a: seq<Event>, b: seq<Event>)
    requires ValidRun(s, a) && ValidRun(Run(s, a), b)
    ensures ValidRun(s, a + b) && Run(s, a + b) == Run(Run(s, a), b)
    decreases |a|
  {
    if a == [] {
      assert a + b == b;
    } else {
      RunConcat(Next(s, a[0]), a[1..], b);
      assert (a + b)[0] == a[0] && (a + b)[1..] == a[1..] + b;
    }
  }

  /** One more step at the end of a run. */
  lemma Extend(s: State, evs: seq<Event>, e: Event) returns (evs': seq<Event>)
    requires ValidRun(s, evs) && Enabled(Run(s, evs), e)
    ensures evs' == evs + [e] && ValidRun(s, evs') && Run(s, evs') == Next(Run(s, evs), e)
  {
    evs' := evs + [e];
    var t := Run(s, evs);
    assert [e][1..] == [];
    assert ValidRun(Next(t, e), []) && Run(Next(t, e), []) == Next(t, e);
    assert ValidRun(t, [e]) && Run(t, [e]) == Next(t, e);
    RunConcat(s, evs, [e]);
  }

  lemma {:induction false} RunPrefix(s: State, evs: seq<Event>, i: nat)
    requires ValidRun(s, evs) && i <= |evs|
    ensures ValidRun(s, evs[..i]) && ValidRun(Run(s, evs[..i]), evs[i..])
    ensures Run(Run(s, evs[..i]), evs[i..]) == Run(s, evs)
    decreases i
  {
    if i == 0 {
      assert evs[..0] == [] && evs[0..] == evs;
    } else {
      var s1, p, q := Next(s, evs[0]), evs[..i], evs[i..];
      RunPrefix(s1, evs[1..], i - 1);
      assert p[0] == evs[0] && p[1..] == evs[1..][..i - 1] && q == evs[1..][i - 1..];
      assert ValidRun(s, p) && Run(s, p) == Run(s1, p[1..]);
    }
  }

  /** `s'` comes after `s` in some run. */
  ghost predicate Reaches(s: State, s': State) {
    exists evs :: ValidRun(s, evs) && Run(s, evs) == s'
  }
}
