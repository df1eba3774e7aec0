/**
  What the missing transaction around the spending statements costs: which calls
  fail after having written the user row, and a race in which the loser's
  password stays.
*/
module UserTokenRaces {
  import opened Ids
  import opened Options
  import opened UserTokens
  import opened UserTokenProtocol

  // ----- Losing a race -----

  /** The call has not marked its token, and somebody has. */
  ghost predicate Lost(s: State, c: CallId) {
    && c in s.calls && !s.calls[c].Marked?
    && s.calls[c].job.token in s.tokens && s.tokens[s.calls[c].job.token].usedAt.Some?
  }

  lemma LostStep(s: State, e: Event, c: CallId)
    requires Lost(s, c) && Enabled(s, e)
    ensures e != Return(c) && (e != Abort(c) ==> Lost(Next(s, e), c))
  {
    StepGrows(s, e);
  }

  /** A call whose token was used before its own MarkUsed can only fail. */
  lemma {:induction false} LoserNeverReturns(s: State, evs: seq<Event>, c: CallId)
    requires Lost(s, c) && ValidRun(s, evs) && Abort(c) !in evs
    ensures Return(c) !in evs && Lost(Run(s, evs), c)
    decreases |evs|
  {
    if evs != [] {
      LostStep(s, evs[0], c);
      LoserNeverReturns(Next(s, evs[0]), evs[1..], c);
    }
  }

  // ----- Which calls have written the user row -----

  /** The steps of call `c` that write a user row. */
  predicate WritesUser(e: Event, c: CallId) {
    e == StorePassword(c) || e == StoreVerified(c)
  }

  predicate AnyWrite(evs: seq<Event>, c: CallId) {
    StorePassword(c) in evs || StoreVerified(c) in evs
  }

  /** The call stands past its first write. */
  predicate PastWrite(s: State, c: CallId) {
    c in s.calls && !s.calls[c].Found? && !s.calls[c].Ready?
  }

  lemma PastWriteStep(s: State, e: Event, c: CallId)
    requires Enabled(s, e) && e != Abort(c) && e != Return(c)
    ensures PastWrite(Next(s, e), c) <==> PastWrite(s, c) || WritesUser(e, c)
  {
  }

  /** A call that is still running stands past its first write exactly when it has written. */
  lemma {:induction false} PastWriteRun(s: State, evs: seq<Event>, c: CallId)
    requires ValidRun(s, evs) && Abort(c) !in evs && Return(c) !in evs
    ensures PastWrite(Run(s, evs), c) <==> PastWrite(s, c) || AnyWrite(evs, c)
    decreases |evs|
  {
    if evs != [] {
      PastWriteStep(s, evs[0], c);
      PastWriteRun(Next(s, evs[0]), evs[1..], c);
    }
  }

  /**
    A call that ends in an error, wherever it stands, has written the user row
    exactly when it got past its first write, UpdatePassword for the password calls;
    ending in an error takes nothing back.
  */
  lemma FailureWroteExactly(s: State, evs: seq<Event>, c: CallId)
    requires c !in s.calls && ValidRun(s, evs) && Abort(c) !in evs && Return(c) !in evs
    requires Enabled(Run(s, evs), Abort(c))
    ensures AnyWrite(evs, c) <==> !Run(s, evs).calls[c].Found? && !Run(s, evs).calls[c].Ready?
    ensures Next(Run(s, evs), Abort(c)).users == Run(s, evs).users
  {
    PastWriteRun(s, evs, c);
  }

  /**
    The token plays no part in the first write: a call that has lost it replaces
    the password exactly when the user row is still there, and fails afterwards
    whatever else happens.
  */
  lemma LoserStillWrites(s: State, c: CallId)
    requires Lost(s, c) && s.calls[c].Ready? && s.calls[c].job.password.Some?
             && s.calls[c].job.kind != EmailVerification
    ensures Enabled(s, StorePassword(c)) <==> Exists(s.users, s.calls[c].job.user)
    ensures Enabled(s, StorePassword(c)) ==>
      var s' := Next(s, StorePassword(c));
      && s'.users[s.calls[c].job.user].passwordHash == s.calls[c].job.password
      && forall evs :: ValidRun(s', evs) && Abort(c) !in evs ==> Return(c) !in evs
  {
    if Enabled(s, StorePassword(c)) {
      LostStep(s, StorePassword(c), c);
      forall evs | ValidRun(Next(s, StorePassword(c)), evs) && Abort(c) !in evs
        ensures Return(c) !in evs
      {
        LoserNeverReturns(Next(s, StorePassword(c)), evs, c);
      }
    }
  }

  // ----- A race -----

  function Claim(password: string): Job {
    Job(0, 0, PasswordSet, Some(password))
  }

  /** User 0 and token 0 exist, and call 2 is past its checks. */
  ghost predicate Waiting(t: State) {
    && Exists(t.users, 0) && 0 in t.tokens && 2 in t.calls && t.calls[2] == Ready(Claim("second"))
  }

  lemma FirstStores(t: State)
    requires Waiting(t) && 1 in t.calls && t.calls[1] == Ready(Claim("first"))
    ensures Enabled(t, StorePassword(1)) && Enabled(Next(t, StorePassword(1)), StoreVerified(1))
    ensures var t' := Next(Next(t, StorePassword(1)), StoreVerified(1));
      Waiting(t') && 1 in t'.calls && t'.calls[1] == Stored(Claim("first")) && t'.tokens == t.tokens
  {
  }

  lemma FirstReturns(t: State)
    requires Waiting(t) && 1 in t.calls && t.calls[1] == Stored(Claim("first")) && t.tokens[0].usedAt.None?
    ensures Enabled(t, MarkUsed(1)) && Enabled(Next(t, MarkUsed(1)), Return(1))
    ensures var t' := Next(Next(t, MarkUsed(1)), Return(1)); Waiting(t') && t'.tokens[0].usedAt.Some?
  {
  }

  /** An administrator creates user 0, and two SetPassword calls find the token and pass their checks. */
  lemma BothGetReady(s: State) returns (evs: seq<Event>)
    requires Init(s)
    ensures ValidRun(s, evs)
    ensures var t := Run(s, evs);
      Waiting(t) && 1 in t.calls && t.calls[1] == Ready(Claim("first")) && t.tokens[0].usedAt.None?
  {
    hide ValidRun, Run;
    evs := Start(s);
    evs := Extend(s, evs, Find(1, Claim("first")));
    evs := Extend(s, evs, Find(2, Claim("second")));
    evs := Extend(s, evs, Check(1));
    evs := Extend(s, evs, Check(2));
  }

  lemma Start(s: State) returns (evs: seq<Event>)
    requires Init(s)
    ensures ValidRun(s, evs)
    ensures var t := Run(s, evs);
      && t.calls == map[] && t.clock == s.clock
      && 0 in t.users && t.users[0] == User("a", Pending, None, false, false)
      && Valid(t.tokens, 0, t.clock) && t.tokens[0].kind == PasswordSet && t.tokens[0].userId == 0
  {
    evs := Extend(s, [], CreateUser(0, User("a", Pending, None, false, false), "r", 0, 0));
  }

  /**
    From the initial state: two SetPassword calls hold the same token, the first
    one reports success, the second one cannot but fail, and its password stays.
  */
  lemma LoserOverwrites(s: State) returns (evs: seq<Event>, j: nat)
    requires Init(s)
    ensures ValidRun(s, evs) && Return(1) in evs && j < |evs| && evs[j] == Abort(2)
    ensures ValidRun(s, evs[..j]) && Lost(Run(s, evs[..j]), 2)
    ensures 0 in Run(s, evs).users && Run(s, evs).users[0].passwordHash == Some("second")
  {
    hide ValidRun, Run;
    evs := BothGetReady(s);
    var t0 := Run(s, evs);
    FirstStores(t0);
    evs := Extend(s, evs, StorePassword(1));
    evs := Extend(s, evs, StoreVerified(1));
    FirstReturns(Run(s, evs));
    evs := Extend(s, evs, MarkUsed(1));
    evs := Extend(s, evs, Return(1));
    assert Return(1) in evs;
    evs, j := LoserWrites(s, evs);
  }

  lemma LoserWrites(s: State, before: seq<Event>) returns (evs: seq<Event>, j: nat)
    requires ValidRun(s, before) && Waiting(Run(s, before)) && Run(s, before).tokens[0].usedAt.Some?
    ensures ValidRun(s, evs) && before <= evs && j == |evs| - 1 && evs[j] == Abort(2)
    ensures ValidRun(s, evs[..j]) && Lost(Run(s, evs[..j]), 2)
    ensures 0 in Run(s, evs).users && Run(s, evs).users[0].passwordHash == Some("second")
  {
    hide ValidRun, Run;
    var upTo := Extend(s, before, StorePassword(2));
    evs := Extend(s, upTo, Abort(2));
    j := |upTo|;
    assert evs[..j] == upTo;
  }
}
