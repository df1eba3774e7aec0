/**
  Issuing and spending user tokens as a state machine: Register, CreateUser,
  ResendVerification and ForgotPassword commit in one step each; VerifyEmail,
  SetPassword and ResetPassword take one step per statement.
*/
module UserTokenProtocol {
  import opened Ids
  import opened Options
  import opened UserTokens

  /** What a spending call is about; VerifyEmail sets no password. */
  datatype Job = Job(token: Id, user: Id, kind: TokenType, password: Option<string>)

  datatype Call =
    | Found(job: Job)      // the token was valid when read
    | Ready(job: Job)      // the user row passed the checks
    | Wrote(job: Job)      // SetPassword stored the password, the e-mail flag is next
    | Stored(job: Job)     // the user row is written, MarkUsed is next
    | Marked(token: Id)    // MarkUsed succeeded, the audit entry is next

  datatype State = State(clock: Time, users: Users, tokens: Tokens, outbox: Outbox, calls: map<CallId, Call>)

  datatype Event =
    | Tick(now: Time)
    | EditUser(u: Id, user: User)                    // any other service changes a user row
    | Register(u: Id, user: User, raw: string, t: Id, e: Id)
    | CreateUser(u: Id, user: User, raw: string, t: Id, e: Id)
    | Resend(u: Id, kind: TokenType, raw: string, t: Id, e: Id)
    | Forgot(u: Id, raw: string, t: Id, e: Id)
    | Find(c: CallId, job: Job)
    | Check(c: CallId)
    | StorePassword(c: CallId)
    | StoreVerified(c: CallId)
    | MarkUsed(c: CallId)
    | Return(c: CallId)                              // the call reports success
    | Abort(c: CallId)                               // the call reports an error or crashes

  function Actor(e: Event): Option<CallId> {
    match e
    case Tick(_) => None
    case EditUser(_, _) => None
    case Register(_, _, _, _, _) => None
    case CreateUser(_, _, _, _, _) => None
    case Resend(_, _, _, _, _) => None
    case Forgot(_, _, _, _) => None
    case _ => Some(e.c)
  }

  predicate IssueReady(s: State, raw: string, t: Id, e: Id) {
    NewToken(s.tokens, t, raw) && e !in s.outbox
  }

  /** What `applyPasswordByToken` and VerifyEmail demand of the user row. */
  predicate Passes(user: User, job: Job) {
    && user.status != Deleted
    && (job.password.None? ==> user.status != Active)
    && (job.password.Some? && job.kind == PasswordSet ==> user.passwordHash.None? || user.passwordHash.value == "")
  }

  predicate Enabled(s: State, e: Event) {
    match e
    case Tick(now) => s.clock <= now
    case EditUser(u, _) => u in s.users
    case Register(u, _, raw, t, n) => u !in s.users && IssueReady(s, raw, t, n)
    case CreateUser(u, _, raw, t, n) => u !in s.users && IssueReady(s, raw, t, n)
    case Resend(u, _, raw, t, n) => u in s.users && IssueReady(s, raw, t, n)
    case Forgot(u, raw, t, n) => u in s.users && IssueReady(s, raw, t, n)
    case Find(c, job) =>
      c !in s.calls && Valid(s.tokens, job.token, s.clock)
      && s.tokens[job.token].kind == job.kind && s.tokens[job.token].userId == job.user
    case Check(c) =>
      c in s.calls && s.calls[c].Found? && Exists(s.users, s.calls[c].job.user)
      && Passes(s.users[s.calls[c].job.user], s.calls[c].job)
    case StorePassword(c) =>
      c in s.calls && s.calls[c].Ready? && s.calls[c].job.password.Some?
      && s.calls[c].job.kind != EmailVerification && Exists(s.users, s.calls[c].job.user)
    case StoreVerified(c) =>
      c in s.calls && (s.calls[c].Wrote? || (s.calls[c].Ready? && s.calls[c].job.password.None?))
      && Exists(s.users, s.calls[c].job.user)
    case MarkUsed(c) =>
      c in s.calls && s.calls[c].Stored? && s.calls[c].job.token in s.tokens
        && s.tokens[s.calls[c].job.token].usedAt.None?
    case Return(c) => c in s.calls && s.calls[c].Marked?
    case Abort(c) => c in s.calls
  }

  function At(s: State, c: CallId, k: Call): State {
    s.(calls := s.calls[c := k])
  }

  function Commit(s: State, d: Issued): State {
    s.(tokens := d.tokens, outbox := d.outbox)
  }

  function Next(s: State, e: Event): State
    requires Enabled(s, e)
  {
    match e
    case Tick(now) => s.(clock := now)
    case EditUser(u, user) => s.(users := s.users[u := user])
    case Register(u, user, raw, t, n) =>
      Commit(s, Issue(Issued(s.tokens, s.outbox), u, EmailVerification, EmailVerification, 24 * HOUR, raw, t, n,
                      s.clock))
        .(users := s.users[u := user])
    case CreateUser(u, user, raw, t, n) =>
      Commit(s, Issue(Issued(s.tokens, s.outbox), u, PasswordSet, PasswordSet, 24 * HOUR, raw, t, n, s.clock))
        .(users := s.users[u := user])
    case Resend(u, kind, raw, t, n) =>
      Commit(s, Issue(Issued(s.tokens, s.outbox), u, kind, EmailVerification, 24 * HOUR, raw, t, n, s.clock))
    case Forgot(u, raw, t, n) =>
      Commit(s, Issue(Issued(s.tokens, s.outbox), u, PasswordReset, PasswordReset, 1 * HOUR, raw, t, n, s.clock))
    case Find(c, job) => At(s, c, Found(job))
    case Check(c) => At(s, c, Ready(s.calls[c].job))
    case StorePassword(c) =>
      var job := s.calls[c].job;
      At(s.(users := s.users[job.user := s.users[job.user].(passwordHash := job.password)]), c,
         if job.kind == PasswordSet then Wrote(job) else Stored(job))
    case StoreVerified(c) =>
      var job := s.calls[c].job;
      At(s.(users := s.users[job.user := s.users[job.user].(emailVerified := true, status := Active)]), c, Stored(job))
    case MarkUsed(c) =>
      var t := s.calls[c].job.token;
      At(s.(tokens := s.tokens[t := s.tokens[t].(usedAt := Some(s.clock))]), c, Marked(t))
    case Return(c) => s.(calls := s.calls - {c})
    case Abort(c) => s.(calls := s.calls - {c})
  }

  // ----- Runs -----

  predicate Init(s: State) {
    s.users == map[] && s.tokens == map[] && s.outbox == map[] && s.calls == map[]
  }

  ghost predicate ValidRun(s: State, evs: seq<Event>)
    decreases |evs|
  {
    evs == [] || (Enabled(s, evs[0]) && ValidRun(Next(s, evs[0]), evs[1..]))
  }

  ghost function Run(s: State, evs: seq<Event>): State
    requires ValidRun(s, evs)
    decreases |evs|
  {
    if evs == [] then s else Run(Next(s, evs[0]), evs[1..])
  }

  lemma {:induction false} RunConcat(s: State, a: seq<Event>, b: seq<Event>)
    requires ValidRun(s, a) && ValidRun(Run(s, a), b)
    ensures ValidRun(s, a + b) && Run(s, a + b) == Run(Run(s, a), b)
    decreases |a|
  {
    if a == [] {
      assert a + b == b;
    } else {
      RunConcat(Next(s, a[0]), a[1..], b);
      assert (a + b)[0] == a[0] && (a + b)[1..] == a[1..] + b;
    }
  }

  /** One more step at the end of a run. */
  lemma Extend(s: State, evs: seq<Event>, e: Event) returns (evs': seq<Event>)
    requires ValidRun(s, evs) && Enabled(Run(s, evs), e)
    ensures evs' == evs + [e] && ValidRun(s, evs') && Run(s, evs') == Next(Run(s, evs), e)
  {
    evs' := evs + [e];
    var t := Run(s, evs);
    assert [e][1..] == [];
    assert ValidRun(Next(t, e), []) && Run(Next(t, e), []) == Next(t, e);
    assert ValidRun(t, [e]) && Run(t, [e]) == Next(t, e);
    RunConcat(s, evs, [e]);
  }

  // ----- The invariant -----

  /** A call past MarkUsed owns its token: the token is used, and no other call is past MarkUsed with it. */
  ghost predicate MarksSound(s: State) {
    && (forall c :: c in s.calls && s.calls[c].Marked? ==>
          s.calls[c].token in s.tokens && s.tokens[s.calls[c].token].usedAt.Some?)
    && (forall c, d ::
          && c in s.calls && d in s.calls && s.calls[c].Marked? && s.calls[d].Marked?
          && s.calls[c].token == s.calls[d].token
          ==> c == d)
  }

  ghost predicate Inv(s: State) {
    MarksSound(s) && OneToOne(Issued(s.tokens, s.outbox))
  }

  lemma InitInv(s: State)
    requires Init(s)
    ensures Inv(s)
  {
    assert TokenLabels(s.tokens) == {} && NoticeLabels(s.outbox) == {};
  }

  /** Token rows stay, and a used token stays used. */
  ghost predicate Grows(ts: Tokens, ts': Tokens) {
    forall t :: t in ts ==> t in ts' && (ts[t].usedAt.Some? ==> ts'[t].usedAt.Some?)
  }

  lemma StepGrows(s: State, e: Event)
    requires Enabled(s, e)
    ensures Grows(s.tokens, Next(s, e).tokens)
  {
  }

  lemma MarkedBefore(s: State, e: Event, c: CallId)
    requires Enabled(s, e) && c in Next(s, e).calls && Next(s, e).calls[c].Marked?
    ensures || (c in s.calls && s.calls[c] == Next(s, e).calls[c])
            || (e == MarkUsed(c) && s.tokens[Next(s, e).calls[c].token].usedAt.None?)
  {
  }

  lemma MarksStep(s: State, e: Event)
    requires MarksSound(s) && Enabled(s, e)
    ensures MarksSound(Next(s, e))
  {
    var s' := Next(s, e);
    StepGrows(s, e);
    forall c | c in s'.calls && s'.calls[c].Marked?
      ensures s'.calls[c].token in s'.tokens && s'.tokens[s'.calls[c].token].usedAt.Some?
    {
      MarkedBefore(s, e, c);
    }
    forall c, d | c in s'.calls && d in s'.calls && s'.calls[c].Marked? && s'.calls[d].Marked?
                  && s'.calls[c].token == s'.calls[d].token
      ensures c == d
    {
      MarkedBefore(s, e, c);
      MarkedBefore(s, e, d);
    }
  }

  predicate Issues(e: Event) {
    e.Register? || e.CreateUser? || e.Resend? || e.Forgot?
  }

  lemma TokensKept(s: State, e: Event)
    requires Enabled(s, e) && !Issues(e)
    ensures SameTokens(s.tokens, Next(s, e).tokens) && Next(s, e).outbox == s.outbox
  {
  }

  lemma OneToOneStep(s: State, e: Event)
    requires OneToOne(Issued(s.tokens, s.outbox)) && Enabled(s, e)
    ensures OneToOne(Issued(Next(s, e).tokens, Next(s, e).outbox))
  {
    hide OneToOne;
    var db := Issued(s.tokens, s.outbox);
    match e
    case Register(u, _, raw, t, n) =>
      IssueKeepsOneToOne(db, u, EmailVerification, EmailVerification, 24 * HOUR, raw, t, n, s.clock);
    case CreateUser(u, _, raw, t, n) =>
      IssueKeepsOneToOne(db, u, PasswordSet, PasswordSet, 24 * HOUR, raw, t, n, s.clock);
    case Resend(u, kind, raw, t, n) =>
      IssueKeepsOneToOne(db, u, kind, EmailVerification, 24 * HOUR, raw, t, n, s.clock);
    case Forgot(u, raw, t, n) => IssueKeepsOneToOne(db, u, PasswordReset, PasswordReset, 1 * HOUR, raw, t, n, s.clock);
    case _ =>
      TokensKept(s, e);
      OneToOneKept(db, Next(s, e).tokens);
  }

  lemma InvStep(s: State, e: Event)
    requires Inv(s) && Enabled(s, e)
    ensures Inv(Next(s, e))
  {
    MarksStep(s, e);
    OneToOneStep(s, e);
  }

  lemma {:induction false} InvRun(s: State, evs: seq<Event>)
    requires Inv(s) && ValidRun(s, evs)
    ensures Inv(Run(s, evs))
    decreases |evs|
  {
    if evs != [] {
      InvStep(s, evs[0]);
      InvRun(Next(s, evs[0]), evs[1..]);
    }
  }

  // ----- Theorems -----

  /** In every reachable state the tokens and the notifications correspond one to one. */
  lemma ReachableOneToOne(s: State, evs: seq<Event>)
    requires Init(s) && ValidRun(s, evs)
    ensures OneToOne(Issued(Run(s, evs).tokens, Run(s, evs).outbox))
  {
    InitInv(s);
    InvRun(s, evs);
  }

  /** The token is used up and no call can still report success for it. */
  ghost predicate Spent(s: State, t: Id) {
    t in s.tokens && s.tokens[t].usedAt.Some? && forall c :: c in s.calls ==> s.calls[c] != Marked(t)
  }

  lemma SpentStep(s: State, e: Event, t: Id)
    requires Spent(s, t) && Enabled(s, e)
    ensures Spent(Next(s, e), t)
  {
    StepGrows(s, e);
    forall c | c in Next(s, e).calls
      ensures Next(s, e).calls[c] != Marked(t)
    {
      if Next(s, e).calls[c] == Marked(t) {
        MarkedBefore(s, e, c);
        assert false;
      }
    }
  }

  /** Once a call has reported success for a token, no later call does. */
  lemma {:induction false} NeverAgain(s: State, evs: seq<Event>, t: Id, i: nat)
    requires Spent(s, t) && ValidRun(s, evs) && i < |evs| && evs[i].Return?
    ensures ValidRun(s, evs[..i]) && Enabled(Run(s, evs[..i]), evs[i])
    ensures Run(s, evs[..i]).calls[evs[i].c] != Marked(t)
    decreases i
  {
    if i == 0 {
      assert evs[..0] == [];
    } else {
      var s1, p := Next(s, evs[0]), evs[..i];
      SpentStep(s, evs[0], t);
      NeverAgain(s1, evs[1..], t, i - 1);
      assert p[0] == evs[0] && p[1..] == evs[1..][..i - 1];
      assert ValidRun(s, p) && Run(s, p) == Run(s1, p[1..]);
    }
  }

  /**
    Over any interleaving at most one call reports success for a token: after
    the first such return, every later return is for another token.
  */
  lemma SpentAtMostOnce(s: State, c: CallId, later: seq<Event>, j: nat)
    requires Inv(s) && Enabled(s, Return(c)) && ValidRun(Next(s, Return(c)), later) && j < |later| && later[j].Return?
    ensures var s1 := Next(s, Return(c));
      && ValidRun(s1, later[..j]) && Enabled(Run(s1, later[..j]), later[j])
      && Run(s1, later[..j]).calls[later[j].c].token != s.calls[c].token
  {
    var t := s.calls[c].token;
    var s1 := Next(s, Return(c));
    assert Spent(s1, t) by {
      forall d | d in s1.calls
        ensures s1.calls[d] != Marked(t)
      {
        assert d in s.calls && d != c;
      }
    }
    NeverAgain(s1, later, t, j);
  }

  /** The gRPC handler resends with the e-mail verification type. */
  ghost predicate ResendsOwnType(e: Event) {
    e.Resend? ==> e.kind == EmailVerification
  }

  lemma OneValidStep(s: State, e: Event)
    requires OneValid(s.tokens, s.clock) && Enabled(s, e) && ResendsOwnType(e)
    ensures OneValid(Next(s, e).tokens, Next(s, e).clock)
  {
    var db := Issued(s.tokens, s.outbox);
    match e
    case Register(u, _, raw, t, n) =>
      IssueKeepsOneValid(db, u, EmailVerification, EmailVerification, 24 * HOUR, raw, t, n, s.clock);
    case CreateUser(u, _, raw, t, n) =>
      IssueKeepsOneValid(db, u, PasswordSet, PasswordSet, 24 * HOUR, raw, t, n, s.clock);
    case Resend(u, kind, raw, t, n) =>
      IssueKeepsOneValid(db, u, kind, EmailVerification, 24 * HOUR, raw, t, n, s.clock);
    case Forgot(u, raw, t, n) => IssueKeepsOneValid(db, u, PasswordReset, PasswordReset, 1 * HOUR, raw, t, n, s.clock);
    case _ =>
      var s' := Next(s, e);
      forall t | Valid(s'.tokens, t, s'.clock)
        ensures Valid(s.tokens, t, s.clock) && s'.tokens[t].userId == s.tokens[t].userId
                && s'.tokens[t].kind == s.tokens[t].kind
      {
        TokensKept(s, e);
      }
  }

  /** At all times a user has at most one valid token of each type. */
  lemma {:induction false} OneValidAlways(s: State, evs: seq<Event>)
    requires OneValid(s.tokens, s.clock) && ValidRun(s, evs) && forall e :: e in evs ==> ResendsOwnType(e)
    ensures OneValid(Run(s, evs).tokens, Run(s, evs).clock)
    decreases |evs|
  {
    if evs != [] {
      assert ResendsOwnType(evs[0]);
      OneValidStep(s, evs[0]);
      OneValidAlways(Next(s, evs[0]), evs[1..]);
    }
  }

  /** Resending with another type than its own leaves two valid tokens, from any initial state. */
  lemma ResendExample(s: State) returns (evs: seq<Event>)
    requires Init(s)
    ensures evs == [Register(0, User("a", Pending, None, false, false), "a", 0, 0), Resend(0, PasswordReset, "b", 1, 1)]
    ensures ValidRun(s, evs) && !OneValid(Run(s, evs).tokens, Run(s, evs).clock)
  {
    evs := Extend(s, [], Register(0, User("a", Pending, None, false, false), "a", 0, 0));
    var t := Run(s, evs);
    assert t.tokens[0] == Token(0, EmailVerification, Digest("a"), s.clock + 24 * HOUR, None, None);
    assert Digest("a") != Digest("b") by {
      assert "a"[0] != "b"[0];
    }
    evs := Extend(s, evs, Resend(0, PasswordReset, "b", 1, 1));
    var t' := Run(s, evs);
    assert Valid(t'.tokens, 0, t'.clock) && Valid(t'.tokens, 1, t'.clock);
  }
}
