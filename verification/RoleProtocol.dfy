/**
  Roles, their permissions and the users that refer to them, with deletion and
  reassignment running beside every other writer of these tables.  The foreign
  key on users restricts deletion; the one on role permissions cascades.
*/
module RoleProtocol {
  import opened Options

  type Id = nat
  type CallId = nat

  datatype Role = Role(code: string, isSystem: bool)

  /** A user row, reduced to its role and whether it is soft-deleted. */
  datatype User = User(roleId: Id, softDeleted: bool)

  type Roles = map<Id, Role>
  type Users = map<Id, User>
  type Permissions = set<(Id, Id)>

  /** A DeleteRole call: the role it read, and after the usage check the green light. */
  datatype Call =
    | RoleRead(role: Id, replacement: Option<Id>)
    | UsageRead(role: Id, replacement: Option<Id>)

  datatype State = State(roles: Roles, perms: Permissions, users: Users, calls: map<CallId, Call>)

  datatype Event =
    | CreateRole(r: Id, code: string)
    | Assign(r: Id, p: Id)
    | Remove(r: Id, p: Id)
    | AddUser(u: Id, r: Id)
    | SetRole(u: Id, r: Id)
    | SetDeleted(u: Id, deleted: bool)
    | DeleteRead(c: CallId, r: Id, replacement: Option<Id>)
    | DeleteUsage(c: CallId)
    | DeleteCommit(c: CallId)
    | Abort(c: CallId)

  /** Some user row refers to the role, soft-deleted rows included. */
  predicate Used(users: Users, r: Id) {
    exists u | u in users :: users[u].roleId == r
  }

  predicate Custom(roles: Roles, r: Id) {
    r in roles && !roles[r].isSystem
  }

  predicate HasCode(roles: Roles, code: string) {
    exists r | r in roles :: roles[r].code == code
  }

  function MoveUsers(users: Users, from: Id, to: Id): Users {
    map u | u in users :: if users[u].roleId == from then users[u].(roleId := to) else users[u]
  }

  datatype Tables = Tables(roles: Roles, perms: Permissions, users: Users)

  /** DELETE on the role row: restricted by users, cascading to its permissions. */
  function DeleteRow(db: Tables, r: Id): Option<Tables> {
    if r in db.roles && Used(db.users, r) then None
    else Some(Tables(db.roles - {r}, if r in db.roles then set q | q in db.perms && q.0 != r else db.perms, db.users))
  }

  /** The DeleteRole transaction; `None` is a rollback. */
  function DeleteTx(db: Tables, r: Id, replacement: Option<Id>): Option<Tables> {
    match replacement
    case None => DeleteRow(db, r)
    case Some(to) =>
      if to == r || to !in db.roles || !Used(db.users, r) then None
      else DeleteRow(db.(users := MoveUsers(db.users, r, to)), r)
  }

  function Db(s: State): Tables {
    Tables(s.roles, s.perms, s.users)
  }

  predicate Enabled(s: State, e: Event) {
    match e
    case CreateRole(r, code) => r !in s.roles && forall x :: x in s.roles ==> s.roles[x].code != code
    case Assign(r, _) => Custom(s.roles, r)
    case Remove(r, _) => Custom(s.roles, r)
    case AddUser(u, r) => u !in s.users && r in s.roles
    case SetRole(u, r) => u in s.users && !s.users[u].softDeleted && r in s.roles
    case SetDeleted(u, _) => u in s.users
    case DeleteRead(c, r, _) => c !in s.calls && Custom(s.roles, r)
    case DeleteUsage(c) =>
      c in s.calls && s.calls[c].RoleRead? && (Used(s.users, s.calls[c].role) ==> s.calls[c].replacement.Some?)
    case DeleteCommit(c) =>
      c in s.calls && s.calls[c].UsageRead? && DeleteTx(Db(s), s.calls[c].role, s.calls[c].replacement).Some?
    case Abort(c) => c in s.calls
  }

  function Next(s: State, e: Event): State
    requires Enabled(s, e)
  {
    match e
    case CreateRole(r, code) => s.(roles := s.roles[r := Role(code, false)])
    case Assign(r, p) => s.(perms := s.perms + {(r, p)})
    case Remove(r, p) => s.(perms := s.perms - {(r, p)})
    case AddUser(u, r) => s.(users := s.users[u := User(r, false)])
    case SetRole(u, r) => s.(users := s.users[u := s.users[u].(roleId := r)])
    case SetDeleted(u, d) => s.(users := s.users[u := s.users[u].(softDeleted := d)])
    case DeleteRead(c, r, to) => s.(calls := s.calls[c := RoleRead(r, to)])
    case DeleteUsage(c) => s.(calls := s.calls[c := UsageRead(s.calls[c].role, s.calls[c].replacement)])
    case DeleteCommit(c) =>
      var d := DeleteTx(Db(s), s.calls[c].role, s.calls[c].replacement).value;
      State(d.roles, d.perms, d.users, s.calls - {c})
    case Abort(c) => s.(calls := s.calls - {c})
  }

  ghost predicate ValidRun(s: State, evs: seq<Event>)
    decreases |evs|
  {
    evs == [] || (Enabled(s, evs[0]) && ValidRun(Next(s, evs[0]), evs[1..]))
  }

  ghost function Run(s: State, evs: seq<Event>): State
    requires ValidRun(s, evs)
    decreases |evs|
  {
    if evs == [] then s else Run(Next(s, evs[0]), evs[1..])
  }

  lemma {:induction false} RunConcat(s: State, a: seq<Event>, b: seq<Event>)
    requires ValidRun(s, a) && ValidRun(Run(s, a), b)
    ensures ValidRun(s, a + b) && Run(s, a + b) == Run(Run(s, a), b)
    decreases |a|
  {
    if a == [] {
      assert a + b == b;
    } else {
      RunConcat(Next(s, a[0]), a[1..], b);
      assert (a + b)[0] == a[0] && (a + b)[1..] == a[1..] + b;
    }
  }

  /** One more step at the end of a run. */
  lemma Extend(s: State, evs: seq<Event>, e: Event) returns (evs': seq<Event>)
    requires ValidRun(s, evs) && Enabled(Run(s, evs), e)
    ensures evs' == evs + [e] && ValidRun(s, evs') && Run(s, evs') == Next(Run(s, evs), e)
  {
    evs' := evs + [e];
    var t := Run(s, evs);
    assert [e][1..] == [];
    assert ValidRun(Next(t, e), []) && Run(Next(t, e), []) == Next(t, e);
    assert ValidRun(t, [e]) && Run(t, [e]) == Next(t, e);
    RunConcat(s, evs, [e]);
  }

  // ----- The invariant -----

  ghost predicate RefsHold(s: State) {
    && (forall u :: u in s.users ==> s.users[u].roleId in s.roles)
    && (forall q :: q in s.perms ==> q.0 in s.roles)
  }

  /** A deletion in flight is about a role that is not a system role, if it is still there. */
  ghost predicate CallsSound(s: State) {
    forall c :: c in s.calls && s.calls[c].role in s.roles ==> !s.roles[s.calls[c].role].isSystem
  }

  ghost predicate Inv(s: State) {
    RefsHold(s) && CallsSound(s)
  }

  lemma InvStep(s: State, e: Event)
    requires Inv(s) && Enabled(s, e)
    ensures Inv(Next(s, e))
  {
  }

  /** Every user, soft-deleted ones included, refers to an existing role in every later state. */
  lemma {:induction false} RefsHoldAlways(s: State, evs: seq<Event>)
    requires Inv(s) && ValidRun(s, evs)
    ensures Inv(Run(s, evs))
    ensures forall u :: u in Run(s, evs).users ==> Run(s, evs).users[u].roleId in Run(s, evs).roles
    decreases |evs|
  {
    if evs != [] {
      InvStep(s, evs[0]);
      RefsHoldAlways(Next(s, evs[0]), evs[1..]);
    }
  }

  /**
    The transaction commits exactly when the role is unused and no replacement is
    named, or a different existing replacement is named and the role is used: a
    replacement for an unused role fails on zero updated rows.
  */
  lemma DeleteCommitsIff(db: Tables, r: Id, replacement: Option<Id>)
    requires forall u :: u in db.users ==> db.users[u].roleId in db.roles
    ensures DeleteTx(db, r, replacement).Some? <==>
      match replacement
      case None => !Used(db.users, r)
      case Some(to) => to != r && to in db.roles && Used(db.users, r)
  {
    if replacement.Some? && replacement.value != r {
      assert !Used(MoveUsers(db.users, r, replacement.value), r);
    }
  }

  /** A committed deletion moves exactly the users of the role and drops exactly the role and its permissions. */
  lemma DeleteMovesExactly(db: Tables, r: Id, replacement: Option<Id>)
    requires DeleteTx(db, r, replacement).Some?
    requires forall q :: q in db.perms ==> q.0 in db.roles
    ensures var d := DeleteTx(db, r, replacement).value;
      && d.roles == db.roles - {r}
      && d.users.Keys == db.users.Keys
      && (forall u :: u in db.users ==>
            d.users[u] == if db.users[u].roleId == r && replacement.Some? then db.users[u].(roleId := replacement.value)
                          else db.users[u])
      && (forall q :: q in d.perms <==> q in db.perms && q.0 != r)
      && (r in db.roles ==> !Used(d.users, r))
  {
  }

  /** Assigning adds just this permission, and may find it there already. */
  lemma AssignEffect(s: State, r: Id, p: Id)
    requires Enabled(s, Assign(r, p))
    ensures var s' := Next(s, Assign(r, p));
      && (r, p) in s'.perms && (forall q :: q != (r, p) ==> (q in s'.perms <==> q in s.perms))
      && s'.roles == s.roles && s'.users == s.users
  {
  }

  /** Removing takes away just this permission, and need not find it. */
  lemma RemoveEffect(s: State, r: Id, p: Id)
    requires Enabled(s, Remove(r, p))
    ensures var s' := Next(s, Remove(r, p));
      && (r, p) !in s'.perms && (forall q :: q != (r, p) ==> (q in s'.perms <==> q in s.perms))
      && s'.roles == s.roles && s'.users == s.users
  {
  }

  ghost function PermsOf(perms: Permissions, r: Id): set<Id> {
    set q | q in perms && q.0 == r :: q.1
  }

  lemma SystemStep(s: State, e: Event, r: Id)
    requires Inv(s) && Enabled(s, e) && r in s.roles && s.roles[r].isSystem
    ensures r in Next(s, e).roles && Next(s, e).roles[r] == s.roles[r]
    ensures PermsOf(Next(s, e).perms, r) == PermsOf(s.perms, r)
  {
    var s' := Next(s, e);
    assert forall p :: (r, p) in s'.perms <==> (r, p) in s.perms;
    forall p
      ensures p in PermsOf(s'.perms, r) <==> p in PermsOf(s.perms, r)
    {
      if p in PermsOf(s.perms, r) { assert (r, p) in s'.perms; }
      if p in PermsOf(s'.perms, r) { assert (r, p) in s.perms; }
    }
  }

  /** System roles and their permission sets never change, whatever deletions are in flight. */
  lemma {:induction false} SystemRolesAreFixed(s: State, evs: seq<Event>, r: Id)
    requires Inv(s) && ValidRun(s, evs) && r in s.roles && s.roles[r].isSystem
    ensures r in Run(s, evs).roles && Run(s, evs).roles[r] == s.roles[r]
    ensures PermsOf(Run(s, evs).perms, r) == PermsOf(s.perms, r)
    decreases |evs|
  {
    if evs != [] {
      SystemStep(s, evs[0], r);
      InvStep(s, evs[0]);
      SystemRolesAreFixed(Next(s, evs[0]), evs[1..], r);
    }
  }
}
