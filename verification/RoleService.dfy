/** The role service in the form of the source: ordered statements in a transaction, each of which may fail. */
module RoleService {
  import opened Ids
  import opened Options
  import opened RoleProtocol

  // ----- Reachability -----

  ghost predicate Reaches(s: State, s': State) {
    exists evs :: ValidRun(s, evs) && Run(s, evs) == s'
  }

  /** A run in which deletion `me` takes no step. */
  ghost predicate OthersReach(me: CallId, s: State, s': State) {
    exists evs :: ValidRun(s, evs) && (forall e :: e in evs ==> ByOther(me, e)) && Run(s, evs) == s'
  }

  predicate ByOther(me: CallId, e: Event) {
    (e.DeleteRead? || e.DeleteUsage? || e.DeleteCommit? || e.Abort?) ==> e.c != me
  }

  lemma ReachesSelf(s: State)
    ensures Reaches(s, s)
  {
    assert ValidRun(s, []) && Run(s, []) == s;
  }

  lemma ReachesStep(s0: State, s: State, e: Event)
    requires Reaches(s0, s) && Enabled(s, e)
    ensures Reaches(s0, Next(s, e))
  {
    var evs :| ValidRun(s0, evs) && Run(s0, evs) == s;
    var evs' := Extend(s0, evs, e);
  }

  lemma ReachesTransitive(a: State, b: State, c: State)
    requires Reaches(a, b) && Reaches(b, c)
    ensures Reaches(a, c)
  {
    var p :| ValidRun(a, p) && Run(a, p) == b;
    var q :| ValidRun(b, q) && Run(b, q) == c;
    RunConcat(a, p, q);
  }

  lemma {:induction false} OthersKeep(me: CallId, s: State, evs: seq<Event>)
    requires Inv(s) && ValidRun(s, evs) && forall e :: e in evs ==> ByOther(me, e)
    ensures me in s.calls <==> me in Run(s, evs).calls
    ensures me in s.calls ==> Run(s, evs).calls[me] == s.calls[me]
    ensures Inv(Run(s, evs))
    decreases |evs|
  {
    if evs != [] {
      assert ByOther(me, evs[0]);
      InvStep(s, evs[0]);
      OthersKeep(me, Next(s, evs[0]), evs[1..]);
    }
  }

  lemma OthersFacts(me: CallId, s: State, s': State)
    requires Inv(s) && OthersReach(me, s, s')
    ensures Inv(s') && Reaches(s, s')
    ensures me in s.calls <==> me in s'.calls
    ensures me in s.calls ==> s'.calls[me] == s.calls[me]
  {
    var evs :| ValidRun(s, evs) && (forall e :: e in evs ==> ByOther(me, e)) && Run(s, evs) == s';
    OthersKeep(me, s, evs);
  }

  datatype Failure =
    | InvalidInput | RoleNotFound | RoleCodeExists | SystemRole | RoleInUse | InvalidReplacement | PermissionNotFound
    | Internal

  class Store {
    var roles: Roles
    var perms: Permissions
    var users: Users
    ghost var calls: map<CallId, Call>
    ghost var faults: nat  // failures met by the calls made through this object
    const permissions: set<Id>

    ghost function St(): State
      reads this
    {
      State(roles, perms, users, calls)
    }

    constructor (seeded: Roles, granted: Permissions, permissions: set<Id>)
      requires forall q :: q in granted ==> q.0 in seeded
      ensures roles == seeded && perms == granted && users == map[] && calls == map[] && Inv(St())
      ensures this.permissions == permissions
    {
      roles, perms, users, calls, faults := seeded, granted, map[], map[], 0;
      this.permissions := permissions;
    }

    /** Any run of the other writers; the caller sees only this contract. */
    method Interfere(ghost me: CallId)
      requires Inv(St())
      modifies this
      ensures OthersReach(me, old(St()), St()) && faults == old(faults)
    {
      assert ValidRun(St(), []) && Run(St(), []) == St();
    }

    method Yield(ghost me: CallId, ghost s0: State)
      requires Inv(St()) && Reaches(s0, St())
      modifies this
      ensures Inv(St()) && Reaches(s0, St()) && faults == old(faults)
      ensures me in old(calls) <==> me in calls
      ensures me in old(calls) ==> calls[me] == old(calls)[me]
    {
      Interfere(me);
      OthersFacts(me, old(St()), St());
      ReachesTransitive(s0, old(St()), St());
    }

    /** Accounts for an atomic step that took `before` to the current tables. */
    ghost method Took(s0: State, before: State, e: Event)
      requires Inv(before) && Reaches(s0, before) && Enabled(before, e)
      requires St() == Next(before, e).(calls := before.calls)
      modifies this`calls
      ensures St() == Next(before, e) && Inv(St()) && Reaches(s0, St())
    {
      calls := Next(before, e).calls;
      InvStep(before, e);
      ReachesStep(s0, before, e);
    }

    // ----- Repositories -----

    /** Whether a call fails; every failure is counted. */
    method Fails() returns (fault: bool)
      modifies this`faults
      ensures faults == if fault then old(faults) + 1 else old(faults)
    {
      fault := *;
      if fault { faults := faults + 1; }
    }

    method FindByID(r: Id) returns (found: Result<Role>)
      modifies this`faults
      ensures faults >= old(faults) && (found.Ok? ==> faults == old(faults))
      ensures found.Ok? ==> r in roles && found.value == roles[r]
      ensures found.Err? && faults == old(faults) ==> found == Err(NotFound)
      ensures found == Err(NotFound) ==> r !in roles
    {
      var fault := Fails();
      if fault { return Err(Fault); }
      found := if r in roles then Ok(roles[r]) else Err(NotFound);
    }

    method FindByCode(code: string) returns (found: Result<bool>)
      modifies this`faults
      ensures if found.Ok? then faults == old(faults) else faults > old(faults)
      ensures found.Ok? ==> (found.value <==> HasCode(roles, code))
    {
      var fault := Fails();
      if fault { return Err(Fault); }
      if r :| r in roles && roles[r].code == code {
        found := Ok(true);
      } else {
        found := Ok(false);
      }
    }

    /** The unique index on codes refuses a second role with the same one. */
    method CreateRoleRow(code: string) returns (err: Option<Error>, r: Id)
      modifies this`roles, this`faults
      ensures faults >= old(faults) && (err.None? ==> faults == old(faults))
      ensures err.None? ==>
                r !in old(roles) && !HasCode(old(roles), code) && roles == old(roles)[r := Role(code, false)]
      ensures err.Some? ==> roles == old(roles)
      ensures err.Some? && faults == old(faults) ==> HasCode(roles, code)
    {
      UnusedId(roles.Keys);
      r :| r !in roles;
      var fault := Fails();
      if fault || HasCode(roles, code) { return Some(Fault), r; }
      roles := roles[r := Role(code, false)];
      err := None;
    }

    method FindPermission(p: Id) returns (found: Result<bool>)
      modifies this`faults
      ensures if found.Ok? then faults == old(faults) else faults > old(faults)
      ensures found.Ok? ==> (found.value <==> p in permissions)
    {
      var fault := Fails();
      if fault { return Err(Fault); }
      found := Ok(p in permissions);
    }

    /** First or create: a permission that is there already stays. */
    method AssignPermissionRow(r: Id, p: Id) returns (err: Option<Error>)
      modifies this`perms, this`faults
      ensures if err.None? then faults == old(faults) else faults > old(faults)
      ensures err.None? ==> (r, p) in perms && forall q :: q != (r, p) ==> (q in perms <==> q in old(perms))
      ensures err.Some? ==> perms == old(perms)
    {
      var fault := Fails();
      if fault { return Some(Fault); }
      if (r, p) !in perms {
        perms := perms + {(r, p)};
      }
      err := None;
    }

    method RemovePermissionRow(r: Id, p: Id) returns (err: Option<Error>)
      modifies this`perms, this`faults
      ensures if err.None? then faults == old(faults) else faults > old(faults)
      ensures err.None? ==> (r, p) !in perms && forall q :: q != (r, p) ==> (q in perms <==> q in old(perms))
      ensures err.Some? ==> perms == old(perms)
    {
      var fault := Fails();
      if fault { return Some(Fault); }
      perms := perms - {(r, p)};
      err := None;
    }

    /** A yes means that the database would refuse to delete the role now, a no that it would not. */
    method ExistsByRoleIDUnscoped(r: Id) returns (found: Result<bool>)
      modifies this`faults
      ensures if found.Ok? then faults == old(faults) else faults > old(faults)
      ensures found.Ok? && r in roles ==> (found.value <==> DeleteRow(Tables(roles, perms, users), r).None?)
      ensures found.Ok? ==> (found.value <==> exists u :: u in users && users[u].roleId == r)
    {
      var fault := Fails();
      if fault { return Err(Fault); }
      if u :| u in users && users[u].roleId == r {
        found := Ok(true);
      } else {
        found := Ok(false);
      }
    }

    /** The foreign key refuses to move users to a role that does not exist. */
    method UpdateRoleByRoleIDUnscoped(from: Id, to: Id) returns (err: Option<Error>)
      modifies this`users, this`faults
      ensures faults >= old(faults) && (err.None? ==> faults == old(faults))
      ensures err.None? ==> to in roles && Used(old(users), from) && users == MoveUsers(old(users), from, to)
      ensures err.Some? ==> users == old(users)
      ensures err.Some? && faults == old(faults) ==> !Used(old(users), from) || to !in roles
      ensures err == Some(NotFound) ==> !Used(old(users), from)
    {
      var fault := Fails();
      if fault { return Some(Fault); }
      if !Used(users, from) { return Some(NotFound); }
      if to !in roles { return Some(Fault); }
      users := MoveUsers(users, from, to);
      err := None;
    }

    /** The database refuses while users refer to the role and drops its permission rows with it. */
    method DeleteRoleRow(r: Id) returns (err: Option<Error>)
      modifies this`roles, this`perms, this`faults
      ensures faults >= old(faults) && (err.None? ==> faults == old(faults))
      ensures err.None? ==> DeleteRow(Tables(old(roles), old(perms), users), r) == Some(Tables(roles, perms, users))
      ensures err.Some? ==> roles == old(roles) && perms == old(perms)
      ensures err.Some? && faults == old(faults) ==> r in roles && Used(users, r)
    {
      var fault := Fails();
      if fault || (r in roles && Used(users, r)) { return Some(Fault); }
      perms := if r in roles then set q | q in perms && q.0 != r else perms;
      roles := roles - {r};
      err := None;
    }

    method LogAudit() returns (err: Option<Error>)
      modifies this`faults
      ensures if err.None? then faults == old(faults) else faults > old(faults)
    {
      var fault := Fails();
      err := if fault then Some(Fault) else None;
    }
  }

  class Service {
    const db: Store

    constructor (db: Store)
      ensures this.db == db
    {
      this.db := db;
    }

    /** The code is looked up before the transaction; the unique index decides in it. */
    method CreateRole(code: string, name: string, ghost me: CallId)
      returns (err: Option<Failure>, r: Id, ghost mid: State)
      requires Inv(db.St())
      modifies db
      ensures Inv(db.St()) && Reaches(old(db.St()), mid)
      ensures err.None? ==>
                && code != "" && name != "" && Enabled(mid, RoleProtocol.CreateRole(r, code))
                && db.St() == Next(mid, RoleProtocol.CreateRole(r, code))
      ensures err.Some? ==> db.St() == mid
      ensures db.faults >= old(db.faults)
      ensures err.Some? && db.faults == old(db.faults) ==> code == "" || name == "" || HasCode(mid.roles, code)
    {
      ghost var s0 := db.St();
      ReachesSelf(s0);
      mid, r := s0, 0;
      if code == "" || name == "" { err := Some(InvalidInput); return; }
      db.Yield(me, s0);
      mid := db.St();
      var existing := db.FindByCode(code);
      if existing.Err? { err := Some(Internal); return; }
      if existing.value { err := Some(RoleCodeExists); return; }

      db.Yield(me, s0);
      mid := db.St();
      var begun := db.roles;
      var created;
      created, r := db.CreateRoleRow(code);
      if created.Some? { err := Some(Internal); return; }
      var logged := db.LogAudit();
      if logged.Some? {
        db.roles := begun;
        err := Some(Internal);
        return;
      }
      InvStep(mid, RoleProtocol.CreateRole(r, code));
      err := None;
    }

    method AssignPermission(r: Id, p: Id) returns (err: Option<Failure>)
      requires Inv(db.St())
      modifies db
      ensures Inv(db.St())
      ensures err.None? ==>
                && p in db.permissions && Custom(old(db.roles), r) && (r, p) in db.perms
                && db.St() == Next(old(db.St()), Assign(r, p))
      ensures forall q :: q != (r, p) ==> (q in db.perms <==> q in old(db.perms))
      ensures err.Some? ==> db.St() == old(db.St())
      ensures db.faults >= old(db.faults)
      ensures err.Some? && db.faults == old(db.faults) ==> !Custom(old(db.roles), r) || p !in db.permissions
    {
      var role := db.FindByID(r);
      if role.Err? { return Some(if role.error == NotFound then RoleNotFound else Internal); }
      var permission := db.FindPermission(p);
      if permission.Err? { return Some(Internal); }
      if !permission.value { return Some(PermissionNotFound); }
      if role.value.isSystem { return Some(SystemRole); }
      ghost var before := db.St();
      var begun := db.perms;
      var failed := db.AssignPermissionRow(r, p);
      if failed.Some? { return Some(Internal); }
      var logged := db.LogAudit();
      if logged.Some? {
        db.perms := begun;
        return Some(Internal);
      }
      AssignEffect(before, r, p);
      assert db.perms == Next(before, Assign(r, p)).perms;
      err := None;
    }

    method RemovePermission(r: Id, p: Id) returns (err: Option<Failure>)
      requires Inv(db.St())
      modifies db
      ensures Inv(db.St())
      ensures err.None? ==>
                && p in db.permissions && Custom(old(db.roles), r) && (r, p) !in db.perms
                && db.St() == Next(old(db.St()), Remove(r, p))
      ensures forall q :: q != (r, p) ==> (q in db.perms <==> q in old(db.perms))
      ensures err.Some? ==> db.St() == old(db.St())
      ensures db.faults >= old(db.faults)
      ensures err.Some? && db.faults == old(db.faults) ==> !Custom(old(db.roles), r) || p !in db.permissions
    {
      var role := db.FindByID(r);
      if role.Err? { return Some(if role.error == NotFound then RoleNotFound else Internal); }
      var permission := db.FindPermission(p);
      if permission.Err? { return Some(Internal); }
      if !permission.value { return Some(PermissionNotFound); }
      if role.value.isSystem { return Some(SystemRole); }
      ghost var before := db.St();
      var begun := db.perms;
      var failed := db.RemovePermissionRow(r, p);
      if failed.Some? { return Some(Internal); }
      var logged := db.LogAudit();
      if logged.Some? {
        db.perms := begun;
        return Some(Internal);
      }
      RemoveEffect(before, r, p);
      assert db.perms == Next(before, Remove(r, p)).perms;
      err := None;
    }

    /** Reassign the users, delete the role, audit: all of it or none of it. */
    method DeleteInTx(r: Id, replacement: Option<Id>) returns (err: Option<Failure>)
      modifies db`roles, db`perms, db`users, db`faults
      ensures err.None? ==> DeleteTx(Tables(old(db.roles), old(db.perms), old(db.users)), r, replacement)
                            == Some(Tables(db.roles, db.perms, db.users))
      ensures err.Some? ==> db.roles == old(db.roles) && db.perms == old(db.perms) && db.users == old(db.users)
      ensures err == Some(InvalidReplacement) ==>
                replacement.Some? && (replacement.value == r || replacement.value !in db.roles)
      ensures db.faults >= old(db.faults)
      ensures err.Some? && db.faults == old(db.faults) ==>
                DeleteTx(Tables(old(db.roles), old(db.perms), old(db.users)), r, replacement).None?
    {
      var begun := Tables(db.roles, db.perms, db.users);
      if replacement.Some? {
        if replacement.value == r { return Some(InvalidReplacement); }
        var found := db.FindByID(replacement.value);
        if found.Err? { return Some(if found.error == NotFound then InvalidReplacement else Internal); }
        var moved := db.UpdateRoleByRoleIDUnscoped(r, replacement.value);
        if moved.Some? { return Some(Internal); }
      }
      var deleted := db.DeleteRoleRow(r);
      if deleted.Some? {
        db.users := begun.users;
        return Some(Internal);
      }
      var logged := db.LogAudit();
      if logged.Some? {
        db.roles, db.perms, db.users := begun.roles, begun.perms, begun.users;
        return Some(Internal);
      }
      err := None;
    }

    /** What a refused deletion was refused for, in the state that it read last. */
    ghost predicate NotDeletable(mid: State, r: Id, replacement: Option<Id>) {
      || !Custom(mid.roles, r) || (Used(mid.users, r) && replacement.None?)
      || DeleteTx(Db(mid), r, replacement).None?
    }

    /**
      The role and its usage are read before the transaction and may be stale in
      it.  Success is one step of the deletion on the state `mid` that everybody
      had reached; a failure leaves the three tables as they were there.
    */
    method DeleteRole(r: Id, replacement: Option<Id>, ghost me: CallId) returns (err: Option<Failure>, ghost mid: State)
      requires Inv(db.St()) && me !in db.calls
      modifies db
      ensures Inv(db.St()) && me !in db.calls && Reaches(old(db.St()), mid)
      ensures err.None? ==>
                && me in mid.calls && mid.calls[me] == UsageRead(r, replacement)
                && Enabled(mid, DeleteCommit(me)) && db.St() == Next(mid, DeleteCommit(me))
      ensures err.Some? ==> Db(db.St()) == Db(mid)
      ensures db.faults >= old(db.faults)
      ensures err.Some? && db.faults == old(db.faults) ==> NotDeletable(mid, r, replacement)
    {
      hide Inv, Reaches;
      ghost var s0 := db.St();
      ReachesSelf(s0);
      db.Yield(me, s0);
      mid := db.St();
      var role := db.FindByID(r);
      if role.Err? { err := Some(if role.error == NotFound then RoleNotFound else Internal); return; }
      if role.value.isSystem { err := Some(SystemRole); return; }
      db.Took(s0, mid, DeleteRead(me, r, replacement));

      db.Yield(me, s0);
      mid := db.St();
      var used := db.ExistsByRoleIDUnscoped(r);
      if used.Err? || (used.value && replacement.None?) {
        db.Took(s0, mid, Abort(me));
        err := Some(if used.Err? then Internal else RoleInUse);
        return;
      }
      db.Took(s0, mid, DeleteUsage(me));

      db.Yield(me, s0);
      mid := db.St();
      err := DeleteInTx(r, replacement);
      db.Took(s0, mid, if err.None? then DeleteCommit(me) else Abort(me));
    }
  }
}
