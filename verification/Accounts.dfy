/**
 hpe_users is one table, seen twice: with all of its columns by the requests, and by the credential stores as
 far as password, department and status go. What either does to those three columns is the same.
 */
module Accounts {
  import opened Options
  import opened Profiles
  import opened UserRows
  import A = AuthRequests
  import C = Credentials

  function TextOf(v: Value): Option<string> {
    if v.Str? then Some(v.text) else None
  }

  /** A row as the credential stores see it. */
  function AccountOf(row: Row): C.Account
    requires WellTyped(row)
  {
    C.Account(TextOf(row[PasswordHash]), OrElse(TextOf(row[Department]), ""),
              if row[Status] == Str("pending") then C.Pending else C.Active)
  }

  function AccountsOf(db: A.Table): map<string, C.Account>
    requires A.TableOk(db)
  {
    map user | user in db :: AccountOf(db[user])
  }

  /** The operation of the credential stores, if any, that an administrator's operation is. */
  function SameOp(op: A.Op, g: C.Generated): Option<C.Op> {
    match op
    case Register(user, _, department) => Some(C.Register(user, department))
    case Approve(user, _, _, _) => Some(C.Approve(user, g))
    case Reject(user) => Some(C.Reject(user))
    case Rotate(user, _) => Some(C.Rotate(user, g))
    case _ => None
  }

  // A row whose three columns change as told.
  lemma UpdatedAccount(row: Row, changes: Row)
    requires WellTyped(row) && forall c <- changes :: HasType(c, changes[c])
    ensures WellTyped(row + changes)
    ensures AccountOf(row + changes)
            == C.Account(if PasswordHash in changes then TextOf(changes[PasswordHash]) else AccountOf(row).passwordHash,
                         if Department in changes then OrElse(TextOf(changes[Department]), "")
                         else AccountOf(row).department,
                         if Status in changes then if changes[Status] == Str("pending") then C.Pending else C.Active
                         else AccountOf(row).status)
  {
  }

  lemma UpdatedAccounts(db: A.Table, user: string, changes: Row)
    requires A.TableOk(db) && forall c <- changes :: HasType(c, changes[c])
    ensures A.TableOk(A.Update(db, user, changes))
    ensures AccountsOf(A.Update(db, user, changes))
            == if user !in db then AccountsOf(db) else AccountsOf(db)[user := AccountOf(db[user] + changes)]
  {
    A.UpdateKeepsTypes(db, user, changes);
  }

  lemma NewAccount(id: nat, user: string, department: string)
    ensures WellTyped(A.NewRow(id, user, department))
    ensures AccountOf(A.NewRow(id, user, department)) == C.Account(None, department, C.Pending)
  {
    A.NewRowIsTyped(id, user, department);
  }

  lemma ActiveIsNotPending()
    ensures Str("active") != Str("pending")
  {
    assert "active"[0] != "pending"[0];
  }

  lemma RotationIsTheSame(hash: string -> string, db: A.Table, s: C.Store, user: string, g: C.Generated)
    requires A.TableOk(db) && s.users == AccountsOf(db)
    ensures A.TableOk(A.RotateRow(db, user, hash(g.password)))
    ensures C.RotateCredentials(hash, s, user, g).users == AccountsOf(A.RotateRow(db, user, hash(g.password)))
  {
    var changes := map[PasswordHash := Str(hash(g.password)), FailedAttempts := Num(0), LastLoginRegion := Null];
    UpdatedAccounts(db, user, changes);
    if user in db {
      UpdatedAccount(db[user], changes);
    }
  }

  // Status and password set, the department kept.
  lemma ActivatedAccounts(db: A.Table, user: string, changes: Row, hash: string)
    requires A.TableOk(db) && user in db && (forall c <- changes :: HasType(c, changes[c]))
    requires Status in changes && changes[Status] == Str("active") && Department !in changes
    requires PasswordHash in changes && changes[PasswordHash] == Str(hash)
    ensures A.TableOk(A.Update(db, user, changes))
    ensures AccountsOf(A.Update(db, user, changes))
            == AccountsOf(db)[user := AccountsOf(db)[user].(passwordHash := Some(hash), status := C.Active)]
  {
    ActiveIsNotPending();
    UpdatedAccounts(db, user, changes);
    UpdatedAccount(db[user], changes);
  }

  lemma ApprovedUsers(hash: string -> string, s: C.Store, user: string, g: C.Generated)
    ensures C.ApproveRegistration(hash, s, user, g).users
            == if user !in s.users || s.users[user].status != C.Pending then s.users
               else s.users[user := s.users[user].(passwordHash := Some(hash(g.password)), status := C.Active)]
  {
  }

  lemma ApprovedAccounts(db: A.Table, op: A.Op)
    requires A.TableOk(db) && op.Approve?
    ensures A.TableOk(A.Administer(db, op).0)
    ensures AccountsOf(A.Administer(db, op).0)
            == if op.user !in db || AccountsOf(db)[op.user].status != C.Pending then AccountsOf(db)
               else AccountsOf(db)[op.user := AccountsOf(db)[op.user].(passwordHash := Some(op.hash), status := C.Active)]
  {
    if op.user in db {
      ActivatedAccounts(db, op.user, A.ApprovalChanges(op.hash, op.region, op.ip), op.hash);
    }
  }

  lemma RegistrationIsTheSame(db: A.Table, id: nat, user: string, department: string)
    requires A.TableOk(db) && user !in db
    ensures A.TableOk(db[user := A.NewRow(id, user, department)])
    ensures AccountsOf(db[user := A.NewRow(id, user, department)])
            == AccountsOf(db)[user := C.Account(None, department, C.Pending)]
  {
    NewAccount(id, user, department);
  }

  /** A registration, approval, rejection or rotation leaves the table of the requests, as the credential stores
      see it, as it leaves that of the credential stores. */
  lemma AdministrationIsTheSame(hash: string -> string, db: A.Table, s: C.Store, op: A.Op, g: C.Generated)
    requires A.TableOk(db) && s.users == AccountsOf(db) && SameOp(op, g).Some?
    requires op.Approve? || op.Rotate? ==> op.hash == hash(g.password)
    ensures A.TableOk(A.Administer(db, op).0)
    ensures C.Step(hash, s, SameOp(op, g).value).users == AccountsOf(A.Administer(db, op).0)
  {
    match op
    case Register(user, id, department) =>
      if user !in db {
        RegistrationIsTheSame(db, id, user, department);
      }
    case Approve(user, _, _, _) =>
      ApprovedUsers(hash, s, user, g);
      ApprovedAccounts(db, op);
    case Reject(_) =>
    case Rotate(user, _) => RotationIsTheSame(hash, db, s, user, g);
  }

  lemma SeededAccounts(db: A.Table, user: string, id: nat, hash: string, department: string)
    requires A.TableOk(db)
    ensures A.TableOk(A.SeedRow(db, user, id, hash, department))
    ensures AccountsOf(A.SeedRow(db, user, id, hash, department))
            == AccountsOf(db)[user := C.Account(Some(hash), department, C.Active)]
  {
    var changes := map[PasswordHash := Str(hash), Department := Str(department), Status := Str("active")];
    ActiveIsNotPending();
    A.SeedKeepsTypes(db, user, id, hash, department);
    if user in db {
      UpdatedAccounts(db, user, changes);
      UpdatedAccount(db[user], changes);
    } else {
      NewAccount(id, user, department);
      UpdatedAccount(A.NewRow(id, user, department), changes);
    }
  }

  /** And seeding a profile is the upsert. */
  lemma SeedingIsTheSame(hash: string -> string, db: A.Table, s: C.Store, p: Profile, g: C.Generated, id: nat)
    requires A.TableOk(db) && s.users == AccountsOf(db)
    ensures var (t, _, password) := C.SeedOne(hash, s, p, g);
            var next := A.SeedRow(db, C.UserOf(p), id, hash(password), C.DepartmentOf(C.TargetRole(p)));
            A.TableOk(next) && t.users == AccountsOf(next)
  {
    var password := C.SeedOne(hash, s, p, g).2;
    SeededAccounts(db, C.UserOf(p), id, hash(password), C.DepartmentOf(C.TargetRole(p)));
  }
}
