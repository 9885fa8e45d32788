/**
 The requests of backend/app/routes/auth.py and the administrator's actions as they read and write
 hpe_users: what they do to the table and what they answer, given the row they looked up. `Handle` looks
 it up through the Redis cache, `Direct` in the table.
 */
module AuthRequests {
  import opened Options
  import opened IsoTimes
  import opened LoginWindows
  import opened Profiles
  import opened UserRows

  /** The password hash and the user profiles. */
  datatype Env = Env(hash: string -> string, profiles: seq<Profile>)

  type Table = map<string, Row>

  /** Redis for one lookup: whether its GET and SETEX go through. */
  datatype Outage = Outage(getOk: bool, setOk: bool)

  /** `now` is the time of the request. A rotation is the hash it stores, if it takes place: for a login
      from a VPN, on brute force (when one is found) or after a simulated threat. */
  datatype Op =
    | Login(user: string, password: string, ip: string, now: DateTime, vpnRotation: Option<string>,
            bruteRotation: Option<string>, redis: Outage)
    | Simulate(user: string, password: string, now: DateTime, region: string, failed: Option<nat>,
               travel: Option<bool>, rotation: Option<string>, redis: Outage)
    | Register(user: string, id: nat, department: string)
    | Approve(user: string, hash: string, region: string, ip: string)
    | Reject(user: string)
    | Seed(user: string, id: nat, hash: string, department: string)
    | Rotate(user: string, hash: string)
    | Reset
    | Expire(user: string)

  datatype Reply =
    | BadCredentials
    | AwaitingApproval
    | LoggedIn(department: Value, role: Option<string>, failedAttempts: int, lastLogin: Option<string>,
               region: string, bruteForce: bool, rotated: bool)
    | Simulated(region: string, mismatch: bool, impossibleTravel: bool, failedAttempts: int, rotated: bool)
    | Taken
    | Registered
    | NothingPending
    | Done

  const TRAVEL_WINDOW := 6 * 3600 * SECOND

  function HomeRegion(env: Env, user: string): string {
    var profile := ProfileOf(env.profiles, user);
    if profile.Some? then OrElse(profile.value.homeRegion, "US-East") else "US-East"
  }

  /** The profile's role, which may be missing, or else the department's. */
  function RoleOf(env: Env, user: string, row: Row): Option<string>
    requires WellTyped(row)
  {
    var profile := ProfileOf(env.profiles, user);
    if profile.Some? then profile.value.role
    else Some(DepartmentRole(if row[Department].Str? then row[Department].text else ""))
  }

  // ---- The statements ----

  function Update(db: Table, user: string, changes: Row): Table {
    if user in db then db[user := db[user] + changes] else db
  }

  /** The two updates of rotate_credentials. */
  function RotateRow(db: Table, user: string, hash: string): Table {
    Update(db, user, map[PasswordHash := Str(hash), FailedAttempts := Num(0), LastLoginRegion := Null])
  }

  function RotateIf(db: Table, user: string, rotation: Option<string>): Table {
    match rotation
    case Some(hash) => RotateRow(db, user, hash)
    case None => db
  }

  function WindowOf(row: Row): Window
    requires WellTyped(row)
  {
    Window(row[FailedAttempts].number,
           if row[LastFailedAttempt].Time? then Some(Instant(row[LastFailedAttempt].time)) else None)
  }

  /** The count a failure at `now` leaves: the SQL CASE, on the row in the table. */
  function CountAfterFailure(row: Row, now: DateTime): int
    requires WellTyped(row)
  {
    if row[LastFailedAttempt].Time? && Instant(row[LastFailedAttempt].time) > Instant(now) - FIVE_MINUTES
    then row[FailedAttempts].number + 1 else 1
  }

  ghost predicate TableOk(db: Table) {
    forall user <- db :: WellTyped(db[user])
  }

  function RecordFailure(db: Table, user: string, now: DateTime): Table
    requires user in db ==> WellTyped(db[user])
  {
    if user in db then
      Update(db, user, map[FailedAttempts := Num(CountAfterFailure(db[user], now)), LastFailedAttempt := Time(now)])
    else db
  }

  function NewRow(id: nat, user: string, department: string): Row {
    map[Id := Num(id), Username := Str(user), PasswordHash := Null, Department := Str(department), LastLogin := Null,
        LastLoginRegion := Null, LastLoginIp := Null, FailedAttempts := Num(0), LastFailedAttempt := Null,
        Status := Str("pending")]
  }

  function ApprovalChanges(hash: string, region: string, ip: string): Row {
    map[Status := Str("active"), PasswordHash := Str(hash), LastLoginRegion := Str(region), LastLoginIp := Str(ip),
        FailedAttempts := Num(0)]
  }

  /** The upsert of seeding: an existing row keeps its other columns. */
  function SeedRow(db: Table, user: string, id: nat, hash: string, department: string): Table {
    var changes := map[PasswordHash := Str(hash), Department := Str(department), Status := Str("active")];
    if user in db then Update(db, user, changes) else db[user := NewRow(id, user, department) + changes]
  }

  const BASELINE: Row := map[FailedAttempts := Num(0), LastLogin := Null, LastLoginRegion := Null, LastLoginIp := Null,
                             LastFailedAttempt := Null]

  // ---- The requests, given the row that was looked up ----

  /** The table after, the answer, and whether the user's cache entry is deleted. */
  datatype Outcome = Outcome(db: Table, reply: Reply, invalidates: bool)

  function IsBruteForce(seen: Row, now: DateTime): bool
    requires WellTyped(seen)
  {
    seen[FailedAttempts].number > 5 && seen[LastFailedAttempt].Time?
    && Instant(now) - Instant(seen[LastFailedAttempt].time) < FIVE_MINUTES
  }

  /** A login that succeeds: the session is recorded, then the credentials are rotated as called for. */
  function Entered(db: Table, op: Op, home: string, brute: bool): Table
    requires op.Login?
  {
    var session := map[FailedAttempts := Num(0), LastLogin := Time(op.now), LastLoginIp := Str(op.ip),
                       LastLoginRegion := Str(home)];
    var afterVpn := RotateIf(Update(db, op.user, session), op.user, op.vpnRotation);
    if brute then RotateIf(afterVpn, op.user, op.bruteRotation) else afterVpn
  }

  function AnswerLogin(env: Env, db: Table, seen: Option<Row>, op: Op): Outcome
    requires op.Login?
    requires seen.Some? ==> WellTyped(seen.value)
    requires op.user in db ==> WellTyped(db[op.user])
  {
    if seen.None? then Outcome(db, BadCredentials, false)
    else if seen.value[Status] == Str("pending") then Outcome(db, AwaitingApproval, false)
    else if seen.value[PasswordHash] != Str(env.hash(op.password)) then
      Outcome(RecordFailure(db, op.user, op.now), BadCredentials, true)
    else
      var row := seen.value;
      var brute := IsBruteForce(row, op.now);
      var home := HomeRegion(env, op.user);
      var last := if row[LastLogin].Time? then Some(IsoFormat(row[LastLogin].time)) else None;
      Outcome(Entered(db, op, home, brute),
              LoggedIn(row[Department], RoleOf(env, op.user, row), row[FailedAttempts].number, last, home, brute,
                       brute && op.bruteRotation.Some?),
              true)
  }

  function ImpossibleTravel(seen: Row, region: string, now: DateTime): bool
    requires WellTyped(seen)
  {
    && seen[LastLoginRegion].Str? && seen[LastLoginRegion].text != "" && seen[LastLogin].Time?
    && seen[LastLoginRegion].text != region && Instant(now) - Instant(seen[LastLogin].time) < TRAVEL_WINDOW
  }

  /** A simulation that is let in: a rotation resets the account to its home region. */
  function Visited(db: Table, op: Op, region: string, home: string): Table
    requires op.Simulate?
  {
    Update(RotateIf(db, op.user, op.rotation), op.user, VisitChanges(op, region, home))
  }

  function VisitChanges(op: Op, region: string, home: string): Row
    requires op.Simulate?
  {
    if op.rotation.Some?
    then map[LastLogin := Time(op.now), LastLoginRegion := Str(home), FailedAttempts := Num(0)]
    else map[LastLogin := Time(op.now), LastLoginRegion := Str(region)]
  }

  function AnswerSimulate(env: Env, db: Table, seen: Option<Row>, op: Op): Outcome
    requires op.Simulate?
    requires seen.Some? ==> WellTyped(seen.value)
  {
    if seen.None? || seen.value[PasswordHash] != Str(env.hash(op.password)) then Outcome(db, BadCredentials, false)
    else if seen.value[Status] == Str("pending") then Outcome(db, AwaitingApproval, false)
    else
      var row := seen.value;
      var home := HomeRegion(env, op.user);
      var region := if op.region != "" then op.region else home;
      var travel := if op.travel.Some? then op.travel.value else ImpossibleTravel(row, region, op.now);
      var failed := if op.failed.Some? then op.failed.value else row[FailedAttempts].number;
      Outcome(Visited(db, op, region, home), Simulated(region, region != home, travel, failed, op.rotation.Some?), true)
  }

  /** Operations that never look at the cache. */
  function Administer(db: Table, op: Op): (Table, Reply)
    requires !op.Login? && !op.Simulate?
    requires TableOk(db)
  {
    match op
    case Register(user, id, department) =>
      if user in db then (db, Taken) else (db[user := NewRow(id, user, department)], Registered)
    case Approve(user, hash, region, ip) =>
      if user !in db || db[user][Status] != Str("pending") then (db, NothingPending)
      else (Update(db, user, ApprovalChanges(hash, region, ip)), Done)
    case Reject(user) => (if user in db && db[user][Status] == Str("pending") then db - {user} else db, Done)
    case Seed(user, id, hash, department) => (SeedRow(db, user, id, hash, department), Done)
    case Rotate(user, hash) => (RotateRow(db, user, hash), Done)
    case Reset => (map user | user in db :: db[user] + BASELINE, Done)
    case Expire(user) => (db, Done)
  }

  // ---- Without a cache ----

  function Stored(db: Table, user: string): Option<Row> {
    if user in db then Some(db[user]) else None
  }

  function Direct(env: Env, db: Table, op: Op): (Table, Reply)
    requires TableOk(db)
  {
    match op
    case Login(_, _, _, _, _, _, _) =>
      var o := AnswerLogin(env, db, Stored(db, op.user), op);
      (o.db, o.reply)
    case Simulate(_, _, _, _, _, _, _, _) =>
      var o := AnswerSimulate(env, db, Stored(db, op.user), op);
      (o.db, o.reply)
    case _ => Administer(db, op)
  }

  // ---- With the cache ----

  /** The table, and the user:{username} keys of Redis. */
  datatype State = State(db: Table, cache: map<string, Row>)

  function Load(s: State, user: string, redis: Outage): (Option<Row>, map<string, Row>) {
    if redis.getOk && user in s.cache then (Some(Restored(s.cache[user])), s.cache)
    else if user !in s.db then (None, s.cache)
    else (Some(s.db[user]), if redis.setOk then s.cache[user := Serialised(s.db[user])] else s.cache)
  }

  function Conclude(o: Outcome, cache: map<string, Row>, user: string): (State, Reply) {
    (State(o.db, if o.invalidates then cache - {user} else cache), o.reply)
  }

  ghost predicate CacheOk(s: State) {
    forall user <- s.cache :: WellTyped(Restored(s.cache[user]))
  }

  function Handle(env: Env, s: State, op: Op): (State, Reply)
    requires TableOk(s.db) && CacheOk(s)
  {
    match op
    case Login(_, _, _, _, _, _, _) =>
      var (seen, cache) := Load(s, op.user, op.redis);
      Conclude(AnswerLogin(env, s.db, seen, op), cache, op.user)
    case Simulate(_, _, _, _, _, _, _, _) =>
      var (seen, cache) := Load(s, op.user, op.redis);
      Conclude(AnswerSimulate(env, s.db, seen, op), cache, op.user)
    case Reset =>
      (State(Administer(s.db, op).0, map[]), Done)
    case Expire(user) =>
      (State(s.db, s.cache - {user}), Done)
    case _ =>
      var (db, reply) := Administer(s.db, op);
      (State(db, s.cache), reply)
  }

  predicate ValidOp(op: Op) {
    (op.Login? || op.Simulate?) ==> IsDateTime(op.now)
  }

  lemma UpdateKeepsTypes(db: Table, user: string, changes: Row)
    requires TableOk(db) && forall c <- changes :: HasType(c, changes[c])
    ensures TableOk(Update(db, user, changes))
    ensures Update(db, user, changes).Keys == db.Keys
  {
  }

  lemma RotationKeepsTypes(db: Table, user: string, rotation: Option<string>)
    requires TableOk(db)
    ensures TableOk(RotateIf(db, user, rotation)) && RotateIf(db, user, rotation).Keys == db.Keys
  {
  }

  lemma EntryKeepsTypes(db: Table, op: Op, home: string, brute: bool)
    requires TableOk(db) && ValidOp(op) && op.Login?
    ensures TableOk(Entered(db, op, home, brute)) && Entered(db, op, home, brute).Keys == db.Keys
  {
    var session := map[FailedAttempts := Num(0), LastLogin := Time(op.now), LastLoginIp := Str(op.ip),
                       LastLoginRegion := Str(home)];
    UpdateKeepsTypes(db, op.user, session);
    RotationKeepsTypes(Update(db, op.user, session), op.user, op.vpnRotation);
    RotationKeepsTypes(RotateIf(Update(db, op.user, session), op.user, op.vpnRotation), op.user, op.bruteRotation);
  }

  lemma LoginKeepsTypes(env: Env, db: Table, seen: Option<Row>, op: Op)
    requires TableOk(db) && ValidOp(op) && op.Login? && (seen.Some? ==> WellTyped(seen.value))
    ensures TableOk(AnswerLogin(env, db, seen, op).db)
    ensures AnswerLogin(env, db, seen, op).db.Keys == db.Keys
  {
    EntryKeepsTypes(db, op, HomeRegion(env, op.user), false);
    EntryKeepsTypes(db, op, HomeRegion(env, op.user), true);
    FailureKeepsTypes(db, op.user, op.now);
  }

  lemma FailureKeepsTypes(db: Table, user: string, now: DateTime)
    requires TableOk(db) && IsDateTime(now)
    ensures TableOk(RecordFailure(db, user, now)) && RecordFailure(db, user, now).Keys == db.Keys
  {
  }

  lemma VisitKeepsTypes(db: Table, op: Op, region: string, home: string)
    requires TableOk(db) && ValidOp(op) && op.Simulate?
    ensures TableOk(Visited(db, op, region, home)) && Visited(db, op, region, home).Keys == db.Keys
  {
    RotationKeepsTypes(db, op.user, op.rotation);
    UpdateKeepsTypes(RotateIf(db, op.user, op.rotation), op.user, VisitChanges(op, region, home));
  }

  lemma SimulateKeepsTypes(env: Env, db: Table, seen: Option<Row>, op: Op)
    requires TableOk(db) && ValidOp(op) && op.Simulate? && (seen.Some? ==> WellTyped(seen.value))
    ensures TableOk(AnswerSimulate(env, db, seen, op).db)
    ensures AnswerSimulate(env, db, seen, op).db.Keys == db.Keys
  {
    var home := HomeRegion(env, op.user);
    VisitKeepsTypes(db, op, if op.region != "" then op.region else home, home);
  }

  lemma NewRowIsTyped(id: nat, user: string, department: string)
    ensures WellTyped(NewRow(id, user, department))
  {
    var row := NewRow(id, user, department);
    forall c: Column ensures c in row && HasType(c, row[c]) {
      match c
      case Id => case Username => case PasswordHash => case Department => case LastLogin =>
      case LastLoginRegion => case LastLoginIp => case FailedAttempts => case LastFailedAttempt => case Status =>
    }
  }

  lemma ResetKeepsTypes(db: Table)
    requires TableOk(db)
    ensures TableOk(Administer(db, Reset).0) && Administer(db, Reset).0.Keys == db.Keys
  {
    assert forall c <- BASELINE :: HasType(c, BASELINE[c]);
  }

  lemma SeedKeepsTypes(db: Table, user: string, id: nat, hash: string, department: string)
    requires TableOk(db)
    ensures TableOk(SeedRow(db, user, id, hash, department))
    ensures SeedRow(db, user, id, hash, department).Keys == db.Keys + {user}
  {
    NewRowIsTyped(id, user, department);
  }

  lemma AdministerKeepsTypes(db: Table, op: Op)
    requires TableOk(db) && !op.Login? && !op.Simulate?
    ensures TableOk(Administer(db, op).0)
    ensures !op.Reject? ==> db.Keys <= Administer(db, op).0.Keys
  {
    match op
    case Register(user, id, department) => NewRowIsTyped(id, user, department);
    case Approve(user, hash, region, ip) =>
      UpdateKeepsTypes(db, user, ApprovalChanges(hash, region, ip));
    case Reject(_) =>
    case Seed(user, id, hash, department) => SeedKeepsTypes(db, user, id, hash, department);
    case Rotate(user, hash) => RotationKeepsTypes(db, user, Some(hash));
    case Reset => ResetKeepsTypes(db);
    case Expire(_) =>
  }

  /** Every operation leaves a table with rows of the right types, and only a rejection removes one. */
  lemma DirectKeepsTypes(env: Env, db: Table, op: Op)
    requires TableOk(db) && ValidOp(op)
    ensures TableOk(Direct(env, db, op).0)
    ensures !op.Reject? ==> db.Keys <= Direct(env, db, op).0.Keys
  {
    if op.Login? {
      LoginKeepsTypes(env, db, Stored(db, op.user), op);
    } else if op.Simulate? {
      SimulateKeepsTypes(env, db, Stored(db, op.user), op);
    } else {
      AdministerKeepsTypes(db, op);
    }
  }
}
