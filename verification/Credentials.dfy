/**
 The login credentials of backend/app/vault_client.py: a secret per user in Vault and a row per user in
 Postgres that holds the hash of the same password. Seeding at start-up, rotation and approval write both.
 Generated passwords are parameters.
 */
module Credentials {
  import opened Options
  import opened Profiles

  /** A KV secret as far as it is read again; `others` stands for the other generated credentials. */
  datatype Secret = Secret(role: Option<string>, homeRegion: Option<string>, loginPassword: Option<string>,
                           rotationCount: nat, others: string)

  datatype AccountStatus = Active | Pending

  datatype Account = Account(passwordHash: Option<string>, department: string, status: AccountStatus)

  datatype Store = Store(secrets: map<string, Secret>, users: map<string, Account>, profiles: seq<Profile>)

  /** A password and the other credentials made with it. */
  datatype Generated = Generated(password: string, others: string)

  function UserOf(p: Profile): string {
    OrElse(p.userId, "UNKNOWN")
  }

  function TargetRole(p: Profile): string {
    OrElse(p.role, "Employee")
  }

  function TargetRegion(p: Profile): string {
    OrElse(p.homeRegion, "Unknown")
  }

  function DepartmentOf(role: string): string {
    if role == "Finance" || role == "HR" || role == "Sales" then role
    else if role == "Admin" then "Security"
    else "Engineering"
  }

  // ---- Seeding ----

  datatype Outcome = Created | Updated | Skipped

  /** The store so far, what was done for each profile, and the credentials to be mailed. */
  datatype Seeding = Seeding(store: Store, outcomes: seq<Outcome>, mailed: seq<(string, string)>)

  datatype Tally = Tally(created: nat, updated: nat, skipped: nat)

  function Count(t: Tally, o: Outcome): Tally {
    match o
    case Created => t.(created := t.created + 1)
    case Updated => t.(updated := t.updated + 1)
    case Skipped => t.(skipped := t.skipped + 1)
  }

  /** The three counters of seeding, for these outcomes. */
  function TallyOf(outcomes: seq<Outcome>): Tally {
    if outcomes == [] then Tally(0, 0, 0) else Count(TallyOf(outcomes[..|outcomes| - 1]), outcomes[|outcomes| - 1])
  }

  predicate HasMetadata(secret: Secret, p: Profile) {
    secret.role == Some(TargetRole(p)) && secret.homeRegion == Some(TargetRegion(p))
  }

  predicate Lacks(password: Option<string>) {
    password.None? || password.value == ""
  }

  /** What seeding does with one user's secret: the outcome, the secret left in Vault, and the password
      that is hashed for Postgres. */
  function SeedSecret(existing: Option<Secret>, p: Profile, g: Generated): (Outcome, Secret, string) {
    match existing
    case None =>
      (Created, Secret(Some(TargetRole(p)), Some(TargetRegion(p)), Some(g.password), 0, g.others), g.password)
    case Some(secret) =>
      var password := if Lacks(secret.loginPassword) then g.password else secret.loginPassword.value;
      if HasMetadata(secret, p) && secret.loginPassword.Some? then (Skipped, secret, password)
      else (Updated,
            secret.(role := Some(TargetRole(p)), homeRegion := Some(TargetRegion(p)), loginPassword := Some(password)),
            password)
  }

  function Find<T>(m: map<string, T>, user: string): Option<T> {
    if user in m then Some(m[user]) else None
  }

  function SeedOne(hash: string -> string, s: Store, p: Profile, g: Generated): (Store, Outcome, string) {
    var user := UserOf(p);
    var (outcome, secret, password) := SeedSecret(Find(s.secrets, user), p, g);
    (s.(secrets := s.secrets[user := secret],
        users := s.users[user := Account(Some(hash(password)), DepartmentOf(TargetRole(p)), Active)]),
     outcome, password)
  }

  function SeedNext(hash: string -> string, before: Seeding, p: Profile, g: Generated): Seeding {
    var (next, outcome, password) := SeedOne(hash, before.store, p, g);
    Seeding(next, before.outcomes + [outcome], before.mailed + [(UserOf(p), password)])
  }

  function Seed(hash: string -> string, s: Store, generated: seq<Generated>, n: nat): Seeding
    requires n <= |s.profiles| <= |generated|
  {
    if n == 0 then Seeding(s, [], [])
    else SeedNext(hash, Seed(hash, s, generated, n - 1), s.profiles[n - 1], generated[n - 1])
  }

  // ---- Rotation ----

  /** A rotation replaces the whole secret, known user or not, and the hash of the row there is. */
  function RotateCredentials(hash: string -> string, s: Store, user: string, g: Generated): Store {
    var profile := ProfileOf(s.profiles, user);
    var count := if user in s.secrets then s.secrets[user].rotationCount else 0;
    var renewed := Secret(Some(if profile.Some? then OrElse(profile.value.role, "Unknown") else "Unknown"),
                        Some(if profile.Some? then OrElse(profile.value.homeRegion, "Unknown") else "Unknown"),
                        Some(g.password), count + 1, g.others);
    s.(secrets := s.secrets[user := renewed],
       users := if user !in s.users then s.users
                else s.users[user := s.users[user].(passwordHash := Some(hash(g.password)))])
  }

  // ---- Registration ----

  const KNOWN_REGIONS := {"US-East", "US-West", "EU-Central", "Asia-Pacific", "South-America"}

  /** The known home regions of the profiles with this role. */
  function PeerRegions(profiles: seq<Profile>, role: string): seq<string> {
    if profiles == [] then []
    else
      var p, rest := profiles[0], PeerRegions(profiles[1..], role);
      if p.role == Some(role) && p.homeRegion.Some? && p.homeRegion.value in KNOWN_REGIONS
      then [p.homeRegion.value] + rest else rest
  }

  /** Counter.most_common(1): of the most frequent, the one met first. */
  function MostCommon(regions: seq<string>): (best: string)
    requires regions != []
    ensures best in regions
    ensures forall r :: multiset(regions)[r] <= multiset(regions)[best]
  {
    MostCommonAmong(regions, |regions|)
  }

  function MostCommonAmong(regions: seq<string>, n: nat): (best: string)
    requires 0 < n <= |regions|
    ensures best in regions[..n]
    ensures forall r :: r in regions[..n] ==> multiset(regions)[r] <= multiset(regions)[best]
    ensures n == |regions| ==> forall r :: multiset(regions)[r] <= multiset(regions)[best]
  {
    var r := regions[n - 1];
    assert regions[..n] == regions[..n - 1] + [r];
    if n == 1 then r
    else
      var best := MostCommonAmong(regions, n - 1);
      if multiset(regions)[best] < multiset(regions)[r] then r else best
  }

  /** The role and home region a new member of a department gets. */
  function PeerTemplate(profiles: seq<Profile>, department: string): (string, string) {
    var role := DepartmentRole(department);
    var regions := PeerRegions(profiles, role);
    (role, if regions == [] then "US-East" else MostCommon(regions))
  }

  function OthersThan(profiles: seq<Profile>, user: string): seq<Profile> {
    if profiles == [] then []
    else if profiles[0].userId == Some(user) then OthersThan(profiles[1..], user)
    else [profiles[0]] + OthersThan(profiles[1..], user)
  }

  function Provision(s: Store, user: string, department: string, g: Generated): Store {
    var (role, region) := PeerTemplate(s.profiles, department);
    s.(secrets := s.secrets[user := Secret(Some(role), Some(region), Some(g.password), 0, g.others)],
       profiles := OthersThan(s.profiles, user) + [Profile(Some(user), Some(role), Some(region))])
  }

  function OrEngineering(department: string): string {
    if department == "" then "Engineering" else department
  }

  function ApproveRegistration(hash: string -> string, s: Store, user: string, g: Generated): Store {
    if user !in s.users || s.users[user].status != Pending then s
    else
      var department := OrEngineering(s.users[user].department);
      var t := Provision(s, user, department, g);
      t.(users := t.users[user := t.users[user].(passwordHash := Some(hash(g.password)), status := Active)])
  }

  // ---- Runs ----

  /** Connecting loads the profiles from their file and seeds. The password of an approval is the one the
      administrator types. */
  datatype Op =
    | Connect(profiles: seq<Profile>, generated: seq<Generated>)
    | Rotate(user: string, g: Generated)
    | Register(user: string, department: string)
    | Approve(user: string, g: Generated)
    | Reject(user: string)

  predicate ValidOp(op: Op) {
    op.Connect? ==> |op.profiles| == |op.generated|
  }

  function Step(hash: string -> string, s: Store, op: Op): Store
    requires ValidOp(op)
  {
    match op
    case Connect(profiles, generated) => Seed(hash, s.(profiles := profiles), generated, |profiles|).store
    case Rotate(user, g) => RotateCredentials(hash, s, user, g)
    case Register(user, department) =>
      if user in s.users then s else s.(users := s.users[user := Account(None, department, Pending)])
    case Approve(user, g) => ApproveRegistration(hash, s, user, g)
    case Reject(user) =>
      if user in s.users && s.users[user].status == Pending then s.(users := s.users - {user}) else s
  }

  function Run(hash: string -> string, s: Store, ops: seq<Op>): Store
    requires forall op <- ops :: ValidOp(op)
    decreases |ops|
  {
    if ops == [] then s else Step(hash, Run(hash, s, ops[..|ops| - 1]), ops[|ops| - 1])
  }
}
