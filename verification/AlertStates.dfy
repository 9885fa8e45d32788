/**
 The alert store of backend/app/admin_store.py as a state machine: the alert table, the append-only
 audit log and the stats row in Postgres, and the seven counters mirrored in Redis.

 One operation is one step (check and UPDATE are separate statements in the source; see README).
 `nextId` stands for uuid4: every alert gets an id never used before.
 */
module AlertStates {
  import opened Options
  import opened ThreatActions

  datatype Status = Pending | Approved | Rejected

  datatype Alert = Alert(userId: string, score: real, action: ThreatAction, status: Status, notes: string)

  datatype AuditEntry =
    | Resolution(alertId: nat, outcome: Status, userId: string, score: real, notes: string)
    | PipelineReset(admin: string)

  datatype Stats = Stats(created: nat, approved: nat, rejected: nat, autoAllowed: nat)

  datatype StatKey =
    | TotalAlerts
    | PendingCount
    | CriticalPending
    | TotalApproved
    | TotalRejected
    | TotalAutoAllowed
    | TotalAlertsCreated

  const ADMIN_STAT_KEYS: seq<StatKey> :=
    [TotalAlerts, PendingCount, CriticalPending, TotalApproved, TotalRejected, TotalAutoAllowed, TotalAlertsCreated]

  type Counters = map<StatKey, int>

  /** The Redis side; `clamps` counts how often a decrement had to be corrected to 0. */
  datatype Redis = Redis(up: bool, counters: Counters, clamps: nat)

  datatype State = State(alerts: map<nat, Alert>, nextId: nat, audit: seq<AuditEntry>, stats: Stats, redis: Redis)

  datatype Op =
    | Create(userId: string, score: real, action: ThreatAction)
    | Approve(id: nat, notes: string)
    | Reject(id: nat, notes: string)
    | AutoAllow
    | GetStats
    | Reset(admin: string)

  datatype Source = FromRedis | FromPostgres

  datatype Reply =
    | NoReply
    | AlertReply(alert: Option<Alert>)
    | StatsReply(numbers: Counters, source: Source)

  // ---- Redis counters ----

  function Value(r: Redis, key: StatKey): int {
    if key in r.counters then r.counters[key] else 0
  }

  function Incr(r: Redis, key: StatKey): Redis {
    if r.up then r.(counters := r.counters[key := Value(r, key) + 1]) else r
  }

  function Decr(r: Redis, key: StatKey): Redis {
    if !r.up then r
    else if Value(r, key) - 1 < 0 then r.(counters := r.counters[key := 0], clamps := r.clamps + 1)
    else r.(counters := r.counters[key := Value(r, key) - 1])
  }

  function CountCreated(r: Redis, action: ThreatAction): Redis {
    var counted := Incr(Incr(Incr(r, TotalAlerts), TotalAlertsCreated), PendingCount);
    if action == CriticalAlert then Incr(counted, CriticalPending) else counted
  }

  function CountResolved(r: Redis, outcome: Status, action: ThreatAction): Redis {
    var counted := Incr(Decr(r, PendingCount), if outcome == Approved then TotalApproved else TotalRejected);
    if action == CriticalAlert then Decr(counted, CriticalPending) else counted
  }

  predicate Complete(counters: Counters) {
    forall key: StatKey :: key in counters
  }

  // SETNX on every key: one that exists keeps its value.
  function Seed(r: Redis, numbers: Counters): Redis {
    if r.up then r.(counters := numbers + r.counters) else r
  }

  function Zero(r: Redis): Redis {
    if r.up then r.(counters := map key: StatKey | key in ADMIN_STAT_KEYS :: 0) else r
  }

  // ---- COUNT(*) queries ----

  datatype Filter = WithStatus(status: Status) | PendingAndCritical

  predicate Matches(f: Filter, a: Alert) {
    match f
    case WithStatus(status) => a.status == status
    case PendingAndCritical => a.status == Pending && a.action == CriticalAlert
  }

  function Selected(alerts: map<nat, Alert>, f: Filter): set<nat> {
    set id | id in alerts && Matches(f, alerts[id])
  }

  function Count(alerts: map<nat, Alert>, f: Filter): nat {
    |Selected(alerts, f)|
  }

  /** The slow path of get_stats, key by key. */
  function Queried(s: State, key: StatKey): nat {
    match key
    case TotalAlerts => |s.alerts|
    case PendingCount => Count(s.alerts, WithStatus(Pending))
    case CriticalPending => Count(s.alerts, PendingAndCritical)
    case TotalApproved => s.stats.approved
    case TotalRejected => s.stats.rejected
    case TotalAutoAllowed => s.stats.autoAllowed
    case TotalAlertsCreated => s.stats.created
  }

  function SlowPath(s: State): (numbers: Counters)
    ensures Complete(numbers)
  {
    EveryKeyListed();
    map key: StatKey | key in ADMIN_STAT_KEYS :: Queried(s, key)
  }

  lemma EveryKeyListed()
    ensures forall key: StatKey :: key in ADMIN_STAT_KEYS
  {
    forall key: StatKey ensures key in ADMIN_STAT_KEYS {
      match key
      case TotalAlerts => assert ADMIN_STAT_KEYS[0] == key;
      case PendingCount => assert ADMIN_STAT_KEYS[1] == key;
      case CriticalPending => assert ADMIN_STAT_KEYS[2] == key;
      case TotalApproved => assert ADMIN_STAT_KEYS[3] == key;
      case TotalRejected => assert ADMIN_STAT_KEYS[4] == key;
      case TotalAutoAllowed => assert ADMIN_STAT_KEYS[5] == key;
      case TotalAlertsCreated => assert ADMIN_STAT_KEYS[6] == key;
    }
  }

  // ---- The operations ----

  function CreateAlert(s: State, userId: string, score: real, action: ThreatAction): State {
    State(s.alerts[s.nextId := Alert(userId, score, action, Pending, "")], s.nextId + 1, s.audit,
          s.stats.(created := s.stats.created + 1), CountCreated(s.redis, action))
  }

  predicate IsPending(s: State, id: nat) {
    id in s.alerts && s.alerts[id].status == Pending
  }

  function Resolve(s: State, id: nat, outcome: Status, notes: string): State
    requires outcome != Pending
  {
    if !IsPending(s, id) then s
    else
      var a := s.alerts[id];
      State(s.alerts[id := a.(status := outcome, notes := notes)], s.nextId,
            s.audit + [Resolution(id, outcome, a.userId, a.score, notes)],
            if outcome == Approved then s.stats.(approved := s.stats.approved + 1)
            else s.stats.(rejected := s.stats.rejected + 1),
            CountResolved(s.redis, outcome, a.action))
  }

  function AllowEvent(s: State): State {
    s.(stats := s.stats.(autoAllowed := s.stats.autoAllowed + 1), redis := Incr(s.redis, TotalAutoAllowed))
  }

  function ReadStats(s: State): (State, Reply) {
    if s.redis.up && Complete(s.redis.counters) then
      (s, StatsReply(s.redis.counters, FromRedis))
    else
      (s.(redis := Seed(s.redis, SlowPath(s))), StatsReply(SlowPath(s), FromPostgres))
  }

  function ResetPipeline(s: State, admin: string): State {
    State(map[], s.nextId, s.audit + [PipelineReset(admin)], Stats(0, 0, 0, 0), Zero(s.redis))
  }

  function Find(s: State, id: nat): Option<Alert> {
    if id in s.alerts then Some(s.alerts[id]) else None
  }

  function Step(s: State, op: Op): (State, Reply) {
    match op
    case Create(userId, score, action) =>
      var t := CreateAlert(s, userId, score, action); (t, AlertReply(Find(t, s.nextId)))
    case Approve(id, notes) =>
      var t := Resolve(s, id, Approved, notes); (t, AlertReply(Find(t, id)))
    case Reject(id, notes) =>
      var t := Resolve(s, id, Rejected, notes); (t, AlertReply(Find(t, id)))
    case AutoAllow => (AllowEvent(s), NoReply)
    case GetStats => ReadStats(s)
    case Reset(admin) => (ResetPipeline(s, admin), NoReply)
  }

  function Run(s: State, ops: seq<Op>): State
    decreases |ops|
  {
    if ops == [] then s else Run(Step(s, ops[0]).0, ops[1..])
  }

  // ---- Invariants ----

  predicate TablesAgree(s: State) {
    && (forall id <- s.alerts :: id < s.nextId)
    && s.stats.created == |s.alerts|
    && s.stats.approved == Count(s.alerts, WithStatus(Approved))
    && s.stats.rejected == Count(s.alerts, WithStatus(Rejected))
  }

  // How far a counter is from its query; a missing key counts as 0.
  function Drift(s: State, key: StatKey): int {
    Value(s.redis, key) - Queried(s, key)
  }

  /** Every counter is right, and a key is missing only where Postgres has 0. */
  predicate Mirrors(s: State) {
    forall key: StatKey :: Drift(s, key) == 0
  }

  function EntriesFor(audit: seq<AuditEntry>, id: nat): seq<AuditEntry> {
    if audit == [] then []
    else
      var last := audit[|audit| - 1];
      EntriesFor(audit[..|audit| - 1], id) + if last.Resolution? && last.alertId == id then [last] else []
  }

  /** A pending alert has no audit entry; a resolved one exactly the entry its status calls for; ids
      not issued yet have none, and no id ever has two. */
  predicate AuditMatches(s: State, id: nat) {
    var entries := EntriesFor(s.audit, id);
    && |entries| <= 1
    && (id >= s.nextId ==> entries == [])
    && (id in s.alerts ==>
          var a := s.alerts[id];
          entries == if a.status == Pending then [] else [Resolution(id, a.status, a.userId, a.score, a.notes)])
  }

  ghost predicate AuditOk(s: State) {
    forall id: nat :: AuditMatches(s, id)
  }

  ghost predicate Invariant(s: State) {
    TablesAgree(s) && AuditOk(s) && (s.redis.up ==> Mirrors(s))
  }
}
