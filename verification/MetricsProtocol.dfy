/**
 The pipeline metrics of backend/app/threat_engine.py as a concurrent protocol: any number of pods,
 each with lock-protected local deltas; any number of workers, one per event; any number of flushers
 that snapshot and zero the deltas of a pod and then write to the one Postgres row, where any write
 may fail. Steps of different threads interleave freely.

 Two things in the source are not atomic and are split here: `_pending_updates += 1` outside the lock
 is a load and a store, and the attack types are read from the row and written back.

 `Books` is bookkeeping for the proofs: no program variable depends on it.
 */
module MetricsProtocol {
  import opened Counting
  import opened ThreatActions

  /** A processed event; `attackType` is "" when the event carries none. */
  datatype Event = Event(action: ThreatAction, isThreat: bool, attackType: string)

  // ---- Amounts ----

  datatype Totals = Totals(requests: int, threats: int, allowed: int, monitored: int, blocked: int, critical: int)

  /** The attack_types dictionary: how often each type occurred. */
  type Attacks = multiset<string>

  /** What a delta dictionary, a snapshot or the database row holds. */
  datatype Counts = Counts(totals: Totals, attacks: Attacks)

  /** The separate numbers in it, and two differences: requests that were no threat, and requests
      under no action. */
  datatype Measure = Requests | Threats | Harmless | Acted(action: ThreatAction) | Unfiled | Attack(kind: string)

  const ZERO := Totals(0, 0, 0, 0, 0, 0)
  const NOTHING := Counts(ZERO, multiset{})

  function Amount(c: Counts, m: Measure): int {
    match m
    case Requests => c.totals.requests
    case Threats => c.totals.threats
    case Harmless => c.totals.requests - c.totals.threats
    case Unfiled =>
      c.totals.requests - c.totals.allowed - c.totals.monitored - c.totals.blocked - c.totals.critical
    case Acted(Allow) => c.totals.allowed
    case Acted(Monitor) => c.totals.monitored
    case Acted(Block) => c.totals.blocked
    case Acted(CriticalAlert) => c.totals.critical
    case Attack(kind) => c.attacks[kind]
  }

  function PlusTotals(t: Totals, u: Totals): Totals {
    Totals(t.requests + u.requests, t.threats + u.threats, t.allowed + u.allowed,
           t.monitored + u.monitored, t.blocked + u.blocked, t.critical + u.critical)
  }

  function Plus(c: Counts, d: Counts): Counts {
    Counts(PlusTotals(c.totals, d.totals), c.attacks + d.attacks)
  }

  function CountsOf(e: Event): Counts {
    Counts(Totals(1, One(e.isThreat), One(e.action == Allow), One(e.action == Monitor), One(e.action == Block),
                  One(e.action == CriticalAlert)),
           if e.isThreat && e.attackType != "" then multiset{e.attackType} else multiset{})
  }

  // ---- State ----

  /** `owners` lists the workers whose events the deltas hold, oldest first. */
  datatype Pod = Pod(deltas: Counts, pending: nat, owners: seq<nat>)

  datatype WorkerStage = Added | Loaded(seen: nat) | Finished

  datatype Worker = Worker(pod: nat, event: Event, stage: WorkerStage)

  datatype Flush =
    | Snapshotted(counts: Counts)
    | Incremented(attacks: Attacks)
    | RowRead(attacks: Attacks, row: Attacks)
    | Ended

  /** A get_metrics call on the database path, between its SELECT and its look at the deltas. */
  datatype Reader = Reader(pod: nat, row: Counts, epoch: nat)

  /** A merge writes back what it read plus its own; `overwritten` holds what other writes had added
      to the row in between, `resurrected` what a reset had taken out of it. */
  datatype Books = Books(counted: Counts, lost: Counts, discarded: Counts, overwritten: Attacks, resurrected: Attacks)

  datatype State = State(pods: seq<Pod>, workers: seq<Worker>, flushes: seq<Flush>, readers: seq<Reader>,
                         row: Counts, epoch: nat, books: Books)

  const EMPTY_POD := Pod(NOTHING, 0, [])

  function EmptyPods(n: nat): (pods: seq<Pod>)
    ensures |pods| == n
  {
    if n == 0 then [] else EmptyPods(n - 1) + [EMPTY_POD]
  }

  function Start(podCount: nat): State {
    State(EmptyPods(podCount), [], [], [], NOTHING, 0, Books(NOTHING, NOTHING, NOTHING, multiset{}, multiset{}))
  }

  // ---- Steps ----

  datatype Step =
    | AddDeltas(pod: nat, event: Event)
    | LoadPending(worker: nat)
    | StorePending(worker: nat)
    | Snapshot(pod: nat)
    | Increment(flush: nat, ok: bool)
    | ReadRow(flush: nat, ok: bool)
    | WriteRow(flush: nat, ok: bool)
    | ResetRow
    | ResetDeltas(pod: nat)
    | StartRead(pod: nat)

  predicate Enabled(s: State, step: Step) {
    match step
    case AddDeltas(p, _) => p < |s.pods|
    case LoadPending(w) => w < |s.workers| && s.workers[w].stage.Added? && s.workers[w].pod < |s.pods|
    case StorePending(w) => w < |s.workers| && s.workers[w].stage.Loaded? && s.workers[w].pod < |s.pods|
    case Snapshot(p) => p < |s.pods|
    case Increment(f, _) => f < |s.flushes| && s.flushes[f].Snapshotted?
    case ReadRow(f, _) => f < |s.flushes| && s.flushes[f].Incremented?
    case WriteRow(f, _) => f < |s.flushes| && s.flushes[f].RowRead?
    case ResetRow => true
    case ResetDeltas(p) => p < |s.pods|
    case StartRead(p) => p < |s.pods|
  }

  function AddEvent(p: Pod, e: Event, worker: nat): Pod {
    Pod(Plus(p.deltas, CountsOf(e)), p.pending, p.owners + [worker])
  }

  function AfterIncrement(f: Flush, ok: bool): Flush
    requires f.Snapshotted?
  {
    if ok && f.counts.attacks != multiset{} then Incremented(f.counts.attacks) else Ended
  }

  function InFlight(f: Flush): Counts {
    match f
    case Snapshotted(counts) => counts
    case Incremented(attacks) => Counts(ZERO, attacks)
    case RowRead(attacks, _) => Counts(ZERO, attacks)
    case Ended => NOTHING
  }

  function Lose(s: State, f: nat): State
    requires f < |s.flushes|
  {
    s.(flushes := s.flushes[f := Ended], books := s.books.(lost := Plus(s.books.lost, InFlight(s.flushes[f]))))
  }

  function Next(s: State, step: Step): State
    requires Enabled(s, step)
  {
    match step
    case AddDeltas(p, e) =>
      s.(pods := s.pods[p := AddEvent(s.pods[p], e, |s.workers|)],
         workers := s.workers + [Worker(p, e, Added)],
         books := s.books.(counted := Plus(s.books.counted, CountsOf(e))))
    case LoadPending(w) =>
      s.(workers := s.workers[w := s.workers[w].(stage := Loaded(s.pods[s.workers[w].pod].pending))])
    case StorePending(w) =>
      var p := s.workers[w].pod;
      s.(pods := s.pods[p := s.pods[p].(pending := s.workers[w].stage.seen + 1)],
         workers := s.workers[w := s.workers[w].(stage := Finished)])
    case Snapshot(p) =>
      s.(pods := s.pods[p := EMPTY_POD], flushes := s.flushes + [Snapshotted(s.pods[p].deltas)])
    case Increment(f, ok) =>
      if ok then
        s.(row := s.row.(totals := PlusTotals(s.row.totals, s.flushes[f].counts.totals)),
           flushes := s.flushes[f := AfterIncrement(s.flushes[f], true)])
      else Lose(s, f)
    case ReadRow(f, ok) =>
      if ok then s.(flushes := s.flushes[f := RowRead(s.flushes[f].attacks, s.row.attacks)])
      else Lose(s, f)
    case WriteRow(f, ok) =>
      var flush := s.flushes[f];
      if ok then
        s.(row := s.row.(attacks := flush.row + flush.attacks),
           flushes := s.flushes[f := Ended],
           books := s.books.(overwritten := s.books.overwritten + (s.row.attacks - flush.row),
                             resurrected := s.books.resurrected + (flush.row - s.row.attacks)))
      else Lose(s, f)
    case ResetRow =>
      s.(row := NOTHING, epoch := s.epoch + 1, books := s.books.(discarded := Plus(s.books.discarded, s.row)))
    case ResetDeltas(p) =>
      s.(pods := s.pods[p := EMPTY_POD],
         books := s.books.(discarded := Plus(s.books.discarded, s.pods[p].deltas)))
    case StartRead(p) =>
      s.(readers := s.readers + [Reader(p, s.row, s.epoch)])
  }

  predicate IsRun(s: State, steps: seq<Step>)
    decreases |steps|
  {
    steps == [] || (Enabled(s, steps[0]) && IsRun(Next(s, steps[0]), steps[1..]))
  }

  function Run(s: State, steps: seq<Step>): State
    requires IsRun(s, steps)
    decreases |steps|
  {
    if steps == [] then s else Run(Next(s, steps[0]), steps[1..])
  }

  // ---- Invariants ----

  function LocalSum(pods: seq<Pod>, m: Measure): int {
    if pods == [] then 0 else LocalSum(pods[..|pods| - 1], m) + Amount(pods[|pods| - 1].deltas, m)
  }

  function FlightSum(flushes: seq<Flush>, m: Measure): int {
    if flushes == [] then 0
    else FlightSum(flushes[..|flushes| - 1], m) + Amount(InFlight(flushes[|flushes| - 1]), m)
  }

  function Difference(a: int, b: int): int {
    a - b
  }

  function Stale(b: Books, m: Measure): int {
    if m.Attack? then Difference(b.overwritten[m.kind], b.resurrected[m.kind]) else 0
  }

  /** Everything counted is in exactly one place; for attack types, once stale writes are booked. */
  predicate Conserved(s: State, m: Measure) {
    Amount(s.books.counted, m)
    == Amount(s.row, m) + FlightSum(s.flushes, m) + LocalSum(s.pods, m)
       + Amount(s.books.lost, m) + Amount(s.books.discarded, m) + Stale(s.books, m)
  }

  /** Nothing negative, and every request filed under exactly one action. */
  predicate Sound(c: Counts, m: Measure) {
    if m.Unfiled? then Amount(c, m) == 0 else Amount(c, m) >= 0
  }

  predicate BooksSound(s: State, m: Measure) {
    Sound(s.books.counted, m) && Sound(s.row, m) && Sound(s.books.lost, m) && Sound(s.books.discarded, m)
  }

  predicate AllSound(s: State, m: Measure) {
    && BooksSound(s, m)
    && (forall i :: 0 <= i < |s.pods| ==> Sound(s.pods[i].deltas, m))
    && (forall i :: 0 <= i < |s.flushes| ==> Sound(InFlight(s.flushes[i]), m))
  }

  function Tally(workers: seq<Worker>, owners: seq<nat>, m: Measure): int
    requires forall i :: 0 <= i < |owners| ==> owners[i] < |workers|
  {
    if owners == [] then 0
    else Tally(workers, owners[..|owners| - 1], m) + Amount(CountsOf(workers[owners[|owners| - 1]].event), m)
  }

  predicate OwnersKnown(s: State, pod: nat)
    requires pod < |s.pods|
  {
    var p := s.pods[pod];
    forall i :: 0 <= i < |p.owners| ==> p.owners[i] < |s.workers| && s.workers[p.owners[i]].pod == pod
  }

  predicate IsUnfinished(s: State, worker: nat) {
    worker < |s.workers| && !s.workers[worker].stage.Finished?
  }

  /** When the pending counter reads 0, each owner has yet to store to that counter: the unlocked
      counter never hides work that is over. */
  predicate PendingHidesNothing(s: State, pod: nat)
    requires pod < |s.pods|
  {
    var p := s.pods[pod];
    p.pending == 0 ==> forall i :: 0 <= i < |p.owners| ==> IsUnfinished(s, p.owners[i])
  }

  // The deltas are the sum over their owners.
  predicate DeltasOfOwners(s: State, pod: nat, m: Measure)
    requires pod < |s.pods| && OwnersKnown(s, pod)
  {
    Amount(s.pods[pod].deltas, m) == Tally(s.workers, s.pods[pod].owners, m)
  }

  ghost predicate PendingIsSafe(s: State, pod: nat)
    requires pod < |s.pods|
  {
    && OwnersKnown(s, pod)
    && PendingHidesNothing(s, pod)
    && (forall m :: DeltasOfOwners(s, pod, m))
  }

  // Until the next reset, the row can only have grown since it was read.
  predicate ReaderIsBehind(s: State, r: Reader, m: Measure) {
    && Sound(r.row, m) && r.epoch <= s.epoch
    && (r.epoch == s.epoch && !m.Attack? ==> Amount(r.row, m) <= Amount(s.row, m))
  }

  predicate InvariantOf(s: State, m: Measure) {
    && Conserved(s, m)
    && AllSound(s, m)
    && (forall i :: 0 <= i < |s.readers| ==> ReaderIsBehind(s, s.readers[i], m))
  }

  ghost predicate Invariant(s: State) {
    && (forall m :: InvariantOf(s, m))
    && (forall p :: 0 <= p < |s.pods| ==> PendingIsSafe(s, p))
  }
}
