/**
 What holds of the metrics over every interleaving.
 */
module MetricsRuns {
  import opened ThreatActions
  import opened MetricsProtocol

  // ---- Amounts ----

  lemma AmountOfPlus(c: Counts, d: Counts, m: Measure)
    ensures Amount(Plus(c, d), m) == Amount(c, m) + Amount(d, m)
  {
  }

  lemma {:induction false} LocalSumUpdate(pods: seq<Pod>, i: nat, p: Pod, m: Measure)
    requires i < |pods|
    ensures LocalSum(pods[i := p], m) == LocalSum(pods, m) - Amount(pods[i].deltas, m) + Amount(p.deltas, m)
    decreases |pods|
  {
    var init := pods[..|pods| - 1];
    if i < |init| {
      LocalSumUpdate(init, i, p, m);
      assert pods[i := p][..|pods| - 1] == init[i := p];
    } else {
      assert pods[i := p][..|pods| - 1] == init;
    }
  }

  lemma {:induction false} FlightSumUpdate(flushes: seq<Flush>, i: nat, f: Flush, m: Measure)
    requires i < |flushes|
    ensures FlightSum(flushes[i := f], m)
            == FlightSum(flushes, m) - Amount(InFlight(flushes[i]), m) + Amount(InFlight(f), m)
    decreases |flushes|
  {
    var init := flushes[..|flushes| - 1];
    if i < |init| {
      FlightSumUpdate(init, i, f, m);
      assert flushes[i := f][..|flushes| - 1] == init[i := f];
    } else {
      assert flushes[i := f][..|flushes| - 1] == init;
    }
  }

  lemma FlightAppend(flushes: seq<Flush>, f: Flush, m: Measure)
    ensures FlightSum(flushes + [f], m) == FlightSum(flushes, m) + Amount(InFlight(f), m)
  {
    assert (flushes + [f])[..|flushes|] == flushes;
  }

  // ---- Conservation, step by step ----

  lemma LoseConserves(s: State, f: nat, m: Measure)
    requires f < |s.flushes| && Conserved(s, m)
    ensures Conserved(Lose(s, f), m)
  {
    FlightSumUpdate(s.flushes, f, Ended, m);
    AmountOfPlus(s.books.lost, InFlight(s.flushes[f]), m);
  }

  // The totals leave the flush, attack types stay in it until they are merged.
  lemma IncrementMoves(f: Flush, m: Measure)
    requires f.Snapshotted?
    ensures Amount(InFlight(AfterIncrement(f, true)), m) == if m.Attack? then Amount(InFlight(f), m) else 0
  {
  }

  lemma IncrementConserves(s: State, f: nat, m: Measure)
    requires Enabled(s, Increment(f, true)) && Conserved(s, m)
    ensures Conserved(Next(s, Increment(f, true)), m)
  {
    FlightSumUpdate(s.flushes, f, AfterIncrement(s.flushes[f], true), m);
    IncrementMoves(s.flushes[f], m);
  }

  lemma WriteConserves(s: State, f: nat, m: Measure)
    requires Enabled(s, WriteRow(f, true)) && Conserved(s, m)
    ensures Conserved(Next(s, WriteRow(f, true)), m)
  {
    FlightSumUpdate(s.flushes, f, Ended, m);
  }

  lemma AddConserves(s: State, p: nat, e: Event, m: Measure)
    requires p < |s.pods| && Conserved(s, m)
    ensures Conserved(Next(s, AddDeltas(p, e)), m)
  {
    LocalSumUpdate(s.pods, p, AddEvent(s.pods[p], e, |s.workers|), m);
    AmountOfPlus(s.pods[p].deltas, CountsOf(e), m);
    AmountOfPlus(s.books.counted, CountsOf(e), m);
  }

  lemma StoreConserves(s: State, w: nat, m: Measure)
    requires Enabled(s, StorePending(w)) && Conserved(s, m)
    ensures Conserved(Next(s, StorePending(w)), m)
  {
    var p := s.workers[w].pod;
    LocalSumUpdate(s.pods, p, s.pods[p].(pending := s.workers[w].stage.seen + 1), m);
  }

  lemma EmptyingConserves(s: State, p: nat, m: Measure)
    requires p < |s.pods| && Conserved(s, m)
    ensures Conserved(Next(s, Snapshot(p)), m) && Conserved(Next(s, ResetDeltas(p)), m)
  {
    LocalSumUpdate(s.pods, p, EMPTY_POD, m);
    assert Amount(NOTHING, m) == 0;
    FlightAppend(s.flushes, Snapshotted(s.pods[p].deltas), m);
    AmountOfPlus(s.books.discarded, s.pods[p].deltas, m);
  }

  lemma StepConserves(s: State, step: Step, m: Measure)
    requires Enabled(s, step) && Conserved(s, m)
    ensures Conserved(Next(s, step), m)
  {
    match step
    case AddDeltas(p, e) => AddConserves(s, p, e, m);
    case LoadPending(w) =>
    case StorePending(w) => StoreConserves(s, w, m);
    case Snapshot(p) => EmptyingConserves(s, p, m);
    case Increment(f, ok) =>
      if ok { IncrementConserves(s, f, m); } else { LoseConserves(s, f, m); }
    case ReadRow(f, ok) =>
      if ok { FlightSumUpdate(s.flushes, f, RowRead(s.flushes[f].attacks, s.row.attacks), m); }
      else { LoseConserves(s, f, m); }
    case WriteRow(f, ok) =>
      if ok { WriteConserves(s, f, m); } else { LoseConserves(s, f, m); }
    case ResetRow => AmountOfPlus(s.books.discarded, s.row, m);
    case ResetDeltas(p) => EmptyingConserves(s, p, m);
    case StartRead(p) =>
  }

  // What the step moves from one place to another is sound.
  predicate MovesSound(s: State, step: Step, m: Measure)
    requires Enabled(s, step)
  {
    match step
    case Increment(f, _) => Sound(InFlight(s.flushes[f]), m)
    case ReadRow(f, _) => Sound(InFlight(s.flushes[f]), m)
    case WriteRow(f, _) => Sound(InFlight(s.flushes[f]), m)
    case Snapshot(p) => Sound(s.pods[p].deltas, m)
    case ResetDeltas(p) => Sound(s.pods[p].deltas, m)
    case _ => true
  }

  lemma EventIsSound(e: Event, m: Measure)
    ensures Sound(CountsOf(e), m)
  {
  }

  lemma PlusIsSound(c: Counts, d: Counts, m: Measure)
    requires Sound(c, m) && Sound(d, m)
    ensures Sound(Plus(c, d), m)
  {
    AmountOfPlus(c, d, m);
  }

  lemma BooksStaySound(s: State, step: Step, m: Measure)
    requires Enabled(s, step) && BooksSound(s, m) && MovesSound(s, step, m)
    ensures BooksSound(Next(s, step), m)
  {
    match step
    case AddDeltas(p, e) =>
      EventIsSound(e, m);
      PlusIsSound(s.books.counted, CountsOf(e), m);
    case LoadPending(w) =>
    case StorePending(w) =>
    case Snapshot(p) =>
    case Increment(f, ok) => PlusIsSound(if ok then s.row else s.books.lost, InFlight(s.flushes[f]), m);
    case ReadRow(f, ok) => PlusIsSound(s.books.lost, InFlight(s.flushes[f]), m);
    case WriteRow(f, ok) => PlusIsSound(s.books.lost, InFlight(s.flushes[f]), m);
    case ResetRow => PlusIsSound(s.books.discarded, s.row, m);
    case ResetDeltas(p) => PlusIsSound(s.books.discarded, s.pods[p].deltas, m);
    case StartRead(p) =>
  }

  lemma PodStaysSound(s: State, step: Step, i: nat, m: Measure)
    requires Enabled(s, step) && i < |s.pods| && Sound(s.pods[i].deltas, m)
    ensures Sound(Next(s, step).pods[i].deltas, m)
  {
    if step.AddDeltas? && step.pod == i {
      EventIsSound(step.event, m);
      PlusIsSound(s.pods[i].deltas, CountsOf(step.event), m);
    }
  }

  lemma FlushStaysSound(s: State, step: Step, i: nat, m: Measure)
    requires Enabled(s, step) && MovesSound(s, step, m) && i < |Next(s, step).flushes|
    requires i < |s.flushes| ==> Sound(InFlight(s.flushes[i]), m)
    ensures Sound(InFlight(Next(s, step).flushes[i]), m)
  {
  }

  lemma StepKeepsSound(s: State, step: Step, m: Measure)
    requires Enabled(s, step) && AllSound(s, m)
    ensures AllSound(Next(s, step), m)
  {
    assert MovesSound(s, step, m);
    BooksStaySound(s, step, m);
    forall i | 0 <= i < |s.pods| ensures Sound(Next(s, step).pods[i].deltas, m) {
      PodStaysSound(s, step, i, m);
    }
    forall i | 0 <= i < |Next(s, step).flushes| ensures Sound(InFlight(Next(s, step).flushes[i]), m) {
      FlushStaysSound(s, step, i, m);
    }
  }

  // ---- The pending counter and the readers, step by step ----

  lemma {:induction false} TallySame(workers: seq<Worker>, more: seq<Worker>, owners: seq<nat>, m: Measure)
    requires |workers| <= |more|
    requires forall i :: 0 <= i < |workers| ==> workers[i].event == more[i].event
    requires forall i :: 0 <= i < |owners| ==> owners[i] < |workers|
    ensures Tally(workers, owners, m) == Tally(more, owners, m)
    decreases |owners|
  {
    if owners != [] {
      TallySame(workers, more, owners[..|owners| - 1], m);
    }
  }

  lemma StepKeepsOwners(s: State, step: Step, pod: nat)
    requires Enabled(s, step) && pod < |s.pods| && OwnersKnown(s, pod)
    ensures OwnersKnown(Next(s, step), pod)
  {
  }

  lemma AddKeepsTally(s: State, e: Event, pod: nat, m: Measure)
    requires pod < |s.pods| && OwnersKnown(s, pod) && DeltasOfOwners(s, pod, m)
    ensures OwnersKnown(Next(s, AddDeltas(pod, e)), pod)
    ensures DeltasOfOwners(Next(s, AddDeltas(pod, e)), pod, m)
  {
    var t := Next(s, AddDeltas(pod, e));
    var owners := s.pods[pod].owners;
    TallySame(s.workers, t.workers, owners, m);
    assert t.pods[pod].owners[..|owners|] == owners;
    AmountOfPlus(s.pods[pod].deltas, CountsOf(e), m);
  }

  lemma StepKeepsTally(s: State, step: Step, pod: nat, m: Measure)
    requires Enabled(s, step) && pod < |s.pods| && OwnersKnown(s, pod) && DeltasOfOwners(s, pod, m)
    ensures OwnersKnown(Next(s, step), pod) && DeltasOfOwners(Next(s, step), pod, m)
  {
    if step.AddDeltas? && step.pod == pod {
      AddKeepsTally(s, step.event, pod, m);
    } else {
      var t := Next(s, step);
      StepKeepsOwners(s, step, pod);
      TallySame(s.workers, t.workers, s.pods[pod].owners, m);
      if t.pods[pod] == EMPTY_POD {
        assert Amount(NOTHING, m) == 0;
      }
    }
  }

  lemma StepKeepsPending(s: State, step: Step, pod: nat)
    requires Enabled(s, step) && pod < |s.pods| && OwnersKnown(s, pod) && PendingHidesNothing(s, pod)
    ensures PendingHidesNothing(Next(s, step), pod)
  {
  }

  lemma StepKeepsPendingSafe(s: State, step: Step, pod: nat)
    requires Enabled(s, step) && pod < |s.pods| && PendingIsSafe(s, pod)
    ensures PendingIsSafe(Next(s, step), pod)
  {
    var t := Next(s, step);
    StepKeepsOwners(s, step, pod);
    StepKeepsPending(s, step, pod);
    forall m ensures DeltasOfOwners(t, pod, m) {
      StepKeepsTally(s, step, pod, m);
    }
  }

  lemma RowOnlyGrows(s: State, step: Step, m: Measure)
    requires Enabled(s, step) && MovesSound(s, step, m) && !m.Attack?
    ensures Next(s, step).epoch == s.epoch ==> Amount(s.row, m) <= Amount(Next(s, step).row, m)
    ensures s.epoch <= Next(s, step).epoch
  {
    if step.Increment? && step.ok {
      AmountOfPlus(s.row, InFlight(s.flushes[step.flush]), m);
    }
  }

  lemma StepKeepsReader(s: State, step: Step, i: nat, m: Measure)
    requires Enabled(s, step) && AllSound(s, m) && i < |Next(s, step).readers|
    requires i < |s.readers| ==> ReaderIsBehind(s, s.readers[i], m)
    ensures ReaderIsBehind(Next(s, step), Next(s, step).readers[i], m)
  {
    assert MovesSound(s, step, m);
    if !m.Attack? {
      RowOnlyGrows(s, step, m);
    }
  }

  lemma StepKeepsInvariantOf(s: State, step: Step, m: Measure)
    requires Enabled(s, step) && InvariantOf(s, m)
    ensures InvariantOf(Next(s, step), m)
  {
    StepConserves(s, step, m);
    StepKeepsSound(s, step, m);
    forall i | 0 <= i < |Next(s, step).readers| ensures ReaderIsBehind(Next(s, step), Next(s, step).readers[i], m) {
      StepKeepsReader(s, step, i, m);
    }
  }

  lemma StepKeepsInvariant(s: State, step: Step)
    requires Enabled(s, step) && Invariant(s)
    ensures Invariant(Next(s, step))
  {
    forall m ensures InvariantOf(Next(s, step), m) {
      StepKeepsInvariantOf(s, step, m);
    }
    forall p | 0 <= p < |s.pods| ensures PendingIsSafe(Next(s, step), p) {
      StepKeepsPendingSafe(s, step, p);
    }
  }

  // ---- Every run ----

  lemma {:induction false} EmptyPodsHoldNothing(n: nat, m: Measure)
    ensures LocalSum(EmptyPods(n), m) == 0
    ensures forall i :: 0 <= i < n ==> EmptyPods(n)[i] == EMPTY_POD
  {
    if n > 0 {
      EmptyPodsHoldNothing(n - 1, m);
      assert EmptyPods(n)[..n - 1] == EmptyPods(n - 1);
    }
  }

  lemma StartIsSound(podCount: nat, m: Measure)
    ensures InvariantOf(Start(podCount), m)
  {
    EmptyPodsHoldNothing(podCount, m);
    assert Amount(NOTHING, m) == 0;
  }

  lemma EmptyPodIsSafe(podCount: nat, p: nat)
    requires p < podCount
    ensures PendingIsSafe(Start(podCount), p)
  {
    EmptyPodsHoldNothing(podCount, Requests);
    assert Start(podCount).pods[p] == EMPTY_POD;
  }

  lemma StartIsInvariant(podCount: nat)
    ensures Invariant(Start(podCount))
  {
    var s := Start(podCount);
    forall m ensures InvariantOf(s, m) {
      StartIsSound(podCount, m);
    }
    forall p | 0 <= p < |s.pods| ensures PendingIsSafe(s, p) {
      EmptyPodIsSafe(podCount, p);
    }
  }

  lemma {:induction false} RunKeepsInvariant(s: State, steps: seq<Step>)
    requires Invariant(s) && IsRun(s, steps)
    ensures Invariant(Run(s, steps))
    decreases |steps|
  {
    if steps != [] {
      StepKeepsInvariant(s, steps[0]);
      RunKeepsInvariant(Next(s, steps[0]), steps[1..]);
    }
  }

  lemma InvariantAtEnd(podCount: nat, steps: seq<Step>, m: Measure)
    requires IsRun(Start(podCount), steps)
    ensures InvariantOf(Run(Start(podCount), steps), m)
  {
    StartIsInvariant(podCount);
    RunKeepsInvariant(Start(podCount), steps);
  }

  /** From the start, over every interleaving with any writes failing and resets at any time: what was
      counted of each number is in the database row, in snapshots under way, in the local deltas, lost
      to failed updates or discarded by resets; and in each of these places no number is negative,
      threats are at most the requests, and every request is filed under exactly one action. */
  lemma MetricsConservation(podCount: nat, steps: seq<Step>, m: Measure)
    requires IsRun(Start(podCount), steps)
    ensures var t := Run(Start(podCount), steps);
            && (!m.Attack? ==>
                  Amount(t.books.counted, m)
                  == Amount(t.row, m) + FlightSum(t.flushes, m) + LocalSum(t.pods, m)
                     + Amount(t.books.lost, m) + Amount(t.books.discarded, m))
            && AllSound(t, m)
  {
    InvariantAtEnd(podCount, steps, m);
  }

  // ---- When attack types are exact ----

  /** A merge shifts no attack count exactly when the row still holds what the flush read. */
  lemma MergeIsExactIff(s: State, f: nat)
    requires Enabled(s, WriteRow(f, true))
    ensures (forall m :: Stale(Next(s, WriteRow(f, true)).books, m) == Stale(s.books, m))
            <==> s.flushes[f].row == s.row.attacks
  {
    var t := Next(s, WriteRow(f, true));
    if forall m :: Stale(t.books, m) == Stale(s.books, m) {
      forall kind: string ensures s.flushes[f].row[kind] == s.row.attacks[kind] {
        assert Stale(t.books, Attack(kind)) == Stale(s.books, Attack(kind));
      }
    }
  }

  /** Two merges that both read before either writes: the first one's counts vanish from the row, with
      no write failing and nothing recorded as lost. */
  lemma OverlapDropsTheFirstMerge(s: State, f: nat, g: nat)
    requires f < |s.flushes| && g < |s.flushes| && f != g
    requires s.flushes[f].Incremented? && s.flushes[g].Incremented?
    ensures var steps := [ReadRow(f, true), ReadRow(g, true), WriteRow(f, true), WriteRow(g, true)];
            && IsRun(s, steps)
            && var t := Run(s, steps);
               && t.row.attacks == s.row.attacks + s.flushes[g].attacks
               && t.books.lost == s.books.lost && t.flushes == s.flushes[f := Ended][g := Ended]
  {
    var steps := [ReadRow(f, true), ReadRow(g, true), WriteRow(f, true), WriteRow(g, true)];
    var a := Next(s, steps[0]);
    var b := Next(a, steps[1]);
    var c := Next(b, steps[2]);
    var d := Next(c, steps[3]);
    assert steps[3..][1..] == [] && steps[2..][1..] == steps[3..] && steps[1..][1..] == steps[2..];
    Unroll(c, steps[3..], d);
    Unroll(b, steps[2..], d);
    Unroll(a, steps[1..], d);
    Unroll(s, steps, d);
  }

  predicate NobodyMerging(s: State) {
    forall i :: 0 <= i < |s.flushes| ==> !s.flushes[i].RowRead?
  }

  // No merge starts, and no reset comes, while another merge is between its read and its write.
  predicate Exclusive(s: State, steps: seq<Step>)
    requires IsRun(s, steps)
    decreases |steps|
  {
    steps != [] ==>
      && (steps[0].ReadRow? || steps[0].ResetRow? ==> NobodyMerging(s))
      && Exclusive(Next(s, steps[0]), steps[1..])
  }

  predicate MergerUpToDate(s: State) {
    && (forall i :: 0 <= i < |s.flushes| && s.flushes[i].RowRead? ==> s.flushes[i].row == s.row.attacks)
    && (forall i, j :: 0 <= i < j < |s.flushes| ==> !(s.flushes[i].RowRead? && s.flushes[j].RowRead?))
  }

  lemma ExclusiveStepKeepsMerger(s: State, step: Step)
    requires Enabled(s, step) && MergerUpToDate(s)
    requires step.ReadRow? || step.ResetRow? ==> NobodyMerging(s)
    ensures MergerUpToDate(Next(s, step))
  {
  }

  lemma ExclusiveStepShiftsNothing(s: State, step: Step, m: Measure)
    requires Enabled(s, step) && MergerUpToDate(s)
    ensures Stale(Next(s, step).books, m) == Stale(s.books, m)
  {
    if step.WriteRow? && step.ok {
      var row := s.flushes[step.flush].row;
      assert row == s.row.attacks;
      assert row - row == multiset{};
    }
  }

  lemma {:induction false} ExclusiveRunsOverwriteNothing(s: State, steps: seq<Step>, m: Measure)
    requires IsRun(s, steps) && Exclusive(s, steps) && MergerUpToDate(s)
    ensures Stale(Run(s, steps).books, m) == Stale(s.books, m)
    decreases |steps|
  {
    if steps != [] {
      ExclusiveStepKeepsMerger(s, steps[0]);
      ExclusiveStepShiftsNothing(s, steps[0], m);
      ExclusiveRunsOverwriteNothing(Next(s, steps[0]), steps[1..], m);
    }
  }

  /** Where merges do not overlap, attack types are conserved with nothing overwritten. */
  lemma AttackTypesExactWithoutOverlap(podCount: nat, steps: seq<Step>, kind: string)
    requires IsRun(Start(podCount), steps) && Exclusive(Start(podCount), steps)
    ensures var t := Run(Start(podCount), steps);
            Amount(t.books.counted, Attack(kind))
            == Amount(t.row, Attack(kind)) + FlightSum(t.flushes, Attack(kind)) + LocalSum(t.pods, Attack(kind))
               + Amount(t.books.lost, Attack(kind)) + Amount(t.books.discarded, Attack(kind))
  {
    InvariantAtEnd(podCount, steps, Attack(kind));
    ExclusiveRunsOverwriteNothing(Start(podCount), steps, Attack(kind));
  }

  /** Everything counted of a kind is somewhere, with nothing overwritten. */
  predicate ExactNow(s: State, kind: string) {
    Amount(s.books.counted, Attack(kind))
    == Amount(s.row, Attack(kind)) + FlightSum(s.flushes, Attack(kind)) + LocalSum(s.pods, Attack(kind))
       + Amount(s.books.lost, Attack(kind)) + Amount(s.books.discarded, Attack(kind))
  }

  predicate AlwaysExact(s: State, steps: seq<Step>, kind: string)
    requires IsRun(s, steps)
    decreases |steps|
  {
    ExactNow(s, kind) && (steps != [] ==> AlwaysExact(Next(s, steps[0]), steps[1..], kind))
  }

  /** Each merge that writes finds the count of this kind in the row as it read it. */
  predicate MergesUndisturbed(s: State, steps: seq<Step>, kind: string)
    requires IsRun(s, steps)
    decreases |steps|
  {
    steps != [] ==>
      && (steps[0].WriteRow? && steps[0].ok ==> s.flushes[steps[0].flush].row[kind] == s.row.attacks[kind])
      && MergesUndisturbed(Next(s, steps[0]), steps[1..], kind)
  }

  lemma MergeShifts(s: State, step: Step, kind: string)
    requires Enabled(s, step)
    ensures Stale(Next(s, step).books, Attack(kind)) == Stale(s.books, Attack(kind))
            <==> (step.WriteRow? && step.ok ==> s.flushes[step.flush].row[kind] == s.row.attacks[kind])
  {
  }

  lemma {:induction false} ExactRuns(s: State, steps: seq<Step>, kind: string)
    requires IsRun(s, steps) && Invariant(s) && Stale(s.books, Attack(kind)) == 0
    ensures AlwaysExact(s, steps, kind) <==> MergesUndisturbed(s, steps, kind)
    decreases |steps|
  {
    assert InvariantOf(s, Attack(kind));
    if steps != [] {
      var t := Next(s, steps[0]);
      StepKeepsInvariant(s, steps[0]);
      assert InvariantOf(t, Attack(kind));
      MergeShifts(s, steps[0], kind);
      if Stale(t.books, Attack(kind)) == 0 {
        ExactRuns(t, steps[1..], kind);
      } else {
        assert !ExactNow(t, kind);
      }
    }
  }

  /** Over every run: a kind of attack is conserved at every moment if and only if no merge writes over a
      count of it that has changed since the merge read the row. */
  lemma AttackTypesExactly(podCount: nat, steps: seq<Step>, kind: string)
    requires IsRun(Start(podCount), steps)
    ensures AlwaysExact(Start(podCount), steps, kind) <==> MergesUndisturbed(Start(podCount), steps, kind)
  {
    StartIsInvariant(podCount);
    ExactRuns(Start(podCount), steps, kind);
  }

  // ---- The racy pending counter and the final flush ----

  predicate Quiet(s: State) {
    && (forall w :: 0 <= w < |s.workers| ==> s.workers[w].stage.Finished?)
    && (forall f :: 0 <= f < |s.flushes| ==> s.flushes[f].Ended?)
  }

  /** The early return of flush_metrics_to_db never leaves anything behind: once all workers are done,
      a pending counter of 0 means empty deltas, however the unlocked increments raced. */
  lemma EarlyReturnLosesNothing(podCount: nat, steps: seq<Step>, pod: nat, m: Measure)
    requires IsRun(Start(podCount), steps)
    requires var s := Run(Start(podCount), steps); Quiet(s) && pod < |s.pods| && s.pods[pod].pending == 0
    ensures Amount(Run(Start(podCount), steps).pods[pod].deltas, m) == 0
  {
    StartIsInvariant(podCount);
    RunKeepsInvariant(Start(podCount), steps);
    NoOwnersLeft(Run(Start(podCount), steps), pod);
  }

  lemma NoOwnersLeft(s: State, pod: nat)
    requires pod < |s.pods| && PendingIsSafe(s, pod) && Quiet(s) && s.pods[pod].pending == 0
    ensures s.pods[pod].owners == []
    ensures forall m :: Amount(s.pods[pod].deltas, m) == 0
  {
    var owners := s.pods[pod].owners;
    assert owners == [] || IsUnfinished(s, owners[0]);
    assert owners == [];
    forall m ensures Amount(s.pods[pod].deltas, m) == 0 {
      assert DeltasOfOwners(s, pod, m);
    }
  }

  /** flush_metrics_to_db with no failure and nobody else running. */
  function FlushSteps(s: State, pod: nat): seq<Step>
    requires pod < |s.pods|
  {
    var f := |s.flushes|;
    if s.pods[pod].pending == 0 then []
    else if s.pods[pod].deltas.attacks == multiset{} then [Snapshot(pod), Increment(f, true)]
    else [Snapshot(pod), Increment(f, true), ReadRow(f, true), WriteRow(f, true)]
  }

  lemma Unroll(s: State, steps: seq<Step>, end: State)
    requires steps != [] && Enabled(s, steps[0])
    requires IsRun(Next(s, steps[0]), steps[1..]) && Run(Next(s, steps[0]), steps[1..]) == end
    ensures IsRun(s, steps) && Run(s, steps) == end
  {
  }

  lemma FlushRuns(s: State, pod: nat)
    requires pod < |s.pods| && s.pods[pod].pending != 0
    ensures IsRun(s, FlushSteps(s, pod))
    ensures var t := Run(s, FlushSteps(s, pod));
            && t.pods == s.pods[pod := EMPTY_POD] && t.flushes == s.flushes + [Ended]
            && t.workers == s.workers && t.books.counted == s.books.counted
            && t.row == Plus(s.row, s.pods[pod].deltas)
  {
    var f := |s.flushes|;
    var steps := FlushSteps(s, pod);
    var a := Next(s, Snapshot(pod));
    var b := Next(a, Increment(f, true));
    if s.pods[pod].deltas.attacks == multiset{} {
      assert steps[1..] == [Increment(f, true)] && steps[1..][1..] == [];
      Unroll(a, steps[1..], b);
      Unroll(s, steps, b);
      assert b.flushes == s.flushes + [Ended];
    } else {
      var c := Next(b, ReadRow(f, true));
      var d := Next(c, WriteRow(f, true));
      assert steps[3..][1..] == [] && steps[2..][1..] == steps[3..] && steps[1..][1..] == steps[2..];
      Unroll(c, steps[3..], d);
      Unroll(b, steps[2..], d);
      Unroll(a, steps[1..], d);
      Unroll(s, steps, d);
      assert d.flushes == s.flushes + [Ended];
    }
  }

  lemma {:induction false} NothingInFlight(flushes: seq<Flush>, m: Measure)
    requires forall f :: 0 <= f < |flushes| ==> flushes[f].Ended?
    ensures FlightSum(flushes, m) == 0
  {
    if flushes != [] {
      NothingInFlight(flushes[..|flushes| - 1], m);
      assert Amount(NOTHING, m) == 0;
    }
  }

  lemma OnePodSum(pods: seq<Pod>, m: Measure)
    requires |pods| == 1
    ensures LocalSum(pods, m) == Amount(pods[0].deltas, m)
  {
    assert pods[..0] == [];
  }

  lemma {:induction false} RunKeepsPods(s: State, steps: seq<Step>)
    requires IsRun(s, steps)
    ensures |Run(s, steps).pods| == |s.pods|
    decreases |steps|
  {
    if steps != [] {
      RunKeepsPods(Next(s, steps[0]), steps[1..]);
    }
  }

  lemma QuietAndEmpty(s: State, m: Measure)
    requires Conserved(s, m) && |s.pods| == 1 && Amount(s.pods[0].deltas, m) == 0 && !m.Attack?
    requires forall f :: 0 <= f < |s.flushes| ==> s.flushes[f].Ended?
    ensures Amount(s.books.counted, m) == Amount(s.row, m) + Amount(s.books.lost, m) + Amount(s.books.discarded, m)
  {
    NothingInFlight(s.flushes, m);
    OnePodSum(s.pods, m);
  }

  lemma FlushBringsAllIn(s: State, m: Measure)
    requires Invariant(s) && Quiet(s) && |s.pods| == 1 && !m.Attack?
    ensures IsRun(s, FlushSteps(s, 0))
    ensures var t := Run(s, FlushSteps(s, 0));
            && t.books.counted == s.books.counted
            && Amount(t.books.counted, m) == Amount(t.row, m) + Amount(t.books.lost, m) + Amount(t.books.discarded, m)
  {
    if s.pods[0].pending == 0 {
      NoOwnersLeft(s, 0);
      assert InvariantOf(s, m);
      QuietAndEmpty(s, m);
    } else {
      FlushRuns(s, 0);
      RunKeepsInvariant(s, FlushSteps(s, 0));
      var t := Run(s, FlushSteps(s, 0));
      assert InvariantOf(t, m);
      assert t.pods[0] == EMPTY_POD && Amount(NOTHING, m) == 0;
      QuietAndEmpty(t, m);
    }
  }

  /** The shutdown flush of a pod alone on its database brings everything into the row that was not
      lost or discarded. */
  lemma ShutdownFlushIsComplete(steps: seq<Step>, m: Measure)
    requires IsRun(Start(1), steps) && Quiet(Run(Start(1), steps)) && !m.Attack?
    ensures var s := Run(Start(1), steps);
            && |s.pods| == 1 && IsRun(s, FlushSteps(s, 0))
            && var t := Run(s, FlushSteps(s, 0));
               && t.books.counted == s.books.counted
               && Amount(t.books.counted, m)
                  == Amount(t.row, m) + Amount(t.books.lost, m) + Amount(t.books.discarded, m)
  {
    StartIsInvariant(1);
    RunKeepsInvariant(Start(1), steps);
    RunKeepsPods(Start(1), steps);
    FlushBringsAllIn(Run(Start(1), steps), m);
  }

  // ---- What a reader on the database path is told ----

  function Reply(s: State, reader: nat): Counts
    requires reader < |s.readers| && s.readers[reader].pod < |s.pods|
  {
    Plus(s.readers[reader].row, s.pods[s.readers[reader].pod].deltas)
  }

  lemma {:induction false} LocalPart(pods: seq<Pod>, i: nat, m: Measure)
    requires i < |pods|
    requires forall k :: 0 <= k < |pods| ==> Sound(pods[k].deltas, m)
    ensures 0 <= Amount(pods[i].deltas, m) <= LocalSum(pods, m)
    decreases |pods|
  {
    var init := pods[..|pods| - 1];
    if i < |init| {
      LocalPart(init, i, m);
    } else if init != [] {
      LocalPart(init, 0, m);
    }
  }

  lemma {:induction false} FlightNonNegative(flushes: seq<Flush>, m: Measure)
    requires forall f :: 0 <= f < |flushes| ==> Sound(InFlight(flushes[f]), m)
    ensures FlightSum(flushes, m) >= 0
  {
    if flushes != [] {
      FlightNonNegative(flushes[..|flushes| - 1], m);
    }
  }

  lemma ReplyIsPart(s: State, reader: nat, m: Measure)
    requires InvariantOf(s, m) && !m.Attack?
    requires reader < |s.readers| && s.readers[reader].pod < |s.pods|
    ensures Sound(Reply(s, reader), m)
    ensures s.readers[reader].epoch == s.epoch ==> Amount(Reply(s, reader), m) <= Amount(s.books.counted, m)
  {
    var r := s.readers[reader];
    LocalPart(s.pods, r.pod, m);
    FlightNonNegative(s.flushes, m);
    AmountOfPlus(r.row, s.pods[r.pod].deltas, m);
    PlusIsSound(r.row, s.pods[r.pod].deltas, m);
  }

  /** get_metrics reads the row and then the deltas without holding anything in between. Its numbers
      always add up, and unless a reset came in between it never reports more than was counted. */
  lemma ReaderNeverOverReports(podCount: nat, steps: seq<Step>, reader: nat, m: Measure)
    requires IsRun(Start(podCount), steps) && !m.Attack?
    requires var t := Run(Start(podCount), steps); reader < |t.readers| && t.readers[reader].pod < |t.pods|
    ensures var t := Run(Start(podCount), steps);
            && Sound(Reply(t, reader), m)
            && (t.readers[reader].epoch == t.epoch ==> Amount(Reply(t, reader), m) <= Amount(t.books.counted, m))
  {
    InvariantAtEnd(podCount, steps, m);
    ReplyIsPart(Run(Start(podCount), steps), reader, m);
  }
}
