/**
 The simulation of backend/app/routes/simulate.py: an index kept in memory and saved to the database every
 tenth event, reloaded on every connection, and one producer task for all dashboards. The steps of
 the producer, the connections, restarts and resets interleave freely.
 */
module SimulationCursor {
  import opened Options

  /** A producer task: not yet run, in its loop (with the index of the event it has picked and not yet
      counted), or over. */
  datatype Task = Created | Looping(picked: Option<nat>) | Over

  /** `memory` is _sim_index, `batch` _sim_batch_count, `stored` the sim_index column, `producer` the one in
      _producer_task. Three history variables: whether the index was loaded, saved or reset since the
      process started, how many saves failed since one succeeded, and which indices were produced
      since the last reset. */
  datatype State = State(memory: nat, batch: nat, stored: nat, active: nat, tasks: seq<Task>, producer: Option<nat>,
                         synced: bool, failedSaves: nat, produced: set<nat>)

  /** The number of test events, and whether the portal runs alone. */
  datatype Config = Config(total: nat, portalOnly: bool)

  const BATCH_SIZE := 10

  const START := State(0, 0, 0, 0, [], None, false, 0, {})

  datatype Op =
    | Accept(loadOk: bool)                       // a dashboard connects and reads the index
    | Join                                       // it is registered, and starts the producer if need be
    | Leave
    | Begin(task: nat, loadOk: bool)             // a task runs up to its loop
    | Pick(task: nat)                            // it takes the event at the index
    | Advance(task: nat, saveOk: bool)           // the event is out: count it, save every tenth time
    | Abandon(task: nat)                         // producing it raised
    | Stop(task: nat)                            // no dashboard is left
    | Restart
    | Reset

  function Load(s: State, ok: bool): State {
    if ok then s.(memory := s.stored, synced := true) else s
  }

  function Save(s: State, ok: bool): State {
    var batch := s.batch + 1;
    if batch < BATCH_SIZE then s.(batch := batch)
    else if ok then s.(stored := s.memory, batch := 0, synced := true, failedSaves := 0)
    else s.(batch := batch, failedSaves := s.failedSaves + 1)
  }

  predicate IsLive(s: State, task: nat) {
    task < |s.tasks| && s.tasks[task] != Over
  }

  function EnsureProducer(s: State): State {
    if s.producer.Some? && IsLive(s, s.producer.value) then s
    else s.(tasks := s.tasks + [Created], producer := Some(|s.tasks|))
  }

  predicate IsLooping(s: State, task: nat, idle: bool) {
    task < |s.tasks| && s.tasks[task].Looping? && (idle <==> s.tasks[task].picked.None?)
  }

  function Move(s: State, task: nat, to: Task): State
    requires task < |s.tasks|
  {
    s.(tasks := s.tasks[task := to])
  }

  /** A step that is not enabled changes nothing. */
  function Step(config: Config, s: State, op: Op): State {
    match op
    case Accept(loadOk) => Load(s, loadOk)
    case Join =>
      var t := s.(active := s.active + 1);
      if config.total > 0 && !config.portalOnly then EnsureProducer(t) else t
    case Leave => if s.active > 0 then s.(active := s.active - 1) else s
    case Begin(task, loadOk) =>
      if task < |s.tasks| && s.tasks[task] == Created then
        Move(Load(s, loadOk), task, if config.total == 0 then Over else Looping(None))
      else s
    case Pick(task) =>
      if IsLooping(s, task, true) && s.active > 0 then Move(s, task, Looping(Some(s.memory))) else s
    case Advance(task, saveOk) =>
      if IsLooping(s, task, false) then
        var p := s.tasks[task].picked.value;
        Save(Move(s, task, Looping(None)).(memory := s.memory + 1, produced := s.produced + {p}), saveOk)
      else s
    case Abandon(task) => if IsLooping(s, task, false) then Move(s, task, Looping(None)) else s
    case Stop(task) => if IsLooping(s, task, true) && s.active == 0 then Move(s, task, Over) else s
    case Restart => START.(stored := s.stored, produced := s.produced)
    case Reset => s.(memory := 0, batch := 0, stored := 0, synced := true, failedSaves := 0, produced := {})
  }

  function Run(config: Config, ops: seq<Op>): State
    decreases |ops|
  {
    if ops == [] then START else Step(config, Run(config, ops[..|ops| - 1]), ops[|ops| - 1])
  }

  // ---- One producer ----

  /** Every task that is not over is the one in _producer_task. */
  predicate OneProducer(s: State) {
    && (s.producer.Some? ==> s.producer.value < |s.tasks|)
    && forall k :: 0 <= k < |s.tasks| && s.tasks[k] != Over ==> s.producer == Some(k)
  }

  lemma StepKeepsOneProducer(config: Config, s: State, op: Op)
    requires OneProducer(s)
    ensures OneProducer(Step(config, s, op))
  {
  }

  lemma {:induction false} RunHasOneProducer(config: Config, ops: seq<Op>)
    ensures OneProducer(Run(config, ops))
    decreases |ops|
  {
    if ops != [] {
      RunHasOneProducer(config, ops[..|ops| - 1]);
      StepKeepsOneProducer(config, Run(config, ops[..|ops| - 1]), ops[|ops| - 1]);
    }
  }

  /** At any time at most one task is live; and there is one right after a dashboard joined, unless there
      is nothing to produce. */
  lemma AtMostOneProducer(config: Config, ops: seq<Op>, j: nat, k: nat)
    ensures IsLive(Run(config, ops), j) && IsLive(Run(config, ops), k) ==> j == k
    ensures config.total > 0 && !config.portalOnly ==>
              exists t :: IsLive(Step(config, Run(config, ops), Join), t)
  {
    RunHasOneProducer(config, ops);
    var s := Run(config, ops);
    if config.total > 0 && !config.portalOnly {
      assert IsLive(Step(config, s, Join), Step(config, s, Join).producer.value);
    }
  }

  // ---- The distance between memory and database ----

  // Until the first load, save or reset, memory and batch count the same events.
  predicate CursorOk(s: State) {
    && (if s.synced then InStep(s) else s.memory == s.batch)
    && s.batch <= BATCH_SIZE - 1 + s.failedSaves
  }

  /** The index in memory is not behind the stored one, nor further ahead than the batch count. */
  predicate InStep(s: State) {
    0 <= s.memory - s.stored <= s.batch
  }

  lemma {:induction false} RunKeepsCursor(config: Config, ops: seq<Op>)
    ensures CursorOk(Run(config, ops))
    decreases |ops|
  {
    if ops != [] {
      RunKeepsCursor(config, ops[..|ops| - 1]);
    }
  }

  /** Over every run, memory and database are in step if and only if the index was loaded, saved or reset
      since the process started, or at least as many events were counted as were stored. */
  lemma InStepExactly(config: Config, ops: seq<Op>)
    ensures var s := Run(config, ops); InStep(s) <==> s.synced || s.batch >= s.stored
  {
    RunKeepsCursor(config, ops);
  }

  /** And a reload steps back by at most nine, and one more for each save that failed since one
      succeeded. */
  lemma ReloadStepsBack(config: Config, ops: seq<Op>)
    ensures var s := Run(config, ops);
            s.memory - Step(config, s, Accept(true)).memory <= s.batch <= 9 + s.failedSaves
  {
    RunKeepsCursor(config, ops);
  }

  /** After a restart in which every load fails, the producer starts over at 0: its first event leaves it
      behind the stored index exactly if that is above 1. */
  lemma UnloadedCursorFallsBehind(config: Config, s: State)
    requires config.total > 0 && !config.portalOnly
    ensures var joined := Step(config, Step(config, s, Restart), Join);
            var one := ProduceOne(config, Step(config, joined, Begin(0, false)));
            && one.memory == 1 && one.stored == s.stored
            && (one.memory < one.stored <==> s.stored > 1)
  {
  }

  function ProduceOne(config: Config, s: State): State {
    Step(config, Step(config, s, Pick(0)), Advance(0, true))
  }

  // ---- Exactly when an event is skipped ----

  predicate AllProduced(s: State, n: nat) {
    forall i :: 0 <= i < n ==> i in s.produced
  }

  /** Counting an event moves past an index that was produced, before or just now. */
  predicate CountsProduced(s: State, op: Op) {
    op.Advance? && IsLooping(s, op.task, false) ==>
      s.memory in s.produced || s.tasks[op.task].picked == Some(s.memory)
  }

  /** One count skips nothing exactly then. */
  lemma AdvanceExactly(config: Config, s: State, op: Op)
    requires op.Advance? && AllProduced(s, s.memory)
    ensures AllProduced(Step(config, s, op), Step(config, s, op).memory) <==> CountsProduced(s, op)
  {
    var t := Step(config, s, op);
    if IsLooping(s, op.task, false) {
      assert t.produced == s.produced + {s.tasks[op.task].picked.value};
      assert AllProduced(t, t.memory) ==> s.memory in t.produced;
    }
  }

  lemma StepProducesExactly(config: Config, s: State, op: Op)
    requires AllProduced(s, s.memory) && AllProduced(s, s.stored)
    ensures var t := Step(config, s, op);
            && (AllProduced(t, t.memory) <==> CountsProduced(s, op))
            && (AllProduced(t, t.memory) ==> AllProduced(t, t.stored))
  {
    if op.Advance? {
      AdvanceExactly(config, s, op);
    }
  }

  ghost predicate NeverSkips(config: Config, ops: seq<Op>)
    decreases |ops|
  {
    && AllProduced(Run(config, ops), Run(config, ops).memory)
    && (ops == [] || NeverSkips(config, ops[..|ops| - 1]))
  }

  ghost predicate AlwaysCountsProduced(config: Config, ops: seq<Op>)
    decreases |ops|
  {
    ops == [] || (&& CountsProduced(Run(config, ops[..|ops| - 1]), ops[|ops| - 1])
                  && AlwaysCountsProduced(config, ops[..|ops| - 1]))
  }

  /** Over every run: at every moment each index below the one in memory was produced since the last reset,
      if and only if every count moved past a produced index; and then so it is below the stored one. */
  lemma {:induction false} SkipsExactly(config: Config, ops: seq<Op>)
    ensures NeverSkips(config, ops) <==> AlwaysCountsProduced(config, ops)
    ensures NeverSkips(config, ops) ==> AllProduced(Run(config, ops), Run(config, ops).stored)
    decreases |ops|
  {
    if ops != [] {
      var init := ops[..|ops| - 1];
      SkipsExactly(config, init);
      if NeverSkips(config, init) {
        StepProducesExactly(config, Run(config, init), ops[|ops| - 1]);
      }
    }
  }

  // ---- Which interleavings are safe ----

  predicate NothingPicked(s: State) {
    forall task <- s.tasks :: task.Looping? ==> task.picked.None?
  }

  /** Between a pick and its count comes no reset, and no successful load unless the index was loaded,
      saved or reset before. */
  predicate Careful(s: State, op: Op) {
    op.Reset? || ((op.Accept? || op.Begin?) && op.loadOk && !s.synced) ==> NothingPicked(s)
  }

  predicate NothingSkipped(s: State) {
    && AllProduced(s, s.memory) && AllProduced(s, s.stored)
    && forall k :: 0 <= k < |s.tasks| ==> PickOk(s, s.tasks[k])
  }

  // Reloading can only have moved the index back since the pick.
  predicate PickOk(s: State, task: Task) {
    task.Looping? && task.picked.Some? ==> s.memory <= task.picked.value && AllProduced(s, task.picked.value)
  }

  ghost predicate AllCareful(config: Config, ops: seq<Op>)
    decreases |ops|
  {
    ops == [] || (AllCareful(config, ops[..|ops| - 1]) && Careful(Run(config, ops[..|ops| - 1]), ops[|ops| - 1]))
  }

  lemma AdvanceSkipsNothing(config: Config, s: State, op: Op)
    requires NothingSkipped(s) && op.Advance? && OneProducer(s)
    ensures NothingSkipped(Step(config, s, op)) && CountsProduced(s, op)
  {
    if IsLooping(s, op.task, false) {
      assert PickOk(s, s.tasks[op.task]);
      var t := Step(config, s, op);
      assert forall k :: 0 <= k < |t.tasks| && k != op.task ==> t.tasks[k] == Over;
    }
  }

  // The steps that move the index without counting an event.
  lemma JumpSkipsNothing(config: Config, s: State, op: Op)
    requires NothingSkipped(s) && OneProducer(s) && CursorOk(s) && Careful(s, op)
    requires op.Accept? || op.Begin? || op.Restart? || op.Reset?
    ensures NothingSkipped(Step(config, s, op))
  {
    var t := Step(config, s, op);
    forall k | 0 <= k < |t.tasks| ensures PickOk(t, t.tasks[k]) {
      assert k < |s.tasks| ==> PickOk(s, s.tasks[k]) && s.tasks[k] in s.tasks;
    }
  }

  lemma StepSkipsNothing(config: Config, s: State, op: Op)
    requires NothingSkipped(s) && OneProducer(s) && CursorOk(s) && Careful(s, op)
    ensures NothingSkipped(Step(config, s, op)) && CountsProduced(s, op)
  {
    if op.Advance? {
      AdvanceSkipsNothing(config, s, op);
    } else if op.Accept? || op.Begin? || op.Restart? || op.Reset? {
      JumpSkipsNothing(config, s, op);
    } else {
      var t := Step(config, s, op);
      forall k | 0 <= k < |t.tasks| ensures PickOk(t, t.tasks[k]) {
        assert k < |s.tasks| ==> PickOk(s, s.tasks[k]);
      }
    }
  }

  /** No careful run skips an index, with reloads, failing loads and saves, and restarts at any time. */
  lemma {:induction false} NoIndexIsSkipped(config: Config, ops: seq<Op>)
    requires AllCareful(config, ops)
    ensures NeverSkips(config, ops) && NothingSkipped(Run(config, ops))
    decreases |ops|
  {
    if ops != [] {
      var init := ops[..|ops| - 1];
      NoIndexIsSkipped(config, init);
      RunHasOneProducer(config, init);
      RunKeepsCursor(config, init);
      StepSkipsNothing(config, Run(config, init), ops[|ops| - 1]);
    }
  }

  /** A reset between a pick and its count skips the first event of the new round, exactly unless that is
      the event that was picked. */
  lemma ResetInBetweenSkips(config: Config, s: State, task: nat, saveOk: bool)
    requires IsLooping(s, task, false)
    ensures var t := Step(config, Step(config, s, Reset), Advance(task, saveOk));
            t.memory == 1 && (AllProduced(t, t.memory) <==> s.tasks[task].picked.value == 0)
  {
    AdvanceExactly(config, Step(config, s, Reset), Advance(task, saveOk));
  }

  /** A load between a pick and its count skips the stored index, exactly unless it was produced before or
      is the one picked. */
  lemma LateLoadSkips(config: Config, s: State, task: nat, saveOk: bool)
    requires IsLooping(s, task, false) && AllProduced(s, s.stored)
    ensures var t := Step(config, Step(config, s, Accept(true)), Advance(task, saveOk));
            && t.memory == s.stored + 1
            && (AllProduced(t, t.memory) <==> s.stored in s.produced || s.tasks[task].picked.value == s.stored)
  {
    AdvanceExactly(config, Step(config, s, Accept(true)), Advance(task, saveOk));
  }
}
