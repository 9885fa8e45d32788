/**
 The module variables of backend/app/routes/simulate.py and the row they are saved in, updated in place:
 one method for each stretch of code between two awaits, and each one step of SimulationCursor.
 */
module SimulationProducers {
  import opened Options
  import opened SimulationCursor

  class SimulationProducer {
    const config: Config
    var simIndex: nat
    var simBatchCount: nat
    var simIndexRow: nat
    var activeCount: nat
    var tasks: seq<Task>
    var producerTask: Option<nat>
    ghost var synced: bool
    ghost var failedSaves: nat
    ghost var produced: set<nat>

    ghost function View(): State
      reads this
    {
      State(simIndex, simBatchCount, simIndexRow, activeCount, tasks, producerTask, synced, failedSaves, produced)
    }

    constructor (config: Config)
      ensures View() == START && this.config == config
    {
      this.config := config;
      simIndex, simBatchCount, simIndexRow, activeCount, tasks, producerTask := 0, 0, 0, 0, [], None;
      synced, failedSaves, produced := false, 0, {};
    }

    method LoadSimIndex(ok: bool)
      modifies this`simIndex, this`synced
      ensures View() == Load(old(View()), ok)
    {
      if ok {
        simIndex, synced := simIndexRow, true;
      }
    }

    method SaveSimIndex(ok: bool)
      modifies this`simBatchCount, this`simIndexRow, this`synced, this`failedSaves
      ensures View() == Save(old(View()), ok)
    {
      simBatchCount := simBatchCount + 1;
      if simBatchCount >= BATCH_SIZE {
        if ok {
          simIndexRow := simIndex;
          simBatchCount, synced, failedSaves := 0, true, 0;
        } else {
          failedSaves := failedSaves + 1;
        }
      }
    }

    method EnsureProducerStarted()
      modifies this`tasks, this`producerTask
      ensures View() == EnsureProducer(old(View()))
    {
      if producerTask.None? || producerTask.value >= |tasks| || tasks[producerTask.value] == Over {
        producerTask := Some(|tasks|);
        tasks := tasks + [Created];
      }
    }

    // ---- A dashboard's connection ----

    method SimulateStreamAccepts(loadOk: bool)
      modifies this`simIndex, this`synced
      ensures View() == Step(config, old(View()), Accept(loadOk))
    {
      LoadSimIndex(loadOk);
    }

    method SimulateStreamJoins()
      modifies this`activeCount, this`tasks, this`producerTask
      ensures View() == Step(config, old(View()), Join)
    {
      activeCount := activeCount + 1;
      if config.total > 0 && !config.portalOnly {
        EnsureProducerStarted();
      }
    }

    method SimulateStreamLeaves()
      modifies this`activeCount
      ensures View() == Step(config, old(View()), Leave)
    {
      if activeCount > 0 {
        activeCount := activeCount - 1;
      }
    }

    // ---- The producer loop ----

    method ProducerBegins(task: nat, loadOk: bool)
      requires task < |tasks| && tasks[task] == Created
      modifies this`simIndex, this`synced, this`tasks
      ensures View() == Step(config, old(View()), Begin(task, loadOk))
    {
      LoadSimIndex(loadOk);
      tasks := tasks[task := if config.total == 0 then Over else Looping(None)];
    }

    /** The head of the loop: stop when no dashboard is left, or pick the next event. */
    method ProducerTurns(task: nat) returns (picked: Option<nat>)
      requires IsLooping(View(), task, true) && config.total > 0
      modifies this`tasks
      ensures View() == Step(config, old(View()), if old(activeCount) > 0 then Pick(task) else Stop(task))
      ensures picked == if old(activeCount) > 0 then Some(simIndex % config.total) else None
    {
      if activeCount > 0 {
        tasks := tasks[task := Looping(Some(simIndex))];
        return Some(simIndex % config.total);
      }
      tasks := tasks[task := Over];
      return None;
    }

    /** The rest of the loop body, after the event is out or an exception was logged. */
    method ProducerCounts(task: nat, produceOk: bool, saveOk: bool)
      requires IsLooping(View(), task, false)
      modifies this
      ensures View() == Step(config, old(View()), if produceOk then Advance(task, saveOk) else Abandon(task))
    {
      ghost var event := tasks[task].picked.value;
      tasks := tasks[task := Looping(None)];
      if produceOk {
        produced := produced + {event};
        simIndex := simIndex + 1;
        SaveSimIndex(saveOk);
      }
    }

    // ---- routes/admin.py, as far as it concerns the simulation ----

    method ConfirmReset()
      modifies this`simIndexRow, this`simIndex, this`simBatchCount, this`synced, this`failedSaves, this`produced
      ensures View() == Step(config, old(View()), Reset)
    {
      simIndexRow := 0;
      simIndex := 0;
      simBatchCount := 0;
      synced, failedSaves, produced := true, 0, {};
    }
  }
}
