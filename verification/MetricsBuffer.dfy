/**
 The metric variables of one pod and the metrics row, updated in place as in
 backend/app/threat_engine.py. Each locked section is one method and takes one step of
 MetricsProtocol; `FlushMetricsToDb` is the whole flush when no other thread interferes.
 */
module MetricsBuffers {
  import opened ThreatActions
  import opened MetricsProtocol

  /** hpe_pipeline_metrics, row 1. */
  class MetricsRow {
    var totals: Totals
    var attackTypes: Attacks

    constructor ()
      ensures View() == NOTHING
    {
      totals, attackTypes := ZERO, multiset{};
    }

    function View(): Counts
      reads this
    {
      Counts(totals, attackTypes)
    }
  }

  // The dictionary loop that adds one attack_types dictionary to another.
  method AddAttackTypes(current: Attacks, deltas: Attacks) returns (merged: Attacks)
    ensures merged == current + deltas
  {
    merged := current;
    var todo := deltas;
    while todo != multiset{}
      invariant merged + todo == current + deltas
      decreases |todo|
    {
      var kind :| kind in todo;
      var count := todo[kind];
      merged := merged[kind := merged[kind] + count];
      todo := todo[kind := 0];
    }
  }

  class PodMetrics {
    var requests: int
    var threats: int
    var allowed: int
    var monitored: int
    var blocked: int
    var critical: int
    var attackTypes: Attacks
    var pendingUpdates: nat
    ghost var owners: seq<nat>

    constructor ()
      ensures View() == EMPTY_POD
    {
      requests, threats, allowed, monitored, blocked, critical := 0, 0, 0, 0, 0, 0;
      attackTypes, pendingUpdates, owners := multiset{}, 0, [];
    }

    function Deltas(): Counts
      reads this
    {
      Counts(Totals(requests, threats, allowed, monitored, blocked, critical), attackTypes)
    }

    ghost function View(): Pod
      reads this
    {
      Pod(Deltas(), pendingUpdates, owners)
    }

    /** The counter section of process_event, under the lock. */
    method CountEvent(e: Event, ghost worker: nat)
      modifies this
      ensures View() == AddEvent(old(View()), e, worker)
    {
      CountTotals(e);
      if e.isThreat && e.attackType != "" {
        attackTypes := attackTypes[e.attackType := attackTypes[e.attackType] + 1];
      }
      assert attackTypes == old(attackTypes) + CountsOf(e).attacks;
      owners := owners + [worker];
    }

    method CountTotals(e: Event)
      modifies `requests, `threats, `allowed, `monitored, `blocked, `critical
      ensures Deltas().totals == PlusTotals(old(Deltas().totals), CountsOf(e).totals)
    {
      requests := requests + 1;
      if e.isThreat {
        threats := threats + 1;
      }
      match e.action {
        case Allow => allowed := allowed + 1;
        case Monitor => monitored := monitored + 1;
        case Block => blocked := blocked + 1;
        case CriticalAlert => critical := critical + 1;
      }
    }

    /** One half of the unlocked increment; the other is a read of the field. */
    method StorePendingUpdates(seen: nat)
      modifies this`pendingUpdates
      ensures View() == old(View()).(pending := seen + 1)
    {
      pendingUpdates := seen + 1;
    }

    method TakeSnapshot() returns (snapshot: Counts)
      modifies this
      ensures snapshot == old(View()).deltas && View() == EMPTY_POD
    {
      snapshot := Deltas();
      ResetLocalDeltas();
    }

    method ResetLocalDeltas()
      modifies this
      ensures View() == EMPTY_POD
    {
      requests, threats, allowed, monitored, blocked, critical := 0, 0, 0, 0, 0, 0;
      attackTypes := multiset{};
      pendingUpdates := 0;
      owners := [];
    }

    /** With a pending counter of 0 nothing happens. Otherwise the deltas leave this pod whatever the
        database does: all of them reach the row if no query fails, the totals alone if only the
        attack-type queries fail, and nothing if the increment fails. */
    method FlushMetricsToDb(row: MetricsRow, incrementOk: bool, readOk: bool, writeOk: bool)
      modifies this, row
      ensures old(pendingUpdates) == 0 ==> View() == old(View()) && row.View() == old(row.View())
      ensures old(pendingUpdates) != 0 ==> View() == EMPTY_POD
      ensures old(pendingUpdates) != 0 ==>
                row.View() ==
                if !incrementOk then old(row.View())
                else if readOk && writeOk then Plus(old(row.View()), old(Deltas()))
                else Plus(old(row.View()), old(Deltas()).(attacks := multiset{}))
    {
      if pendingUpdates == 0 {
        return;
      }
      var deltas := TakeSnapshot();
      if !incrementOk {
        return;
      }
      row.totals := PlusTotals(row.totals, deltas.totals);
      if deltas.attacks != multiset{} {
        if !readOk {
          return;
        }
        var current := AddAttackTypes(row.attackTypes, deltas.attacks);
        if !writeOk {
          return;
        }
        row.attackTypes := current;
      }
    }

    /** The database path of get_metrics, with the row as read. */
    method GetMetrics(row: Counts) returns (metrics: Counts)
      ensures metrics == Plus(row, Deltas())
    {
      var attackTypesSeen := AddAttackTypes(row.attacks, attackTypes);
      metrics := Counts(Totals(row.totals.requests + requests, row.totals.threats + threats,
                               row.totals.allowed + allowed, row.totals.monitored + monitored,
                               row.totals.blocked + blocked, row.totals.critical + critical), attackTypesSeen);
    }
  }
}
