/**
 Infrastructure credentials of backend/app/vault_infra_client.py. A rotation of a database service revokes
 the lease that is tracked and issues another; either call can fail. Kafka has a KV secret instead.
 */
module InfraLeases {
  /** Lease k was issued for issued[k]; `tracked` is _active_leases; `rotations` is
      _infra_rotation_count; `kafkaCount` is the count in the Kafka secret. */
  datatype State = State(issued: seq<string>, revoked: set<nat>, tracked: map<string, nat>, rotations: nat,
                         kafkaCount: nat)

  const START := State([], {}, map[], 0, 0)
  const KAFKA := "kafka"

  datatype Op =
    | Rotate(service: string, connected: bool, revokeOk: bool, issueOk: bool)
    | Restart

  /** `revoked` says whether a previous lease was revoked, `lease` which one was issued. */
  datatype Reply =
    | NotConnected
    | KafkaRotated(success: bool, number: nat)
    | IssueFailed(revoked: bool)
    | Leased(number: nat, lease: nat, revoked: bool)
    | Restarted

  function Revoke(s: State, service: string, ok: bool): State {
    if service in s.tracked && ok then s.(revoked := s.revoked + {s.tracked[service]}) else s
  }

  function Step(s: State, op: Op): (State, Reply) {
    match op
    case Restart => (s.(tracked := map[], rotations := 0), Restarted)
    case Rotate(service, connected, revokeOk, issueOk) =>
      if !connected then (s, NotConnected)
      else if service == KAFKA then
        (s.(rotations := s.rotations + 1, kafkaCount := s.kafkaCount + if issueOk then 1 else 0),
         KafkaRotated(issueOk, s.rotations + 1))
      else
        var t := Revoke(s, service, revokeOk);
        var revoked := service in s.tracked && revokeOk;
        if !issueOk then (t, IssueFailed(revoked))
        else (State(t.issued + [service], t.revoked, t.tracked[service := |t.issued|], t.rotations + 1, t.kafkaCount),
              Leased(t.rotations + 1, |t.issued|, revoked))
  }

  function Run(ops: seq<Op>): State
    decreases |ops|
  {
    if ops == [] then START else Step(Run(ops[..|ops| - 1]), ops[|ops| - 1]).0
  }

  /** The leases of a service that Vault still honours. */
  function Unrevoked(s: State, service: string): set<nat> {
    set k | 0 <= k < |s.issued| && s.issued[k] == service && k !in s.revoked
  }

  /** The tracked lease, if Vault still honours it. */
  function Live(s: State, service: string): set<nat> {
    if service in s.tracked && s.tracked[service] !in s.revoked then {s.tracked[service]} else {}
  }

  predicate Valid(s: State) {
    && KAFKA !in s.tracked
    && (forall service <- s.tracked :: s.tracked[service] < |s.issued| && s.issued[s.tracked[service]] == service)
    && (forall k <- s.revoked :: k < |s.issued|)
  }

  lemma StepKeepsValid(s: State, op: Op)
    requires Valid(s)
    ensures Valid(Step(s, op).0)
  {
  }

  /** In every run Kafka is never tracked, and a tracked lease is one issued for its service. */
  lemma {:induction false} RunIsValid(ops: seq<Op>)
    ensures Valid(Run(ops))
    decreases |ops|
  {
    if ops != [] {
      RunIsValid(ops[..|ops| - 1]);
      StepKeepsValid(Run(ops[..|ops| - 1]), ops[|ops| - 1]);
    }
  }

  // ---- Leases that get lost ----

  /** The operation replaces or forgets a tracked lease of the service that is still honoured: a
      rotation whose revocation fails and whose issue succeeds, or a restart. */
  predicate Loses(s: State, op: Op, service: string) {
    && Live(s, service) != {}
    && (op.Restart? || (op.service == service && op.connected && !op.revokeOk && op.issueOk))
  }

  /** The revocation of a lease of this service fails. */
  predicate FailsToRevoke(s: State, op: Op, service: string) {
    op.Rotate? && op.service == service && op.connected && service in s.tracked && !op.revokeOk
  }

  function Lost(ops: seq<Op>, service: string): nat
    decreases |ops|
  {
    if ops == [] then 0
    else Lost(ops[..|ops| - 1], service) + if Loses(Run(ops[..|ops| - 1]), ops[|ops| - 1], service) then 1 else 0
  }

  function FailedRevocations(ops: seq<Op>, service: string): nat
    decreases |ops|
  {
    if ops == [] then 0
    else
      FailedRevocations(ops[..|ops| - 1], service)
      + if FailsToRevoke(Run(ops[..|ops| - 1]), ops[|ops| - 1], service) then 1 else 0
  }

  function Restarts(ops: seq<Op>): nat {
    if ops == [] then 0 else Restarts(ops[..|ops| - 1]) + if ops[|ops| - 1].Restart? then 1 else 0
  }

  // What one step does to the honoured leases of a service.
  lemma UnrevokedAfterStep(s: State, op: Op, service: string)
    requires Valid(s) && service != KAFKA
    ensures Unrevoked(Step(s, op).0, service)
            == if !op.Rotate? || !op.connected || op.service != service then Unrevoked(s, service)
               else (Unrevoked(s, service) - if op.revokeOk then Live(s, service) else {})
                    + if op.issueOk then {|s.issued|} else {}
  {
    var t := Step(s, op).0;
    if op.Rotate? && op.connected && op.service != KAFKA {
      if op.issueOk {
        assert t.issued[..|s.issued|] == s.issued && t.issued[|s.issued|] == op.service;
      }
      if op.service in s.tracked && op.revokeOk {
        assert t.revoked == s.revoked + {s.tracked[op.service]};
      }
    }
  }

  lemma LiveAfterStep(s: State, op: Op, service: string)
    requires Valid(s) && service != KAFKA
    ensures Live(Step(s, op).0, service)
            == if op.Restart? then {}
               else if !op.connected || op.service != service then Live(s, service)
               else if op.issueOk then {|s.issued|}
               else if op.revokeOk then {} else Live(s, service)
  {
  }

  lemma LiveIsUnrevoked(s: State, service: string)
    requires Valid(s)
    ensures Live(s, service) <= Unrevoked(s, service) && |Live(s, service)| <= 1
    ensures |s.issued| !in Unrevoked(s, service)
  {
  }

  lemma OneStepAccount(s: State, op: Op, service: string)
    requires Valid(s) && service != KAFKA
    ensures var t := Step(s, op).0;
            |Unrevoked(t, service)| - |Live(t, service)|
            == |Unrevoked(s, service)| - |Live(s, service)| + if Loses(s, op, service) then 1 else 0
  {
    UnrevokedAfterStep(s, op, service);
    LiveAfterStep(s, op, service);
    LiveIsUnrevoked(s, service);
    var rest := Unrevoked(s, service) - Live(s, service);
    assert |rest| == |Unrevoked(s, service)| - |Live(s, service)|;
  }

  /** Exact accounting over every run of rotations with failing calls, and restarts: the leases Vault
      still honours for a service are the tracked one, if it is still honoured, and those lost. */
  lemma {:induction false} LeaseAccounting(ops: seq<Op>, service: string)
    requires service != KAFKA
    ensures |Unrevoked(Run(ops), service)| == Lost(ops, service) + |Live(Run(ops), service)|
    decreases |ops|
  {
    if ops == [] {
      assert Unrevoked(START, service) == {};
    } else {
      LeaseAccounting(ops[..|ops| - 1], service);
      RunIsValid(ops[..|ops| - 1]);
      OneStepAccount(Run(ops[..|ops| - 1]), ops[|ops| - 1], service);
    }
  }

  lemma {:induction false} LossesAreFailures(ops: seq<Op>, service: string)
    ensures Lost(ops, service) <= FailedRevocations(ops, service) + Restarts(ops)
    decreases |ops|
  {
    if ops != [] {
      LossesAreFailures(ops[..|ops| - 1], service);
    }
  }

  /** The bound: at most one lease, and one more for each failed revocation and each restart. */
  lemma UnrevokedIsBounded(ops: seq<Op>, service: string)
    requires service != KAFKA
    ensures |Unrevoked(Run(ops), service)| <= 1 + FailedRevocations(ops, service) + Restarts(ops)
  {
    LeaseAccounting(ops, service);
    LossesAreFailures(ops, service);
    RunIsValid(ops);
    LiveIsUnrevoked(Run(ops), service);
  }

  /** Nothing was lost if and only if the honoured leases are exactly the tracked one. */
  lemma NothingLostExactly(ops: seq<Op>, service: string)
    requires service != KAFKA
    ensures Lost(ops, service) == 0 <==> Unrevoked(Run(ops), service) == Live(Run(ops), service)
  {
    LeaseAccounting(ops, service);
    RunIsValid(ops);
    LiveIsUnrevoked(Run(ops), service);
    var rest := Unrevoked(Run(ops), service) - Live(Run(ops), service);
    assert |rest| == Lost(ops, service);
    assert rest == {} ==> Unrevoked(Run(ops), service) == Live(Run(ops), service);
  }

  predicate NoFailures(ops: seq<Op>) {
    forall op <- ops :: op.Rotate? && (op.connected ==> op.revokeOk && op.issueOk)
  }

  lemma {:induction false} TrackedStayLive(ops: seq<Op>, service: string)
    requires NoFailures(ops) && service in Run(ops).tracked
    ensures Live(Run(ops), service) == {Run(ops).tracked[service]}
    decreases |ops|
  {
    if ops != [] {
      var init, op := ops[..|ops| - 1], ops[|ops| - 1];
      assert op in ops && NoFailures(init);
      RunIsValid(init);
      LiveAfterStep(Run(init), op, service);
      if service in Run(init).tracked {
        TrackedStayLive(init, service);
      }
      assert service == KAFKA ==> service !in Run(init).tracked;
    }
  }

  /** Without failures the honoured leases of a service are exactly the tracked one, or none if none is
      tracked; Kafka has none in any case. */
  lemma WithoutFailuresTrackedIsAll(ops: seq<Op>, service: string)
    requires NoFailures(ops)
    ensures Unrevoked(Run(ops), service)
            == if service in Run(ops).tracked then {Run(ops).tracked[service]} else {}
  {
    if service == KAFKA {
      KafkaHasNoLease(ops);
    } else {
      NoFailureNoLoss(ops, service);
      NothingLostExactly(ops, service);
      if service in Run(ops).tracked {
        TrackedStayLive(ops, service);
      }
    }
  }

  lemma {:induction false} NoFailureNoLoss(ops: seq<Op>, service: string)
    requires NoFailures(ops)
    ensures Lost(ops, service) == 0
    decreases |ops|
  {
    if ops != [] {
      assert ops[|ops| - 1] in ops && NoFailures(ops[..|ops| - 1]);
      NoFailureNoLoss(ops[..|ops| - 1], service);
    }
  }

  lemma {:induction false} KafkaHasNoLease(ops: seq<Op>)
    ensures KAFKA !in Run(ops).tracked && Unrevoked(Run(ops), KAFKA) == {}
    decreases |ops|
  {
    RunIsValid(ops);
    if ops != [] {
      var init, op := ops[..|ops| - 1], ops[|ops| - 1];
      KafkaHasNoLease(init);
      var s, t := Run(init), Run(ops);
      forall k | 0 <= k < |t.issued| ensures t.issued[k] != KAFKA || k in t.revoked {
        if k < |s.issued| {
          assert k !in Unrevoked(s, KAFKA);
        }
      }
    }
  }

  // ---- The rotation count ----

  /** A rotation that counts: one that issued a lease, or any for Kafka, even one that failed. */
  predicate Counts(op: Op) {
    op.Rotate? && op.connected && (op.service == KAFKA || op.issueOk)
  }

  function CountedSinceRestart(ops: seq<Op>): nat {
    if ops == [] || ops[|ops| - 1].Restart? then 0
    else CountedSinceRestart(ops[..|ops| - 1]) + if Counts(ops[|ops| - 1]) then 1 else 0
  }

  /** The number a rotation reports is how many since the restart were counted. */
  lemma {:induction false} RotationsAreCounted(ops: seq<Op>)
    ensures Run(ops).rotations == CountedSinceRestart(ops)
    decreases |ops|
  {
    if ops != [] {
      RotationsAreCounted(ops[..|ops| - 1]);
    }
  }
}
