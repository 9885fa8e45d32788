/**
 rotate_infrastructure_credentials with its module variables and Vault's leases updated in place. Every
 call is one step of InfraLeases.
 */
module InfraClients {
  import opened Options
  import opened InfraLeases

  /** Vault's database engine, which issues and revokes leases, and the Kafka secret. */
  class Vault {
    var issued: seq<string>
    var revoked: set<nat>
    var kafkaCount: nat

    constructor ()
      ensures issued == [] && revoked == {} && kafkaCount == 0
    {
      issued, revoked, kafkaCount := [], {}, 0;
    }

    method GenerateCredentials(service: string, ok: bool) returns (lease: Option<nat>)
      modifies this`issued
      ensures lease == if ok then Some(|old(issued)|) else None
      ensures issued == if ok then old(issued) + [service] else old(issued)
    {
      if !ok {
        return None;
      }
      issued := issued + [service];
      return Some(|issued| - 1);
    }

    method RevokeLease(lease: nat, ok: bool)
      modifies this`revoked
      ensures revoked == if ok then old(revoked) + {lease} else old(revoked)
    {
      if ok {
        revoked := revoked + {lease};
      }
    }

    method RotateKafkaSecret(ok: bool)
      modifies this`kafkaCount
      ensures kafkaCount == old(kafkaCount) + if ok then 1 else 0
    {
      if ok {
        kafkaCount := kafkaCount + 1;
      }
    }
  }

  class InfraClient {
    const vault: Vault
    var activeLeases: map<string, nat>
    var infraRotationCount: nat

    /** A restarted backend, with Vault as it was. */
    constructor (vault: Vault)
      ensures this.vault == vault
      ensures forall s: State ::
                s.issued == vault.issued && s.revoked == vault.revoked && s.kafkaCount == vault.kafkaCount ==>
                  View() == Step(s, Restart).0
    {
      this.vault, activeLeases, infraRotationCount := vault, map[], 0;
    }

    function View(): State
      reads this, vault
    {
      State(vault.issued, vault.revoked, activeLeases, infraRotationCount, vault.kafkaCount)
    }

    method RotateInfrastructureCredentials(op: Op) returns (reply: Reply)
      requires op.Rotate?
      modifies this, vault
      ensures (View(), reply) == Step(old(View()), op)
    {
      if !op.connected {
        return NotConnected;
      }
      if op.service == KAFKA {
        vault.RotateKafkaSecret(op.issueOk);
        infraRotationCount := infraRotationCount + 1;
        return KafkaRotated(op.issueOk, infraRotationCount);
      }
      var revoked := false;
      if op.service in activeLeases {
        vault.RevokeLease(activeLeases[op.service], op.revokeOk);
        revoked := op.revokeOk;
      }
      var lease := vault.GenerateCredentials(op.service, op.issueOk);
      if lease.None? {
        return IssueFailed(revoked);
      }
      activeLeases := activeLeases[op.service := lease.value];
      infraRotationCount := infraRotationCount + 1;
      return Leased(infraRotationCount, lease.value, revoked);
    }
  }
}
