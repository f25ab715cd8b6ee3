/**
 * The escrow and dispute services: they rewrite rows step by step around ledger submissions, any of which may fail.
 */
module EscrowServices {
  import opened Common
  import opened EscrowLedger
  import opened EscrowProtocol

  class EscrowRepository {
    var escrows: map<EscrowId, Escrow>
    var disputes: map<DisputeId, Dispute>

    constructor ()
      ensures escrows == map[] && disputes == map[]
    {
      escrows := map[];
      disputes := map[];
    }

    method Save(id: EscrowId, e: Escrow, ok: bool) returns (saved: bool)
      modifies this`escrows
      ensures saved == ok
      ensures escrows == if ok then old(escrows)[id := e] else old(escrows)
    {
      saved := ok;
      if ok {
        escrows := escrows[id := e];
      }
    }

    method SaveDispute(d: DisputeId, dispute: Dispute, ok: bool) returns (saved: bool)
      modifies this`disputes
      ensures saved == ok
      ensures disputes == if ok then old(disputes)[d := dispute] else old(disputes)
    {
      saved := ok;
      if ok {
        disputes := disputes[d := dispute];
      }
    }
  }

  class EscrowService {
    const ledger: StellarLedger
    const repo: EscrowRepository

    constructor (ledger: StellarLedger, repo: EscrowRepository)
      ensures this.ledger == ledger && this.repo == repo
    {
      this.ledger := ledger;
      this.repo := repo;
    }

    ghost function State(): World
      reads ledger, repo
    {
      World(ledger.State(), repo.escrows, repo.disputes)
    }

    method CreateEscrow(id: EscrowId, buyer: Key, seller: Key, amount: int, env: Env) returns (error: Option<Error>)
      requires id !in repo.escrows
      modifies ledger, repo`escrows
      ensures Reply(State(), error) == EscrowProtocol.CreateEscrow(old(State()), id, buyer, seller, amount, env)
    {
      if amount <= 0 { return Some(NotPositive); }
      if buyer == seller { return Some(SameParty); }
      var escrow := Escrow(buyer, seller, amount, Pending, 0, 0, None, None, None, false, false);
      var saved := repo.Save(id, escrow, env.save1);
      if !saved { return Some(SaveFailed); }
      var ok, hash := ledger.Submit(Payment(Party(buyer), Custody(id), amount), env.net1);
      if !ok { return Some(SubmissionRefused); }
      escrow := escrow.(lockTx := Some(hash));
      escrow := escrow.(status := Locked);
      saved := repo.Save(id, escrow, env.save2);
      if !saved { return Some(SaveFailed); }
      return None;
    }

    method ReleaseFunds(id: EscrowId, env: Env) returns (error: Option<Error>)
      modifies ledger, repo`escrows
      ensures Reply(State(), error) == EscrowProtocol.ReleaseFunds(old(State()), id, env)
    {
      if id !in repo.escrows { return Some(NotFound); }
      var escrow := repo.escrows[id];
      if Released !in AllowedNext(escrow.status) { return Some(InvalidTransition); }
      var ok, hash := ledger.Submit(Payment(Custody(id), Party(escrow.seller), escrow.amount), env.net1);
      if !ok { return Some(SubmissionRefused); }
      escrow := escrow.(releaseTx := Some(hash));
      escrow := escrow.(status := Released);
      var saved := repo.Save(id, escrow, env.save1);
      if !saved { return Some(SaveFailed); }
      return None;
    }

    method RefundBuyer(id: EscrowId, env: Env) returns (error: Option<Error>)
      modifies ledger, repo`escrows
      ensures Reply(State(), error) == EscrowProtocol.RefundBuyer(old(State()), id, env)
    {
      if id !in repo.escrows { return Some(NotFound); }
      var escrow := repo.escrows[id];
      if Refunded !in AllowedNext(escrow.status) { return Some(InvalidTransition); }
      var ok, hash := ledger.Submit(Payment(Custody(id), Party(escrow.buyer), escrow.amount), env.net1);
      if !ok { return Some(SubmissionRefused); }
      escrow := escrow.(refundTx := Some(hash), refundedAmount := escrow.amount, releasedAmount := 0);
      escrow := escrow.(status := Refunded);
      var saved := repo.Save(id, escrow, env.save1);
      if !saved { return Some(SaveFailed); }
      return None;
    }

    // The two payments both split payouts make. A share that is not positive is skipped.
    method PayShares(id: EscrowId, escrow: Escrow, toSeller: int, toBuyer: int, env: Env)
      returns (done: bool, releaseHash: Option<nat>, refundHash: Option<nat>)
      modifies ledger
      ensures (ledger.State(), done) == Split(old(ledger.State()), id, escrow, toSeller, toBuyer, env)
      ensures done ==> releaseHash == TxIf(toSeller, |old(ledger.log)|)
      ensures done ==> refundHash == TxIf(toBuyer, if toSeller > 0 then |old(ledger.log)| + 1 else |old(ledger.log)|)
    {
      done, releaseHash, refundHash := false, None, None;
      if toSeller > 0 {
        var ok, hash := ledger.Submit(Payment(Custody(id), Party(escrow.seller), toSeller), env.net1);
        if !ok { return; }
        releaseHash := Some(hash);
      }
      if toBuyer > 0 {
        var ok, hash := ledger.Submit(Payment(Custody(id), Party(escrow.buyer), toBuyer), env.net2);
        if !ok { return; }
        refundHash := Some(hash);
      }
      done := true;
    }

    method ReleasePartial(id: EscrowId, released: int, env: Env) returns (error: Option<Error>)
      modifies ledger, repo`escrows
      ensures Reply(State(), error) == PartialRelease(old(State()), id, released, env)
    {
      if id !in repo.escrows { return Some(NotFound); }
      var escrow := repo.escrows[id];
      if PartiallyReleased !in AllowedNext(escrow.status) { return Some(InvalidTransition); }
      if released <= 0 { return Some(NotPositive); }
      if released > escrow.amount { return Some(ExceedsAmount); }
      var refund := escrow.amount - released;
      var done, releaseHash, refundHash := PayShares(id, escrow, released, refund, env);
      error := Some(SubmissionRefused);
      if done {
        escrow := escrow.(releaseTx := releaseHash, refundTx := refundHash);
        escrow := escrow.(releasedAmount := released, refundedAmount := refund);
        escrow := escrow.(status := if refund > 0 then PartiallyReleased else Released);
        var saved := repo.Save(id, escrow, env.save1);
        if saved { return None; }
        error := Some(SaveFailed);
      }
      var _ := repo.Save(id, escrow.(failed := true), env.save2);
    }

    method FreezeEscrow(id: EscrowId, env: Env) returns (error: Option<Error>)
      modifies repo`escrows
      ensures Reply(State(), error) == EscrowProtocol.FreezeEscrow(old(State()), id, env)
    {
      if id !in repo.escrows { return Some(NotFound); }
      var escrow := repo.escrows[id];
      if Frozen !in AllowedNext(escrow.status) { return Some(InvalidTransition); }
      var saved := repo.Save(id, escrow.(status := Frozen), env.save1);
      if !saved { return Some(SaveFailed); }
      return None;
    }

    method AdminReleaseFunds(id: EscrowId, toSeller: int, toBuyer: int, env: Env) returns (error: Option<Error>)
      modifies ledger, repo`escrows
      ensures Reply(State(), error) == EscrowProtocol.AdminReleaseFunds(old(State()), id, toSeller, toBuyer, env)
    {
      if id !in repo.escrows { return Some(NotFound); }
      var escrow := repo.escrows[id];
      if escrow.status != Frozen { return Some(NotFrozen); }
      if toSeller + toBuyer != escrow.amount { return Some(BadDistribution); }
      var done, releaseHash, refundHash := PayShares(id, escrow, toSeller, toBuyer, env);
      error := Some(SubmissionRefused);
      if done {
        escrow := escrow.(releaseTx := releaseHash, refundTx := refundHash);
        escrow := escrow.(status := Released);
        var saved := repo.Save(id, escrow, env.save1);
        if saved { return None; }
        error := Some(SaveFailed);
      }
      var _ := repo.Save(id, escrow.(failed := true), env.save2);
    }
  }

  class DisputesService {
    const escrows: EscrowService
    const repo: EscrowRepository

    constructor (escrows: EscrowService)
      ensures this.escrows == escrows && repo == escrows.repo
    {
      this.escrows := escrows;
      this.repo := escrows.repo;
    }

    method CreateDispute(d: DisputeId, escrow: Option<EscrowId>, env: Env) returns (error: Option<Error>)
      requires repo == escrows.repo && d !in repo.disputes
      modifies repo
      ensures Reply(escrows.State(), error) == OpenDisputeCall(old(escrows.State()), d, escrow, env)
    {
      var filed := repo.SaveDispute(d, Dispute(Open, escrow), env.saveDispute);
      if !filed { return Some(SaveFailed); }
      if escrow.Some? {
        error := escrows.FreezeEscrow(escrow.value, env);
        if error.Some? { return; }
        var row := repo.escrows[escrow.value];
        var saved := repo.Save(escrow.value, row.(disputeFlag := true), env.save2);
        if !saved { return Some(SaveFailed); }
      }
      return None;
    }

    method AdminUpdateDispute(d: DisputeId, status: DisputeStatus, env: Env) returns (error: Option<Error>)
      requires repo == escrows.repo
      modifies repo`disputes
      ensures Reply(escrows.State(), error) == UpdateDisputeCall(old(escrows.State()), d, status, env)
    {
      if d !in repo.disputes { return Some(NotFound); }
      var dispute := repo.disputes[d];
      if !CanTransition(dispute.status, status) { return Some(InvalidTransition); }
      var saved := repo.SaveDispute(d, dispute.(status := status), env.saveDispute);
      return if saved then None else Some(SaveFailed);
    }

    method AdminResolveDispute(d: DisputeId, refund: int, env: Env) returns (error: Option<Error>)
      requires repo == escrows.repo
      modifies repo, escrows.ledger
      ensures Reply(escrows.State(), error) == ResolveDisputeCall(old(escrows.State()), d, refund, env)
    {
      if d !in repo.disputes { return Some(NotFound); }
      var dispute := repo.disputes[d];
      if !CanTransition(dispute.status, Resolved) { return Some(InvalidTransition); }
      if dispute.escrowId.Some? {
        var id := dispute.escrowId.value;
        if id !in repo.escrows { return Some(NotFound); }
        var total := repo.escrows[id].amount;
        error := escrows.AdminReleaseFunds(id, total - refund, refund, env);
        if error.Some? { return; }
      }
      var saved := repo.SaveDispute(d, dispute.(status := Resolved), env.saveDispute);
      return if saved then None else Some(SaveFailed);
    }
  }
}
