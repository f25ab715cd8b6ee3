/**
 * Escrow rows, dispute rows and the ledger, the effect of each service call on them (including calls that fail
 * half-way), and what every run keeps.
 */
module EscrowProtocol {
  import opened Common
  import opened EscrowLedger

  type DisputeId = string

  datatype EscrowStatus = Pending | Locked | Released | Refunded | Cancelled | Frozen | PartiallyReleased

  datatype Escrow = Escrow(buyer: Key, seller: Key, amount: int, status: EscrowStatus,
                           releasedAmount: int, refundedAmount: int,
                           lockTx: Option<nat>, releaseTx: Option<nat>, refundTx: Option<nat>,
                           failed: bool, disputeFlag: bool)

  datatype DisputeStatus = Open | Escalated | Resolved | Rejected | AutoResolved

  datatype Dispute = Dispute(status: DisputeStatus, escrowId: Option<EscrowId>)

  datatype World = World(ledger: Ledger, escrows: map<EscrowId, Escrow>, disputes: map<DisputeId, Dispute>)

  datatype Error =
    | NotFound | InvalidTransition | NotPositive | SameParty | ExceedsAmount | BadDistribution
    | NotFrozen | SubmissionRefused | SaveFailed

  datatype Reply = Reply(world: World, error: Option<Error>)

  // Whether the first and second ledger submission, the escrow's save, the save after it (the error handler's, or the
  // dispute flag's) and the dispute's own save go through.
  datatype Env = Env(net1: bool, net2: bool, save1: bool, save2: bool, saveDispute: bool)

  datatype Step =
    | Create(id: EscrowId, buyer: Key, seller: Key, amount: int, env: Env)
    | Release(id: EscrowId, env: Env)
    | ReleasePartial(id: EscrowId, released: int, env: Env)
    | Freeze(id: EscrowId, env: Env)
    | AdminRelease(id: EscrowId, toSeller: int, toBuyer: int, env: Env)
    | Refund(id: EscrowId, env: Env)
    | OpenDispute(dispute: DisputeId, escrow: Option<EscrowId>, env: Env)
    | UpdateDispute(dispute: DisputeId, status: DisputeStatus, env: Env)
    | ResolveDispute(dispute: DisputeId, refund: int, env: Env)

  // ---------------------------------------------------------------- transition tables

  function AllowedNext(s: EscrowStatus): set<EscrowStatus> {
    match s
    case Pending => {Locked, Cancelled}
    case Locked => {Released, Refunded, Frozen, PartiallyReleased}
    case Released => {}
    case Refunded => {}
    case Cancelled => {}
    case Frozen => {Locked, Refunded}
    case PartiallyReleased => {Released, Refunded}
  }

  predicate CanTransition(from: DisputeStatus, to: DisputeStatus) {
    match from
    case Open => to != Open
    case Escalated => to == Resolved || to == Rejected
    case _ => false
  }

  // ---------------------------------------------------------------- service calls

  function SetRow(w: World, id: EscrowId, e: Escrow): World {
    w.(escrows := w.escrows[id := e])
  }

  function CreateEscrow(w: World, id: EscrowId, buyer: Key, seller: Key, amount: int, env: Env): Reply {
    if amount <= 0 then Reply(w, Some(NotPositive))
    else if buyer == seller then Reply(w, Some(SameParty))
    else if !env.save1 then Reply(w, Some(SaveFailed))
    else
      var e := Escrow(buyer, seller, amount, Pending, 0, 0, None, None, None, false, false);
      var lock := Payment(Party(buyer), Custody(id), amount);
      if !Accepts(w.ledger, lock, env.net1) then Reply(SetRow(w, id, e), Some(SubmissionRefused))
      else
        var paid := SetRow(w, id, e).(ledger := Pay(w.ledger, lock));
        if !env.save2 then Reply(paid, Some(SaveFailed))
        else Reply(SetRow(paid, id, e.(status := Locked, lockTx := Some(|w.ledger.log|))), None)
  }

  function ReleaseFunds(w: World, id: EscrowId, env: Env): Reply {
    if id !in w.escrows then Reply(w, Some(NotFound))
    else
      var e := w.escrows[id];
      var pay := Payment(Custody(id), Party(e.seller), e.amount);
      if Released !in AllowedNext(e.status) then Reply(w, Some(InvalidTransition))
      else if !Accepts(w.ledger, pay, env.net1) then Reply(w, Some(SubmissionRefused))
      else
        var paid := w.(ledger := Pay(w.ledger, pay));
        if !env.save1 then Reply(paid, Some(SaveFailed))
        else Reply(SetRow(paid, id, e.(status := Released, releaseTx := Some(|w.ledger.log|))), None)
  }

  function RefundBuyer(w: World, id: EscrowId, env: Env): Reply {
    if id !in w.escrows then Reply(w, Some(NotFound))
    else
      var e := w.escrows[id];
      var pay := Payment(Custody(id), Party(e.buyer), e.amount);
      if Refunded !in AllowedNext(e.status) then Reply(w, Some(InvalidTransition))
      else if !Accepts(w.ledger, pay, env.net1) then Reply(w, Some(SubmissionRefused))
      else
        var paid := w.(ledger := Pay(w.ledger, pay));
        if !env.save1 then Reply(paid, Some(SaveFailed))
        else Reply(SetRow(paid, id, e.(status := Refunded, refundTx := Some(|w.ledger.log|),
                                       refundedAmount := e.amount, releasedAmount := 0)), None)
  }

  // The error handler shared by the two split payouts records the failure on the row as it stands in memory.
  function Caught(w: World, id: EscrowId, e: Escrow, save: bool, error: Error): Reply {
    Reply(if save then SetRow(w, id, e.(failed := true)) else w, Some(error))
  }

  // A split payout: seller first when due, then buyer when due. None when a submission is refused, in which case
  // the first component still holds what had been paid by then.
  function Split(l: Ledger, id: EscrowId, e: Escrow, toSeller: int, toBuyer: int, env: Env): (Ledger, bool) {
    var first := Payment(Custody(id), Party(e.seller), toSeller);
    var second := Payment(Custody(id), Party(e.buyer), toBuyer);
    if toSeller > 0 && !Accepts(l, first, env.net1) then (l, false)
    else
      var l1 := if toSeller > 0 then Pay(l, first) else l;
      if toBuyer > 0 && !Accepts(l1, second, env.net2) then (l1, false)
      else (if toBuyer > 0 then Pay(l1, second) else l1, true)
  }

  function TxIf(due: int, index: nat): Option<nat> {
    if due > 0 then Some(index) else None
  }

  function SplitRow(e: Escrow, toSeller: int, toBuyer: int, index: nat, status: EscrowStatus): Escrow {
    e.(status := status, releaseTx := TxIf(toSeller, index),
       refundTx := TxIf(toBuyer, if toSeller > 0 then index + 1 else index))
  }

  function PartialRelease(w: World, id: EscrowId, released: int, env: Env): Reply {
    if id !in w.escrows then Reply(w, Some(NotFound))
    else
      var e := w.escrows[id];
      if PartiallyReleased !in AllowedNext(e.status) then Reply(w, Some(InvalidTransition))
      else if released <= 0 then Reply(w, Some(NotPositive))
      else if released > e.amount then Reply(w, Some(ExceedsAmount))
      else
        var refund := e.amount - released;
        var (l, done) := Split(w.ledger, id, e, released, refund, env);
        var paid := w.(ledger := l);
        if !done then Caught(paid, id, e, env.save2, SubmissionRefused)
        else
          var e' := SplitRow(e, released, refund, |w.ledger.log|, if refund > 0 then PartiallyReleased else Released)
                    .(releasedAmount := released, refundedAmount := refund);
          if env.save1 then Reply(SetRow(paid, id, e'), None)
          else Caught(paid, id, e', env.save2, SaveFailed)
  }

  function FreezeEscrow(w: World, id: EscrowId, env: Env): Reply {
    if id !in w.escrows then Reply(w, Some(NotFound))
    else
      var e := w.escrows[id];
      if Frozen !in AllowedNext(e.status) then Reply(w, Some(InvalidTransition))
      else if !env.save1 then Reply(w, Some(SaveFailed))
      else Reply(SetRow(w, id, e.(status := Frozen)), None)
  }

  function AdminReleaseFunds(w: World, id: EscrowId, toSeller: int, toBuyer: int, env: Env): Reply {
    if id !in w.escrows then Reply(w, Some(NotFound))
    else
      var e := w.escrows[id];
      if e.status != Frozen then Reply(w, Some(NotFrozen))
      else if toSeller + toBuyer != e.amount then Reply(w, Some(BadDistribution))
      else
        var (l, done) := Split(w.ledger, id, e, toSeller, toBuyer, env);
        var paid := w.(ledger := l);
        if !done then Caught(paid, id, e, env.save2, SubmissionRefused)
        else
          var e' := SplitRow(e, toSeller, toBuyer, |w.ledger.log|, Released);
          if env.save1 then Reply(SetRow(paid, id, e'), None)
          else Caught(paid, id, e', env.save2, SaveFailed)
  }

  // The dispute row is saved before the escrow is frozen, and stays when freezing fails.
  function OpenDisputeCall(w: World, d: DisputeId, escrow: Option<EscrowId>, env: Env): Reply {
    var filed := w.(disputes := w.disputes[d := Dispute(Open, escrow)]);
    if !env.saveDispute then Reply(w, Some(SaveFailed))
    else if escrow == None then Reply(filed, None)
    else
      var r := FreezeEscrow(filed, escrow.value, env);
      if r.error.Some? then r
      else if !env.save2 then Reply(r.world, Some(SaveFailed))
      else Reply(SetRow(r.world, escrow.value, r.world.escrows[escrow.value].(disputeFlag := true)), None)
  }

  function UpdateDisputeCall(w: World, d: DisputeId, status: DisputeStatus, env: Env): Reply {
    if d !in w.disputes then Reply(w, Some(NotFound))
    else if !CanTransition(w.disputes[d].status, status) then Reply(w, Some(InvalidTransition))
    else if !env.saveDispute then Reply(w, Some(SaveFailed))
    else Reply(w.(disputes := w.disputes[d := w.disputes[d].(status := status)]), None)
  }

  function SaveDispute(w: World, d: DisputeId, dispute: Dispute, env: Env): Reply {
    if env.saveDispute then Reply(w.(disputes := w.disputes[d := dispute]), None) else Reply(w, Some(SaveFailed))
  }

  // The escrow is paid out before the dispute is saved, and stays paid out when that fails.
  function ResolveDisputeCall(w: World, d: DisputeId, refund: int, env: Env): Reply {
    if d !in w.disputes then Reply(w, Some(NotFound))
    else if !CanTransition(w.disputes[d].status, Resolved) then Reply(w, Some(InvalidTransition))
    else
      var resolved := w.disputes[d].(status := Resolved);
      match w.disputes[d].escrowId
      case None => SaveDispute(w, d, resolved, env)
      case Some(id) =>
        if id !in w.escrows then Reply(w, Some(NotFound))
        else
          var r := AdminReleaseFunds(w, id, w.escrows[id].amount - refund, refund, env);
          if r.error.Some? then r
          else SaveDispute(r.world, d, resolved, env)
  }

  function Apply(w: World, step: Step): Reply {
    match step
    case Create(id, b, s, amount, env) => CreateEscrow(w, id, b, s, amount, env)
    case Release(id, env) => ReleaseFunds(w, id, env)
    case ReleasePartial(id, released, env) => PartialRelease(w, id, released, env)
    case Freeze(id, env) => FreezeEscrow(w, id, env)
    case AdminRelease(id, s, b, env) => AdminReleaseFunds(w, id, s, b, env)
    case Refund(id, env) => RefundBuyer(w, id, env)
    case OpenDispute(d, escrow, env) => OpenDisputeCall(w, d, escrow, env)
    case UpdateDispute(d, status, env) => UpdateDisputeCall(w, d, status, env)
    case ResolveDispute(d, refund, env) => ResolveDisputeCall(w, d, refund, env)
  }

  predicate FreshIds(w: World, step: Step) {
    match step
    case Create(id, _, _, _, _) => id !in w.escrows
    case OpenDispute(d, _, _) => d !in w.disputes
    case _ => true
  }

  predicate Runnable(w: World, steps: seq<Step>)
    decreases |steps|
  {
    steps == [] || (FreshIds(w, steps[0]) && Runnable(Apply(w, steps[0]).world, steps[1..]))
  }

  function Run(w: World, steps: seq<Step>): World
    decreases |steps|
  {
    if steps == [] then w else Run(Apply(w, steps[0]).world, steps[1..])
  }
}
