/** The transaction hashes kept on an escrow's row name the payments that make up all that its parties received. */
module EscrowReceipts {
  import opened Common
  import opened EscrowLedger
  import opened EscrowProtocol
  import opened EscrowSafety

  // A hash is the place of its payment in the log; without one nothing was paid.
  predicate Accounts(log: seq<Payment>, tx: Option<nat>, from: Account, to: Account, total: int) {
    match tx
    case None => total == 0
    case Some(i) => i < |log| && log[i] == Payment(from, to, total)
  }

  ghost predicate RowReceipts(l: Ledger, id: EscrowId, e: Escrow) {
    && (e.lockTx.Some? ==> Accounts(l.log, e.lockTx, Party(e.buyer), Custody(id), e.amount))
    && (Held(e.status) || Settled(e.status) ==> e.lockTx.Some?)
    && (!Settled(e.status) ==> e.releaseTx == None && e.refundTx == None)
    && (Settled(e.status) ==>
          && Accounts(l.log, e.releaseTx, Custody(id), Party(e.seller), ToSeller(l, id, e))
          && Accounts(l.log, e.refundTx, Custody(id), Party(e.buyer), ToBuyer(l, id, e)))
  }

  ghost predicate Receipts(w: World) {
    forall id :: id in w.escrows ==> RowReceipts(w.ledger, id, w.escrows[id])
  }

  lemma SplitLog(l: Ledger, id: EscrowId, e: Escrow, toSeller: int, toBuyer: int, env: Env)
    ensures
      var (l', done) := Split(l, id, e, toSeller, toBuyer, env);
      && l.log <= l'.log
      && (done ==> l'.log == l.log + (if toSeller > 0 then [Payment(Custody(id), Party(e.seller), toSeller)] else [])
                                   + (if toBuyer > 0 then [Payment(Custody(id), Party(e.buyer), toBuyer)] else []))
  {}

  lemma SplitStepGrowsLog(w: World, id: EscrowId, toSeller: int, toBuyer: int, env: Env)
    requires id in w.escrows
    ensures w.ledger.log <= AdminReleaseFunds(w, id, toSeller, toBuyer, env).world.ledger.log
    ensures w.ledger.log <= PartialRelease(w, id, toSeller, env).world.ledger.log
  {
    SplitLog(w.ledger, id, w.escrows[id], toSeller, toBuyer, env);
    SplitLog(w.ledger, id, w.escrows[id], toSeller, w.escrows[id].amount - toSeller, env);
  }

  lemma OtherStepGrowsLog(w: World, step: Step)
    requires !step.ReleasePartial? && !step.AdminRelease? && !step.ResolveDispute?
    ensures w.ledger.log <= Apply(w, step).world.ledger.log
  {}

  lemma ResolveGrowsLog(w: World, d: DisputeId, refund: int, env: Env)
    ensures w.ledger.log <= ResolveDisputeCall(w, d, refund, env).world.ledger.log
  {
    if d in w.disputes && w.disputes[d].escrowId.Some? && w.disputes[d].escrowId.value in w.escrows {
      var id := w.disputes[d].escrowId.value;
      SplitStepGrowsLog(w, id, w.escrows[id].amount - refund, refund, env);
    }
  }

  lemma StepGrowsLog(w: World, step: Step)
    ensures w.ledger.log <= Apply(w, step).world.ledger.log
  {
    match step
    case ReleasePartial(id, released, env) =>
      if id in w.escrows { SplitStepGrowsLog(w, id, released, 0, env); }
    case AdminRelease(id, s, b, env) =>
      if id in w.escrows { SplitStepGrowsLog(w, id, s, b, env); }
    case ResolveDispute(d, refund, env) => ResolveGrowsLog(w, d, refund, env);
    case _ => OtherStepGrowsLog(w, step);
  }

  lemma CreateReceipts(w: World, id: EscrowId, buyer: Key, seller: Key, amount: int, env: Env)
    requires id !in w.escrows
    ensures
      var t := CreateEscrow(w, id, buyer, seller, amount, env).world;
      id in t.escrows ==> RowReceipts(t.ledger, id, t.escrows[id])
  {}

  lemma ReleaseReceipts(w: World, id: EscrowId, env: Env)
    requires Inv(w) && id in w.escrows && RowReceipts(w.ledger, id, w.escrows[id])
    ensures RowReceipts(ReleaseFunds(w, id, env).world.ledger, id, ReleaseFunds(w, id, env).world.escrows[id])
  {
    var e := w.escrows[id];
    assert RowInv(w.ledger, id, e);
    PayoutEffect(w.ledger, id, e, e.seller, e.amount);
  }

  lemma RefundReceipts(w: World, id: EscrowId, env: Env)
    requires Inv(w) && id in w.escrows && RowReceipts(w.ledger, id, w.escrows[id])
    ensures RowReceipts(RefundBuyer(w, id, env).world.ledger, id, RefundBuyer(w, id, env).world.escrows[id])
  {
    var e := w.escrows[id];
    assert RowInv(w.ledger, id, e);
    PayoutEffect(w.ledger, id, e, e.buyer, e.amount);
  }

  // The row written after a complete split, with whatever amounts and flags beside.
  lemma SplitReceipts(l: Ledger, id: EscrowId, e: Escrow, e': Escrow, toSeller: int, toBuyer: int, env: Env)
    requires RowInv(l, id, e) && RowReceipts(l, id, e) && Held(e.status) && toSeller + toBuyer == e.amount
    requires Split(l, id, e, toSeller, toBuyer, env).1 && Settled(e'.status)
    requires e'.buyer == e.buyer && e'.seller == e.seller && e'.amount == e.amount && e'.lockTx == e.lockTx
    requires e'.releaseTx == TxIf(toSeller, |l.log|)
    requires e'.refundTx == TxIf(toBuyer, if toSeller > 0 then |l.log| + 1 else |l.log|)
    ensures RowReceipts(Split(l, id, e, toSeller, toBuyer, env).0, id, e')
  {
    var seller, buyer := SplitEffect(l, id, e, toSeller, toBuyer, env);
    SplitLog(l, id, e, toSeller, toBuyer, env);
  }

  // A refused split leaves the row as it was, but for the failure it records.
  lemma RefusedReceipts(l: Ledger, id: EscrowId, e: Escrow, e': Escrow, toSeller: int, toBuyer: int, env: Env)
    requires RowReceipts(l, id, e) && Held(e.status) && (e' == e || e' == e.(failed := true))
    ensures RowReceipts(Split(l, id, e, toSeller, toBuyer, env).0, id, e')
  {
    SplitLog(l, id, e, toSeller, toBuyer, env);
  }

  // What a call that splits the amount writes to its row: the receipts of a complete split, or at most the failure.
  ghost predicate Written(w: World, t: World, id: EscrowId, toSeller: int, toBuyer: int, env: Env) {
    && SplitCall(w, t, id, toSeller, toBuyer, env)
    && var e, e', (l, done) := w.escrows[id], t.escrows[id], Split(w.ledger, id, w.escrows[id], toSeller, toBuyer, env);
      && (Settled(e'.status) ==>
            && done && e'.lockTx == e.lockTx && e'.releaseTx == TxIf(toSeller, |w.ledger.log|)
            && e'.refundTx == TxIf(toBuyer, if toSeller > 0 then |w.ledger.log| + 1 else |w.ledger.log|))
      && (!Settled(e'.status) ==> e' == e || e' == e.(failed := true))
  }

  lemma WrittenReceipts(w: World, t: World, id: EscrowId, toSeller: int, toBuyer: int, env: Env)
    requires Inv(w) && Written(w, t, id, toSeller, toBuyer, env) && RowReceipts(w.ledger, id, w.escrows[id])
    ensures RowReceipts(t.ledger, id, t.escrows[id])
  {
    var e := w.escrows[id];
    assert RowInv(w.ledger, id, e);
    if Settled(t.escrows[id].status) {
      SplitReceipts(w.ledger, id, e, t.escrows[id], toSeller, toBuyer, env);
    } else {
      RefusedReceipts(w.ledger, id, e, t.escrows[id], toSeller, toBuyer, env);
    }
  }

  lemma PartialReleaseWrites(w: World, id: EscrowId, released: int, env: Env)
    requires id in w.escrows
    ensures
      var t := PartialRelease(w, id, released, env).world;
      t == w || Written(w, t, id, released, w.escrows[id].amount - released, env)
  {
    PartialReleaseShape(w, id, released, env);
  }

  lemma AdminReleaseWrites(w: World, id: EscrowId, toSeller: int, toBuyer: int, env: Env)
    requires id in w.escrows
    ensures
      var t := AdminReleaseFunds(w, id, toSeller, toBuyer, env).world;
      t == w || Written(w, t, id, toSeller, toBuyer, env)
  {
    AdminReleaseShape(w, id, toSeller, toBuyer, env);
  }

  lemma PartialReleaseReceipts(w: World, id: EscrowId, released: int, env: Env)
    requires Inv(w) && id in w.escrows && RowReceipts(w.ledger, id, w.escrows[id])
    ensures
      var t := PartialRelease(w, id, released, env).world;
      id in t.escrows && RowReceipts(t.ledger, id, t.escrows[id])
  {
    var t := PartialRelease(w, id, released, env).world;
    PartialReleaseWrites(w, id, released, env);
    if t != w { WrittenReceipts(w, t, id, released, w.escrows[id].amount - released, env); }
  }

  lemma AdminReleaseReceipts(w: World, id: EscrowId, toSeller: int, toBuyer: int, env: Env)
    requires Inv(w) && id in w.escrows && RowReceipts(w.ledger, id, w.escrows[id])
    ensures
      var t := AdminReleaseFunds(w, id, toSeller, toBuyer, env).world;
      id in t.escrows && RowReceipts(t.ledger, id, t.escrows[id])
  {
    var t := AdminReleaseFunds(w, id, toSeller, toBuyer, env).world;
    AdminReleaseWrites(w, id, toSeller, toBuyer, env);
    if t != w { WrittenReceipts(w, t, id, toSeller, toBuyer, env); }
  }

  // Freezing and flagging keep the hashes and the log.
  lemma FreezeReceipts(w: World, step: Step, id: EscrowId)
    requires id in w.escrows && RowReceipts(w.ledger, id, w.escrows[id])
    requires step.Freeze? || step.OpenDispute? || step.UpdateDispute?
    ensures
      var t := Apply(w, step).world;
      id in t.escrows && RowReceipts(t.ledger, id, t.escrows[id])
  {}

  lemma TargetReceipts(w: World, step: Step, id: EscrowId)
    requires Inv(w) && Receipts(w) && FreshIds(w, step) && Target(w, step) == Some(id)
    ensures
      var t := Apply(w, step).world;
      id in t.escrows ==> RowReceipts(t.ledger, id, t.escrows[id])
  {
    match step
    case Create(_, b, s, amount, env) => CreateReceipts(w, id, b, s, amount, env);
    case Release(_, env) => if id in w.escrows { ReleaseReceipts(w, id, env); }
    case Refund(_, env) => if id in w.escrows { RefundReceipts(w, id, env); }
    case ReleasePartial(_, released, env) => if id in w.escrows { PartialReleaseReceipts(w, id, released, env); }
    case AdminRelease(_, s, b, env) => if id in w.escrows { AdminReleaseReceipts(w, id, s, b, env); }
    case ResolveDispute(d, refund, env) =>
      if id in w.escrows { AdminReleaseReceipts(w, id, w.escrows[id].amount - refund, refund, env); }
    case _ => if id in w.escrows { FreezeReceipts(w, step, id); }
  }

  lemma RowsAppearOnTarget(w: World, step: Step, id: EscrowId)
    requires id in Apply(w, step).world.escrows && id !in w.escrows
    ensures Target(w, step) == Some(id)
  {}

  lemma ElsewhereReceipts(w: World, t: World, id: EscrowId)
    requires SameEscrow(w, t, id) && w.ledger.log <= t.ledger.log && RowReceipts(w.ledger, id, w.escrows[id])
    ensures RowReceipts(t.ledger, id, t.escrows[id])
  {}

  lemma StepKeepsReceipt(w: World, step: Step, id: EscrowId)
    requires Inv(w) && Receipts(w) && FreshIds(w, step) && id in Apply(w, step).world.escrows
    ensures RowReceipts(Apply(w, step).world.ledger, id, Apply(w, step).world.escrows[id])
  {
    if Target(w, step) == Some(id) {
      TargetReceipts(w, step, id);
    } else {
      if id !in w.escrows { RowsAppearOnTarget(w, step, id); }
      StepElsewhere(w, step, id);
      StepGrowsLog(w, step);
      ElsewhereReceipts(w, Apply(w, step).world, id);
    }
  }

  lemma StepKeepsReceipts(w: World, step: Step)
    requires Inv(w) && Receipts(w) && FreshIds(w, step)
    ensures Receipts(Apply(w, step).world)
  {
    forall id | id in Apply(w, step).world.escrows
      ensures RowReceipts(Apply(w, step).world.ledger, id, Apply(w, step).world.escrows[id])
    {
      StepKeepsReceipt(w, step, id);
    }
  }

  lemma {:induction false} RunKeepsReceipts(w: World, steps: seq<Step>)
    requires Inv(w) && Receipts(w) && Runnable(w, steps)
    ensures Receipts(Run(w, steps)) && Inv(Run(w, steps))
    decreases |steps|
  {
    if steps != [] {
      StepSafe(w, steps[0]);
      StepKeepsReceipts(w, steps[0]);
      RunKeepsReceipts(Apply(w, steps[0]).world, steps[1..]);
    }
  }

  /** Over every run, the lock hash of a funded escrow names the buyer's payment of its amount; and once it is settled,
      each of its other hashes names one payment that is all the party ever received, a missing one that it
      received nothing, and the two add up to the amount. */
  lemma HashesAccountForEverything(balances: map<Account, int>, steps: seq<Step>, id: EscrowId)
    requires forall a :: Custody(a) !in balances
    requires Runnable(World(Ledger(balances, []), map[], map[]), steps)
    ensures
      var t := Run(World(Ledger(balances, []), map[], map[]), steps);
      id in t.escrows && Settled(t.escrows[id].status) ==>
        var e, log := t.escrows[id], t.ledger.log;
        && e.lockTx.Some? && Accounts(log, e.lockTx, Party(e.buyer), Custody(id), e.amount)
        && Accounts(log, e.releaseTx, Custody(id), Party(e.seller), ToSeller(t.ledger, id, e))
        && Accounts(log, e.refundTx, Custody(id), Party(e.buyer), ToBuyer(t.ledger, id, e))
        && ToSeller(t.ledger, id, e) + ToBuyer(t.ledger, id, e) == e.amount
  {
    RunKeepsReceipts(World(Ledger(balances, []), map[], map[]), steps);
    ConservedAndPaidExactly(balances, steps, id);
  }
}
