/** What each escrow and dispute call needs to go through, and the row, account and payouts it then leaves. */
module EscrowOutcomes {
  import opened Common
  import opened EscrowLedger
  import opened EscrowProtocol
  import opened EscrowSafety

  // Everything goes through.
  const FINE := Env(true, true, true, true, true)

  // ---------------------------------------------------------------- tables

  /** The escrow table read by what may come before each status. */
  lemma StatusComesFrom(a: EscrowStatus, b: EscrowStatus)
    ensures b in AllowedNext(a) <==>
      match b
      case Pending => false
      case Locked => a == Pending || a == Frozen
      case Released => a == Locked || a == PartiallyReleased
      case Refunded => a == Locked || a == Frozen || a == PartiallyReleased
      case Cancelled => a == Pending
      case Frozen => a == Locked
      case PartiallyReleased => a == Locked
  {}

  /** The dispute table likewise. */
  lemma DisputeComesFrom(a: DisputeStatus, b: DisputeStatus)
    ensures CanTransition(a, b) <==>
      match b
      case Open => false
      case Escalated => a == Open
      case Resolved => a == Open || a == Escalated
      case Rejected => a == Open || a == Escalated
      case AutoResolved => a == Open
  {}

  // ---------------------------------------------------------------- payments

  /** A payment is accepted exactly when the network lets it through and it is positive and covered; it moves its amount. */
  lemma PaymentMoves(l: Ledger, p: Payment, net: bool)
    requires p.from != p.to
    ensures Accepts(l, p, net) <==> net && p.amount >= 1 && Balance(l, p.from) >= p.amount
    ensures Balance(Pay(l, p), p.from) == Balance(l, p.from) - p.amount && Balance(Pay(l, p), p.to) == Balance(l, p.to) + p.amount
    ensures Pay(l, p).log == l.log + [p]
  {
    PayEffect(l, p);
  }

  // ---------------------------------------------------------------- creation

  lemma CreationSucceedsExactlyWhen(w: World, id: EscrowId, buyer: Key, seller: Key, amount: int, env: Env)
    ensures CreateEscrow(w, id, buyer, seller, amount, env).error == None
       <==> 0 < amount <= Balance(w.ledger, Party(buyer)) && buyer != seller && env.net1 && env.save1 && env.save2
  {}

  lemma CreationMovesAmount(w: World, id: EscrowId, buyer: Key, seller: Key, amount: int, env: Env)
    requires Inv(w) && id !in w.escrows && CreateEscrow(w, id, buyer, seller, amount, env).error == None
    ensures
      var t := CreateEscrow(w, id, buyer, seller, amount, env).world;
      && id in t.escrows && t.escrows == w.escrows[id := t.escrows[id]] && t.escrows[id].status == Locked
      && t.escrows[id].buyer == buyer && t.escrows[id].seller == seller && t.escrows[id].amount == amount
      && Balance(t.ledger, Custody(id)) == amount
      && Balance(t.ledger, Party(buyer)) == Balance(w.ledger, Party(buyer)) - amount
  {
    assert Untouched(w.ledger, id);
    PayEffect(w.ledger, Payment(Party(buyer), Custody(id), amount));
  }

  /** A creation goes through exactly for a positive amount the buyer has, between two parties, with both saves and the
      submission. It leaves the escrow LOCKED with the amount in its account, from where some run settles it. */
  lemma CreationLocks(w: World, id: EscrowId, buyer: Key, seller: Key, amount: int, env: Env)
    requires Inv(w) && id !in w.escrows
    ensures
      var r := CreateEscrow(w, id, buyer, seller, amount, env);
      && (r.error == None <==> 0 < amount <= Balance(w.ledger, Party(buyer)) && buyer != seller && env.net1 && env.save1 && env.save2)
      && (r.error == None ==>
            && id in r.world.escrows && r.world.escrows == w.escrows[id := r.world.escrows[id]]
            && r.world.escrows[id].buyer == buyer && r.world.escrows[id].seller == seller && r.world.escrows[id].amount == amount
            && r.world.escrows[id].status == Locked
            && Balance(r.world.ledger, Custody(id)) == amount
            && Balance(r.world.ledger, Party(buyer)) == Balance(w.ledger, Party(buyer)) - amount
            && CanSettle(r.world, id))
  {
    CreationSucceedsExactlyWhen(w, id, buyer, seller, amount, env);
    if CreateEscrow(w, id, buyer, seller, amount, env).error == None {
      CreationMovesAmount(w, id, buyer, seller, amount, env);
      CreateSafe(w, id, buyer, seller, amount, env);
      FullSettles(CreateEscrow(w, id, buyer, seller, amount, env).world, id);
    }
  }

  /** A refused creation leaves no row when it fails before the first save, and a PENDING one after. */
  lemma CreationFails(w: World, id: EscrowId, buyer: Key, seller: Key, amount: int, env: Env)
    requires id !in w.escrows && CreateEscrow(w, id, buyer, seller, amount, env).error.Some?
    ensures
      var t := CreateEscrow(w, id, buyer, seller, amount, env).world;
      if amount <= 0 || buyer == seller || !env.save1 then t == w
      else id in t.escrows && t.escrows[id].status == Pending && t.escrows[id].amount == amount
  {}

  // ---------------------------------------------------------------- full payouts

  /** A release goes through exactly for a LOCKED escrow whose account holds the whole amount, with its submission and save;
      the seller then has it all and the account nothing. */
  lemma ReleasePaysSeller(w: World, id: EscrowId, env: Env)
    requires Inv(w) && id in w.escrows
    ensures
      var e, r := w.escrows[id], ReleaseFunds(w, id, env);
      && (r.error == None <==> e.status == Locked && Balance(w.ledger, Custody(id)) == e.amount && env.net1 && env.save1)
      && (r.error == None ==>
            && id in r.world.escrows && r.world.escrows[id].status == Released
            && Balance(r.world.ledger, Custody(id)) == 0
            && Balance(r.world.ledger, Party(e.seller)) == Balance(w.ledger, Party(e.seller)) + e.amount)
  {
    assert RowInv(w.ledger, id, w.escrows[id]);
    PayEffect(w.ledger, Payment(Custody(id), Party(w.escrows[id].seller), w.escrows[id].amount));
  }

  /** A refund likewise, for a LOCKED or FROZEN escrow, to the buyer. */
  lemma RefundPaysBuyer(w: World, id: EscrowId, env: Env)
    requires Inv(w) && id in w.escrows
    ensures
      var e, r := w.escrows[id], RefundBuyer(w, id, env);
      && (r.error == None <==>
            (e.status == Locked || e.status == Frozen) && Balance(w.ledger, Custody(id)) == e.amount && env.net1 && env.save1)
      && (r.error == None ==>
            && id in r.world.escrows && r.world.escrows[id].status == Refunded
            && r.world.escrows[id].refundedAmount == e.amount && r.world.escrows[id].releasedAmount == 0
            && Balance(r.world.ledger, Custody(id)) == 0
            && Balance(r.world.ledger, Party(e.buyer)) == Balance(w.ledger, Party(e.buyer)) + e.amount)
  {
    assert RowInv(w.ledger, id, w.escrows[id]);
    PayEffect(w.ledger, Payment(Custody(id), Party(w.escrows[id].buyer), w.escrows[id].amount));
  }

  // ---------------------------------------------------------------- split payouts

  // A split goes through exactly when each positive share is let through and the account covers what is due.
  lemma SplitDoneExactlyWhen(l: Ledger, id: EscrowId, e: Escrow, toSeller: int, toBuyer: int, env: Env)
    requires e.buyer != e.seller && 0 <= Balance(l, Custody(id))
    ensures Split(l, id, e, toSeller, toBuyer, env).1
       <==> && (toSeller > 0 ==> env.net1) && (toBuyer > 0 ==> env.net2)
            && (if toSeller > 0 then toSeller else 0) + (if toBuyer > 0 then toBuyer else 0) <= Balance(l, Custody(id))
  {
    if toSeller > 0 {
      PayEffect(l, Payment(Custody(id), Party(e.seller), toSeller));
    }
  }

  lemma PartialReleaseSucceedsExactlyWhen(w: World, id: EscrowId, released: int, env: Env)
    requires Inv(w) && id in w.escrows
    ensures PartialRelease(w, id, released, env).error == None
       <==> && w.escrows[id].status == Locked && 0 < released <= w.escrows[id].amount
            && Balance(w.ledger, Custody(id)) == w.escrows[id].amount
            && env.net1 && (released < w.escrows[id].amount ==> env.net2) && env.save1
  {
    var e := w.escrows[id];
    assert RowInv(w.ledger, id, e);
    SplitDoneExactlyWhen(w.ledger, id, e, released, e.amount - released, env);
  }

  /** A partial release goes through exactly for a LOCKED escrow holding its amount, a share within it, and all submissions
      and the save; the seller has the share and the buyer the rest, and the row says so: RELEASED when there is no rest. */
  lemma PartialReleaseSplits(w: World, id: EscrowId, released: int, env: Env)
    requires Inv(w) && id in w.escrows
    ensures PartialRelease(w, id, released, env).error == None
       <==> && w.escrows[id].status == Locked && 0 < released <= w.escrows[id].amount
            && Balance(w.ledger, Custody(id)) == w.escrows[id].amount
            && env.net1 && (released < w.escrows[id].amount ==> env.net2) && env.save1
    ensures PartialRelease(w, id, released, env).error == None ==>
              var e, t := w.escrows[id], PartialRelease(w, id, released, env).world;
              && id in t.escrows
              && t.escrows[id].status == (if released == e.amount then Released else PartiallyReleased)
              && t.escrows[id].releasedAmount == released && t.escrows[id].refundedAmount == e.amount - released
              && ToSeller(t.ledger, id, e) == released && ToBuyer(t.ledger, id, e) == e.amount - released
              && Balance(t.ledger, Custody(id)) == 0
  {
    PartialReleaseSucceedsExactlyWhen(w, id, released, env);
    if PartialRelease(w, id, released, env).error == None {
      var e := w.escrows[id];
      assert RowInv(w.ledger, id, e);
      var seller, buyer := SplitEffect(w.ledger, id, e, released, e.amount - released, env);
      PartialReleaseSafe(w, id, released, env);
    }
  }

  /** An admin's distribution goes through exactly for a FROZEN escrow holding its amount and shares that are not negative
      and add up to it, with their submissions and the save. */
  lemma DistributionExactlyWhen(w: World, id: EscrowId, toSeller: int, toBuyer: int, env: Env)
    requires Inv(w) && id in w.escrows
    ensures
      var e, r := w.escrows[id], AdminReleaseFunds(w, id, toSeller, toBuyer, env);
      && (r.error == None <==>
            && e.status == Frozen && 0 <= toSeller && 0 <= toBuyer && toSeller + toBuyer == e.amount
            && Balance(w.ledger, Custody(id)) == e.amount
            && (toSeller > 0 ==> env.net1) && (toBuyer > 0 ==> env.net2) && env.save1)
      && (r.error == None ==>
            && id in r.world.escrows && r.world.escrows[id].status == Released
            && ToSeller(r.world.ledger, id, e) == toSeller && ToBuyer(r.world.ledger, id, e) == toBuyer
            && Balance(r.world.ledger, Custody(id)) == 0)
  {
    var e := w.escrows[id];
    assert RowInv(w.ledger, id, e);
    SplitDoneExactlyWhen(w.ledger, id, e, toSeller, toBuyer, env);
    var seller, buyer := SplitEffect(w.ledger, id, e, toSeller, toBuyer, env);
  }

  /** A split refused by the ledger leaves the escrow in its status, marked as failed when that save goes through. */
  lemma RefusedSplitIsMarked(w: World, id: EscrowId, released: int, toSeller: int, toBuyer: int, env: Env)
    requires id in w.escrows
    ensures PartialRelease(w, id, released, env).error == Some(SubmissionRefused) ==>
              PartialRelease(w, id, released, env).world.escrows
                == if env.save2 then w.escrows[id := w.escrows[id].(failed := true)] else w.escrows
    ensures AdminReleaseFunds(w, id, toSeller, toBuyer, env).error == Some(SubmissionRefused) ==>
              AdminReleaseFunds(w, id, toSeller, toBuyer, env).world.escrows
                == if env.save2 then w.escrows[id := w.escrows[id].(failed := true)] else w.escrows
  {}

  // ---------------------------------------------------------------- freezing and disputes

  /** Freezing goes through exactly for a LOCKED escrow whose save does, and leaves it FROZEN and its money alone. */
  lemma FreezeExactlyWhen(w: World, id: EscrowId, env: Env)
    requires id in w.escrows
    ensures
      var r := FreezeEscrow(w, id, env);
      && (r.error == None <==> w.escrows[id].status == Locked && env.save1)
      && r.world == (if r.error == None then w.(escrows := w.escrows[id := w.escrows[id].(status := Frozen)]) else w)
  {}

  /** A dispute opened over a LOCKED escrow leaves it FROZEN and flagged, from where the dispute can be resolved; over any
      other escrow, or none that exists, it stays on file while the call fails. */
  lemma DisputeFreezes(w: World, d: DisputeId, id: EscrowId, env: Env)
    requires env.saveDispute
    ensures
      var r := OpenDisputeCall(w, d, Some(id), env);
      && d in r.world.disputes && r.world.disputes == w.disputes[d := Dispute(Open, Some(id))] && r.world.ledger == w.ledger
      && (r.error == None <==> id in w.escrows && w.escrows[id].status == Locked && env.save1 && env.save2)
      && (r.error == None ==>
            r.world.escrows == w.escrows[id := w.escrows[id].(status := Frozen, disputeFlag := true)])
      && (!(id in w.escrows && w.escrows[id].status == Locked && env.save1) ==> r.world.escrows == w.escrows)
  {}

  /** A dispute's status is updated exactly along its table, with its save. */
  lemma DisputeUpdatedExactlyWhen(w: World, d: DisputeId, status: DisputeStatus, env: Env)
    requires d in w.disputes
    ensures
      var r := UpdateDisputeCall(w, d, status, env);
      && (r.error == None <==> CanTransition(w.disputes[d].status, status) && env.saveDispute)
      && r.world == (if r.error == None then w.(disputes := w.disputes[d := Dispute(status, w.disputes[d].escrowId)]) else w)
  {}

  /** A dispute over an escrow is resolved exactly when it is open or escalated, the escrow FROZEN with its whole amount, the
      refund within it, and every submission and save goes through. */
  lemma ResolvedExactlyWhen(w: World, d: DisputeId, refund: int, env: Env, id: EscrowId)
    requires Inv(w) && d in w.disputes && w.disputes[d].escrowId == Some(id)
    ensures ResolveDisputeCall(w, d, refund, env).error == None
       <==> && (w.disputes[d].status == Open || w.disputes[d].status == Escalated)
             && id in w.escrows && w.escrows[id].status == Frozen && Balance(w.ledger, Custody(id)) == w.escrows[id].amount
             && 0 <= refund <= w.escrows[id].amount
             && (refund < w.escrows[id].amount ==> env.net1) && (refund > 0 ==> env.net2) && env.save1 && env.saveDispute
    ensures ResolveDisputeCall(w, d, refund, env).error == None ==>
              ResolveDisputeCall(w, d, refund, env).world.disputes == w.disputes[d := Dispute(Resolved, Some(id))]
  {
    if id in w.escrows {
      DistributionExactlyWhen(w, id, w.escrows[id].amount - refund, refund, env);
    }
  }

  lemma ResolvedWithoutEscrow(w: World, d: DisputeId, refund: int, env: Env)
    requires d in w.disputes && w.disputes[d].escrowId == None
    ensures
      var r := ResolveDisputeCall(w, d, refund, env);
      && (r.error == None <==> (w.disputes[d].status == Open || w.disputes[d].status == Escalated) && env.saveDispute)
      && r.world == (if r.error == None then w.(disputes := w.disputes[d := Dispute(Resolved, None)]) else w)
  {}

  /** A whole life: created, disputed and resolved, the buyer gets the refund back and the seller the rest. */
  lemma DisputedEscrowIsShared(w: World, id: EscrowId, buyer: Key, seller: Key, amount: int, d: DisputeId, refund: int)
    requires Inv(w) && id !in w.escrows && d !in w.disputes && buyer != seller
    requires 0 < amount <= Balance(w.ledger, Party(buyer)) && 0 <= refund <= amount
    ensures
      var created := CreateEscrow(w, id, buyer, seller, amount, FINE).world;
      var disputed := OpenDisputeCall(created, d, Some(id), FINE).world;
      var r := ResolveDisputeCall(disputed, d, refund, FINE);
      && r.error == None && id in r.world.escrows && r.world.escrows[id].status == Released
      && ToBuyer(r.world.ledger, id, r.world.escrows[id]) == refund
      && ToSeller(r.world.ledger, id, r.world.escrows[id]) == amount - refund
  {
    CreationLocks(w, id, buyer, seller, amount, FINE);
    CreateSafe(w, id, buyer, seller, amount, FINE);
    var created := CreateEscrow(w, id, buyer, seller, amount, FINE).world;
    DisputeFreezes(created, d, id, FINE);
    OpenDisputeSafe(created, d, Some(id), FINE);
    var disputed := OpenDisputeCall(created, d, Some(id), FINE).world;
    ResolvedExactlyWhen(disputed, d, refund, FINE, id);
    ResolutionPaysTheDecision(disputed, d, refund, FINE, id);
  }
}
