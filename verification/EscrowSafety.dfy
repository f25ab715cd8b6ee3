/**
 * Money is conserved over every run; a settled escrow is empty, paid out in full and never touched again; and an
 * escrow whose payout failed half-way can never be settled.
 */
module EscrowSafety {
  import opened Common
  import opened EscrowLedger
  import opened EscrowProtocol

  function ToSeller(l: Ledger, id: EscrowId, e: Escrow): int {
    Paid(l.log, Custody(id), Party(e.seller))
  }

  function ToBuyer(l: Ledger, id: EscrowId, e: Escrow): int {
    Paid(l.log, Custody(id), Party(e.buyer))
  }

  predicate Settled(s: EscrowStatus) {
    s == Released || s == PartiallyReleased || s == Refunded
  }

  predicate Held(s: EscrowStatus) {
    s == Locked || s == Frozen
  }

  // What the ledger says about an escrow in each status.
  ghost predicate RowInv(l: Ledger, id: EscrowId, e: Escrow) {
    var custody, seller, buyer := Balance(l, Custody(id)), ToSeller(l, id, e), ToBuyer(l, id, e);
    && 0 < e.amount && e.buyer != e.seller && e.status != Cancelled
    && 0 <= custody && 0 <= seller && 0 <= buyer
    && (e.status == Pending ==> seller == buyer == 0 && (custody == 0 || custody == e.amount))
    && (Held(e.status) ==> custody + seller + buyer == e.amount)
    && (Settled(e.status) ==> custody == 0 && seller + buyer == e.amount)
    && (e.status == Refunded ==> buyer == e.amount)
    && (e.status == PartiallyReleased ==> seller == e.releasedAmount && buyer == e.refundedAmount)
  }

  ghost predicate Untouched(l: Ledger, id: EscrowId) {
    Balance(l, Custody(id)) == 0 && forall to :: Paid(l.log, Custody(id), to) == 0
  }

  ghost predicate Inv(w: World) {
    && (forall id :: id in w.escrows ==> RowInv(w.ledger, id, w.escrows[id]))
    && (forall id :: id !in w.escrows ==> Untouched(w.ledger, id))
  }

  // No custody account but one is affected, and no money is made or lost.
  ghost predicate OnlyTouches(l: Ledger, l': Ledger, id: EscrowId) {
    && (forall a :: a != id ==> Balance(l', Custody(a)) == Balance(l, Custody(a)))
    && (forall a, to :: a != id ==> Paid(l'.log, Custody(a), to) == Paid(l.log, Custody(a), to))
    && TotalMoney(l') == TotalMoney(l)
  }

  lemma PayTouchesOne(l: Ledger, p: Payment, id: EscrowId, key: Key)
    requires (p.from == Custody(id) && p.to == Party(key)) || (p.from == Party(key) && p.to == Custody(id))
    ensures OnlyTouches(l, Pay(l, p), id)
  {
    PayEffect(l, p);
  }

  // What one payout to a party does to the three accounts of an escrow.
  lemma PayoutEffect(l: Ledger, id: EscrowId, e: Escrow, key: Key, amount: int)
    requires e.buyer != e.seller && (key == e.seller || key == e.buyer)
    ensures
      var l' := Pay(l, Payment(Custody(id), Party(key), amount));
      && OnlyTouches(l, l', id)
      && Balance(l', Custody(id)) == Balance(l, Custody(id)) - amount
      && ToSeller(l', id, e) == ToSeller(l, id, e) + (if key == e.seller then amount else 0)
      && ToBuyer(l', id, e) == ToBuyer(l, id, e) + (if key == e.buyer then amount else 0)
  {
    PayEffect(l, Payment(Custody(id), Party(key), amount));
    PayTouchesOne(l, Payment(Custody(id), Party(key), amount), id, key);
  }

  function Positive(x: int): nat {
    if x > 0 then x else 0
  }

  // What a split payout moved: all of it when done; otherwise nothing for the buyer, and for the seller all or nothing.
  lemma SplitEffect(l: Ledger, id: EscrowId, e: Escrow, toSeller: int, toBuyer: int, env: Env) returns (seller: nat, buyer: nat)
    requires e.buyer != e.seller && 0 <= Balance(l, Custody(id))
    ensures
      var (l', done) := Split(l, id, e, toSeller, toBuyer, env);
      && OnlyTouches(l, l', id)
      && Balance(l', Custody(id)) == Balance(l, Custody(id)) - seller - buyer >= 0
      && ToSeller(l', id, e) == ToSeller(l, id, e) + seller
      && ToBuyer(l', id, e) == ToBuyer(l, id, e) + buyer
      && (done ==> seller == Positive(toSeller) && buyer == Positive(toBuyer))
      && (!done ==> buyer == 0 && (seller == 0 || seller == toSeller))
  {
    var first := Payment(Custody(id), Party(e.seller), toSeller);
    var second := Payment(Custody(id), Party(e.buyer), toBuyer);
    seller, buyer := 0, 0;
    if toSeller > 0 && !Accepts(l, first, env.net1) { return; }
    var l1 := l;
    if toSeller > 0 {
      PayoutEffect(l, id, e, e.seller, toSeller);
      l1 := Pay(l, first);
      seller := toSeller;
    }
    if toBuyer > 0 && Accepts(l1, second, env.net2) {
      PayoutEffect(l1, id, e, e.buyer, toBuyer);
      buyer := toBuyer;
    }
  }

  // A step that touches one escrow only has to re-establish that escrow's clause.
  lemma OneRowSuffices(w: World, t: World, id: EscrowId)
    requires Inv(w)
    requires t.escrows == w.escrows || (id in t.escrows && t.escrows == w.escrows[id := t.escrows[id]])
    requires OnlyTouches(w.ledger, t.ledger, id)
    requires id in t.escrows ==> RowInv(t.ledger, id, t.escrows[id])
    requires id !in t.escrows ==> Untouched(t.ledger, id)
    ensures Inv(t)
  {
    forall a | a in t.escrows
      ensures RowInv(t.ledger, a, t.escrows[a])
    {
      if a != id {
        assert t.escrows[a] == w.escrows[a];
      }
    }
    forall a | a !in t.escrows
      ensures Untouched(t.ledger, a)
    {}
  }

  // ---------------------------------------------------------------- one step

  ghost predicate Safe(w: World, t: World) {
    Inv(t) && TotalMoney(t.ledger) == TotalMoney(w.ledger)
  }

  // The rows a new escrow may be left in, over a ledger that has or has not taken the lock payment.
  lemma NewRowInv(l: Ledger, id: EscrowId, e: Escrow, env: Env)
    requires Untouched(l, id) && 0 < e.amount && e.buyer != e.seller && e.status == Pending
    ensures RowInv(l, id, e)
    ensures
      var l' := Pay(l, Payment(Party(e.buyer), Custody(id), e.amount));
      OnlyTouches(l, l', id) && RowInv(l', id, e)
      && forall lockTx :: RowInv(l', id, e.(status := Locked, lockTx := lockTx))
  {
    var lock := Payment(Party(e.buyer), Custody(id), e.amount);
    PayEffect(l, lock);
    PayTouchesOne(l, lock, id, e.buyer);
    assert ToSeller(l, id, e) == 0 && ToBuyer(l, id, e) == 0;
    assert ToSeller(Pay(l, lock), id, e) == 0 && ToBuyer(Pay(l, lock), id, e) == 0;
  }

  lemma CreateSafe(w: World, id: EscrowId, buyer: Key, seller: Key, amount: int, env: Env)
    requires Inv(w) && id !in w.escrows
    ensures Safe(w, CreateEscrow(w, id, buyer, seller, amount, env).world)
  {
    var t := CreateEscrow(w, id, buyer, seller, amount, env).world;
    assert Untouched(w.ledger, id);
    if t != w {
      var e := Escrow(buyer, seller, amount, Pending, 0, 0, None, None, None, false, false);
      NewRowInv(w.ledger, id, e, env);
      assert t.escrows == w.escrows[id := t.escrows[id]];
      OneRowSuffices(w, t, id);
    }
  }

  // A call that pays the whole amount of a locked or frozen escrow to one party, and may then rewrite its row.
  ghost predicate FullCall(w: World, t: World, id: EscrowId, key: Key) {
    && id in w.escrows && Held(w.escrows[id].status)
    && Balance(w.ledger, Custody(id)) >= w.escrows[id].amount
    && t.ledger == Pay(w.ledger, Payment(Custody(id), Party(key), w.escrows[id].amount))
    && id in t.escrows && t.escrows == w.escrows[id := t.escrows[id]]
    && var e, e' := w.escrows[id], t.escrows[id];
      && e'.amount == e.amount && e'.buyer == e.buyer && e'.seller == e.seller
      && (e'.status == e.status || (key == e.seller && e'.status == Released) || (key == e.buyer && e'.status == Refunded))
  }

  lemma FullPayoutShape(w: World, id: EscrowId, key: Key, env: Env, t: World)
    requires Inv(w) && id in w.escrows
    requires (key == w.escrows[id].seller && t == ReleaseFunds(w, id, env).world)
          || (key == w.escrows[id].buyer && t == RefundBuyer(w, id, env).world)
    ensures t == w || FullCall(w, t, id, key)
  {
    assert w.escrows == w.escrows[id := w.escrows[id]];
  }

  lemma FullPayoutSafe(w: World, id: EscrowId, key: Key, env: Env, t: World)
    requires Inv(w) && id in w.escrows
    requires (key == w.escrows[id].seller && t == ReleaseFunds(w, id, env).world)
          || (key == w.escrows[id].buyer && t == RefundBuyer(w, id, env).world)
    ensures Safe(w, t)
  {
    var e := w.escrows[id];
    assert RowInv(w.ledger, id, e);
    FullPayoutShape(w, id, key, env, t);
    if t != w {
      PayoutEffect(w.ledger, id, e, key, e.amount);
      OneRowSuffices(w, t, id);
    }
  }

  // The row a split payout may leave behind: the old one, or the settled one when everything was paid.
  predicate AfterSplit(e: Escrow, e': Escrow, toSeller: int, toBuyer: int, done: bool) {
    && e'.amount == e.amount && e'.buyer == e.buyer && e'.seller == e.seller
    && (e'.status == e.status || (done && e'.status == Released)
        || (done && e'.status == PartiallyReleased && e'.releasedAmount == toSeller && e'.refundedAmount == toBuyer))
  }

  lemma SplitRowInv(l: Ledger, id: EscrowId, e: Escrow, e': Escrow, toSeller: int, toBuyer: int, env: Env)
    requires RowInv(l, id, e) && Held(e.status) && toSeller + toBuyer == e.amount
    requires AfterSplit(e, e', toSeller, toBuyer, Split(l, id, e, toSeller, toBuyer, env).1)
    requires e'.status == PartiallyReleased ==> toSeller > 0 && toBuyer > 0
    ensures RowInv(Split(l, id, e, toSeller, toBuyer, env).0, id, e')
    ensures OnlyTouches(l, Split(l, id, e, toSeller, toBuyer, env).0, id)
  {
    var seller, buyer := SplitEffect(l, id, e, toSeller, toBuyer, env);
    var l' := Split(l, id, e, toSeller, toBuyer, env).0;
    assert ToSeller(l', id, e') == ToSeller(l', id, e) && ToBuyer(l', id, e') == ToBuyer(l', id, e);
  }

  // A call that splits the amount over a held escrow and rewrites nothing but its row.
  ghost predicate SplitCall(w: World, t: World, id: EscrowId, toSeller: int, toBuyer: int, env: Env) {
    && id in w.escrows && Held(w.escrows[id].status) && toSeller + toBuyer == w.escrows[id].amount
    && id in t.escrows && t.escrows == w.escrows[id := t.escrows[id]]
    && t.ledger == Split(w.ledger, id, w.escrows[id], toSeller, toBuyer, env).0
    && AfterSplit(w.escrows[id], t.escrows[id], toSeller, toBuyer,
                  Split(w.ledger, id, w.escrows[id], toSeller, toBuyer, env).1)
    && (t.escrows[id].status == PartiallyReleased ==> toSeller > 0 && toBuyer > 0)
  }

  lemma SplitCallSafe(w: World, t: World, id: EscrowId, toSeller: int, toBuyer: int, env: Env)
    requires Inv(w) && SplitCall(w, t, id, toSeller, toBuyer, env)
    ensures Safe(w, t)
  {
    assert RowInv(w.ledger, id, w.escrows[id]);
    SplitRowInv(w.ledger, id, w.escrows[id], t.escrows[id], toSeller, toBuyer, env);
    OneRowSuffices(w, t, id);
  }

  lemma PartialReleaseShape(w: World, id: EscrowId, released: int, env: Env)
    requires id in w.escrows
    ensures
      var t := PartialRelease(w, id, released, env).world;
      t == w || SplitCall(w, t, id, released, w.escrows[id].amount - released, env)
  {
    assert w.escrows == w.escrows[id := w.escrows[id]];
  }

  lemma AdminReleaseShape(w: World, id: EscrowId, toSeller: int, toBuyer: int, env: Env)
    requires id in w.escrows
    ensures
      var t := AdminReleaseFunds(w, id, toSeller, toBuyer, env).world;
      t == w || SplitCall(w, t, id, toSeller, toBuyer, env)
  {
    assert w.escrows == w.escrows[id := w.escrows[id]];
  }

  lemma PartialReleaseSafe(w: World, id: EscrowId, released: int, env: Env)
    requires Inv(w)
    ensures Safe(w, PartialRelease(w, id, released, env).world)
  {
    var t := PartialRelease(w, id, released, env).world;
    if id in w.escrows {
      PartialReleaseShape(w, id, released, env);
      if t != w {
        SplitCallSafe(w, t, id, released, w.escrows[id].amount - released, env);
      }
    }
  }

  lemma FreezeSafe(w: World, id: EscrowId, env: Env)
    requires Inv(w)
    ensures Safe(w, FreezeEscrow(w, id, env).world)
  {
    if id in w.escrows {
      assert RowInv(w.ledger, id, w.escrows[id]);
      OneRowSuffices(w, FreezeEscrow(w, id, env).world, id);
    }
  }

  lemma AdminReleaseSafe(w: World, id: EscrowId, toSeller: int, toBuyer: int, env: Env)
    requires Inv(w)
    ensures Safe(w, AdminReleaseFunds(w, id, toSeller, toBuyer, env).world)
  {
    var t := AdminReleaseFunds(w, id, toSeller, toBuyer, env).world;
    if id in w.escrows {
      AdminReleaseShape(w, id, toSeller, toBuyer, env);
      if t != w {
        SplitCallSafe(w, t, id, toSeller, toBuyer, env);
      }
    }
  }

  lemma OpenDisputeSafe(w: World, d: DisputeId, escrow: Option<EscrowId>, env: Env)
    requires Inv(w)
    ensures Safe(w, OpenDisputeCall(w, d, escrow, env).world)
  {
    var filed := w.(disputes := w.disputes[d := Dispute(Open, escrow)]);
    if env.saveDispute && escrow.Some? {
      FreezeSafe(filed, escrow.value, env);
      if FreezeEscrow(filed, escrow.value, env).error == None {
        FlagSafe(FreezeEscrow(filed, escrow.value, env).world, escrow.value);
      }
    }
  }

  lemma FlagSafe(w: World, id: EscrowId)
    requires Inv(w) && id in w.escrows
    ensures Safe(w, SetRow(w, id, w.escrows[id].(disputeFlag := true)))
  {
    assert RowInv(w.ledger, id, w.escrows[id]);
    OneRowSuffices(w, SetRow(w, id, w.escrows[id].(disputeFlag := true)), id);
  }

  lemma FullPayoutCallsSafe(w: World, id: EscrowId, env: Env)
    requires Inv(w)
    ensures Safe(w, ReleaseFunds(w, id, env).world) && Safe(w, RefundBuyer(w, id, env).world)
  {
    if id in w.escrows {
      FullPayoutSafe(w, id, w.escrows[id].seller, env, ReleaseFunds(w, id, env).world);
      FullPayoutSafe(w, id, w.escrows[id].buyer, env, RefundBuyer(w, id, env).world);
    }
  }

  lemma ResolveSafe(w: World, d: DisputeId, refund: int, env: Env)
    requires Inv(w)
    ensures Safe(w, ResolveDisputeCall(w, d, refund, env).world)
  {
    if d in w.disputes && w.disputes[d].escrowId.Some? && w.disputes[d].escrowId.value in w.escrows {
      var id := w.disputes[d].escrowId.value;
      AdminReleaseSafe(w, id, w.escrows[id].amount - refund, refund, env);
    }
  }

  lemma StepSafe(w: World, step: Step)
    requires Inv(w) && FreshIds(w, step)
    ensures Safe(w, Apply(w, step).world)
  {
    match step
    case Create(id, b, s, amount, env) => CreateSafe(w, id, b, s, amount, env);
    case Release(id, env) => FullPayoutCallsSafe(w, id, env);
    case Refund(id, env) => FullPayoutCallsSafe(w, id, env);
    case ReleasePartial(id, released, env) => PartialReleaseSafe(w, id, released, env);
    case Freeze(id, env) => FreezeSafe(w, id, env);
    case AdminRelease(id, s, b, env) => AdminReleaseSafe(w, id, s, b, env);
    case OpenDispute(d, escrow, env) => OpenDisputeSafe(w, d, escrow, env);
    case UpdateDispute(d, status, env) =>
    case ResolveDispute(d, refund, env) => ResolveSafe(w, d, refund, env);
  }

  // ---------------------------------------------------------------- which escrow a step can reach

  function Target(w: World, step: Step): Option<EscrowId> {
    match step
    case Create(id, _, _, _, _) => Some(id)
    case Release(id, _) => Some(id)
    case ReleasePartial(id, _, _) => Some(id)
    case Freeze(id, _) => Some(id)
    case AdminRelease(id, _, _, _) => Some(id)
    case Refund(id, _) => Some(id)
    case OpenDispute(_, escrow, _) => escrow
    case UpdateDispute(_, _, _) => None
    case ResolveDispute(d, _, _) => if d in w.disputes then w.disputes[d].escrowId else None
  }

  // What concerns one escrow: its row, its account and what it has paid.
  predicate SameEscrow(w: World, t: World, id: EscrowId) {
    && id in w.escrows && id in t.escrows && t.escrows[id] == w.escrows[id]
    && Balance(t.ledger, Custody(id)) == Balance(w.ledger, Custody(id))
    && ToSeller(t.ledger, id, w.escrows[id]) == ToSeller(w.ledger, id, w.escrows[id])
    && ToBuyer(t.ledger, id, w.escrows[id]) == ToBuyer(w.ledger, id, w.escrows[id])
  }

  lemma SplitCallElsewhere(w: World, t: World, id: EscrowId, toSeller: int, toBuyer: int, env: Env, a: EscrowId)
    requires Inv(w) && SplitCall(w, t, id, toSeller, toBuyer, env)
    requires a in w.escrows && a != id
    ensures SameEscrow(w, t, a)
  {
    assert RowInv(w.ledger, id, w.escrows[id]);
    SplitRowInv(w.ledger, id, w.escrows[id], t.escrows[id], toSeller, toBuyer, env);
  }

  // A step that makes at most one payment between a party and the account of id, and rewrites at most that row.
  lemma PaymentElsewhere(w: World, t: World, id: EscrowId, key: Key, p: Payment, a: EscrowId)
    requires (p.from == Custody(id) && p.to == Party(key)) || (p.from == Party(key) && p.to == Custody(id))
    requires t.ledger == w.ledger || t.ledger == Pay(w.ledger, p)
    requires a in w.escrows && a in t.escrows && t.escrows[a] == w.escrows[a] && a != id
    ensures SameEscrow(w, t, a)
  {
    PayTouchesOne(w.ledger, p, id, key);
  }

  lemma SplitStepElsewhere(w: World, id: EscrowId, toSeller: int, toBuyer: int, env: Env, a: EscrowId)
    requires Inv(w) && id in w.escrows && a in w.escrows && a != id
    ensures SameEscrow(w, AdminReleaseFunds(w, id, toSeller, toBuyer, env).world, a)
    ensures SameEscrow(w, PartialRelease(w, id, toSeller, env).world, a)
  {
    AdminReleaseShape(w, id, toSeller, toBuyer, env);
    var t := AdminReleaseFunds(w, id, toSeller, toBuyer, env).world;
    if t != w { SplitCallElsewhere(w, t, id, toSeller, toBuyer, env, a); }
    PartialReleaseShape(w, id, toSeller, env);
    var u := PartialRelease(w, id, toSeller, env).world;
    if u != w { SplitCallElsewhere(w, u, id, toSeller, w.escrows[id].amount - toSeller, env, a); }
  }

  lemma CreateElsewhere(w: World, id: EscrowId, buyer: Key, seller: Key, amount: int, env: Env, a: EscrowId)
    requires a in w.escrows && a != id
    ensures SameEscrow(w, CreateEscrow(w, id, buyer, seller, amount, env).world, a)
  {
    var lock := Payment(Party(buyer), Custody(id), amount);
    PaymentElsewhere(w, CreateEscrow(w, id, buyer, seller, amount, env).world, id, buyer, lock, a);
  }

  lemma FullPayoutElsewhere(w: World, id: EscrowId, env: Env, a: EscrowId)
    requires id in w.escrows && a in w.escrows && a != id
    ensures SameEscrow(w, ReleaseFunds(w, id, env).world, a) && SameEscrow(w, RefundBuyer(w, id, env).world, a)
  {
    var e := w.escrows[id];
    PaymentElsewhere(w, ReleaseFunds(w, id, env).world, id, e.seller, Payment(Custody(id), Party(e.seller), e.amount), a);
    PaymentElsewhere(w, RefundBuyer(w, id, env).world, id, e.buyer, Payment(Custody(id), Party(e.buyer), e.amount), a);
  }

  lemma OpenDisputeElsewhere(w: World, d: DisputeId, escrow: Option<EscrowId>, env: Env, a: EscrowId)
    requires a in w.escrows && escrow != Some(a)
    ensures SameEscrow(w, OpenDisputeCall(w, d, escrow, env).world, a)
  {
    var t := OpenDisputeCall(w, d, escrow, env).world;
    assert t.ledger == w.ledger && a in t.escrows && t.escrows[a] == w.escrows[a];
  }

  lemma ResolveElsewhere(w: World, d: DisputeId, refund: int, env: Env, a: EscrowId)
    requires Inv(w) && a in w.escrows && d in w.disputes && w.disputes[d].escrowId != Some(a)
    ensures SameEscrow(w, ResolveDisputeCall(w, d, refund, env).world, a)
  {
    if w.disputes[d].escrowId.Some? && w.disputes[d].escrowId.value in w.escrows {
      var id := w.disputes[d].escrowId.value;
      SplitStepElsewhere(w, id, w.escrows[id].amount - refund, refund, env, a);
    }
  }

  lemma StepElsewhere(w: World, step: Step, a: EscrowId)
    requires Inv(w) && FreshIds(w, step)
    requires a in w.escrows && Target(w, step) != Some(a)
    ensures SameEscrow(w, Apply(w, step).world, a)
  {
    match step
    case Create(id, b, s, amount, env) => CreateElsewhere(w, id, b, s, amount, env, a);
    case Release(id, env) => if id in w.escrows { FullPayoutElsewhere(w, id, env, a); }
    case Refund(id, env) => if id in w.escrows { FullPayoutElsewhere(w, id, env, a); }
    case ReleasePartial(id, released, env) =>
      if id in w.escrows { SplitStepElsewhere(w, id, released, 0, env, a); }
    case AdminRelease(id, s, b, env) =>
      if id in w.escrows { SplitStepElsewhere(w, id, s, b, env, a); }
    case Freeze(id, env) =>
    case OpenDispute(d, escrow, env) => OpenDisputeElsewhere(w, d, escrow, env, a);
    case UpdateDispute(d, status, env) =>
    case ResolveDispute(d, refund, env) => if d in w.disputes { ResolveElsewhere(w, d, refund, env, a); }
  }

  // A split is complete only if the account could cover both shares.
  lemma SplitNeedsFunds(l: Ledger, id: EscrowId, e: Escrow, toSeller: int, toBuyer: int, env: Env)
    requires e.buyer != e.seller && 0 <= Balance(l, Custody(id)) < toSeller + toBuyer
    ensures !Split(l, id, e, toSeller, toBuyer, env).1
    ensures Balance(Split(l, id, e, toSeller, toBuyer, env).0, Custody(id)) <= Balance(l, Custody(id))
  {
    var seller, buyer := SplitEffect(l, id, e, toSeller, toBuyer, env);
  }

  // ---------------------------------------------------------------- settled escrows

  lemma SettledStep(w: World, step: Step, id: EscrowId)
    requires Inv(w) && FreshIds(w, step)
    requires id in w.escrows && Settled(w.escrows[id].status)
    ensures SameEscrow(w, Apply(w, step).world, id)
  {
    if Target(w, step) != Some(id) {
      StepElsewhere(w, step, id);
    } else {
      assert RowInv(w.ledger, id, w.escrows[id]);
    }
  }

  /** No step of any run moves money of a settled escrow or changes its row. */
  lemma {:induction false} SettledForever(w: World, steps: seq<Step>, id: EscrowId)
    requires Inv(w) && Runnable(w, steps)
    requires id in w.escrows && Settled(w.escrows[id].status)
    ensures SameEscrow(w, Run(w, steps), id)
    decreases |steps|
  {
    if steps != [] {
      StepSafe(w, steps[0]);
      SettledStep(w, steps[0], id);
      SettledForever(Apply(w, steps[0]).world, steps[1..], id);
    }
  }

  lemma {:induction false} RunSafe(w: World, steps: seq<Step>)
    requires Inv(w) && Runnable(w, steps)
    ensures Safe(w, Run(w, steps))
    decreases |steps|
  {
    if steps != [] {
      StepSafe(w, steps[0]);
      RunSafe(Apply(w, steps[0]).world, steps[1..]);
    }
  }

  /** Over every run from a ledger that knows no escrow account, failures included: money is conserved, and a
      settled escrow has an empty account and has paid its parties exactly the locked amount between them. */
  lemma ConservedAndPaidExactly(balances: map<Account, int>, steps: seq<Step>, id: EscrowId)
    requires forall a :: Custody(a) !in balances
    requires Runnable(World(Ledger(balances, []), map[], map[]), steps)
    ensures
      var t := Run(World(Ledger(balances, []), map[], map[]), steps);
      && TotalMoney(t.ledger) == TotalMoney(Ledger(balances, []))
      && (id in t.escrows && Settled(t.escrows[id].status) ==>
            && Balance(t.ledger, Custody(id)) == 0
            && ToSeller(t.ledger, id, t.escrows[id]) + ToBuyer(t.ledger, id, t.escrows[id]) == t.escrows[id].amount)
  {
    RunSafe(World(Ledger(balances, []), map[], map[]), steps);
    var t := Run(World(Ledger(balances, []), map[], map[]), steps);
    assert id in t.escrows ==> RowInv(t.ledger, id, t.escrows[id]);
  }

  // A distribution that goes through pays exactly its shares, out of everything the escrow ever held.
  lemma DistributionPaysShares(w: World, id: EscrowId, toSeller: int, toBuyer: int, env: Env)
    requires Inv(w) && AdminReleaseFunds(w, id, toSeller, toBuyer, env).error == None
    ensures id in w.escrows && 0 <= toSeller && 0 <= toBuyer
    ensures
      var t := AdminReleaseFunds(w, id, toSeller, toBuyer, env).world;
      && id in t.escrows && t.escrows[id].status == Released && t.disputes == w.disputes
      && ToSeller(t.ledger, id, t.escrows[id]) == toSeller && ToBuyer(t.ledger, id, t.escrows[id]) == toBuyer
  {
    assert RowInv(w.ledger, id, w.escrows[id]);
    var seller, buyer := SplitEffect(w.ledger, id, w.escrows[id], toSeller, toBuyer, env);
  }

  /** A dispute resolved over an escrow gives the buyer the decided refund, the seller the rest, and nothing else. */
  lemma ResolutionPaysTheDecision(w: World, d: DisputeId, refund: int, env: Env, id: EscrowId)
    requires Inv(w) && d in w.disputes && w.disputes[d].escrowId == Some(id)
    requires ResolveDisputeCall(w, d, refund, env).error == None
    ensures id in w.escrows
    ensures
      var t := ResolveDisputeCall(w, d, refund, env).world;
      && id in t.escrows && t.escrows[id].status == Released && t.disputes[d].status == Resolved
      && 0 <= refund <= w.escrows[id].amount
      && ToBuyer(t.ledger, id, t.escrows[id]) == refund
      && ToSeller(t.ledger, id, t.escrows[id]) == w.escrows[id].amount - refund
  {
    DistributionPaysShares(w, id, w.escrows[id].amount - refund, refund, env);
  }

  // A dispute never changes which escrow it is about.
  lemma {:induction false} DisputeKeepsEscrow(w: World, steps: seq<Step>, d: DisputeId)
    requires Runnable(w, steps) && d in w.disputes
    ensures d in Run(w, steps).disputes && Run(w, steps).disputes[d].escrowId == w.disputes[d].escrowId
    decreases |steps|
  {
    if steps != [] {
      DisputeKeepsEscrow(Apply(w, steps[0]).world, steps[1..], d);
    }
  }

  lemma RefusedOnceSettled(w: World, steps: seq<Step>, d: DisputeId, id: EscrowId, refund: int, env: Env)
    requires Inv(w) && Runnable(w, steps) && d in w.disputes && w.disputes[d].escrowId == Some(id)
    requires id in w.escrows && Settled(w.escrows[id].status)
    ensures
      var t := Run(w, steps);
      ResolveDisputeCall(t, d, refund, env).error.Some? && ResolveDisputeCall(t, d, refund, env).world == t
  {
    SettledForever(w, steps, id);
    DisputeKeepsEscrow(w, steps, d);
  }

  lemma UnsavedResolution(w: World, d: DisputeId, refund: int, env: Env, id: EscrowId)
    requires Inv(w) && d in w.disputes && w.disputes[d].escrowId == Some(id) && id in w.escrows
    requires CanTransition(w.disputes[d].status, Resolved) && !env.saveDispute
    requires AdminReleaseFunds(w, id, w.escrows[id].amount - refund, refund, env).error == None
    ensures
      var t := ResolveDisputeCall(w, d, refund, env).world;
      && ResolveDisputeCall(w, d, refund, env).error == Some(SaveFailed) && Inv(t)
      && t.disputes == w.disputes && id in t.escrows && t.escrows[id].status == Released
      && ToBuyer(t.ledger, id, t.escrows[id]) == refund
  {
    DistributionPaysShares(w, id, w.escrows[id].amount - refund, refund, env);
    AdminReleaseSafe(w, id, w.escrows[id].amount - refund, refund, env);
  }

  /** When the dispute's own save fails after the payout, the escrow is RELEASED with the decided shares and the dispute
      unresolved; and resolving it is refused ever after, whatever happens in between. */
  lemma UnsavedResolutionRefusedForever(w: World, d: DisputeId, refund: int, env: Env, id: EscrowId,
                                        steps: seq<Step>, again: int, env': Env)
    requires Inv(w) && d in w.disputes && w.disputes[d].escrowId == Some(id) && id in w.escrows
    requires CanTransition(w.disputes[d].status, Resolved) && !env.saveDispute
    requires AdminReleaseFunds(w, id, w.escrows[id].amount - refund, refund, env).error == None
    requires Runnable(ResolveDisputeCall(w, d, refund, env).world, steps)
    ensures
      var t := ResolveDisputeCall(w, d, refund, env).world;
      && ResolveDisputeCall(w, d, refund, env).error == Some(SaveFailed)
      && t.disputes == w.disputes && id in t.escrows && t.escrows[id].status == Released
      && ToBuyer(t.ledger, id, t.escrows[id]) == refund
      && ResolveDisputeCall(Run(t, steps), d, again, env').error.Some?
      && ResolveDisputeCall(Run(t, steps), d, again, env').world == Run(t, steps)
  {
    UnsavedResolution(w, d, refund, env, id);
    RefusedOnceSettled(ResolveDisputeCall(w, d, refund, env).world, steps, d, id, again, env');
  }

  // ---------------------------------------------------------------- stranded escrows

  predicate Stranded(w: World, id: EscrowId) {
    id in w.escrows && Held(w.escrows[id].status) && Balance(w.ledger, Custody(id)) < w.escrows[id].amount
  }

  lemma StrandedSplit(w: World, t: World, id: EscrowId, toSeller: int, toBuyer: int, env: Env)
    requires Inv(w) && Stranded(w, id) && SplitCall(w, t, id, toSeller, toBuyer, env)
    ensures Stranded(t, id)
  {
    assert RowInv(w.ledger, id, w.escrows[id]);
    SplitNeedsFunds(w.ledger, id, w.escrows[id], toSeller, toBuyer, env);
  }

  lemma StrandedAdminRelease(w: World, id: EscrowId, toSeller: int, toBuyer: int, env: Env)
    requires Inv(w) && Stranded(w, id)
    ensures Stranded(AdminReleaseFunds(w, id, toSeller, toBuyer, env).world, id)
    ensures AdminReleaseFunds(w, id, toSeller, toBuyer, env).error.Some?
  {
    AdminReleaseShape(w, id, toSeller, toBuyer, env);
    var t := AdminReleaseFunds(w, id, toSeller, toBuyer, env).world;
    if t != w { StrandedSplit(w, t, id, toSeller, toBuyer, env); }
  }

  lemma StrandedPartialRelease(w: World, id: EscrowId, released: int, env: Env)
    requires Inv(w) && Stranded(w, id)
    ensures Stranded(PartialRelease(w, id, released, env).world, id)
  {
    PartialReleaseShape(w, id, released, env);
    var t := PartialRelease(w, id, released, env).world;
    if t != w { StrandedSplit(w, t, id, released, w.escrows[id].amount - released, env); }
  }

  // The account cannot cover a full payout, and the other calls leave it alone.
  lemma StrandedOtherwise(w: World, step: Step, id: EscrowId)
    requires Stranded(w, id) && FreshIds(w, step) && Target(w, step) == Some(id)
    requires step.Create? || step.Release? || step.Refund? || step.Freeze? || step.OpenDispute? || step.UpdateDispute?
    ensures Stranded(Apply(w, step).world, id)
  {}

  lemma StrandedStep(w: World, step: Step, id: EscrowId)
    requires Inv(w) && FreshIds(w, step) && Stranded(w, id)
    ensures Stranded(Apply(w, step).world, id)
  {
    if Target(w, step) != Some(id) {
      StepElsewhere(w, step, id);
    } else {
      match step
      case ReleasePartial(_, released, env) => StrandedPartialRelease(w, id, released, env);
      case AdminRelease(_, s, b, env) => StrandedAdminRelease(w, id, s, b, env);
      case ResolveDispute(d, refund, env) =>
        StrandedAdminRelease(w, id, w.escrows[id].amount - refund, refund, env);
      case _ => StrandedOtherwise(w, step, id);
    }
  }

  lemma {:induction false} StrandedForever(w: World, steps: seq<Step>, id: EscrowId)
    requires Inv(w) && Runnable(w, steps) && Stranded(w, id)
    ensures Stranded(Run(w, steps), id)
    decreases |steps|
  {
    if steps != [] {
      StepSafe(w, steps[0]);
      StrandedStep(w, steps[0], id);
      StrandedForever(Apply(w, steps[0]).world, steps[1..], id);
    }
  }

  ghost predicate CanSettle(w: World, id: EscrowId) {
    exists steps :: Runnable(w, steps) && id in Run(w, steps).escrows && Settled(Run(w, steps).escrows[id].status)
  }

  lemma PendingStep(w: World, step: Step, id: EscrowId)
    requires Inv(w) && FreshIds(w, step)
    requires id in w.escrows && w.escrows[id].status == Pending
    ensures SameEscrow(w, Apply(w, step).world, id)
  {
    if Target(w, step) != Some(id) {
      StepElsewhere(w, step, id);
    }
  }

  /** No call moves an escrow out of PENDING once it was created, or touches its account. */
  lemma {:induction false} PendingForever(w: World, steps: seq<Step>, id: EscrowId)
    requires Inv(w) && Runnable(w, steps)
    requires id in w.escrows && w.escrows[id].status == Pending
    ensures SameEscrow(w, Run(w, steps), id)
    decreases |steps|
  {
    if steps != [] {
      StepSafe(w, steps[0]);
      PendingStep(w, steps[0], id);
      PendingForever(Apply(w, steps[0]).world, steps[1..], id);
    }
  }

  /** A creation whose payment goes through and whose second save fails leaves a PENDING row and the whole amount in an
      account that no run ever moves. */
  lemma HalfCreationLocksForever(w: World, id: EscrowId, buyer: Key, seller: Key, amount: int, env: Env, steps: seq<Step>)
    requires Inv(w) && id !in w.escrows && 0 < amount && buyer != seller
    requires env.save1 && !env.save2 && Accepts(w.ledger, Payment(Party(buyer), Custody(id), amount), env.net1)
    requires Runnable(CreateEscrow(w, id, buyer, seller, amount, env).world, steps)
    ensures CreateEscrow(w, id, buyer, seller, amount, env).error == Some(SaveFailed)
    ensures
      var t := Run(CreateEscrow(w, id, buyer, seller, amount, env).world, steps);
      id in t.escrows && t.escrows[id].status == Pending && Balance(t.ledger, Custody(id)) == amount
  {
    var t := CreateEscrow(w, id, buyer, seller, amount, env).world;
    CreateSafe(w, id, buyer, seller, amount, env);
    assert Untouched(w.ledger, id);
    PayEffect(w.ledger, Payment(Party(buyer), Custody(id), amount));
    PendingForever(t, steps, id);
  }

  lemma NeverSettles(w: World, id: EscrowId)
    requires Inv(w) && id in w.escrows && (w.escrows[id].status == Pending || Stranded(w, id))
    ensures !CanSettle(w, id)
  {
    forall steps | Runnable(w, steps)
      ensures !(id in Run(w, steps).escrows && Settled(Run(w, steps).escrows[id].status))
    {
      if w.escrows[id].status == Pending {
        PendingForever(w, steps, id);
      } else {
        StrandedForever(w, steps, id);
      }
    }
  }

  lemma FullSettles(w: World, id: EscrowId)
    requires Inv(w) && id in w.escrows && Held(w.escrows[id].status)
    requires Balance(w.ledger, Custody(id)) == w.escrows[id].amount
    ensures CanSettle(w, id)
  {
    assert RowInv(w.ledger, id, w.escrows[id]);
    var ok := Env(true, true, true, true, true);
    var step := if w.escrows[id].status == Locked then Release(id, ok) else Refund(id, ok);
    var steps := [step];
    assert Runnable(Apply(w, step).world, steps[1..]);
    assert Runnable(w, steps) && Run(w, steps) == Apply(w, step).world;
  }

  /** An escrow not yet settled can still be settled by some run exactly when it is locked or frozen and its account holds
      the whole amount. */
  lemma SettleableExactlyWhenFull(w: World, id: EscrowId)
    requires Inv(w) && id in w.escrows && !Settled(w.escrows[id].status)
    ensures CanSettle(w, id) <==> Held(w.escrows[id].status) && Balance(w.ledger, Custody(id)) == w.escrows[id].amount
  {
    assert RowInv(w.ledger, id, w.escrows[id]);
    if Held(w.escrows[id].status) && Balance(w.ledger, Custody(id)) == w.escrows[id].amount {
      FullSettles(w, id);
    } else {
      NeverSettles(w, id);
    }
  }

  /** A partial release whose first payment goes through and whose refund does not leaves the escrow LOCKED with
      too little in its account, from where no run settles it. */
  lemma HalfFailureStrands(w: World, id: EscrowId, released: int, env: Env)
    requires Inv(w) && id in w.escrows && w.escrows[id].status == Locked
    requires Balance(w.ledger, Custody(id)) == w.escrows[id].amount
    requires 0 < released < w.escrows[id].amount && env.net1 && !env.net2
    ensures
      var t := PartialRelease(w, id, released, env).world;
      && PartialRelease(w, id, released, env).error == Some(SubmissionRefused)
      && id in t.escrows && t.escrows[id].status == Locked
      && Balance(t.ledger, Custody(id)) == w.escrows[id].amount - released
      && !CanSettle(t, id)
  {
    var e := w.escrows[id];
    assert RowInv(w.ledger, id, e);
    PayoutEffect(w.ledger, id, e, e.seller, released);
    PartialReleaseSafe(w, id, released, env);
    SettleableExactlyWhenFull(PartialRelease(w, id, released, env).world, id);
  }
}
