/**
 * What the calls on orders and payments accept and what they leave when they do, with the amounts, times, scores and
 * statuses written out.
 */
module OrderOutcomes {
  import opened Common
  import opened OrderProtocol
  import opened PaymentServices

  // ---------------------------------------------------------------- verification

  // The text is the code in upper or lower case.
  predicate Spells(text: string, upper: string, lower: string)
    requires |upper| == |lower|
  {
    |text| == |upper| && forall i :: 0 <= i < |text| ==> text[i] == upper[i] || text[i] == lower[i]
  }

  lemma UpperSpells(text: string)
    ensures Upper(text) == "XLM" <==> Spells(text, "XLM", "xlm")
    ensures Upper(text) == "USDC" <==> Spells(text, "USDC", "usdc")
  {
    if Spells(text, "XLM", "xlm") {
      assert Upper(text)[0] == 'X' && Upper(text)[1] == 'L' && Upper(text)[2] == 'M';
    }
    if Upper(text) == "XLM" {
      assert Upper(text)[0] == 'X' && Upper(text)[1] == 'L' && Upper(text)[2] == 'M';
    }
    if Spells(text, "USDC", "usdc") {
      assert Upper(text)[0] == 'U' && Upper(text)[1] == 'S' && Upper(text)[2] == 'D' && Upper(text)[3] == 'C';
    }
    if Upper(text) == "USDC" {
      assert Upper(text)[0] == 'U' && Upper(text)[1] == 'S' && Upper(text)[2] == 'D' && Upper(text)[3] == 'C';
    }
  }

  // To the payment's address, of its amount within 10^-4 when the amount is a number, and, unless the payment is in
  // dollars, in its asset and made within the minutes allowed.
  predicate Pays(p: Payment, tx: Transaction, now: int) {
    && tx.to == p.destination
    && (tx.amount.Some? ==> p.amount - 1000 <= tx.amount.value <= p.amount + 1000)
    && (p.currency == XLM ==> tx.asset.Some? && Spells(tx.asset.value, "XLM", "xlm"))
    && (p.currency == USDC ==> tx.asset.Some? && Spells(tx.asset.value, "USDC", "usdc"))
    && (p.currency != USD && tx.createdAt.Some? ==> now - tx.createdAt.value <= p.timeoutMinutes * 60 * 1000)
  }

  lemma ValidExactlyWhenPays(p: Payment, tx: Transaction, now: int)
    ensures ValidTransaction(p, tx, now) <==> Pays(p, tx, now)
  {
    if tx.asset.Some? {
      UpperSpells(tx.asset.value);
    }
  }

  /** Verifying an open payment confirms it and marks its order paid exactly when the transaction pays it, and otherwise
      leaves it FAILED and its order untouched; in both cases nothing else changes. */
  lemma VerificationSettles(s: Store, id: PaymentId, tx: Transaction, now: int)
    requires id in s.payments && s.payments[id].status == PaymentStatus.Pending
    requires s.payments[id].orderId in s.orders && s.orders[s.payments[id].orderId].status != ManualReview
    ensures
      var p, r := s.payments[id], Verify(s, id, tx, now);
      var order := s.orders[p.orderId];
      && r.error == None
      && (Pays(p, tx, now) ==>
            r.store == Store(s.orders[p.orderId := Order(order.buyer, order.currency, order.total, OrderStatus.Paid, true)],
                             s.payments[id := p.(status := PaymentStatus.Confirmed)], s.wallets))
      && (!Pays(p, tx, now) ==>
            r.store == Store(s.orders, s.payments[id := p.(status := PaymentStatus.Failed)], s.wallets))
  {
    ValidExactlyWhenPays(s.payments[id], tx, now);
  }

  /** Any other payment is refused, each for its own reason, and nothing changes. */
  lemma VerificationRefuses(s: Store, id: PaymentId, tx: Transaction, now: int)
    ensures id !in s.payments ==> Verify(s, id, tx, now) == Reply(s, Some(PaymentNotFound))
    ensures id in s.payments && s.payments[id].status != PaymentStatus.Pending ==>
              Verify(s, id, tx, now) == Reply(s, Some(PaymentNotPending))
    ensures id in s.payments && s.payments[id].status == PaymentStatus.Pending
            && s.payments[id].orderId in s.orders && s.orders[s.payments[id].orderId].status == ManualReview ==>
              Verify(s, id, tx, now) == Reply(s, Some(UnderManualReview))
  {}

  /** A payment of 100 XLM is failed by a transaction of 1 XLM to its address. */
  lemma OneLumenDoesNotPayHundred(s: Store, id: PaymentId, tx: Transaction, now: int)
    requires id in s.payments && s.payments[id].status == PaymentStatus.Pending && s.payments[id].amount == 1_000_000_000
    requires s.payments[id].orderId in s.orders && s.orders[s.payments[id].orderId].status == OrderStatus.Pending
    requires tx.to == s.payments[id].destination && tx.amount == Some(10_000_000)
    ensures Verify(s, id, tx, now).store.payments[id].status == PaymentStatus.Failed
    ensures Verify(s, id, tx, now).store.orders == s.orders
  {
    VerificationSettles(s, id, tx, now);
  }

  // ---------------------------------------------------------------- initiation

  /** A payment is initiated exactly for an order that exists, is PENDING, has no other currency set and has a payment
      pending or a buyer with a wallet; a refused initiation changes nothing. */
  lemma InitiatedExactlyWhen(s: Store, req: InitiateRequest, newId: PaymentId, now: int)
    ensures Initiate(s, req, newId, now).error == None
       <==> && req.orderId in s.orders && s.orders[req.orderId].status == OrderStatus.Pending
            && (s.orders[req.orderId].currency == None || s.orders[req.orderId].currency == Some("")
                || s.orders[req.orderId].currency ==
                     Some(match req.currency case XLM => "XLM" case USDC => "USDC" case USD => "USD"))
            && (HasPendingPayment(s, req.orderId) || s.orders[req.orderId].buyer in s.wallets)
    ensures Initiate(s, req, newId, now).error.Some? || HasPendingPayment(s, req.orderId) ==> Initiate(s, req, newId, now).store == s
  {}

  /** The payment it adds asks for the total less the points discount, at the buyer's wallet, for thirty minutes unless the
      request says otherwise. */
  lemma InitiatedPayment(s: Store, req: InitiateRequest, newId: PaymentId, now: int)
    requires newId !in s.payments && Initiate(s, req, newId, now).error == None && !HasPendingPayment(s, req.orderId)
    ensures
      var order, minutes := s.orders[req.orderId],
                            if req.timeoutMinutes == None || req.timeoutMinutes == Some(0) then 30 else req.timeoutMinutes.value;
      var amount := order.total - (if req.pointsDiscount.Some? then req.pointsDiscount.value else 0);
      && order.buyer in s.wallets
      && Initiate(s, req, newId, now).store ==
           Store(s.orders, s.payments[newId := Payment(req.orderId, order.buyer, amount, req.currency, s.wallets[order.buyer],
                                                       minutes, now + minutes * 60000, PaymentStatus.Pending)], s.wallets)
  {}

  // ---------------------------------------------------------------- timeouts

  /** A timeout ends exactly a pending payment; the sweep exactly the pending ones past their expiry. */
  lemma TimeoutsEnd(s: Store, id: PaymentId, deadline: int)
    requires id in s.payments
    ensures
      var p, t, swept := s.payments[id], TimeOut(s, id).store, TimeOutBefore(s, deadline);
      && TimeOut(s, id).error == None && t.orders == s.orders == swept.orders
      && t.payments.Keys == s.payments.Keys == swept.payments.Keys
      && (p.status == PaymentStatus.Pending ==> t.payments[id] == p.(status := PaymentStatus.Timeout))
      && (p.status != PaymentStatus.Pending ==> t.payments[id] == p == swept.payments[id])
      && (p.status == PaymentStatus.Pending && p.expiresAt < deadline ==> swept.payments[id] == p.(status := PaymentStatus.Timeout))
      && (p.status == PaymentStatus.Pending && p.expiresAt >= deadline ==> swept.payments[id] == p)
  {}

  // ---------------------------------------------------------------- the stream

  /** An operation concerns a payment exactly when it is a payment to its address, of its amount when that is a number,
      and in its asset, where an operation without an asset counts as XLM and an XLM payment looks at no asset. */
  lemma RelevantExactlyWhen(p: Payment, op: Operation, address: string)
    requires address != ""
    ensures Relevant(p, op, address)
       <==> && op.isPayment
            && (op.to == Some(address) || ((op.to == None || op.to == Some("")) && op.destination == Some(address)))
            && (op.amount.Some? ==> p.amount - 1000 <= op.amount.value <= p.amount + 1000)
            && (p.currency == USDC ==> op.asset.Some? && Spells(op.asset.value, "USDC", "usdc"))
            && (p.currency == USD ==> op.asset.Some? && Upper(op.asset.value) == "USD")
  {
    assert Upper("XLM")[0] == 'X';
    assert Upper("XLM") != "USDC" && Upper("XLM") != "USD";
    if op.asset.Some? {
      UpperSpells(op.asset.value);
      assert op.asset.value == "" ==> Upper(op.asset.value) == "";
    }
  }

  /** The first relevant operation seen on the stream of an open payment settles it: in XLM or USDC it is confirmed when the
      asset is right and the transaction in time, and failed otherwise. */
  lemma StreamSettles(s: Store, id: PaymentId, ops: seq<Operation>, k: nat, createdAt: Option<int>, now: int)
    requires id in s.payments && s.payments[id].status == PaymentStatus.Pending
    requires s.payments[id].orderId in s.orders && s.orders[s.payments[id].orderId].status != ManualReview
    requires k < |ops| && Relevant(s.payments[id], ops[k], s.payments[id].destination)
    requires forall i :: 0 <= i < k ==> !Relevant(s.payments[id], ops[i], s.payments[id].destination)
    ensures
      var p, t := s.payments[id], Incoming(s, id, ops, createdAt, s.payments[id].destination, now);
      var asset := if ops[k].asset == None || ops[k].asset == Some("") then "XLM" else ops[k].asset.value;
      var inTime := createdAt == None || now - createdAt.value <= p.timeoutMinutes * 60000;
      var good := match p.currency
                  case XLM => Spells(asset, "XLM", "xlm") && inTime
                  case USDC => inTime
                  case USD => true;
      && id in t.payments && t.payments[id].status == (if good then PaymentStatus.Confirmed else PaymentStatus.Failed)
      && (good ==> t.orders == s.orders[p.orderId := s.orders[p.orderId].(status := OrderStatus.Paid, markedPaid := true)])
      && (!good ==> t.orders == s.orders)
  {
    var p := s.payments[id];
    assert FirstRelevant(p, ops, p.destination) == k;
    VerificationSettles(s, id, ToTransaction(ops[k], createdAt), now);
    ValidExactlyWhenPays(p, ToTransaction(ops[k], createdAt), now);
    StreamFailsPaymentExactlyWhen(p, ops[k], createdAt, now);
    UpperSpells(AssetOf(ops[k]));
  }

  // ---------------------------------------------------------------- orders

  /** The table read by what may come before each status. */
  lemma StatusComesFrom(a: OrderStatus, b: OrderStatus)
    ensures b in AllowedNext(a) <==>
      match b
      case Pending => false
      case Confirmed => a == OrderStatus.Pending || a == ManualReview
      case Processing => a == OrderStatus.Confirmed
      case Paid => a == Processing
      case Shipped => a == Paid
      case Delivered => a == Shipped
      case Completed => a == Delivered
      case Cancelled => a in {OrderStatus.Pending, OrderStatus.Confirmed, Processing, Paid, Shipped, ManualReview}
      case Refunded => a == Delivered || a == Completed
      case ManualReview => a == OrderStatus.Pending
  {}

  /** An existing order takes an allowed status when the stock calls go through, PAID being marked; every other change of
      status is refused and changes nothing. */
  lemma StatusUpdated(s: Store, id: OrderId, status: OrderStatus, stockOk: bool)
    requires id in s.orders
    ensures
      var o, r := s.orders[id], Update(s, id, status, stockOk);
      && (r.error == None <==> status in AllowedNext(o.status) && (status == OrderStatus.Paid || status == Cancelled ==> stockOk))
      && (r.error == None ==> r.store == s.(orders := s.orders[id := Order(o.buyer, o.currency, o.total, status,
                                                                          o.markedPaid || status == OrderStatus.Paid)]))
      && (r.error.Some? ==> r.store == s)
  {}

  // One allowed update of an order stored under the id.
  lemma Walks(s: Store, id: OrderId, o: Order, status: OrderStatus)
    requires id in s.orders && s.orders[id] == o && status in AllowedNext(o.status)
    ensures Update(s, id, status, true).store ==
              s.(orders := s.orders[id := Order(o.buyer, o.currency, o.total, status, o.markedPaid || status == OrderStatus.Paid)])
  {}

  lemma OverwrittenRow(s: Store, id: OrderId, a: Order, b: Order)
    ensures s.(orders := s.orders[id := a]).orders[id := b] == s.orders[id := b]
  {}

  // The order as it stands in each status of the path.
  function At(buyer: UserId, total: int, status: OrderStatus, paid: bool): Order {
    Order(buyer, Some("USD"), total, status, paid)
  }

  function With(s: Store, id: OrderId, o: Order): Store {
    s.(orders := s.orders[id := o])
  }

  /** Each step of the ordinary path leads to the next, from creation to completion. */
  lemma OrderWalksThePath(s: Store, id: OrderId, buyer: UserId, total: int)
    requires 0 < total
    ensures Create(s, id, buyer, "USD", total, 0, true).store == With(s, id, At(buyer, total, OrderStatus.Pending, false))
    ensures Update(With(s, id, At(buyer, total, OrderStatus.Pending, false)), id, OrderStatus.Confirmed, true).store
         == With(s, id, At(buyer, total, OrderStatus.Confirmed, false))
    ensures Update(With(s, id, At(buyer, total, OrderStatus.Confirmed, false)), id, Processing, true).store
         == With(s, id, At(buyer, total, Processing, false))
    ensures Update(With(s, id, At(buyer, total, Processing, false)), id, OrderStatus.Paid, true).store
         == With(s, id, At(buyer, total, OrderStatus.Paid, true))
    ensures Ship(With(s, id, At(buyer, total, OrderStatus.Paid, true)), id).store == With(s, id, At(buyer, total, Shipped, true))
    ensures Deliver(With(s, id, At(buyer, total, Shipped, true)), id) == With(s, id, At(buyer, total, Delivered, true))
    ensures Update(With(s, id, At(buyer, total, Delivered, true)), id, Completed, true).store
         == With(s, id, At(buyer, total, Completed, true))
  {
    forall a, b
      ensures With(With(s, id, a), id, b) == With(s, id, b)
    {
      OverwrittenRow(s, id, a, b);
    }
    Walks(With(s, id, At(buyer, total, OrderStatus.Pending, false)), id, At(buyer, total, OrderStatus.Pending, false), OrderStatus.Confirmed);
    Walks(With(s, id, At(buyer, total, OrderStatus.Confirmed, false)), id, At(buyer, total, OrderStatus.Confirmed, false), Processing);
    Walks(With(s, id, At(buyer, total, Processing, false)), id, At(buyer, total, Processing, false), OrderStatus.Paid);
    Walks(With(s, id, At(buyer, total, Delivered, true)), id, At(buyer, total, Delivered, true), Completed);
  }

  /** Creation succeeds exactly with a positive total that covers the milestones and stock that can be reserved. */
  lemma CreatedExactlyWhen(s: Store, id: OrderId, buyer: UserId, currency: string, total: int, milestones: int, stockOk: bool)
    ensures
      var r := Create(s, id, buyer, currency, total, milestones, stockOk);
      && (r.error == None <==> 0 < total && milestones <= total && stockOk)
      && r.store == (if r.error == None
                     then Store(s.orders[id := Order(buyer, Some(currency), total, OrderStatus.Pending, false)], s.payments, s.wallets)
                     else s)
  {}

  /** Cancellation succeeds exactly for the buyer of an order not yet cancelled whose stock can be given back. */
  lemma CancelledExactlyWhen(s: Store, id: OrderId, user: UserId, stockOk: bool)
    ensures
      var r := Cancel(s, id, user, stockOk);
      && (r.error == None <==> id in s.orders && s.orders[id].buyer == user && s.orders[id].status != Cancelled && stockOk)
      && r.store == (if r.error == None then s.(orders := s.orders[id := s.orders[id].(status := Cancelled)]) else s)
  {}

  /** A score of 75 or more holds an existing order whatever its status, a PENDING one included; a lower score never does. */
  lemma HeldExactlyWhen(s: Store, id: OrderId, score: int)
    requires id in s.orders
    ensures 75 <= score ==> Hold(s, id, score) == s.(orders := s.orders[id := s.orders[id].(status := ManualReview)])
    ensures score < 75 ==> Hold(s, id, score) == s
  {}

  /** A shipment is created exactly for a PAID order, and a delivery report always takes. */
  lemma ShippedExactlyWhen(s: Store, id: OrderId)
    requires id in s.orders
    ensures Ship(s, id).error == None <==> s.orders[id].status == OrderStatus.Paid
    ensures Ship(s, id).store == if s.orders[id].status == OrderStatus.Paid
                                 then s.(orders := s.orders[id := s.orders[id].(status := Shipped)]) else s
    ensures Deliver(s, id) == s.(orders := s.orders[id := s.orders[id].(status := Delivered)])
  {}

  // ---------------------------------------------------------------- an order's total

  lemma {:induction false} TotalAdds(a: seq<int>, b: seq<int>)
    ensures Total(a + b) == Total(a) + Total(b)
    ensures forall x :: Total([x]) == x
  {
    forall x
      ensures Total([x]) == x
    {
      assert [x][..0] == [];
    }
    if b == [] {
      assert a + b == a;
    } else {
      TotalAdds(a, b[..|b| - 1]);
      assert (a + b)[..|a + b| - 1] == a + b[..|b| - 1];
    }
  }

  function Subtotals(lines: seq<Line>): seq<int> {
    seq(|lines|, i requires 0 <= i < |lines| => lines[i].subtotal)
  }

  /** The items are accepted exactly when each has a product in the order's currency, and then add up to the sum of all
      their subtotals. */
  lemma {:induction false} PricedExactlyWhen(lines: seq<Line>, currency: string)
    ensures Priced(lines, currency).Ok? <==> forall i :: 0 <= i < |lines| ==> lines[i].productCurrency == Some(currency)
    ensures Priced(lines, currency).Ok? ==> Priced(lines, currency).value == Total(Subtotals(lines))
  {
    if lines != [] {
      var init, last := lines[..|lines| - 1], lines[|lines| - 1];
      PricedExactlyWhen(init, currency);
      assert Subtotals(lines) == Subtotals(init) + [last.subtotal];
      TotalAdds(Subtotals(init), [last.subtotal]);
      assert forall i :: 0 <= i < |init| ==> init[i] == lines[i];
    }
  }
}
