/**
 * The services that write the order and payment tables in place. Each call is one atomic step of OrderProtocol.
 */
module PaymentServices {
  import opened Common
  import opened OrderProtocol

  /** The tables shared by every service. */
  class Database {
    var orders: map<OrderId, Order>
    var payments: map<PaymentId, Payment>
    var wallets: map<UserId, string>

    ghost function State(): Store
      reads this
    {
      Store(orders, payments, wallets)
    }

    ghost function StillPending(): set<PaymentId>
      reads this
    {
      set p | p in payments && payments[p].status == PaymentStatus.Pending
    }

    constructor (wallets: map<UserId, string>)
      ensures State() == Store(map[], map[], wallets)
    {
      this.orders := map[];
      this.payments := map[];
      this.wallets := wallets;
    }
  }

  class PaymentsService {
    const db: Database

    constructor (db: Database)
      ensures this.db == db
    {
      this.db := db;
    }

    method InitiatePayment(request: InitiateRequest, newId: PaymentId, now: int) returns (r: Result<PaymentId, Error>)
      requires newId !in db.payments
      modifies db`payments
      ensures db.State() == Initiate(old(db.State()), request, newId, now).store
      ensures r.Ok? <==> Initiate(old(db.State()), request, newId, now).error == None
      ensures r.Err? ==> Some(r.error) == Initiate(old(db.State()), request, newId, now).error
      ensures r.Ok? ==> r.value in db.payments && db.payments[r.value].orderId == request.orderId
                        && db.payments[r.value].status == PaymentStatus.Pending
    {
      if request.orderId !in db.orders { return Err(OrderNotFound); }
      var order := db.orders[request.orderId];
      if order.status == ManualReview { return Err(UnderManualReview); }
      if order.status != OrderStatus.Pending { return Err(OrderNotPending); }
      if order.currency.Some? && order.currency.value != "" && order.currency.value != Code(request.currency) {
        return Err(CurrencyMismatch);
      }
      var pending := set p | p in db.payments && db.payments[p].orderId == request.orderId
                             && db.payments[p].status == PaymentStatus.Pending;
      if pending != {} {
        var existing :| existing in pending;
        assert HasPendingPayment(db.State(), request.orderId);
        return Ok(existing);
      }
      assert forall p :: p in db.payments && db.payments[p].orderId == request.orderId ==>
          db.payments[p].status != PaymentStatus.Pending by {
        assert forall p :: p in db.payments ==> p !in pending;
      }
      if order.buyer !in db.wallets { return Err(WalletNotFound); }
      var payment := NewPayment(order, db.wallets[order.buyer], request, now);
      db.payments := db.payments[newId := payment];
      return Ok(newId);
    }

    method VerifyAndConfirmPayment(id: PaymentId, tx: Transaction, now: int) returns (error: Option<Error>)
      modifies db`payments, db`orders
      ensures Reply(db.State(), error) == Verify(old(db.State()), id, tx, now)
    {
      if id !in db.payments { return Some(PaymentNotFound); }
      var payment := db.payments[id];
      if payment.status != PaymentStatus.Pending { return Some(PaymentNotPending); }
      if payment.orderId in db.orders && db.orders[payment.orderId].status == ManualReview {
        return Some(UnderManualReview);
      }
      if !ValidTransaction(payment, tx, now) {
        db.payments := db.payments[id := payment.(status := PaymentStatus.Failed)];
        return None;
      }
      db.payments := db.payments[id := payment.(status := PaymentStatus.Confirmed)];
      if payment.orderId !in db.orders { return Some(OrderMissingOnConfirm); }
      var order := db.orders[payment.orderId];
      db.orders := db.orders[payment.orderId := order.(status := OrderStatus.Paid, markedPaid := true)];
      return None;
    }

    method HandlePaymentTimeout(id: PaymentId) returns (error: Option<Error>)
      modifies db`payments
      ensures Reply(db.State(), error) == TimeOut(old(db.State()), id)
    {
      if id !in db.payments { return Some(PaymentNotFound); }
      var payment := db.payments[id];
      if payment.status == PaymentStatus.Pending {
        db.payments := db.payments[id := payment.(status := PaymentStatus.Timeout)];
      } else {
        assert db.payments[id := payment] == db.payments;
      }
      return None;
    }
  }

  // A requested item: the currency its product is priced in, when there is such a product, and its price times quantity.
  datatype Line = Line(productCurrency: Option<string>, subtotal: int)

  // The order's total, or the refusal of the first line without a product or in another currency.
  function Priced(lines: seq<Line>, currency: string): Result<int, Error> {
    if lines == [] then Ok(0)
    else
      var last := lines[|lines| - 1];
      match Priced(lines[..|lines| - 1], currency)
      case Err(e) => Err(e)
      case Ok(total) =>
        if last.productCurrency == None then Err(ProductNotFound)
        else if last.productCurrency.value != currency then Err(CurrencyMismatch)
        else Ok(total + last.subtotal)
  }

  lemma {:induction false} RefusedLine(lines: seq<Line>, currency: string, k: nat)
    requires k <= |lines| && Priced(lines[..k], currency).Err?
    ensures Priced(lines, currency) == Priced(lines[..k], currency)
  {
    if k == |lines| {
      assert lines[..k] == lines;
    } else {
      assert lines[..|lines| - 1][..k] == lines[..k];
      RefusedLine(lines[..|lines| - 1], currency, k);
    }
  }

  class OrdersService {
    const db: Database

    constructor (db: Database)
      ensures this.db == db
    {
      this.db := db;
    }

    // stockOk stands for the inventory calls made inside the transaction; when they throw, nothing is saved.
    method Create(id: OrderId, buyer: UserId, currency: string, lines: seq<Line>, milestones: seq<int>, stockOk: bool)
      returns (error: Option<Error>)
      requires id !in db.orders
      modifies db`orders
      ensures Reply(db.State(), error)
           == match Priced(lines, currency)
              case Err(e) => Reply(old(db.State()), Some(e))
              case Ok(total) => OrderProtocol.Create(old(db.State()), id, buyer, currency, total, Total(milestones), stockOk)
    {
      var total := 0;
      for i := 0 to |lines|
        invariant Priced(lines[..i], currency) == Ok(total)
        invariant db.State() == old(db.State())
      {
        assert lines[..i + 1][..i] == lines[..i];
        if lines[i].productCurrency == None {
          RefusedLine(lines, currency, i + 1);
          return Some(ProductNotFound);
        }
        if lines[i].productCurrency.value != currency {
          RefusedLine(lines, currency, i + 1);
          return Some(CurrencyMismatch);
        }
        total := total + lines[i].subtotal;
      }
      assert lines[..|lines|] == lines;
      if total <= 0 { return Some(InvalidTotal); }
      var milestoneTotal := Add(milestones);
      if milestoneTotal != 0 && milestoneTotal > total { return Some(InvalidTotal); }
      if !stockOk { return Some(StockRefused); }
      db.orders := db.orders[id := Order(buyer, Some(currency), total, OrderStatus.Pending, false)];
      return None;
    }

    method UpdateStatus(id: OrderId, status: OrderStatus, stockOk: bool) returns (error: Option<Error>)
      modifies db`orders
      ensures Reply(db.State(), error) == Update(old(db.State()), id, status, stockOk)
    {
      if id !in db.orders { return Some(OrderNotFound); }
      var order := db.orders[id];
      if status !in AllowedNext(order.status) { return Some(InvalidTransition); }
      if status == Paid {
        if !stockOk { return Some(StockRefused); }
        order := order.(markedPaid := true);
      } else if status == Cancelled {
        if !stockOk { return Some(StockRefused); }
      }
      db.orders := db.orders[id := order.(status := status)];
      return None;
    }

    method CancelOrder(id: OrderId, user: UserId, stockOk: bool) returns (error: Option<Error>)
      modifies db`orders
      ensures Reply(db.State(), error) == Cancel(old(db.State()), id, user, stockOk)
    {
      if id !in db.orders { return Some(Unauthorized); }
      var order := db.orders[id];
      if order.buyer != user { return Some(Unauthorized); }
      if order.status == Cancelled { return Some(AlreadyCancelled); }
      if !stockOk { return Some(StockRefused); }
      db.orders := db.orders[id := order.(status := Cancelled)];
      return None;
    }
  }

  function Total(xs: seq<int>): int {
    if xs == [] then 0 else Total(xs[..|xs| - 1]) + xs[|xs| - 1]
  }

  method Add(xs: seq<int>) returns (sum: int)
    ensures sum == Total(xs)
  {
    sum := 0;
    for i := 0 to |xs|
      invariant sum == Total(xs[..i])
    {
      assert xs[..i + 1][..i] == xs[..i];
      sum := sum + xs[i];
    }
    assert xs[..|xs|] == xs;
  }

  /** The order hold taken when a request scores high enough. */
  method MarkForReview(db: Database, id: OrderId, riskScore: int)
    modifies db`orders
    ensures db.State() == Hold(old(db.State()), id, riskScore)
  {
    if riskScore >= REVIEW_SCORE && id in db.orders {
      var order := db.orders[id];
      if order.status != ManualReview {
        db.orders := db.orders[id := order.(status := ManualReview)];
      } else {
        assert db.orders[id := order.(status := ManualReview)] == db.orders;
      }
    }
  }

  // ---------------------------------------------------------------- the payment monitor

  datatype Operation = Operation(isPayment: bool, to: Option<string>, destination: Option<string>,
                                 amount: Option<int>, asset: Option<string>)

  // The source reads the recipient from either of two fields; an absent or empty first field yields the second.
  function Recipient(op: Operation): Option<string> {
    if op.to.Some? && op.to.value != "" then op.to else op.destination
  }

  function AssetOf(op: Operation): string {
    if op.asset.Some? && op.asset.value != "" then op.asset.value else "XLM"
  }

  predicate Relevant(p: Payment, op: Operation, address: string) {
    && op.isPayment
    && Recipient(op) == Some(address)
    && !(op.amount.Some? && Abs(op.amount.value - p.amount) > TOLERANCE)
    && (p.currency != XLM ==> Upper(AssetOf(op)) == Code(p.currency))
  }

  function ToTransaction(op: Operation, createdAt: Option<int>): Transaction
    requires Recipient(op).Some?
  {
    Transaction(Recipient(op).value, op.amount, Some(AssetOf(op)), createdAt)
  }

  function FirstRelevant(p: Payment, ops: seq<Operation>, address: string): (k: nat)
    ensures k <= |ops|
    ensures forall i :: 0 <= i < k ==> !Relevant(p, ops[i], address)
    ensures k < |ops| ==> Relevant(p, ops[k], address)
  {
    if ops == [] || Relevant(p, ops[0], address) then 0
    else
      var k := FirstRelevant(p, ops[1..], address);
      assert forall i :: 0 < i < 1 + k ==> ops[i] == ops[1..][i - 1];
      1 + k
  }

  ghost function Incoming(s: Store, id: PaymentId, ops: seq<Operation>, createdAt: Option<int>, address: string, now: int): Store {
    if id !in s.payments || s.payments[id].status != PaymentStatus.Pending then s
    else
      var k := FirstRelevant(s.payments[id], ops, address);
      if k == |ops| then s else Verify(s, id, ToTransaction(ops[k], createdAt), now).store
  }

  // The sweep has reached every payment but those still to do.
  ghost predicate SweptBut(before: map<PaymentId, Payment>, after: map<PaymentId, Payment>, todo: set<PaymentId>, deadline: int) {
    && after.Keys == before.Keys && todo <= before.Keys
    && (forall p :: p in todo ==> after[p] == before[p])
    && (forall p :: p in before && p !in todo ==>
          after[p] == if before[p].expiresAt < deadline then TimedOut(before[p]) else before[p])
  }

  lemma SweptOneMore(before: map<PaymentId, Payment>, after: map<PaymentId, Payment>, todo: set<PaymentId>, deadline: int, p: PaymentId)
    requires SweptBut(before, after, todo, deadline) && p in todo
    ensures SweptBut(before, after[p := if after[p].expiresAt < deadline then TimedOut(after[p]) else after[p]], todo - {p}, deadline)
  {}

  lemma SweptAll(s: Store, after: map<PaymentId, Payment>, deadline: int)
    requires SweptBut(s.payments, after, {}, deadline)
    ensures after == TimeOutBefore(s, deadline).payments
  {}

  // The timers with those of the given payments set anew.
  ghost predicate Armed(timers0: map<PaymentId, int>, ids: set<PaymentId>, due: int, timers: map<PaymentId, int>) {
    && timers.Keys == timers0.Keys + ids
    && forall p :: p in timers ==> timers[p] == if p in ids then due else timers0[p]
  }

  // Monitoring of the given payments has been added, with a new timer for each not monitored before.
  ghost predicate Added(active0: set<PaymentId>, timers0: map<PaymentId, int>, done: set<PaymentId>, due: int,
                        active: set<PaymentId>, timers: map<PaymentId, int>) {
    active == active0 + done && Armed(timers0, done - active0, due, timers)
  }

  lemma AddedNone(active: set<PaymentId>, timers: map<PaymentId, int>, due: int)
    ensures Added(active, timers, {}, due, active, timers)
  {}

  lemma AddedOne(active0: set<PaymentId>, timers0: map<PaymentId, int>, done: set<PaymentId>, due: int,
                 active: set<PaymentId>, timers: map<PaymentId, int>, p: PaymentId)
    requires Added(active0, timers0, done, due, active, timers) && p !in done
    ensures Added(active0, timers0, done + {p}, due, active + {p}, if p in active then timers else timers[p := due])
  {}

  // The payments a restart monitors again.
  ghost function Watched(s: Store, now: int, streamOpens: set<PaymentId>): set<PaymentId> {
    set p | p in s.payments && s.payments[p].status == PaymentStatus.Pending && s.payments[p].expiresAt > now && p in streamOpens
  }

  lemma WatchOne(watched: set<PaymentId>, todo: set<PaymentId>, p: PaymentId)
    requires p in todo
    ensures watched - (todo - {p}) == (watched - todo) + (if p in watched then {p} else {})
  {}

  lemma WatchedRemain(s: Store, after: map<PaymentId, Payment>, now: int, streamOpens: set<PaymentId>)
    requires after == TimeOutBefore(s, now + 1).payments
    ensures Watched(s, now, streamOpens) == (set p | p in after && after[p].status == PaymentStatus.Pending) * streamOpens
  {}

  lemma AddedOneMore(active0: set<PaymentId>, timers0: map<PaymentId, int>, watched: set<PaymentId>, todo: set<PaymentId>, due: int,
                     active: set<PaymentId>, timers: map<PaymentId, int>, p: PaymentId)
    requires Added(active0, timers0, watched - todo, due, active, timers) && p in todo
    ensures Added(active0, timers0, watched - (todo - {p}), due, if p in watched then active + {p} else active,
                  if p in watched && p !in active then timers[p := due] else timers)
  {
    WatchOne(watched, todo, p);
    if p in watched {
      AddedOne(active0, timers0, watched - todo, due, active, timers, p);
    }
  }

  class PaymentMonitor {
    const db: Database
    const service: PaymentsService
    var activeStreams: set<PaymentId>
    // When the timer of each payment fires.
    var timers: map<PaymentId, int>

    ghost predicate Valid()
      reads this
    {
      service.db == db && timers.Keys <= activeStreams
    }

    constructor (service: PaymentsService)
      ensures Valid() && this.service == service && activeStreams == {} && timers == map[]
    {
      this.service := service;
      this.db := service.db;
      activeStreams := {};
      timers := map[];
    }

    method StopMonitoring(id: PaymentId)
      requires Valid()
      modifies this
      ensures Valid()
      ensures activeStreams == old(activeStreams) - {id} && timers == old(timers) - {id}
    {
      activeStreams := activeStreams - {id};
      timers := timers - {id};
    }

    /** A payment not yet monitored gets a stream and a timer of half an hour. When its stream does not open it gets
        neither, and the caller the error. */
    method MonitorPayment(id: PaymentId, now: int, streamOpens: bool) returns (failed: bool)
      requires Valid()
      modifies this
      ensures Valid()
      ensures failed <==> id !in old(activeStreams) && !streamOpens
      ensures activeStreams == old(activeStreams) + (if streamOpens then {id} else {})
      ensures timers == if id in old(activeStreams) || !streamOpens then old(timers) else old(timers)[id := now + TIMER_MS]
    {
      if id in activeStreams { return false; }
      if !streamOpens { return true; }
      activeStreams := activeStreams + {id};
      timers := timers[id := now + TIMER_MS];
      return false;
    }

    /** A transaction arriving on a payment's stream: the first relevant operation settles the payment. */
    method HandleIncomingTransaction(id: PaymentId, ops: seq<Operation>, createdAt: Option<int>, address: string, now: int)
      requires Valid()
      modifies this, db
      ensures Valid()
      ensures db.State() == Incoming(old(db.State()), id, ops, createdAt, address, now)
      ensures db.State() != old(db.State()) && id in db.payments && old(db.payments[id].orderId in db.orders) ==>
                id !in activeStreams && id !in timers
      ensures activeStreams + {id} == old(activeStreams) + {id} && timers - {id} == old(timers) - {id}
    {
      if id !in db.payments { return; }
      var payment := db.payments[id];
      if payment.status != PaymentStatus.Pending { return; }
      for i := 0 to |ops|
        invariant db.State() == old(db.State()) && activeStreams == old(activeStreams) && timers == old(timers)
        invariant forall j :: 0 <= j < i ==> !Relevant(payment, ops[j], address)
      {
        if Relevant(payment, ops[i], address) {
          assert FirstRelevant(payment, ops, address) == i;
          var error := service.VerifyAndConfirmPayment(id, ToTransaction(ops[i], createdAt), now);
          if error == None {
            StopMonitoring(id);
          }
          return;
        }
      }
    }

    /** The timer of one payment fires, once its time has come. */
    method TimerFires(id: PaymentId, now: int)
      requires Valid() && id in timers && timers[id] <= now
      modifies this, db
      ensures Valid()
      ensures db.State() == TimeOut(old(db.State()), id).store
      ensures timers == old(timers) - {id}
      ensures activeStreams == old(activeStreams) - (if db.State() == old(db.State()) then {} else {id})
    {
      if id in db.payments {
        if db.payments[id].status == PaymentStatus.Pending {
          var _ := service.HandlePaymentTimeout(id);
          StopMonitoring(id);
        } else {
          assert db.payments[id := db.payments[id]] == db.payments;
        }
      }
      timers := timers - {id};
    }

    ghost function Expired(deadline: int): set<PaymentId>
      reads db
    {
      set p | p in db.payments && db.payments[p].status == PaymentStatus.Pending && db.payments[p].expiresAt < deadline
    }

    /** The periodic sweep times out exactly the pending payments whose expiry has passed, and stops monitoring them. */
    method CheckAndHandleExpiredPayments(now: int)
      requires Valid()
      modifies this, db
      ensures Valid()
      ensures db.State() == TimeOutBefore(old(db.State()), now)
      ensures activeStreams == old(activeStreams) - old(Expired(now)) && timers == old(timers) - old(Expired(now))
    {
      var todo := set p | p in db.payments && db.payments[p].status == PaymentStatus.Pending;
      ghost var s := db.State();
      while todo != {}
        invariant db.orders == s.orders && db.wallets == s.wallets
        invariant Valid() && SweptBut(s.payments, db.payments, todo, now)
        invariant activeStreams == old(activeStreams) - (old(Expired(now)) - todo)
        invariant timers == old(timers) - (old(Expired(now)) - todo)
        decreases todo
      {
        var p :| p in todo;
        SweptOneMore(s.payments, db.payments, todo, now, p);
        assert db.payments[p := db.payments[p]] == db.payments;
        if db.payments[p].expiresAt < now {
          var _ := service.HandlePaymentTimeout(p);
          StopMonitoring(p);
        }
        todo := todo - {p};
      }
      SweptAll(s, db.payments, now);
    }

    // One pending payment found on a restart.
    method ResumeOne(id: PaymentId, now: int, streamOpens: bool) returns (ghost watched: bool)
      requires Valid() && id in db.payments && db.payments[id].status == PaymentStatus.Pending
      modifies this, db`payments
      ensures Valid()
      ensures db.payments == old(db.payments)[id := if old(db.payments)[id].expiresAt < now + 1 then TimedOut(old(db.payments)[id])
                                                    else old(db.payments)[id]]
      ensures watched <==> old(db.payments)[id].expiresAt > now && streamOpens
      ensures activeStreams == if watched then old(activeStreams) + {id} else old(activeStreams)
      ensures timers == if watched && id !in old(activeStreams) then old(timers)[id := now + TIMER_MS] else old(timers)
    {
      watched := false;
      if db.payments[id].expiresAt > now {
        var failed := MonitorPayment(id, now, streamOpens);
        watched := streamOpens;
        assert db.payments[id := db.payments[id]] == db.payments;
      } else {
        var _ := service.HandlePaymentTimeout(id);
      }
    }

    /** Restart: pending payments not yet expired are monitored again, those not monitored before with a new half hour,
        and the others time out. A stream may fail to open, which leaves that payment unmonitored. */
    method ResumePendingPaymentMonitoring(now: int, streamOpens: set<PaymentId>)
      requires Valid()
      modifies this, db
      ensures Valid()
      ensures db.State() == TimeOutBefore(old(db.State()), now + 1)
      ensures activeStreams == old(activeStreams) + db.StillPending() * streamOpens
      ensures Armed(old(timers), db.StillPending() * streamOpens - old(activeStreams), now + TIMER_MS, timers)
    {
      var todo := set p | p in db.payments && db.payments[p].status == PaymentStatus.Pending;
      ghost var s, all := db.State(), Watched(db.State(), now, streamOpens);
      AddedNone(activeStreams, timers, now + TIMER_MS);
      assert all - todo == {};
      while todo != {}
        invariant Valid() && db.orders == s.orders && db.wallets == s.wallets
        invariant SweptBut(s.payments, db.payments, todo, now + 1)
        invariant forall p :: p in todo ==> s.payments[p].status == PaymentStatus.Pending
        invariant Added(old(activeStreams), old(timers), all - todo, now + TIMER_MS, activeStreams, timers)
        decreases todo
      {
        var p :| p in todo;
        SweptOneMore(s.payments, db.payments, todo, now + 1, p);
        AddedOneMore(old(activeStreams), old(timers), all, todo, now + TIMER_MS, activeStreams, timers, p);
        ghost var watched := ResumeOne(p, now, p in streamOpens);
        assert watched <==> p in all;
        todo := todo - {p};
      }
      SweptAll(s, db.payments, now + 1);
      WatchedRemain(s, db.payments, now, streamOpens);
      assert all - todo == all == db.StillPending() * streamOpens;
    }
  }

  /** A transaction seen on the stream is one verification step or none, so it keeps the protocol's invariant. */
  lemma IncomingKeepsInv(s: Store, id: PaymentId, ops: seq<Operation>, createdAt: Option<int>, address: string, now: int)
    requires Inv(s)
    ensures Inv(Incoming(s, id, ops, createdAt, address, now)) && Later(s, Incoming(s, id, ops, createdAt, address, now))
  {
    if id in s.payments && s.payments[id].status == PaymentStatus.Pending {
      var k := FirstRelevant(s.payments[id], ops, address);
      if k < |ops| {
        StepKeepsInv(s, VerifyPayment(id, ToTransaction(ops[k], createdAt), now));
        StepIsLater(s, VerifyPayment(id, ToTransaction(ops[k], createdAt), now));
      }
    }
  }

  /** An operation the stream finds relevant is rejected by the verification, which then fails the payment for
      good, exactly when an XLM payment received some other asset or a non-USD transaction came too late. */
  lemma StreamFailsPaymentExactlyWhen(p: Payment, op: Operation, createdAt: Option<int>, now: int)
    requires Relevant(p, op, p.destination)
    ensures !ValidTransaction(p, ToTransaction(op, createdAt), now)
      <==> || (p.currency == XLM && Upper(AssetOf(op)) != "XLM")
           || (p.currency != USD && createdAt.Some? && now - createdAt.value > p.timeoutMinutes * 60000)
  {}
}
