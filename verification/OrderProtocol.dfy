/**
 * The order and payment rows that the payments, orders, fraud, shipping and payment-monitor
 * services all write, the effect of each service call on them, and what every interleaving
 * of those calls keeps.
 */
module OrderProtocol {
  import opened Common

  type OrderId = string
  type PaymentId = string
  type UserId = string

  datatype OrderStatus =
    | Pending | Confirmed | Processing | Paid | Shipped
    | Delivered | Completed | Cancelled | Refunded | ManualReview

  datatype PaymentStatus = Pending | Confirmed | Failed | Timeout

  datatype Currency = XLM | USDC | USD

  datatype Order = Order(buyer: UserId, currency: Option<string>, total: int, status: OrderStatus, markedPaid: bool)

  // Amounts are in units of 10^-7, the scale of the payment column; times are in milliseconds.
  datatype Payment = Payment(orderId: OrderId, buyer: UserId, amount: int, currency: Currency,
                             destination: string, timeoutMinutes: int, expiresAt: int, status: PaymentStatus)

  datatype Store = Store(orders: map<OrderId, Order>, payments: map<PaymentId, Payment>, wallets: map<UserId, string>)

  datatype Error =
    | OrderNotFound | PaymentNotFound | WalletNotFound | Unauthorized
    | UnderManualReview | OrderNotPending | CurrencyMismatch | PaymentNotPending
    | InvalidTransition | AlreadyCancelled | ProductNotFound | InvalidTotal | StockRefused | OrderMissingOnConfirm | OrderNotPaid

  // What a service call leaves behind: the rows, and the error it threw, if any.
  datatype Reply = Reply(store: Store, error: Option<Error>)

  datatype InitiateRequest = InitiateRequest(orderId: OrderId, currency: Currency, timeoutMinutes: Option<int>,
                                             pointsDiscount: Option<int>)

  // amount and createdAt are None when the text in the transaction does not parse to a number or date.
  datatype Transaction = Transaction(to: string, amount: Option<int>, asset: Option<string>, createdAt: Option<int>)

  datatype Step =
    | CreateOrder(id: OrderId, buyer: UserId, currency: string, total: int, milestoneTotal: int, stockOk: bool)
    | InitiatePayment(request: InitiateRequest, newId: PaymentId, now: int)
    | VerifyPayment(paymentId: PaymentId, tx: Transaction, now: int)
    | TimeoutPayment(paymentId: PaymentId)
    | SweepExpired(now: int)
    | ResumeMonitoring(now: int)
    | UpdateStatus(orderId: OrderId, status: OrderStatus, stockOk: bool)
    | CancelOrder(orderId: OrderId, user: UserId, stockOk: bool)
    | FraudHold(orderId: OrderId, riskScore: int)
    | CreateShipment(orderId: OrderId)
    | DeliverShipment(orderId: OrderId)

  const TOLERANCE := 1000
  const DEFAULT_TIMEOUT_MINUTES := 30
  const MS_PER_MINUTE := 60000
  const REVIEW_SCORE := 75

  // ---------------------------------------------------------------- transition table

  function AllowedNext(s: OrderStatus): set<OrderStatus> {
    match s
    case Pending => {OrderStatus.Confirmed, Cancelled, ManualReview}
    case Confirmed => {Processing, Cancelled}
    case Processing => {Paid, Cancelled}
    case Paid => {Shipped, Cancelled}
    case Shipped => {Delivered, Cancelled}
    case Delivered => {Completed, Refunded}
    case Completed => {Refunded}
    case Cancelled => {}
    case Refunded => {}
    case ManualReview => {OrderStatus.Confirmed, Cancelled}
  }

  predicate Terminal(s: OrderStatus) {
    AllowedNext(s) == {}
  }

  // ---------------------------------------------------------------- transaction validation

  function UpperChar(c: char): char {
    if 'a' <= c <= 'z' then (c as int - 32) as char else c
  }

  function Upper(s: string): string {
    seq(|s|, i requires 0 <= i < |s| => UpperChar(s[i]))
  }

  function Code(c: Currency): string {
    match c
    case XLM => "XLM"
    case USDC => "USDC"
    case USD => "USD"
  }

  function Abs(x: int): nat {
    if x < 0 then -x else x
  }

  predicate ValidTransaction(p: Payment, tx: Transaction, now: int) {
    if tx.to != p.destination then false
    else if tx.amount.Some? && Abs(tx.amount.value - p.amount) > TOLERANCE then false
    else if p.currency == USD then true
    else if tx.asset == None || tx.asset.value == "" then false
    else if Upper(tx.asset.value) != Code(p.currency) then false
    else !(tx.createdAt.Some? && now - tx.createdAt.value > p.timeoutMinutes * MS_PER_MINUTE)
  }

  // ---------------------------------------------------------------- service calls on the rows

  function SetOrder(s: Store, id: OrderId, o: Order): Store {
    s.(orders := s.orders[id := o])
  }

  function SetPayment(s: Store, id: PaymentId, p: Payment): Store {
    s.(payments := s.payments[id := p])
  }

  ghost predicate HasPendingPayment(s: Store, o: OrderId) {
    exists p :: p in s.payments && s.payments[p].orderId == o && s.payments[p].status == PaymentStatus.Pending
  }

  function NewPayment(order: Order, wallet: string, req: InitiateRequest, now: int): Payment {
    var minutes := if req.timeoutMinutes.Some? && req.timeoutMinutes.value != 0
                   then req.timeoutMinutes.value else DEFAULT_TIMEOUT_MINUTES;
    var amount := if req.pointsDiscount.Some? then order.total - req.pointsDiscount.value else order.total;
    Payment(req.orderId, order.buyer, amount, req.currency, wallet, minutes,
            now + minutes * MS_PER_MINUTE, PaymentStatus.Pending)
  }

  ghost function Initiate(s: Store, req: InitiateRequest, newId: PaymentId, now: int): Reply {
    if req.orderId !in s.orders then Reply(s, Some(OrderNotFound))
    else
      var order := s.orders[req.orderId];
      if order.status == ManualReview then Reply(s, Some(UnderManualReview))
      else if order.status != OrderStatus.Pending then Reply(s, Some(OrderNotPending))
      else if order.currency.Some? && order.currency.value != "" && order.currency.value != Code(req.currency) then
        Reply(s, Some(CurrencyMismatch))
      else if HasPendingPayment(s, req.orderId) then Reply(s, None)
      else if order.buyer !in s.wallets then Reply(s, Some(WalletNotFound))
      else Reply(SetPayment(s, newId, NewPayment(order, s.wallets[order.buyer], req, now)), None)
  }

  function Verify(s: Store, id: PaymentId, tx: Transaction, now: int): Reply {
    if id !in s.payments then Reply(s, Some(PaymentNotFound))
    else
      var p := s.payments[id];
      if p.status != PaymentStatus.Pending then Reply(s, Some(PaymentNotPending))
      else if p.orderId in s.orders && s.orders[p.orderId].status == ManualReview then
        Reply(s, Some(UnderManualReview))
      else if !ValidTransaction(p, tx, now) then
        Reply(SetPayment(s, id, p.(status := PaymentStatus.Failed)), None)
      else
        var confirmed := SetPayment(s, id, p.(status := PaymentStatus.Confirmed));
        if p.orderId !in s.orders then Reply(confirmed, Some(OrderMissingOnConfirm))
        else Reply(SetOrder(confirmed, p.orderId, s.orders[p.orderId].(status := OrderStatus.Paid, markedPaid := true)), None)
  }

  function TimedOut(p: Payment): Payment {
    if p.status == PaymentStatus.Pending then p.(status := PaymentStatus.Timeout) else p
  }

  function TimeOut(s: Store, id: PaymentId): Reply {
    if id !in s.payments then Reply(s, Some(PaymentNotFound))
    else Reply(SetPayment(s, id, TimedOut(s.payments[id])), None)
  }

  // Every payment whose expiry lies before the deadline and that is still pending times out.
  function TimeOutBefore(s: Store, deadline: int): Store {
    s.(payments := map p | p in s.payments ::
                     if s.payments[p].expiresAt < deadline then TimedOut(s.payments[p]) else s.payments[p])
  }

  function Create(s: Store, id: OrderId, buyer: UserId, currency: string, total: int, milestoneTotal: int, stockOk: bool): Reply {
    if total <= 0 then Reply(s, Some(InvalidTotal))
    else if milestoneTotal != 0 && milestoneTotal > total then Reply(s, Some(InvalidTotal))
    else if !stockOk then Reply(s, Some(StockRefused))
    else Reply(SetOrder(s, id, Order(buyer, Some(currency), total, OrderStatus.Pending, false)), None)
  }

  function Update(s: Store, id: OrderId, status: OrderStatus, stockOk: bool): Reply {
    if id !in s.orders then Reply(s, Some(OrderNotFound))
    else
      var o := s.orders[id];
      if status !in AllowedNext(o.status) then Reply(s, Some(InvalidTransition))
      else if (status == Paid || status == Cancelled) && !stockOk then Reply(s, Some(StockRefused))
      else Reply(SetOrder(s, id, o.(status := status, markedPaid := o.markedPaid || status == Paid)), None)
  }

  function Cancel(s: Store, id: OrderId, user: UserId, stockOk: bool): Reply {
    if id !in s.orders || s.orders[id].buyer != user then Reply(s, Some(Unauthorized))
    else if s.orders[id].status == Cancelled then Reply(s, Some(AlreadyCancelled))
    else if !stockOk then Reply(s, Some(StockRefused))
    else Reply(SetOrder(s, id, s.orders[id].(status := Cancelled)), None)
  }

  function Hold(s: Store, id: OrderId, riskScore: int): Store {
    if riskScore >= REVIEW_SCORE && id in s.orders
    then SetOrder(s, id, s.orders[id].(status := ManualReview)) else s
  }

  function Ship(s: Store, id: OrderId): Reply {
    if id !in s.orders then Reply(s, Some(OrderNotFound))
    else if s.orders[id].status != Paid then Reply(s, Some(OrderNotPaid))
    else Reply(SetOrder(s, id, s.orders[id].(status := Shipped)), None)
  }

  function Deliver(s: Store, id: OrderId): Store {
    if id in s.orders then SetOrder(s, id, s.orders[id].(status := Delivered)) else s
  }

  ghost function Apply(s: Store, step: Step): Store {
    match step
    case CreateOrder(id, b, c, t, m, ok) => Create(s, id, b, c, t, m, ok).store
    case InitiatePayment(req, newId, now) => Initiate(s, req, newId, now).store
    case VerifyPayment(id, tx, now) => Verify(s, id, tx, now).store
    case TimeoutPayment(id) => TimeOut(s, id).store
    case SweepExpired(now) => TimeOutBefore(s, now)
    case ResumeMonitoring(now) => TimeOutBefore(s, now + 1)
    case UpdateStatus(id, status, ok) => Update(s, id, status, ok).store
    case CancelOrder(id, user, ok) => Cancel(s, id, user, ok).store
    case FraudHold(id, score) => Hold(s, id, score)
    case CreateShipment(id) => Ship(s, id).store
    case DeliverShipment(id) => Deliver(s, id)
  }

  // Row ids are generated by the database and never reused.
  predicate FreshIds(s: Store, step: Step) {
    match step
    case CreateOrder(id, _, _, _, _, _) => id !in s.orders
    case InitiatePayment(_, newId, _) => newId !in s.payments
    case _ => true
  }

  ghost predicate Runnable(s: Store, steps: seq<Step>)
    decreases |steps|
  {
    steps == [] || (FreshIds(s, steps[0]) && Runnable(Apply(s, steps[0]), steps[1..]))
  }

  ghost function Run(s: Store, steps: seq<Step>): Store
    decreases |steps|
  {
    if steps == [] then s else Run(Apply(s, steps[0]), steps[1..])
  }

  // ---------------------------------------------------------------- the invariant

  predicate Live(p: Payment) {
    p.status == PaymentStatus.Pending || p.status == PaymentStatus.Confirmed
  }

  ghost predicate PaymentsHaveOrders(s: Store) {
    forall p :: p in s.payments ==> s.payments[p].orderId in s.orders
  }

  // No order has two payments that are pending or confirmed.
  ghost predicate OneLivePayment(s: Store) {
    forall p, q :: p in s.payments && q in s.payments && p != q && Live(s.payments[p]) && Live(s.payments[q]) ==>
      s.payments[p].orderId != s.payments[q].orderId
  }

  ghost predicate ConfirmedLeavesPending(s: Store) {
    forall p :: p in s.payments && s.payments[p].status == PaymentStatus.Confirmed && s.payments[p].orderId in s.orders ==>
      s.orders[s.payments[p].orderId].status != OrderStatus.Pending
  }

  ghost predicate Inv(s: Store) {
    PaymentsHaveOrders(s) && OneLivePayment(s) && ConfirmedLeavesPending(s)
  }

  // ---------------------------------------------------------------- what time may change

  predicate SamePayment(p: Payment, q: Payment) {
    q == p.(status := q.status) && (p.status != PaymentStatus.Pending ==> q == p)
  }

  // Rows survive, a settled payment is frozen, and an order that left PENDING never returns to it.
  ghost predicate Later(s: Store, t: Store) {
    && s.orders.Keys <= t.orders.Keys
    && (forall o :: o in s.orders && s.orders[o].status != OrderStatus.Pending ==>
          t.orders[o].status != OrderStatus.Pending)
    && (forall p :: p in s.payments ==> p in t.payments && SamePayment(s.payments[p], t.payments[p]))
  }

  lemma LaterTransitive(s: Store, t: Store, u: Store)
    requires Later(s, t) && Later(t, u)
    ensures Later(s, u)
  {}

  lemma OrderWriteKeepsInv(s: Store, id: OrderId, o: Order)
    requires Inv(s)
    requires id in s.orders && o.status == OrderStatus.Pending ==> s.orders[id].status == OrderStatus.Pending
    ensures Inv(SetOrder(s, id, o))
  {
    var t := SetOrder(s, id, o);
    assert t.payments == s.payments;
    forall p | p in t.payments && t.payments[p].status == PaymentStatus.Confirmed && t.payments[p].orderId in t.orders
      ensures t.orders[t.payments[p].orderId].status != OrderStatus.Pending
    {
      assert s.payments[p].orderId in s.orders;
    }
  }

  // Rewriting payments so that each keeps its order and none becomes live keeps the invariant.
  lemma SettlingKeepsInv(s: Store, t: Store)
    requires Inv(s) && t.orders == s.orders && t.payments.Keys == s.payments.Keys
    requires forall p :: p in s.payments ==> t.payments[p].orderId == s.payments[p].orderId
    requires forall p :: p in s.payments ==> t.payments[p].status == s.payments[p].status || !Live(t.payments[p])
    ensures Inv(t)
  {
    forall p, q | p in t.payments && q in t.payments && p != q && Live(t.payments[p]) && Live(t.payments[q])
      ensures t.payments[p].orderId != t.payments[q].orderId
    {
      assert Live(s.payments[p]) && Live(s.payments[q]);
    }
  }

  lemma InitiateKeepsInv(s: Store, req: InitiateRequest, newId: PaymentId, now: int)
    requires Inv(s) && newId !in s.payments
    ensures Inv(Initiate(s, req, newId, now).store)
  {
    var t := Initiate(s, req, newId, now).store;
    if t != s {
      forall p | p in s.payments && Live(s.payments[p])
        ensures s.payments[p].orderId != req.orderId
      {
        assert !HasPendingPayment(s, req.orderId);
      }
      forall p, q | p in t.payments && q in t.payments && p != q && Live(t.payments[p]) && Live(t.payments[q])
        ensures t.payments[p].orderId != t.payments[q].orderId
      {}
    }
  }

  lemma ConfirmKeepsInv(s: Store, id: PaymentId, tx: Transaction, now: int)
    requires Inv(s)
    ensures Inv(Verify(s, id, tx, now).store)
  {
    var t := Verify(s, id, tx, now).store;
    if t != s && !ValidTransaction(s.payments[id], tx, now) {
      SettlingKeepsInv(s, t);
    } else if t != s {
      var p := s.payments[id];
      var paid := SetOrder(s, p.orderId, s.orders[p.orderId].(status := OrderStatus.Paid, markedPaid := true));
      OrderWriteKeepsInv(s, p.orderId, s.orders[p.orderId].(status := OrderStatus.Paid, markedPaid := true));
      assert t == SetPayment(paid, id, p.(status := PaymentStatus.Confirmed));
      forall a, b | a in t.payments && b in t.payments && a != b && Live(t.payments[a]) && Live(t.payments[b])
        ensures t.payments[a].orderId != t.payments[b].orderId
      {
        assert Live(s.payments[a]) && Live(s.payments[b]);
      }
    }
  }

  lemma StepKeepsInv(s: Store, step: Step)
    requires Inv(s) && FreshIds(s, step)
    ensures Inv(Apply(s, step))
  {
    match step
    case InitiatePayment(req, newId, now) => InitiateKeepsInv(s, req, newId, now);
    case VerifyPayment(id, tx, now) => ConfirmKeepsInv(s, id, tx, now);
    case TimeoutPayment(id) => SettlingKeepsInv(s, Apply(s, step));
    case SweepExpired(now) => SettlingKeepsInv(s, Apply(s, step));
    case ResumeMonitoring(now) => SettlingKeepsInv(s, Apply(s, step));
    case _ => OrderStepKeepsInv(s, step);
  }

  lemma OrderStepKeepsInv(s: Store, step: Step)
    requires Inv(s) && FreshIds(s, step)
    requires step.CreateOrder? || step.UpdateStatus? || step.CancelOrder? || step.FraudHold?
          || step.CreateShipment? || step.DeliverShipment?
    ensures Inv(Apply(s, step))
  {
    var t := Apply(s, step);
    if t != s {
      var id := match step
                case CreateOrder(id, _, _, _, _, _) => id
                case UpdateStatus(id, _, _) => id
                case CancelOrder(id, _, _) => id
                case FraudHold(id, _) => id
                case CreateShipment(id) => id
                case DeliverShipment(id) => id;
      assert t == SetOrder(s, id, t.orders[id]);
      OrderWriteKeepsInv(s, id, t.orders[id]);
    }
  }

  lemma StepIsLater(s: Store, step: Step)
    requires FreshIds(s, step)
    ensures Later(s, Apply(s, step))
  {
    match step
    case InitiatePayment(_, _, _) => PaymentStepIsLater(s, step);
    case VerifyPayment(_, _, _) => PaymentStepIsLater(s, step);
    case TimeoutPayment(_) =>
    case SweepExpired(_) =>
    case ResumeMonitoring(_) =>
    case _ => OrderStepIsLater(s, step);
  }

  lemma PaymentStepIsLater(s: Store, step: Step)
    requires FreshIds(s, step)
    requires step.InitiatePayment? || step.VerifyPayment?
    ensures Later(s, Apply(s, step))
  {}

  lemma OrderStepIsLater(s: Store, step: Step)
    requires FreshIds(s, step)
    requires step.CreateOrder? || step.UpdateStatus? || step.CancelOrder? || step.FraudHold?
          || step.CreateShipment? || step.DeliverShipment?
    ensures Later(s, Apply(s, step))
  {
    var t := Apply(s, step);
    assert t.payments == s.payments;
    match step
    case CreateOrder(id, _, _, _, _, _) => OneOrderWritten(s, t, id);
    case UpdateStatus(id, _, _) => OneOrderWritten(s, t, id);
    case CancelOrder(id, _, _) => OneOrderWritten(s, t, id);
    case FraudHold(id, _) => OneOrderWritten(s, t, id);
    case CreateShipment(id) => OneOrderWritten(s, t, id);
    case DeliverShipment(id) => OneOrderWritten(s, t, id);
  }

  lemma OneOrderWritten(s: Store, t: Store, id: OrderId)
    requires t.payments == s.payments && (t.orders == s.orders || (id in t.orders && t.orders == s.orders[id := t.orders[id]]))
    requires id in t.orders && t.orders[id].status == OrderStatus.Pending ==>
               id !in s.orders || s.orders[id].status == OrderStatus.Pending
    ensures Later(s, t)
  {}

  // ---------------------------------------------------------------- every run

  /** Over every interleaving the invariant holds, and time only moves forward. */
  lemma {:induction false} RunKeepsInv(s: Store, steps: seq<Step>)
    requires Inv(s) && Runnable(s, steps)
    ensures Inv(Run(s, steps)) && Later(s, Run(s, steps))
    decreases |steps|
  {
    if steps != [] {
      StepKeepsInv(s, steps[0]);
      StepIsLater(s, steps[0]);
      RunKeepsInv(Apply(s, steps[0]), steps[1..]);
      LaterTransitive(s, Apply(s, steps[0]), Run(s, steps));
    }
  }

  lemma {:induction false} RunConcat(s: Store, a: seq<Step>, b: seq<Step>)
    requires Runnable(s, a + b)
    ensures Runnable(s, a) && Runnable(Run(s, a), b) && Run(s, a + b) == Run(Run(s, a), b)
    decreases |a|
  {
    if a == [] {
      assert a + b == b;
    } else {
      assert (a + b)[1..] == a[1..] + b;
      RunConcat(Apply(s, a[0]), a[1..], b);
    }
  }

  /** At most one payment of an order is ever confirmed: two confirmations seen at any two moments
      of one run are the same payment. */
  lemma OneConfirmationEver(wallets: map<UserId, string>, before: seq<Step>, after: seq<Step>, p: PaymentId, q: PaymentId)
    requires Runnable(Store(map[], map[], wallets), before + after)
    requires p in Run(Store(map[], map[], wallets), before).payments
    requires q in Run(Store(map[], map[], wallets), before + after).payments
    requires Run(Store(map[], map[], wallets), before).payments[p].status == PaymentStatus.Confirmed
    requires Run(Store(map[], map[], wallets), before + after).payments[q].status == PaymentStatus.Confirmed
    requires Run(Store(map[], map[], wallets), before).payments[p].orderId
          == Run(Store(map[], map[], wallets), before + after).payments[q].orderId
    ensures p == q
  {
    var s := Store(map[], map[], wallets);
    RunConcat(s, before, after);
    RunKeepsInv(s, before);
    RunKeepsInv(Run(s, before), after);
  }

  /** At every moment of every run from empty tables: one pending payment per order, none beside a
      confirmed one, and an order with a confirmed payment is not PENDING. */
  lemma SafeAtEveryMoment(wallets: map<UserId, string>, steps: seq<Step>, p: PaymentId, q: PaymentId)
    requires Runnable(Store(map[], map[], wallets), steps)
    ensures
      var t := Run(Store(map[], map[], wallets), steps);
      p in t.payments && q in t.payments && Live(t.payments[p]) ==>
        && t.payments[p].orderId in t.orders
        && (p != q && Live(t.payments[q]) ==> t.payments[p].orderId != t.payments[q].orderId)
        && (t.payments[p].status == PaymentStatus.Confirmed ==>
              t.orders[t.payments[p].orderId].status != OrderStatus.Pending)
  {
    RunKeepsInv(Store(map[], map[], wallets), steps);
  }

  /** A settled payment row is never written again, and an order never re-enters PENDING. */
  lemma SettledForever(s: Store, steps: seq<Step>, p: PaymentId, o: OrderId)
    requires Inv(s) && Runnable(s, steps)
    requires p in s.payments && s.payments[p].status != PaymentStatus.Pending
    requires o in s.orders && s.orders[o].status != OrderStatus.Pending
    ensures p in Run(s, steps).payments && Run(s, steps).payments[p] == s.payments[p]
    ensures o in Run(s, steps).orders && Run(s, steps).orders[o].status != OrderStatus.Pending
  {
    RunKeepsInv(s, steps);
  }

  /** While an order is under MANUAL_REVIEW no payment for it is created or confirmed. */
  lemma HoldStopsPayments(s: Store, step: Step, o: OrderId, p: PaymentId)
    requires Inv(s) && FreshIds(s, step)
    requires o in s.orders && s.orders[o].status == ManualReview
    requires p in Apply(s, step).payments && Apply(s, step).payments[p].orderId == o
    ensures p in s.payments && s.payments[p].orderId == o
    ensures Apply(s, step).payments[p].status == PaymentStatus.Confirmed ==> s.payments[p] == Apply(s, step).payments[p]
  {}

  /** A payment becomes CONFIRMED only by verification against a transaction to its own address,
      of a matching amount when the amount parses, and for XLM and USDC in the right asset and in time. */
  lemma ConfirmedOnlyByMatchingTransaction(s: Store, step: Step, p: PaymentId)
    requires FreshIds(s, step) && p in s.payments && s.payments[p].status != PaymentStatus.Confirmed
    requires Apply(s, step).payments[p].status == PaymentStatus.Confirmed
    ensures step.VerifyPayment? && step.paymentId == p && s.payments[p].status == PaymentStatus.Pending
    ensures step.tx.to == s.payments[p].destination
    ensures step.tx.amount.Some? ==> s.payments[p].amount - 1000 <= step.tx.amount.value <= s.payments[p].amount + 1000
    ensures s.payments[p].currency != USD ==>
              && step.tx.asset.Some? && Upper(step.tx.asset.value) == Code(s.payments[p].currency)
              && (step.tx.createdAt.Some? ==>
                    step.now - step.tx.createdAt.value <= s.payments[p].timeoutMinutes * 60000)
  {}

  /** The amount is compared exactly when it parses: a transaction whose amount is not a number passes whenever
      the same transaction with some number would, and with a number it passes just within the tolerance. */
  lemma AmountComparedExactlyWhenParsed(p: Payment, tx: Transaction, now: int, amount: int)
    ensures ValidTransaction(p, tx.(amount := Some(amount)), now)
       <==> ValidTransaction(p, tx.(amount := None), now) && p.amount - 1000 <= amount <= p.amount + 1000
  {}

  /** A transaction that passes the address and amount checks but is older than the payment's timeout is accepted
      exactly for USD payments, which skip both the asset and the age check. */
  lemma StaleAcceptedExactlyForUsd(p: Payment, tx: Transaction, now: int)
    requires tx.to == p.destination
    requires tx.amount.Some? && p.amount - 1000 <= tx.amount.value <= p.amount + 1000
    requires tx.createdAt.Some? && now - tx.createdAt.value > p.timeoutMinutes * 60000
    ensures ValidTransaction(p, tx, now) <==> p.currency == USD
  {}

  // ---------------------------------------------------------------- a payment from start to end

  // What a payment created by this request is to bring in, and for how long.
  function Due(order: Order, req: InitiateRequest): int {
    match req.pointsDiscount
    case None => order.total
    case Some(discount) => order.total - discount
  }

  function Window(req: InitiateRequest): int {
    if req.timeoutMinutes == None || req.timeoutMinutes == Some(0) then 30 * 60 * 1000 else req.timeoutMinutes.value * 60 * 1000
  }

  // A transaction to the buyer's wallet of the due amount within the tolerance, in the requested currency and made
  // within the time allowed.
  predicate Settles(s: Store, req: InitiateRequest, tx: Transaction, later: int)
    requires req.orderId in s.orders
  {
    var order := s.orders[req.orderId];
    && order.buyer in s.wallets && tx.to == s.wallets[order.buyer]
    && tx.amount.Some? && Due(order, req) - 1000 <= tx.amount.value <= Due(order, req) + 1000
    && tx.asset.Some? && tx.asset.value != "" && Upper(tx.asset.value) == Code(req.currency)
    && tx.createdAt.Some? && later - tx.createdAt.value <= Window(req)
  }

  /** Whatever happens between the creation of a payment and a transaction that settles it, the transaction confirms it
      exactly when it is still pending and its order not held; the order is then PAID and nothing else changes. */
  lemma PayingConfirmsExactlyWhenOpen(s: Store, req: InitiateRequest, newId: PaymentId, now: int, between: seq<Step>,
                                      tx: Transaction, later: int)
    requires Inv(s) && newId !in s.payments && Initiate(s, req, newId, now).error == None && !HasPendingPayment(s, req.orderId)
    requires Runnable(Initiate(s, req, newId, now).store, between) && Settles(s, req, tx, later)
    ensures
      var t := Run(Initiate(s, req, newId, now).store, between);
      var r := Verify(t, newId, tx, later);
      && newId in t.payments && req.orderId in t.orders
      && var open := t.payments[newId].status == PaymentStatus.Pending && t.orders[req.orderId].status != ManualReview;
        && (r.error == None <==> open)
        && (open ==> r.store == t.(payments := t.payments[newId := t.payments[newId].(status := PaymentStatus.Confirmed)],
                                   orders := t.orders[req.orderId := t.orders[req.orderId].(status := Paid, markedPaid := true)]))
        && (!open ==> r.store == t)
  {
    var asked := Initiate(s, req, newId, now).store;
    InitiateKeepsInv(s, req, newId, now);
    RunKeepsInv(asked, between);
    var t := Run(asked, between);
    assert SamePayment(asked.payments[newId], t.payments[newId]);
    assert ValidTransaction(t.payments[newId], tx, later);
  }

  // The monitor's timer runs for half an hour, whatever time the payment was given.
  const TIMER_MS := 30 * 60 * 1000

  // The rows at a later time, when nothing but the timer armed with the payment has happened.
  function AfterTimer(asked: Store, id: PaymentId, armed: int, later: int): Store {
    if armed + TIMER_MS <= later then TimeOut(asked, id).store else asked
  }

  /** A payment monitored from its creation is confirmed by a settling transaction exactly before the timer's half hour is
      over. The timer ends a payment before its own expiry exactly when it was given more than half an hour. */
  lemma TimerCutsWindowExactlyWhen(s: Store, req: InitiateRequest, newId: PaymentId, now: int, tx: Transaction, later: int)
    requires newId !in s.payments && Initiate(s, req, newId, now).error == None && !HasPendingPayment(s, req.orderId)
    requires Settles(s, req, tx, later)
    ensures
      var asked := Initiate(s, req, newId, now).store;
      && newId in asked.payments && asked.payments[newId].expiresAt == now + Window(req)
      && (Verify(AfterTimer(asked, newId, now, later), newId, tx, later).error == None <==> later < now + TIMER_MS)
      && ((exists t :: t < asked.payments[newId].expiresAt
             && AfterTimer(asked, newId, now, t).payments[newId].status == PaymentStatus.Timeout) <==> Window(req) > TIMER_MS)
  {
    var asked := Initiate(s, req, newId, now).store;
    assert ValidTransaction(asked.payments[newId], tx, later);
    assert AfterTimer(asked, newId, now, now + TIMER_MS).payments[newId].status == PaymentStatus.Timeout;
  }

  /** Left unpaid, it times out in the sweep exactly when the time allowed has passed, and on a restart one tick sooner. */
  lemma UnpaidTimesOutExactlyWhen(s: Store, req: InitiateRequest, newId: PaymentId, now: int, later: int)
    requires newId !in s.payments && Initiate(s, req, newId, now).error == None && !HasPendingPayment(s, req.orderId)
    ensures
      var asked := Initiate(s, req, newId, now).store;
      && newId in Apply(asked, SweepExpired(later)).payments && newId in Apply(asked, ResumeMonitoring(later)).payments
      && (Apply(asked, SweepExpired(later)).payments[newId].status == PaymentStatus.Timeout <==> later - now > Window(req))
      && (Apply(asked, ResumeMonitoring(later)).payments[newId].status == PaymentStatus.Timeout <==> later - now >= Window(req))
  {}

  // ---------------------------------------------------------------- where the table is not the whole truth

  predicate BypassesTable(s: Store, step: Step, o: OrderId)
    requires o in s.orders
  {
    var was := s.orders[o].status;
    match step
    case VerifyPayment(p, tx, now) =>
      && p in s.payments && s.payments[p].orderId == o && s.payments[p].status == PaymentStatus.Pending
      && ValidTransaction(s.payments[p], tx, now) && was !in {Processing, Paid, ManualReview}
    case FraudHold(id, score) => id == o && score >= REVIEW_SCORE && was !in {OrderStatus.Pending, ManualReview}
    case DeliverShipment(id) => id == o && was !in {Shipped, Delivered}
    case CancelOrder(id, user, stockOk) =>
      id == o && user == s.orders[o].buyer && stockOk && was in {Delivered, Completed, Refunded}
    case _ => false
  }

  lemma OrderStepBypassesExactlyWhen(s: Store, step: Step, o: OrderId)
    requires FreshIds(s, step) && o in s.orders
    requires step.CreateOrder? || step.UpdateStatus? || step.CancelOrder? || step.FraudHold?
          || step.CreateShipment? || step.DeliverShipment?
    ensures
      var was, becomes := s.orders[o].status, Apply(s, step).orders[o].status;
      becomes != was && becomes !in AllowedNext(was) <==> BypassesTable(s, step, o)
  {}

  /** Status changes that the transition table does not list are made by exactly these calls: a confirmation of an order not
      in PROCESSING, a fraud hold of an order past PENDING, a delivery report for an order not SHIPPED, and a
      buyer's cancellation of an order already delivered, completed or refunded. */
  lemma TableBypassedExactlyWhen(s: Store, step: Step, o: OrderId)
    requires Inv(s) && FreshIds(s, step) && o in s.orders
    ensures
      var was, becomes := s.orders[o].status, Apply(s, step).orders[o].status;
      becomes != was && becomes !in AllowedNext(was) <==> BypassesTable(s, step, o)
  {
    match step
    case InitiatePayment(_, _, _) =>
    case VerifyPayment(_, _, _) =>
    case TimeoutPayment(_) =>
    case SweepExpired(_) =>
    case ResumeMonitoring(_) =>
    case _ => OrderStepBypassesExactlyWhen(s, step, o);
  }

  /** The transition table gives CANCELLED and REFUNDED no successor. A step nevertheless moves an order out of
      such a status exactly when it confirms a payment still pending for the order, holds the order for
      fraud, or reports its shipment delivered. */
  lemma TerminalOrderLeftExactlyWhen(s: Store, step: Step, o: OrderId)
    requires Inv(s) && FreshIds(s, step)
    requires o in s.orders && Terminal(s.orders[o].status)
    ensures Apply(s, step).orders[o].status != s.orders[o].status
      <==> match step
           case VerifyPayment(p, tx, now) =>
             && p in s.payments && s.payments[p].orderId == o
             && s.payments[p].status == PaymentStatus.Pending && ValidTransaction(s.payments[p], tx, now)
           case FraudHold(id, score) => id == o && score >= REVIEW_SCORE
           case DeliverShipment(id) => id == o
           case CancelOrder(id, user, stockOk) =>
             id == o && s.orders[o].status == Refunded && user == s.orders[o].buyer && stockOk
           case _ => false
  {}

  /** A concrete run that revives a cancelled order: pay after cancelling, before the payment expires. */
  lemma CancelledOrderRevived()
    ensures
      var wallets := map["buyer" := "GBUYER"];
      var steps := [CreateOrder("o", "buyer", "XLM", 100, 0, true),
                    InitiatePayment(InitiateRequest("o", XLM, None, None), "p", 0),
                    CancelOrder("o", "buyer", true),
                    VerifyPayment("p", Transaction("GBUYER", Some(100), Some("xlm"), Some(0)), 1)];
      && Runnable(Store(map[], map[], wallets), steps)
      && "o" in Run(Store(map[], map[], wallets), steps[..3]).orders
      && Run(Store(map[], map[], wallets), steps[..3]).orders["o"].status == Cancelled
      && "o" in Run(Store(map[], map[], wallets), steps).orders
      && Run(Store(map[], map[], wallets), steps).orders["o"].status == Paid
  {
    var s0 := Store(map[], map[], map["buyer" := "GBUYER"]);
    var a := CreateOrder("o", "buyer", "XLM", 100, 0, true);
    var b := InitiatePayment(InitiateRequest("o", XLM, None, None), "p", 0);
    var c := CancelOrder("o", "buyer", true);
    var d := VerifyPayment("p", Transaction("GBUYER", Some(100), Some("xlm"), Some(0)), 1);
    var s1, s2 := Apply(s0, a), Apply(Apply(s0, a), b);
    var s3, s4 := Apply(s2, c), Apply(Apply(s2, c), d);
    assert s2.payments["p"].status == PaymentStatus.Pending;
    assert Upper("xlm") == "XLM";
    assert Code(XLM) == "XLM";
    var steps := [a, b, c, d];
    assert Run(s0, steps) == Run(s1, [b, c, d]) by { assert steps[1..] == [b, c, d]; }
    assert Run(s1, [b, c, d]) == Run(s2, [c, d]) by { assert [b, c, d][1..] == [c, d]; }
    assert Run(s2, [c, d]) == Run(s3, [d]) by { assert [c, d][1..] == [d]; }
    assert Run(s3, [d]) == s4;
    assert steps[..3] == [a, b, c];
    assert Run(s0, [a, b, c]) == Run(s1, [b, c]) by { assert [a, b, c][1..] == [b, c]; }
    assert Run(s1, [b, c]) == Run(s2, [c]) by { assert [b, c][1..] == [c]; }
    assert Run(s2, [c]) == s3;
    assert Runnable(s3, [d]);
    assert Runnable(s2, [c, d]) by { assert [c, d][1..] == [d]; }
    assert Runnable(s1, [b, c, d]) by { assert [b, c, d][1..] == [c, d]; }
  }

  /** A concrete run in which an order of 100 is paid by a transaction whose amount is not a number. */
  lemma UnparsableAmountPays()
    ensures
      var wallets := map["buyer" := "GBUYER"];
      var steps := [CreateOrder("o", "buyer", "XLM", 100, 0, true),
                    InitiatePayment(InitiateRequest("o", XLM, None, None), "p", 0),
                    VerifyPayment("p", Transaction("GBUYER", None, Some("xlm"), Some(0)), 1)];
      && Runnable(Store(map[], map[], wallets), steps)
      && "o" in Run(Store(map[], map[], wallets), steps).orders
      && Run(Store(map[], map[], wallets), steps).orders["o"].status == Paid
  {
    var s0 := Store(map[], map[], map["buyer" := "GBUYER"]);
    var a := CreateOrder("o", "buyer", "XLM", 100, 0, true);
    var b := InitiatePayment(InitiateRequest("o", XLM, None, None), "p", 0);
    var c := VerifyPayment("p", Transaction("GBUYER", None, Some("xlm"), Some(0)), 1);
    var s1, s2 := Apply(s0, a), Apply(Apply(s0, a), b);
    assert s2.payments["p"].status == PaymentStatus.Pending;
    assert Upper("xlm") == "XLM" == Code(XLM);
    var s3 := Apply(s2, c);
    assert [a, b, c][1..] == [b, c] && [b, c][1..] == [c] && [c][1..] == [];
    assert Runnable(s3, []) && Runnable(s2, [c]) && Runnable(s1, [b, c]);
    assert Run(s0, [a, b, c]) == Run(s1, [b, c]) == Run(s2, [c]) == s3;
  }
}
