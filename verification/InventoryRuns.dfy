/** What every run of inventory calls keeps: reservations match the outstanding orders, and the history replays. */
module InventoryRuns {
  import opened Common
  import opened Sums
  import opened InventoryLedger
  import opened InventoryVariants

  type OrderId = string

  // The stock and the orders reserved but not yet confirmed or cancelled.
  datatype System = System(stock: Stock, outstanding: map<OrderId, seq<Item>>)

  datatype Step =
    | ReserveOrder(order: OrderId, items: seq<Item>)
    | ConfirmOrder(order: OrderId)
    | CancelOrder(order: OrderId)
    | RefundOrder(items: seq<Item>)
    | AdjustListing(id: ListingId, change: int, kind: ChangeType)
    | Bulk(updates: seq<Update>)
    | AdjustVariantOf(variant: VariantId, change: int, kind: ChangeType)
    | HoldProduct(product: ListingId, amount: int)
    | DropProduct(product: ListingId, amount: int)
    | SellProduct(product: ListingId, amount: int)

  // A call that fails changes nothing.
  function OrSame(r: Result<Stock, Error>, s: Stock): Stock {
    match r
    case Ok(t) => t
    case Err(_) => s
  }

  function Settle(s: System, op: LineOp, order: OrderId): System
    requires order in s.outstanding
  {
    match Lines(s.stock, op, s.outstanding[order])
    case Ok(t) => System(t, s.outstanding - {order})
    case Err(_) => s
  }

  ghost function Apply(s: System, step: Step): System
    requires Possible(s, step)
  {
    match step
    case ReserveOrder(o, items) =>
      (match Lines(s.stock, Reserve, items)
       case Ok(t) => System(t, s.outstanding[o := items])
       case Err(_) => s)
    case ConfirmOrder(o) => Settle(s, Confirm, o)
    case CancelOrder(o) => Settle(s, Cancel, o)
    case RefundOrder(items) => s.(stock := Transact(s.stock, Restore, items))
    case AdjustListing(id, change, kind) => s.(stock := OrSame(Adjust(s.stock, id, change, kind), s.stock))
    case Bulk(updates) => s.(stock := BulkUpdate(s.stock, updates))
    case AdjustVariantOf(v, change, kind) => s.(stock := OrSame(AdjustVariant(s.stock, v, change, kind), s.stock))
    case HoldProduct(p, amount) => s.(stock := OrSame(ReserveProduct(s.stock, p, amount), s.stock))
    case DropProduct(p, amount) => s.(stock := OrSame(ReleaseProduct(s.stock, p, amount), s.stock))
    case SellProduct(p, amount) => s.(stock := OrSame(CommitSale(s.stock, p, amount), s.stock))
  }

  // An order is reserved once, and confirmed or cancelled at most once after that.
  predicate Possible(s: System, step: Step) {
    match step
    case ReserveOrder(o, _) => o !in s.outstanding
    case ConfirmOrder(o) => o in s.outstanding
    case CancelOrder(o) => o in s.outstanding
    case _ => true
  }

  ghost predicate Runnable(s: System, steps: seq<Step>)
    decreases |steps|
  {
    steps == [] || (Possible(s, steps[0]) && Runnable(Apply(s, steps[0]), steps[1..]))
  }

  ghost function Run(s: System, steps: seq<Step>): System
    requires Runnable(s, steps)
    decreases |steps|
  {
    if steps == [] then s else Run(Apply(s, steps[0]), steps[1..])
  }

  // Each step of the run meets a condition on the state it is taken in.
  ghost predicate Each(s: System, steps: seq<Step>, ok: (System, Step) -> bool)
    requires Runnable(s, steps)
    decreases |steps|
  {
    steps == [] || (ok(s, steps[0]) && Each(Apply(s, steps[0]), steps[1..], ok))
  }

  // ---------------------------------------------------------------- reservations

  ghost function Claims(outstanding: map<OrderId, seq<Item>>, id: ListingId): map<OrderId, int> {
    map o | o in outstanding :: Ordered(outstanding[o], id)
  }

  // The total quantity outstanding orders hold of a listing.
  ghost function Outstanding(outstanding: map<OrderId, seq<Item>>, id: ListingId): int {
    Sum(Claims(outstanding, id))
  }

  ghost predicate Reservations(s: System) {
    && Consistent(s.stock) && VariantsConsistent(s.stock)
    && forall id :: id in s.stock.listings ==> s.stock.listings[id].reserved == Outstanding(s.outstanding, id)
  }

  ghost predicate Covered(s: System) {
    forall id :: id in s.stock.listings ==> 0 <= s.stock.listings[id].available
  }

  lemma {:induction false} SumNonnegative<K>(m: map<K, int>)
    requires forall k :: k in m ==> 0 <= m[k]
    ensures 0 <= Sum(m)
    decreases |m|
  {
    if m != map[] {
      var k :| k in m && Sum(m) == m[k] + Sum(m - {k});
      CardinalityDrop(m, k);
      SumNonnegative(m - {k});
    }
  }

  lemma OutstandingAdd(outstanding: map<OrderId, seq<Item>>, o: OrderId, items: seq<Item>, id: ListingId)
    requires o !in outstanding
    ensures Outstanding(outstanding[o := items], id) == Outstanding(outstanding, id) + Ordered(items, id)
  {
    SumUpdate(Claims(outstanding, id), o, Ordered(items, id));
    assert Claims(outstanding[o := items], id) == Claims(outstanding, id)[o := Ordered(items, id)];
  }

  lemma OutstandingRemove(outstanding: map<OrderId, seq<Item>>, o: OrderId, id: ListingId)
    requires o in outstanding
    ensures Outstanding(outstanding, id) == Outstanding(outstanding - {o}, id) + Ordered(outstanding[o], id)
    ensures 0 <= Outstanding(outstanding - {o}, id)
  {
    SumSplit(Claims(outstanding, id), o);
    assert Claims(outstanding - {o}, id) == Claims(outstanding, id) - {o};
    SumNonnegative(Claims(outstanding - {o}, id));
  }

  lemma ReservedNonnegative(s: System)
    requires Reservations(s)
    ensures forall id :: id in s.stock.listings ==> 0 <= s.stock.listings[id].reserved
  {
    forall id | id in s.stock.listings
      ensures 0 <= s.stock.listings[id].reserved
    {
      SumNonnegative(Claims(s.outstanding, id));
    }
  }

  lemma {:induction false} LinesConsistent(s: Stock, op: LineOp, items: seq<Item>)
    requires Consistent(s) && Lines(s, op, items).Ok?
    ensures Consistent(Lines(s, op, items).value)
  {
    if items != [] {
      LinesConsistent(s, op, items[..|items| - 1]);
    }
  }

  /** Confirming or cancelling an outstanding order takes exactly its lines' totals off the reservation: the clamps
      at zero never fire, and nothing else about reservations changes. */
  lemma SettlingNeverClamps(s: System, op: LineOp, o: OrderId, id: ListingId)
    requires Reservations(s) && o in s.outstanding && (op == Confirm || op == Cancel)
    requires Lines(s.stock, op, s.outstanding[o]).Ok? && id in s.stock.listings
    ensures
      var before, q := s.stock.listings[id], Ordered(s.outstanding[o], id);
      var after := Lines(s.stock, op, s.outstanding[o]).value;
      && id in after.listings && q <= before.reserved
      && after.listings[id] == if op == Confirm then Level(before.quantity - q, before.reserved - q, before.available)
                               else Level(before.quantity, before.reserved - q, before.available + q)
  {
    ReservedNonnegative(s);
    LinesEffect(s.stock, op, s.outstanding[o], id);
    OutstandingRemove(s.outstanding, o, id);
  }

  /** Confirming or cancelling lines that were never reserved on the listing hits the clamp: the reservation drops by
      exactly the ordered total precisely when it was at least that large. */
  lemma SettlingClampsExactlyWhen(s: Stock, op: LineOp, items: seq<Item>, id: ListingId)
    requires Consistent(s) && (op == Confirm || op == Cancel) && id in s.listings
    requires forall id :: id in s.listings ==> 0 <= s.listings[id].reserved
    requires Lines(s, op, items).Ok?
    ensures id in Lines(s, op, items).value.listings
    ensures Lines(s, op, items).value.listings[id].reserved == s.listings[id].reserved - Ordered(items, id)
       <==> Ordered(items, id) <= s.listings[id].reserved
  {
    LinesEffect(s, op, items, id);
  }

  lemma SettleKeepsReservations(s: System, op: LineOp, o: OrderId)
    requires Reservations(s) && o in s.outstanding && (op == Confirm || op == Cancel)
    ensures Reservations(Settle(s, op, o))
    ensures Covered(s) ==> Covered(Settle(s, op, o))
  {
    if Lines(s.stock, op, s.outstanding[o]).Ok? {
      var t := Settle(s, op, o);
      LinesConsistent(s.stock, op, s.outstanding[o]);
      LinesKeepVariants(s.stock, op, s.outstanding[o]);
      forall id | id in t.stock.listings
        ensures t.stock.listings[id].reserved == Outstanding(t.outstanding, id)
        ensures Covered(s) ==> 0 <= t.stock.listings[id].available
      {
        ReservedNonnegative(s);
        LinesEffect(s.stock, op, s.outstanding[o], id);
        SettlingNeverClamps(s, op, o, id);
        OutstandingRemove(s.outstanding, o, id);
      }
    }
  }

  lemma ReserveKeepsReservations(s: System, o: OrderId, items: seq<Item>)
    requires Reservations(s) && o !in s.outstanding
    ensures Reservations(Apply(s, ReserveOrder(o, items)))
    ensures Covered(s) ==> Covered(Apply(s, ReserveOrder(o, items)))
  {
    if Lines(s.stock, Reserve, items).Ok? {
      var t := Apply(s, ReserveOrder(o, items));
      ReservedNonnegative(s);
      LinesConsistent(s.stock, Reserve, items);
      LinesKeepVariants(s.stock, Reserve, items);
      forall id | id in t.stock.listings
        ensures t.stock.listings[id].reserved == Outstanding(t.outstanding, id)
      {
        LinesEffect(s.stock, Reserve, items, id);
        OutstandingAdd(s.outstanding, o, items, id);
      }
      if Covered(s) {
        LinesStayCovered(s.stock, items);
      }
    }
  }

  lemma {:induction false} LinesStayCovered(s: Stock, items: seq<Item>)
    requires Consistent(s) && Lines(s, Reserve, items).Ok?
    requires forall id :: id in s.listings ==> 0 <= s.listings[id].available
    ensures forall id :: id in Lines(s, Reserve, items).value.listings ==> 0 <= Lines(s, Reserve, items).value.listings[id].available
  {
    if items != [] {
      LinesStayCovered(s, items[..|items| - 1]);
      LinesConsistent(s, Reserve, items[..|items| - 1]);
    }
  }

  lemma RefundKeepsReservations(s: System, items: seq<Item>)
    requires Reservations(s)
    ensures Reservations(Apply(s, RefundOrder(items)))
    ensures Covered(s) ==> Covered(Apply(s, RefundOrder(items)))
  {
    if Lines(s.stock, Restore, items).Ok? {
      ReservedNonnegative(s);
      LinesConsistent(s.stock, Restore, items);
      LinesKeepVariants(s.stock, Restore, items);
      forall id | id in Lines(s.stock, Restore, items).value.listings
        ensures id in s.stock.listings
        ensures Lines(s.stock, Restore, items).value.listings[id]
             == LineLevel(Restore, s.stock.listings[id], Ordered(items, id))
      {
        LinesEffect(s.stock, Restore, items, id);
      }
    }
  }

  lemma {:induction false} BulkKeepsReserved(s: Stock, updates: seq<Update>)
    requires Consistent(s)
    ensures Consistent(BulkUpdate(s, updates)) && BulkUpdate(s, updates).listings.Keys == s.listings.Keys
    ensures forall id :: id in s.listings ==> BulkUpdate(s, updates).listings[id].reserved == s.listings[id].reserved
  {
    if updates != [] {
      BulkKeepsReserved(s, updates[..|updates| - 1]);
    }
  }

  // Nothing is reserved before the first order.
  ghost predicate Start(s: System) {
    && s.outstanding == map[] && Consistent(s.stock) && VariantsConsistent(s.stock)
    && forall id :: id in s.stock.listings ==> s.stock.listings[id].reserved == 0 && 0 <= s.stock.listings[id].quantity
  }

  lemma StartReserves(s: System)
    requires Start(s)
    ensures Reservations(s) && Covered(s)
  {
    assert forall id :: Claims(s.outstanding, id) == map[];
  }

  // A variant of a listing is adjusted only while its variants' reserved adds up to what the outstanding orders hold of it.
  ghost predicate KeepsReserved(s: System, step: Step) {
    step.AdjustVariantOf? ==> forall id :: Overwrites(s.stock, step.variant, step.change, id) ==>
      VariantSum(s.stock.variants, id, Reserved()) == Outstanding(s.outstanding, id)
  }

  // When one listing is rewritten consistently, the reservations are kept exactly when it is right.
  lemma OneListingDecides(s: System, t: System, id: ListingId)
    requires Reservations(s) && VariantsConsistent(t.stock) && t.outstanding == s.outstanding
    requires id in t.stock.listings && t.stock.listings == s.stock.listings[id := t.stock.listings[id]]
    requires t.stock.listings[id].available == t.stock.listings[id].quantity - t.stock.listings[id].reserved
    ensures Reservations(t) <==> t.stock.listings[id].reserved == Outstanding(s.outstanding, id)
  {}

  lemma VariantStepKeepsReservationsExactlyWhen(s: System, v: VariantId, change: int, kind: ChangeType)
    requires Reservations(s)
    ensures Reservations(Apply(s, AdjustVariantOf(v, change, kind))) <==> KeepsReserved(s, AdjustVariantOf(v, change, kind))
  {
    var t := Apply(s, AdjustVariantOf(v, change, kind));
    if AdjustVariant(s.stock, v, change, kind).Ok? {
      var id := s.stock.variants[v].listingId;
      AdjustVariantShape(s.stock, v, change, kind);
      AggregateConsistent(t.stock, id);
      if id in s.stock.listings {
        VariantAdjustmentRewritesListing(s.stock, v, change, kind, id);
        OneListingDecides(s, t, id);
      }
    }
  }

  /** Under every call but one, reserved stays what the outstanding orders hold. Adjusting a variant overwrites its
      listing with the sums over the variants, and keeps it exactly when those sums agree with the orders. */
  lemma StepKeepsReservationsExactlyWhen(s: System, step: Step)
    requires Reservations(s) && Possible(s, step)
    ensures Reservations(Apply(s, step)) <==> KeepsReserved(s, step)
  {
    match step
    case ReserveOrder(o, items) => ReserveKeepsReservations(s, o, items);
    case ConfirmOrder(o) => SettleKeepsReservations(s, Confirm, o);
    case CancelOrder(o) => SettleKeepsReservations(s, Cancel, o);
    case RefundOrder(items) => RefundKeepsReservations(s, items);
    case Bulk(updates) =>
      BulkKeepsReserved(s.stock, updates);
      BulkKeepsVariants(s.stock, updates);
    case AdjustVariantOf(v, change, kind) => VariantStepKeepsReservationsExactlyWhen(s, v, change, kind);
    case _ =>
  }

  /** Over every run whose variant adjustments meet that condition, each listing's reserved is the total its outstanding
      orders hold, and available is the rest. */
  lemma {:induction false} ReservedIsWhatOrdersHold(s: System, steps: seq<Step>)
    requires Reservations(s) && Runnable(s, steps) && Each(s, steps, KeepsReserved)
    ensures Reservations(Run(s, steps))
    decreases |steps|
  {
    if steps != [] {
      StepKeepsReservationsExactlyWhen(s, steps[0]);
      ReservedIsWhatOrdersHold(Apply(s, steps[0]), steps[1..]);
    }
  }

  // No call ever changes what a variant has reserved.
  lemma {:induction false} VariantsReserveForever(s: System, steps: seq<Step>, id: ListingId)
    requires Runnable(s, steps)
    ensures VariantSum(Run(s, steps).stock.variants, id, Reserved()) == VariantSum(s.stock.variants, id, Reserved())
    decreases |steps|
  {
    if steps != [] {
      StepKeepsVariantsReserved(s, steps[0], id);
      VariantsReserveForever(Apply(s, steps[0]), steps[1..], id);
    }
  }

  lemma {:induction false} SumZeroExactlyWhen<K>(m: map<K, int>)
    requires forall k :: k in m ==> 0 <= m[k]
    ensures Sum(m) == 0 <==> forall k :: k in m ==> m[k] == 0
    decreases |m|
  {
    if m != map[] {
      var k :| k in m && Sum(m) == m[k] + Sum(m - {k});
      CardinalityDrop(m, k);
      SumNonnegative(m - {k});
      SumZeroExactlyWhen(m - {k});
      assert forall j :: j in m ==> j == k || j in m - {k};
    }
  }

  /** Where a listing's variants were created with nothing reserved, one of them may be adjusted, at any moment of any
      run, exactly when no outstanding order holds the listing. */
  lemma VariantAdjustableExactlyWhenUnheld(s: System, steps: seq<Step>, v: VariantId, change: int, kind: ChangeType, id: ListingId)
    requires Runnable(s, steps) && VariantSum(s.stock.variants, id, Reserved()) == 0
    requires Overwrites(Run(s, steps).stock, v, change, id)
    ensures
      var t := Run(s, steps);
      KeepsReserved(t, AdjustVariantOf(v, change, kind)) <==> forall o :: o in t.outstanding ==> Ordered(t.outstanding[o], id) == 0
  {
    var t := Run(s, steps);
    VariantsReserveForever(s, steps, id);
    SumZeroExactlyWhen(Claims(t.outstanding, id));
    assert forall o :: o in t.outstanding ==> Claims(t.outstanding, id)[o] == Ordered(t.outstanding[o], id);
    assert forall a :: Overwrites(t.stock, v, change, a) ==> a == id;
  }

  lemma RunFirst(s: System, step: Step, rest: seq<Step>)
    requires Possible(s, step) && Runnable(Apply(s, step), rest)
    ensures Runnable(s, [step] + rest) && Run(s, [step] + rest) == Run(Apply(s, step), rest)
  {
    assert ([step] + rest)[1..] == rest;
  }

  lemma RunThree(s: System, a: Step, b: Step, c: Step)
    requires Possible(s, a) && Possible(Apply(s, a), b) && Possible(Apply(Apply(s, a), b), c)
    ensures Runnable(s, [a, b, c]) && Run(s, [a, b, c]) == Apply(Apply(Apply(s, a), b), c)
    ensures Runnable(s, [a, b, c][..2]) && Run(s, [a, b, c][..2]) == Apply(Apply(s, a), b)
  {
    var t, u := Apply(s, a), Apply(Apply(s, a), b);
    RunFirst(u, c, []);
    RunFirst(t, b, [c]);
    RunFirst(s, a, [b, c]);
    RunFirst(t, b, []);
    RunFirst(s, a, [b]);
    assert [a] + [b, c] == [a, b, c] && [b] + [c] == [b, c] && [c] + [] == [c];
    assert [a, b, c][..2] == [a] + [b] && [b] + [] == [b];
  }

  // A listing of 10 with one variant of 10; an order of 3 reserved; one more of the variant; the order confirmed.
  const ORDER := [Item("L", 3)]
  const BEFORE := System(Stock(map["L" := Level(10, 0, 10)], map["v" := Variant("L", Level(10, 0, 10))], map[], []), map[])
  const ORDERED := System(Stock(map["L" := Level(10, 3, 7)], map["v" := Variant("L", Level(10, 0, 10))], map[],
                                [Row("L", 3, RESERVATION)]), map["o" := ORDER])
  const ADJUSTED := System(Stock(map["L" := Level(11, 0, 11)], map["v" := Variant("L", Level(11, 0, 11))], map[],
                                 [Row("L", 3, RESERVATION), Row("L", 1, ADJUSTMENT)]), map["o" := ORDER])
  const CONFIRMED := System(Stock(map["L" := Level(8, 0, 8)], map["v" := Variant("L", Level(11, 0, 11))], map[],
                                  [Row("L", 3, RESERVATION), Row("L", 1, ADJUSTMENT), Row("L", -3, PURCHASE)]), map[])

  lemma LosesByOrder()
    ensures Apply(BEFORE, ReserveOrder("o", ORDER)) == ORDERED
  {
    assert ORDER[..0] == [];
    assert Lines(BEFORE.stock, Reserve, ORDER[..0]) == Ok(BEFORE.stock);
  }

  lemma LosesByAdjustment()
    ensures Apply(ORDERED, AdjustVariantOf("v", 1, ADJUSTMENT)) == ADJUSTED
  {
    AdjustVariantShape(ORDERED.stock, "v", 1, ADJUSTMENT);
    OneVariantTotals(ADJUSTED.stock.variants, "v");
    var t := AdjustVariant(ORDERED.stock, "v", 1, ADJUSTMENT).value;
    assert t.variants == ADJUSTED.stock.variants;
    assert t.listings == ADJUSTED.stock.listings;
    assert t.history == ADJUSTED.stock.history;
  }

  lemma LosesByConfirmation()
    ensures "o" in ADJUSTED.outstanding && Apply(ADJUSTED, ConfirmOrder("o")) == CONFIRMED
  {
    assert ORDER[..0] == [];
    assert Lines(ADJUSTED.stock, Confirm, ORDER[..0]) == Ok(ADJUSTED.stock);
    assert ADJUSTED.outstanding - {"o"} == map[];
  }

  lemma LosesWhatIsHeld()
    ensures Outstanding(ADJUSTED.outstanding, "L") == 3
  {
    OutstandingAdd(map[], "o", ORDER, "L");
    assert map[]["o" := ORDER] == ADJUSTED.outstanding;
    assert Claims(map[], "L") == map[];
    assert ORDER[..0] == [] && Ordered(ORDER, "L") == Ordered(ORDER[..0], "L") + 3;
  }

  /** The reservation is gone after the second call although the order still holds 3, and the third meets the clamp. */
  lemma VariantAdjustmentLosesReservation()
    ensures
      var steps := [ReserveOrder("o", ORDER), AdjustVariantOf("v", 1, ADJUSTMENT), ConfirmOrder("o")];
      && Start(BEFORE) && Runnable(BEFORE, steps) && Runnable(BEFORE, steps[..2])
      && Run(BEFORE, steps[..2]) == ADJUSTED && Outstanding(ADJUSTED.outstanding, "L") == 3
      && Run(BEFORE, steps) == CONFIRMED
  {
    var a, b, c := ReserveOrder("o", ORDER), AdjustVariantOf("v", 1, ADJUSTMENT), ConfirmOrder("o");
    LosesByOrder();
    LosesByAdjustment();
    LosesByConfirmation();
    RunThree(BEFORE, a, b, c);
    LosesWhatIsHeld();
  }

  // ---------------------------------------------------------------- available stock

  // What a bulk update adds to a listing.
  function Net(updates: seq<Update>, id: ListingId): int {
    if updates == [] then 0
    else
      var last := updates[|updates| - 1];
      Net(updates[..|updates| - 1], id) + (if last.listingId == id then last.change else 0)
  }

  lemma {:induction false} BulkAddsNet(s: Stock, updates: seq<Update>, id: ListingId)
    requires id in s.listings && Consistent(s)
    ensures id in BulkUpdate(s, updates).listings
    ensures BulkUpdate(s, updates).listings[id] == Relevel(s.listings[id].quantity + Net(updates, id), s.listings[id].reserved)
  {
    if updates != [] {
      BulkAddsNet(s, updates[..|updates| - 1], id);
    }
  }

  // An unchecked adjustment takes away no more than is available.
  ghost predicate StaysCovered(s: System, step: Step) {
    match step
    case AdjustListing(id, change, _) => id in s.stock.listings ==> 0 <= s.stock.listings[id].available + change
    case Bulk(updates) => forall id :: id in s.stock.listings ==> 0 <= s.stock.listings[id].available + Net(updates, id)
    case AdjustVariantOf(v, change, _) => forall id :: Overwrites(s.stock, v, change, id) ==>
                                            0 <= VariantSum(s.stock.variants, id, Available()) + change
    case _ => true
  }

  lemma BulkStaysCoveredExactlyWhen(s: System, updates: seq<Update>)
    requires Reservations(s)
    ensures Covered(Apply(s, Bulk(updates))) <==> StaysCovered(s, Bulk(updates))
  {
    var t := Apply(s, Bulk(updates));
    BulkKeepsReserved(s.stock, updates);
    forall id | id in s.stock.listings
      ensures t.stock.listings[id].available == s.stock.listings[id].available + Net(updates, id)
    {
      BulkAddsNet(s.stock, updates, id);
    }
  }

  lemma OneListingCovers(s: System, t: System, id: ListingId)
    requires Covered(s) && id in t.stock.listings && t.stock.listings == s.stock.listings[id := t.stock.listings[id]]
    ensures Covered(t) <==> 0 <= t.stock.listings[id].available
  {}

  lemma VariantStaysCoveredExactlyWhen(s: System, v: VariantId, change: int, kind: ChangeType)
    requires Reservations(s) && Covered(s)
    ensures Covered(Apply(s, AdjustVariantOf(v, change, kind))) <==> StaysCovered(s, AdjustVariantOf(v, change, kind))
  {
    var t := Apply(s, AdjustVariantOf(v, change, kind));
    if AdjustVariant(s.stock, v, change, kind).Ok? {
      var id := s.stock.variants[v].listingId;
      AdjustVariantShape(s.stock, v, change, kind);
      VariantSumsAfter(s.stock, v, change, kind, id);
      if id in s.stock.listings { OneListingCovers(s, t, id); }
    }
  }

  /** Order and product calls never drive available stock below zero. An adjustment does so exactly when it takes
      away more than is available. */
  lemma StepStaysCoveredExactlyWhen(s: System, step: Step)
    requires Reservations(s) && Covered(s) && Possible(s, step)
    ensures Covered(Apply(s, step)) <==> StaysCovered(s, step)
  {
    match step
    case ReserveOrder(o, items) => ReserveKeepsReservations(s, o, items);
    case ConfirmOrder(o) => SettleKeepsReservations(s, Confirm, o);
    case CancelOrder(o) => SettleKeepsReservations(s, Cancel, o);
    case RefundOrder(items) => RefundKeepsReservations(s, items);
    case Bulk(updates) => BulkStaysCoveredExactlyWhen(s, updates);
    case AdjustVariantOf(v, change, kind) => VariantStaysCoveredExactlyWhen(s, v, change, kind);
    case AdjustListing(id, change, kind) =>
      if id in s.stock.listings {
        var t := Apply(s, step);
        assert t.stock.listings == s.stock.listings[id := t.stock.listings[id]];
      }
    case _ =>
  }

  /** From a stock in which nothing is reserved, over every run whose adjustments take no more than is available and touch
      variants only where they agree with the orders: available is quantity less reserved, and never negative. */
  lemma AvailableStaysNonnegative(s: System, steps: seq<Step>, id: ListingId)
    requires Start(s) && Runnable(s, steps)
    requires Each(s, steps, KeepsReserved) && Each(s, steps, StaysCovered)
    ensures
      var t := Run(s, steps);
      id in t.stock.listings ==>
        var l := t.stock.listings[id];
        0 <= l.available == l.quantity - l.reserved && l.reserved == Outstanding(t.outstanding, id)
  {
    StartReserves(s);
    RunStaysCovered(s, steps);
  }

  lemma {:induction false} RunStaysCovered(s: System, steps: seq<Step>)
    requires Reservations(s) && Covered(s) && Runnable(s, steps)
    requires Each(s, steps, KeepsReserved) && Each(s, steps, StaysCovered)
    ensures Reservations(Run(s, steps)) && Covered(Run(s, steps))
    decreases |steps|
  {
    if steps != [] {
      StepKeepsReservationsExactlyWhen(s, steps[0]);
      StepStaysCoveredExactlyWhen(s, steps[0]);
      RunStaysCovered(Apply(s, steps[0]), steps[1..]);
    }
  }

  // ---------------------------------------------------------------- history

  predicate Counted(kind: ChangeType) {
    kind == ADJUSTMENT || kind == BULK_UPDATE || kind == PURCHASE || kind == REFUND
  }

  // The sum of a listing's changes of the kinds that move its quantity.
  function Replay(history: seq<Row>, id: ListingId): int {
    if history == [] then 0
    else
      var last := history[|history| - 1];
      Replay(history[..|history| - 1], id) + (if last.listingId == id && Counted(last.kind) then last.change else 0)
  }

  lemma ReplayAppend(history: seq<Row>, row: Row, id: ListingId)
    ensures Replay(history + [row], id)
         == Replay(history, id) + (if row.listingId == id && Counted(row.kind) then row.change else 0)
  {
    assert (history + [row])[..|history|] == history;
  }

  // The quantity a listing must have started from.
  function Origin(s: Stock, id: ListingId): int
    requires id in s.listings
  {
    s.listings[id].quantity - Replay(s.history, id)
  }

  lemma {:induction false} LinesReplay(s: Stock, op: LineOp, items: seq<Item>, id: ListingId)
    requires id in s.listings && Lines(s, op, items).Ok?
    ensures id in Lines(s, op, items).value.listings && Origin(Lines(s, op, items).value, id) == Origin(s, id)
  {
    if items != [] {
      var init, last := items[..|items| - 1], items[|items| - 1];
      LinesReplay(s, op, init, id);
      ReplayAppend(Lines(s, op, init).value.history, LineRow(op, last), id);
    }
  }

  lemma AdjustReplays(s: Stock, a: ListingId, change: int, kind: ChangeType, id: ListingId)
    requires id in s.listings && a in s.listings && Counted(kind)
    ensures id in Adjust(s, a, change, kind).value.listings && Origin(Adjust(s, a, change, kind).value, id) == Origin(s, id)
  {
    ReplayAppend(s.history, Row(a, change, kind), id);
  }

  lemma {:induction false} BulkReplay(s: Stock, updates: seq<Update>, id: ListingId)
    requires id in s.listings
    ensures id in BulkUpdate(s, updates).listings && Origin(BulkUpdate(s, updates), id) == Origin(s, id)
  {
    if updates != [] {
      var before, last := BulkUpdate(s, updates[..|updates| - 1]), updates[|updates| - 1];
      BulkReplay(s, updates[..|updates| - 1], id);
      if last.listingId in before.listings {
        AdjustReplays(before, last.listingId, last.change, BULK_UPDATE, id);
        assert BulkUpdate(s, updates) == Adjust(before, last.listingId, last.change, BULK_UPDATE).value;
      }
    }
  }

  /** A direct adjustment keeps the replay exactly when it is filed under a counted kind or changes nothing. */
  lemma AdjustmentReplaysExactlyWhen(s: Stock, id: ListingId, change: int, kind: ChangeType)
    requires id in s.listings
    ensures Origin(Adjust(s, id, change, kind).value, id) == Origin(s, id) <==> Counted(kind) || change == 0
  {
    ReplayAppend(s.history, Row(id, change, kind), id);
  }

  // The calls whose history row moves the replay of a listing as the call moves its quantity.
  ghost predicate KeepsReplay(s: Stock, step: Step, id: ListingId) {
    match step
    case AdjustListing(a, change, kind) => a == id ==> Counted(kind) || change == 0
    case AdjustVariantOf(v, change, kind) =>
      if v !in s.variants || s.variants[v].listingId != id || !Overwrites(s, v, change, id) then true
      else if Counted(kind) then s.listings[id].quantity == VariantSum(s.variants, id, Quantity())
      else s.listings[id].quantity == VariantSum(s.variants, id, Quantity()) + change
    case SellProduct(p, amount) => p == id && p in s.products ==> amount == 0
    case _ => true
  }

  /** Over every run whose adjustments and sales meet that condition, each listing's quantity stays its original quantity
      plus the sum of its counted history. */
  lemma {:induction false} HistoryReplays(s: System, steps: seq<Step>, id: ListingId)
    requires Runnable(s, steps) && id in s.stock.listings
    requires Each(s, steps, (t: System, step: Step) => KeepsReplay(t.stock, step, id))
    ensures id in Run(s, steps).stock.listings && Origin(Run(s, steps).stock, id) == Origin(s.stock, id)
    decreases |steps|
  {
    if steps != [] {
      StepReplaysExactlyWhen(s, steps[0], id);
      HistoryReplays(Apply(s, steps[0]), steps[1..], id);
    }
  }

  lemma SettleReplays(s: System, op: LineOp, o: OrderId, id: ListingId)
    requires o in s.outstanding && id in s.stock.listings
    ensures id in Settle(s, op, o).stock.listings && Origin(Settle(s, op, o).stock, id) == Origin(s.stock, id)
  {
    if Lines(s.stock, op, s.outstanding[o]).Ok? { LinesReplay(s.stock, op, s.outstanding[o], id); }
  }

  lemma VariantReplaysExactlyWhen(s: Stock, v: VariantId, change: int, kind: ChangeType, id: ListingId)
    requires id in s.listings
    ensures
      var t := OrSame(AdjustVariant(s, v, change, kind), s);
      && id in t.listings
      && (Origin(t, id) == Origin(s, id) <==> KeepsReplay(s, AdjustVariantOf(v, change, kind), id))
  {
    if AdjustVariant(s, v, change, kind).Ok? {
      AdjustVariantShape(s, v, change, kind);
      ReplayAppend(s.history, Row(s.variants[v].listingId, change, kind), id);
      if s.variants[v].listingId == id {
        VariantAdjustmentRewritesListing(s, v, change, kind, id);
      }
    }
  }

  /** The exact calls that move a listing's quantity and the replay of its history alike: all order operations and bulk
      updates; a direct adjustment of a counted kind; a product sale under another id; and a variant adjustment of a
      counted kind while the listing's quantity is the sum over its variants. */
  lemma StepReplaysExactlyWhen(s: System, step: Step, id: ListingId)
    requires Possible(s, step) && id in s.stock.listings
    ensures id in Apply(s, step).stock.listings
    ensures Origin(Apply(s, step).stock, id) == Origin(s.stock, id) <==> KeepsReplay(s.stock, step, id)
  {
    match step
    case ReserveOrder(o, items) => if Lines(s.stock, Reserve, items).Ok? { LinesReplay(s.stock, Reserve, items, id); }
    case ConfirmOrder(o) => SettleReplays(s, Confirm, o, id);
    case CancelOrder(o) => SettleReplays(s, Cancel, o, id);
    case RefundOrder(items) => if Lines(s.stock, Restore, items).Ok? { LinesReplay(s.stock, Restore, items, id); }
    case AdjustListing(a, change, kind) => ReplayAppend(s.stock.history, Row(a, change, kind), id);
    case Bulk(updates) => BulkReplay(s.stock, updates, id);
    case AdjustVariantOf(v, change, kind) =>
      VariantReplaysExactlyWhen(s.stock, v, change, kind, id);
    case HoldProduct(p, amount) => ReplayAppend(s.stock.history, Row(p, amount, RESERVATION), id);
    case DropProduct(p, amount) => ReplayAppend(s.stock.history, Row(p, -amount, RELEASE), id);
    case SellProduct(p, amount) => ReplayAppend(s.stock.history, Row(p, -amount, PURCHASE), id);
  }

  /** A product hold is granted exactly when the stock covers it, and ends either released, leaving the product as it
      was, or sold, leaving exactly that much less of it and what others hold untouched. */
  lemma ProductHoldEndsReleasedOrSold(s: Stock, id: ListingId, amount: nat)
    requires id in s.products
    requires 0 <= s.products[id].reserved && s.products[id].available == s.products[id].quantity - s.products[id].reserved
    ensures ReserveProduct(s, id, amount).Ok? <==> amount <= s.products[id].available
    ensures ReserveProduct(s, id, amount).Ok? ==>
              var held := ReserveProduct(s, id, amount).value;
              && ReleaseProduct(held, id, amount).Ok? && ReleaseProduct(held, id, amount).value.products == s.products
              && CommitSale(held, id, amount).Ok?
              && var sold, p := CommitSale(held, id, amount).value, s.products[id];
                && sold.products == s.products[id := Level(p.quantity - amount, p.reserved, p.available - amount)]
                && sold.listings == s.listings && sold.variants == s.variants
  {}

  /** Product sales are filed in the listings' history under the product's id, so a sale keeps a listing's replay
      exactly when the listing has another id or nothing was sold. */
  lemma SaleReplaysExactlyWhen(s: Stock, product: ListingId, amount: int, id: ListingId)
    requires product in s.products && id in s.listings
    ensures Origin(CommitSale(s, product, amount).value, id) == Origin(s, id) <==> id != product || amount == 0
  {
    ReplayAppend(s.history, Row(product, -amount, PURCHASE), id);
  }

  /** Bulk rows naming no listing leave no trace: the run without them ends in the same stock. */
  lemma {:induction false} SkippedRowsLeaveNoTrace(s: Stock, updates: seq<Update>)
    ensures BulkUpdate(s, updates) == BulkUpdate(s, Existing(s, updates))
    ensures BulkUpdate(s, updates).listings.Keys == s.listings.Keys
    ensures |BulkUpdate(s, updates).history| == |s.history| + |Existing(s, updates)|
  {
    if updates != [] {
      var init, last := updates[..|updates| - 1], updates[|updates| - 1];
      SkippedRowsLeaveNoTrace(s, init);
      if last.listingId in s.listings {
        assert Existing(s, updates)[..|Existing(s, updates)| - 1] == Existing(s, init);
      }
    }
  }

  function Existing(s: Stock, updates: seq<Update>): seq<Update> {
    if updates == [] then []
    else
      var rest, last := Existing(s, updates[..|updates| - 1]), updates[|updates| - 1];
      if last.listingId in s.listings then rest + [last] else rest
  }

  // ---------------------------------------------------------------- variants

  lemma StepKeepsVariantsReserved(s: System, step: Step, id: ListingId)
    requires Possible(s, step)
    ensures VariantSum(Apply(s, step).stock.variants, id, Reserved()) == VariantSum(s.stock.variants, id, Reserved())
  {
    match step
    case ReserveOrder(o, items) => LinesKeepVariants(s.stock, Reserve, items);
    case ConfirmOrder(o) => LinesKeepVariants(s.stock, Confirm, s.outstanding[o]);
    case CancelOrder(o) => LinesKeepVariants(s.stock, Cancel, s.outstanding[o]);
    case RefundOrder(items) => LinesKeepVariants(s.stock, Restore, items);
    case Bulk(updates) => BulkKeepsVariants(s.stock, updates);
    case AdjustVariantOf(v, change, kind) =>
      if AdjustVariant(s.stock, v, change, kind).Ok? { VariantSumsAfter(s.stock, v, change, kind, id); }
    case _ =>
  }

  lemma {:induction false} LinesKeepVariants(s: Stock, op: LineOp, items: seq<Item>)
    ensures Lines(s, op, items).Ok? ==> Lines(s, op, items).value.variants == s.variants
  {
    if items != [] { LinesKeepVariants(s, op, items[..|items| - 1]); }
  }

  lemma {:induction false} BulkKeepsVariants(s: Stock, updates: seq<Update>)
    ensures BulkUpdate(s, updates).variants == s.variants
  {
    if updates != [] { BulkKeepsVariants(s, updates[..|updates| - 1]); }
  }

  // ----- listings changed only through their variants -----

  predicate NamesItem(items: seq<Item>, id: ListingId) {
    exists i :: 0 <= i < |items| && items[i].listingId == id
  }

  // A call that reaches the listing, if at all, through one of its variants.
  ghost predicate ThroughVariants(s: System, step: Step, id: ListingId) {
    match step
    case ReserveOrder(_, items) => !NamesItem(items, id)
    case ConfirmOrder(o) => o in s.outstanding ==> !NamesItem(s.outstanding[o], id)
    case CancelOrder(o) => o in s.outstanding ==> !NamesItem(s.outstanding[o], id)
    case RefundOrder(items) => !NamesItem(items, id)
    case AdjustListing(a, _, _) => a != id
    case Bulk(updates) => forall u :: u in updates ==> u.listingId != id
    case _ => true
  }

  lemma {:induction false} LinesElsewhere(s: Stock, op: LineOp, items: seq<Item>, id: ListingId)
    requires Lines(s, op, items).Ok? && id in s.listings && !NamesItem(items, id)
    ensures id in Lines(s, op, items).value.listings && Lines(s, op, items).value.listings[id] == s.listings[id]
  {
    if items != [] {
      var init := items[..|items| - 1];
      assert forall i :: 0 <= i < |init| ==> init[i] == items[i];
      LinesElsewhere(s, op, init, id);
    }
  }

  lemma {:induction false} BulkElsewhere(s: Stock, updates: seq<Update>, id: ListingId)
    requires id in s.listings && forall u :: u in updates ==> u.listingId != id
    ensures id in BulkUpdate(s, updates).listings && BulkUpdate(s, updates).listings[id] == s.listings[id]
  {
    if updates != [] {
      BulkElsewhere(s, updates[..|updates| - 1], id);
    }
  }

  lemma LinesKeepTotals(s: Stock, op: LineOp, items: seq<Item>, id: ListingId)
    requires id in s.listings && !NamesItem(items, id) && Lines(s, op, items).Ok?
    ensures id in Lines(s, op, items).value.listings
    ensures TotalsMatch(s, id) <==> TotalsMatch(Lines(s, op, items).value, id)
  {
    LinesElsewhere(s, op, items, id);
    LinesKeepVariants(s, op, items);
  }

  lemma StepKeepsTotals(s: System, step: Step, id: ListingId)
    requires Possible(s, step) && id in s.stock.listings && ThroughVariants(s, step, id)
    ensures id in Apply(s, step).stock.listings
    ensures TotalsMatch(s.stock, id) || (step.AdjustVariantOf? && Overwrites(s.stock, step.variant, step.change, id)) ==>
              TotalsMatch(Apply(s, step).stock, id)
  {
    match step
    case ReserveOrder(o, items) => if Lines(s.stock, Reserve, items).Ok? { LinesKeepTotals(s.stock, Reserve, items, id); }
    case ConfirmOrder(o) => if Settle(s, Confirm, o) != s { LinesKeepTotals(s.stock, Confirm, s.outstanding[o], id); }
    case CancelOrder(o) => if Settle(s, Cancel, o) != s { LinesKeepTotals(s.stock, Cancel, s.outstanding[o], id); }
    case RefundOrder(items) => if Lines(s.stock, Restore, items).Ok? { LinesKeepTotals(s.stock, Restore, items, id); }
    case Bulk(updates) =>
      BulkElsewhere(s.stock, updates, id);
      BulkKeepsVariants(s.stock, updates);
    case AdjustVariantOf(v, change, kind) =>
      if AdjustVariant(s.stock, v, change, kind).Ok? {
        if s.stock.variants[v].listingId == id {
          VariantAdjustmentRewritesListing(s.stock, v, change, kind, id);
        } else {
          VariantAdjustmentElsewhere(s.stock, v, change, kind, id);
        }
      }
    case _ =>
  }

  /** A listing changed only through its variants shows their totals over every run: from the start if it did, and in any
      case once one of its variants has been adjusted. */
  lemma {:induction false} TotalsMatchOverRuns(s: System, steps: seq<Step>, id: ListingId, adjusted: nat)
    requires Runnable(s, steps) && id in s.stock.listings && adjusted <= |steps|
    requires Each(s, steps, (t: System, step: Step) => ThroughVariants(t, step, id))
    requires Runnable(s, steps[..adjusted])
    requires TotalsMatch(s.stock, id)
          || (adjusted < |steps| && steps[adjusted].AdjustVariantOf?
              && Overwrites(Run(s, steps[..adjusted]).stock, steps[adjusted].variant, steps[adjusted].change, id))
    ensures id in Run(s, steps).stock.listings && TotalsMatch(Run(s, steps).stock, id)
    decreases |steps|
  {
    if steps != [] {
      StepKeepsTotals(s, steps[0], id);
      var t := Apply(s, steps[0]);
      if TotalsMatch(t.stock, id) {
        assert steps[1..][..0] == [];
        TotalsMatchOverRuns(t, steps[1..], id, 0);
      } else {
        assert steps[..adjusted][1..] == steps[1..][..adjusted - 1];
        TotalsMatchOverRuns(t, steps[1..], id, adjusted - 1);
      }
    }
  }

  /** Over such a run from matching totals, with counted adjustments and no product sold under the listing's id, the
      listing's history replays. */
  lemma {:induction false} VariantsOnlyRunReplays(s: System, steps: seq<Step>, id: ListingId)
    requires Runnable(s, steps) && id in s.stock.listings && TotalsMatch(s.stock, id)
    requires Each(s, steps, (t: System, step: Step) => ThroughVariants(t, step, id))
    requires forall step :: step in steps && step.AdjustVariantOf? ==> Counted(step.kind)
    requires forall step :: step in steps && step.SellProduct? ==> step.product != id
    ensures id in Run(s, steps).stock.listings && Origin(Run(s, steps).stock, id) == Origin(s.stock, id)
    decreases |steps|
  {
    if steps != [] {
      MatchingTotalsReplay(s, steps[0], id);
      StepReplaysExactlyWhen(s, steps[0], id);
      StepKeepsTotals(s, steps[0], id);
      VariantsOnlyRunReplays(Apply(s, steps[0]), steps[1..], id);
    }
  }

  lemma MatchingTotalsReplay(s: System, step: Step, id: ListingId)
    requires Possible(s, step) && id in s.stock.listings && TotalsMatch(s.stock, id) && ThroughVariants(s, step, id)
    requires step.AdjustVariantOf? ==> Counted(step.kind)
    requires step.SellProduct? ==> step.product != id
    ensures KeepsReplay(s.stock, step, id)
  {
    if step.AdjustVariantOf? && Overwrites(s.stock, step.variant, step.change, id) {
      assert HasVariants(s.stock.variants, id);
    }
  }
}
