/** When each inventory call goes through, and the levels and history rows it leaves. */
module InventoryOutcomes {
  import opened Common
  import opened InventoryLedger
  import opened InventoryVariants
  import opened InventoryRuns

  predicate Named(s: Stock, items: seq<Item>) {
    forall i :: 0 <= i < |items| ==> items[i].listingId in s.listings
  }

  /** Confirming, cancelling and refunding ask only that the listings exist: what is available does not matter. */
  lemma {:induction false} SettlesExactlyWhenNamed(s: Stock, op: LineOp, items: seq<Item>)
    requires op == Confirm || op == Cancel || op == Restore
    ensures Lines(s, op, items).Ok? <==> Named(s, items)
    ensures Lines(s, op, items).Ok? ==> Lines(s, op, items).value.listings.Keys == s.listings.Keys
    ensures Lines(s, op, items).Err? ==> Lines(s, op, items).error == NotFound
  {
    if items != [] {
      var init := items[..|items| - 1];
      SettlesExactlyWhenNamed(s, op, init);
      assert Named(s, items) <==> Named(s, init) && items[|items| - 1].listingId in s.listings by {
        assert forall i :: 0 <= i < |init| ==> init[i] == items[i];
      }
    }
  }

  lemma {:induction false} ReservedAreNamed(s: Stock, items: seq<Item>)
    requires Lines(s, Reserve, items).Ok?
    ensures Named(s, items) && Lines(s, Reserve, items).value.listings.Keys == s.listings.Keys
  {
    if items != [] {
      var init := items[..|items| - 1];
      ReservedAreNamed(s, init);
      assert forall i :: 0 <= i < |init| ==> init[i] == items[i];
    }
  }

  // ---------------------------------------------------------------- levels of a single listing

  lemma OneLine(s: Stock, op: LineOp, item: Item)
    ensures Lines(s, op, [item]) == Line(s, op, item)
  {
    assert [item][..0] == [];
    assert Lines(s, op, [item][..0]) == Ok(s);
  }

  // The stock after one listing has changed and one row has been filed.
  function Moved(s: Stock, id: ListingId, level: Level, row: Row): Stock {
    s.(listings := s.listings[id := level], history := s.history + [row])
  }

  lemma LevelMoves(op: LineOp, l: Level, q: nat)
    requires q <= l.reserved && l.available == l.quantity - l.reserved
    ensures LineLevel(op, l, q) ==
              match op
              case Reserve => Level(l.quantity, l.reserved + q, l.available - q)
              case Confirm => Level(l.quantity - q, l.reserved - q, l.available)
              case Cancel => Level(l.quantity, l.reserved - q, l.available + q)
              case Restore => Level(l.quantity + q, l.reserved, l.available + q)
  {}

  /** One line moves its listing by its quantity and files it: reserving sets it aside, confirming takes it from the stock and
      from what is set aside, cancelling gives back what was set aside, refunding adds to the stock. */
  lemma LineMoves(s: Stock, op: LineOp, item: Item)
    requires item.listingId in s.listings
    requires item.quantity <= s.listings[item.listingId].reserved && item.quantity <= s.listings[item.listingId].available
    requires s.listings[item.listingId].available == s.listings[item.listingId].quantity - s.listings[item.listingId].reserved
    ensures
      var id, q, l := item.listingId, item.quantity, s.listings[item.listingId];
      Lines(s, op, [item]) ==
        match op
        case Reserve => Ok(Moved(s, id, Level(l.quantity, l.reserved + q, l.available - q), Row(id, q, RESERVATION)))
        case Confirm => Ok(Moved(s, id, Level(l.quantity - q, l.reserved - q, l.available), Row(id, 0 - q, PURCHASE)))
        case Cancel => Ok(Moved(s, id, Level(l.quantity, l.reserved - q, l.available + q), Row(id, q, CANCELLATION)))
        case Restore => Ok(Moved(s, id, Level(l.quantity + q, l.reserved, l.available + q), Row(id, q, REFUND)))
  {
    OneLine(s, op, item);
    LevelMoves(op, s.listings[item.listingId], item.quantity);
    assert Line(s, op, item) == Ok(Moved(s, item.listingId, LineLevel(op, s.listings[item.listingId], item.quantity), LineRow(op, item)));
  }

  // The rows filed for lines of one kind.
  function Rows(items: seq<Item>, sign: int, kind: ChangeType): seq<Row> {
    seq(|items|, i requires 0 <= i < |items| => Row(items[i].listingId, sign * items[i].quantity, kind))
  }

  /** Each line files one history row, in order: what was taken from the stock as a negative change, the rest as positive. */
  lemma {:induction false} LinesFileRows(s: Stock, op: LineOp, items: seq<Item>)
    requires Lines(s, op, items).Ok?
    ensures Lines(s, op, items).value.history == s.history +
              match op
              case Reserve => Rows(items, 1, RESERVATION)
              case Confirm => Rows(items, -1, PURCHASE)
              case Cancel => Rows(items, 1, CANCELLATION)
              case Restore => Rows(items, 1, REFUND)
  {
    if items != [] {
      var init, last := items[..|items| - 1], items[|items| - 1];
      LinesFileRows(s, op, init);
      forall sign, kind
        ensures Rows(items, sign, kind) == Rows(init, sign, kind) + [Row(last.listingId, sign * last.quantity, kind)]
      {}
    }
  }

  // ---------------------------------------------------------------- adjustments

  /** A direct adjustment of an existing listing always goes through, moves quantity and available by the change and files it. */
  lemma AdjustedExactlyWhenKnown(s: Stock, id: ListingId, change: int, kind: ChangeType)
    ensures Adjust(s, id, change, kind).Ok? <==> id in s.listings
    ensures id in s.listings ==>
              var l := s.listings[id];
              Adjust(s, id, change, kind).value ==
                s.(listings := s.listings[id := Level(l.quantity + change, l.reserved, l.quantity + change - l.reserved)],
                   history := s.history + [Row(id, change, kind)])
  {}

  /** A variant adjustment goes through exactly when it leaves the variant no less than what is reserved of it. */
  lemma VariantAdjustedExactlyWhen(s: Stock, v: VariantId, change: int, kind: ChangeType)
    ensures AdjustVariant(s, v, change, kind).Ok?
       <==> v in s.variants && s.variants[v].level.reserved <= s.variants[v].level.quantity + change
    ensures AdjustVariant(s, v, change, kind).Ok? ==>
              var row := s.variants[v];
              && AdjustVariant(s, v, change, kind).value.variants ==
                   s.variants[v := Variant(row.listingId, Level(row.level.quantity + change, row.level.reserved,
                                                                row.level.quantity + change - row.level.reserved))]
              && AdjustVariant(s, v, change, kind).value.history == s.history + [Row(row.listingId, change, kind)]
  {}

  // ---------------------------------------------------------------- orders over runs

  // Every listing an outstanding order names exists.
  ghost predicate OrdersNamed(s: System) {
    forall o :: o in s.outstanding ==> Named(s.stock, s.outstanding[o])
  }

  lemma {:induction false} BulkKeepsKeys(s: Stock, updates: seq<Update>)
    ensures BulkUpdate(s, updates).listings.Keys == s.listings.Keys
  {
    if updates != [] {
      BulkKeepsKeys(s, updates[..|updates| - 1]);
    }
  }

  lemma StepKeepsNamed(s: System, step: Step)
    requires OrdersNamed(s) && Possible(s, step)
    ensures OrdersNamed(Apply(s, step))
    ensures Apply(s, step).stock.listings.Keys == s.stock.listings.Keys
  {
    match step
    case ReserveOrder(o, items) => if Lines(s.stock, Reserve, items).Ok? { ReservedAreNamed(s.stock, items); }
    case ConfirmOrder(o) => SettlesExactlyWhenNamed(s.stock, Confirm, s.outstanding[o]);
    case CancelOrder(o) => SettlesExactlyWhenNamed(s.stock, Cancel, s.outstanding[o]);
    case RefundOrder(items) => SettlesExactlyWhenNamed(s.stock, Restore, items);
    case Bulk(updates) => BulkKeepsKeys(s.stock, updates);
    case AdjustVariantOf(v, change, kind) =>
      if AdjustVariant(s.stock, v, change, kind).Ok? { AdjustVariantShape(s.stock, v, change, kind); }
    case _ =>
  }

  lemma {:induction false} RunKeepsNamed(s: System, steps: seq<Step>)
    requires OrdersNamed(s) && Runnable(s, steps)
    ensures OrdersNamed(Run(s, steps))
    decreases |steps|
  {
    if steps != [] {
      StepKeepsNamed(s, steps[0]);
      RunKeepsNamed(Apply(s, steps[0]), steps[1..]);
    }
  }

  /** At any moment of any run, every outstanding order can be confirmed and can be cancelled, and is no longer outstanding
      after either; its lines are then filed as purchases or as cancellations. */
  lemma OutstandingOrdersSettle(s: System, steps: seq<Step>, o: OrderId)
    requires s.outstanding == map[] && Runnable(s, steps) && o in Run(s, steps).outstanding
    ensures
      var t := Run(s, steps);
      var items := t.outstanding[o];
      && Apply(t, ConfirmOrder(o)).outstanding == t.outstanding - {o}
      && Apply(t, CancelOrder(o)).outstanding == t.outstanding - {o}
      && Apply(t, ConfirmOrder(o)).stock.history == t.stock.history + Rows(items, -1, PURCHASE)
      && Apply(t, CancelOrder(o)).stock.history == t.stock.history + Rows(items, 1, CANCELLATION)
  {
    RunKeepsNamed(s, steps);
    var t := Run(s, steps);
    SettlesExactlyWhenNamed(t.stock, Confirm, t.outstanding[o]);
    SettlesExactlyWhenNamed(t.stock, Cancel, t.outstanding[o]);
    LinesFileRows(t.stock, Confirm, t.outstanding[o]);
    LinesFileRows(t.stock, Cancel, t.outstanding[o]);
  }

  // Confirming the order takes exactly what it held of the listing, and cancelling gives exactly that back.
  ghost predicate SettlesInFull(t: System, o: OrderId, id: ListingId)
    requires o in t.outstanding && id in t.stock.listings
  {
    var l, q := t.stock.listings[id], Ordered(t.outstanding[o], id);
    var confirmed, cancelled := Apply(t, ConfirmOrder(o)).stock.listings, Apply(t, CancelOrder(o)).stock.listings;
    && id in confirmed && confirmed[id] == Level(l.quantity - q, l.reserved - q, l.available)
    && id in cancelled && cancelled[id] == Level(l.quantity, l.reserved - q, l.available + q)
  }

  lemma SettledInFull(t: System, o: OrderId, id: ListingId)
    requires Reservations(t) && OrdersNamed(t) && o in t.outstanding && id in t.stock.listings
    ensures SettlesInFull(t, o, id)
  {
    SettlesExactlyWhenNamed(t.stock, Confirm, t.outstanding[o]);
    SettlesExactlyWhenNamed(t.stock, Cancel, t.outstanding[o]);
    SettlingNeverClamps(t, Confirm, o, id);
    SettlingNeverClamps(t, Cancel, o, id);
  }

  /** Where reservations are kept, settling also moves each listing by exactly what the order held of it, with no clamp. */
  lemma OutstandingOrdersSettleInFull(s: System, steps: seq<Step>, o: OrderId, id: ListingId)
    requires Start(s) && Runnable(s, steps) && Each(s, steps, KeepsReserved)
    requires o in Run(s, steps).outstanding && id in Run(s, steps).stock.listings
    ensures SettlesInFull(Run(s, steps), o, id)
  {
    StartReserves(s);
    ReservedIsWhatOrdersHold(s, steps);
    RunKeepsNamed(s, steps);
    SettledInFull(Run(s, steps), o, id);
  }

  // ---------------------------------------------------------------- products

  /** Product calls go through for an existing product, a hold only within what is available; each files one row under the
      product's id and leaves listings and variants alone. */
  lemma ProductCallsExactlyWhen(s: Stock, id: ListingId, amount: int)
    ensures ReserveProduct(s, id, amount).Ok? <==> id in s.products && amount <= s.products[id].available
    ensures ReleaseProduct(s, id, amount).Ok? <==> id in s.products
    ensures CommitSale(s, id, amount).Ok? <==> id in s.products
    ensures ReserveProduct(s, id, amount).Ok? ==>
              var t, p := ReserveProduct(s, id, amount).value, s.products[id];
              && t.products == s.products[id := Level(p.quantity, p.reserved + amount, p.quantity - p.reserved - amount)]
              && t.history == s.history + [Row(id, amount, RESERVATION)] && t.listings == s.listings && t.variants == s.variants
    ensures id in s.products && amount <= s.products[id].reserved ==>
              var p := s.products[id];
              var released, sold := ReleaseProduct(s, id, amount).value, CommitSale(s, id, amount).value;
              && released.products == s.products[id := Level(p.quantity, p.reserved - amount, p.quantity - p.reserved + amount)]
              && released.history == s.history + [Row(id, 0 - amount, RELEASE)]
              && sold.products == s.products[id := Level(p.quantity - amount, p.reserved - amount, p.quantity - p.reserved)]
              && sold.history == s.history + [Row(id, 0 - amount, PURCHASE)]
    ensures id in s.products && s.products[id].reserved < amount ==>
              var p := s.products[id];
              && ReleaseProduct(s, id, amount).value.products == s.products[id := Level(p.quantity, 0, p.quantity)]
              && CommitSale(s, id, amount).value.products == s.products[id := Level(p.quantity - amount, 0, p.quantity - amount)]
  {}

  // ---------------------------------------------------------------- aggregates

  /** A listing without variants only has its available worked out again; one with variants takes their sums. */
  lemma SyncedExactly(s: Stock, id: ListingId)
    requires id in s.listings
    ensures !HasVariants(s.variants, id) ==>
              var l := s.listings[id];
              Synced(s, id) == s.(listings := s.listings[id := Level(l.quantity, l.reserved, l.quantity - l.reserved)])
    ensures HasVariants(s.variants, id) ==> TotalsMatch(Synced(s, id), id)
    ensures forall other :: other in s.listings && other != id ==>
              other in Synced(s, id).listings && Synced(s, id).listings[other] == s.listings[other]
  {}
}
