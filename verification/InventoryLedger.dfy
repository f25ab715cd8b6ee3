/**
 * Listing, variant and product stock with an append-only history, and the effect of each inventory call: order
 * operations over several lines with rollback, direct and bulk adjustments, and variant-to-listing aggregates.
 */
module InventoryLedger {
  import opened Common
  import opened Sums

  type ListingId = string
  type VariantId = string

  // Listings and products keep the same three numbers in separate tables.
  datatype Level = Level(quantity: int, reserved: int, available: int)

  datatype Variant = Variant(listingId: ListingId, level: Level)

  datatype ChangeType = PURCHASE | ADJUSTMENT | RESERVATION | RELEASE | BULK_UPDATE | CANCELLATION | REFUND

  datatype Row = Row(listingId: ListingId, change: int, kind: ChangeType)

  datatype Item = Item(listingId: ListingId, quantity: nat)

  datatype Stock = Stock(listings: map<ListingId, Level>, variants: map<VariantId, Variant>,
                         products: map<ListingId, Level>, history: seq<Row>)

  datatype Error = NotFound | Insufficient

  datatype LineOp = Reserve | Confirm | Cancel | Restore

  function Clamp(x: int): nat {
    if x < 0 then 0 else x
  }

  function Relevel(quantity: int, reserved: int): Level {
    Level(quantity, reserved, quantity - reserved)
  }

  // ---------------------------------------------------------------- order operations

  function LineLevel(op: LineOp, l: Level, q: nat): Level {
    match op
    case Reserve => Relevel(l.quantity, l.reserved + q)
    case Confirm => Relevel(l.quantity - q, Clamp(l.reserved - q))
    case Cancel => Relevel(l.quantity, Clamp(l.reserved - q))
    case Restore => Relevel(l.quantity + q, l.reserved)
  }

  function LineRow(op: LineOp, item: Item): Row {
    match op
    case Reserve => Row(item.listingId, item.quantity, RESERVATION)
    case Confirm => Row(item.listingId, 0 - item.quantity, PURCHASE)
    case Cancel => Row(item.listingId, item.quantity, CANCELLATION)
    case Restore => Row(item.listingId, item.quantity, REFUND)
  }

  function Line(s: Stock, op: LineOp, item: Item): Result<Stock, Error> {
    if item.listingId !in s.listings then Err(NotFound)
    else
      var l := s.listings[item.listingId];
      if op == Reserve && l.available < item.quantity then Err(Insufficient)
      else Ok(s.(listings := s.listings[item.listingId := LineLevel(op, l, item.quantity)],
                 history := s.history + [LineRow(op, item)]))
  }

  // The lines one after the other, stopping at the first that fails.
  function Lines(s: Stock, op: LineOp, items: seq<Item>): Result<Stock, Error> {
    if items == [] then Ok(s)
    else
      match Lines(s, op, items[..|items| - 1])
      case Err(e) => Err(e)
      case Ok(t) => Line(t, op, items[|items| - 1])
  }

  // Inside a transaction a failure undoes every line before it.
  function Transact(s: Stock, op: LineOp, items: seq<Item>): Stock {
    match Lines(s, op, items)
    case Ok(t) => t
    case Err(_) => s
  }

  // ---------------------------------------------------------------- adjustments

  function Adjust(s: Stock, id: ListingId, change: int, kind: ChangeType): Result<Stock, Error> {
    if id !in s.listings then Err(NotFound)
    else
      var l := s.listings[id];
      Ok(s.(listings := s.listings[id := Relevel(l.quantity + change, l.reserved)],
            history := s.history + [Row(id, change, kind)]))
  }

  datatype Update = Update(listingId: ListingId, change: int)

  function BulkUpdate(s: Stock, updates: seq<Update>): Stock {
    if updates == [] then s
    else
      var before, u := BulkUpdate(s, updates[..|updates| - 1]), updates[|updates| - 1];
      match Adjust(before, u.listingId, u.change, BULK_UPDATE)
      case Ok(t) => t
      case Err(_) => before
  }

  // ---------------------------------------------------------------- variants

  ghost function VariantSum(variants: map<VariantId, Variant>, id: ListingId, f: Level -> int): int {
    Sum(map v | v in variants && variants[v].listingId == id :: f(variants[v].level))
  }

  function Quantity(): Level -> int { (l: Level) => l.quantity }
  function Reserved(): Level -> int { (l: Level) => l.reserved }
  function Available(): Level -> int { (l: Level) => l.available }

  ghost function Aggregate(variants: map<VariantId, Variant>, id: ListingId): Level {
    Level(VariantSum(variants, id, Quantity()), VariantSum(variants, id, Reserved()), VariantSum(variants, id, Available()))
  }

  predicate HasVariants(variants: map<VariantId, Variant>, id: ListingId) {
    exists v :: v in variants && variants[v].listingId == id
  }

  ghost function Synced(s: Stock, id: ListingId): Stock
    requires id in s.listings
  {
    var l := s.listings[id];
    s.(listings := s.listings[id := if HasVariants(s.variants, id) then Aggregate(s.variants, id)
                                    else Relevel(l.quantity, l.reserved)])
  }

  ghost function AdjustVariant(s: Stock, id: VariantId, change: int, kind: ChangeType): Result<Stock, Error> {
    if id !in s.variants then Err(NotFound)
    else
      var v := s.variants[id];
      var level := Relevel(v.level.quantity + change, v.level.reserved);
      if level.available < 0 then Err(Insufficient)
      else
        var t := s.(variants := s.variants[id := v.(level := level)]);
        var u := if v.listingId in s.listings then Synced(t, v.listingId) else t;
        Ok(u.(history := u.history + [Row(v.listingId, change, kind)]))
  }

  // ---------------------------------------------------------------- products

  function ReserveProduct(s: Stock, id: ListingId, amount: int): Result<Stock, Error> {
    if id !in s.products then Err(NotFound)
    else
      var p := s.products[id];
      if p.available < amount then Err(Insufficient)
      else Ok(s.(products := s.products[id := Relevel(p.quantity, p.reserved + amount)],
                 history := s.history + [Row(id, amount, RESERVATION)]))
  }

  function ReleaseProduct(s: Stock, id: ListingId, amount: int): Result<Stock, Error> {
    if id !in s.products then Err(NotFound)
    else
      var p := s.products[id];
      Ok(s.(products := s.products[id := Relevel(p.quantity, Clamp(p.reserved - amount))],
            history := s.history + [Row(id, -amount, RELEASE)]))
  }

  function CommitSale(s: Stock, id: ListingId, amount: int): Result<Stock, Error> {
    if id !in s.products then Err(NotFound)
    else
      var p := s.products[id];
      Ok(s.(products := s.products[id := Relevel(p.quantity - amount, Clamp(p.reserved - amount))],
            history := s.history + [Row(id, -amount, PURCHASE)]))
  }

  // ---------------------------------------------------------------- quantities over lines

  function Ordered(items: seq<Item>, id: ListingId): nat {
    if items == [] then 0
    else
      var last := items[|items| - 1];
      Ordered(items[..|items| - 1], id) + (if last.listingId == id then last.quantity else 0)
  }

  ghost predicate Consistent(s: Stock) {
    forall id :: id in s.listings ==> s.listings[id].available == s.listings[id].quantity - s.listings[id].reserved
  }

  /** An operation over several lines, however often they repeat a listing, changes each listing by the total ordered
      of it, and changes no other table. */
  lemma {:induction false} LinesEffect(s: Stock, op: LineOp, items: seq<Item>, id: ListingId)
    requires Consistent(s) && Lines(s, op, items).Ok?
    requires forall id :: id in s.listings ==> 0 <= s.listings[id].reserved
    ensures
      var t := Lines(s, op, items).value;
      && t.listings.Keys == s.listings.Keys && t.variants == s.variants && t.products == s.products
      && (id in s.listings ==> t.listings[id] == LineLevel(op, s.listings[id], Ordered(items, id)))
      && (id !in s.listings ==> Ordered(items, id) == 0)
  {
    if items != [] {
      LinesEffect(s, op, items[..|items| - 1], id);
    }
  }

  predicate Fits(s: Stock, items: seq<Item>, id: ListingId) {
    id in s.listings && Ordered(items, id) <= s.listings[id].available
  }

  /** A reservation over several lines succeeds exactly when every listing named exists and can cover the total its
      lines ask for. */
  lemma {:induction false} ReservationSucceedsExactlyWhenTotalsFit(s: Stock, items: seq<Item>)
    requires Consistent(s)
    requires forall id :: id in s.listings ==> 0 <= s.listings[id].reserved
    ensures Lines(s, Reserve, items).Ok? <==> forall i :: 0 <= i < |items| ==> Fits(s, items, items[i].listingId)
  {
    if items != [] {
      var init, last := items[..|items| - 1], items[|items| - 1];
      ReservationSucceedsExactlyWhenTotalsFit(s, init);
      if Lines(s, Reserve, init).Ok? {
        LinesEffect(s, Reserve, init, last.listingId);
        if Lines(s, Reserve, items).Ok? {
          forall i | 0 <= i < |items|
            ensures Fits(s, items, items[i].listingId)
          {
            if i < |init| {
              assert init[i] == items[i];
              assert Fits(s, init, init[i].listingId);
            }
          }
        } else {
          assert !Fits(s, items, items[|items| - 1].listingId);
        }
      } else {
        var i :| 0 <= i < |init| && !Fits(s, init, init[i].listingId);
        assert items[i] == init[i] && !Fits(s, items, items[i].listingId);
      }
    }
  }
}
