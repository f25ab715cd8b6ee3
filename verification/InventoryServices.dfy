/** The inventory service: each call is a transaction over the tables it updates in place. */
module InventoryServices {
  import opened Common
  import opened Sums
  import opened InventoryLedger

  class InventoryService {
    var listings: map<ListingId, Level>
    var variants: map<VariantId, Variant>
    var products: map<ListingId, Level>
    var history: seq<Row>

    ghost function State(): Stock
      reads this
    {
      Stock(listings, variants, products, history)
    }

    constructor (listings: map<ListingId, Level>, variants: map<VariantId, Variant>, products: map<ListingId, Level>)
      ensures State() == Stock(listings, variants, products, [])
    {
      this.listings, this.variants, this.products, history := listings, variants, products, [];
    }

    // ---------------------------------------------------------------- order operations

    method ReserveForOrder(items: seq<Item>) returns (error: Option<Error>)
      modifies this`listings, this`history
      ensures State() == Transact(old(State()), Reserve, items)
      ensures error == (match Lines(old(State()), Reserve, items) case Ok(_) => None case Err(e) => Some(e))
      ensures error.Some? ==> State() == old(State())
    {
      var savedListings, savedHistory := listings, history;
      for i := 0 to |items|
        invariant variants == old(variants) && products == old(products)
        invariant Lines(old(State()), Reserve, items[..i]) == Ok(State())
      {
        assert items[..i + 1][..i] == items[..i];
        var item := items[i];
        if item.listingId !in listings || listings[item.listingId].available < item.quantity {
          error := Some(if item.listingId !in listings then NotFound else Insufficient);
          LinesStop(old(State()), Reserve, items, i + 1);
          listings, history := savedListings, savedHistory;
          return;
        }
        var l := listings[item.listingId];
        var reserved := l.reserved + item.quantity;
        listings := listings[item.listingId := Level(l.quantity, reserved, l.quantity - reserved)];
        history := history + [Row(item.listingId, item.quantity, RESERVATION)];
      }
      assert items[..|items|] == items;
      return None;
    }

    method ConfirmOrder(items: seq<Item>) returns (error: Option<Error>)
      modifies this`listings, this`history
      ensures State() == Transact(old(State()), Confirm, items)
      ensures error == (match Lines(old(State()), Confirm, items) case Ok(_) => None case Err(e) => Some(e))
    {
      var savedListings, savedHistory := listings, history;
      for i := 0 to |items|
        invariant variants == old(variants) && products == old(products)
        invariant Lines(old(State()), Confirm, items[..i]) == Ok(State())
      {
        assert items[..i + 1][..i] == items[..i];
        var item := items[i];
        if item.listingId !in listings {
          LinesStop(old(State()), Confirm, items, i + 1);
          listings, history := savedListings, savedHistory;
          return Some(NotFound);
        }
        var l := listings[item.listingId];
        var quantity := l.quantity - item.quantity;
        var reserved := l.reserved - item.quantity;
        if reserved < 0 { reserved := 0; }
        listings := listings[item.listingId := Level(quantity, reserved, quantity - reserved)];
        history := history + [Row(item.listingId, 0 - item.quantity, PURCHASE)];
      }
      assert items[..|items|] == items;
      return None;
    }

    method CancelOrder(items: seq<Item>) returns (error: Option<Error>)
      modifies this`listings, this`history
      ensures State() == Transact(old(State()), Cancel, items)
      ensures error == (match Lines(old(State()), Cancel, items) case Ok(_) => None case Err(e) => Some(e))
    {
      var savedListings, savedHistory := listings, history;
      for i := 0 to |items|
        invariant variants == old(variants) && products == old(products)
        invariant Lines(old(State()), Cancel, items[..i]) == Ok(State())
      {
        assert items[..i + 1][..i] == items[..i];
        var item := items[i];
        if item.listingId !in listings {
          LinesStop(old(State()), Cancel, items, i + 1);
          listings, history := savedListings, savedHistory;
          return Some(NotFound);
        }
        var l := listings[item.listingId];
        var reserved := l.reserved - item.quantity;
        if reserved < 0 { reserved := 0; }
        listings := listings[item.listingId := Level(l.quantity, reserved, l.quantity - reserved)];
        history := history + [Row(item.listingId, item.quantity, CANCELLATION)];
      }
      assert items[..|items|] == items;
      return None;
    }

    method RestoreInventoryFromRefund(items: seq<Item>) returns (error: Option<Error>)
      modifies this`listings, this`history
      ensures State() == Transact(old(State()), Restore, items)
      ensures error == (match Lines(old(State()), Restore, items) case Ok(_) => None case Err(e) => Some(e))
    {
      var savedListings, savedHistory := listings, history;
      for i := 0 to |items|
        invariant variants == old(variants) && products == old(products)
        invariant Lines(old(State()), Restore, items[..i]) == Ok(State())
      {
        assert items[..i + 1][..i] == items[..i];
        var item := items[i];
        if item.listingId !in listings {
          LinesStop(old(State()), Restore, items, i + 1);
          listings, history := savedListings, savedHistory;
          return Some(NotFound);
        }
        var l := listings[item.listingId];
        var quantity := l.quantity + item.quantity;
        listings := listings[item.listingId := Level(quantity, l.reserved, quantity - l.reserved)];
        history := history + [Row(item.listingId, item.quantity, REFUND)];
      }
      assert items[..|items|] == items;
      return None;
    }

    // ---------------------------------------------------------------- adjustments

    method AdjustInventory(id: ListingId, change: int, kind: ChangeType) returns (r: Result<Level, Error>)
      modifies this`listings, this`history
      ensures r.Ok? <==> Adjust(old(State()), id, change, kind).Ok?
      ensures r.Ok? ==> State() == Adjust(old(State()), id, change, kind).value && id in listings && r.value == listings[id]
      ensures r.Err? ==> State() == old(State()) && r.error == NotFound
    {
      if id !in listings { return Err(NotFound); }
      var l := listings[id];
      l := l.(quantity := l.quantity + change);
      l := l.(available := l.quantity - l.reserved);
      listings := listings[id := l];
      history := history + [Row(id, change, kind)];
      return Ok(l);
    }

    method BulkUpdateInventory(updates: seq<Update>) returns (touched: nat)
      modifies this`listings, this`history
      ensures State() == BulkUpdate(old(State()), updates)
      ensures touched == |history| - |old(history)|
    {
      touched := 0;
      for i := 0 to |updates|
        invariant variants == old(variants) && products == old(products)
        invariant State() == BulkUpdate(old(State()), updates[..i])
        invariant touched == |history| - |old(history)|
      {
        assert updates[..i + 1][..i] == updates[..i];
        var update := updates[i];
        if update.listingId in listings {
          var l := listings[update.listingId];
          l := l.(quantity := l.quantity + update.change);
          l := l.(available := l.quantity - l.reserved);
          listings := listings[update.listingId := l];
          history := history + [Row(update.listingId, update.change, BULK_UPDATE)];
          touched := touched + 1;
        }
      }
      assert updates[..|updates|] == updates;
    }

    // ---------------------------------------------------------------- variants

    method SumVariants(id: ListingId) returns (found: bool, total: Level)
      ensures found == HasVariants(variants, id)
      ensures total == Aggregate(variants, id)
    {
      found, total := false, Level(0, 0, 0);
      var todo := variants.Keys;
      ghost var done: map<VariantId, Variant> := map[];
      while todo != {}
        invariant todo <= variants.Keys && done == variants - todo
        invariant found == HasVariants(done, id)
        invariant total == Aggregate(done, id)
        decreases todo
      {
        var v :| v in todo;
        todo := todo - {v};
        AggregateAdd(done, v, variants[v], id);
        done := done[v := variants[v]];
        assert done == variants - todo;
        if variants[v].listingId == id {
          var l := variants[v].level;
          found := true;
          total := Level(total.quantity + l.quantity, total.reserved + l.reserved, total.available + l.available);
        }
      }
      assert done == variants;
    }

    method SyncListingAggregate(id: ListingId)
      requires id in listings
      modifies this`listings
      ensures State() == Synced(old(State()), id)
    {
      var l := listings[id];
      var found, total := SumVariants(id);
      if found {
        l := total;
      } else {
        l := l.(available := l.quantity - l.reserved);
      }
      listings := listings[id := l];
    }

    method AdjustVariantInventory(id: VariantId, change: int, kind: ChangeType) returns (error: Option<Error>)
      modifies this`variants, this`listings, this`history
      ensures error == None ==> AdjustVariant(old(State()), id, change, kind) == Ok(State())
      ensures error.Some? ==> AdjustVariant(old(State()), id, change, kind) == Err(error.value) && State() == old(State())
    {
      if id !in variants { return Some(NotFound); }
      var v := variants[id];
      var level := v.level.(quantity := v.level.quantity + change);
      level := level.(available := level.quantity - level.reserved);
      if level.available < 0 { return Some(Insufficient); }
      variants := variants[id := v.(level := level)];
      if v.listingId in listings {
        SyncListingAggregate(v.listingId);
      }
      history := history + [Row(v.listingId, change, kind)];
      return None;
    }

    // ---------------------------------------------------------------- products

    method ReserveInventory(id: ListingId, amount: int) returns (error: Option<Error>)
      modifies this`products, this`history
      ensures error == None ==> ReserveProduct(old(State()), id, amount) == Ok(State())
      ensures error.Some? ==> ReserveProduct(old(State()), id, amount) == Err(error.value) && State() == old(State())
    {
      if id !in products { return Some(NotFound); }
      var p := products[id];
      if p.available < amount { return Some(Insufficient); }
      p := p.(reserved := p.reserved + amount);
      p := p.(available := p.quantity - p.reserved);
      products := products[id := p];
      history := history + [Row(id, amount, RESERVATION)];
      return None;
    }

    method ReleaseInventory(id: ListingId, amount: int) returns (error: Option<Error>)
      modifies this`products, this`history
      ensures error == None ==> ReleaseProduct(old(State()), id, amount) == Ok(State())
      ensures error.Some? ==> ReleaseProduct(old(State()), id, amount) == Err(error.value) && State() == old(State())
    {
      if id !in products { return Some(NotFound); }
      var p := products[id];
      p := p.(reserved := p.reserved - amount);
      if p.reserved < 0 { p := p.(reserved := 0); }
      p := p.(available := p.quantity - p.reserved);
      products := products[id := p];
      history := history + [Row(id, -amount, RELEASE)];
      return None;
    }

    method CommitProductSale(id: ListingId, amount: int) returns (error: Option<Error>)
      modifies this`products, this`history
      ensures error == None ==> CommitSale(old(State()), id, amount) == Ok(State())
      ensures error.Some? ==> CommitSale(old(State()), id, amount) == Err(error.value) && State() == old(State())
    {
      if id !in products { return Some(NotFound); }
      var p := products[id];
      p := p.(quantity := p.quantity - amount, reserved := p.reserved - amount);
      if p.reserved < 0 { p := p.(reserved := 0); }
      p := p.(available := p.quantity - p.reserved);
      products := products[id := p];
      history := history + [Row(id, -amount, PURCHASE)];
      return None;
    }
  }

  // Once a line fails, the remaining lines do not change the answer.
  lemma {:induction false} LinesStop(s: Stock, op: LineOp, items: seq<Item>, k: nat)
    requires k <= |items| && Lines(s, op, items[..k]).Err?
    ensures Lines(s, op, items) == Lines(s, op, items[..k])
  {
    if k == |items| {
      assert items[..k] == items;
    } else {
      assert items[..|items| - 1][..k] == items[..k];
      LinesStop(s, op, items[..|items| - 1], k);
    }
  }

  lemma AggregateAdd(variants: map<VariantId, Variant>, v: VariantId, variant: Variant, id: ListingId)
    requires v !in variants
    ensures
      var a, b := Aggregate(variants, id), Aggregate(variants[v := variant], id);
      && HasVariants(variants[v := variant], id) == (HasVariants(variants, id) || variant.listingId == id)
      && b == if variant.listingId == id then Level(a.quantity + variant.level.quantity, a.reserved + variant.level.reserved,
                                                    a.available + variant.level.available)
              else a
  {
    VariantSumAdd(variants, v, variant, id, Quantity());
    VariantSumAdd(variants, v, variant, id, Reserved());
    VariantSumAdd(variants, v, variant, id, Available());
    var t := variants[v := variant];
    if w :| w in variants && variants[w].listingId == id {
      assert t[w].listingId == id;
    }
    assert t[v] == variant;
    forall w | w in t && w != v
      ensures w in variants && t[w] == variants[w]
    {}
  }

  lemma VariantSumAdd(variants: map<VariantId, Variant>, v: VariantId, variant: Variant, id: ListingId, f: Level -> int)
    requires v !in variants
    ensures VariantSum(variants[v := variant], id, f)
         == VariantSum(variants, id, f) + (if variant.listingId == id then f(variant.level) else 0)
  {
    var t := variants[v := variant];
    var m := map w | w in variants && variants[w].listingId == id :: f(variants[w].level);
    var n := map w | w in t && t[w].listingId == id :: f(t[w].level);
    if variant.listingId == id {
      SumUpdate(m, v, f(variant.level));
      assert n == m[v := f(variant.level)];
    } else {
      assert n == m;
    }
  }
}
