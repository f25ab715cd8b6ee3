/** A listing's totals over its variants, and what adjusting one variant does to its listing. */
module InventoryVariants {
  import opened Common
  import opened Sums
  import opened InventoryLedger

  // The listing shows the sums over its variants, when it has any.
  ghost predicate TotalsMatch(s: Stock, id: ListingId) {
    id in s.listings && HasVariants(s.variants, id) ==> s.listings[id] == Aggregate(s.variants, id)
  }

  ghost predicate VariantsConsistent(s: Stock) {
    forall v :: v in s.variants ==> s.variants[v].level.available == s.variants[v].level.quantity - s.variants[v].level.reserved
  }

  // Adjusting this variant by this change goes through and rewrites the listing from its variants.
  predicate Overwrites(s: Stock, v: VariantId, change: int, id: ListingId) {
    && v in s.variants && s.variants[v].listingId == id && id in s.listings
    && 0 <= s.variants[v].level.quantity + change - s.variants[v].level.reserved
  }

  lemma VariantSumUpdate(variants: map<VariantId, Variant>, v: VariantId, level: Level, id: ListingId, f: Level -> int)
    requires v in variants
    ensures
      var t := variants[v := variants[v].(level := level)];
      VariantSum(t, id, f) == VariantSum(variants, id, f)
        + (if variants[v].listingId == id then f(level) - f(variants[v].level) else 0)
  {
    var m := map w | w in variants && variants[w].listingId == id :: f(variants[w].level);
    var t := variants[v := variants[v].(level := level)];
    var n := map w | w in t && t[w].listingId == id :: f(t[w].level);
    if variants[v].listingId == id {
      SumUpdate(m, v, f(level));
      assert n == m[v := f(level)];
    } else {
      assert n == m;
    }
  }

  lemma {:induction false} SumOfDifferences<K>(a: map<K, int>, b: map<K, int>, c: map<K, int>)
    requires a.Keys == b.Keys == c.Keys && forall k :: k in a ==> a[k] == b[k] - c[k]
    ensures Sum(a) == Sum(b) - Sum(c)
    decreases |a|
  {
    if a == map[] {
      assert b == map[] && c == map[];
    } else {
      var k :| k in a;
      SumSplit(a, k);
      SumSplit(b, k);
      SumSplit(c, k);
      CardinalityDrop(a, k);
      SumOfDifferences(a - {k}, b - {k}, c - {k});
    }
  }

  // Totals of consistent variants are consistent.
  lemma AggregateConsistent(s: Stock, id: ListingId)
    requires VariantsConsistent(s)
    ensures VariantSum(s.variants, id, Available()) == VariantSum(s.variants, id, Quantity()) - VariantSum(s.variants, id, Reserved())
  {
    SumOfDifferences(map v | v in s.variants && s.variants[v].listingId == id :: Available()(s.variants[v].level),
                     map v | v in s.variants && s.variants[v].listingId == id :: Quantity()(s.variants[v].level),
                     map v | v in s.variants && s.variants[v].listingId == id :: Reserved()(s.variants[v].level));
  }

  lemma OneVariantSums(variants: map<VariantId, Variant>, v: VariantId, f: Level -> int)
    requires variants.Keys == {v}
    ensures VariantSum(variants, variants[v].listingId, f) == f(variants[v].level)
  {
    var m := map w | w in variants && variants[w].listingId == variants[v].listingId :: f(variants[w].level);
    SumSplit(m, v);
    assert m - {v} == map[];
  }

  lemma OneVariantTotals(variants: map<VariantId, Variant>, v: VariantId)
    requires variants.Keys == {v}
    ensures Aggregate(variants, variants[v].listingId) == variants[v].level
  {
    OneVariantSums(variants, v, Quantity());
    OneVariantSums(variants, v, Reserved());
    OneVariantSums(variants, v, Available());
  }

  // The tables after a variant adjustment that goes through.
  lemma AdjustVariantShape(s: Stock, v: VariantId, change: int, kind: ChangeType)
    requires AdjustVariant(s, v, change, kind).Ok?
    ensures
      var t, row := AdjustVariant(s, v, change, kind).value, s.variants[v];
      && t.variants == s.variants[v := row.(level := Relevel(row.level.quantity + change, row.level.reserved))]
      && HasVariants(t.variants, row.listingId)
      && t.listings == (if row.listingId in s.listings
                        then s.listings[row.listingId := Aggregate(t.variants, row.listingId)] else s.listings)
      && t.history == s.history + [Row(row.listingId, change, kind)] && t.products == s.products
  {
    var row := s.variants[v];
    var variants := s.variants[v := row.(level := Relevel(row.level.quantity + change, row.level.reserved))];
    assert v in variants && variants[v].listingId == row.listingId;
    assert HasVariants(variants, row.listingId);
  }

  lemma VariantSumsAfter(s: Stock, v: VariantId, change: int, kind: ChangeType, id: ListingId)
    requires AdjustVariant(s, v, change, kind).Ok?
    ensures
      var t, level, mine := AdjustVariant(s, v, change, kind).value, s.variants[v].level, s.variants[v].listingId == id;
      && VariantSum(t.variants, id, Quantity()) == VariantSum(s.variants, id, Quantity()) + (if mine then change else 0)
      && VariantSum(t.variants, id, Reserved()) == VariantSum(s.variants, id, Reserved())
      && VariantSum(t.variants, id, Available()) == VariantSum(s.variants, id, Available())
           + (if mine then level.quantity + change - level.reserved - level.available else 0)
  {
    var level := Relevel(s.variants[v].level.quantity + change, s.variants[v].level.reserved);
    AdjustVariantShape(s, v, change, kind);
    VariantSumUpdate(s.variants, v, level, id, Quantity());
    VariantSumUpdate(s.variants, v, level, id, Reserved());
    VariantSumUpdate(s.variants, v, level, id, Available());
  }

  /** Adjusting a variant sets its listing to the sums over its variants, whatever the listing showed: what orders had
      reserved on it is forgotten, and its quantity moves by just the change exactly when it was the variants' sum. */
  lemma VariantAdjustmentRewritesListing(s: Stock, v: VariantId, change: int, kind: ChangeType, id: ListingId)
    requires Overwrites(s, v, change, id)
    ensures AdjustVariant(s, v, change, kind).Ok?
    ensures
      var t := AdjustVariant(s, v, change, kind).value;
      && id in t.listings && t.listings[id] == Aggregate(t.variants, id) && TotalsMatch(t, id)
      && t.listings[id].quantity == VariantSum(s.variants, id, Quantity()) + change
      && t.listings[id].reserved == VariantSum(s.variants, id, Reserved())
      && (t.listings[id].reserved == s.listings[id].reserved <==> s.listings[id].reserved == VariantSum(s.variants, id, Reserved()))
      && (s.listings[id].quantity == VariantSum(s.variants, id, Quantity()) <==>
            t.listings[id].quantity == s.listings[id].quantity + change)
  {
    AdjustVariantShape(s, v, change, kind);
    VariantSumsAfter(s, v, change, kind, id);
  }

  /** It leaves every other listing alone, and the sums over that listing's variants. */
  lemma VariantAdjustmentElsewhere(s: Stock, v: VariantId, change: int, kind: ChangeType, id: ListingId)
    requires AdjustVariant(s, v, change, kind).Ok? && id in s.listings && s.variants[v].listingId != id
    ensures
      var t := AdjustVariant(s, v, change, kind).value;
      && id in t.listings && t.listings[id] == s.listings[id]
      && (HasVariants(t.variants, id) <==> HasVariants(s.variants, id))
      && Aggregate(t.variants, id) == Aggregate(s.variants, id)
  {
    var t := AdjustVariant(s, v, change, kind).value;
    AdjustVariantShape(s, v, change, kind);
    VariantSumsAfter(s, v, change, kind, id);
    if HasVariants(s.variants, id) {
      var w :| w in s.variants && s.variants[w].listingId == id;
      assert w in t.variants && t.variants[w].listingId == id;
    }
    if HasVariants(t.variants, id) {
      var w :| w in t.variants && t.variants[w].listingId == id;
      assert w in s.variants && s.variants[w].listingId == id;
    }
  }
}
