/** The tables both product filters read, and the sub-queries they share. */
module StorefrontTables {
  import opened Common

  const ActiveStatus := "active"

  datatype Product = Product(
    status: string, brandId: Option<int>, isFeatured: bool, name: string, shortDescription: string,
    basePrice: real, rating: Option<real>)

  datatype TargetKind = ProductTarget | BrandTarget | CategoryTarget

  datatype DiscountTarget = DiscountTarget(kind: TargetKind, targetId: int, discountId: int)

  datatype Discount = Discount(isActive: bool, startsAt: Option<int>, endsAt: Option<int>, isPercentage: bool,
                               value: real)

  datatype Variant = Variant(productId: int, isActive: bool)

  datatype StockRow = StockRow(variantId: int, available: int, reserved: int)

  /** Pairs are (product, category), (product, tag) and (variant, attribute value). `like` is
      ILIKE of a pattern and a text. */
  datatype Db = Db(
    now: int,
    products: map<int, Product>,
    categories: set<(int, int)>,
    tags: set<(int, int)>,
    discounts: map<int, Discount>,
    targets: seq<DiscountTarget>,
    variants: map<int, Variant>,
    stock: seq<StockRow>,
    attributeValues: set<(int, int)>,
    like: (string, string) -> bool)

  predicate Running(d: Discount, now: int) {
    d.isActive && (d.startsAt.None? || d.startsAt.value <= now) && (d.endsAt.None? || d.endsAt.value >= now)
  }

  /** The discount as a percentage of the price; a fixed discount on a free product is 0. */
  function Percent(d: Discount, basePrice: real): real {
    if d.isPercentage then d.value
    else if basePrice == 0.0 then 0.0
    else d.value / basePrice * 100.0
  }

  predicate Targets(db: Db, t: DiscountTarget, p: int)
    requires p in db.products
  {
    match t.kind
    case ProductTarget => t.targetId == p
    case BrandTarget => db.products[p].brandId == Some(t.targetId)
    case CategoryTarget => (p, t.targetId) in db.categories
  }

  predicate Applies(db: Db, t: DiscountTarget, p: int)
    requires p in db.products
  {
    Targets(db, t, p) && t.discountId in db.discounts && Running(db.discounts[t.discountId], db.now)
  }

  function Percents(db: Db, targets: seq<DiscountTarget>, p: int): seq<real>
    requires p in db.products
  {
    if targets == [] then []
    else
      var t, rest := targets[0], Percents(db, targets[1..], p);
      if Applies(db, t, p) then [Percent(db.discounts[t.discountId], db.products[p].basePrice)] + rest else rest
  }

  /** discount_candidates of one product, over all products or only those of one status. */
  function DiscountCandidates(db: Db, only: Option<string>, p: int): seq<real> {
    if p in db.products && (only.None? || db.products[p].status == only.value)
    then Percents(db, db.targets, p) else []
  }

  function Max(s: seq<real>): (m: real)
    requires s != []
    ensures m in s && forall x :: x in s ==> x <= m
  {
    if |s| == 1 then s[0] else
      var m := Max(s[1..]);
      assert s == [s[0]] + s[1..];
      if s[0] > m then s[0] else m
  }

  /** best_discounts LEFT JOINed on the product: None when it has no row. */
  function BestDiscount(db: Db, only: Option<string>, p: int): Option<real> {
    var s := DiscountCandidates(db, only, p);
    if s == [] then None else Some(Max(s))
  }

  function Coalesce<T>(x: Option<T>, d: T): T {
    match x
    case None => d
    case Some(v) => v
  }

  /** ROUND(x, 2): half away from zero. */
  function Round2(x: real): real {
    var cents := x * 100.0;
    if cents >= 0.0 then (cents + 0.5).Floor as real / 100.0 else -((-cents + 0.5).Floor as real / 100.0)
  }

  /** A whole number of cents, the nearest to x; of two that are as near, the one farther from zero. */
  predicate NearestCents(x: real, price: real) {
    && (price * 100.0).Floor as real == price * 100.0
    && -0.005 <= price - x <= 0.005
    && (price - x == 0.005 ==> x >= 0.0) && (price - x == -0.005 ==> x <= 0.0)
  }

  lemma RoundIsNearest(x: real)
    ensures NearestCents(x, Round2(x))
  {
    var cents := x * 100.0;
    var n := if cents >= 0.0 then (cents + 0.5).Floor else -((-cents + 0.5).Floor);
    assert Round2(x) * 100.0 == n as real;
    assert (n as real).Floor == n;
  }

  function Exact(price: real, percent: real): real {
    price * (1.0 - percent / 100.0)
  }

  /** The price less its best discount, to the cent. */
  function EffectivePrice(db: Db, only: Option<string>, p: int): (r: real)
    requires p in db.products
    ensures NearestCents(Exact(db.products[p].basePrice, Coalesce(BestDiscount(db, only, p), 0.0)), r)
  {
    Reduced(db.products[p].basePrice, Coalesce(BestDiscount(db, only, p), 0.0))
  }

  function Reduced(price: real, percent: real): (r: real)
    ensures NearestCents(Exact(price, percent), r)
  {
    RoundIsNearest(Exact(price, percent));
    Round2(Exact(price, percent))
  }

  /** One per cent of the price for each per cent. */
  lemma ExactIs(price: real, percent: real)
    ensures Exact(price, percent) * 100.0 == price * (100.0 - percent)
  {
    assert price * (1.0 - percent / 100.0) * 100.0 == price * ((1.0 - percent / 100.0) * 100.0);
  }

  function SumStock(db: Db, stock: seq<StockRow>, p: int): int {
    if stock == [] then 0
    else
      var r := stock[|stock| - 1];
      SumStock(db, stock[..|stock| - 1], p)
      + (if r.variantId in db.variants && db.variants[r.variantId] == Variant(p, true)
         then r.available - r.reserved else 0)
  }

  /** inventory_summary LEFT JOINed on the product: None when it has no active variant. */
  function Available(db: Db, p: int): Option<int> {
    if exists v :: v in db.variants && db.variants[v] == Variant(p, true) then Some(SumStock(db, db.stock, p)) else None
  }

  // ----- What the sub-queries mean -----

  predicate OfActiveVariant(db: Db, row: StockRow, p: int) {
    && row.variantId in db.variants
    && db.variants[row.variantId].productId == p && db.variants[row.variantId].isActive
  }

  /** The stock of a product adds up available less reserved over the rows of its active variants. */
  lemma {:induction false} StockAddsUp(db: Db, stock: seq<StockRow>, row: StockRow, p: int)
    ensures SumStock(db, [], p) == 0
    ensures SumStock(db, stock + [row], p) ==
            SumStock(db, stock, p) + (if OfActiveVariant(db, row, p) then row.available - row.reserved else 0)
  {
    assert (stock + [row])[..|stock|] == stock;
  }

  /** A target of an active discount that has begun and not ended, on the product, its brand or one of its
      categories, and what it takes off in percent of the price; a fixed amount off a free product is
      nothing. */
  ghost predicate Gives(db: Db, t: DiscountTarget, p: int, percent: real)
    requires p in db.products
  {
    t.discountId in db.discounts &&
    var d, price := db.discounts[t.discountId], db.products[p].basePrice;
    && d.isActive && (d.startsAt.Some? ==> d.startsAt.value <= db.now) && (d.endsAt.Some? ==> db.now <= d.endsAt.value)
    && (|| (t.kind.ProductTarget? && t.targetId == p)
        || (t.kind.BrandTarget? && db.products[p].brandId == Some(t.targetId))
        || (t.kind.CategoryTarget? && (p, t.targetId) in db.categories))
    && (if d.isPercentage then percent == d.value
        else if price == 0.0 then percent == 0.0
        else percent * price == d.value * 100.0)
  }

  lemma GivesPercent(db: Db, t: DiscountTarget, p: int, x: real)
    requires p in db.products
    ensures Gives(db, t, p, x) <==>
            Applies(db, t, p) && x == Percent(db.discounts[t.discountId], db.products[p].basePrice)
  {
    if t.discountId in db.discounts {
      var d, price := db.discounts[t.discountId], db.products[p].basePrice;
      if !d.isPercentage && price != 0.0 {
        assert d.value / price * 100.0 * price == d.value * 100.0;
        assert x * price == d.value * 100.0 <==> x == d.value / price * 100.0;
      }
    }
  }

  ghost predicate SomeGives(db: Db, targets: seq<DiscountTarget>, p: int, percent: real)
    requires p in db.products
  {
    exists t :: t in targets && Gives(db, t, p, percent)
  }

  lemma {:induction false} PercentsAre(db: Db, targets: seq<DiscountTarget>, p: int, x: real)
    requires p in db.products
    ensures x in Percents(db, targets, p) <==> SomeGives(db, targets, p, x)
  {
    if targets != [] {
      PercentsAre(db, targets[1..], p, x);
      GivesPercent(db, targets[0], p, x);
      assert targets == [targets[0]] + targets[1..];
      assert SomeGives(db, targets, p, x) <==> Gives(db, targets[0], p, x) || SomeGives(db, targets[1..], p, x);
    }
  }

  /** The best discount is the largest percentage that some target gives, if any does. */
  lemma BestIsLargest(db: Db, p: int)
    requires p in db.products
    ensures var best := BestDiscount(db, None, p);
            && (best.None? <==> forall x :: !SomeGives(db, db.targets, p, x))
            && (best.Some? ==> SomeGives(db, db.targets, p, best.value))
            && (best.Some? ==> forall x :: SomeGives(db, db.targets, p, x) ==> x <= best.value)
  {
    var s := Percents(db, db.targets, p);
    forall x ensures x in s <==> SomeGives(db, db.targets, p, x) { PercentsAre(db, db.targets, p, x); }
    assert s != [] ==> s[0] in s;
  }

  /** What the two filters can both ask of a product. */
  datatype Wanted = Wanted(
    brandIds: seq<int>, tagIds: seq<int>, categoryId: Option<int>, priceMin: Option<real>, priceMax: Option<real>,
    minRating: Option<real>, discountOnly: bool, inStockOnly: bool)

  /** Discounts are taken from the candidates of all products, or of one status only. */
  predicate Offers(db: Db, only: Option<string>, w: Wanted, p: int) {
    && p in db.products
    && (w.brandIds != [] ==> db.products[p].brandId.Some? && db.products[p].brandId.value in w.brandIds)
    && (w.tagIds != [] ==> exists t :: t in w.tagIds && (p, t) in db.tags)
    && (w.categoryId.Some? ==> (p, w.categoryId.value) in db.categories)
    && (w.priceMin.Some? ==> EffectivePrice(db, only, p) >= w.priceMin.value)
    && (w.priceMax.Some? ==> EffectivePrice(db, only, p) <= w.priceMax.value)
    && (w.minRating.Some? ==> db.products[p].rating.Some? && db.products[p].rating.value >= w.minRating.value)
    && (w.discountOnly ==> Coalesce(BestDiscount(db, only, p), 0.0) > 0.0)
    && (w.inStockOnly ==> Coalesce(Available(db, p), 0) > 0)
  }

  /** For a product of the status, restricting the candidates to that status changes nothing. */
  lemma SameDiscounts(db: Db, status: string, p: int)
    requires p in db.products && db.products[p].status == status
    ensures BestDiscount(db, None, p) == BestDiscount(db, Some(status), p)
  {
    assert DiscountCandidates(db, None, p) == DiscountCandidates(db, Some(status), p);
  }

  lemma SameOffers(db: Db, status: string, w: Wanted, p: int)
    requires p in db.products && db.products[p].status == status
    ensures Offers(db, None, w, p) <==> Offers(db, Some(status), w, p)
  {
    SameDiscounts(db, status, p);
  }
}
