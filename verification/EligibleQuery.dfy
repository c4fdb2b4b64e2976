/** The eligible_products filter of the discovery feeds: a fixed text over nine consecutive
    placeholders, and its agreement with the catalogue query. */
module EligibleQuery {
  import opened Common
  import opened Sql
  import opened StorefrontTables
  import opened FeedRequests
  import CatalogQuery

  /** The conjuncts of eligible_products with their placeholders. */
  datatype Conjunct =
    | StatusActive
    | InStock(n: int)
    | BrandIn(n: int, m: int)
    | PriceFrom(n: int, m: int)
    | PriceTo(n: int, m: int)
    | TagIn(n: int, m: int)
    | RatingFrom(n: int, m: int)
    | Discounted(n: int)
    | AttributesOf(n: int, m: int, k: int)
    | CategoryIs(n: int, m: int)

  function BuildEligibleProducts(start: int): seq<Conjunct> {
    var brand, tag, priceMin, priceMax, minRating := start, start + 1, start + 2, start + 3, start + 4;
    var discountOnly, inStockOnly, attributes, category := start + 5, start + 6, start + 7, start + 8;
    [StatusActive, InStock(inStockOnly), BrandIn(brand, brand), PriceFrom(priceMin, priceMin),
     PriceTo(priceMax, priceMax),
     TagIn(tag, tag), RatingFrom(minRating, minRating), Discounted(discountOnly),
     AttributesOf(attributes, attributes, attributes), CategoryIs(category, category)]
  }

  function RealArg(x: Option<real>): Value {
    if x.None? then Null else Real(x.value)
  }

  function EligibleArgs(f: Filters, categoryId: Option<int>): seq<Value> {
    [Ints(f.brandIds), Ints(f.tagIds), RealArg(f.priceMin), RealArg(f.priceMax), RealArg(f.minRating),
     Bool(f.discountOnly), Bool(f.inStockOnly), Ints(f.attributeValueIds),
     if categoryId.None? then Null else Int(categoryId.value)]
  }

  /** Ranked feeds narrow to the request's category; the category feed selects its own. */
  function EligibleCategory(r: Request): Option<int> {
    if r.feedType == CategoryFeed then None else r.categoryId
  }

  /** COALESCE(cardinality(a), 0) = 0. */
  predicate EmptyList(v: Value) {
    v == Null || v == Ints([])
  }

  /** COUNT(DISTINCT value) over the variant's listed values. */
  function Listed(db: Db, variant: int, values: seq<int>): set<int> {
    set a | a in values && (variant, a) in db.attributeValues
  }

  ghost predicate Holds(db: Db, c: Conjunct, args: seq<Value>, p: int)
    requires p in db.products
  {
    match c
    case StatusActive => db.products[p].status == ActiveStatus
    case InStock(n) => Arg(args, n) == Bool(false) || (Arg(args, n).Bool? && Coalesce(Available(db, p), 0) > 0)
    case BrandIn(n, m) => EmptyList(Arg(args, n)) ||
      (Arg(args, m).Ints? && db.products[p].brandId.Some? && db.products[p].brandId.value in Arg(args, m).ints)
    case PriceFrom(n, m) => Arg(args, n).Null? ||
      (Arg(args, m).Real? && EffectivePrice(db, Some(ActiveStatus), p) >= Arg(args, m).x)
    case PriceTo(n, m) => Arg(args, n).Null? ||
      (Arg(args, m).Real? && EffectivePrice(db, Some(ActiveStatus), p) <= Arg(args, m).x)
    case TagIn(n, m) => EmptyList(Arg(args, n)) ||
      (Arg(args, m).Ints? && exists t :: t in Arg(args, m).ints && (p, t) in db.tags)
    case RatingFrom(n, m) => Arg(args, n).Null? ||
      (Arg(args, m).Real? && db.products[p].rating.Some? && db.products[p].rating.value >= Arg(args, m).x)
    case Discounted(n) => Arg(args, n) == Bool(false) ||
      (Arg(args, n).Bool? && Coalesce(BestDiscount(db, Some(ActiveStatus), p), 0.0) > 0.0)
    case AttributesOf(n, m, k) => EmptyList(Arg(args, n)) ||
      (Arg(args, m).Ints? && Arg(args, k).Ints? && exists v ::
        v in db.variants && db.variants[v] == Variant(p, true) &&
        Listed(db, v, Arg(args, m).ints) != {} && |Listed(db, v, Arg(args, m).ints)| == |Arg(args, k).ints|)
    case CategoryIs(n, m) => Arg(args, n).Null? || (Arg(args, m).Int? && (p, Arg(args, m).i) in db.categories)
  }

  /** The rows of eligible_products, given the text and the whole argument list. */
  ghost predicate Eligible(db: Db, sql: seq<Conjunct>, args: seq<Value>, p: int) {
    p in db.products && forall k :: 0 <= k < |sql| ==> Holds(db, sql[k], args, p)
  }

  function WantedOf(f: Filters, categoryId: Option<int>): Wanted {
    Wanted(f.brandIds, f.tagIds, categoryId, f.priceMin, f.priceMax, f.minRating, f.discountOnly, f.inStockOnly)
  }

  predicate Distinct(s: seq<int>) {
    forall i, j :: 0 <= i < j < |s| ==> s[i] != s[j]
  }

  /** One active variant carries every listed value; a list that repeats a value finds none. */
  ghost predicate HasAttributes(db: Db, values: seq<int>, p: int) {
    values != [] ==> Distinct(values) && exists v ::
      v in db.variants && db.variants[v] == Variant(p, true) && CarriesAll(db, v, values)
  }

  predicate CarriesAll(db: Db, v: int, values: seq<int>) {
    forall a :: a in values ==> (v, a) in db.attributeValues
  }

  lemma {:induction false} SetOfSeq(s: seq<int>)
    ensures |set a | a in s| <= |s|
    ensures |set a | a in s| == |s| <==> Distinct(s)
  {
    if s != [] {
      var n := |s| - 1;
      SetOfSeq(s[..n]);
      assert (set a | a in s) == (set a | a in s[..n]) + {s[n]} by {
        assert s == s[..n] + [s[n]];
      }
      if s[n] in s[..n] {
        var i :| 0 <= i < n && s[i] == s[n];
        assert (set a | a in s) == (set a | a in s[..n]);
      }
    }
  }

  /** Counting the distinct listed values of a variant finds out whether it carries them all. */
  lemma CountFindsAll(db: Db, v: int, values: seq<int>)
    requires values != []
    ensures Listed(db, v, values) != {} && |Listed(db, v, values)| == |values| <==>
            Distinct(values) && CarriesAll(db, v, values)
  {
    var all := set a | a in values;
    var listed := Listed(db, v, values);
    SetOfSeq(values);
    SubsetSize(listed, all);
    assert values[0] in all;
    if listed == all {
      forall a | a in values ensures (v, a) in db.attributeValues {
        assert a in all && a in listed;
      }
    }
    if CarriesAll(db, v, values) {
      forall a ensures a in listed <==> a in all { }
      assert listed == all;
    }
  }

  lemma SubsetSize(a: set<int>, b: set<int>)
    requires a <= b
    ensures |a| <= |b| && (|a| == |b| <==> a == b)
  {
    assert b == a + (b - a);
  }

  lemma CountsAgree(db: Db, values: seq<int>, p: int)
    ensures HasAttributes(db, values, p) <==>
      EmptyList(Ints(values)) || exists v ::
        v in db.variants && db.variants[v] == Variant(p, true) &&
        Listed(db, v, values) != {} && |Listed(db, v, values)| == |values|
  {
    if values != [] {
      forall v ensures Listed(db, v, values) != {} && |Listed(db, v, values)| == |values| <==>
                       Distinct(values) && CarriesAll(db, v, values)
      {
        CountFindsAll(db, v, values);
      }
    }
  }

  /** The arguments a conjunct's placeholders resolve to, for any arguments before and after. */
  lemma ArgsResolve(before: seq<Value>, f: Filters, categoryId: Option<int>, after: seq<Value>)
    ensures var args, s := before + EligibleArgs(f, categoryId) + after, |before| + 1;
            && Arg(args, s) == Ints(f.brandIds) && Arg(args, s + 1) == Ints(f.tagIds)
            && Arg(args, s + 2) == RealArg(f.priceMin) && Arg(args, s + 3) == RealArg(f.priceMax)
            && Arg(args, s + 4) == RealArg(f.minRating) && Arg(args, s + 5) == Bool(f.discountOnly)
            && Arg(args, s + 6) == Bool(f.inStockOnly) && Arg(args, s + 7) == Ints(f.attributeValueIds)
            && Arg(args, s + 8) == (if categoryId.None? then Null else Int(categoryId.value))
            && (after != [] ==> Arg(args, s + 9) == after[0])
  {
    var mine := EligibleArgs(f, categoryId);
    var args := before + mine + after;
    assert |mine| == 9;
    assert forall k :: 0 <= k < 9 ==> args[|before| + k] == mine[k];
    assert after != [] ==> args[|before| + 9] == after[0];
  }

  /** The conjuncts on the product row and its stock, and those on its links and discounts. */
  ghost predicate RowConjuncts(db: Db, args: seq<Value>, s: int, p: int)
    requires p in db.products
  {
    && Holds(db, StatusActive, args, p) && Holds(db, InStock(s + 6), args, p) && Holds(db, BrandIn(s, s), args, p)
    && Holds(db, PriceFrom(s + 2, s + 2), args, p) && Holds(db, PriceTo(s + 3, s + 3), args, p)
    && Holds(db, RatingFrom(s + 4, s + 4), args, p)
  }

  ghost predicate LinkConjuncts(db: Db, args: seq<Value>, s: int, p: int)
    requires p in db.products
  {
    && Holds(db, TagIn(s + 1, s + 1), args, p) && Holds(db, Discounted(s + 5), args, p)
    && Holds(db, AttributesOf(s + 7, s + 7, s + 7), args, p) && Holds(db, CategoryIs(s + 8, s + 8), args, p)
  }

  lemma EligibleConjuncts(db: Db, args: seq<Value>, s: int, p: int)
    requires p in db.products
    ensures Eligible(db, BuildEligibleProducts(s), args, p) <==>
      RowConjuncts(db, args, s, p) && LinkConjuncts(db, args, s, p)
  {
    var sql := BuildEligibleProducts(s);
    assert sql[0] == StatusActive && sql[1] == InStock(s + 6) && sql[2] == BrandIn(s, s);
    assert sql[3] == PriceFrom(s + 2, s + 2) && sql[4] == PriceTo(s + 3, s + 3) && sql[5] == TagIn(s + 1, s + 1);
    assert sql[6] == RatingFrom(s + 4, s + 4) && sql[7] == Discounted(s + 5);
    assert sql[8] == AttributesOf(s + 7, s + 7, s + 7) && sql[9] == CategoryIs(s + 8, s + 8);
  }

  ghost predicate RowWanted(db: Db, f: Filters, p: int)
    requires p in db.products
  {
    && db.products[p].status == ActiveStatus
    && (f.inStockOnly ==> Coalesce(Available(db, p), 0) > 0)
    && (f.brandIds != [] ==> db.products[p].brandId.Some? && db.products[p].brandId.value in f.brandIds)
    && (f.priceMin.Some? ==> EffectivePrice(db, Some(ActiveStatus), p) >= f.priceMin.value)
    && (f.priceMax.Some? ==> EffectivePrice(db, Some(ActiveStatus), p) <= f.priceMax.value)
    && (f.minRating.Some? ==> db.products[p].rating.Some? && db.products[p].rating.value >= f.minRating.value)
  }

  ghost predicate LinksWanted(db: Db, f: Filters, categoryId: Option<int>, p: int)
    requires p in db.products
  {
    && (f.tagIds != [] ==> exists t :: t in f.tagIds && (p, t) in db.tags)
    && (f.discountOnly ==> Coalesce(BestDiscount(db, Some(ActiveStatus), p), 0.0) > 0.0)
    && HasAttributes(db, f.attributeValueIds, p)
    && (categoryId.Some? ==> (p, categoryId.value) in db.categories)
  }

  lemma RowConjunctsMean(db: Db, before: seq<Value>, f: Filters, categoryId: Option<int>, after: seq<Value>, p: int)
    requires p in db.products
    ensures RowConjuncts(db, before + EligibleArgs(f, categoryId) + after, |before| + 1, p) <==> RowWanted(db, f, p)
  {
    ArgsResolve(before, f, categoryId, after);
  }

  lemma LinkConjunctsMean(db: Db, before: seq<Value>, f: Filters, categoryId: Option<int>, after: seq<Value>, p: int)
    requires p in db.products
    ensures LinkConjuncts(db, before + EligibleArgs(f, categoryId) + after, |before| + 1, p) <==>
      LinksWanted(db, f, categoryId, p)
  {
    ArgsResolve(before, f, categoryId, after);
    CountsAgree(db, f.attributeValueIds, p);
  }

  lemma OffersMeans(db: Db, f: Filters, categoryId: Option<int>, p: int)
    requires p in db.products
    ensures Offers(db, Some("active"), WantedOf(f, categoryId), p) <==>
      && (f.brandIds != [] ==> db.products[p].brandId.Some? && db.products[p].brandId.value in f.brandIds)
      && (f.tagIds != [] ==> exists t :: t in f.tagIds && (p, t) in db.tags)
      && (categoryId.Some? ==> (p, categoryId.value) in db.categories)
      && (f.priceMin.Some? ==> EffectivePrice(db, Some("active"), p) >= f.priceMin.value)
      && (f.priceMax.Some? ==> EffectivePrice(db, Some("active"), p) <= f.priceMax.value)
      && (f.minRating.Some? ==> db.products[p].rating.Some? && db.products[p].rating.value >= f.minRating.value)
      && (f.discountOnly ==>
            BestDiscount(db, Some("active"), p).Some? && BestDiscount(db, Some("active"), p).value > 0.0)
      && (f.inStockOnly ==>
            SumStock(db, db.stock, p) > 0 && exists v :: v in db.variants && db.variants[v] == Variant(p, true))
  {
  }

  /** For every start position and every filter, the text with its arguments means the filter. */
  lemma EligibleMeansFilter(db: Db, before: seq<Value>, f: Filters, categoryId: Option<int>, after: seq<Value>, p: int)
    ensures Eligible(db, BuildEligibleProducts(|before| + 1), before + EligibleArgs(f, categoryId) + after, p) <==>
      && p in db.products && db.products[p].status == ActiveStatus
      && Offers(db, Some(ActiveStatus), WantedOf(f, categoryId), p)
      && HasAttributes(db, f.attributeValueIds, p)
    ensures Eligible(db, BuildEligibleProducts(|before| + 1), before + EligibleArgs(f, categoryId) + after, p) <==>
      && p in db.products && db.products[p].status == "active"
      && (f.brandIds != [] ==> db.products[p].brandId.Some? && db.products[p].brandId.value in f.brandIds)
      && (f.tagIds != [] ==> exists t :: t in f.tagIds && (p, t) in db.tags)
      && (categoryId.Some? ==> (p, categoryId.value) in db.categories)
      && (f.priceMin.Some? ==> EffectivePrice(db, Some("active"), p) >= f.priceMin.value)
      && (f.priceMax.Some? ==> EffectivePrice(db, Some("active"), p) <= f.priceMax.value)
      && (f.minRating.Some? ==> db.products[p].rating.Some? && db.products[p].rating.value >= f.minRating.value)
      && (f.discountOnly ==>
            BestDiscount(db, Some("active"), p).Some? && BestDiscount(db, Some("active"), p).value > 0.0)
      && (f.inStockOnly ==>
            SumStock(db, db.stock, p) > 0 && exists v :: v in db.variants && db.variants[v] == Variant(p, true))
      && (f.attributeValueIds != [] ==>
            && (forall i, j :: 0 <= i < j < |f.attributeValueIds| ==> f.attributeValueIds[i] != f.attributeValueIds[j])
            && exists v :: v in db.variants && db.variants[v] == Variant(p, true)
                 && forall a :: a in f.attributeValueIds ==> (v, a) in db.attributeValues)
  {
    if p in db.products {
      OffersMeans(db, f, categoryId, p);
      EligibleConjuncts(db, before + EligibleArgs(f, categoryId) + after, |before| + 1, p);
      RowConjunctsMean(db, before, f, categoryId, after, p);
      LinkConjunctsMean(db, before, f, categoryId, after, p);
      var w := WantedOf(f, categoryId);
      var wanted := Offers(db, Some(ActiveStatus), w, p) && db.products[p].status == ActiveStatus;
      assert wanted && HasAttributes(db, f.attributeValueIds, p) <==>
        RowWanted(db, f, p) && LinksWanted(db, f, categoryId, p);
    }
  }

  /** The catalogue filter that asks for the same active products as a feed filter. */
  function CatalogFilter(f: Filters, categoryId: Option<int>): CatalogQuery.ListFilter {
    CatalogQuery.ListFilter(Some(ActiveStatus), None, f.brandIds, categoryId, None, None, f.priceMin, f.priceMax,
                            f.minRating, f.discountOnly, f.inStockOnly, f.tagIds)
  }

  /** The rows of eligible_products for a filter, between any other arguments. */
  ghost predicate EligibleFor(db: Db, before: seq<Value>, f: Filters, categoryId: Option<int>, after: seq<Value>,
                              p: int) {
    Eligible(db, BuildEligibleProducts(|before| + 1), before + EligibleArgs(f, categoryId) + after, p)
  }

  /** The feeds' filter asks what the catalogue's asks, and for the listed attributes besides. */
  lemma FiltersAgree(db: Db, before: seq<Value>, f: Filters, categoryId: Option<int>, after: seq<Value>, p: int)
    ensures EligibleFor(db, before, f, categoryId, after, p) <==>
            CatalogQuery.Matches(db, CatalogFilter(f, categoryId), p) && HasAttributes(db, f.attributeValueIds, p)
  {
    EligibleMeansFilter(db, before, f, categoryId, after, p);
    var w := WantedOf(f, categoryId);
    assert CatalogQuery.WantedOf(CatalogFilter(f, categoryId)) == w;
    if p in db.products && db.products[p].status == ActiveStatus { SameOffers(db, ActiveStatus, w, p); }
  }

  /** The two independently written filters select the same products: the catalogue query built
      for a feed filter selects exactly what the eligible-products query does, at any position
      of its arguments, but for the attributes only feeds can ask for. */
  method BuildAgreeingQuery(f: Filters, categoryId: Option<int>)
    returns (clauses: seq<CatalogQuery.Clause>, args: seq<Value>, joins: seq<CatalogQuery.Join>)
    ensures forall db, before, after, p ::
              EligibleFor(db, before, f, categoryId, after, p) <==>
              CatalogQuery.Selected(db, clauses, args, joins, p) && HasAttributes(db, f.attributeValueIds, p)
    ensures f.attributeValueIds == [] ==> forall db, before, after, p ::
              EligibleFor(db, before, f, categoryId, after, p) <==> CatalogQuery.Selected(db, clauses, args, joins, p)
  {
    clauses, args, joins := CatalogQuery.BuildCatalogQueryParts(CatalogFilter(f, categoryId));
    forall db, before, after, p
      ensures EligibleFor(db, before, f, categoryId, after, p) <==>
              CatalogQuery.Selected(db, clauses, args, joins, p) && HasAttributes(db, f.attributeValueIds, p)
    {
      FiltersAgree(db, before, f, categoryId, after, p);
    }
  }

  /** A ranked feed: the ranking's own arguments first, then the filter's, then the limit. */
  ghost function FilteredCandidates(db: Db, r: Request, candidateArgs: seq<Value>, ranked: seq<int>): seq<int> {
    var sql := BuildEligibleProducts(|candidateArgs| + 1);
    var filterArgs := EligibleArgs(r.filters, EligibleCategory(r));
    var limitPosition := |candidateArgs| + |filterArgs| + 1;
    var args := candidateArgs + filterArgs + [Int(r.limit)];
    var rows := Select(ranked, p => Eligible(db, sql, args, p));
    var limit := Arg(args, limitPosition);
    if limit.Int? && limit.i >= 0 then Page(rows, limit.i, 0) else []
  }

  /** The limit placeholder is the request's limit: at most that many candidates, every one of
      them ranked and wanted, and a shorter list has them all. */
  lemma CandidatesAreFiltered(db: Db, r: Request, candidateArgs: seq<Value>, ranked: seq<int>)
    requires r.limit >= 0
    ensures var category := if r.feedType == "category" then None else r.categoryId;
            var rows := Select(ranked, p =>
              p in db.products && db.products[p].status == ActiveStatus
              && Offers(db, Some(ActiveStatus), WantedOf(r.filters, category), p)
              && HasAttributes(db, r.filters.attributeValueIds, p));
            FilteredCandidates(db, r, candidateArgs, ranked) == if |rows| <= r.limit then rows else rows[..r.limit]
  {
    var c := EligibleCategory(r);
    var sql := BuildEligibleProducts(|candidateArgs| + 1);
    var args := candidateArgs + EligibleArgs(r.filters, c) + [Int(r.limit)];
    ArgsResolve(candidateArgs, r.filters, c, [Int(r.limit)]);
    forall p ensures Eligible(db, sql, args, p) <==>
      && p in db.products && db.products[p].status == ActiveStatus
      && Offers(db, Some(ActiveStatus), WantedOf(r.filters, c), p)
      && HasAttributes(db, r.filters.attributeValueIds, p)
    {
      EligibleMeansFilter(db, candidateArgs, r.filters, c, [Int(r.limit)], p);
    }
    SelectSame(ranked, p => Eligible(db, sql, args, p), p =>
      p in db.products && db.products[p].status == ActiveStatus
      && Offers(db, Some(ActiveStatus), WantedOf(r.filters, c), p)
      && HasAttributes(db, r.filters.attributeValueIds, p));
  }
}
