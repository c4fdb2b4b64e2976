/** The catalogue listing: joins and clauses chosen filter by filter, GROUP BY product, a
    DISTINCT count and pages. */
module CatalogQuery {
  import opened Common
  import opened Sql
  import opened Text
  import opened StorefrontTables

  datatype ListFilter = ListFilter(
    status: Option<string>,
    brandId: Option<int>,
    brandIds: seq<int>,
    categoryId: Option<int>,
    isFeatured: Option<bool>,
    search: Option<string>,
    priceMin: Option<real>,
    priceMax: Option<real>,
    minRating: Option<real>,
    discountOnly: bool,
    inStockOnly: bool,
    tagIds: seq<int>)

  /** Joins beside the discount sub-query, which is always there. */
  datatype Join = Inventory | Categories | Tags

  /** One combination of a product and the rows joined to it; None for a join that is absent. */
  datatype Row = Row(product: int, category: Option<int>, tag: Option<int>)

  /** The categories a product's rows carry. */
  function CategoryChoices(db: Db, joins: seq<Join>, p: int): set<Option<int>> {
    if Categories in joins then set x | x in db.categories && x.0 == p :: Some(x.1) else {None}
  }

  function TagChoices(db: Db, joins: seq<Join>, p: int): set<Option<int>> {
    if Tags in joins then set x | x in db.tags && x.0 == p :: Some(x.1) else {None}
  }

  lemma ChoicesAreLinks(db: Db, joins: seq<Join>, p: int, c: Option<int>, t: Option<int>)
    requires c in CategoryChoices(db, joins, p) && t in TagChoices(db, joins, p)
    ensures if Categories in joins then c.Some? && (p, c.value) in db.categories else c.None?
    ensures if Tags in joins then t.Some? && (p, t.value) in db.tags else t.None?
  {
    if Categories in joins {
      var x :| x in db.categories && x.0 == p && Some(x.1) == c;
      assert x == (p, c.value);
    }
    if Tags in joins {
      var x :| x in db.tags && x.0 == p && Some(x.1) == t;
      assert x == (p, t.value);
    }
  }

  /** The clause texts; all but the stock and discount clauses hold a placeholder. */
  datatype Test =
    | StockLeft | StatusIs | BrandIs | BrandAny | FeaturedIs | SearchLike | CategoryIs | TagAny
    | PriceAtLeast | PriceAtMost | RatingAtLeast | Discounted

  datatype Clause = Clause(test: Test, placeholder: int)

  predicate Passes(db: Db, test: Test, v: Value, r: Row) {
    r.product in db.products && PassesFor(db, test, v, r, db.products[r.product])
  }

  predicate PassesFor(db: Db, test: Test, v: Value, r: Row, p: Product)
    requires r.product in db.products
  {
    match test
    case StockLeft => Coalesce(Available(db, r.product), 0) > 0
    case StatusIs => v == Value.Text(p.status)
    case BrandIs => p.brandId.Some? && v == Int(p.brandId.value)
    case BrandAny => p.brandId.Some? && v.Ints? && p.brandId.value in v.ints
    case FeaturedIs => v == Bool(p.isFeatured)
    case SearchLike => v.Text? && (db.like(v.s, p.name) || db.like(v.s, p.shortDescription))
    case CategoryIs => r.category.Some? && v == Int(r.category.value)
    case TagAny => r.tag.Some? && v.Ints? && r.tag.value in v.ints
    case PriceAtLeast => v.Real? && EffectivePrice(db, None, r.product) >= v.x
    case PriceAtMost => v.Real? && EffectivePrice(db, None, r.product) <= v.x
    case RatingAtLeast => v.Real? && p.rating.Some? && p.rating.value >= v.x
    case Discounted => Coalesce(BestDiscount(db, None, r.product), 0.0) > 0.0
  }

  /** A clause may only mention a joined table that is there, and a bound argument. */
  predicate WellFormed(c: Clause, joins: seq<Join>, n: nat) {
    match c.test
    case StockLeft => Inventory in joins
    case Discounted => true
    case CategoryIs => Categories in joins && 1 <= c.placeholder <= n
    case TagAny => Tags in joins && 1 <= c.placeholder <= n
    case _ => 1 <= c.placeholder <= n
  }

  predicate Holds(db: Db, clauses: seq<Clause>, args: seq<Value>, r: Row) {
    forall k :: 0 <= k < |clauses| ==> Passes(db, clauses[k].test, Arg(args, clauses[k].placeholder), r)
  }

  lemma HoldsExtends(db: Db, clauses: seq<Clause>, args: seq<Value>, more: seq<Value>, joins: seq<Join>, r: Row)
    requires forall k :: 0 <= k < |clauses| ==> WellFormed(clauses[k], joins, |args|)
    ensures Holds(db, clauses, args + more, r) <==> Holds(db, clauses, args, r)
  {
    forall k | 0 <= k < |clauses|
      ensures Passes(db, clauses[k].test, Arg(args + more, clauses[k].placeholder), r) ==
              Passes(db, clauses[k].test, Arg(args, clauses[k].placeholder), r)
    {
      assert WellFormed(clauses[k], joins, |args|);
    }
  }

  lemma HoldsSnoc(db: Db, clauses: seq<Clause>, c: Clause, args: seq<Value>, r: Row)
    ensures Holds(db, clauses + [c], args, r) <==>
            Holds(db, clauses, args, r) && Passes(db, c.test, Arg(args, c.placeholder), r)
  {
    var all := clauses + [c];
    if Holds(db, all, args, r) {
      forall k | 0 <= k < |clauses| ensures Passes(db, clauses[k].test, Arg(args, clauses[k].placeholder), r) {
        assert all[k] == clauses[k];
      }
      assert all[|clauses|] == c;
    }
  }

  class QueryBuilder {
    var clauses: seq<Clause>
    var args: seq<Value>
    var joins: seq<Join>
    var idx: int

    ghost predicate Valid()
      reads this
    {
      idx == |args| + 1 && forall k :: 0 <= k < |clauses| ==> WellFormed(clauses[k], joins, |args|)
    }

    constructor ()
      ensures Valid() && clauses == [] && args == [] && joins == []
    {
      clauses, args, joins, idx := [], [], [], 1;
    }

    method AddJoin(j: Join)
      requires Valid()
      modifies this`joins
      ensures Valid() && joins == old(joins) + [j]
    {
      joins := joins + [j];
    }

    /** A clause without an argument. */
    method AddPlain(test: Test)
      requires Valid() && WellFormed(Clause(test, 0), joins, |args|)
      modifies this`clauses
      ensures Valid()
      ensures forall db, r :: Holds(db, clauses, args, r) <==>
        old(Holds(db, clauses, args, r)) && Passes(db, test, Null, r)
    {
      ghost var c := clauses;
      clauses := clauses + [Clause(test, 0)];
      forall db, r ensures Holds(db, clauses, args, r) <==> Holds(db, c, args, r) && Passes(db, test, Null, r) {
        HoldsSnoc(db, c, Clause(test, 0), args, r);
      }
    }

    method Add(test: Test, v: Value)
      requires Valid() && WellFormed(Clause(test, idx), joins, |args| + 1)
      modifies this`clauses, this`args, this`idx
      ensures Valid()
      ensures forall db, r :: Holds(db, clauses, args, r) <==>
        old(Holds(db, clauses, args, r)) && Passes(db, test, v, r)
    {
      ghost var c, a := clauses, args;
      clauses := clauses + [Clause(test, idx)];
      args := args + [v];
      idx := idx + 1;
      forall db, r ensures Holds(db, clauses, args, r) <==> Holds(db, c, a, r) && Passes(db, test, v, r) {
        HoldsExtends(db, c, a, [v], joins, r);
        HoldsSnoc(db, c, clauses[|c|], args, r);
      }
    }
  }

  predicate Searching(f: ListFilter) {
    f.search.Some? && TrimSpace(f.search.value) != ""
  }

  /** The filters on the product row and its stock, up to the search text. */
  ghost predicate WantsProduct(db: Db, f: ListFilter, r: Row) {
    && (f.inStockOnly ==> Passes(db, StockLeft, Null, r))
    && (f.status.Some? ==> Passes(db, StatusIs, Value.Text(f.status.value), r))
    && (f.brandId.Some? ==> Passes(db, BrandIs, Int(f.brandId.value), r))
    && (f.brandIds != [] ==> Passes(db, BrandAny, Ints(f.brandIds), r))
    && (f.isFeatured.Some? ==> Passes(db, FeaturedIs, Bool(f.isFeatured.value), r))
    && (Searching(f) ==> Passes(db, SearchLike, Value.Text("%" + f.search.value + "%"), r))
  }

  ghost predicate WantsLinks(db: Db, f: ListFilter, r: Row) {
    && (f.categoryId.Some? ==> Passes(db, CategoryIs, Int(f.categoryId.value), r))
    && (f.tagIds != [] ==> Passes(db, TagAny, Ints(f.tagIds), r))
  }

  ghost predicate WantsPrice(db: Db, f: ListFilter, r: Row) {
    && (f.priceMin.Some? ==> Passes(db, PriceAtLeast, Real(f.priceMin.value), r))
    && (f.priceMax.Some? ==> Passes(db, PriceAtMost, Real(f.priceMax.value), r))
    && (f.minRating.Some? ==> Passes(db, RatingAtLeast, Real(f.minRating.value), r))
    && (f.discountOnly ==> Passes(db, Discounted, Null, r))
  }

  method AddProductFilters(b: QueryBuilder, f: ListFilter)
    requires b.Valid() && b.clauses == [] && b.joins == []
    modifies b
    ensures b.Valid() && b.joins == if f.inStockOnly then [Inventory] else []
    ensures forall db, r :: Holds(db, b.clauses, b.args, r) <==> WantsProduct(db, f, r)
  {
    if f.inStockOnly {
      b.AddJoin(Inventory);
      b.AddPlain(StockLeft);
    }
    if f.status.Some? { b.Add(StatusIs, Value.Text(f.status.value)); }
    if f.brandId.Some? { b.Add(BrandIs, Int(f.brandId.value)); }
    if |f.brandIds| > 0 { b.Add(BrandAny, Ints(f.brandIds)); }
    if f.isFeatured.Some? { b.Add(FeaturedIs, Bool(f.isFeatured.value)); }
    if f.search.Some? && TrimSpace(f.search.value) != "" { b.Add(SearchLike, Value.Text("%" + f.search.value + "%")); }
  }

  method AddLinkFilters(b: QueryBuilder, f: ListFilter)
    requires b.Valid()
    modifies b
    ensures b.Valid()
    ensures b.joins == old(b.joins) + (if f.categoryId.Some? then [Categories] else [])
      + (if f.tagIds != [] then [Tags] else [])
    ensures forall db, r :: Holds(db, b.clauses, b.args, r) <==>
      old(Holds(db, b.clauses, b.args, r)) && WantsLinks(db, f, r)
  {
    if f.categoryId.Some? {
      b.AddJoin(Categories);
      b.Add(CategoryIs, Int(f.categoryId.value));
    }
    if |f.tagIds| > 0 {
      b.AddJoin(Tags);
      b.Add(TagAny, Ints(f.tagIds));
    }
  }

  method AddPriceFilters(b: QueryBuilder, f: ListFilter)
    requires b.Valid()
    modifies b`clauses, b`args, b`idx
    ensures b.Valid()
    ensures forall db, r :: Holds(db, b.clauses, b.args, r) <==>
      old(Holds(db, b.clauses, b.args, r)) && WantsPrice(db, f, r)
  {
    if f.priceMin.Some? { b.Add(PriceAtLeast, Real(f.priceMin.value)); }
    if f.priceMax.Some? { b.Add(PriceAtMost, Real(f.priceMax.value)); }
    if f.minRating.Some? { b.Add(RatingAtLeast, Real(f.minRating.value)); }
    if f.discountOnly { b.AddPlain(Discounted); }
  }

  method BuildCatalogQueryParts(f: ListFilter) returns (clauses: seq<Clause>, args: seq<Value>, joins: seq<Join>)
    ensures forall k :: 0 <= k < |clauses| ==> WellFormed(clauses[k], joins, |args|)
    ensures forall db, p :: Selected(db, clauses, args, joins, p) <==> Matches(db, f, p)
    ensures forall db, p :: Selected(db, clauses, args, joins, p) <==>
      && p in db.products
      && (f.status.Some? ==> db.products[p].status == f.status.value)
      && (f.brandId.Some? ==> db.products[p].brandId.Some? && db.products[p].brandId.value == f.brandId.value)
      && (f.isFeatured.Some? ==> db.products[p].isFeatured == f.isFeatured.value)
      && (f.search.Some? && TrimSpace(f.search.value) != "" ==>
            || db.like("%" + f.search.value + "%", db.products[p].name)
            || db.like("%" + f.search.value + "%", db.products[p].shortDescription))
      && (f.brandIds != [] ==> db.products[p].brandId.Some? && db.products[p].brandId.value in f.brandIds)
      && (f.tagIds != [] ==> exists t :: t in f.tagIds && (p, t) in db.tags)
      && (f.categoryId.Some? ==> (p, f.categoryId.value) in db.categories)
      && (f.priceMin.Some? ==> EffectivePrice(db, None, p) >= f.priceMin.value)
      && (f.priceMax.Some? ==> EffectivePrice(db, None, p) <= f.priceMax.value)
      && (f.minRating.Some? ==> db.products[p].rating.Some? && db.products[p].rating.value >= f.minRating.value)
      && (f.discountOnly ==> BestDiscount(db, None, p).Some? && BestDiscount(db, None, p).value > 0.0)
      && (f.inStockOnly ==>
            SumStock(db, db.stock, p) > 0 && exists v :: v in db.variants && db.variants[v] == Variant(p, true))
  {
    var b := new QueryBuilder();
    AddProductFilters(b, f);
    AddLinkFilters(b, f);
    AddPriceFilters(b, f);
    clauses, args, joins := b.clauses, b.args, b.joins;
    forall db, p { MatchesMeans(db, f, p); }
    forall db, p ensures Selected(db, clauses, args, joins, p) <==> Matches(db, f, p) {
      if Selected(db, clauses, args, joins, p) {
        var c, t :| Picks(db, clauses, args, joins, p, c, t);
        PickIsLinked(db, clauses, args, joins, p, c, t);
        RowMatches(db, f, Row(p, c, t));
      }
      if Matches(db, f, p) {
        var r := MatchingRow(db, f, p);
        assert Picks(db, clauses, args, joins, p, r.category, r.tag);
      }
    }
  }

  predicate Picks(db: Db, clauses: seq<Clause>, args: seq<Value>, joins: seq<Join>, p: int, c: Option<int>,
                  t: Option<int>) {
    c in CategoryChoices(db, joins, p) && t in TagChoices(db, joins, p) && Holds(db, clauses, args, Row(p, c, t))
  }

  lemma PickIsLinked(db: Db, clauses: seq<Clause>, args: seq<Value>, joins: seq<Join>, p: int, c: Option<int>,
                     t: Option<int>)
    requires Picks(db, clauses, args, joins, p, c, t)
    ensures if Categories in joins then c.Some? && (p, c.value) in db.categories else c.None?
    ensures if Tags in joins then t.Some? && (p, t.value) in db.tags else t.None?
    ensures Holds(db, clauses, args, Row(p, c, t))
  {
    ChoicesAreLinks(db, joins, p, c, t);
  }

  /** GROUP BY p.id: a product is listed once if any of its joined rows passes. */
  predicate Selected(db: Db, clauses: seq<Clause>, args: seq<Value>, joins: seq<Join>, p: int) {
    p in db.products &&
    exists c, t :: c in CategoryChoices(db, joins, p) && t in TagChoices(db, joins, p) &&
      Picks(db, clauses, args, joins, p, c, t)
  }

  function WantedOf(f: ListFilter): Wanted {
    Wanted(f.brandIds, f.tagIds, f.categoryId, f.priceMin, f.priceMax, f.minRating, f.discountOnly, f.inStockOnly)
  }

  /** What a catalogue filter asks of a product, without joins, rows or placeholders. */
  predicate Matches(db: Db, f: ListFilter, p: int) {
    && Offers(db, None, WantedOf(f), p)
    && (f.status.Some? ==> db.products[p].status == f.status.value)
    && (f.brandId.Some? ==> db.products[p].brandId == f.brandId)
    && (f.isFeatured.Some? ==> db.products[p].isFeatured == f.isFeatured.value)
    && (Searching(f) ==> var pattern := "%" + f.search.value + "%";
         db.like(pattern, db.products[p].name) || db.like(pattern, db.products[p].shortDescription))
  }

  /** The same, condition by condition. */
  lemma MatchesMeans(db: Db, f: ListFilter, p: int)
    ensures Matches(db, f, p) <==>
      && p in db.products
      && (f.status.Some? ==> db.products[p].status == f.status.value)
      && (f.brandId.Some? ==> db.products[p].brandId.Some? && db.products[p].brandId.value == f.brandId.value)
      && (f.isFeatured.Some? ==> db.products[p].isFeatured == f.isFeatured.value)
      && (f.search.Some? && TrimSpace(f.search.value) != "" ==>
            || db.like("%" + f.search.value + "%", db.products[p].name)
            || db.like("%" + f.search.value + "%", db.products[p].shortDescription))
      && (f.brandIds != [] ==> db.products[p].brandId.Some? && db.products[p].brandId.value in f.brandIds)
      && (f.tagIds != [] ==> exists t :: t in f.tagIds && (p, t) in db.tags)
      && (f.categoryId.Some? ==> (p, f.categoryId.value) in db.categories)
      && (f.priceMin.Some? ==> EffectivePrice(db, None, p) >= f.priceMin.value)
      && (f.priceMax.Some? ==> EffectivePrice(db, None, p) <= f.priceMax.value)
      && (f.minRating.Some? ==> db.products[p].rating.Some? && db.products[p].rating.value >= f.minRating.value)
      && (f.discountOnly ==> BestDiscount(db, None, p).Some? && BestDiscount(db, None, p).value > 0.0)
      && (f.inStockOnly ==>
            SumStock(db, db.stock, p) > 0 && exists v :: v in db.variants && db.variants[v] == Variant(p, true))
  {
  }

  ghost predicate LinksOf(db: Db, f: ListFilter, r: Row) {
    && (if f.categoryId.Some? then r.category.Some? && (r.product, r.category.value) in db.categories
        else r.category.None?)
    && (if f.tagIds != [] then r.tag.Some? && (r.product, r.tag.value) in db.tags else r.tag.None?)
  }

  lemma RowMatches(db: Db, f: ListFilter, r: Row)
    requires r.product in db.products && LinksOf(db, f, r)
    requires WantsProduct(db, f, r) && WantsLinks(db, f, r) && WantsPrice(db, f, r)
    ensures Matches(db, f, r.product)
  {
    var w := WantedOf(f);
    var p := db.products[r.product];
    if f.categoryId.Some? { assert r.category == f.categoryId; }
    if f.brandId.Some? { assert p.brandId == Some(f.brandId.value); }
    if f.status.Some? { assert p.status == f.status.value; }
    if f.isFeatured.Some? { assert p.isFeatured == f.isFeatured.value; }
    if f.tagIds != [] {
      var t: int := r.tag.value;
      assert t in w.tagIds && (r.product, t) in db.tags;
    }
    assert Offers(db, None, w, r.product);
  }

  lemma MatchingRow(db: Db, f: ListFilter, p: int) returns (r: Row)
    requires Matches(db, f, p)
    ensures r.product == p && LinksOf(db, f, r)
    ensures WantsProduct(db, f, r) && WantsLinks(db, f, r) && WantsPrice(db, f, r)
  {
    r := Row(p, f.categoryId, None);
    if f.tagIds != [] {
      var t :| t in f.tagIds && (p, t) in db.tags;
      r := Row(p, f.categoryId, Some(t));
    }
  }

  // ----- Counting and paging -----

  const DefaultPageSize := 20
  const MaxPageSize := 100

  function PageSizeOf(size: int): nat {
    if size <= 0 then DefaultPageSize else if size > MaxPageSize then MaxPageSize else size
  }

  predicate Unique(ids: seq<int>) {
    forall i, j :: 0 <= i < j < |ids| ==> ids[i] != ids[j]
  }

  /** The ORDER BY, which ends in the product id, puts the products in one order. */
  ghost predicate IsOrdering(db: Db, ordered: seq<int>) {
    && Unique(ordered)
    && (forall p :: p in ordered <==> p in db.products)
  }

  function Selects(db: Db, clauses: seq<Clause>, args: seq<Value>, joins: seq<Join>): int -> bool {
    (p: int) => Selected(db, clauses, args, joins, p)
  }

  function Wants(db: Db, f: ListFilter): int -> bool {
    (p: int) => Matches(db, f, p)
  }

  /** SELECT COUNT(DISTINCT p.id) over the joined rows. */
  function RunCount(db: Db, clauses: seq<Clause>, args: seq<Value>, joins: seq<Join>): nat {
    |set p | p in db.products && Selected(db, clauses, args, joins, p)|
  }

  /** The ids query: the selected products in order, limited through its placeholders. */
  function RunPage(db: Db, ordered: seq<int>, clauses: seq<Clause>, args: seq<Value>, joins: seq<Join>,
                   limitPos: int, offsetPos: int): seq<int> {
    var limit, offset := Arg(args, limitPos), Arg(args, offsetPos);
    if limit.Int? && limit.i >= 0 && offset.Int? && offset.i >= 0
    then Page(Select(ordered, Selects(db, clauses, args, joins)), limit.i, offset.i) else []
  }

  function WantedCount(db: Db, f: ListFilter): nat {
    |set p | p in db.products && Matches(db, f, p)|
  }

  /** The products the filter wants, in the requested order. */
  function Listing(db: Db, f: ListFilter, ordered: seq<int>): seq<int> {
    Select(ordered, Wants(db, f))
  }

  lemma {:induction false} DistinctIds(ids: seq<int>)
    requires Unique(ids)
    ensures |set p | p in ids| == |ids|
  {
    if ids != [] {
      var n := |ids| - 1;
      DistinctIds(ids[..n]);
      assert (set p | p in ids) == (set p | p in ids[..n]) + {ids[n]} by {
        assert ids == ids[..n] + [ids[n]];
      }
      assert ids[n] !in ids[..n];
    }
  }

  lemma {:induction false} SelectDistinct(ids: seq<int>, keep: int -> bool)
    requires Unique(ids)
    ensures Unique(Select(ids, keep))
  {
    if ids != [] {
      var n := |ids| - 1;
      SelectDistinct(ids[..n], keep);
      SelectMembers(ids[..n], keep);
      assert ids[n] !in ids[..n];
      assert forall x :: x in Select(ids[..n], keep) ==> x in ids[..n];
    }
  }

  /** The number of wanted products is the number of ids in the listing, each listed once. */
  lemma ListingCounts(db: Db, f: ListFilter, ordered: seq<int>)
    requires IsOrdering(db, ordered)
    ensures |Listing(db, f, ordered)| == WantedCount(db, f)
    ensures Unique(Listing(db, f, ordered))
    ensures forall p :: p in Listing(db, f, ordered) <==> Matches(db, f, p)
  {
    var ids := Listing(db, f, ordered);
    SelectDistinct(ordered, Wants(db, f));
    SelectMembers(ordered, Wants(db, f));
    DistinctIds(ids);
    assert (set p | p in ids) == set p | p in db.products && Matches(db, f, p);
  }

  /** The DISTINCT count is the number of ids over all pages, and the pages list every wanted
      product exactly once. */
  lemma CountIsPages(db: Db, f: ListFilter, ordered: seq<int>, size: int, n: nat)
    requires IsOrdering(db, ordered)
    requires n * PageSizeOf(size) >= WantedCount(db, f)
    ensures var all := Pages(Listing(db, f, ordered), PageSizeOf(size), n);
            && |all| == WantedCount(db, f)
            && Unique(all)
            && forall p :: p in all <==> Matches(db, f, p)
  {
    ListingCounts(db, f, ordered);
    PagesReadEverything(Listing(db, f, ordered), PageSizeOf(size), n);
  }

  function PageOf(db: Db, ordered: seq<int>, f: ListFilter, page: int, size: int): seq<int>
    requires page >= 1
  {
    Page(Listing(db, f, ordered), PageSizeOf(size), (page - 1) * PageSizeOf(size))
  }

  datatype ListError = InvalidPage

  datatype ProductPage = ProductPage(ids: seq<int>, total: nat)

  /** One page of the listing and the total; `ordered` is the products in the requested order. */
  method ListProductsForCatalog(db: Db, ordered: seq<int>, f: ListFilter, page: int, size: int)
    returns (r: Result<ProductPage, ListError>)
    ensures r.Err? <==> page < 1
    ensures r.Ok? ==> r.value.ids == PageOf(db, ordered, f, page, size) && r.value.total == WantedCount(db, f)
    ensures r.Ok? ==>
      var limit := if size <= 0 then 20 else if size > 100 then 100 else size;
      r.value.ids == Page(Listing(db, f, ordered), limit, (page - 1) * limit)
  {
    if page < 1 { return Err(InvalidPage); }
    var limit, offset := PageBounds(page, size);
    var clauses, args, joins := BuildCatalogQueryParts(f);
    var total := RunCount(db, clauses, args, joins);
    CountMeans(db, f, clauses, args, joins);
    var limitPos, offsetPos := |args| + 1, |args| + 2;
    var ids := RunPage(db, ordered, clauses, args + [Int(limit), Int(offset)], joins, limitPos, offsetPos);
    PageMeans(db, ordered, f, clauses, args, joins, limit, offset);
    return Ok(ProductPage(ids, total));
  }

  /** The page size is defaulted and clamped before the offset is computed from it. */
  method PageBounds(page: int, size: int) returns (limit: nat, offset: nat)
    requires page >= 1
    ensures limit == PageSizeOf(size) && offset == (page - 1) * PageSizeOf(size)
  {
    var pageSize := size;
    if pageSize <= 0 { pageSize := DefaultPageSize; }
    if pageSize > MaxPageSize { pageSize := MaxPageSize; }
    return pageSize, (page - 1) * pageSize;
  }

  lemma CountMeans(db: Db, f: ListFilter, clauses: seq<Clause>, args: seq<Value>, joins: seq<Join>)
    requires forall p :: Selected(db, clauses, args, joins, p) <==> Matches(db, f, p)
    ensures RunCount(db, clauses, args, joins) == WantedCount(db, f)
  {
    assert (set p | p in db.products && Selected(db, clauses, args, joins, p)) ==
           set p | p in db.products && Matches(db, f, p);
  }

  /** The two placeholders after the filter's are the limit and the offset. */
  lemma PageMeans(db: Db, ordered: seq<int>, f: ListFilter, clauses: seq<Clause>, args: seq<Value>, joins: seq<Join>,
                  limit: nat, offset: nat)
    requires forall k :: 0 <= k < |clauses| ==> WellFormed(clauses[k], joins, |args|)
    requires forall p :: Selected(db, clauses, args, joins, p) <==> Matches(db, f, p)
    ensures RunPage(db, ordered, clauses, args + [Int(limit), Int(offset)], joins, |args| + 1, |args| + 2) ==
            Page(Listing(db, f, ordered), limit, offset)
  {
    var all := args + [Int(limit), Int(offset)];
    assert Arg(all, |args| + 1) == Int(limit) && Arg(all, |args| + 2) == Int(offset);
    SelectedExtends(db, clauses, args, [Int(limit), Int(offset)], joins);
    SelectSame(ordered, Selects(db, clauses, all, joins), Wants(db, f));
  }

  /** Binding the limit and the offset does not change what is selected. */
  lemma SelectedExtends(db: Db, clauses: seq<Clause>, args: seq<Value>, more: seq<Value>, joins: seq<Join>)
    requires forall k :: 0 <= k < |clauses| ==> WellFormed(clauses[k], joins, |args|)
    ensures forall p :: Selected(db, clauses, args + more, joins, p) <==> Selected(db, clauses, args, joins, p)
  {
    forall p, c, t ensures Picks(db, clauses, args + more, joins, p, c, t) <==>
      Picks(db, clauses, args, joins, p, c, t) {
      HoldsExtends(db, clauses, args, more, joins, Row(p, c, t));
    }
  }
}
