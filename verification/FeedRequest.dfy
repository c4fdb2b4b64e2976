/** Discovery feed requests and their validation, which rewrites the request in place. Prices and
    ratings are real numbers. */
module FeedRequests {
  import opened Common
  import opened Text

  datatype Filters = Filters(
    brandIds: seq<int>,
    tagIds: seq<int>,
    attributeValueIds: seq<int>,
    priceMin: Option<real>,
    priceMax: Option<real>,
    minRating: Option<real>,
    discountOnly: bool,
    inStockOnly: bool)

  datatype Request = Request(
    feedType: string,
    userId: Option<int>,
    sessionId: Option<string>,
    categoryId: Option<int>,
    query: Option<string>,
    limit: int,
    filters: Filters)

  datatype FeedError =
    | InvalidRequest | InvalidFeedType | InvalidUserId | InvalidCategoryId | CategoryRequired | QueryRequired
    | UserRequired | UserOrSessionRequired | InvalidFilterId | InvalidPriceRange | InvalidRatingFilter
    | CategoryNotFound | RepositoryFailure

  const Trending := "trending"
  const BestSellers := "best_sellers"
  const Recommended := "recommended"
  const AlsoViewed := "also_viewed"
  const CategoryFeed := "category"
  const Search := "search"

  const FeedTypes: seq<string> := [
    Trending, BestSellers, Recommended, CategoryFeed, "deals", "new_arrivals", "highly_rated",
    "most_wishlisted", AlsoViewed, "featured", "editorial", Search]

  const DefaultLimit := 20
  const MaxLimit := 100

  // ----- Filter ids -----

  predicate Sorted(s: seq<int>) {
    forall i, j :: 0 <= i < j < |s| ==> s[i] <= s[j]
  }

  predicate StrictlySorted(s: seq<int>) {
    forall i, j :: 0 <= i < j < |s| ==> s[i] < s[j]
  }

  function Insert(x: int, s: seq<int>): (r: seq<int>)
    ensures multiset(r) == multiset(s) + multiset{x}
  {
    if s == [] || x <= s[0] then [x] + s
    else
      assert s == [s[0]] + s[1..];
      [s[0]] + Insert(x, s[1..])
  }

  /** sort.Slice in ascending order. */
  function Sort(s: seq<int>): (r: seq<int>)
    ensures multiset(r) == multiset(s)
  {
    if s == [] then [] else
      assert s == [s[0]] + s[1..];
      Insert(s[0], Sort(s[1..]))
  }

  lemma SameMembers(a: seq<int>, b: seq<int>)
    requires multiset(a) == multiset(b)
    ensures |a| == |b| && forall x :: x in a <==> x in b
  {
    assert |a| == |multiset(a)| && |b| == |multiset(b)|;
    assert forall x :: x in a <==> x in multiset(a);
    assert forall x :: x in b <==> x in multiset(b);
  }

  lemma {:induction false} InsertSorted(x: int, s: seq<int>)
    requires Sorted(s)
    ensures Sorted(Insert(x, s))
  {
    if s != [] && x > s[0] {
      TailSorted(s);
      InsertSorted(x, s[1..]);
      forall y | y in Insert(x, s[1..]) ensures s[0] <= y {
        SameMembers(Insert(x, s[1..]), [x] + s[1..]);
        if y in s[1..] { FirstIsLeast(s, y); }
      }
      PrependSorted(s[0], Insert(x, s[1..]));
    }
  }

  lemma PrependSorted(x: int, s: seq<int>)
    requires Sorted(s) && forall y :: y in s ==> x <= y
    ensures Sorted([x] + s)
  {
    var r := [x] + s;
    forall i, j | 0 <= i < j < |r| ensures r[i] <= r[j] {
      assert r[j] == s[j - 1] && s[j - 1] in s;
      if i > 0 { assert r[i] == s[i - 1]; }
    }
  }

  lemma {:induction false} SortSorted(s: seq<int>)
    ensures Sorted(Sort(s))
  {
    if s != [] {
      SortSorted(s[1..]);
      InsertSorted(s[0], Sort(s[1..]));
    }
  }

  lemma {:induction false} SortedUnique(a: seq<int>, b: seq<int>)
    requires Sorted(a) && Sorted(b) && multiset(a) == multiset(b)
    ensures a == b
  {
    SameMembers(a, b);
    if a != [] {
      assert a[0] == b[0] by {
        assert a[0] in a && b[0] in b;
        FirstIsLeast(a, b[0]);
        FirstIsLeast(b, a[0]);
      }
      assert multiset(a[1..]) == multiset(b[1..]) by {
        TailMultiset(a);
        TailMultiset(b);
      }
      assert Sorted(a[1..]) by { TailSorted(a); }
      assert Sorted(b[1..]) by { TailSorted(b); }
      SortedUnique(a[1..], b[1..]);
      assert a == [a[0]] + a[1..] && b == [b[0]] + b[1..];
    }
  }

  lemma FirstIsLeast(s: seq<int>, x: int)
    requires Sorted(s) && x in s
    ensures s[0] <= x
  {
    var k :| 0 <= k < |s| && s[k] == x;
    if k > 0 { assert s[0] <= s[k]; }
  }

  lemma TailMultiset(s: seq<int>)
    requires s != []
    ensures multiset(s[1..]) == multiset(s) - multiset{s[0]}
  {
    assert s == [s[0]] + s[1..];
  }

  lemma TailSorted(s: seq<int>)
    requires Sorted(s) && s != []
    ensures Sorted(s[1..])
  {
  }

  /** The ids of the input, each once, in ascending order. */
  ghost predicate IsNormalIds(values: seq<int>, ids: seq<int>) {
    StrictlySorted(ids) && forall x :: x in ids <==> x in values
  }

  predicate PositiveIds(values: seq<int>) {
    forall x :: x in values ==> x > 0
  }

  lemma {:induction false} NormalIdsUnique(values: seq<int>, a: seq<int>, b: seq<int>)
    requires IsNormalIds(values, a) && IsNormalIds(values, b)
    ensures a == b
  {
    StrictlyDistinct(a);
    StrictlyDistinct(b);
    assert forall x :: x in a <==> x in b;
    assert multiset(a) == multiset(b) by {
      forall x ensures multiset(a)[x] == multiset(b)[x] {
        assert x in a <==> x in multiset(a);
        assert x in b <==> x in multiset(b);
      }
    }
    SortedUnique(a, b);
  }

  lemma {:induction false} StrictlyDistinct(s: seq<int>)
    requires StrictlySorted(s)
    ensures forall x :: multiset(s)[x] <= 1
  {
    if s != [] {
      StrictlyDistinct(s[1..]);
      assert s == [s[0]] + s[1..];
      assert s[0] !in s[1..];
    }
  }

  lemma SortDistinct(s: seq<int>)
    requires forall i, j :: 0 <= i < j < |s| ==> s[i] != s[j]
    ensures IsNormalIds(s, Sort(s))
  {
    var r := Sort(s);
    SortSorted(s);
    SameMembers(r, s);
    forall i, j | 0 <= i < j < |r| ensures r[i] < r[j] {
      OnceInSeq(s, r[i]);
      if r[i] == r[j] { TwiceInSeq(r, i, j); }
    }
  }

  lemma TwiceInSeq(s: seq<int>, i: nat, j: nat)
    requires i < j < |s| && s[i] == s[j]
    ensures multiset(s)[s[i]] >= 2
  {
    assert s == s[..j] + s[j..];
    assert s[..j][i] == s[i] && s[j..][0] == s[j];
    assert s[i] in multiset(s[..j]) && s[j] in multiset(s[j..]);
  }

  lemma {:induction false} OnceInSeq(s: seq<int>, x: int)
    requires forall i, j :: 0 <= i < j < |s| ==> s[i] != s[j]
    ensures multiset(s)[x] <= 1
  {
    if s != [] {
      OnceInSeq(s[1..], x);
      assert s == [s[0]] + s[1..];
      assert s[0] !in s[1..];
    }
  }

  method NormalizeFilterIds(values: seq<int>) returns (r: Option<seq<int>>)
    ensures r.None? <==> !PositiveIds(values)
    ensures r.Some? ==> IsNormalIds(values, r.value)
  {
    if |values| == 0 { return Some([]); }
    var seen: set<int> := {};
    var normalized: seq<int> := [];
    for n := 0 to |values|
      invariant forall k :: 0 <= k < n ==> values[k] > 0
      invariant forall x :: x in seen <==> x in values[..n]
      invariant forall x :: x in seen <==> x in normalized
      invariant forall i, j :: 0 <= i < j < |normalized| ==> normalized[i] != normalized[j]
    {
      assert values[..n + 1] == values[..n] + [values[n]];
      if values[n] <= 0 {
        assert values[n] in values;
        return None;
      }
      if values[n] in seen { continue; }
      seen := seen + {values[n]};
      normalized := normalized + [values[n]];
    }
    assert values[..|values|] == values;
    SortDistinct(normalized);
    return Some(Sort(normalized));
  }

  // ----- Validation -----

  /** The session a request is left with: None when there was none or only white space. */
  function SessionOf(s: Option<string>): Option<string> {
    if s.None? || TrimSpace(s.value) == "" then None else Some(TrimSpace(s.value))
  }

  /** A session is dropped exactly when it is all white space. */
  lemma SessionDroppedExactly(s: string)
    ensures SessionOf(Some(s)).None? <==> AllSpace(s)
  {
    var before, after := TrimSpaceIs(s);
    assert TrimSpace(s) != "" ==> s[|before|] == TrimSpace(s)[0];
    assert TrimSpace(s) == "" ==> s == before + after;
  }

  function QueryOf(q: Option<string>): Option<string> {
    if q.None? then None else Some(TrimSpace(q.value))
  }

  /** The order in which the checks are made. */
  function Rank(e: FeedError): nat {
    match e
    case InvalidFeedType => 1
    case InvalidUserId => 2
    case InvalidCategoryId => 3
    case CategoryRequired => 4
    case QueryRequired => 5
    case UserRequired => 6
    case UserOrSessionRequired => 7
    case InvalidFilterId => 8
    case InvalidPriceRange => 9
    case InvalidRatingFilter => 10
    case _ => 0
  }

  /** The request with the white space around its texts removed. */
  function Trim(r: Request): Request {
    r.(feedType := TrimSpace(r.feedType), sessionId := SessionOf(r.sessionId), query := QueryOf(r.query))
  }

  /** The request fails the check that reports this error. */
  predicate Fails(r: Request, e: FeedError) {
    Rejects(Trim(r), e)
  }

  predicate Rejects(r: Request, e: FeedError) {
    match e
    case InvalidFeedType => r.feedType !in FeedTypes
    case InvalidUserId => r.userId.Some? && r.userId.value <= 0
    case InvalidCategoryId => r.categoryId.Some? && r.categoryId.value <= 0
    case CategoryRequired => r.feedType == CategoryFeed && r.categoryId.None?
    case QueryRequired => r.feedType == Search && (r.query.None? || r.query.value == "")
    case UserRequired => r.feedType == Recommended && r.userId.None?
    case UserOrSessionRequired => r.feedType == AlsoViewed && r.userId.None? && r.sessionId.None?
    case InvalidFilterId =>
      !PositiveIds(r.filters.brandIds) || !PositiveIds(r.filters.tagIds) || !PositiveIds(r.filters.attributeValueIds)
    case InvalidPriceRange =>
      r.filters.priceMin.Some? && r.filters.priceMax.Some? && r.filters.priceMin.value > r.filters.priceMax.value
    case InvalidRatingFilter =>
      r.filters.minRating.Some? && (r.filters.minRating.value < 0.0 || r.filters.minRating.value > 5.0)
    case _ => false
  }

  ghost predicate Acceptable(r: Request) {
    forall e :: !Fails(r, e)
  }

  /** The checks, condition by condition. */
  lemma AcceptableMeans(r: Request)
    ensures Acceptable(r) <==>
      && TrimSpace(r.feedType) in [
           "trending", "best_sellers", "recommended", "category", "deals", "new_arrivals", "highly_rated",
           "most_wishlisted", "also_viewed", "featured", "editorial", "search"]
      && (r.userId.Some? ==> r.userId.value > 0) && (r.categoryId.Some? ==> r.categoryId.value > 0)
      && (TrimSpace(r.feedType) == "category" ==> r.categoryId.Some?)
      && (TrimSpace(r.feedType) == "search" ==> r.query.Some? && TrimSpace(r.query.value) != "")
      && (TrimSpace(r.feedType) == "recommended" ==> r.userId.Some?)
      && (TrimSpace(r.feedType) == "also_viewed" ==>
            r.userId.Some? || (r.sessionId.Some? && TrimSpace(r.sessionId.value) != ""))
      && (forall x :: x in r.filters.brandIds || x in r.filters.tagIds || x in r.filters.attributeValueIds ==> x > 0)
      && (r.filters.priceMin.Some? && r.filters.priceMax.Some? ==>
            r.filters.priceMin.value <= r.filters.priceMax.value)
      && (r.filters.minRating.Some? ==> 0.0 <= r.filters.minRating.value <= 5.0)
  {
    var f := (e: FeedError) => Rejects(Trim(r), e);
    AllErrors(f);
    assert Acceptable(r) <==> forall e :: !f(e) by {
      if Acceptable(r) { forall e ensures !f(e) { assert !Fails(r, e); } }
    }
    NeedsMean(r);
    BoundsMean(r);
  }

  /** The errors a request can be rejected with. */
  lemma AllErrors(f: FeedError -> bool)
    requires !f(InvalidRequest) && !f(CategoryNotFound) && !f(RepositoryFailure)
    ensures (forall e :: !f(e)) <==>
      && !f(InvalidFeedType) && !f(InvalidUserId) && !f(InvalidCategoryId) && !f(CategoryRequired)
      && !f(QueryRequired) && !f(UserRequired) && !f(UserOrSessionRequired) && !f(InvalidFilterId)
      && !f(InvalidPriceRange) && !f(InvalidRatingFilter)
  {
    if !f(InvalidFeedType) && !f(InvalidUserId) && !f(InvalidCategoryId) && !f(CategoryRequired)
       && !f(QueryRequired) && !f(UserRequired) && !f(UserOrSessionRequired) && !f(InvalidFilterId)
       && !f(InvalidPriceRange) && !f(InvalidRatingFilter)
    {
      forall e ensures !f(e) {
        match e
        case InvalidFeedType => case InvalidUserId => case InvalidCategoryId => case CategoryRequired =>
        case QueryRequired => case UserRequired => case UserOrSessionRequired => case InvalidFilterId =>
        case InvalidPriceRange => case InvalidRatingFilter => case _ =>
      }
    }
  }

  lemma NeedsMean(r: Request)
    ensures !Rejects(Trim(r), InvalidFeedType) <==> TrimSpace(r.feedType) in [
      "trending", "best_sellers", "recommended", "category", "deals", "new_arrivals", "highly_rated",
      "most_wishlisted", "also_viewed", "featured", "editorial", "search"]
    ensures !Rejects(Trim(r), CategoryRequired) <==> (TrimSpace(r.feedType) == "category" ==> r.categoryId.Some?)
    ensures !Rejects(Trim(r), QueryRequired) <==>
      (TrimSpace(r.feedType) == "search" ==> r.query.Some? && TrimSpace(r.query.value) != "")
    ensures !Rejects(Trim(r), UserRequired) <==> (TrimSpace(r.feedType) == "recommended" ==> r.userId.Some?)
    ensures !Rejects(Trim(r), UserOrSessionRequired) <==>
      (TrimSpace(r.feedType) == "also_viewed" ==>
        r.userId.Some? || (r.sessionId.Some? && TrimSpace(r.sessionId.value) != ""))
  {
  }

  lemma BoundsMean(r: Request)
    ensures !Rejects(Trim(r), InvalidUserId) <==> (r.userId.Some? ==> r.userId.value > 0)
    ensures !Rejects(Trim(r), InvalidCategoryId) <==> (r.categoryId.Some? ==> r.categoryId.value > 0)
    ensures !Rejects(Trim(r), InvalidFilterId) <==>
      forall x :: x in r.filters.brandIds || x in r.filters.tagIds || x in r.filters.attributeValueIds ==> x > 0
    ensures !Rejects(Trim(r), InvalidPriceRange) <==>
      (r.filters.priceMin.Some? && r.filters.priceMax.Some? ==> r.filters.priceMin.value <= r.filters.priceMax.value)
    ensures !Rejects(Trim(r), InvalidRatingFilter) <==>
      (r.filters.minRating.Some? ==> 0.0 <= r.filters.minRating.value <= 5.0)
  {
  }

  /** The request passes every check made before the one that reports e. */
  ghost predicate PassesUpTo(r: Request, e: FeedError) {
    forall f :: Rank(f) < Rank(e) ==> !Fails(r, f)
  }

  ghost predicate FirstFailure(r: Request, e: FeedError) {
    Fails(r, e) && PassesUpTo(r, e)
  }

  ghost predicate NormalFilters(f: Filters, g: Filters) {
    && IsNormalIds(f.brandIds, g.brandIds)
    && IsNormalIds(f.tagIds, g.tagIds)
    && IsNormalIds(f.attributeValueIds, g.attributeValueIds)
    && g == f.(brandIds := g.brandIds, tagIds := g.tagIds, attributeValueIds := g.attributeValueIds)
  }

  function ClampLimit(limit: int): int {
    if limit <= 0 then DefaultLimit else if limit > MaxLimit then MaxLimit else limit
  }

  /** What an accepted request is left as. */
  ghost predicate NormalForm(r: Request, n: Request) {
    && NormalFilters(r.filters, n.filters)
    && n == Trim(r).(limit := ClampLimit(r.limit), filters := n.filters)
  }

  /** A request that validation accepts and leaves as it is. */
  ghost predicate Validated(r: Request) {
    Acceptable(r) && NormalForm(r, r)
  }

  lemma NormalFormUnique(r: Request, a: Request, b: Request)
    requires NormalForm(r, a) && NormalForm(r, b)
    ensures a == b
  {
    NormalIdsUnique(r.filters.brandIds, a.filters.brandIds, b.filters.brandIds);
    NormalIdsUnique(r.filters.tagIds, a.filters.tagIds, b.filters.tagIds);
    NormalIdsUnique(r.filters.attributeValueIds, a.filters.attributeValueIds, b.filters.attributeValueIds);
  }

  lemma TrimIdempotent(r: Request)
    ensures Trim(Trim(r)) == Trim(r)
  {
    TrimTrimmed(TrimSpace(r.feedType));
    if r.sessionId.Some? { TrimTrimmed(TrimSpace(r.sessionId.value)); }
    if r.query.Some? { TrimTrimmed(TrimSpace(r.query.value)); }
  }

  lemma NormalIsTrimmed(r: Request, n: Request)
    requires NormalForm(r, n)
    ensures Trim(n) == n
  {
    TrimIdempotent(r);
  }

  /** Validation is idempotent: an accepted request's normal form is accepted and is its own
      only normal form. */
  lemma ValidateIdempotent(r: Request, n: Request)
    requires Acceptable(r) && NormalForm(r, n)
    ensures Validated(n) && forall m :: NormalForm(n, m) ==> m == n
  {
    NormalIsTrimmed(r, n);
    forall e ensures !Fails(n, e) {
      assert !Fails(r, e);
    }
    assert NormalFilters(n.filters, n.filters);
    forall m | NormalForm(n, m) ensures m == n { NormalFormUnique(n, m, n); }
  }

  class FeedRequest {
    var feedType: string
    var userId: Option<int>
    var sessionId: Option<string>
    var categoryId: Option<int>
    var query: Option<string>
    var limit: int
    var filters: Filters

    function Value(): Request
      reads this
    {
      Request(feedType, userId, sessionId, categoryId, query, limit, filters)
    }

    constructor (r: Request)
      ensures Value() == r
    {
      feedType, userId, sessionId := r.feedType, r.userId, r.sessionId;
      categoryId, query, limit, filters := r.categoryId, r.query, r.limit, r.filters;
    }

    /** cloneFeedRequest: the lists are copied, so nothing is shared with the original. */
    method Clone() returns (c: FeedRequest)
      ensures fresh(c) && c.Value() == Value()
    {
      c := new FeedRequest(Value());
    }

    method Validate() returns (err: Option<FeedError>)
      modifies this
      ensures err.None? <==> Acceptable(old(Value()))
      ensures var r := old(Value());
              err.None? <==>
                && TrimSpace(r.feedType) in [
                     "trending", "best_sellers", "recommended", "category", "deals", "new_arrivals", "highly_rated",
                     "most_wishlisted", "also_viewed", "featured", "editorial", "search"]
                && (r.userId.Some? ==> r.userId.value > 0) && (r.categoryId.Some? ==> r.categoryId.value > 0)
                && (TrimSpace(r.feedType) == "category" ==> r.categoryId.Some?)
                && (TrimSpace(r.feedType) == "search" ==> r.query.Some? && TrimSpace(r.query.value) != "")
                && (TrimSpace(r.feedType) == "recommended" ==> r.userId.Some?)
                && (TrimSpace(r.feedType) == "also_viewed" ==>
                      r.userId.Some? || (r.sessionId.Some? && TrimSpace(r.sessionId.value) != ""))
                && (forall x ::
                      x in r.filters.brandIds || x in r.filters.tagIds || x in r.filters.attributeValueIds ==> x > 0)
                && (r.filters.priceMin.Some? && r.filters.priceMax.Some? ==>
                      r.filters.priceMin.value <= r.filters.priceMax.value)
                && (r.filters.minRating.Some? ==> 0.0 <= r.filters.minRating.value <= 5.0)
      ensures err.None? ==>
        limit == (if old(limit) <= 0 then 20 else if old(limit) > 100 then 100 else old(limit))
      ensures err.None? ==> NormalForm(old(Value()), Value())
      ensures err.Some? ==> FirstFailure(old(Value()), err.value)
    {
      ghost var r := Value();
      AcceptableMeans(r);
      err := ValidateHead();
      if err.Some? { return; }
      err := ValidateFilters(r);
    }

    /** The checks before the filters. */
    method ValidateHead() returns (err: Option<FeedError>)
      modifies this`feedType, this`limit, this`sessionId, this`query
      ensures err.Some? ==> FirstFailure(old(Value()), err.value)
      ensures err.None? ==> PassesUpTo(old(Value()), InvalidFilterId)
      ensures err.None? ==> Value() == Trim(old(Value())).(limit := ClampLimit(old(limit)))
    {
      ghost var r := Trim(Value());
      err := ValidateType(r);
      if err.Some? { return; }
      if sessionId.Some? {
        var trimmed := TrimSpace(sessionId.value);
        sessionId := if trimmed == "" then None else Some(trimmed);
      }
      err := ValidateCategory(r);
      if err.Some? { return; }
      err := ValidateNeeds(r);
    }

    method ValidateType(ghost r: Request) returns (err: Option<FeedError>)
      requires r.feedType == TrimSpace(feedType) && userId == r.userId
      modifies this`feedType, this`limit
      ensures err.Some? ==> Rejects(r, err.value) && forall f :: Rank(f) < Rank(err.value) ==> !Rejects(r, f)
      ensures err.None? ==> forall f :: Rank(f) < Rank(InvalidCategoryId) ==> !Rejects(r, f)
      ensures err.None? ==> feedType == r.feedType && limit == ClampLimit(old(limit))
    {
      feedType := TrimSpace(feedType);
      if feedType !in FeedTypes { return Some(InvalidFeedType); }
      if limit <= 0 { limit := DefaultLimit; }
      if limit > MaxLimit { limit := MaxLimit; }
      if userId.Some? && userId.value <= 0 { return Some(InvalidUserId); }
      return None;
    }

    method ValidateCategory(ghost r: Request) returns (err: Option<FeedError>)
      requires feedType == r.feedType && categoryId == r.categoryId
      requires forall f :: Rank(f) < Rank(InvalidCategoryId) ==> !Rejects(r, f)
      ensures err.Some? ==> Rejects(r, err.value) && forall f :: Rank(f) < Rank(err.value) ==> !Rejects(r, f)
      ensures err.None? ==> forall f :: Rank(f) < Rank(QueryRequired) ==> !Rejects(r, f)
    {
      if categoryId.Some? && categoryId.value <= 0 { return Some(InvalidCategoryId); }
      if feedType == CategoryFeed && categoryId.None? { return Some(CategoryRequired); }
      return None;
    }

    /** What some feed types cannot do without. */
    method ValidateNeeds(ghost r: Request) returns (err: Option<FeedError>)
      requires feedType == r.feedType && QueryOf(query) == r.query
      requires userId == r.userId && sessionId == r.sessionId
      requires forall f :: Rank(f) < Rank(QueryRequired) ==> !Rejects(r, f)
      modifies this`query
      ensures err.Some? ==> Rejects(r, err.value) && forall f :: Rank(f) < Rank(err.value) ==> !Rejects(r, f)
      ensures err.None? ==> forall f :: Rank(f) < Rank(InvalidFilterId) ==> !Rejects(r, f)
      ensures query == r.query
    {
      if query.Some? { query := Some(TrimSpace(query.value)); }
      if feedType == Search && (query.None? || query.value == "") { return Some(QueryRequired); }
      if feedType == Recommended && userId.None? { return Some(UserRequired); }
      if feedType == AlsoViewed && userId.None? && sessionId.None? { return Some(UserOrSessionRequired); }
      return None;
    }

    method ValidateFilters(ghost r: Request) returns (err: Option<FeedError>)
      requires filters == r.filters && PassesUpTo(r, InvalidFilterId)
      modifies this`filters
      ensures err.None? <==> Acceptable(r)
      ensures err.None? ==> NormalFilters(r.filters, filters)
      ensures err.Some? ==> FirstFailure(r, err.value)
    {
      var brands := NormalizeFilterIds(filters.brandIds);
      if brands.None? {
        assert Fails(r, InvalidFilterId);
        return Some(InvalidFilterId);
      }
      filters := filters.(brandIds := brands.value);
      var tags := NormalizeFilterIds(filters.tagIds);
      if tags.None? {
        assert Fails(r, InvalidFilterId);
        return Some(InvalidFilterId);
      }
      filters := filters.(tagIds := tags.value);
      var values := NormalizeFilterIds(filters.attributeValueIds);
      if values.None? {
        assert Fails(r, InvalidFilterId);
        return Some(InvalidFilterId);
      }
      filters := filters.(attributeValueIds := values.value);
      assert !Fails(r, InvalidFilterId);
      if filters.priceMin.Some? && filters.priceMax.Some? && filters.priceMin.value > filters.priceMax.value {
        assert Fails(r, InvalidPriceRange);
        return Some(InvalidPriceRange);
      }
      assert !Fails(r, InvalidPriceRange);
      if filters.minRating.Some? && (filters.minRating.value < 0.0 || filters.minRating.value > 5.0) {
        assert Fails(r, InvalidRatingFilter);
        return Some(InvalidRatingFilter);
      }
      return None;
    }
  }
}
