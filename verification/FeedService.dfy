/** The discovery feed: candidates with their fallbacks, hydration and the feed cache. The
    repositories are fixed functions: the catalogue does not change while feeds are read. */
module FeedService {
  import opened Common
  import opened FeedRequests
  import opened FeedCacheKey
  import opened TextlessKeys
  import opened Text

  datatype Candidate = Candidate(productId: int, signals: map<string, real>)

  datatype ProductCard = ProductCard(productId: int, name: string, slug: string, price: real, rating: real)

  type Candidates = Result<seq<Candidate>, FeedError>

  type Cards = Result<seq<ProductCard>, FeedError>

  /** What the repositories answer. */
  datatype Repository = Repository(
    candidates: Request -> Candidates,
    hydrate: seq<int> -> Cards,
    categoryExists: int -> bool)

  function FallbackOrder(feedType: string): seq<string> {
    if feedType == Recommended || feedType == AlsoViewed then [Trending, BestSellers] else []
  }

  // ----- Merging the fallback feeds -----

  function Ids(cs: seq<Candidate>): set<int> {
    set i | 0 <= i < |cs| :: cs[i].productId
  }

  predicate NoDuplicates(cs: seq<Candidate>) {
    forall i, j :: 0 <= i < j < |cs| ==> cs[i].productId != cs[j].productId
  }

  /** The candidates of `more` that are neither among `seen` nor earlier in `more`. */
  function NewOnes(more: seq<Candidate>, seen: set<int>): (r: seq<Candidate>)
    ensures |r| <= |more|
  {
    if more == [] then []
    else
      var last, before := more[|more| - 1], more[..|more| - 1];
      if last.productId in seen || last.productId in Ids(before) then NewOnes(before, seen)
      else NewOnes(before, seen) + [last]
  }

  /** At most n of them, from the front. */
  function Take<T>(s: seq<T>, n: int): seq<T> {
    if n <= 0 then [] else if |s| <= n then s else s[..n]
  }

  /** The candidates after one fallback feed of the request has been merged in. */
  function MergeOne(merged: seq<Candidate>, more: seq<Candidate>, limit: int): seq<Candidate> {
    merged + Take(NewOnes(more, Ids(merged)), limit - |merged|)
  }

  /** The request a fallback feed is asked with. */
  function FallbackRequest(r: Request, feedType: string, have: int): Request {
    r.(feedType := feedType, limit := r.limit - have)
  }

  function MergeAll(repo: Repository, r: Request, merged: seq<Candidate>, types: seq<string>): Candidates
    decreases |types|
  {
    if types == [] || |merged| >= r.limit then Ok(merged)
    else
      match repo.candidates(FallbackRequest(r, types[0], |merged|))
      case Err(e) => Err(e)
      case Ok(more) => MergeAll(repo, r, MergeOne(merged, more, r.limit), types[1..])
  }

  function WithFallback(repo: Repository, r: Request): Candidates {
    match repo.candidates(r)
    case Err(e) => Err(e)
    case Ok(primary) => MergeAll(repo, r, primary, FallbackOrder(r.feedType))
  }

  lemma {:induction false} NewOnesAreNew(more: seq<Candidate>, seen: set<int>)
    ensures NoDuplicates(NewOnes(more, seen))
    ensures Ids(NewOnes(more, seen)) == Ids(more) - seen
    ensures forall c :: c in NewOnes(more, seen) ==> c in more
  {
    if more != [] {
      var last, before := more[|more| - 1], more[..|more| - 1];
      NewOnesAreNew(before, seen);
      assert more == before + [last];
      IdsSnoc(before, last);
      IdsSnoc(NewOnes(before, seen), last);
      if !(last.productId in seen || last.productId in Ids(before)) {
        var r := NewOnes(before, seen);
        assert last.productId !in Ids(r);
        assert forall i :: 0 <= i < |r| ==> r[i].productId in Ids(r);
      }
    }
  }

  lemma IdsSnoc(cs: seq<Candidate>, c: Candidate)
    ensures Ids(cs + [c]) == Ids(cs) + {c.productId}
  {
    var r := cs + [c];
    forall x | x in Ids(cs) ensures x in Ids(r) {
      var i :| 0 <= i < |cs| && cs[i].productId == x;
      assert r[i].productId == x;
    }
    assert r[|cs|].productId == c.productId;
  }

  /** What one merge keeps: the earlier candidates in front, no duplicates, the limit. */
  lemma MergeOneKeeps(merged: seq<Candidate>, more: seq<Candidate>, limit: int)
    requires |merged| <= limit
    ensures var m := MergeOne(merged, more, limit);
            merged <= m && |m| <= limit && (NoDuplicates(merged) ==> NoDuplicates(m))
    ensures forall k :: |merged| <= k < |MergeOne(merged, more, limit)| ==>
              MergeOne(merged, more, limit)[k].productId !in Ids(merged)
  {
    var added := NewOnes(more, Ids(merged));
    NewOnesAreNew(more, Ids(merged));
    var taken := Take(added, limit - |merged|);
    assert taken <= added;
    assert forall i :: 0 <= i < |added| ==> added[i].productId in Ids(added);
    assert forall i :: 0 <= i < |merged| ==> merged[i].productId in Ids(merged);
  }

  lemma MergeOneTakesAll(merged: seq<Candidate>, more: seq<Candidate>, limit: int)
    requires |MergeOne(merged, more, limit)| < limit
    ensures Ids(more) <= Ids(MergeOne(merged, more, limit))
  {
    var added := NewOnes(more, Ids(merged));
    NewOnesAreNew(more, Ids(merged));
    assert Take(added, limit - |merged|) == added;
    IdsConcat(merged, added);
  }

  /** One fallback feed's turn: asked for what is missing after the first `from` candidates, it
      adds its new products, in its own order, up to the limit. */
  ghost predicate Turn(repo: Repository, r: Request, m: seq<Candidate>, feedType: string, from: nat, to: nat) {
    && from <= to <= |m| && from < r.limit
    && repo.candidates(FallbackRequest(r, feedType, from)).Ok?
    && var more := repo.candidates(FallbackRequest(r, feedType, from)).value;
       m[from..to] == Take(NewOnes(more, Ids(m[..from])), r.limit - from)
  }

  /** The primary candidates, then the turns of the fallback feeds in their order, until the
      feed is full or all have had their turn. cuts[n] is where the n-th turn begins. */
  ghost predicate InOrder(repo: Repository, r: Request, p: seq<Candidate>, m: seq<Candidate>, types: seq<string>,
                          cuts: seq<nat>) {
    && p <= m && 1 <= |cuts| <= |types| + 1
    && cuts[0] == |p| && cuts[|cuts| - 1] == |m|
    && (forall n :: 0 <= n < |cuts| - 1 ==> Turn(repo, r, m, types[n], cuts[n], cuts[n + 1]))
    && (|cuts| == |types| + 1 || |m| >= r.limit)
  }

  lemma FirstTurn(repo: Repository, r: Request, merged: seq<Candidate>, feedType: string, m: seq<Candidate>)
    requires |merged| < r.limit && repo.candidates(FallbackRequest(r, feedType, |merged|)).Ok?
    requires MergeOne(merged, repo.candidates(FallbackRequest(r, feedType, |merged|)).value, r.limit) <= m
    ensures Turn(repo, r, m, feedType, |merged|,
                 |MergeOne(merged, repo.candidates(FallbackRequest(r, feedType, |merged|)).value, r.limit)|)
  {
    var next := MergeOne(merged, repo.candidates(FallbackRequest(r, feedType, |merged|)).value, r.limit);
    assert m[..|next|] == next;
    assert m[..|merged|] == merged && m[|merged|..|next|] == next[|merged|..];
  }

  lemma {:induction false} MergeAllInOrder(repo: Repository, r: Request, merged: seq<Candidate>, types: seq<string>)
    returns (cuts: seq<nat>)
    requires MergeAll(repo, r, merged, types).Ok?
    ensures InOrder(repo, r, merged, MergeAll(repo, r, merged, types).value, types, cuts)
    decreases |types|
  {
    cuts := [|merged|];
    if types != [] && |merged| < r.limit {
      var more := repo.candidates(FallbackRequest(r, types[0], |merged|)).value;
      var next := MergeOne(merged, more, r.limit);
      var rest := MergeAllInOrder(repo, r, next, types[1..]);
      var m := MergeAll(repo, r, merged, types).value;
      cuts := cuts + rest;
      FirstTurn(repo, r, merged, types[0], m);
      forall n | 0 <= n < |cuts| - 1 ensures Turn(repo, r, m, types[n], cuts[n], cuts[n + 1]) {
        if n > 0 { assert Turn(repo, r, m, types[1..][n - 1], rest[n - 1], rest[n]); }
      }
    }
  }

  lemma {:induction false} MergeAllKeeps(repo: Repository, r: Request, merged: seq<Candidate>, types: seq<string>)
    requires |merged| <= r.limit && MergeAll(repo, r, merged, types).Ok?
    ensures var m := MergeAll(repo, r, merged, types).value;
            && merged <= m && |m| <= r.limit
            && (NoDuplicates(merged) ==> NoDuplicates(m))
            && (forall k :: |merged| <= k < |m| ==> m[k].productId !in Ids(merged))
    decreases |types|
  {
    if types != [] && |merged| < r.limit {
      var more := repo.candidates(FallbackRequest(r, types[0], |merged|)).value;
      var next := MergeOne(merged, more, r.limit);
      MergeOneKeeps(merged, more, r.limit);
      MergeAllKeeps(repo, r, next, types[1..]);
      IdsOfPrefix(merged, next);
    }
  }

  /** A turn that leaves the feed short has shown every product of its fallback feed. */
  lemma ShortTurnShowsAll(repo: Repository, r: Request, m: seq<Candidate>, feedType: string, from: nat, to: nat)
    requires Turn(repo, r, m, feedType, from, to) && |m| < r.limit
    ensures Ids(repo.candidates(FallbackRequest(r, feedType, from)).value) <= Ids(m)
  {
    var more := repo.candidates(FallbackRequest(r, feedType, from)).value;
    MergeOneTakesAll(m[..from], more, r.limit);
    assert MergeOne(m[..from], more, r.limit) == m[..to];
    IdsOfPrefix(m[..to], m);
  }

  lemma IdsOfPrefix(a: seq<Candidate>, b: seq<Candidate>)
    requires a <= b
    ensures Ids(a) <= Ids(b)
  {
    forall x | x in Ids(a) ensures x in Ids(b) {
      var i :| 0 <= i < |a| && a[i].productId == x;
      assert b[i] == a[i];
    }
  }

  /** The fallback contract of a feed: primary candidates first and untouched, no product twice
      unless the primary feed repeats one, never more than the limit, and the additions are the
      fallback feeds' new products, feed by feed in order, each feed asked for what is missing
      at its turn. A short feed has every product of every fallback answer. */
  lemma FallbackKeepsPrimary(repo: Repository, r: Request) returns (cuts: seq<nat>)
    requires WithFallback(repo, r).Ok?
    ensures FallbackOrder(r.feedType) ==
      if r.feedType == "recommended" || r.feedType == "also_viewed" then ["trending", "best_sellers"] else []
    ensures forall feedType, have: nat ::
      FallbackRequest(r, feedType, have) == r.(feedType := feedType, limit := r.limit - have)
    ensures repo.candidates(r).Ok?
    ensures var p, m := repo.candidates(r).value, WithFallback(repo, r).value;
            && InOrder(repo, r, p, m, FallbackOrder(r.feedType), cuts)
            && |m| <= (if |p| > r.limit then |p| else r.limit)
            && (NoDuplicates(p) ==> NoDuplicates(m))
            && (forall k :: |p| <= k < |m| ==> m[k].productId !in Ids(p))
    ensures var m, types := WithFallback(repo, r).value, FallbackOrder(r.feedType);
            |m| < r.limit ==>
              |cuts| == |types| + 1 && forall n :: 0 <= n < |types| ==>
                Ids(repo.candidates(FallbackRequest(r, types[n], cuts[n])).value) <= Ids(m)
  {
    var p, m, types := repo.candidates(r).value, WithFallback(repo, r).value, FallbackOrder(r.feedType);
    cuts := MergeAllInOrder(repo, r, p, types);
    if |p| <= r.limit { MergeAllKeeps(repo, r, p, types); }
    if |m| < r.limit {
      forall n | 0 <= n < |types| ensures Ids(repo.candidates(FallbackRequest(r, types[n], cuts[n])).value) <= Ids(m) {
        ShortTurnShowsAll(repo, r, m, types[n], cuts[n], cuts[n + 1]);
      }
    }
  }

  // ----- The service -----

  const PublicFeeds: seq<string> := [
    Trending, BestSellers, "deals", "new_arrivals", "highly_rated", "most_wishlisted", "featured", "editorial"]

  predicate OneOf(s: string, list: seq<string>) {
    list != [] && (s == list[0] || OneOf(s, list[1..]))
  }

  predicate Cacheable(r: Request) {
    OneOf(r.feedType, PublicFeeds) || (r.feedType == Recommended && r.userId.Some?)
  }

  function ProductIds(cs: seq<Candidate>): (ids: seq<int>)
    ensures |ids| == |cs| && forall i :: 0 <= i < |cs| ==> ids[i] == cs[i].productId
  {
    if cs == [] then [] else ProductIds(cs[..|cs| - 1]) + [cs[|cs| - 1].productId]
  }

  /** The answer to a validated request without any cache. */
  function Answer(repo: Repository, r: Request): Cards {
    if r.feedType == CategoryFeed && r.categoryId.Some? && !repo.categoryExists(r.categoryId.value)
    then Err(CategoryNotFound)
    else
      match WithFallback(repo, r)
      case Err(e) => Err(e)
      case Ok(cs) => repo.hydrate(ProductIds(cs))
  }

  /** A category feed of an unknown category has no answer; otherwise the first error of the candidates or of
      their hydration is the answer, or the cards of the merged candidates in order. */
  lemma AnswerIs(repo: Repository, r: Request)
    ensures r.feedType == "category" && r.categoryId.Some? && !repo.categoryExists(r.categoryId.value) ==>
      Answer(repo, r) == Err(CategoryNotFound)
    ensures !(r.feedType == "category" && r.categoryId.Some? && !repo.categoryExists(r.categoryId.value)) ==>
      Answer(repo, r) ==
        match WithFallback(repo, r)
        case Err(e) => Err(e)
        case Ok(cs) => repo.hydrate(seq(|cs|, i requires 0 <= i < |cs| => cs[i].productId))
  {
    if WithFallback(repo, r).Ok? {
      var cs := WithFallback(repo, r).value;
      assert ProductIds(cs) == seq(|cs|, i requires 0 <= i < |cs| => cs[i].productId);
    }
  }

  /** The feeds that are cached, by name. */
  lemma CacheableMeans(r: Request)
    ensures Cacheable(r) <==>
      || r.feedType in ["trending", "best_sellers", "deals", "new_arrivals", "highly_rated", "most_wishlisted",
                        "featured", "editorial"]
      || (r.feedType == "recommended" && r.userId.Some?)
  {
    OneOfExactly(r.feedType, PublicFeeds);
  }

  lemma {:induction false} OneOfExactly(s: string, list: seq<string>)
    ensures OneOf(s, list) <==> s in list
  {
    if list != [] {
      OneOfExactly(s, list[1..]);
      assert list == [list[0]] + list[1..];
    }
  }

  const FeedCacheTtl := 120

  datatype CachedFeed = CachedFeed(cards: seq<ProductCard>, expiresAt: int)

  /** A request made at a time. */
  datatype Ask = Ask(request: Request, at: int)

  type Cache = map<string, CachedFeed>

  /** A live entry of the request in a cache that answers. */
  predicate Hits(lower: string -> string, cache: Cache, r: Request, now: int, up: bool) {
    up && Cacheable(r) && Key(lower, r) in cache && now < cache[Key(lower, r)].expiresAt
  }

  /** The cache after an answer has been stored, if it is one to store. */
  function AfterStore(lower: string -> string, cache: Cache, r: Request, answer: Cards, now: int, up: bool): Cache {
    if up && Cacheable(r) && answer.Ok? && answer.value != []
    then cache[Key(lower, r) := CachedFeed(answer.value, now + FeedCacheTtl)] else cache
  }

  class DiscoveryService {
    const repo: Repository
    /** strings.ToLower. */
    const lower: string -> string
    var cache: map<string, CachedFeed>
    /** Every validated request of a cacheable feed so far, and when it was made. */
    ghost var asked: set<Ask>

    constructor (repo: Repository, lower: string -> string)
      ensures this.repo == repo && this.lower == lower && Valid() && asked == {} && cache == map[]
    {
      this.repo, this.lower := repo, lower;
      cache := map[];
      asked := {};
    }

    /** Every cached feed is the answer to a request that was made under its key when it was stored. */
    ghost predicate Valid()
      reads this
    {
      && (forall a :: a in asked ==> Validated(a.request))
      && forall key :: key in cache ==> Sourced(key, cache[key])
    }

    ghost predicate Sourced(key: string, feed: CachedFeed)
      reads this`asked
    {
      exists a :: a in asked && IsSource(a, key, feed)
    }

    predicate IsSource(a: Ask, key: string, feed: CachedFeed) {
      Key(lower, a.request) == key && Answer(repo, a.request) == Ok(feed.cards) && feed.expiresAt == a.at + FeedCacheTtl
    }

    /** A request asked so recently that its feed may still be cached, under the key of n. */
    ghost predicate Rival(a: Ask, n: Request, now: int)
      reads this`asked
    {
      a in asked && now < a.at + FeedCacheTtl && Key(lower, a.request) == Key(lower, n)
    }

    /** Nothing asked in the last two minutes under the key of the request has texts or numbers that the
        key distorts, or else the request has no such texts and numbers itself. */
    ghost predicate OwnsKey(n: Request, now: int)
      reads this`asked
    {
      || (Textless(n) && Numberless(n))
      || (KeySafe(lower, n) && forall a :: Rival(a, n, now) ==> KeySafe(lower, a.request))
    }

    /** `up` says whether Redis answers. */
    method GetCachedFeed(r: Request, now: int, up: bool) returns (cards: Option<seq<ProductCard>>)
      ensures cards == if Hits(lower, cache, r, now, up) then Some(cache[Key(lower, r)].cards) else None
    {
      if !up || !Cacheable(r) { return None; }
      var key := BuildFeedCacheKey(lower, r);
      if key in cache && now < cache[key].expiresAt { return Some(cache[key].cards); }
      return None;
    }

    method StoreCachedFeed(r: Request, cards: seq<ProductCard>, now: int, up: bool)
      requires Valid() && (Cacheable(r) ==> Ask(r, now) in asked) && Answer(repo, r) == Ok(cards)
      modifies this`cache
      ensures Valid() && cache == AfterStore(lower, old(cache), r, Ok(cards), now, up)
    {
      if !up || !Cacheable(r) || |cards| == 0 { return; }
      var key := BuildFeedCacheKey(lower, r);
      AnswerIsSourced(r, cards, now);
      Put(key, CachedFeed(cards, now + FeedCacheTtl));
    }

    method Put(key: string, feed: CachedFeed)
      requires Valid() && Sourced(key, feed)
      modifies this`cache
      ensures Valid() && cache == old(cache)[key := feed]
    {
      cache := cache[key := feed];
    }

    lemma AnswerIsSourced(r: Request, cards: seq<ProductCard>, now: int)
      requires Ask(r, now) in asked && Answer(repo, r) == Ok(cards)
      ensures Sourced(Key(lower, r), CachedFeed(cards, now + FeedCacheTtl))
    {
      assert IsSource(Ask(r, now), Key(lower, r), CachedFeed(cards, now + FeedCacheTtl));
    }

    method GetFeedCandidatesWithFallback(req: FeedRequest) returns (r: Candidates)
      ensures r == WithFallback(repo, req.Value())
    {
      var primary := repo.candidates(req.Value());
      if primary.Err? { return primary; }
      var types := FallbackOrder(req.feedType);
      if |types| == 0 || |primary.value| >= req.limit { return primary; }

      var merged := primary.value;
      var seen := Ids(merged);
      for n := 0 to |types|
        invariant seen == Ids(merged)
        invariant WithFallback(repo, req.Value()) == MergeAll(repo, req.Value(), merged, types[n..])
      {
        if |merged| >= req.limit { break; }
        var fallback := req.Clone();
        fallback.feedType := types[n];
        fallback.limit := req.limit - |merged|;
        var more := repo.candidates(fallback.Value());
        assert types[n..][0] == types[n] && types[n..][1..] == types[n + 1..];
        if more.Err? { return more; }
        merged, seen := MergeLoop(merged, seen, more.value, req.limit);
      }
      return Ok(merged);
    }

    method MergeLoop(before: seq<Candidate>, seenBefore: set<int>, more: seq<Candidate>, limit: int)
      returns (merged: seq<Candidate>, seen: set<int>)
      requires seenBefore == Ids(before) && |before| < limit
      ensures merged == MergeOne(before, more, limit) && seen == Ids(merged)
    {
      merged, seen := before, seenBefore;
      for k := 0 to |more|
        invariant |merged| < limit && seen == Ids(merged)
        invariant merged == before + NewOnes(more[..k], Ids(before))
      {
        var c := more[k];
        assert more[..k + 1][..k] == more[..k];
        SeenOrNot(before, more[..k], c);
        if c.productId in seen { continue; }
        IdsSnoc(merged, c);
        seen := seen + {c.productId};
        merged := merged + [c];
        if |merged| >= limit {
          NewOnesPrefix(more, k + 1, Ids(before));
          return;
        }
      }
      assert more[..|more|] == more;
    }

    /** A live entry under the key is served; otherwise the answer is computed and stored. The answer is
        always that of some request made under the same key in the last two minutes, and it is the one
        there would be without a cache for a feed that is not cached, for a request with neither texts
        nor numbers, and whenever the requests of the last two minutes under the key are key-safe. */
    method GetFeed(req: FeedRequest?, now: int, up: bool) returns (r: Cards)
      requires Valid()
      modifies this, req
      ensures Valid()
      ensures req == null ==> r == Err(InvalidRequest) && asked == old(asked) && cache == old(cache)
      ensures req != null && !Acceptable(old(req.Value())) ==>
        r.Err? && FirstFailure(old(req.Value()), r.error) && asked == old(asked) && cache == old(cache)
      ensures req != null && Acceptable(old(req.Value())) ==>
        && NormalForm(old(req.Value()), req.Value()) && Validated(req.Value())
        && asked == old(asked) + (if Cacheable(req.Value()) then {Ask(req.Value(), now)} else {})
        && cache == (if Hits(lower, old(cache), req.Value(), now, up) then old(cache)
                     else AfterStore(lower, old(cache), req.Value(), r, now, up))
      ensures req != null && Acceptable(old(req.Value())) ==>
        && r == (if Hits(lower, old(cache), req.Value(), now, up) then Ok(old(cache)[Key(lower, req.Value())].cards)
                 else Answer(repo, req.Value()))
        && (r == Answer(repo, req.Value()) || exists a :: Rival(a, req.Value(), now) && r == Answer(repo, a.request))
        && (!Cacheable(req.Value()) || OwnsKey(req.Value(), now) ==> r == Answer(repo, req.Value()))
    {
      if req == null { return Err(InvalidRequest); }
      ghost var given := req.Value();
      var err := req.Validate();
      if err.Some? { return Err(err.value); }
      ValidateIdempotent(given, req.Value());
      r := ServeFeed(req, now, up);
    }

    /** What GetFeed does with a request that passed validation. */
    method ServeFeed(req: FeedRequest, now: int, up: bool) returns (r: Cards)
      requires Valid() && Validated(req.Value())
      modifies this
      ensures Valid() && asked == old(asked) + (if Cacheable(req.Value()) then {Ask(req.Value(), now)} else {})
      ensures cache == if Hits(lower, old(cache), req.Value(), now, up) then old(cache)
                       else AfterStore(lower, old(cache), req.Value(), r, now, up)
      ensures r == if Hits(lower, old(cache), req.Value(), now, up) then Ok(old(cache)[Key(lower, req.Value())].cards)
                   else Answer(repo, req.Value())
      ensures r == Answer(repo, req.Value()) || exists a :: Rival(a, req.Value(), now) && r == Answer(repo, a.request)
      ensures !Cacheable(req.Value()) || OwnsKey(req.Value(), now) ==> r == Answer(repo, req.Value())
    {
      ghost var n := req.Value();
      if Cacheable(n) { Record(Ask(n, now)); }
      CategoryIsKnown(n);
      if req.feedType == CategoryFeed && !repo.categoryExists(req.categoryId.value) {
        CategoryIsNotCached(n);
        return Err(CategoryNotFound);
      }
      var cached := GetCachedFeed(req.Value(), now, up);
      if cached.Some? {
        CachedIsAnswered(n, now);
        return Ok(cached.value);
      }
      r := ComputeFeed(req, now, up);
    }

    ghost method Record(a: Ask)
      requires Valid() && Validated(a.request)
      modifies this`asked
      ensures Valid() && asked == old(asked) + {a}
    {
      assert forall key :: key in cache ==> Sourced(key, cache[key]);
      asked := asked + {a};
      assert forall key :: key in cache ==> old(Sourced(key, cache[key]));
    }

    method ComputeFeed(req: FeedRequest, now: int, up: bool) returns (r: Cards)
      requires Valid() && (Cacheable(req.Value()) ==> Ask(req.Value(), now) in asked)
      requires req.feedType == CategoryFeed ==> req.categoryId.Some? && repo.categoryExists(req.categoryId.value)
      modifies this`cache
      ensures Valid() && r == Answer(repo, req.Value())
      ensures cache == AfterStore(lower, old(cache), req.Value(), r, now, up)
    {
      var candidates := GetFeedCandidatesWithFallback(req);
      if candidates.Err? { return Err(candidates.error); }
      r := repo.hydrate(ProductIds(candidates.value));
      if r.Ok? { StoreCachedFeed(req.Value(), r.value, now, up); }
    }

    /** A live entry is the answer to a recent request under its key, and to the request itself if that is
        the only one its key stands for. */
    lemma CachedIsAnswered(n: Request, now: int)
      requires Valid() && Validated(n)
      requires Key(lower, n) in cache && now < cache[Key(lower, n)].expiresAt
      ensures exists a :: Rival(a, n, now) && Ok(cache[Key(lower, n)].cards) == Answer(repo, a.request)
      ensures OwnsKey(n, now) ==> Ok(cache[Key(lower, n)].cards) == Answer(repo, n)
    {
      var key := Key(lower, n);
      assert Sourced(key, cache[key]);
      var a :| a in asked && IsSource(a, key, cache[key]);
      assert Rival(a, n, now);
      if OwnsKey(n, now) { SameRequest(lower, a.request, n); }
    }

    /** A validated request that misses and has a non-empty answer: the answer is stored. */
    method AskFirst(req: FeedRequest, now: int, ghost key: string, ghost cards: seq<ProductCard>)
      requires Valid() && Validated(req.Value()) && Cacheable(req.Value()) && Key(lower, req.Value()) == key
      requires key !in cache || cache[key].expiresAt <= now
      requires Answer(repo, req.Value()) == Ok(cards) && cards != []
      modifies this, req
      ensures Valid() && req.Value() == old(req.Value())
      ensures key in cache && cache[key] == CachedFeed(cards, now + FeedCacheTtl)
    {
      ghost var n := req.Value();
      var r := GetFeed(req, now, true);
      NormalFormUnique(n, req.Value(), n);
    }

    /** A validated request that hits: it is answered with the entry. */
    method AskAgain(req: FeedRequest, now: int, ghost key: string) returns (r: Cards)
      requires Valid() && Validated(req.Value()) && Cacheable(req.Value()) && Key(lower, req.Value()) == key
      requires key in cache && now < cache[key].expiresAt
      modifies this, req
      ensures req.Value() == old(req.Value()) && r == Ok(old(cache)[key].cards)
    {
      ghost var n := req.Value();
      r := GetFeed(req, now, true);
      NormalFormUnique(n, req.Value(), n);
    }

    /** Two requests under one key within two minutes: the second gets the answer of the first, which is
        not its own. */
    method SharedKey(first: FeedRequest, second: FeedRequest, t: int, u: int, ghost key: string,
                     ghost cards: seq<ProductCard>)
      returns (r: Cards)
      requires Valid() && first != second && t <= u < t + 120
      requires Validated(first.Value()) && Cacheable(first.Value()) && Key(lower, first.Value()) == key
      requires Validated(second.Value()) && Cacheable(second.Value()) && Key(lower, second.Value()) == key
      requires key !in cache || cache[key].expiresAt <= t
      requires Answer(repo, first.Value()) == Ok(cards) && cards != [] && Answer(repo, second.Value()) != Ok(cards)
      modifies this, first, second
      ensures first.Value() == old(first.Value()) && second.Value() == old(second.Value())
      ensures r == Answer(repo, first.Value()) && r != Answer(repo, second.Value())
    {
      ghost var b := second.Value();
      AskFirst(first, t, key, cards);
      assert second.Value() == b;
      r := AskAgain(second, u, key);
    }
  }

  /** A stored answer is hit for two minutes under its key, and by every cacheable request with that key. */
  lemma StoredForTwoMinutes(lower: string -> string, cache: Cache, r: Request, n: Request, cards: seq<ProductCard>,
                            now: int, later: int)
    requires Cacheable(r) && Cacheable(n) && Key(lower, n) == Key(lower, r) && cards != []
    ensures Hits(lower, AfterStore(lower, cache, r, Ok(cards), now, true), n, later, true) <==> later < now + 120
  {
  }

  /** Validated requests under one key are the same if one of them has neither texts nor numbers, or both
      are key-safe. */
  lemma SameRequest(lower: string -> string, a: Request, n: Request)
    requires Validated(a) && Validated(n) && Key(lower, a) == Key(lower, n)
    requires (Textless(n) && Numberless(n)) || (KeySafe(lower, n) && KeySafe(lower, a))
    ensures a == n
  {
    if Textless(n) && Numberless(n) {
      NumberlessKeyIsOwn(lower, n, a);
    } else {
      SafeKeyIsOwn(lower, a, n);
    }
  }

  /** Two different requests that the service accepts and caches, and that share a key: one
      session with a colon against a session and a category. */
  lemma ColonSessionCollides(lower: string -> string, r: Request, session: string, category: int)
    requires Validated(r) && Cacheable(r) && session != "" && Trimmed(session) && category > 0
    ensures var text := "category" + "=" + FormatInt(category);
            var a := r.(sessionId := Some(session + (":" + text)), categoryId := None);
            var b := r.(sessionId := Some(session), categoryId := Some(category));
            && Validated(a) && Validated(b) && Cacheable(a) && Cacheable(b)
            && a != b && Key(lower, a) == Key(lower, b)
  {
    var text := "category" + "=" + FormatInt(category);
    var long := session + (":" + text);
    assert long[0] == session[0] && long[|long| - 1] == FormatInt(category)[|FormatInt(category)| - 1];
    TrimTrimmed(long);
    TrimTrimmed(session);
    CacheableIsPublic(r);
    SessionKeepsValid(r, long, None);
    SessionKeepsValid(r, session, Some(category));
    ColonSessionPrints(PrintedOf(lower, r), session, category);
  }

  /** Two more: a query with a colon against a query and a brand filter, of texts that strings.ToLower
      leaves alone. */
  lemma ColonQueryCollides(lower: string -> string, r: Request, query: string, ids: seq<int>)
    requires Validated(r) && Cacheable(r) && query != "" && Trimmed(query)
    requires ids != [] && StrictlySorted(ids) && PositiveIds(ids)
    requires lower(query) == query
    requires var long := query + (":" + ("brands" + "=" + IdsText(ids).value)); lower(long) == long
    ensures var text := "brands" + "=" + IdsText(ids).value;
            var a := r.(query := Some(query + (":" + text)), filters := r.filters.(brandIds := []));
            var b := r.(query := Some(query), filters := r.filters.(brandIds := ids));
            && Validated(a) && Validated(b) && Cacheable(a) && Cacheable(b)
            && a != b && Key(lower, a) == Key(lower, b)
  {
    var text := "brands" + "=" + IdsText(ids).value;
    var long := query + (":" + text);
    var a := r.(query := Some(long), filters := r.filters.(brandIds := []));
    var b := r.(query := Some(query), filters := r.filters.(brandIds := ids));
    CacheableIsPublic(r);
    IdsTextEnds(ids);
    TrimmedTogether(query, ":" + ("brands" + "="), IdsText(ids).value);
    assert query + (":" + ("brands" + "=")) + IdsText(ids).value == long;
    TrimTrimmed(query);
    QueryKeepsValid(r, long, []);
    QueryKeepsValid(r, query, ids);
    SortOfSorted(ids);
    SortOfSorted([]);
    ColonQueryPrints(PrintedOf(lower, r), query, ids);
    assert PrintedOf(lower, a) == PrintedOf(lower, r).(query := Some(long), brandIds := []);
    assert PrintedOf(lower, b) == PrintedOf(lower, r).(query := Some(query), brandIds := ids);
  }

  lemma TrimmedTogether(start: string, middle: string, end: string)
    requires start != "" && Trimmed(start) && end != "" && IsDigit(end[|end| - 1])
    ensures TrimSpace(start + middle + end) == start + middle + end
  {
    var s := start + middle + end;
    assert s[0] == start[0] && s[|s| - 1] == end[|end| - 1];
    TrimTrimmed(s);
  }

  lemma SortOfSorted(ids: seq<int>)
    requires StrictlySorted(ids)
    ensures Sort(ids) == ids
  {
    SortSorted(ids);
    SortedUnique(Sort(ids), ids);
  }

  /** Printed ids end in a digit. */
  lemma {:induction false} IdsTextEnds(ids: seq<int>)
    requires ids != []
    ensures IdsText(ids).value != "" && IsDigit(IdsText(ids).value[|IdsText(ids).value| - 1])
  {
    var texts := IdTexts(ids);
    JoinEnds(texts, ",");
    assert texts[|texts| - 1] == FormatInt(ids[|ids| - 1]);
  }

  lemma {:induction false} JoinEnds(texts: seq<string>, sep: string)
    requires texts != [] && texts[|texts| - 1] != ""
    ensures var s, last := Join(texts, sep), texts[|texts| - 1]; s != "" && s[|s| - 1] == last[|last| - 1]
  {
    if |texts| > 1 { JoinEnds(texts[1..], sep); }
  }

  lemma QueryKeepsValid(r: Request, query: string, brands: seq<int>)
    requires Validated(r) && r.feedType != Search && query != "" && TrimSpace(query) == query
    requires StrictlySorted(brands) && PositiveIds(brands)
    ensures Validated(r.(query := Some(query), filters := r.filters.(brandIds := brands)))
  {
    var a := r.(query := Some(query), filters := r.filters.(brandIds := brands));
    assert Trim(r) == r && Trim(a) == a;
    forall e ensures !Fails(a, e) {
      assert !Fails(r, e);
    }
    assert NormalFilters(a.filters, a.filters);
  }

  lemma CacheableIsPublic(r: Request)
    requires Cacheable(r)
    ensures r.feedType != CategoryFeed && r.feedType != Search
  {
    assert Trending[0] == 't' && "featured"[0] == 'f' && Recommended[0] == 'r' && CategoryFeed[0] == 'c';
    assert Search[0] == 's';
    OneOfExactly(r.feedType, PublicFeeds);
  }

  lemma SessionKeepsValid(r: Request, session: string, category: Option<int>)
    requires Validated(r) && r.feedType != CategoryFeed && session != "" && TrimSpace(session) == session
    requires category.Some? ==> category.value > 0
    ensures Validated(r.(sessionId := Some(session), categoryId := category))
  {
    var a := r.(sessionId := Some(session), categoryId := category);
    assert Trim(r) == r && Trim(a) == a;
    forall e ensures !Fails(a, e) {
      assert !Fails(r, e);
    }
  }

  lemma CategoryIsNotCached(n: Request)
    requires n.feedType == CategoryFeed
    ensures !Cacheable(n)
  {
    if Cacheable(n) { CacheableIsPublic(n); }
  }

  lemma CategoryIsKnown(n: Request)
    requires Validated(n)
    ensures n.feedType == CategoryFeed ==> n.categoryId.Some?
  {
    assert !Fails(n, CategoryRequired);
  }

  lemma SeenOrNot(before: seq<Candidate>, more: seq<Candidate>, c: Candidate)
    ensures c.productId in Ids(before + NewOnes(more, Ids(before))) <==>
            c.productId in Ids(before) || c.productId in Ids(more)
  {
    NewOnesAreNew(more, Ids(before));
    IdsConcat(before, NewOnes(more, Ids(before)));
  }

  lemma IdsConcat(a: seq<Candidate>, b: seq<Candidate>)
    ensures Ids(a + b) == Ids(a) + Ids(b)
  {
    forall x | x in Ids(b) ensures x in Ids(a + b) {
      var i :| 0 <= i < |b| && b[i].productId == x;
      assert (a + b)[|a| + i] == b[i];
    }
    IdsOfPrefix(a, a + b);
  }

  lemma {:induction false} NewOnesPrefix(more: seq<Candidate>, k: nat, seen: set<int>)
    requires k <= |more|
    ensures NewOnes(more[..k], seen) <= NewOnes(more, seen)
    decreases |more|
  {
    if k < |more| {
      assert more[..|more| - 1][..k] == more[..k];
      NewOnesPrefix(more[..|more| - 1], k, seen);
    } else {
      assert more[..k] == more;
    }
  }
}
