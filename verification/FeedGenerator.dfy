/** The merchant feed run: keyset pagination over the eligible variants, with the stock filter
    applied after the batch limit, and the counters of the run. */
module FeedGenerator {
  import opened Common
  import opened Sql
  import opened Text
  import opened FeedImages

  datatype Item = Item(
    id: string, title: string, link: string, mobileLink: string, imageLink: string,
    additionalImageLinks: seq<string>, price: string, availability: string, condition: string)

  /** One inventory row of the variant. */
  datatype Stock = Stock(available: int, reserved: int)

  /** A variant with what the eligibility rules read of its product. `ancestors` are the
      product's categories and all categories above them. */
  datatype Variant = Variant(
    id: int, isActive: bool, productStatus: string, isDigital: bool, brandId: Option<int>, ancestors: set<int>,
    productUpdatedAt: int, createdAt: int, stock: seq<Stock>, item: Item)

  datatype Filter = Filter(
    inStockOnly: bool, activeOnly: bool, excludeDigital: bool, categoryIds: seq<int>, brandIds: seq<int>,
    updatedAfter: Option<int>, cursor: int, limit: nat)

  // ----- The two queries -----

  function LoadArgs(f: Filter): seq<Value> {
    [Int(f.cursor), Int(f.limit), Bool(f.activeOnly), Bool(f.inStockOnly), Bool(f.excludeDigital),
     Ints(f.categoryIds), Ints(f.brandIds), if f.updatedAfter.None? then Null else Int(f.updatedAfter.value)]
  }

  function CountArgs(f: Filter): seq<Value> {
    [Bool(f.activeOnly), Bool(f.inStockOnly), Bool(f.excludeDigital),
     Ints(f.categoryIds), Ints(f.brandIds), if f.updatedAfter.None? then Null else Int(f.updatedAfter.value)]
  }

  /** The eligibility conditions both queries spell out, each with its own placeholders. */
  predicate Gate(v: Variant, args: seq<Value>, active: int, digital: int, categories: int, brands: int, since: int) {
    && v.isActive
    && (Arg(args, active) == Bool(false) || v.productStatus == "active")
    && v.productStatus != "archived"
    && (Arg(args, digital) == Bool(false) || !v.isDigital)
    && (Arg(args, brands) == Ints([]) ||
        (Arg(args, brands).Ints? && v.brandId.Some? && v.brandId.value in Arg(args, brands).ints))
    && (Arg(args, categories) == Ints([]) ||
        (Arg(args, categories).Ints? && exists c :: c in Arg(args, categories).ints && c in v.ancestors))
    && (Arg(args, since).Null? ||
        (Arg(args, since).Int? && (v.productUpdatedAt > Arg(args, since).i || v.createdAt > Arg(args, since).i)))
  }

  function SumAvailable(stock: seq<Stock>): int {
    if stock == [] then 0 else SumAvailable(stock[1..]) + stock[0].available
  }

  function SumReserved(stock: seq<Stock>): int {
    if stock == [] then 0 else SumReserved(stock[1..]) + stock[0].reserved
  }

  /** stock_filtered: sums over a LEFT JOIN, 0 without inventory rows. */
  predicate StockFiltered(v: Variant, args: seq<Value>) {
    Arg(args, 4) == Bool(false) || SumAvailable(v.stock) - SumReserved(v.stock) > 0
  }

  /** The count's EXISTS: a group exists only when the variant has inventory rows. */
  predicate StockExists(v: Variant, args: seq<Value>) {
    Arg(args, 2) == Bool(false) || (v.stock != [] && SumAvailable(v.stock) - SumReserved(v.stock) > 0)
  }

  predicate Counted(v: Variant, f: Filter) {
    Gate(v, CountArgs(f), 1, 3, 4, 5, 6) && StockExists(v, CountArgs(f))
  }

  predicate Loaded(v: Variant, f: Filter) {
    Gate(v, LoadArgs(f), 3, 5, 6, 7, 8)
  }

  /** Ids come from a sequence that starts at 1, and the table is read in id order. */
  ghost predicate Ordered(table: seq<Variant>) {
    && (forall i :: 0 <= i < |table| ==> table[i].id > 0)
    && forall i, j :: 0 <= i < j < |table| ==> table[i].id < table[j].id
  }

  function IsCounted(f: Filter): Variant -> bool {
    (v: Variant) => Counted(v, f)
  }

  function LoadedAfter(f: Filter): Variant -> bool {
    (v: Variant) => v.id > f.cursor && Loaded(v, f)
  }

  function PassesStock(f: Filter): Variant -> bool {
    (v: Variant) => StockFiltered(v, LoadArgs(f))
  }

  function CountEligibleVariants(table: seq<Variant>, f: Filter): nat {
    |Select(table, IsCounted(f))|
  }

  datatype Batch = Batch(items: seq<Variant>, nextCursor: int, hasMore: bool)

  /** queryLoadFeedBatch and its scan: eligible after the cursor, limited, then stock-filtered. */
  function LoadFeedBatch(table: seq<Variant>, f: Filter): Batch {
    var gate := Page(Select(table, LoadedAfter(f)), f.limit, 0);
    var items := Select(gate, PassesStock(f));
    Batch(items, if items == [] then 0 else items[|items| - 1].id, |items| == f.limit)
  }

  // ----- What the queries mean -----

  /** The eligibility rules, in terms of the filter. */
  predicate Eligible(v: Variant, f: Filter) {
    && v.isActive && v.productStatus != "archived"
    && (f.activeOnly ==> v.productStatus == "active")
    && (f.excludeDigital ==> !v.isDigital)
    && (f.brandIds != [] ==> v.brandId.Some? && v.brandId.value in f.brandIds)
    && (f.categoryIds != [] ==> exists c :: c in f.categoryIds && c in v.ancestors)
    && (f.updatedAfter.Some? ==> v.productUpdatedAt > f.updatedAfter.value || v.createdAt > f.updatedAfter.value)
  }

  /** The sums are over all rows: available less reserved of each. */
  lemma {:induction false} StockAddsUp(stock: seq<Stock>, more: seq<Stock>)
    ensures SumAvailable(stock + more) - SumReserved(stock + more) ==
      (SumAvailable(stock) - SumReserved(stock)) + (SumAvailable(more) - SumReserved(more))
    ensures forall row: Stock :: SumAvailable([row]) - SumReserved([row]) == row.available - row.reserved
  {
    if stock == [] {
      assert stock + more == more;
    } else {
      assert (stock + more)[1..] == stock[1..] + more;
      StockAddsUp(stock[1..], more);
    }
  }

  predicate Wanted(v: Variant, f: Filter) {
    f.inStockOnly ==> SumAvailable(v.stock) - SumReserved(v.stock) > 0
  }

  function Wants(f: Filter): Variant -> bool {
    (v: Variant) => Wanted(v, f)
  }

  function IsEligible(f: Filter): Variant -> bool {
    (v: Variant) => Eligible(v, f)
  }

  function EligibleAfter(f: Filter, cursor: int): Variant -> bool {
    (v: Variant) => v.id > cursor && Eligible(v, f)
  }

  function IdAfter(id: int): Variant -> bool {
    (v: Variant) => v.id > id
  }

  /** Although their parameters are numbered differently, both queries apply the same rules. */
  lemma QueriesMeanFilter(v: Variant, f: Filter)
    ensures Loaded(v, f) <==> Eligible(v, f)
    ensures StockFiltered(v, LoadArgs(f)) <==> Wanted(v, f)
    ensures Counted(v, f) <==> Eligible(v, f) && Wanted(v, f)
    ensures Loaded(v, f) <==>
      && v.isActive && v.productStatus != "archived" && (f.activeOnly ==> v.productStatus == "active")
      && (f.excludeDigital ==> !v.isDigital)
      && (f.brandIds != [] ==> v.brandId.Some? && v.brandId.value in f.brandIds)
      && (f.categoryIds != [] ==> exists c :: c in f.categoryIds && c in v.ancestors)
      && (f.updatedAfter.Some? ==> v.productUpdatedAt > f.updatedAfter.value || v.createdAt > f.updatedAfter.value)
  {
    var a, b := LoadArgs(f), CountArgs(f);
    assert Arg(a, 3) == Arg(b, 1) == Bool(f.activeOnly) && Arg(a, 4) == Arg(b, 2) == Bool(f.inStockOnly);
    assert Arg(a, 5) == Arg(b, 3) == Bool(f.excludeDigital) && Arg(a, 6) == Arg(b, 4) == Ints(f.categoryIds);
    assert Arg(a, 7) == Arg(b, 5) == Ints(f.brandIds) && Arg(a, 8) == Arg(b, 6);
  }

  // ----- The run -----

  datatype Outcome = Valid | Invalid | NoImage

  predicate IsValidHttpsUrl(u: string) {
    StartsWith(u, Https) && |u| > 10
  }

  const Placeholder := "__STORE_URL__"

  function ResolveLink(link: string, base: string): string {
    if StartsWith(link, Placeholder) then base + link[|Placeholder|..] else link
  }

  predicate IsBlank(c: char) {
    c == ' ' || c == '\t'
  }

  /** Two or more blanks in a row become one space. */
  function Collapse(s: string): string
    decreases |s|
  {
    if s == "" then ""
    else if |s| == 1 || !IsBlank(s[0]) || !IsBlank(s[1]) then [s[0]] + Collapse(s[1..])
    else " " + Collapse(AfterBlanks(s))
  }

  function AfterBlanks(s: string): (rest: string)
    ensures |rest| <= |s| && (s != "" && IsBlank(s[0]) ==> |rest| < |s|)
    ensures rest != "" ==> !IsBlank(rest[0])
  {
    if s != "" && IsBlank(s[0]) then AfterBlanks(s[1..]) else s
  }

  /** Trimmed, blanks collapsed, cut at 150 characters. */
  function NormaliseTitle(title: string): string {
    var t := Collapse(TrimSpace(title));
    if |t| > 150 then t[..150] else t
  }

  predicate NoDoubleBlanks(s: string) {
    forall i :: 0 < i < |s| ==> !(IsBlank(s[i - 1]) && IsBlank(s[i]))
  }

  lemma {:induction false} CollapseMeans(s: string)
    ensures NoDoubleBlanks(Collapse(s))
    ensures s != "" ==> Collapse(s) != ""
    ensures s != "" && !IsBlank(s[0]) ==> Collapse(s)[0] == s[0]
    decreases |s|
  {
    if s != "" {
      if |s| == 1 || !IsBlank(s[0]) || !IsBlank(s[1]) {
        CollapseMeans(s[1..]);
        if |s| > 1 && IsBlank(s[0]) { assert s[1..][0] == s[1]; }
      } else {
        CollapseMeans(AfterBlanks(s));
      }
    }
  }

  lemma {:induction false} CollapseKeeps(s: string)
    requires NoDoubleBlanks(s)
    ensures Collapse(s) == s
  {
    if s != "" {
      NoDoubleBlanksBehind(s);
      CollapseKeeps(s[1..]);
      assert [s[0]] + s[1..] == s;
    }
  }

  lemma NoDoubleBlanksBehind(s: string)
    requires NoDoubleBlanks(s) && s != ""
    ensures NoDoubleBlanks(s[1..]) && (|s| > 1 ==> !IsBlank(s[0]) || !IsBlank(s[1]))
  {
    var rest := s[1..];
    forall i | 0 < i < |rest| ensures !(IsBlank(rest[i - 1]) && IsBlank(rest[i])) {
      assert rest[i - 1] == s[i] && rest[i] == s[i + 1];
      assert !(IsBlank(s[i + 1 - 1]) && IsBlank(s[i + 1]));
    }
    if |s| > 1 { assert !(IsBlank(s[1 - 1]) && IsBlank(s[1])); }
  }

  /** A prepared title is blank exactly if the given one is; it has no two blanks in a row and at most 150
      characters, and a title that is trimmed and like that already stays as it is. */
  lemma TitleIs(title: string)
    ensures TrimSpace(NormaliseTitle(title)) == "" <==> TrimSpace(title) == ""
    ensures NoDoubleBlanks(NormaliseTitle(title)) && |NormaliseTitle(title)| <= 150
    ensures Trimmed(title) && NoDoubleBlanks(title) && |title| <= 150 ==> NormaliseTitle(title) == title
  {
    var trimmed, t := TrimSpace(title), NormaliseTitle(title);
    CollapseMeans(trimmed);
    if trimmed != "" {
      assert t[0] == trimmed[0] && !IsSpace(t[0]);
      assert TrimLeft(t) == t;
      FirstStays(t);
    }
    if Trimmed(title) && NoDoubleBlanks(title) {
      TrimTrimmed(title);
      CollapseKeeps(title);
    }
  }

  lemma {:induction false} FirstStays(t: string)
    requires t != "" && !IsSpace(t[0])
    ensures TrimRight(t) != ""
  {
    if |t| > 1 && IsSpace(t[|t| - 1]) { FirstStays(t[..|t| - 1]); }
  }

  /** Link resolution and the normalisation of title and images of one item. */
  function Normalise(item: Item, base: string): Item {
    var link, image := ResolveLink(item.link, base), NormaliseUrl(item.imageLink);
    item.(title := NormaliseTitle(item.title), link := link, mobileLink := link, imageLink := image,
          additionalImageLinks := FirstTen(Distinct(image, item.additionalImageLinks)))
  }

  predicate ValidItem(item: Item) {
    && item.id != "" && TrimSpace(item.title) != ""
    && IsValidHttpsUrl(item.link) && IsValidHttpsUrl(item.imageLink)
    && item.price != ""
    && item.availability in ["in_stock", "out_of_stock", "preorder", "backorder"]
    && item.condition in ["new", "refurbished", "used"]
  }

  function OutcomeOf(item: Item): Outcome {
    if item.imageLink == "" then NoImage else if ValidItem(item) then Valid else Invalid
  }

  /** How a run prepares and judges items. */
  datatype Rules = Rules(normalise: Item -> Item, judge: Item -> Outcome)

  function FeedRules(base: string): Rules {
    Rules((i: Item) => Normalise(i, base), OutcomeOf)
  }

  function Has(rules: Rules, o: Outcome): Item -> bool {
    (i: Item) => rules.judge(i) == o
  }

  function Items(vs: seq<Variant>, rules: Rules): (items: seq<Item>)
    ensures |items| == |vs| && forall i :: 0 <= i < |vs| ==> items[i] == rules.normalise(vs[i].item)
  {
    if vs == [] then [] else Items(vs[..|vs| - 1], rules) + [rules.normalise(vs[|vs| - 1].item)]
  }

  function CountOf(items: seq<Item>, rules: Rules, o: Outcome): nat {
    |Select(items, Has(rules, o))|
  }

  datatype FeedBatch = FeedBatch(items: seq<Item>, totalCount: nat)

  datatype Report = Report(batches: seq<FeedBatch>, total: nat, valid: nat, invalid: nat, skippedNoImage: nat)

  function Published(batches: seq<FeedBatch>): seq<Item> {
    if batches == [] then [] else Published(batches[..|batches| - 1]) + batches[|batches| - 1].items
  }

  /** The variants a run looks at, given the eligible ones in id order: whole batches while every
      variant of the batch is wanted, and the wanted ones of the first batch where not. */
  function Visited(e: seq<Variant>, f: Filter): seq<Variant>
    requires f.limit > 0
    decreases |e|
  {
    if e == [] then [] else
      var items := Select(Page(e, f.limit, 0), Wants(f));
      if |items| < f.limit then items else items + Visited(e[f.limit..], f)
  }

  function EligibleVariants(table: seq<Variant>, f: Filter): seq<Variant> {
    Select(table, IsEligible(f))
  }

  /** Every outcome of the visited variants is published or counted. */
  ghost predicate Reports(r: Report, visited: seq<Variant>, rules: Rules, total: nat) {
    var items := Items(visited, rules);
    && Published(r.batches) == Select(items, Has(rules, Valid))
    && r.valid == CountOf(items, rules, Valid) && r.invalid == CountOf(items, rules, Invalid)
    && r.skippedNoImage == CountOf(items, rules, NoImage) && r.total == total
  }

  /** The variants the remaining batches will look at. */
  function After(table: seq<Variant>, f: Filter, cursor: int): seq<Variant> {
    Select(table, EligibleAfter(f, cursor))
  }

  method Classify(loaded: seq<Variant>, rules: Rules) returns (items: seq<Item>, valid: nat, invalid: nat, skipped: nat)
    ensures items == Select(Items(loaded, rules), Has(rules, Valid))
    ensures valid == CountOf(Items(loaded, rules), rules, Valid)
    ensures invalid == CountOf(Items(loaded, rules), rules, Invalid)
    ensures skipped == CountOf(Items(loaded, rules), rules, NoImage)
  {
    items, valid, invalid, skipped := [], 0, 0, 0;
    ghost var all := Items(loaded, rules);
    for n := 0 to |loaded|
      invariant items == Select(all[..n], Has(rules, Valid))
      invariant valid == CountOf(all[..n], rules, Valid) && invalid == CountOf(all[..n], rules, Invalid)
      invariant skipped == CountOf(all[..n], rules, NoImage)
    {
      assert all[..n + 1][..n] == all[..n];
      var item := rules.normalise(loaded[n].item);
      match rules.judge(item) {
        case NoImage => skipped := skipped + 1;
        case Invalid => invalid := invalid + 1;
        case Valid =>
          valid := valid + 1;
          items := items + [item];
      }
    }
    assert all[..|all|] == all;
  }

  /** What has been seen and what the remaining batches will visit are all a run visits. */
  ghost predicate Progress(table: seq<Variant>, f: Filter, seen: seq<Variant>, cursor: int)
    requires f.limit > 0
  {
    Visited(EligibleVariants(table, f), f) == seen + Visited(After(table, f, cursor), f)
  }

  /** A full or incremental run over an unchanging table. */
  method Run(table: seq<Variant>, given: Filter, rules: Rules) returns (r: Report)
    requires Ordered(table) && given.limit > 0
    ensures Reports(r, Visited(EligibleVariants(table, given), given), rules, CountEligibleVariants(table, given))
  {
    var f := given;
    var total := CountEligibleVariants(table, f);
    var cursor := 0;
    r := Report([], total, 0, 0, 0);
    ghost var seen: seq<Variant> := [];
    StartOfRun(table, given, rules, r);
    while true
      invariant f == given.(cursor := f.cursor)
      invariant Reports(r, seen, rules, total) && Progress(table, given, seen, cursor)
      decreases |After(table, given, cursor)|
    {
      f := f.(cursor := cursor);
      var batch := LoadFeedBatch(table, f);
      BatchProgress(table, given, seen, cursor, batch);
      if |batch.items| == 0 { break; }
      r := Publish(r, batch.items, rules, seen);
      seen := seen + batch.items;
      if !batch.hasMore { break; }
      cursor := batch.nextCursor;
    }
  }

  /** Publishes the valid items of a batch and counts the others. */
  method Publish(before: Report, loaded: seq<Variant>, rules: Rules, ghost seen: seq<Variant>) returns (r: Report)
    requires Reports(before, seen, rules, before.total)
    ensures Reports(r, seen + loaded, rules, before.total)
  {
    var items, valid, invalid, skipped := Classify(loaded, rules);
    ReportNext(before, seen, loaded, rules, before.total, items);
    r := Report(before.batches + [FeedBatch(items, before.total)], before.total, before.valid + valid,
                before.invalid + invalid, before.skippedNoImage + skipped);
  }

  /** What one turn of the loop does to the progress of a run. */
  lemma BatchProgress(table: seq<Variant>, f: Filter, seen: seq<Variant>, cursor: int, b: Batch)
    requires Ordered(table) && f.limit > 0 && Progress(table, f, seen, cursor)
    requires b == LoadFeedBatch(table, f.(cursor := cursor))
    ensures b.items == [] ==> Visited(EligibleVariants(table, f), f) == seen
    ensures !b.hasMore ==> Visited(EligibleVariants(table, f), f) == seen + b.items
    ensures b.hasMore ==> Progress(table, f, seen + b.items, b.nextCursor)
    ensures b.hasMore ==> |After(table, f, b.nextCursor)| < |After(table, f, cursor)|
  {
    var e := After(table, f, cursor);
    BatchIsPage(table, f, cursor);
    if b.hasMore {
      NextCursor(table, f, cursor);
      VisitedSplit(e, f);
      assert e[..f.limit] + e[f.limit..] == e;
    } else {
      VisitedEnds(e, f);
    }
  }

  lemma VisitedEnds(e: seq<Variant>, f: Filter)
    requires f.limit > 0 && |Select(Page(e, f.limit, 0), Wants(f))| != f.limit
    ensures Visited(e, f) == Select(Page(e, f.limit, 0), Wants(f))
  {
  }

  lemma VisitedSplit(e: seq<Variant>, f: Filter)
    requires 0 < f.limit <= |e| && |Select(Page(e, f.limit, 0), Wants(f))| == f.limit
    ensures Visited(e, f) == Select(Page(e, f.limit, 0), Wants(f)) + Visited(e[f.limit..], f)
  {
  }

  lemma StartOfRun(table: seq<Variant>, f: Filter, rules: Rules, r: Report)
    requires Ordered(table) && f.limit > 0 && r == Report([], CountEligibleVariants(table, f), 0, 0, 0)
    ensures Progress(table, f, [], 0) && Reports(r, [], rules, CountEligibleVariants(table, f))
  {
    SelectSame(table, EligibleAfter(f, 0), IsEligible(f));
    assert Items([], rules) == [];
  }

  /** One batch holds the wanted variants among the next eligible ones. */
  lemma BatchIsPage(table: seq<Variant>, f: Filter, cursor: int)
    ensures LoadFeedBatch(table, f.(cursor := cursor)).items ==
            Select(Page(After(table, f, cursor), f.limit, 0), Wants(f))
  {
    var g := f.(cursor := cursor);
    forall v ensures Loaded(v, g) <==> Eligible(v, f) { QueriesMeanFilter(v, g); }
    SelectSame(table, LoadedAfter(g), EligibleAfter(f, cursor));
    var gate := Page(After(table, f, cursor), f.limit, 0);
    forall v ensures StockFiltered(v, LoadArgs(g)) <==> Wanted(v, f) { QueriesMeanFilter(v, g); }
    SelectSame(gate, PassesStock(g), Wants(f));
  }

  lemma {:induction false} SelectConcat<T(!new)>(a: seq<T>, b: seq<T>, keep: T -> bool)
    ensures Select(a + b, keep) == Select(a, keep) + Select(b, keep)
  {
    if b == [] {
      assert a + b == a;
    } else {
      assert (a + b)[..|a + b| - 1] == a + b[..|b| - 1];
      SelectConcat(a, b[..|b| - 1], keep);
    }
  }

  lemma {:induction false} PublishedSnoc(batches: seq<FeedBatch>, b: FeedBatch)
    ensures Published(batches + [b]) == Published(batches) + b.items
  {
    assert (batches + [b])[..|batches|] == batches;
  }

  lemma ReportNext(r: Report, seen: seq<Variant>, more: seq<Variant>, rules: Rules, total: nat, items: seq<Item>)
    requires Reports(r, seen, rules, total)
    requires items == Select(Items(more, rules), Has(rules, Valid))
    ensures var m := Items(more, rules);
            Reports(Report(r.batches + [FeedBatch(items, total)], total, r.valid + CountOf(m, rules, Valid),
                           r.invalid + CountOf(m, rules, Invalid), r.skippedNoImage + CountOf(m, rules, NoImage)),
                    seen + more, rules, total)
  {
    ItemsConcat(seen, more, rules);
    var a, b := Items(seen, rules), Items(more, rules);
    SelectConcat(a, b, Has(rules, Valid));
    SelectConcat(a, b, Has(rules, Invalid));
    SelectConcat(a, b, Has(rules, NoImage));
    PublishedSnoc(r.batches, FeedBatch(items, total));
  }

  lemma ItemsConcat(a: seq<Variant>, b: seq<Variant>, rules: Rules)
    ensures Items(a + b, rules) == Items(a, rules) + Items(b, rules)
  {
  }

  lemma {:induction false} SelectOrdered(table: seq<Variant>, keep: Variant -> bool)
    requires Ordered(table)
    ensures Ordered(Select(table, keep))
  {
    if table != [] {
      var n := |table| - 1;
      SelectOrdered(table[..n], keep);
      SelectMembers(table[..n], keep);
      assert forall v :: v in table[..n] ==> v.id < table[n].id;
    }
  }

  /** The ids after the n-th of an ordered selection are the rest of it. */
  lemma AfterPosition(table: seq<Variant>, f: Filter, e: seq<Variant>, n: nat, cursor: int)
    requires Ordered(e) && e == After(table, f, cursor) && 0 < n <= |e|
    ensures cursor < e[n - 1].id && After(table, f, e[n - 1].id) == e[n..]
  {
    var next := e[n - 1].id;
    assert e[n - 1] in e;
    SelectMembers(table, EligibleAfter(f, cursor));
    AfterLater(table, f, cursor, next);
    SelectAfter(e, n);
  }

  lemma AfterLater(table: seq<Variant>, f: Filter, cursor: int, next: int)
    requires cursor < next
    ensures Select(After(table, f, cursor), IdAfter(next)) == After(table, f, next)
  {
    var p, q := EligibleAfter(f, cursor), IdAfter(next);
    SelectTwice(table, p, q);
    SelectSame(table, Both(p, q), EligibleAfter(f, next));
  }

  function Both<T>(p: T -> bool, q: T -> bool): T -> bool {
    (x: T) => p(x) && q(x)
  }

  lemma {:induction false} SelectTwice<T(!new)>(s: seq<T>, p: T -> bool, q: T -> bool)
    ensures Select(Select(s, p), q) == Select(s, Both(p, q))
  {
    if s != [] {
      var n := |s| - 1;
      SelectTwice(s[..n], p, q);
      SelectConcat(Select(s[..n], p), if p(s[n]) then [s[n]] else [], q);
    }
  }

  lemma IdsAround(e: seq<Variant>, n: nat)
    requires Ordered(e) && 0 < n <= |e|
    ensures forall v :: v in e[..n] ==> v.id <= e[n - 1].id
    ensures forall v :: v in e[n..] ==> v.id > e[n - 1].id
  {
  }

  lemma SelectSecond<T(!new)>(a: seq<T>, b: seq<T>, keep: T -> bool)
    requires (forall x :: x in a ==> !keep(x)) && forall x :: x in b ==> keep(x)
    ensures Select(a + b, keep) == b
  {
    SelectNone(a, keep);
    SelectAll(b, keep);
    SelectConcat(a, b, keep);
  }

  lemma SelectAfter(e: seq<Variant>, n: nat)
    requires Ordered(e) && 0 < n <= |e|
    ensures Select(e, IdAfter(e[n - 1].id)) == e[n..]
  {
    IdsAround(e, n);
    SelectSecond(e[..n], e[n..], IdAfter(e[n - 1].id));
    assert e == e[..n] + e[n..];
  }

  lemma {:induction false} SelectAll<T(!new)>(s: seq<T>, keep: T -> bool)
    requires forall x :: x in s ==> keep(x)
    ensures Select(s, keep) == s
  {
    if s != [] {
      var before, last := s[..|s| - 1], s[|s| - 1];
      assert last in s && s == before + [last];
      SelectAll(before, keep);
      assert Select(s, keep) == Select(before, keep) + [last];
    }
  }

  lemma {:induction false} SelectNone<T(!new)>(s: seq<T>, keep: T -> bool)
    requires forall x :: x in s ==> !keep(x)
    ensures Select(s, keep) == []
  {
    if s != [] {
      var before, last := s[..|s| - 1], s[|s| - 1];
      assert last in s;
      SelectNone(before, keep);
      assert Select(s, keep) == Select(before, keep) + [];
    }
  }

  /** A selection as long as what it is taken from left nothing out. */
  lemma {:induction false} SelectFull<T(!new)>(s: seq<T>, keep: T -> bool)
    requires |Select(s, keep)| == |s|
    ensures Select(s, keep) == s
  {
    if s != [] {
      var before, last := s[..|s| - 1], s[|s| - 1];
      assert |Select(before, keep)| <= |before|;
      SelectFull(before, keep);
      assert s == before + [last];
    }
  }

  /** A full batch is the next eligible variants, all of them wanted. */
  lemma FullBatch(table: seq<Variant>, f: Filter, cursor: int)
    requires f.limit > 0 && LoadFeedBatch(table, f.(cursor := cursor)).hasMore
    ensures var e := After(table, f, cursor);
            f.limit <= |e| && LoadFeedBatch(table, f.(cursor := cursor)).items == e[..f.limit]
  {
    BatchIsPage(table, f, cursor);
    FullPage(After(table, f, cursor), f.limit, Wants(f));
  }

  lemma FullPage<T(!new)>(rows: seq<T>, limit: nat, keep: T -> bool)
    requires |Select(Page(rows, limit, 0), keep)| == limit
    ensures limit <= |rows| && Select(Page(rows, limit, 0), keep) == rows[..limit]
  {
    SelectFull(Page(rows, limit, 0), keep);
  }

  /** A full batch leaves off exactly where the next one starts. */
  lemma NextCursor(table: seq<Variant>, f: Filter, cursor: int)
    requires Ordered(table) && f.limit > 0
    requires LoadFeedBatch(table, f.(cursor := cursor)).hasMore
    ensures var b, e := LoadFeedBatch(table, f.(cursor := cursor)), After(table, f, cursor);
            && cursor < b.nextCursor && f.limit <= |e| && b.items == e[..f.limit]
            && After(table, f, b.nextCursor) == e[f.limit..]
  {
    FullBatch(table, f, cursor);
    SelectOrdered(table, EligibleAfter(f, cursor));
    AfterPosition(table, f, After(table, f, cursor), f.limit, cursor);
  }

  // ----- What a run covers -----

  /** Without the stock filter every eligible variant is visited, once, in id order. */
  lemma {:induction false} VisitsAll(e: seq<Variant>, f: Filter)
    requires f.limit > 0 && !f.inStockOnly
    ensures Visited(e, f) == e
    decreases |e|
  {
    if e != [] {
      var page := Page(e, f.limit, 0);
      SelectAll(page, Wants(f));
      if |page| == f.limit {
        VisitsAll(e[f.limit..], f);
        assert e == e[..f.limit] + e[f.limit..];
      }
    }
  }

  lemma {:induction false} OutcomesAddUp(items: seq<Item>, rules: Rules)
    ensures CountOf(items, rules, Valid) + CountOf(items, rules, Invalid) + CountOf(items, rules, NoImage) == |items|
  {
    if items != [] { OutcomesAddUp(items[..|items| - 1], rules); }
  }

  /** A run without the stock filter accounts for every variant it counted at the start. */
  lemma RunIsComplete(table: seq<Variant>, f: Filter, rules: Rules, r: Report)
    requires Ordered(table) && f.limit > 0 && !f.inStockOnly
    requires Reports(r, Visited(EligibleVariants(table, f), f), rules, CountEligibleVariants(table, f))
    ensures var e := EligibleVariants(table, f);
            Visited(e, f) == e && Ordered(e) && Reports(r, e, rules, |e|)
    ensures r.valid + r.invalid + r.skippedNoImage == r.total
  {
    var e := EligibleVariants(table, f);
    VisitsAll(e, f);
    SelectOrdered(table, IsEligible(f));
    OutcomesAddUp(Items(e, rules), rules);
    CountIsWanted(table, f);
    SelectAll(e, Wants(f));
  }

  /** What every published item has. */
  lemma ValidItemHas(item: Item)
    ensures OutcomeOf(item) == Valid <==>
      && item.id != "" && TrimSpace(item.title) != ""
      && |item.link| > 10 && item.link[..8] == "https://"
      && |item.imageLink| > 10 && item.imageLink[..8] == "https://"
      && item.price != ""
      && item.availability in ["in_stock", "out_of_stock", "preorder", "backorder"]
      && item.condition in ["new", "refurbished", "used"]
    ensures OutcomeOf(item) == NoImage <==> item.imageLink == ""
  {
    assert Https == "https://";
  }

  /** Besides the title only the links change: the placeholder of the store's address is replaced, image
      links are moved to https, the others listed once without the first. */
  lemma NormaliseChanges(item: Item, base: string)
    ensures var n := Normalise(item, base);
            && n.id == item.id && n.title == NormaliseTitle(item.title) && n.price == item.price
            && n.availability == item.availability && n.condition == item.condition
            && n.link == n.mobileLink
            && n.link == (if |item.link| >= 13 && item.link[..13] == "__STORE_URL__" then base + item.link[13..]
                          else item.link)
            && n.imageLink == NormaliseUrl(item.imageLink)
  {
  }

  /** GenerateFull and GenerateIncremental: the run with the feed's own rules. An item is published exactly
      if it has an id, a title, https links, a price and a listed availability and condition; it is
      skipped exactly if no image link is left of it. */
  method Generate(table: seq<Variant>, f: Filter, base: string) returns (r: Report)
    requires Ordered(table) && f.limit > 0
    ensures Reports(r, Visited(EligibleVariants(table, f), f), FeedRules(base), CountEligibleVariants(table, f))
    ensures !f.inStockOnly ==> r.valid + r.invalid + r.skippedNoImage == r.total == |EligibleVariants(table, f)|
    ensures forall item :: item in Published(r.batches) ==>
      && item.id != "" && TrimSpace(item.title) != ""
      && |item.link| > 10 && item.link[..8] == "https://"
      && |item.imageLink| > 10 && item.imageLink[..8] == "https://"
      && item.price != ""
      && item.availability in ["in_stock", "out_of_stock", "preorder", "backorder"]
      && item.condition in ["new", "refurbished", "used"]
    ensures forall v :: v in Visited(EligibleVariants(table, f), f) ==>
      var item := Normalise(v.item, base);
      (item in Published(r.batches) <==>
        && item.id != "" && TrimSpace(item.title) != ""
        && |item.link| > 10 && item.link[..8] == "https://"
        && |item.imageLink| > 10 && item.imageLink[..8] == "https://"
        && item.price != ""
        && item.availability in ["in_stock", "out_of_stock", "preorder", "backorder"]
        && item.condition in ["new", "refurbished", "used"])
    ensures var visited := Visited(EligibleVariants(table, f), f);
            r.skippedNoImage == |set k | 0 <= k < |visited| && NormaliseUrl(visited[k].item.imageLink) == ""|
  {
    r := Run(table, f, FeedRules(base));
    if !f.inStockOnly { RunIsComplete(table, f, FeedRules(base), r); }
    ghost var visited := Visited(EligibleVariants(table, f), f);
    PublishedExactly(r, visited, base, CountEligibleVariants(table, f));
    CountedByOutcome(visited, FeedRules(base), NoImage);
    SkippedHaveNoImage(visited, base);
  }

  /** Of the variants' items exactly those with an outcome are selected by it. */
  lemma SelectedByOutcome(visited: seq<Variant>, rules: Rules, o: Outcome)
    ensures var items := Select(Items(visited, rules), Has(rules, o));
            && (forall item :: item in items ==> rules.judge(item) == o)
            && (forall v :: v in visited ==>
                  (rules.normalise(v.item) in items <==> rules.judge(rules.normalise(v.item)) == o))
  {
    var all := Items(visited, rules);
    SelectMembers(all, Has(rules, o));
    forall v | v in visited ensures rules.normalise(v.item) in all {
      var k :| 0 <= k < |visited| && visited[k] == v;
      assert all[k] == rules.normalise(v.item);
    }
  }

  ghost function WithOutcome(visited: seq<Variant>, rules: Rules, o: Outcome): set<int> {
    set k | 0 <= k < |visited| && rules.judge(rules.normalise(visited[k].item)) == o
  }

  ghost function Positions(items: seq<Item>, rules: Rules, o: Outcome): set<int> {
    set k | 0 <= k < |items| && rules.judge(items[k]) == o
  }

  lemma OneMorePosition(items: seq<Item>, item: Item, rules: Rules, o: Outcome)
    ensures Positions(items + [item], rules, o) ==
            Positions(items, rules, o) + (if rules.judge(item) == o then {|items|} else {})
    ensures |items| !in Positions(items, rules, o)
  {
    var a, b := Positions(items + [item], rules, o), Positions(items, rules, o);
    forall k ensures k in a <==> k in b || (rules.judge(item) == o && k == |items|) {
      if 0 <= k < |items| { assert (items + [item])[k] == items[k]; }
    }
  }

  lemma {:induction false} CountIsPositions(items: seq<Item>, rules: Rules, o: Outcome)
    ensures CountOf(items, rules, o) == |Positions(items, rules, o)|
  {
    if items != [] {
      var before, last := items[..|items| - 1], items[|items| - 1];
      CountIsPositions(before, rules, o);
      OneMorePosition(before, last, rules, o);
      assert items == before + [last];
      assert CountOf(items, rules, o) == CountOf(before, rules, o) + (if rules.judge(last) == o then 1 else 0);
    }
  }

  lemma CountedByOutcome(visited: seq<Variant>, rules: Rules, o: Outcome)
    ensures CountOf(Items(visited, rules), rules, o) == |WithOutcome(visited, rules, o)|
  {
    var items := Items(visited, rules);
    CountIsPositions(items, rules, o);
    assert Positions(items, rules, o) == WithOutcome(visited, rules, o);
  }

  lemma PublishedExactly(r: Report, visited: seq<Variant>, base: string, total: nat)
    requires Reports(r, visited, FeedRules(base), total)
    ensures forall item :: item in Published(r.batches) ==>
      && item.id != "" && TrimSpace(item.title) != ""
      && |item.link| > 10 && item.link[..8] == "https://"
      && |item.imageLink| > 10 && item.imageLink[..8] == "https://"
      && item.price != ""
      && item.availability in ["in_stock", "out_of_stock", "preorder", "backorder"]
      && item.condition in ["new", "refurbished", "used"]
    ensures forall v :: v in visited ==>
      var item := Normalise(v.item, base);
      (item in Published(r.batches) <==>
        && item.id != "" && TrimSpace(item.title) != ""
        && |item.link| > 10 && item.link[..8] == "https://"
        && |item.imageLink| > 10 && item.imageLink[..8] == "https://"
        && item.price != ""
        && item.availability in ["in_stock", "out_of_stock", "preorder", "backorder"]
        && item.condition in ["new", "refurbished", "used"])
  {
    SelectedByOutcome(visited, FeedRules(base), Valid);
    forall item | item in Published(r.batches)
      ensures && item.id != "" && TrimSpace(item.title) != ""
              && |item.link| > 10 && item.link[..8] == "https://"
              && |item.imageLink| > 10 && item.imageLink[..8] == "https://"
              && item.price != ""
              && item.availability in ["in_stock", "out_of_stock", "preorder", "backorder"]
              && item.condition in ["new", "refurbished", "used"]
    {
      ValidItemHas(item);
    }
    forall v | v in visited
      ensures var item := Normalise(v.item, base);
              (item in Published(r.batches) <==>
                && item.id != "" && TrimSpace(item.title) != ""
                && |item.link| > 10 && item.link[..8] == "https://"
                && |item.imageLink| > 10 && item.imageLink[..8] == "https://"
                && item.price != ""
                && item.availability in ["in_stock", "out_of_stock", "preorder", "backorder"]
                && item.condition in ["new", "refurbished", "used"])
    {
      ValidItemHas(Normalise(v.item, base));
    }
  }

  lemma SkippedHaveNoImage(visited: seq<Variant>, base: string)
    ensures WithOutcome(visited, FeedRules(base), NoImage) ==
            set k | 0 <= k < |visited| && NormaliseUrl(visited[k].item.imageLink) == ""
  {
    var rules := FeedRules(base);
    forall k | 0 <= k < |visited|
      ensures rules.judge(rules.normalise(visited[k].item)) == NoImage <==>
              NormaliseUrl(visited[k].item.imageLink) == ""
    {
      ValidItemHas(Normalise(visited[k].item, base));
      NormaliseChanges(visited[k].item, base);
    }
  }

  /** The variants behind the first batch that the stock filter thins out. */
  function Unreached(e: seq<Variant>, f: Filter): seq<Variant>
    requires f.limit > 0
    decreases |e|
  {
    if |e| < f.limit then []
    else if Thinned(e[..f.limit], f) then e[f.limit..]
    else Unreached(e[f.limit..], f)
  }

  /** With the stock filter, what a run visits and what it never reaches make up all the wanted
      variants. */
  lemma {:induction false} VisitedAndUnreached(e: seq<Variant>, f: Filter)
    requires f.limit > 0
    ensures Select(e, Wants(f)) == Visited(e, f) + Select(Unreached(e, f), Wants(f))
    decreases |e|
  {
    if |e| >= f.limit {
      SplitFirstBatch(e, f);
      if Thinned(e[..f.limit], f) {
        assert Unreached(e, f) == e[f.limit..];
      } else {
        VisitedAndUnreached(e[f.limit..], f);
      }
    } else if e != [] {
      assert Page(e, f.limit, 0) == e;
    }
  }

  predicate Thinned(page: seq<Variant>, f: Filter) {
    exists v :: v in page && !Wanted(v, f)
  }

  lemma SplitFirstBatch(e: seq<Variant>, f: Filter)
    requires |e| >= f.limit > 0
    ensures var first := Select(e[..f.limit], Wants(f));
            && Select(e, Wants(f)) == first + Select(e[f.limit..], Wants(f))
            && Visited(e, f) == if Thinned(e[..f.limit], f) then first else first + Visited(e[f.limit..], f)
  {
    SelectSplit(e, f.limit, Wants(f));
    ThinnedOrFull(e[..f.limit], f);
    VisitedFirst(e, f);
  }

  lemma SelectSplit<T(!new)>(rows: seq<T>, n: nat, keep: T -> bool)
    requires n <= |rows|
    ensures Select(rows, keep) == Select(rows[..n], keep) + Select(rows[n..], keep)
  {
    assert rows == rows[..n] + rows[n..];
    SelectConcat(rows[..n], rows[n..], keep);
  }

  lemma VisitedFirst(e: seq<Variant>, f: Filter)
    requires |e| >= f.limit > 0
    ensures var first := Select(e[..f.limit], Wants(f));
            Visited(e, f) == if |first| < f.limit then first else first + Visited(e[f.limit..], f)
  {
    assert Page(e, f.limit, 0) == e[..f.limit];
  }

  lemma ThinnedOrFull(page: seq<Variant>, f: Filter)
    ensures |Select(page, Wants(f))| < |page| <==> Thinned(page, f)
  {
    if Thinned(page, f) {
      if |Select(page, Wants(f))| == |page| { SelectFull(page, Wants(f)); }
    } else {
      SelectAll(page, Wants(f));
    }
  }

  lemma CountIsWanted(table: seq<Variant>, f: Filter)
    ensures CountEligibleVariants(table, f) == |Select(EligibleVariants(table, f), Wants(f))|
  {
    var p, q := IsEligible(f), Wants(f);
    SelectTwice(table, p, q);
    forall v ensures Counted(v, f) <==> p(v) && q(v) { QueriesMeanFilter(v, f); }
    SelectSame(table, IsCounted(f), Both(p, q));
  }

  lemma NothingSelected<T(!new)>(s: seq<T>, keep: T -> bool)
    ensures Select(s, keep) == [] <==> forall x :: x in s ==> !keep(x)
  {
    SelectMembers(s, keep);
    if forall x :: x in s ==> !keep(x) { SelectNone(s, keep); }
  }

  /** A run visits every wanted variant, and as many as were counted, exactly when none is left
      behind the first thinned batch. */
  lemma CompleteExactly(table: seq<Variant>, f: Filter)
    requires f.limit > 0
    ensures var e := EligibleVariants(table, f);
            var complete := forall v :: v in Unreached(e, f) ==> !Wanted(v, f);
            && (Visited(e, f) == Select(e, Wants(f)) <==> complete)
            && |Visited(e, f)| <= CountEligibleVariants(table, f)
            && (|Visited(e, f)| == CountEligibleVariants(table, f) <==> complete)
  {
    var e := EligibleVariants(table, f);
    VisitedAndUnreached(e, f);
    CountIsWanted(table, f);
    NothingSelected(Unreached(e, f), Wants(f));
    var left := Select(Unreached(e, f), Wants(f));
    assert Select(e, Wants(f)) == Visited(e, f) + left;
    assert left == [] <==> forall v :: v in Unreached(e, f) ==> !Wanted(v, f);
  }

  /** Two variants, the first out of stock, batches of one: the run ends before the second. */
  lemma StockFilterStopsEarly(first: Variant, second: Variant, f: Filter)
    requires 0 < first.id < second.id && f.limit == 1 && f.inStockOnly
    requires Eligible(first, f) && Eligible(second, f) && !Wanted(first, f) && Wanted(second, f)
    ensures Visited(EligibleVariants([first, second], f), f) == []
    ensures CountEligibleVariants([first, second], f) == 1
  {
    var table := [first, second];
    SelectAll(table, IsEligible(f));
    assert Page(table, 1, 0) == [first];
    assert [first][..0] == [];
    QueriesMeanFilter(first, f);
    QueriesMeanFilter(second, f);
    assert table[..1] == [first];
    assert Select([first], IsCounted(f)) == [];
    assert Select([first], Wants(f)) == [];
  }
}
