/** The text key under which a feed is cached, and which requests share it. */
module FeedCacheKey {
  import opened Common
  import opened Text
  import opened FeedRequests
  import Money

  // ----- Prices and ratings, printed with two decimals -----

  /** A number as it is printed: its sign and its magnitude in hundredths. */
  datatype Shown = Shown(negative: bool, hundredths: nat)

  function RoundHalfEven(x: real): (n: nat)
    requires x >= 0.0
    ensures n as real - 0.5 <= x <= n as real + 0.5
  {
    var f := x.Floor;
    var rest := x - f as real;
    if rest < 0.5 || (rest == 0.5 && f % 2 == 0) then f else f + 1
  }

  function ShownOf(x: real): Shown {
    Shown(x < 0.0, RoundHalfEven((if x < 0.0 then -x else x) * 100.0))
  }

  predicate WholeHundredths(x: real) {
    (x * 100.0).Floor as real == x * 100.0
  }

  /** strconv.FormatFloat(x, 'f', 2, 64). */
  function FormatShown(s: Shown): string {
    SignedDigits(s.negative, s.hundredths / 100) + "." + Money.Pad2(s.hundredths % 100)
  }

  lemma DigitsHaveNo(n: nat, c: char)
    requires !IsDigit(c)
    ensures Free(Digits(n), c)
  {
  }

  function SignedDigits(negative: bool, n: nat): string {
    (if negative then "-" else "") + Digits(n)
  }

  lemma SignedDigitsInjective(x: bool, m: nat, y: bool, n: nat)
    requires SignedDigits(x, m) == SignedDigits(y, n)
    ensures x == y && m == n
  {
    var a, b := SignedDigits(x, m), SignedDigits(y, n);
    assert IsDigit(Digits(m)[0]) && IsDigit(Digits(n)[0]);
    assert x ==> a[0] == '-' && a[1..] == Digits(m);
    assert !x ==> a == Digits(m);
    assert y ==> b[0] == '-' && b[1..] == Digits(n);
    assert !y ==> b == Digits(n);
    ParseDigitsInverts(m);
    ParseDigitsInverts(n);
  }

  lemma SignedDigitsHaveNo(negative: bool, n: nat, c: char)
    requires !IsDigit(c) && c != '-'
    ensures Free(SignedDigits(negative, n), c)
  {
    DigitsHaveNo(n, c);
  }

  lemma FormatShownInjective(a: Shown, b: Shown)
    requires FormatShown(a) == FormatShown(b)
    ensures a == b
  {
    var m, n := a.hundredths, b.hundredths;
    SignedDigitsHaveNo(a.negative, m / 100, '.');
    SignedDigitsHaveNo(b.negative, n / 100, '.');
    CutAtFirst(SignedDigits(a.negative, m / 100), SignedDigits(b.negative, n / 100),
               Money.Pad2(m % 100), Money.Pad2(n % 100), '.');
    SignedDigitsInjective(a.negative, m / 100, b.negative, n / 100);
    assert m % 100 == n % 100 by {
      Money.Pad2Digits(m % 100);
      Money.Pad2Digits(n % 100);
    }
  }

  lemma RoundWhole(x: real, n: nat)
    requires x == n as real
    ensures RoundHalfEven(x) == n
  {
  }

  lemma ShownWhole(x: real)
    requires WholeHundredths(x)
    ensures var s := ShownOf(x); x * 100.0 == if s.negative then -(s.hundredths as real) else s.hundredths as real
  {
    var n := (x * 100.0).Floor;
    if x < 0.0 { RoundWhole(-x * 100.0, -n); } else { RoundWhole(x * 100.0, n); }
  }

  lemma WholeHundredthsShown(a: real, b: real)
    requires WholeHundredths(a) && WholeHundredths(b) && ShownOf(a) == ShownOf(b)
    ensures a == b
  {
    ShownWhole(a);
    ShownWhole(b);
  }

  // ----- What a key shows of a request -----

  datatype Printed = Printed(
    feedType: string,
    limit: int,
    userId: Option<int>,
    sessionId: Option<string>,
    categoryId: Option<int>,
    query: Option<string>,
    brandIds: seq<int>,
    tagIds: seq<int>,
    attributeValueIds: seq<int>,
    priceMin: Option<Shown>,
    priceMax: Option<Shown>,
    minRating: Option<Shown>,
    discountOnly: bool,
    inStockOnly: bool)

  function Map<T, U>(f: T -> U, x: Option<T>): Option<U> {
    match x
    case None => None
    case Some(v) => Some(f(v))
  }

  /** `lower` is strings.ToLower; nothing here depends on its tables. */
  function PrintedOf(lower: string -> string, r: Request): Printed {
    Printed(r.feedType, r.limit, r.userId, r.sessionId, r.categoryId, Map(lower, r.query),
            Sort(r.filters.brandIds), Sort(r.filters.tagIds), Sort(r.filters.attributeValueIds),
            Map(ShownOf, r.filters.priceMin), Map(ShownOf, r.filters.priceMax), Map(ShownOf, r.filters.minRating),
            r.filters.discountOnly, r.filters.inStockOnly)
  }

  // ----- Printing -----

  function IdTexts(ids: seq<int>): (texts: seq<string>)
    ensures |texts| == |ids| && forall i :: 0 <= i < |ids| ==> texts[i] == FormatInt(ids[i])
  {
    if ids == [] then [] else IdTexts(ids[..|ids| - 1]) + [FormatInt(ids[|ids| - 1])]
  }

  function IdsText(ids: seq<int>): Option<string> {
    if ids == [] then None else Some(Join(IdTexts(ids), ","))
  }

  function FlagText(b: bool): Option<string> {
    if b then Some("true") else None
  }

  /** The labels of the optional fields, in the order the key lists them. */
  const Labels: seq<string> := [
    "user", "session", "category", "query", "brands", "tags", "variant_attribute_values",
    "price_min", "price_max", "min_rating", "discount_only", "in_stock_only"]

  function Values(p: Printed): (v: seq<Option<string>>)
    ensures |v| == 12
  {
    [Map(FormatInt, p.userId), p.sessionId, Map(FormatInt, p.categoryId), p.query,
     IdsText(p.brandIds), IdsText(p.tagIds), IdsText(p.attributeValueIds),
     Map(FormatShown, p.priceMin), Map(FormatShown, p.priceMax), Map(FormatShown, p.minRating),
     FlagText(p.discountOnly), FlagText(p.inStockOnly)]
  }

  function Piece(text: string, value: Option<string>): seq<string> {
    if value.Some? then [text + "=" + value.value] else []
  }

  /** From the k-th field on: present values behind their labels; absent ones leave no part. */
  function Parts(labels: seq<string>, values: seq<Option<string>>, k: nat): (parts: seq<string>)
    requires k <= |labels| == |values|
    decreases |labels| - k
  {
    if k == |labels| then [] else Piece(labels[k], values[k]) + Parts(labels, values, k + 1)
  }

  const Head := "discovery:feed"

  function LimitText(limit: int): string {
    "limit=" + FormatInt(limit)
  }

  function PrintKey(p: Printed): string {
    Join([Head, p.feedType, LimitText(p.limit)] + Parts(Labels, Values(p), 0), ":")
  }

  /** The cache key of a request. */
  function Key(lower: string -> string, r: Request): string {
    PrintKey(PrintedOf(lower, r))
  }

  // ----- Building a key part by part -----

  method AppendPart(parts: seq<string>, text: string, value: Option<string>) returns (r: seq<string>)
    ensures r == parts + Piece(text, value)
  {
    r := parts;
    if value.Some? { r := r + [text + "=" + value.value]; }
  }

  /** appendIDs: the ids are copied and sorted; an empty list leaves no part. */
  method AppendIds(parts: seq<string>, text: string, values: seq<int>) returns (r: seq<string>)
    ensures r == parts + Piece(text, IdsText(Sort(values)))
  {
    var copied := Sort(values);
    SameMembers(copied, values);
    if |values| == 0 {
      assert parts + [] == parts;
      return parts;
    }
    var encoded := [];
    for n := 0 to |copied|
      invariant encoded == IdTexts(copied[..n])
    {
      assert copied[..n + 1][..n] == copied[..n];
      encoded := encoded + [FormatInt(copied[n])];
    }
    assert copied[..|copied|] == copied;
    r := AppendPart(parts, text, Some(Join(encoded, ",")));
  }

  method AppendFloat(parts: seq<string>, text: string, value: Option<real>) returns (r: seq<string>)
    ensures r == parts + Piece(text, FloatText(value))
  {
    r := AppendPart(parts, text, FloatText(value));
  }

  function FloatText(x: Option<real>): Option<string> {
    Map(FormatShown, Map(ShownOf, x))
  }

  method AppendIdentity(lower: string -> string, parts: seq<string>, r: Request) returns (out: seq<string>)
    ensures out == parts + IdentityPieces(PrintedOf(lower, r))
  {
    out := AppendPart(parts, "user", Map(FormatInt, r.userId));
    out := AppendPart(out, "session", r.sessionId);
    out := AppendPart(out, "category", Map(FormatInt, r.categoryId));
    var p := PrintedOf(lower, r);
    ThreePieces(parts, Piece("user", Map(FormatInt, p.userId)), Piece("session", p.sessionId),
                Piece("category", Map(FormatInt, p.categoryId)));
  }

  method AppendLists(lower: string -> string, parts: seq<string>, r: Request) returns (out: seq<string>)
    ensures out == parts + ListPieces(PrintedOf(lower, r))
  {
    out := AppendPart(parts, "query", Map(lower, r.query));
    out := AppendIds(out, "brands", r.filters.brandIds);
    out := AppendIds(out, "tags", r.filters.tagIds);
    var p := PrintedOf(lower, r);
    ThreePieces(parts, Piece("query", p.query), Piece("brands", IdsText(p.brandIds)), Piece("tags", IdsText(p.tagIds)));
  }

  method AppendBounds(lower: string -> string, parts: seq<string>, r: Request) returns (out: seq<string>)
    ensures out == parts + BoundPieces(PrintedOf(lower, r))
  {
    out := AppendIds(parts, "variant_attribute_values", r.filters.attributeValueIds);
    out := AppendFloat(out, "price_min", r.filters.priceMin);
    out := AppendFloat(out, "price_max", r.filters.priceMax);
    var p := PrintedOf(lower, r);
    ThreePieces(parts, Piece("variant_attribute_values", IdsText(p.attributeValueIds)),
                Piece("price_min", Map(FormatShown, p.priceMin)), Piece("price_max", Map(FormatShown, p.priceMax)));
  }

  method AppendFlags(lower: string -> string, parts: seq<string>, r: Request) returns (out: seq<string>)
    ensures out == parts + FlagPieces(PrintedOf(lower, r))
  {
    out := AppendFloat(parts, "min_rating", r.filters.minRating);
    out := AppendPart(out, "discount_only", FlagText(r.filters.discountOnly));
    out := AppendPart(out, "in_stock_only", FlagText(r.filters.inStockOnly));
    var p := PrintedOf(lower, r);
    ThreePieces(parts, Piece("min_rating", Map(FormatShown, p.minRating)),
                Piece("discount_only", FlagText(p.discountOnly)), Piece("in_stock_only", FlagText(p.inStockOnly)));
  }

  method BuildFeedCacheKey(lower: string -> string, r: Request) returns (key: string)
    ensures key == Key(lower, r)
  {
    var head := [Head, r.feedType, LimitText(r.limit)];
    var parts := AppendIdentity(lower, head, r);
    parts := AppendLists(lower, parts, r);
    parts := AppendBounds(lower, parts, r);
    parts := AppendFlags(lower, parts, r);
    var p := PrintedOf(lower, r);
    PartsInFour(p);
    FourPieces(head, IdentityPieces(p), ListPieces(p), BoundPieces(p), FlagPieces(p));
    key := Join(parts, ":");
  }

  lemma ThreePieces(head: seq<string>, a: seq<string>, b: seq<string>, c: seq<string>)
    ensures head + a + b + c == head + (a + b + c)
  {
  }

  lemma FourPieces(head: seq<string>, a: seq<string>, b: seq<string>, c: seq<string>, d: seq<string>)
    ensures head + a + b + c + d == head + (a + (b + (c + d)))
  {
  }

  function IdentityPieces(p: Printed): seq<string> {
    Piece("user", Map(FormatInt, p.userId)) + Piece("session", p.sessionId)
      + Piece("category", Map(FormatInt, p.categoryId))
  }

  function ListPieces(p: Printed): seq<string> {
    Piece("query", p.query) + Piece("brands", IdsText(p.brandIds)) + Piece("tags", IdsText(p.tagIds))
  }

  function BoundPieces(p: Printed): seq<string> {
    Piece("variant_attribute_values", IdsText(p.attributeValueIds))
    + Piece("price_min", Map(FormatShown, p.priceMin)) + Piece("price_max", Map(FormatShown, p.priceMax))
  }

  function FlagPieces(p: Printed): seq<string> {
    Piece("min_rating", Map(FormatShown, p.minRating))
    + Piece("discount_only", FlagText(p.discountOnly)) + Piece("in_stock_only", FlagText(p.inStockOnly))
  }

  lemma ThreeParts(labels: seq<string>, v: seq<Option<string>>, k: nat)
    requires |labels| == |v| && k + 3 <= |labels|
    ensures Parts(labels, v, k) ==
      (Piece(labels[k], v[k]) + Piece(labels[k + 1], v[k + 1]) + Piece(labels[k + 2], v[k + 2]))
        + Parts(labels, v, k + 3)
  {
    var a, b, c, rest := Piece(labels[k], v[k]), Piece(labels[k + 1], v[k + 1]), Piece(labels[k + 2], v[k + 2]),
      Parts(labels, v, k + 3);
    assert Parts(labels, v, k + 2) == c + rest;
    assert Parts(labels, v, k + 1) == b + Parts(labels, v, k + 2);
    assert a + (b + (c + rest)) == (a + b + c) + rest;
  }

  /** The same with the labels and values named. */
  lemma NamedParts(labels: seq<string>, v: seq<Option<string>>, k: nat, l: string, x: Option<string>, m: string,
                   y: Option<string>, n: string, z: Option<string>)
    requires |labels| == |v| && k + 3 <= |labels|
    requires labels[k] == l && v[k] == x && labels[k + 1] == m && v[k + 1] == y && labels[k + 2] == n && v[k + 2] == z
    ensures Parts(labels, v, k) == (Piece(l, x) + Piece(m, y) + Piece(n, z)) + Parts(labels, v, k + 3)
  {
    ThreeParts(labels, v, k);
  }

  lemma IdentityParts(p: Printed)
    ensures Parts(Labels, Values(p), 0) == IdentityPieces(p) + Parts(Labels, Values(p), 3)
  {
    NamedParts(Labels, Values(p), 0, "user", Map(FormatInt, p.userId), "session", p.sessionId,
               "category", Map(FormatInt, p.categoryId));
  }

  lemma ListParts(p: Printed)
    ensures Parts(Labels, Values(p), 3) == ListPieces(p) + Parts(Labels, Values(p), 6)
  {
    NamedParts(Labels, Values(p), 3, "query", p.query, "brands", IdsText(p.brandIds), "tags", IdsText(p.tagIds));
  }

  lemma BoundParts(p: Printed)
    ensures Parts(Labels, Values(p), 6) == BoundPieces(p) + Parts(Labels, Values(p), 9)
  {
    NamedParts(Labels, Values(p), 6, "variant_attribute_values", IdsText(p.attributeValueIds),
               "price_min", Map(FormatShown, p.priceMin), "price_max", Map(FormatShown, p.priceMax));
  }

  lemma FlagParts(p: Printed)
    ensures Parts(Labels, Values(p), 9) == FlagPieces(p)
  {
    NamedParts(Labels, Values(p), 9, "min_rating", Map(FormatShown, p.minRating),
               "discount_only", FlagText(p.discountOnly), "in_stock_only", FlagText(p.inStockOnly));
    assert FlagPieces(p) + [] == FlagPieces(p);
  }

  lemma PartsInFour(p: Printed)
    ensures Parts(Labels, Values(p), 0) == IdentityPieces(p) + (ListPieces(p) + (BoundPieces(p) + FlagPieces(p)))
  {
    IdentityParts(p);
    ListParts(p);
    BoundParts(p);
    FlagParts(p);
  }

  // ----- The printed fields can be read back -----

  predicate GoodLabels(labels: seq<string>) {
    && (forall i :: 0 <= i < |labels| ==> Free(labels[i], '='))
    && (forall i, j :: 0 <= i < j < |labels| ==> labels[i] != labels[j])
  }

  /** Every part starts with one of the labels and an equals sign. */
  lemma {:induction false} PartsLabelled(labels: seq<string>, values: seq<Option<string>>, k: nat, part: string)
    requires k <= |labels| == |values| && part in Parts(labels, values, k)
    ensures exists i :: k <= i < |labels| && values[i].Some? && part == labels[i] + "=" + values[i].value
    decreases |labels| - k
  {
    if !(values[k].Some? && part == labels[k] + "=" + values[k].value) { PartsLabelled(labels, values, k + 1, part); }
  }

  lemma LabelMissing(labels: seq<string>, values: seq<Option<string>>, k: nat, value: string)
    requires k < |labels| == |values| && GoodLabels(labels)
    ensures labels[k] + "=" + value !in Parts(labels, values, k + 1)
  {
    var part := labels[k] + "=" + value;
    if part in Parts(labels, values, k + 1) {
      PartsLabelled(labels, values, k + 1, part);
      var i :| k + 1 <= i < |labels| && values[i].Some? && part == labels[i] + "=" + values[i].value;
      CutAtFirst(labels[k], labels[i], value, values[i].value, '=');
    }
  }

  lemma SamePiece(l: string, x: Option<string>, y: Option<string>, ra: seq<string>, rb: seq<string>)
    requires Piece(l, x) + ra == Piece(l, y) + rb
    requires x.Some? ==> l + "=" + x.value !in rb
    requires y.Some? ==> l + "=" + y.value !in ra
    ensures x == y && ra == rb
  {
    var pa, pb := Piece(l, x) + ra, Piece(l, y) + rb;
    assert x.Some? ==> pa[0] == l + "=" + x.value && pa[1..] == ra && pa[0] in pa;
    assert y.Some? ==> pb[0] == l + "=" + y.value && pb[1..] == rb && pb[0] in pb;
    assert x.None? ==> pa == ra;
    assert y.None? ==> pb == rb;
    assert x.Some? ==> (l + "=" + x.value)[|l| + 1..] == x.value;
    assert y.Some? ==> (l + "=" + y.value)[|l| + 1..] == y.value;
  }

  lemma {:induction false} PartsInjective(labels: seq<string>, a: seq<Option<string>>, b: seq<Option<string>>, k: nat)
    requires k <= |labels| == |a| == |b| && GoodLabels(labels)
    requires Parts(labels, a, k) == Parts(labels, b, k)
    ensures forall i :: k <= i < |labels| ==> a[i] == b[i]
    decreases |labels| - k
  {
    if k < |labels| {
      if a[k].Some? { LabelMissing(labels, b, k, a[k].value); }
      if b[k].Some? { LabelMissing(labels, a, k, b[k].value); }
      SamePiece(labels[k], a[k], b[k], Parts(labels, a, k + 1), Parts(labels, b, k + 1));
      PartsInjective(labels, a, b, k + 1);
    }
  }

  lemma {:induction false} PartsFree(labels: seq<string>, values: seq<Option<string>>, k: nat)
    requires k <= |labels| == |values|
    requires forall i :: 0 <= i < |labels| ==> Free(labels[i], ':') && OptionFree(values[i])
    ensures AllFree(Parts(labels, values, k), ':')
    decreases |labels| - k
  {
    if k < |labels| { PartsFree(labels, values, k + 1); }
  }

  predicate PlainLabel(s: string) {
    Free(s, '=') && Free(s, ':')
  }

  lemma LabelsArePlain()
    ensures forall i :: 0 <= i < |Labels| ==> PlainLabel(Labels[i])
  {
    assert PlainLabel("user") && PlainLabel("session") && PlainLabel("category") && PlainLabel("query");
    assert PlainLabel("brands") && PlainLabel("tags") && PlainLabel("variant_attribute_values");
    assert PlainLabel("price_min") && PlainLabel("price_max") && PlainLabel("min_rating");
    assert PlainLabel("discount_only") && PlainLabel("in_stock_only");
  }

  lemma LabelsAreDistinct()
    ensures forall i, j :: 0 <= i < j < |Labels| ==> Labels[i] != Labels[j]
  {
    assert "user"[0] == 'u' && "tags"[0] == 't';
    assert "price_min"[7] == 'i' && "price_max"[7] == 'a';
    assert "discount_only"[0] == 'd' && "in_stock_only"[0] == 'i';
  }

  lemma LabelsAreGood()
    ensures GoodLabels(Labels) && forall i :: 0 <= i < |Labels| ==> Free(Labels[i], ':')
  {
    LabelsArePlain();
    LabelsAreDistinct();
    assert forall i :: 0 <= i < |Labels| ==> PlainLabel(Labels[i]);
  }

  lemma IdsTextInjective(a: seq<int>, b: seq<int>)
    requires IdsText(a) == IdsText(b)
    ensures a == b
  {
    if a != [] && b != [] {
      forall i | 0 <= i < |a| ensures Free(IdTexts(a)[i], ',') { FormatIntFree(a[i], ','); }
      forall i | 0 <= i < |b| ensures Free(IdTexts(b)[i], ',') { FormatIntFree(b[i], ','); }
      JoinInjective(IdTexts(a), IdTexts(b), ',');
      forall i | 0 <= i < |a| ensures a[i] == b[i] {
        assert IdTexts(a)[i] == IdTexts(b)[i];
        FormatIntInjective(a[i], b[i]);
      }
    }
  }

  lemma FormatIntFree(n: int, c: char)
    requires !IsDigit(c) && c != '-'
    ensures Free(FormatInt(n), c)
  {
    if n < 0 { DigitsHaveNo(-n, c); } else { DigitsHaveNo(n, c); }
  }

  lemma FormatShownFree(s: Shown, c: char)
    requires !IsDigit(c) && c != '-' && c != '.'
    ensures Free(FormatShown(s), c)
  {
    DigitsHaveNo(s.hundredths / 100, c);
    Money.Pad2Digits(s.hundredths % 100);
  }

  lemma IdsTextFree(ids: seq<int>)
    ensures OptionFree(IdsText(ids))
  {
    forall i | 0 <= i < |ids| ensures Free(IdTexts(ids)[i], ':') { FormatIntFree(ids[i], ':'); }
    JoinFree(IdTexts(ids), ",", ':');
  }

  /** The texts a caller supplies must not contain the separator. */
  predicate ColonFree(p: Printed) {
    && Free(p.feedType, ':')
    && (p.sessionId.Some? ==> Free(p.sessionId.value, ':'))
    && (p.query.Some? ==> Free(p.query.value, ':'))
  }

  predicate OptionFree(x: Option<string>) {
    x.Some? ==> Free(x.value, ':')
  }

  lemma OptionIntFree(x: Option<int>)
    ensures OptionFree(Map(FormatInt, x))
  {
    if x.Some? { FormatIntFree(x.value, ':'); }
  }

  lemma OptionShownFree(x: Option<Shown>)
    ensures OptionFree(Map(FormatShown, x))
  {
    if x.Some? { FormatShownFree(x.value, ':'); }
  }

  lemma ValuesFree(p: Printed)
    requires ColonFree(p)
    ensures forall i :: 0 <= i < 12 ==> OptionFree(Values(p)[i])
  {
    OptionIntFree(p.userId);
    OptionIntFree(p.categoryId);
    IdsTextFree(p.brandIds);
    IdsTextFree(p.tagIds);
    IdsTextFree(p.attributeValueIds);
    OptionShownFree(p.priceMin);
    OptionShownFree(p.priceMax);
    OptionShownFree(p.minRating);
    assert OptionFree(FlagText(p.discountOnly)) && OptionFree(FlagText(p.inStockOnly));
  }

  lemma OptionIntInjective(a: Option<int>, b: Option<int>)
    requires Map(FormatInt, a) == Map(FormatInt, b)
    ensures a == b
  {
    if a.Some? && b.Some? { FormatIntInjective(a.value, b.value); }
  }

  lemma OptionShownInjective(a: Option<Shown>, b: Option<Shown>)
    requires Map(FormatShown, a) == Map(FormatShown, b)
    ensures a == b
  {
    if a.Some? && b.Some? { FormatShownInjective(a.value, b.value); }
  }

  lemma ValuesInjective(a: Printed, b: Printed)
    requires Values(a) == Values(b) && a.feedType == b.feedType && a.limit == b.limit
    ensures a == b
  {
    var x, y := Values(a), Values(b);
    assert x[0] == y[0] && x[1] == y[1] && x[2] == y[2] && x[3] == y[3] && x[4] == y[4] && x[5] == y[5];
    assert x[6] == y[6] && x[7] == y[7] && x[8] == y[8] && x[9] == y[9] && x[10] == y[10] && x[11] == y[11];
    OptionIntInjective(a.userId, b.userId);
    OptionIntInjective(a.categoryId, b.categoryId);
    IdsTextInjective(a.brandIds, b.brandIds);
    IdsTextInjective(a.tagIds, b.tagIds);
    IdsTextInjective(a.attributeValueIds, b.attributeValueIds);
    OptionShownInjective(a.priceMin, b.priceMin);
    OptionShownInjective(a.priceMax, b.priceMax);
    OptionShownInjective(a.minRating, b.minRating);
  }

  /** The parts after the constant head. */
  function Tail(p: Printed): seq<string> {
    [p.feedType, LimitText(p.limit)] + Parts(Labels, Values(p), 0)
  }

  lemma TailFree(p: Printed)
    requires ColonFree(p)
    ensures AllFree(Tail(p), ':')
  {
    FieldPartsFree(p);
    LimitTextFree(p.limit);
    AllFreeConcat([p.feedType, LimitText(p.limit)], Parts(Labels, Values(p), 0));
  }

  lemma FieldPartsFree(p: Printed)
    requires ColonFree(p)
    ensures AllFree(Parts(Labels, Values(p), 0), ':')
  {
    LabelsAreGood();
    ValuesFree(p);
    PartsFree(Labels, Values(p), 0);
  }

  lemma LimitTextFree(limit: int)
    ensures Free(LimitText(limit), ':')
  {
    FormatIntFree(limit, ':');
    assert Free("limit=", ':');
  }

  lemma AllFreeConcat(a: seq<string>, b: seq<string>)
    requires AllFree(a, ':') && AllFree(b, ':')
    ensures AllFree(a + b, ':')
  {
  }

  lemma KeyIsHeadAndTail(p: Printed)
    ensures PrintKey(p) == Head + [':'] + Join(Tail(p), [':'])
  {
    var parts := [Head, p.feedType, LimitText(p.limit)] + Parts(Labels, Values(p), 0);
    assert parts[1..] == Tail(p);
    assert [':'] == ":";
  }

  /** Two keys are equal exactly when they show the same thing, unless a text of the caller
      contains the separator. */
  lemma KeyShowsRequest(a: Printed, b: Printed)
    requires ColonFree(a) && ColonFree(b)
    ensures PrintKey(a) == PrintKey(b) <==> a == b
  {
    if PrintKey(a) == PrintKey(b) {
      KeyIsHeadAndTail(a);
      KeyIsHeadAndTail(b);
      var ta, tb := Join(Tail(a), [':']), Join(Tail(b), [':']);
      assert (Head + [':'] + ta)[|Head| + 1..] == ta && (Head + [':'] + tb)[|Head| + 1..] == tb;
      TailFree(a);
      TailFree(b);
      JoinInjective(Tail(a), Tail(b), ':');
      TailInjective(a, b);
    }
  }

  lemma TwoAndRest(x: string, l: string, rest: seq<string>, y: string, m: string, other: seq<string>)
    requires [x, l] + rest == [y, m] + other
    ensures x == y && l == m && rest == other
  {
    var s, t := [x, l] + rest, [y, m] + other;
    assert s[0] == t[0] && s[1] == t[1] && s[2..] == rest && t[2..] == other;
  }

  lemma LimitTextInjective(a: int, b: int)
    requires LimitText(a) == LimitText(b)
    ensures a == b
  {
    assert LimitText(a)[6..] == FormatInt(a) && LimitText(b)[6..] == FormatInt(b);
    FormatIntInjective(a, b);
  }

  lemma TailInjective(a: Printed, b: Printed)
    requires Tail(a) == Tail(b)
    ensures a == b
  {
    TwoAndRest(a.feedType, LimitText(a.limit), Parts(Labels, Values(a), 0),
               b.feedType, LimitText(b.limit), Parts(Labels, Values(b), 0));
    LimitTextInjective(a.limit, b.limit);
    LabelsAreGood();
    PartsInjective(Labels, Values(a), Values(b), 0);
    ValuesInjective(a, b);
  }

  predicate OptionWhole(x: Option<real>) {
    x.Some? ==> WholeHundredths(x.value)
  }

  /** Requests whose texts leave the separator alone and whose numbers survive printing. */
  predicate Plain(lower: string -> string, r: Request) {
    && (r.sessionId.Some? ==> Free(r.sessionId.value, ':'))
    && (r.query.Some? ==> Free(lower(r.query.value), ':'))
    && OptionWhole(r.filters.priceMin) && OptionWhole(r.filters.priceMax) && OptionWhole(r.filters.minRating)
  }

  /** Requests whose key says everything about them. */
  predicate KeySafe(lower: string -> string, r: Request) {
    Plain(lower, r) && (r.query.Some? ==> lower(r.query.value) == r.query.value)
  }

  function Lowered(lower: string -> string, r: Request): Request {
    r.(query := Map(lower, r.query))
  }

  /** Equal but for the order of the filter ids. */
  ghost predicate SameUpToOrder(a: Request, b: Request) {
    && multiset(a.filters.brandIds) == multiset(b.filters.brandIds)
    && multiset(a.filters.tagIds) == multiset(b.filters.tagIds)
    && multiset(a.filters.attributeValueIds) == multiset(b.filters.attributeValueIds)
    && a.(filters := b.filters) == b
    && a.filters.(brandIds := b.filters.brandIds, tagIds := b.filters.tagIds,
                  attributeValueIds := b.filters.attributeValueIds) == b.filters
  }

  lemma OptionShown(a: Option<real>, b: Option<real>)
    requires OptionWhole(a) && OptionWhole(b) && Map(ShownOf, a) == Map(ShownOf, b)
    ensures a == b
  {
    if a.Some? && b.Some? { WholeHundredthsShown(a.value, b.value); }
  }

  lemma SameSorted(a: seq<int>, b: seq<int>)
    ensures Sort(a) == Sort(b) <==> multiset(a) == multiset(b)
  {
    SortSorted(a);
    SortSorted(b);
    if multiset(a) == multiset(b) { SortedUnique(Sort(a), Sort(b)); }
  }

  lemma PrintedDetermines(lower: string -> string, a: Request, b: Request)
    requires Plain(lower, a) && Plain(lower, b)
    ensures PrintedOf(lower, a) == PrintedOf(lower, b) <==> SameUpToOrder(Lowered(lower, a), Lowered(lower, b))
  {
    SameSorted(a.filters.brandIds, b.filters.brandIds);
    SameSorted(a.filters.tagIds, b.filters.tagIds);
    SameSorted(a.filters.attributeValueIds, b.filters.attributeValueIds);
    if PrintedOf(lower, a) == PrintedOf(lower, b) {
      OptionShown(a.filters.priceMin, b.filters.priceMin);
      OptionShown(a.filters.priceMax, b.filters.priceMax);
      OptionShown(a.filters.minRating, b.filters.minRating);
    }
  }

  /** Requests share a key exactly when they are equal up to the case of the query and the order
      of their filter ids. */
  lemma KeyIdentifiesRequest(lower: string -> string, a: Request, b: Request)
    requires Plain(lower, a) && Plain(lower, b) && Free(a.feedType, ':') && Free(b.feedType, ':')
    ensures Key(lower, a) == Key(lower, b) <==> SameUpToOrder(Lowered(lower, a), Lowered(lower, b))
  {
    KeyShowsRequest(PrintedOf(lower, a), PrintedOf(lower, b));
    PrintedDetermines(lower, a, b);
  }

  lemma FeedTypesFree()
    ensures forall t :: t in FeedTypes ==> Free(t, ':')
  {
  }

  /** After validation the lists are sorted, so sharing a key means being the same request, but
      for the case of the query. */
  lemma ValidatedKeyIsExact(lower: string -> string, a: Request, b: Request)
    requires Validated(a) && Validated(b) && Plain(lower, a) && Plain(lower, b)
    ensures Key(lower, a) == Key(lower, b) <==> Lowered(lower, a) == Lowered(lower, b)
  {
    assert !Fails(a, InvalidFeedType) && !Fails(b, InvalidFeedType);
    FeedTypesFree();
    KeyIdentifiesRequest(lower, a, b);
    if SameUpToOrder(Lowered(lower, a), Lowered(lower, b)) {
      SortedUnique(a.filters.brandIds, b.filters.brandIds);
      SortedUnique(a.filters.tagIds, b.filters.tagIds);
      SortedUnique(a.filters.attributeValueIds, b.filters.attributeValueIds);
    }
  }

  lemma LoweredSafe(lower: string -> string, r: Request)
    requires KeySafe(lower, r)
    ensures Lowered(lower, r) == r && Plain(lower, r)
  {
  }

  /** A key-safe request shares its key with no other key-safe one. */
  lemma SafeKeyIsOwn(lower: string -> string, a: Request, b: Request)
    requires Validated(a) && Validated(b) && KeySafe(lower, a) && KeySafe(lower, b) && Key(lower, a) == Key(lower, b)
    ensures a == b
  {
    LoweredSafe(lower, a);
    LoweredSafe(lower, b);
    ValidatedKeyIsExact(lower, a, b);
  }

  // ----- Requests that are told apart by more than their key -----

  lemma {:induction false} JoinSplitPart(before: seq<string>, x: string, y: string, after: seq<string>, sep: string)
    ensures Join(before + [x + sep + y] + after, sep) == Join(before + [x, y] + after, sep)
  {
    var a, b := before + [x + sep + y] + after, before + [x, y] + after;
    if before == [] {
      assert a[1..] == after && b[1..] == [y] + after && ([y] + after)[1..] == after;
      if after != [] {
        assert x + sep + y + sep + Join(after, sep) == x + sep + (y + sep + Join(after, sep));
      }
    } else {
      assert a[1..] == before[1..] + [x + sep + y] + after && b[1..] == before[1..] + [x, y] + after;
      JoinSplitPart(before[1..], x, y, after, sep);
    }
  }

  /** A printed session containing a colon can pass for a session and a category. */
  lemma ColonSessionPrints(p: Printed, session: string, category: int)
    ensures var text := "category" + "=" + FormatInt(category);
            var a := p.(sessionId := Some(session + (":" + text)), categoryId := None);
            var b := p.(sessionId := Some(session), categoryId := Some(category));
            a != b && PrintKey(a) == PrintKey(b)
  {
    var x, y := "session" + "=" + session, "category" + "=" + FormatInt(category);
    var a := p.(sessionId := Some(session + (":" + y)), categoryId := None);
    var b := p.(sessionId := Some(session), categoryId := Some(category));
    var user, rest := Piece("user", Map(FormatInt, p.userId)), ListPieces(p) + (BoundPieces(p) + FlagPieces(p));
    PartsInFour(a);
    PartsInFour(b);
    ConcatAssociates("session" + "=", session, ":", y);
    JoinSplitInner([Head, p.feedType, LimitText(p.limit)], user, x, y, rest);
  }

  lemma ConcatAssociates(a: string, b: string, c: string, d: string)
    ensures a + (b + (c + d)) == a + b + c + d
  {
  }

  lemma JoinSplitInner(head: seq<string>, before: seq<string>, x: string, y: string, after: seq<string>)
    ensures Join(head + (before + [x + ":" + y] + [] + after), ":") == Join(head + (before + [x] + [y] + after), ":")
  {
    JoinSplitPart(head + before, x, y, after, ":");
    assert head + (before + [x + ":" + y] + [] + after) == (head + before) + [x + ":" + y] + after;
    assert head + (before + [x] + [y] + after) == (head + before) + [x, y] + after;
  }

  /** A printed query containing a colon can pass for a query and a brand filter. */
  lemma ColonQueryPrints(p: Printed, query: string, ids: seq<int>)
    requires ids != []
    ensures var text := "brands" + "=" + IdsText(ids).value;
            var a := p.(query := Some(query + (":" + text)), brandIds := []);
            var b := p.(query := Some(query), brandIds := ids);
            a != b && PrintKey(a) == PrintKey(b)
  {
    var x, y := "query" + "=" + query, "brands" + "=" + IdsText(ids).value;
    var a := p.(query := Some(query + (":" + y)), brandIds := []);
    var b := p.(query := Some(query), brandIds := ids);
    PartsInFour(a);
    PartsInFour(b);
    ConcatAssociates("query" + "=", query, ":", y);
    ListPiecesOf(a, [x + ":" + y], []);
    ListPiecesOf(b, [x], [y]);
    var tags, rest := Piece("tags", IdsText(p.tagIds)), BoundPieces(p) + FlagPieces(p);
    JoinSplitLater([Head, p.feedType, LimitText(p.limit)], IdentityPieces(p), x, y, tags, rest);
  }

  lemma ListPiecesOf(p: Printed, q: seq<string>, brands: seq<string>)
    requires Piece("query", p.query) == q && Piece("brands", IdsText(p.brandIds)) == brands
    ensures ListPieces(p) == q + brands + Piece("tags", IdsText(p.tagIds))
  {
  }

  lemma JoinSplitLater(head: seq<string>, before: seq<string>, x: string, y: string, tags: seq<string>,
                       rest: seq<string>)
    ensures Join(head + (before + (([x + ":" + y] + [] + tags) + rest)), ":") ==
            Join(head + (before + (([x] + [y] + tags) + rest)), ":")
  {
    JoinSplitPart(head + before, x, y, tags + rest, ":");
    assert head + (before + (([x + ":" + y] + [] + tags) + rest)) == (head + before) + [x + ":" + y] + (tags + rest);
    assert head + (before + (([x] + [y] + tags) + rest)) == (head + before) + [x, y] + (tags + rest);
  }

  /** Two queries that differ only in case share a key. */
  lemma QueryCaseCollides(lower: string -> string, r: Request, p: string, q: string)
    requires p != q && lower(p) == lower(q)
    ensures r.(query := Some(p)) != r.(query := Some(q))
    ensures Key(lower, r.(query := Some(p))) == Key(lower, r.(query := Some(q)))
  {
    assert PrintedOf(lower, r.(query := Some(p))) == PrintedOf(lower, r.(query := Some(q)));
  }

  /** Two price bounds that round to the same hundredth share a key. */
  lemma RoundedPriceCollides(lower: string -> string, r: Request, x: real, y: real)
    requires x != y && ShownOf(x) == ShownOf(y)
    ensures r.(filters := r.filters.(priceMin := Some(x))) != r.(filters := r.filters.(priceMin := Some(y)))
    ensures Key(lower, r.(filters := r.filters.(priceMin := Some(x)))) ==
            Key(lower, r.(filters := r.filters.(priceMin := Some(y))))
  {
    assert PrintedOf(lower, r.(filters := r.filters.(priceMin := Some(x)))) ==
           PrintedOf(lower, r.(filters := r.filters.(priceMin := Some(y))));
  }

  lemma RoundedPriceExample()
    ensures ShownOf(1.001) == ShownOf(1.004)
  {
    assert RoundHalfEven(1.001 * 100.0) == 100 == RoundHalfEven(1.004 * 100.0);
  }
}
