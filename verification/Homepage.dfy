/** The homepage service: section rows, a cached full page and cached section products, and the
    invalidation that writes perform. The catalogue reader is a fixed function. */
module Homepage {
  import opened Common
  import opened Text

  datatype SectionType = Trending | Featured | Category | Custom | Unknown(name: string)

  datatype Section = Section(id: int, title: Option<string>, kind: SectionType, referenceId: Option<int>,
                             sortOrder: int, isActive: bool)

  datatype Product = Product(id: int, name: string)

  datatype Shown = Shown(section: Section, products: seq<Product>)

  datatype Error =
    | InvalidType | InvalidTitle | ReferenceRequired | InvalidSortOrder | EmptyReorder | InvalidId | DuplicateId
    | NotFound | Failed

  type Rows = map<int, Section>

  /** GetSectionProducts by type, reference and limit. */
  type Catalog = (SectionType, Option<int>, int) -> Result<seq<Product>, Error>

  const ProductLimit := 20
  const PageTtl := 120
  const SectionTtl := 300

  // ----- The cacheless answers -----

  function Resolve(c: Catalog, s: Section): Result<Shown, Error> {
    match c(s.kind, s.referenceId, ProductLimit)
    case Err(_) => Err(Failed)
    case Ok(products) => Ok(Shown(s, products))
  }

  /** The sections that resolve, in order; the others are skipped. */
  function Assemble(c: Catalog, sections: seq<Section>): seq<Shown> {
    if sections == [] then []
    else
      var before, last := Assemble(c, sections[..|sections| - 1]), Resolve(c, sections[|sections| - 1]);
      if last.Ok? then before + [last.value] else before
  }

  /** ORDER BY sort_order, id. */
  predicate Before(a: Section, b: Section) {
    a.sortOrder < b.sortOrder || (a.sortOrder == b.sortOrder && a.id < b.id)
  }

  predicate InOrder(l: seq<Section>) {
    forall i, j :: 0 <= i < j < |l| ==> Before(l[i], l[j])
  }

  predicate ActiveRow(rows: Rows, s: Section) {
    s.id in rows && rows[s.id] == s && s.isActive
  }

  ghost predicate IsListing(rows: Rows, l: seq<Section>) {
    InOrder(l) && forall s :: s in l <==> ActiveRow(rows, s)
  }

  /** The page a service without caches would answer. */
  ghost predicate IsHomepage(c: Catalog, rows: Rows, page: seq<Shown>) {
    exists l :: IsListing(rows, l) && page == Assemble(c, l)
  }

  lemma {:induction false} OrderUnique(a: seq<Section>, b: seq<Section>)
    requires InOrder(a) && InOrder(b) && forall s :: s in a <==> s in b
    ensures a == b
  {
    assert a != [] ==> a[0] in a;
    assert b != [] ==> b[0] in b;
    if a != [] {
      assert a[0] in b && b[0] in a;
      assert a[0] == b[0];
      forall s ensures s in a[1..] <==> s in b[1..] {
        assert s in a[1..] <==> s in a && s != a[0];
        assert s in b[1..] <==> s in b && s != b[0];
      }
      OrderUnique(a[1..], b[1..]);
      assert a == [a[0]] + a[1..] && b == [b[0]] + b[1..];
    }
  }

  /** There is only one homepage. */
  lemma HomepageUnique(c: Catalog, rows: Rows, p: seq<Shown>, q: seq<Shown>)
    requires IsHomepage(c, rows, p) && IsHomepage(c, rows, q)
    ensures p == q
  {
    var l :| IsListing(rows, l) && p == Assemble(c, l);
    var m :| IsListing(rows, m) && q == Assemble(c, m);
    OrderUnique(l, m);
  }

  // ----- Listing the active rows -----

  function Insert(s: Section, l: seq<Section>): seq<Section> {
    if l == [] || Before(s, l[0]) then [s] + l else [l[0]] + Insert(s, l[1..])
  }

  lemma {:induction false} InsertMembers(s: Section, l: seq<Section>)
    ensures forall x :: x in Insert(s, l) <==> x in l || x == s
  {
    if !(l == [] || Before(s, l[0])) {
      InsertMembers(s, l[1..]);
      assert l == [l[0]] + l[1..];
    }
  }

  lemma {:induction false} InsertKeepsOrder(s: Section, l: seq<Section>)
    requires InOrder(l) && forall x :: x in l ==> x.id != s.id
    ensures InOrder(Insert(s, l))
  {
    if l != [] && !Before(s, l[0]) {
      InsertKeepsOrder(s, l[1..]);
      InsertMembers(s, l[1..]);
      var tail := Insert(s, l[1..]);
      forall x | x in tail ensures Before(l[0], x) {
        if x in l[1..] {
          var k :| 0 <= k < |l| - 1 && l[1..][k] == x;
          assert l[k + 1] == x;
        }
      }
    }
  }

  ghost predicate WellKeyed(rows: Rows) {
    forall id :: id in rows ==> rows[id].id == id
  }

  method ListActiveSections(rows: Rows) returns (l: seq<Section>)
    requires WellKeyed(rows)
    ensures IsListing(rows, l)
  {
    l := [];
    var rest := rows.Keys;
    while rest != {}
      invariant rest <= rows.Keys && InOrder(l)
      invariant forall s :: s in l <==> ActiveRow(rows, s) && s.id !in rest
      decreases rest
    {
      var id := AnyOf(rest);
      if rows[id].isActive {
        InsertMembers(rows[id], l);
        InsertKeepsOrder(rows[id], l);
        l := Insert(rows[id], l);
      }
      rest := rest - {id};
    }
  }

  lemma {:induction false} ListingExists(rows: Rows)
    requires WellKeyed(rows)
    ensures exists l :: IsListing(rows, l)
    decreases |rows|
  {
    if rows == map[] {
      assert IsListing(rows, []);
    } else {
      SomeId(rows.Keys);
      var id: int :| Among(rows.Keys, id);
      ListingExists(rows - {id});
      var l :| IsListing(rows - {id}, l);
      var s := rows[id];
      if s.isActive {
        InsertMembers(s, l);
        InsertKeepsOrder(s, l);
        assert IsListing(rows, Insert(s, l));
      } else {
        assert IsListing(rows, l);
      }
    }
  }

  // ----- What a page is -----

  lemma {:induction false} AssembledInTurn(c: Catalog, l: seq<Section>)
    requires forall s :: s in l ==> Resolve(c, s).Ok?
    ensures |Assemble(c, l)| == |l| && forall i :: 0 <= i < |l| ==> Resolve(c, l[i]) == Ok(Assemble(c, l)[i])
  {
    if l != [] {
      var before, last := l[..|l| - 1], l[|l| - 1];
      assert l == before + [last];
      AssembledInTurn(c, before);
      assert last in l;
    }
  }

  /** The page shows the active sections whose products the catalogue answers, twenty at most, each with
      them, in the order of position and id. */
  lemma HomepageIs(c: Catalog, rows: Rows, page: seq<Shown>)
    requires IsHomepage(c, rows, page)
    ensures forall i, j :: 0 <= i < j < |page| ==>
      var a, b := page[i].section, page[j].section;
      a.sortOrder < b.sortOrder || (a.sortOrder == b.sortOrder && a.id < b.id)
    ensures forall i :: 0 <= i < |page| ==>
      var s := page[i].section;
      s.id in rows && rows[s.id] == s && s.isActive && c(s.kind, s.referenceId, 20) == Ok(page[i].products)
    ensures forall s: Section :: s.id in rows && rows[s.id] == s && s.isActive && c(s.kind, s.referenceId, 20).Ok? ==>
      exists i :: 0 <= i < |page| && page[i].section == s
  {
    var l :| IsListing(rows, l) && page == Assemble(c, l);
    ResolvingListing(c, rows, l);
    var shown := Resolving(c, l);
    AssembledInTurn(c, shown);
    forall i | 0 <= i < |page| ensures page[i].section == shown[i] && Displayed(c, rows, shown[i]) {
      assert shown[i] in shown;
    }
    forall s: Section | s.id in rows && rows[s.id] == s && s.isActive && c(s.kind, s.referenceId, 20).Ok?
      ensures exists i :: 0 <= i < |page| && page[i].section == s
    {
      assert Displayed(c, rows, s) && s in shown;
      var i :| 0 <= i < |shown| && shown[i] == s;
      assert page[i].section == s;
    }
  }

  // ----- When a write changes the page -----

  /** The page shows the section: it is active and its products resolve. */
  predicate Displayed(c: Catalog, rows: Rows, s: Section) {
    ActiveRow(rows, s) && Resolve(c, s).Ok?
  }

  ghost predicate SameSections(c: Catalog, rows: Rows, rows': Rows) {
    forall s :: Displayed(c, rows, s) <==> Displayed(c, rows', s)
  }

  /** What the page shows of a section. */
  function Visible(c: Catalog, s: Section): Option<Section> {
    if s.isActive && Resolve(c, s).Ok? then Some(s) else None
  }

  function VisibleAt(c: Catalog, rows: Rows, id: int): Option<Section> {
    if id in rows then Visible(c, rows[id]) else None
  }

  /** A write of one row changes what is displayed exactly if it changes what the page shows of it. */
  lemma OneRowDisplayed(c: Catalog, rows: Rows, rows': Rows, id: int)
    requires WellKeyed(rows) && WellKeyed(rows') && rows' - {id} == rows - {id}
    ensures SameSections(c, rows, rows') <==> VisibleAt(c, rows, id) == VisibleAt(c, rows', id)
  {
    forall s: Section | s.id != id ensures Displayed(c, rows, s) <==> Displayed(c, rows', s) {
      assert s.id in rows <==> s.id in rows - {id};
      assert s.id in rows' <==> s.id in rows' - {id};
      assert s.id in rows ==> rows[s.id] == (rows - {id})[s.id];
      assert s.id in rows' ==> rows'[s.id] == (rows' - {id})[s.id];
    }
    if id in rows { assert Displayed(c, rows, rows[id]) <==> VisibleAt(c, rows, id).Some?; }
    if id in rows' { assert Displayed(c, rows', rows'[id]) <==> VisibleAt(c, rows', id).Some?; }
  }

  /** The listed sections that resolve. */
  function Resolving(c: Catalog, l: seq<Section>): seq<Section> {
    if l == [] then []
    else
      var before, last := Resolving(c, l[..|l| - 1]), l[|l| - 1];
      if Resolve(c, last).Ok? then before + [last] else before
  }

  lemma {:induction false} ResolvingMembers(c: Catalog, l: seq<Section>)
    ensures forall s :: s in Resolving(c, l) <==> s in l && Resolve(c, s).Ok?
  {
    if l != [] {
      ResolvingMembers(c, l[..|l| - 1]);
      assert l == l[..|l| - 1] + [l[|l| - 1]];
    }
  }

  lemma {:induction false} ResolvingOrder(c: Catalog, l: seq<Section>)
    requires InOrder(l)
    ensures InOrder(Resolving(c, l))
  {
    if l != [] {
      var before, last := l[..|l| - 1], l[|l| - 1];
      ResolvingOrder(c, before);
      ResolvingMembers(c, before);
      var shown := Resolving(c, before);
      forall k | 0 <= k < |shown| ensures Before(shown[k], last) {
        assert shown[k] in before;
      }
    }
  }

  lemma {:induction false} AssembleResolving(c: Catalog, l: seq<Section>)
    ensures Assemble(c, Resolving(c, l)) == Assemble(c, l)
  {
    if l != [] {
      var shown := Resolving(c, l[..|l| - 1]);
      AssembleResolving(c, l[..|l| - 1]);
      assert (shown + [l[|l| - 1]])[..|shown|] == shown;
    }
  }

  lemma ResolvingListing(c: Catalog, rows: Rows, l: seq<Section>)
    requires IsListing(rows, l)
    ensures InOrder(Resolving(c, l)) && Assemble(c, Resolving(c, l)) == Assemble(c, l)
    ensures forall s :: s in Resolving(c, l) <==> Displayed(c, rows, s)
  {
    ResolvingMembers(c, l);
    ResolvingOrder(c, l);
    AssembleResolving(c, l);
  }

  /** A right page stays right exactly if the displayed sections are the same. */
  lemma PageStaysRight(c: Catalog, rows: Rows, rows': Rows, page: seq<Shown>)
    requires WellKeyed(rows') && IsHomepage(c, rows, page)
    ensures IsHomepage(c, rows', page) <==> SameSections(c, rows, rows')
  {
    var l :| IsListing(rows, l) && page == Assemble(c, l);
    ListingExists(rows');
    var m :| IsListing(rows', m);
    ResolvingListing(c, rows, l);
    ResolvingListing(c, rows', m);
    if SameSections(c, rows, rows') {
      forall s ensures s in Resolving(c, l) <==> s in Resolving(c, m) {
        assert Displayed(c, rows, s) <==> Displayed(c, rows', s);
      }
      OrderUnique(Resolving(c, l), Resolving(c, m));
    }
    if IsHomepage(c, rows', page) {
      var n :| IsListing(rows', n) && page == Assemble(c, n);
      forall s ensures Displayed(c, rows, s) <==> Displayed(c, rows', s) {
        AssembleShows(c, l, s);
        AssembleShows(c, n, s);
      }
    }
  }

  // ----- Requests -----

  datatype CreateRequest = CreateRequest(title: Option<string>, kind: SectionType, referenceId: Option<int>,
                                         sortOrder: int, isActive: Option<bool>)

  datatype UpdateRequest = UpdateRequest(title: Option<string>, kind: Option<SectionType>, referenceId: Option<int>,
                                         sortOrder: Option<int>, isActive: Option<bool>)

  datatype ReorderItem = ReorderItem(id: int, sortOrder: int)

  predicate LongTitle(title: Option<string>) {
    title.Some? && |TrimSpace(title.value)| > 255
  }

  function TrimTitle(title: Option<string>): Option<string> {
    if title.None? then None else Some(TrimSpace(title.value))
  }

  function CreateProblem(r: CreateRequest): Option<Error> {
    if r.kind.Unknown? then Some(InvalidType)
    else if LongTitle(r.title) then Some(InvalidTitle)
    else if r.kind.Category? && (r.referenceId.None? || r.referenceId.value <= 0) then Some(ReferenceRequired)
    else if r.sortOrder < 0 then Some(InvalidSortOrder)
    else None
  }

  function UpdateProblem(r: UpdateRequest): Option<Error> {
    if r.kind.Some? && r.kind.value.Unknown? then Some(InvalidType)
    else if LongTitle(r.title) then Some(InvalidTitle)
    else if r.sortOrder.Some? && r.sortOrder.value < 0 then Some(InvalidSortOrder)
    else None
  }

  function Or<T>(x: Option<T>, d: T): T {
    if x.Some? then x.value else d
  }

  /** Positive, distinct ids with non-negative positions. */
  predicate GoodReorder(items: seq<ReorderItem>) {
    && items != []
    && (forall i :: 0 <= i < |items| ==> items[i].id > 0 && items[i].sortOrder >= 0)
    && forall i, j :: 0 <= i < j < |items| ==> items[i].id != items[j].id
  }

  predicate Names(items: seq<ReorderItem>, id: int) {
    exists i :: 0 <= i < |items| && items[i].id == id
  }

  lemma NamesPrefix(items: seq<ReorderItem>, n: nat, id: int)
    requires n <= |items|
    ensures Names(items[..n], id) ==> Names(items, id)
  {
    if Names(items[..n], id) {
      var i :| 0 <= i < n && items[..n][i].id == id;
      assert items[i].id == id;
    }
  }

  /** The rows after a reordering: the named ones move, and nothing else about them changes. */
  ghost predicate Reordered(rows: Rows, items: seq<ReorderItem>, rows': Rows) {
    && rows'.Keys == rows.Keys
    && (forall i :: 0 <= i < |items| ==>
      items[i].id in rows && rows'[items[i].id] == rows[items[i].id].(sortOrder := items[i].sortOrder))
    && forall id :: id in rows && !Names(items, id) ==> rows'[id] == rows[id]
  }

  method ValidateReorder(items: seq<ReorderItem>) returns (problem: Option<Error>)
    ensures problem.None? <==> GoodReorder(items)
  {
    if |items| == 0 { return Some(EmptyReorder); }
    var seen: set<int> := {};
    for n := 0 to |items|
      invariant forall i :: 0 <= i < n ==> items[i].id > 0 && items[i].sortOrder >= 0
      invariant forall i, j :: 0 <= i < j < n ==> items[i].id != items[j].id
      invariant forall i :: 0 <= i < n ==> items[i].id in seen
      invariant forall id :: id in seen ==> exists i :: 0 <= i < n && items[i].id == id
    {
      if items[n].id <= 0 { return Some(InvalidId); }
      if items[n].sortOrder < 0 { return Some(InvalidSortOrder); }
      if items[n].id in seen { return Some(DuplicateId); }
      seen := seen + {items[n].id};
    }
    return None;
  }

  // ----- The service -----

  datatype Cached<T> = Cached(value: T, expiresAt: int)

  /** The products are those of the section of this id, unless the section is gone. */
  predicate Fresh(c: Catalog, rows: Rows, id: int, ps: seq<Product>) {
    id in rows ==> c(rows[id].kind, rows[id].referenceId, ProductLimit) == Ok(ps)
  }

  ghost predicate PageRight(c: Catalog, rows: Rows, page: Option<Cached<seq<Shown>>>) {
    page.Some? ==> IsHomepage(c, rows, page.value.value)
  }

  ghost predicate SectionRight(c: Catalog, rows: Rows, products: map<int, Cached<seq<Product>>>, id: int) {
    id in products ==> Fresh(c, rows, id, products[id].value)
  }

  /** A cache entry the service wrote, unless something newer should have replaced it: wrong products
      are over a section's lifetime after a write last left some. */
  ghost predicate ProductsOk(c: Catalog, rows: Rows, products: map<int, Cached<seq<Product>>>, clock: int,
                             sectionFailed: Option<int>) {
    && (forall id :: id in products ==> products[id].expiresAt <= clock + SectionTtl)
    && forall id :: id in products && !Fresh(c, rows, id, products[id].value) ==>
         sectionFailed.Some? && products[id].expiresAt <= sectionFailed.value + SectionTtl
  }

  /** A wrong page is over a page's lifetime after a write left it, or after wrong products that it was
      put together from were over. */
  ghost predicate PageOk(c: Catalog, rows: Rows, page: Option<Cached<seq<Shown>>>, clock: int,
                         pageFailed: Option<int>, sectionFailed: Option<int>) {
    page.Some? ==>
      && page.value.expiresAt <= clock + PageTtl
      && (!IsHomepage(c, rows, page.value.value) ==>
            || (pageFailed.Some? && page.value.expiresAt <= pageFailed.value + PageTtl)
            || (sectionFailed.Some? && page.value.expiresAt <= sectionFailed.value + SectionTtl + PageTtl))
  }

  class HomepageService {
    const catalog: Catalog
    var rows: Rows
    var page: Option<Cached<seq<Shown>>>
    var products: map<int, Cached<seq<Product>>>
    ghost var clock: int
    /** The largest id the sequence has given out. */
    ghost var drawn: int
    /** When a write last left a wrong page, and wrong products of a section, in the cache. */
    ghost var pageFailed: Option<int>
    ghost var sectionFailed: Option<int>

    ghost predicate Valid()
      reads this
    {
      && WellKeyed(rows)
      && (forall id :: id in rows ==> id <= drawn) && (forall id :: id in products ==> id <= drawn)
      && (pageFailed.Some? ==> pageFailed.value <= clock) && (sectionFailed.Some? ==> sectionFailed.value <= clock)
      && ProductsOk(catalog, rows, products, clock, sectionFailed)
      && PageOk(catalog, rows, page, clock, pageFailed, sectionFailed)
    }

    /** Everything cached is what would be computed now. */
    ghost predicate Right()
      reads this
    {
      PageRight(catalog, rows, page) && forall id :: id in products ==> Fresh(catalog, rows, id, products[id].value)
    }

    constructor (catalog: Catalog, now: int)
      ensures Valid() && rows == map[] && page == None && products == map[] && this.catalog == catalog
      ensures clock == now && pageFailed == None && sectionFailed == None
    {
      this.catalog := catalog;
      rows, page, products := map[], None, map[];
      clock, drawn, pageFailed, sectionFailed := now, 0, None, None;
    }

    /** `up` says whether the cache answers. */
    method ResolveSection(s: Section, now: int, up: bool) returns (r: Result<Shown, Error>)
      requires Valid() && now >= clock && s.id in rows && rows[s.id] == s
      modifies this`products, this`clock
      ensures Valid() && clock == now
      ensures Calm(sectionFailed, SectionTtl, now) ==> r == Resolve(catalog, s)
      ensures products ==
        if up && !(s.id in old(products) && now < old(products)[s.id].expiresAt) && r.Ok? && r.value.products != []
        then old(products)[s.id := Cached(r.value.products, now + 300)] else old(products)
    {
      clock := now;
      if up && s.id in products && now < products[s.id].expiresAt { return Ok(Shown(s, products[s.id].value)); }
      var found := catalog(s.kind, s.referenceId, ProductLimit);
      if found.Err? { return Err(Failed); }
      if up && |found.value| > 0 { products := products[s.id := Cached(found.value, now + SectionTtl)]; }
      return Ok(Shown(s, found.value));
    }

    /** The answer is the one there would be without caches, unless a write left a wrong page in the last
        two minutes or wrong products in the last seven. `dbUp` says whether the database answers, and
        a cached page may be served even when it does not. */
    method GetHomepage(now: int, up: bool, dbUp: bool) returns (r: Result<seq<Shown>, Error>)
      requires Valid() && now >= clock
      modifies this`page, this`products, this`clock
      ensures Valid() && clock == now
      ensures Calm(pageFailed, 120, now) && Calm(sectionFailed, 420, now) && r.Ok? ==>
        IsHomepage(catalog, rows, r.value)
      ensures dbUp && !(up && old(page).Some? && now < old(page).value.expiresAt) ==>
        r.Ok? && page == if up then Some(Cached(r.value, now + 120)) else old(page)
      ensures dbUp ==> r.Ok?
      ensures r.Err? ==> page == old(page) && products == old(products)
      ensures up && old(page).Some? && now < old(page).value.expiresAt ==> r == Ok(old(page).value.value)
    {
      clock := now;
      if up && page.Some? && now < page.value.expiresAt { return Ok(page.value.value); }
      if !dbUp { return Err(Failed); }
      var sections := ListActiveSections(rows);
      var assembled := AssembleSections(sections, now, up);
      if up { page := Some(Cached(assembled, now + PageTtl)); }
      return Ok(assembled);
    }

    method AssembleSections(sections: seq<Section>, now: int, up: bool) returns (assembled: seq<Shown>)
      requires Valid() && now >= clock && IsListing(rows, sections)
      modifies this`products, this`clock
      ensures Valid() && clock == now
      ensures Calm(sectionFailed, SectionTtl, now) ==> assembled == Assemble(catalog, sections)
    {
      clock := now;
      assembled := [];
      for n := 0 to |sections|
        invariant Valid() && clock == now
        invariant Calm(sectionFailed, SectionTtl, now) ==> assembled == Assemble(catalog, sections[..n])
      {
        assert sections[n] in sections;
        assert sections[..n + 1][..n] == sections[..n];
        var shown := ResolveSection(sections[n], now, up);
        if shown.Err? { continue; }
        assembled := assembled + [shown.value];
      }
      assert sections[..|sections|] == sections;
    }

    /** Only wrong products, not a wrong page, can make this answer wrong. */
    method GetSectionByID(id: int, now: int, up: bool, dbUp: bool) returns (r: Result<Shown, Error>)
      requires Valid() && now >= clock
      modifies this`products, this`clock
      ensures Valid()
      ensures Calm(sectionFailed, 300, now) ==>
        r == if !dbUp then Err(Failed)
             else if id !in rows then Err(NotFound)
             else match catalog(rows[id].kind, rows[id].referenceId, 20)
               case Ok(found) => Ok(Shown(rows[id], found))
               case Err(_) => Err(Failed)
      ensures products ==
        if up && !(id in old(products) && now < old(products)[id].expiresAt) && r.Ok? && r.value.products != []
        then old(products)[id := Cached(r.value.products, now + 300)] else old(products)
    {
      if !dbUp { return Err(Failed); }
      if id !in rows { return Err(NotFound); }
      r := ResolveSection(rows[id], now, up);
    }

    /** bustHomepageCache. A DEL that fails leaves a cached page where it is. */
    method BustPage(now: int, ok: bool)
      modifies this`page, this`pageFailed
      ensures page == if ok then None else old(page)
      ensures pageFailed == if PageRight(catalog, rows, page) then old(pageFailed) else Some(now)
    {
      if ok { page := None; }
      if !PageRight(catalog, rows, page) { pageFailed := Some(now); }
    }

    /** bustSectionCache. */
    method BustSection(id: int, now: int, ok: bool)
      modifies this`products, this`sectionFailed
      ensures products == if ok then old(products) - {id} else old(products)
      ensures sectionFailed == if SectionRight(catalog, rows, products, id) then old(sectionFailed) else Some(now)
    {
      if ok { products := products - {id}; }
      if !SectionRight(catalog, rows, products, id) { sectionFailed := Some(now); }
    }

    /** A write of one row, followed by both deletions. From right caches it leaves right ones exactly if
        the page is gone or shows the same, and the products are gone or those of the new row. */
    method WriteRow(id: int, rows': Rows, now: int, sectionGone: bool, pageGone: bool)
      requires Valid() && now >= clock && WellKeyed(rows') && id in rows && rows' - {id} == rows - {id}
      modifies this`rows, this`page, this`products, this`clock, this`pageFailed, this`sectionFailed
      ensures Valid() && clock == now && rows == rows'
      ensures page == (if pageGone then None else old(page))
      ensures products == (if sectionGone then old(products) - {id} else old(products))
      ensures pageFailed == if PageRight(catalog, rows, page) then old(pageFailed) else Some(now)
      ensures sectionFailed == if SectionRight(catalog, rows, products, id) then old(sectionFailed) else Some(now)
      ensures old(Right()) ==>
        (PageRight(catalog, rows, page) <==>
          pageGone || old(page).None? || VisibleAt(catalog, old(rows), id) == VisibleAt(catalog, rows', id))
      ensures old(Right()) ==>
        (SectionRight(catalog, rows, products, id) <==>
          sectionGone || id !in old(products) || id !in rows' || SameProducts(catalog, old(rows)[id], rows'[id]))
      ensures old(Right()) ==>
        (Right() <==> PageRight(catalog, rows, page) && SectionRight(catalog, rows, products, id))
    {
      OthersKept(id, rows');
      if PageRight(catalog, rows, page) { PageAfterWrite(id, rows'); }
      rows, clock := rows', now;
      BustSection(id, now, sectionGone);
      BustPage(now, pageGone);
    }

    /** A right page stays right exactly if it shows the same of the written row. */
    lemma PageAfterWrite(id: int, rows': Rows)
      requires WellKeyed(rows) && WellKeyed(rows') && rows' - {id} == rows - {id} && PageRight(catalog, rows, page)
      ensures PageRight(catalog, rows', page) <==>
        page.None? || VisibleAt(catalog, rows, id) == VisibleAt(catalog, rows', id)
    {
      OneRowDisplayed(catalog, rows, rows', id);
      if page.Some? { PageStaysRight(catalog, rows, rows', page.value.value); }
    }

    /** The products of the other rows stay as right as they were. */
    lemma OthersKept(id: int, rows': Rows)
      requires rows' - {id} == rows - {id}
      ensures rows'.Keys <= rows.Keys + {id}
      ensures forall other :: other in products && other != id ==>
        (Fresh(catalog, rows', other, products[other].value) <==> Fresh(catalog, rows, other, products[other].value))
    {
      forall other | other != id
        ensures (other in rows' <==> other in rows) && (other in rows ==> rows'[other] == rows[other])
      {
        assert other in rows' <==> other in rows' - {id};
        assert other in rows <==> other in rows - {id};
        assert other in rows ==> rows[other] == (rows - {id})[other];
        assert other in rows' ==> rows'[other] == (rows' - {id})[other];
      }
    }

    /** `newId` comes from the sequence; `stored` says whether the INSERT succeeded, `pageGone` whether
        the page could be deleted from the cache. A page that stays is wrong exactly if it ought to show
        the new section. */
    method CreateSection(req: CreateRequest, newId: int, now: int, stored: bool, pageGone: bool)
      returns (r: Result<Section, Error>)
      requires Valid() && now >= clock && newId > drawn
      modifies this`rows, this`page, this`clock, this`drawn, this`pageFailed
      ensures Valid()
      ensures r.Ok? <==>
        && stored && !req.kind.Unknown? && (req.title.Some? ==> |TrimSpace(req.title.value)| <= 255)
        && (req.kind.Category? ==> req.referenceId.Some? && req.referenceId.value > 0) && req.sortOrder >= 0
      ensures CreateProblem(req).Some? ==> r == Err(CreateProblem(req).value)
      ensures r == Err(InvalidType) <==> req.kind.Unknown?
      ensures r == Err(InvalidTitle) <==>
        !req.kind.Unknown? && req.title.Some? && |TrimSpace(req.title.value)| > 255
      ensures r.Ok? ==>
        r.value ==
        Section(newId, TrimTitle(req.title), req.kind, req.referenceId, req.sortOrder, Or(req.isActive, true))
      ensures rows == if r.Ok? then old(rows)[newId := r.value] else old(rows)
      ensures page == if r.Ok? && pageGone then None else old(page)
      ensures pageFailed == if r.Err? || PageRight(catalog, rows, page) then old(pageFailed) else Some(now)
      ensures old(Right()) ==>
        (Right() <==> r.Err? || pageGone || old(page).None? || Visible(catalog, r.value).None?)
    {
      var problem := CreateProblem(req);
      if problem.Some? { return Err(problem.value); }
      var s := Section(newId, TrimTitle(req.title), req.kind, req.referenceId, req.sortOrder, true);
      if req.isActive.Some? { s := s.(isActive := req.isActive.value); }
      if !stored { return Err(Failed); }
      InsertRow(s, now, pageGone);
      return Ok(s);
    }

    method InsertRow(s: Section, now: int, pageGone: bool)
      requires Valid() && now >= clock && s.id > drawn
      modifies this`rows, this`page, this`clock, this`drawn, this`pageFailed
      ensures Valid() && rows == old(rows)[s.id := s]
      ensures page == if pageGone then None else old(page)
      ensures pageFailed == if PageRight(catalog, rows, page) then old(pageFailed) else Some(now)
      ensures old(Right()) ==> (Right() <==> pageGone || old(page).None? || Visible(catalog, s).None?)
    {
      var rows' := rows[s.id := s];
      assert rows' - {s.id} == rows - {s.id};
      OthersKept(s.id, rows');
      if PageRight(catalog, rows, page) { PageAfterWrite(s.id, rows'); }
      rows, clock, drawn := rows', now, s.id;
      BustPage(now, pageGone);
    }

    /** A page that stays is wrong exactly if it shows the section and something about it changed, or the
        change makes it appear or disappear; products that stay exactly if the catalogue answers
        differently for the new type and reference. */
    method UpdateSection(id: int, req: UpdateRequest, now: int, stored: bool, sectionGone: bool, pageGone: bool)
      returns (r: Result<Section, Error>)
      requires Valid() && now >= clock
      modifies this`rows, this`page, this`products, this`clock, this`pageFailed, this`sectionFailed
      ensures Valid()
      ensures r.Ok? <==>
        && id in old(rows) && stored && !(req.kind.Some? && req.kind.value.Unknown?)
        && (req.title.Some? ==> |TrimSpace(req.title.value)| <= 255)
        && (req.sortOrder.Some? ==> req.sortOrder.value >= 0)
      ensures r.Ok? ==>
        var s := old(rows)[id];
        && r.value.id == s.id
        && r.value.title == (if req.title.Some? then Some(TrimSpace(req.title.value)) else s.title)
        && r.value.kind == (if req.kind.Some? then req.kind.value else s.kind)
        && r.value.referenceId == (if req.referenceId.Some? then req.referenceId else s.referenceId)
        && r.value.sortOrder == (if req.sortOrder.Some? then req.sortOrder.value else s.sortOrder)
        && r.value.isActive == (if req.isActive.Some? then req.isActive.value else s.isActive)
      ensures r.Err? ==> r.error == if UpdateProblem(req).Some? then UpdateProblem(req).value
                                    else if id !in old(rows) then NotFound else Failed
      ensures rows == if r.Ok? then old(rows)[id := r.value] else old(rows)
      ensures pageFailed == if r.Err? || PageRight(catalog, rows, page) then old(pageFailed) else Some(now)
      ensures sectionFailed == if r.Err? || SectionRight(catalog, rows, products, id)
                               then old(sectionFailed) else Some(now)
      ensures old(Right()) ==>
        (Right() <==>
          || r.Err?
          || (&& (pageGone || old(page).None? || Visible(catalog, old(rows)[id]) == Visible(catalog, r.value))
              && (sectionGone || id !in old(products) || SameProducts(catalog, old(rows)[id], r.value))))
    {
      var problem := UpdateProblem(req);
      if problem.Some? { return Err(problem.value); }
      if id !in rows { return Err(NotFound); }
      var s := rows[id];
      if req.title.Some? { s := s.(title := TrimTitle(req.title)); }
      if req.kind.Some? { s := s.(kind := req.kind.value); }
      if req.referenceId.Some? { s := s.(referenceId := req.referenceId); }
      if req.sortOrder.Some? { s := s.(sortOrder := req.sortOrder.value); }
      if req.isActive.Some? { s := s.(isActive := req.isActive.value); }
      if !stored { return Err(Failed); }
      WriteRow(id, rows[id := s], now, sectionGone, pageGone);
      return Ok(s);
    }

    /** A page that stays is wrong exactly if it shows the section. Products that stay are never asked for
        again, since the sequence gives no id twice. */
    method DeleteSection(id: int, now: int, stored: bool, sectionGone: bool, pageGone: bool)
      returns (err: Option<Error>)
      requires Valid() && now >= clock
      modifies this`rows, this`page, this`products, this`clock, this`pageFailed, this`sectionFailed
      ensures Valid()
      ensures err == if !stored then Some(Failed) else if id !in old(rows) then Some(NotFound) else None
      ensures rows == if err.None? then old(rows) - {id} else old(rows)
      ensures pageFailed == if err.Some? || PageRight(catalog, rows, page) then old(pageFailed) else Some(now)
      ensures sectionFailed == old(sectionFailed)
      ensures old(Right()) ==>
        (Right() <==> err.Some? || pageGone || old(page).None? || !old(Displays(id)))
      ensures old(Right()) ==> (Right() <==> PageRight(catalog, rows, page))
      ensures page == (if err.None? && pageGone then None else old(page)) && clock <= now
    {
      if !stored { return Some(Failed); }
      if id !in rows { return Some(NotFound); }
      assert rows - {id} - {id} == rows - {id};
      WriteRow(id, rows - {id}, now, sectionGone, pageGone);
      return None;
    }

    /** The section is active and its products resolve. */
    predicate Displays(id: int)
      reads this
    {
      id in rows && Visible(catalog, rows[id]).Some?
    }

    /** A page that stays is wrong exactly if the flag changed and the section resolves. Products do not
        depend on the flag. */
    method ToggleActive(id: int, active: bool, now: int, stored: bool, sectionGone: bool, pageGone: bool)
      returns (err: Option<Error>)
      requires Valid() && now >= clock
      modifies this`rows, this`page, this`products, this`clock, this`pageFailed, this`sectionFailed
      ensures Valid()
      ensures err == if !stored then Some(Failed) else if id !in old(rows) then Some(NotFound) else None
      ensures rows == if err.None? then old(rows)[id := old(rows)[id].(isActive := active)] else old(rows)
      ensures pageFailed == if err.Some? || PageRight(catalog, rows, page) then old(pageFailed) else Some(now)
      ensures sectionFailed == if err.Some? || SectionRight(catalog, rows, products, id)
                               then old(sectionFailed) else Some(now)
      ensures old(Right()) ==>
        (Right() <==>
          || err.Some? || pageGone || old(page).None?
          || old(rows)[id].isActive == active || Resolve(catalog, old(rows)[id]).Err?)
      ensures old(Right()) ==> sectionFailed == old(sectionFailed)
    {
      if !stored { return Some(Failed); }
      if id !in rows { return Some(NotFound); }
      var rows' := rows[id := rows[id].(isActive := active)];
      assert rows' - {id} == rows - {id};
      WriteRow(id, rows', now, sectionGone, pageGone);
      return None;
    }

    /** All the named sections move, or none does. Products do not depend on the position; a page that
        stays is wrong exactly if a section it shows has a new position. */
    method ReorderSections(items: seq<ReorderItem>, now: int, committed: bool, pageGone: bool)
      returns (err: Option<Error>)
      requires Valid() && now >= clock
      modifies this`rows, this`page, this`clock, this`pageFailed
      ensures Valid()
      ensures err.None? <==>
        && items != [] && committed
        && (forall i :: 0 <= i < |items| ==> items[i].id > 0 && items[i].sortOrder >= 0 && items[i].id in old(rows))
        && forall i, j :: 0 <= i < j < |items| ==> items[i].id != items[j].id
      ensures err.None? ==> Reordered(old(rows), items, rows)
      ensures err.Some? ==> rows == old(rows)
      ensures page == (if err.None? && pageGone then None else old(page))
      ensures pageFailed == if err.Some? || PageRight(catalog, rows, page) then old(pageFailed) else Some(now)
      ensures old(Right()) ==>
        (Right() <==> err.Some? || pageGone || old(page).None? || NothingShownMoves(catalog, old(rows), items))
    {
      var problem := ValidateReorder(items);
      if problem.Some? { return problem; }
      var tx := MoveSections(rows, items);
      if tx.None? { return Some(NotFound); }
      if !committed { return Some(Failed); }
      SetRows(items, tx.value, now, pageGone);
      return None;
    }

    method SetRows(items: seq<ReorderItem>, rows': Rows, now: int, pageGone: bool)
      requires Valid() && now >= clock && Reordered(rows, items, rows')
      modifies this`rows, this`page, this`clock, this`pageFailed
      ensures Valid() && rows == rows'
      ensures page == (if pageGone then None else old(page))
      ensures pageFailed == if PageRight(catalog, rows, page) then old(pageFailed) else Some(now)
      ensures old(Right()) ==>
        (Right() <==> pageGone || old(page).None? || NothingShownMoves(catalog, old(rows), items))
    {
      ReorderKeepsProducts(items, rows');
      ReorderedDisplayed(catalog, rows, items, rows');
      if page.Some? && IsHomepage(catalog, rows, page.value.value) {
        PageStaysRight(catalog, rows, rows', page.value.value);
      }
      rows, clock := rows', now;
      BustPage(now, pageGone);
    }

    lemma ReorderKeepsProducts(items: seq<ReorderItem>, rows': Rows)
      requires WellKeyed(rows) && Reordered(rows, items, rows')
      ensures WellKeyed(rows')
      ensures forall id :: id in products ==>
        (Fresh(catalog, rows', id, products[id].value) <==> Fresh(catalog, rows, id, products[id].value))
    {
      forall id | id in rows ensures rows'[id] == rows[id].(sortOrder := rows'[id].sortOrder) {
        ReorderedRow(rows, items, rows', id);
      }
    }

    /** A failed deletion of the page leaves readers a page with a section that is gone. */
    method StalePage(id: int, now: int) returns (r: Result<seq<Shown>, Error>)
      requires Valid() && Right() && now >= clock && Displays(id)
      requires page.Some? && now < page.value.expiresAt
      modifies this`rows, this`page, this`products, this`clock, this`pageFailed, this`sectionFailed
      ensures r.Ok? && !IsHomepage(catalog, rows, r.value)
    {
      var err := DeleteSection(id, now, true, true, false);
      r := GetHomepage(now, true, true);
    }
  }

  /** The transaction: one UPDATE after the other, given up at the first that finds no row. */
  method MoveSections(rows: Rows, items: seq<ReorderItem>) returns (tx: Option<Rows>)
    requires GoodReorder(items)
    ensures tx.Some? <==> forall i :: 0 <= i < |items| ==> items[i].id in rows
    ensures tx.Some? ==> Reordered(rows, items, tx.value)
  {
    var moved := rows;
    for n := 0 to |items|
      invariant Reordered(rows, items[..n], moved)
    {
      if items[n].id !in moved { return None; }
      ReorderNext(rows, items, n, moved);
      moved := moved[items[n].id := moved[items[n].id].(sortOrder := items[n].sortOrder)];
    }
    assert items[..|items|] == items;
    return Some(moved);
  }

  /** Nothing of the kind has happened in the last d seconds. */
  predicate Calm(failed: Option<int>, d: int, now: int) {
    failed.Some? ==> failed.value + d <= now
  }

  /** The catalogue answers the same for both sections. */
  predicate SameProducts(c: Catalog, a: Section, b: Section) {
    c(a.kind, a.referenceId, ProductLimit) == c(b.kind, b.referenceId, ProductLimit)
  }

  /** Every named section that the page shows is sent to the position it has. */
  predicate NothingShownMoves(c: Catalog, rows: Rows, items: seq<ReorderItem>) {
    forall i :: 0 <= i < |items| && items[i].id in rows && Visible(c, rows[items[i].id]).Some? ==>
      items[i].sortOrder == rows[items[i].id].sortOrder
  }

  lemma ReorderedRow(rows: Rows, items: seq<ReorderItem>, rows': Rows, id: int)
    requires Reordered(rows, items, rows') && id in rows
    ensures rows'[id] == rows[id].(sortOrder := rows'[id].sortOrder)
  {
    if Names(items, id) {
      var i :| 0 <= i < |items| && items[i].id == id;
    }
  }

  lemma ReorderedDisplayed(c: Catalog, rows: Rows, items: seq<ReorderItem>, rows': Rows)
    requires WellKeyed(rows) && Reordered(rows, items, rows')
    ensures SameSections(c, rows, rows') <==> NothingShownMoves(c, rows, items)
  {
    if NothingShownMoves(c, rows, items) {
      forall s: Section ensures Displayed(c, rows, s) <==> Displayed(c, rows', s) {
        if s.id in rows {
          ReorderedRow(rows, items, rows', s.id);
          if Names(items, s.id) {
            var i :| 0 <= i < |items| && items[i].id == s.id;
          }
        }
      }
    }
    if SameSections(c, rows, rows') {
      forall i | 0 <= i < |items| && items[i].id in rows && Visible(c, rows[items[i].id]).Some?
        ensures items[i].sortOrder == rows[items[i].id].sortOrder
      {
        assert Displayed(c, rows, rows[items[i].id]);
      }
    }
  }

  /** The assembled page shows a section exactly when it is listed and resolves. */
  lemma {:induction false} AssembleShows(c: Catalog, l: seq<Section>, s: Section)
    ensures (exists shown :: shown in Assemble(c, l) && shown.section == s) <==> s in l && Resolve(c, s).Ok?
  {
    if l != [] {
      var before, last := l[..|l| - 1], l[|l| - 1];
      AssembleShows(c, before, s);
      assert l == before + [last];
      var r := Resolve(c, last);
      if s == last && r.Ok? { assert r.value in Assemble(c, l) && r.value.section == s; }
      if s in before && Resolve(c, s).Ok? {
        var shown :| shown in Assemble(c, before) && shown.section == s;
        assert shown in Assemble(c, l);
      }
    }
  }

  lemma ReorderNext(rows: Rows, items: seq<ReorderItem>, n: nat, tx: Rows)
    requires n < |items| && GoodReorder(items) && Reordered(rows, items[..n], tx) && items[n].id in tx
    ensures Reordered(rows, items[..n + 1], tx[items[n].id := tx[items[n].id].(sortOrder := items[n].sortOrder)])
  {
    var id := items[n].id;
    var next := tx[id := tx[id].(sortOrder := items[n].sortOrder)];
    assert !Names(items[..n], id);
    forall i | 0 <= i < n + 1
      ensures items[i].id in rows && next[items[i].id] == rows[items[i].id].(sortOrder := items[i].sortOrder)
    {
      if i < n { assert items[..n][i] == items[i]; }
    }
    forall other | other in rows && !Names(items[..n + 1], other) ensures next[other] == rows[other] {
      assert items[..n + 1][n].id == id;
      assert items[..n + 1][..n] == items[..n];
      NamesPrefix(items[..n + 1], n, other);
    }
  }
}
