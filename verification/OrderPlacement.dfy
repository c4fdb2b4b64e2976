/** createOrderFromItems: reserve stock line by line inside one transaction, total the order,
    and commit everything or nothing. Prices are integer cents. */
module OrderPlacement {
  import opened Common
  import opened Inventory

  datatype CreateItem = CreateItem(productId: int, variantId: int, quantity: int)

  datatype Product = Product(id: int, name: string, slug: string)

  datatype Variant = Variant(id: int, productId: int, isActive: bool, price: int)

  datatype OrderItem = OrderItem(productId: int, variantId: int, productName: string, productSlug: string,
                                 unitPrice: int, quantity: int, totalPrice: int)

  datatype Order = Order(subtotal: int, totalAmount: int, items: seq<OrderItem>)

  datatype OrderError = InvalidInput | ProductNotFound | VariantNotFound | OutOfStock | NotStored

  /** What the product and variant repositories find; keys are the ids they were asked for. */
  datatype Catalog = Catalog(products: map<int, Product>, variants: map<int, Variant>)

  ghost predicate WellKeyed(c: Catalog) {
    && (forall i :: i in c.products ==> c.products[i].id == i)
    && (forall i :: i in c.variants ==> c.variants[i].id == i)
  }

  /** A line every check before the stock checks lets through. */
  predicate ValidLine(c: Catalog, it: CreateItem) {
    && it.productId > 0 && it.variantId > 0 && it.quantity > 0
    && it.productId in c.products
    && it.variantId in c.variants
    && c.variants[it.variantId].productId == c.products[it.productId].id
    && c.variants[it.variantId].isActive
  }

  /** The error of a line that is not valid; the checks run in this order. */
  function LineError(c: Catalog, it: CreateItem): (e: OrderError)
    requires !ValidLine(c, it)
  {
    if it.productId <= 0 || it.variantId <= 0 || it.quantity <= 0 then InvalidInput
    else if it.productId !in c.products then ProductNotFound
    else if it.variantId !in c.variants then VariantNotFound
    else InvalidInput
  }

  function Line(c: Catalog, it: CreateItem): OrderItem
    requires ValidLine(c, it)
  {
    var p, v := c.products[it.productId], c.variants[it.variantId];
    OrderItem(p.id, v.id, p.name, p.slug, v.price, it.quantity, v.price * it.quantity)
  }

  /** The lowest location that stocks the variant. */
  ghost predicate IsFirstLocation(t: Table, variant: int, location: int) {
    && RowId(variant, location) in t
    && forall id :: id in t && id.variant == variant ==> location <= id.location
  }

  ghost predicate Stocked(t: Table, variant: int) {
    exists id :: id in t && id.variant == variant
  }

  /** SELECT location_id ... WHERE variant_id = $1 ORDER BY location_id ASC LIMIT 1. */
  method FirstLocation(t: Table, variant: int) returns (r: Option<int>)
    ensures r.None? <==> !Stocked(t, variant)
    ensures r.Some? ==> IsFirstLocation(t, variant, r.value)
    ensures r.Some? ==> RowId(variant, r.value) in t
    ensures r.Some? ==> forall id :: id in t && id.variant == variant ==> r.value <= id.location
  {
    r := None;
    var rest := t.Keys;
    while rest != {}
      invariant rest <= t.Keys
      invariant r.None? ==> forall id :: id in t && id.variant == variant ==> id in rest
      invariant r.Some? ==> RowId(variant, r.value) in t
      invariant r.Some? ==> forall id :: id in t && id.variant == variant && id !in rest ==> r.value <= id.location
      decreases rest
    {
      var id :| id in rest;
      rest := rest - {id};
      if id.variant == variant && (r.None? || id.location < r.value) { r := Some(id.location); }
    }
  }

  /** Units of one variant over all lines, repeated lines included. */
  function Ordered(items: seq<CreateItem>, variant: int): int {
    if items == [] then 0
    else Ordered(items[..|items| - 1], variant)
         + (if items[|items| - 1].variantId == variant then items[|items| - 1].quantity else 0)
  }

  /** Catalogue price times quantity, added up over the lines. */
  function Worth(c: Catalog, items: seq<CreateItem>): int
    requires forall it :: it in items ==> it.variantId in c.variants
  {
    if items == [] then 0
    else
      var last := items[|items| - 1];
      Worth(c, items[..|items| - 1]) + c.variants[last.variantId].price * last.quantity
  }

  /** Each variant's price times its units over all lines. */
  function WorthOf(c: Catalog, items: seq<CreateItem>, variants: seq<int>): int
    requires forall v :: v in variants ==> v in c.variants
  {
    if variants == [] then 0
    else
      var last := variants[|variants| - 1];
      WorthOf(c, items, variants[..|variants| - 1]) + c.variants[last].price * Ordered(items, last)
  }

  predicate Distinct(ids: seq<int>) {
    forall i, j :: 0 <= i < j < |ids| ==> ids[i] != ids[j]
  }

  /** One more line adds its price times its quantity to the worth of its variant, and nothing to others. */
  lemma {:induction false} OneMoreLine(c: Catalog, items: seq<CreateItem>, it: CreateItem, variants: seq<int>)
    requires (forall v :: v in variants ==> v in c.variants) && Distinct(variants)
    ensures WorthOf(c, items + [it], variants) ==
      WorthOf(c, items, variants)
      + (if it.variantId in variants then c.variants[it.variantId].price * it.quantity else 0)
  {
    if variants != [] {
      var before, last := variants[..|variants| - 1], variants[|variants| - 1];
      OneMoreLine(c, items, it, before);
      assert variants == before + [last];
      assert (items + [it])[..|items|] == items;
      var units := Ordered(items, last);
      assert last !in before;
      if it.variantId == last {
        assert Ordered(items + [it], last) == units + it.quantity;
        assert c.variants[last].price * (units + it.quantity) ==
               c.variants[last].price * units + c.variants[last].price * it.quantity;
      } else {
        assert Ordered(items + [it], last) == units;
      }
    }
  }

  /** The total asks for exactly the units that are reserved: line by line or variant by variant, it is
      the same. */
  lemma {:induction false} WorthByVariant(c: Catalog, items: seq<CreateItem>, variants: seq<int>)
    requires (forall v :: v in variants ==> v in c.variants) && Distinct(variants)
    requires forall it :: it in items ==> it.variantId in variants
    ensures Worth(c, items) == WorthOf(c, items, variants)
  {
    if items == [] {
      NothingOrdered(c, variants);
    } else {
      var before, last := items[..|items| - 1], items[|items| - 1];
      WorthByVariant(c, before, variants);
      assert items == before + [last] && last in items;
      OneMoreLine(c, before, last, variants);
    }
  }

  lemma {:induction false} NothingOrdered(c: Catalog, variants: seq<int>)
    requires forall v :: v in variants ==> v in c.variants
    ensures WorthOf(c, [], variants) == 0
  {
    if variants != [] { NothingOrdered(c, variants[..|variants| - 1]); }
  }

  /** The rows after reserving every line: each ordered variant moves its summed quantity from
      available to reserved at its first location, and nothing else changes. */
  ghost predicate Reserved(t: Table, items: seq<CreateItem>, t': Table) {
    && t'.Keys == t.Keys
    && forall id :: id in t ==>
         var q := if IsFirstLocation(t, id.variant, id.location) then Ordered(items, id.variant) else 0;
         t'[id] == Item(t[id].available - q, t[id].reserved + q, t[id].incoming)
  }

  /** Every ordered variant is stocked and its first location holds the summed quantity. */
  ghost predicate Covered(t: Table, items: seq<CreateItem>) {
    forall it :: it in items ==>
      Stocked(t, it.variantId) &&
      forall l :: IsFirstLocation(t, it.variantId, l) ==>
        Ordered(items, it.variantId) <= t[RowId(it.variantId, l)].available
  }

  ghost predicate AllValid(c: Catalog, items: seq<CreateItem>) {
    forall it :: it in items ==> ValidLine(c, it)
  }

  /** The first lines of an order can all be served. */
  ghost predicate Servable(c: Catalog, t: Table, items: seq<CreateItem>) {
    AllValid(c, items) && Covered(t, items)
  }

  lemma {:induction false} OrderedMonotone(items: seq<CreateItem>, n: nat, variant: int)
    requires n <= |items|
    requires forall it :: it in items ==> it.quantity > 0
    ensures 0 <= Ordered(items[..n], variant) <= Ordered(items, variant)
    decreases |items|
  {
    if |items| > 0 {
      var m := |items| - 1;
      if n == |items| {
        assert items[..n] == items;
        OrderedMonotone(items[..m], m, variant);
        assert items[..m][..m] == items[..m];
      } else {
        assert items[..m][..n] == items[..n];
        OrderedMonotone(items[..m], n, variant);
      }
    } else {
      assert items[..n] == items;
    }
  }

  /** An order that can be served can be served up to any line. */
  lemma ServablePrefix(c: Catalog, t: Table, items: seq<CreateItem>, n: nat)
    requires Servable(c, t, items) && n <= |items|
    ensures Servable(c, t, items[..n])
  {
    forall it | it in items[..n]
      ensures ValidLine(c, it) && Stocked(t, it.variantId) &&
              forall l :: IsFirstLocation(t, it.variantId, l) ==>
                Ordered(items[..n], it.variantId) <= t[RowId(it.variantId, l)].available
    {
      assert it in items;
      OrderedMonotone(items, n, it.variantId);
    }
  }

  lemma SameLocations(t: Table, items: seq<CreateItem>, t': Table)
    requires Reserved(t, items, t')
    ensures forall v :: Stocked(t, v) <==> Stocked(t', v)
    ensures forall v, l :: IsFirstLocation(t, v, l) <==> IsFirstLocation(t', v, l)
  {
    assert forall id :: id in t <==> id in t';
  }

  /** One more line can be served exactly when it is valid, its variant is stocked, and what is
      left at its first location after the lines before it is enough. */
  lemma ServableNext(c: Catalog, t: Table, items: seq<CreateItem>, n: nat, t': Table)
    requires n < |items| && Servable(c, t, items[..n]) && Reserved(t, items[..n], t')
    ensures Servable(c, t, items[..n + 1]) <==> LineFits(c, t', items[n])
  {
    assert items[..n + 1][..n] == items[..n];
    assert items[..n + 1] == items[..n] + [items[n]];
    var v := items[n].variantId;
    assert Ordered(items[..n + 1], v) == Ordered(items[..n], v) + items[n].quantity;
    assert items[n] in items[..n + 1];
    SameLocations(t, items[..n], t');
    if LineFits(c, t', items[n]) {
      forall it | it in items[..n + 1]
        ensures ValidLine(c, it) && Stocked(t, it.variantId) &&
                forall l :: IsFirstLocation(t, it.variantId, l) ==>
                  Ordered(items[..n + 1], it.variantId) <= t[RowId(it.variantId, l)].available
      {
        assert it in items[..n] || it == items[n];
        if it.variantId != v { assert Ordered(items[..n + 1], it.variantId) == Ordered(items[..n], it.variantId); }
      }
    }
  }

  lemma FirstLocationUnique(t: Table, variant: int, a: int, b: int)
    requires IsFirstLocation(t, variant, a) && IsFirstLocation(t, variant, b)
    ensures a == b
  {
  }

  /** What the last ordered line takes from its first location, when that is enough. */
  ghost predicate LineFits(c: Catalog, t: Table, it: CreateItem) {
    ValidLine(c, it) && Stocked(t, it.variantId) &&
    forall l :: IsFirstLocation(t, it.variantId, l) ==> it.quantity <= t[RowId(it.variantId, l)].available
  }

  /** The line's quantity moved from available to reserved at its first location. */
  ghost predicate LineReserved(t: Table, it: CreateItem, t': Table) {
    exists l :: IsFirstLocation(t, it.variantId, l) &&
      var id := RowId(it.variantId, l);
      t' == t[id := Item(t[id].available - it.quantity, t[id].reserved + it.quantity, t[id].incoming)]
  }

  class OrderService {
    var rows: Table

    /** One turn of the loop: the checks in order, then the reservation. */
    method ReserveItem(c: Catalog, tx: InventoryTx, it: CreateItem) returns (r: Result<OrderItem, OrderError>)
      requires WellKeyed(c)
      modifies tx
      ensures r.Ok? <==> LineFits(c, old(tx.rows), it)
      ensures r.Ok? ==> r.value == Line(c, it) && LineReserved(old(tx.rows), it, tx.rows)
      ensures r.Ok? ==>
        && it.productId > 0 && it.variantId > 0 && it.quantity > 0
        && it.productId in c.products && it.variantId in c.variants
        && c.variants[it.variantId].productId == it.productId && c.variants[it.variantId].isActive
        && r.value.unitPrice == c.variants[it.variantId].price && r.value.quantity == it.quantity
        && r.value.totalPrice == c.variants[it.variantId].price * it.quantity
      ensures r == Err(InvalidInput) <==>
        || it.productId <= 0 || it.variantId <= 0 || it.quantity <= 0
        || (it.productId in c.products && it.variantId in c.variants
            && (c.variants[it.variantId].productId != it.productId || !c.variants[it.variantId].isActive))
      ensures r == Err(ProductNotFound) <==>
        it.productId > 0 && it.variantId > 0 && it.quantity > 0 && it.productId !in c.products
      ensures r == Err(VariantNotFound) <==>
        && it.productId > 0 && it.variantId > 0 && it.quantity > 0
        && it.productId in c.products && it.variantId !in c.variants
      ensures r.Err? ==> r.error == if !ValidLine(c, it) then LineError(c, it) else OutOfStock
      ensures r.Err? ==> tx.rows == old(tx.rows)
    {
      if it.productId <= 0 || it.variantId <= 0 || it.quantity <= 0 { return Err(InvalidInput); }
      if it.productId !in c.products { return Err(ProductNotFound); }
      var p := c.products[it.productId];
      if it.variantId !in c.variants { return Err(VariantNotFound); }
      var v := c.variants[it.variantId];
      if v.productId != p.id || !v.isActive { return Err(InvalidInput); }

      var location := FirstLocation(tx.rows, it.variantId);
      if location.None? { return Err(OutOfStock); }
      assert IsFirstLocation(tx.rows, it.variantId, location.value);
      var reserved := tx.Reserve(RowId(it.variantId, location.value), it.quantity);
      if reserved.Err? { return Err(OutOfStock); }
      return Ok(OrderItem(p.id, v.id, p.name, p.slug, v.price, it.quantity, v.price * it.quantity));
    }

    /** The caller sees either the whole order or no change at all. `stored` says whether the
        order rows could be inserted and the transaction committed. */
    method CreateOrderFromItems(c: Catalog, items: seq<CreateItem>, stored: bool)
      returns (r: Result<Order, OrderError>)
      requires WellKeyed(c)
      modifies this
      ensures r.Ok? <==> stored && AllValid(c, items) && Covered(old(rows), items)
      ensures r.Ok? ==> Reserved(old(rows), items, rows) && Priced(c, items, r.value)
      ensures r.Ok? ==> |r.value.items| == |items| && forall k :: 0 <= k < |items| ==>
        && items[k].productId in c.products && items[k].variantId in c.variants
        && var p, v, line := c.products[items[k].productId], c.variants[items[k].variantId], r.value.items[k];
           && line.productId == items[k].productId && line.variantId == items[k].variantId
           && line.productName == p.name && line.productSlug == p.slug && line.unitPrice == v.price
           && line.quantity == items[k].quantity && line.totalPrice == v.price * items[k].quantity
      ensures r.Ok? ==> r.value.subtotal == r.value.totalAmount == Worth(c, items)
      ensures r.Err? ==> rows == old(rows)
      ensures r.Err? && r.error != NotStored ==>
        exists k ::
          && 0 <= k < |items|
          && Servable(c, old(rows), items[..k]) && !Servable(c, old(rows), items[..k + 1])
          && r.error == if !ValidLine(c, items[k]) then LineError(c, items[k]) else OutOfStock
      ensures r == Err(NotStored) ==> !stored && Servable(c, old(rows), items)
    {
      var tx := new InventoryTx(rows);
      var o := Order(0, 0, []);
      ghost var t := rows;
      assert items[..0] == [];
      for n := 0 to |items|
        invariant rows == t && Progress(c, t, items[..n], tx.rows, o)
      {
        ghost var before := tx.rows;
        var item := ReserveItem(c, tx, items[n]);
        if item.Err? {
          ProgressStops(c, t, items, n, before, o, item.error);
          return Err(item.error);
        }
        ProgressNext(c, t, items, n, before, o, tx.rows);
        o := Order(o.subtotal + item.value.totalPrice, o.totalAmount + item.value.totalPrice, o.items + [item.value]);
      }
      assert items[..|items|] == items;
      if !stored { return Err(NotStored); }
      PricedLines(c, items, o);
      rows := tx.rows;
      return Ok(o);
    }
  }

  /** Everything the loop has built from the first lines. */
  ghost predicate Progress(c: Catalog, t: Table, items: seq<CreateItem>, t': Table, o: Order) {
    && Servable(c, t, items)
    && Reserved(t, items, t')
    && Priced(c, items, o)
  }

  /** The order lists every line at its catalogue price, and both totals are their sum. */
  ghost predicate Priced(c: Catalog, items: seq<CreateItem>, o: Order) {
    && AllValid(c, items)
    && o.subtotal == o.totalAmount == Worth(c, items)
    && |o.items| == |items|
    && forall k :: 0 <= k < |items| ==> o.items[k] == Line(c, items[k])
  }

  lemma PricedLines(c: Catalog, items: seq<CreateItem>, o: Order)
    requires WellKeyed(c) && Priced(c, items, o)
    ensures |o.items| == |items| && forall k :: 0 <= k < |items| ==>
      && items[k].productId in c.products && items[k].variantId in c.variants
      && var p, v, line := c.products[items[k].productId], c.variants[items[k].variantId], o.items[k];
         && line.productId == items[k].productId && line.variantId == items[k].variantId
         && line.productName == p.name && line.productSlug == p.slug && line.unitPrice == v.price
         && line.quantity == items[k].quantity && line.totalPrice == v.price * items[k].quantity
  {
    forall k | 0 <= k < |items| ensures ValidLine(c, items[k]) && o.items[k] == Line(c, items[k]) {
      assert items[k] in items;
    }
  }

  lemma ProgressStops(c: Catalog, t: Table, items: seq<CreateItem>, n: nat, t': Table, o: Order, e: OrderError)
    requires n < |items| && Progress(c, t, items[..n], t', o) && !LineFits(c, t', items[n])
    requires e == if !ValidLine(c, items[n]) then LineError(c, items[n]) else OutOfStock
    ensures FailsAt(c, t, items, n, e) && !Servable(c, t, items)
  {
    ServableNext(c, t, items, n, t');
    if Servable(c, t, items) { ServablePrefix(c, t, items, n + 1); }
  }

  lemma ProgressNext(c: Catalog, t: Table, items: seq<CreateItem>, n: nat, before: Table, o: Order, after: Table)
    requires n < |items| && Progress(c, t, items[..n], before, o)
    requires LineFits(c, before, items[n]) && LineReserved(before, items[n], after)
    ensures var line := Line(c, items[n]);
            Progress(c, t, items[..n + 1], after,
                     Order(o.subtotal + line.totalPrice, o.totalAmount + line.totalPrice, o.items + [line]))
  {
    assert Servable(c, t, items[..n + 1]) by { ServableNext(c, t, items, n, before); }
    assert Reserved(t, items[..n + 1], after) by { ReserveLine(t, items, n, before, after); }
    PricedNext(c, items, n, o);
  }

  lemma PricedNext(c: Catalog, items: seq<CreateItem>, n: nat, o: Order)
    requires n < |items| && Priced(c, items[..n], o) && ValidLine(c, items[n])
    ensures var line := Line(c, items[n]);
            Priced(c, items[..n + 1],
                   Order(o.subtotal + line.totalPrice, o.totalAmount + line.totalPrice, o.items + [line]))
  {
    assert items[..n + 1][..n] == items[..n];
    assert items[..n + 1] == items[..n] + [items[n]];
  }

  /** Line k is the first that cannot be served, and the error is the one for that line. */
  ghost predicate FailsAt(c: Catalog, t: Table, items: seq<CreateItem>, k: int, e: OrderError) {
    && 0 <= k < |items|
    && Servable(c, t, items[..k]) && !Servable(c, t, items[..k + 1])
    && e == if !ValidLine(c, items[k]) then LineError(c, items[k]) else OutOfStock
  }

  lemma ReserveAt(t: Table, items: seq<CreateItem>, n: nat, location: int, before: Table, after: Table)
    requires n < |items| && Reserved(t, items[..n], before)
    requires IsFirstLocation(t, items[n].variantId, location)
    requires var id := RowId(items[n].variantId, location);
             after == before[id := Item(before[id].available - items[n].quantity,
                                        before[id].reserved + items[n].quantity, before[id].incoming)]
    ensures Reserved(t, items[..n + 1], after)
  {
    assert items[..n + 1][..n] == items[..n];
    var v := items[n].variantId;
    forall id | id in t
      ensures var q := if IsFirstLocation(t, id.variant, id.location) then Ordered(items[..n + 1], id.variant) else 0;
              after[id] == Item(t[id].available - q, t[id].reserved + q, t[id].incoming)
    {
      if id.variant == v && IsFirstLocation(t, v, id.location) { FirstLocationUnique(t, v, id.location, location); }
    }
  }

  lemma ReserveLine(t: Table, items: seq<CreateItem>, n: nat, before: Table, after: Table)
    requires n < |items| && Reserved(t, items[..n], before)
    requires LineReserved(before, items[n], after)
    ensures Reserved(t, items[..n + 1], after)
  {
    SameLocations(t, items[..n], before);
    var l :| IsFirstLocation(before, items[n].variantId, l) &&
      var id := RowId(items[n].variantId, l);
      after == before[id := Item(before[id].available - items[n].quantity,
                                 before[id].reserved + items[n].quantity, before[id].incoming)];
    ReserveAt(t, items, n, l, before, after);
  }
}
