/** The order listing: a WHERE clause grown filter by filter with numbered placeholders, then
    a count and a page of the same rows. */
module OrderQuery {
  import opened Common
  import opened Sql
  import opened Text

  datatype Order = Order(id: int, number: string, userId: Option<int>, cartId: Option<int>, status: string,
                         createdAt: int)

  datatype ListFilter = ListFilter(
    orderId: Option<int>,
    orderNumber: Option<string>,
    userId: Option<int>,
    cartId: Option<int>,
    statuses: seq<string>,
    createdFrom: Option<int>,
    createdTo: Option<int>,
    limit: int,
    offset: int)

  /** The clause texts, each with one placeholder. */
  datatype Test = IdIs | NumberIs | UserIs | CartIs | StatusAny | CreatedFrom | CreatedTo

  datatype Clause = Clause(test: Test, placeholder: int)

  /** The test on one row; a NULL column satisfies none. */
  predicate Passes(test: Test, v: Value, o: Order) {
    match test
    case IdIs => v == Int(o.id)
    case NumberIs => v == Value.Text(o.number)
    case UserIs => o.userId.Some? && v == Int(o.userId.value)
    case CartIs => o.cartId.Some? && v == Int(o.cartId.value)
    case StatusAny => v.Texts? && o.status in v.texts
    case CreatedFrom => v.Int? && o.createdAt >= v.i
    case CreatedTo => v.Int? && o.createdAt <= v.i
  }

  predicate Holds(clauses: seq<Clause>, args: seq<Value>, o: Order) {
    forall k :: 0 <= k < |clauses| ==> Passes(clauses[k].test, Arg(args, clauses[k].placeholder), o)
  }

  predicate Positive(x: Option<int>) {
    x.Some? && x.value > 0
  }

  predicate Named(x: Option<string>) {
    x.Some? && TrimSpace(x.value) != ""
  }

  /** What a filter asks of an order. */
  predicate Matches(f: ListFilter, o: Order) {
    && MatchesIdentity(f, o)
    && (f.statuses != [] ==> o.status in f.statuses)
    && (f.createdFrom.Some? ==> o.createdAt >= f.createdFrom.value)
    && (f.createdTo.Some? ==> o.createdAt <= f.createdTo.value)
  }

  /** Every clause refers to an argument that has been bound. */
  predicate Bound(clauses: seq<Clause>, n: nat) {
    forall k :: 0 <= k < |clauses| ==> 1 <= clauses[k].placeholder <= n
  }

  /** More arguments at the end change nothing. */
  lemma HoldsExtends(clauses: seq<Clause>, args: seq<Value>, more: seq<Value>, o: Order)
    requires Bound(clauses, |args|)
    ensures Holds(clauses, args + more, o) <==> Holds(clauses, args, o)
  {
    assert forall k :: 0 <= k < |clauses| ==>
      Arg(args + more, clauses[k].placeholder) == Arg(args, clauses[k].placeholder);
  }

  lemma HoldsSnoc(clauses: seq<Clause>, c: Clause, args: seq<Value>, o: Order)
    ensures Holds(clauses + [c], args, o) <==> Holds(clauses, args, o) && Passes(c.test, Arg(args, c.placeholder), o)
  {
    var all := clauses + [c];
    if Holds(all, args, o) {
      forall k | 0 <= k < |clauses| ensures Passes(clauses[k].test, Arg(args, clauses[k].placeholder), o) {
        assert all[k] == clauses[k];
      }
      assert all[|clauses|] == c;
    }
  }

  class WhereBuilder {
    var clauses: seq<Clause>
    var args: seq<Value>
    var i: int

    ghost predicate Valid()
      reads this
    {
      i == |args| + 1 && Bound(clauses, |args|)
    }

    constructor ()
      ensures Valid() && clauses == [] && args == []
    {
      clauses, args, i := [], [], 1;
    }

    method Add(test: Test, v: Value)
      requires Valid()
      modifies this
      ensures Valid()
      ensures forall o :: Holds(clauses, args, o) <==> old(Holds(clauses, args, o)) && Passes(test, v, o)
    {
      ghost var c, a := clauses, args;
      clauses := clauses + [Clause(test, i)];
      args := args + [v];
      i := i + 1;
      forall o ensures Holds(clauses, args, o) <==> Holds(c, a, o) && Passes(test, v, o) {
        HoldsExtends(c, a, [v], o);
        HoldsSnoc(c, clauses[|c|], args, o);
      }
    }
  }

  /** The filters on who the order is and belongs to. */
  predicate MatchesIdentity(f: ListFilter, o: Order) {
    && (Positive(f.orderId) ==> o.id == f.orderId.value)
    && (Named(f.orderNumber) ==> o.number == TrimSpace(f.orderNumber.value))
    && (Positive(f.userId) ==> o.userId == f.userId)
    && (Positive(f.cartId) ==> o.cartId == f.cartId)
  }

  method AddIdentity(b: WhereBuilder, f: ListFilter)
    requires b.Valid() && b.clauses == []
    modifies b
    ensures b.Valid() && forall o :: Holds(b.clauses, b.args, o) <==> MatchesIdentity(f, o)
  {
    if f.orderId.Some? && f.orderId.value > 0 { b.Add(IdIs, Int(f.orderId.value)); }
    if f.orderNumber.Some? && TrimSpace(f.orderNumber.value) != "" {
      b.Add(NumberIs, Value.Text(TrimSpace(f.orderNumber.value)));
    }
    if f.userId.Some? && f.userId.value > 0 { b.Add(UserIs, Int(f.userId.value)); }
    if f.cartId.Some? && f.cartId.value > 0 { b.Add(CartIs, Int(f.cartId.value)); }
  }

  /** The WHERE clause means exactly the filter. */
  method BuildOrdersWhere(f: ListFilter) returns (clauses: seq<Clause>, args: seq<Value>)
    ensures Bound(clauses, |args|)
    ensures forall o :: Holds(clauses, args, o) <==> Matches(f, o)
    ensures forall o :: Holds(clauses, args, o) <==>
      && (f.orderId.Some? && f.orderId.value > 0 ==> o.id == f.orderId.value)
      && (f.orderNumber.Some? && TrimSpace(f.orderNumber.value) != "" ==> o.number == TrimSpace(f.orderNumber.value))
      && (f.userId.Some? && f.userId.value > 0 ==> o.userId == f.userId)
      && (f.cartId.Some? && f.cartId.value > 0 ==> o.cartId == f.cartId)
      && (f.statuses != [] ==> o.status in f.statuses)
      && (f.createdFrom.Some? ==> o.createdAt >= f.createdFrom.value)
      && (f.createdTo.Some? ==> o.createdAt <= f.createdTo.value)
  {
    var b := new WhereBuilder();
    AddIdentity(b, f);
    if |f.statuses| > 0 { b.Add(StatusAny, Texts(f.statuses)); }
    if f.createdFrom.Some? { b.Add(CreatedFrom, Int(f.createdFrom.value)); }
    if f.createdTo.Some? { b.Add(CreatedTo, Int(f.createdTo.value)); }
    return b.clauses, b.args;
  }

  function PageLimit(limit: int): nat {
    if limit <= 0 || limit > 200 then 50 else limit
  }

  function PageOffset(offset: int): nat {
    if offset < 0 then 0 else offset
  }

  /** The database's answer to the page query: WHERE, then LIMIT and OFFSET by placeholder. */
  function RunPage(orders: seq<Order>, clauses: seq<Clause>, args: seq<Value>, limitPos: int,
                   offsetPos: int): seq<Order> {
    var rows := Select(orders, o => Holds(clauses, args, o));
    var limit, offset := Arg(args, limitPos), Arg(args, offsetPos);
    if limit.Int? && limit.i >= 0 && offset.Int? && offset.i >= 0 then Page(rows, limit.i, offset.i) else []
  }

  /** `orders` is the table in the chosen order. */
  method ListOrders(orders: seq<Order>, f: ListFilter) returns (page: seq<Order>, total: nat)
    ensures var rows := Select(orders, o => Matches(f, o));
            total == |rows| && page == Page(rows, PageLimit(f.limit), PageOffset(f.offset))
    ensures PageLimit(f.limit) == (if f.limit <= 0 || f.limit > 200 then 50 else f.limit)
    ensures PageOffset(f.offset) == (if f.offset < 0 then 0 else f.offset)
  {
    var clauses, args := BuildOrdersWhere(f);
    total := |Select(orders, o => Holds(clauses, args, o))|;
    var limit := f.limit;
    if limit <= 0 || limit > 200 { limit := 50; }
    var offset := f.offset;
    if offset < 0 { offset := 0; }
    ghost var bound := args;
    args := args + [Int(limit), Int(offset)];
    var limitPos, offsetPos := |args| - 1, |args|;
    page := RunPage(orders, clauses, args, limitPos, offsetPos);
    forall o ensures Holds(clauses, args, o) <==> Matches(f, o) {
      HoldsExtends(clauses, bound, [Int(limit), Int(offset)], o);
    }
    SelectSame(orders, o => Holds(clauses, args, o), o => Matches(f, o));
    SelectSame(orders, o => Holds(clauses, bound, o), o => Matches(f, o));
  }
}
