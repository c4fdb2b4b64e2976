/** Sale prices of the merchant feed, in exact arithmetic: prices are integer cents, discounts
    are real percentages. */
module Pricing {
  import opened Common

  /** Go's conversion of a real to an integer drops the fraction. */
  function Truncate(x: real): int {
    if x >= 0.0 then x.Floor else -((-x).Floor)
  }

  datatype DiscountType = Percentage | Fixed | Other

  /** salePrice is None when no discount applies. */
  datatype Pricing = Pricing(price: int, salePrice: Option<int>)

  /** The amount a percentage takes off, before rounding. */
  function Off(price: int, discount: real): real {
    price as real * discount / 100.0
  }

  function SaleCents(price: int, discount: real, kind: DiscountType): int {
    var raw := match kind
      case Fixed => price - Truncate(discount / 100.0 * price as real)
      case _ => Truncate(price as real * (1.0 - discount / 100.0));
    if raw < 0 then 0 else raw
  }

  /** A discount takes its rounded amount off the price, a percentage rounded up and a fixed one
      down; it is advertised exactly when that leaves less than the price and more than nothing. */
  method ResolvePricing(price: int, discount: real, kind: DiscountType) returns (p: Pricing)
    ensures p.price == price && (p.salePrice.Some? <==> discount > 0.0)
    ensures p.salePrice.Some? ==> p.salePrice.value >= 0
    ensures price >= 0 && discount > 0.0 ==> p.salePrice == Some(Left(price, Off(price, discount), kind))
    ensures price >= 0 && discount > 0.0 ==>
      var off := price as real * discount / 100.0;
      var taken := if kind.Fixed? then off.Floor else -((-off).Floor);
      p.salePrice.value == if taken >= price then 0 else price - taken
    ensures price >= 0 ==> (HasSalePrice(p) <==> discount > 0.0 && Advertises(price, Off(price, discount), kind))
  {
    p := Pricing(price, None);
    if discount <= 0.0 { return; }
    var saleCents: int;
    match kind {
      case Percentage => saleCents := Truncate(price as real * (1.0 - discount / 100.0));
      case Fixed => saleCents := price - Truncate(discount / 100.0 * price as real);
      case Other => saleCents := Truncate(price as real * (1.0 - discount / 100.0));
    }
    if saleCents < 0 { saleCents := 0; }
    p := p.(salePrice := Some(saleCents));
    assert saleCents == SaleCents(price, discount, kind);
    if price >= 0 {
      OffForms(price, discount);
      SaleIsLeft(price, discount, kind);
      AdvertisedExactly(price, discount, kind, p);
    }
  }

  /** HasSalePrice. */
  predicate HasSalePrice(p: Pricing) {
    p.salePrice.Some? && p.salePrice.value != 0 && p.salePrice.value < p.price
  }

  function Ceiling(x: real): int {
    -((-x).Floor)
  }

  lemma OffForms(price: int, discount: real)
    ensures price as real * (1.0 - discount / 100.0) == price as real - Off(price, discount)
    ensures discount / 100.0 * price as real == Off(price, discount)
    ensures price >= 0 && discount > 0.0 ==> Off(price, discount) >= 0.0
  {
  }

  /** What is left when x is taken off a price: percentages round x up, fixed amounts down. */
  function Left(price: int, x: real, kind: DiscountType): int {
    var off := if kind.Fixed? then x.Floor else Ceiling(x);
    if off >= price then 0 else price - off
  }

  lemma FloorOfDifference(n: int, x: real)
    ensures (n as real - x).Floor == n - Ceiling(x)
  {
  }

  /** Both formulas take the rounded amount off the price, down to nothing. */
  lemma SaleIsLeft(price: int, discount: real, kind: DiscountType)
    requires price >= 0 && discount > 0.0
    ensures SaleCents(price, discount, kind) == Left(price, Off(price, discount), kind)
  {
    var x := Off(price, discount);
    OffForms(price, discount);
    FloorOfDifference(price, x);
    if kind.Fixed? {
      assert SaleCents(price, discount, kind) == if price - x.Floor < 0 then 0 else price - x.Floor;
    } else if price as real - x < 0.0 {
      assert Truncate(price as real - x) <= 0;
    }
  }

  /** A sale price is never negative and never above the price. */
  lemma SaleWithinPrice(price: int, discount: real, kind: DiscountType)
    requires price >= 0 && discount > 0.0
    ensures 0 <= SaleCents(price, discount, kind) <= price
  {
    SaleIsLeft(price, discount, kind);
    OffForms(price, discount);
  }

  /** The two formulas differ by at most a cent, and by exactly one when the amount taken off is
      a fraction below the price. */
  lemma FormulasDifferByOneCent(price: int, discount: real)
    requires price >= 0 && discount > 0.0
    ensures var x := Off(price, discount);
            SaleCents(price, discount, Fixed) ==
            SaleCents(price, discount, Percentage) + (if x < price as real && x.Floor as real != x then 1 else 0)
  {
    SaleIsLeft(price, discount, Fixed);
    SaleIsLeft(price, discount, Percentage);
  }

  lemma OffMonotone(price: int, a: real, b: real)
    requires price >= 0 && 0.0 < a <= b
    ensures Off(price, a) <= Off(price, b)
  {
    assert Off(price, b) - Off(price, a) == price as real * (b - a) / 100.0;
  }

  /** A larger discount never makes a product dearer. */
  lemma SaleMonotone(price: int, a: real, b: real, kind: DiscountType)
    requires price >= 0 && 0.0 < a <= b
    ensures SaleCents(price, b, kind) <= SaleCents(price, a, kind)
  {
    OffMonotone(price, a, b);
    SaleIsLeft(price, a, kind);
    SaleIsLeft(price, b, kind);
  }

  /** The amount x taken off leaves a whole cent, or takes one off if the discount is fixed. */
  predicate Advertises(price: int, x: real, kind: DiscountType) {
    if kind.Fixed? then 1.0 <= x < price as real else 0.0 < x <= price as real - 1.0
  }

  /** A sale is advertised exactly when a discount leaves a price strictly between nothing and
      the full price: a percentage must leave a whole cent, a fixed one take a whole cent. */
  lemma AdvertisedExactly(price: int, discount: real, kind: DiscountType, p: Pricing)
    requires price >= 0
    requires p == Pricing(price, if discount <= 0.0 then None else Some(SaleCents(price, discount, kind)))
    ensures HasSalePrice(p) <==> discount > 0.0 && 0 < SaleCents(price, discount, kind) < price
    ensures HasSalePrice(p) <==> discount > 0.0 && Advertises(price, Off(price, discount), kind)
  {
    if discount > 0.0 {
      SaleIsLeft(price, discount, kind);
      OffForms(price, discount);
    }
  }
}
