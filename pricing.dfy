/** The catalogue price of a variant: a list price reduced by a percentage discount. */
module Pricing {
  import opened Common
  import opened Schema

  /** `discountPercent || 0`: a null discount counts as no discount. */
  function DiscountOf(v: Variant): real {
    if v.discountPercent.Some? then v.discountPercent.value else 0.0
  }

  /** `stockQuantity ?? 0`: a null stock counts as none in stock. */
  function StockOf(v: Variant): int {
    if v.stockQuantity.Some? then v.stockQuantity.value else 0
  }

  /** The bounds the product form enforces on a variant: a non-negative price and a
      discount between 0 and 100 percent. */
  predicate SaneVariant(v: Variant) {
    v.originalPrice >= 0.0 && 0.0 <= DiscountOf(v) <= 100.0
  }

  /** `original * ((100 - discount) / 100)`, computed exactly. */
  function UnitPrice(originalPrice: real, discountPercent: real): (r: real)
    ensures 0.0 <= originalPrice && 0.0 <= discountPercent <= 100.0 ==> 0.0 <= r <= originalPrice
    ensures discountPercent == 0.0 ==> r == originalPrice
    ensures discountPercent == 100.0 ==> r == 0.0
  {
    var factor := (100.0 - discountPercent) / 100.0;
    assert 0.0 <= originalPrice && 0.0 <= factor <= 1.0 ==> originalPrice * factor <= originalPrice * 1.0;
    originalPrice * factor
  }

  /** A larger discount never raises the price of a non-negative list price. */
  lemma UnitPriceAntitone(originalPrice: real, d1: real, d2: real)
    requires 0.0 <= originalPrice && d1 <= d2
    ensures UnitPrice(originalPrice, d2) <= UnitPrice(originalPrice, d1)
  {
    var f1, f2 := (100.0 - d1) / 100.0, (100.0 - d2) / 100.0;
    assert UnitPrice(originalPrice, d1) == originalPrice * f1;
    assert UnitPrice(originalPrice, d2) == originalPrice * f2;
    assert 0.0 <= f1 - f2;
    assert originalPrice * f1 - originalPrice * f2 == originalPrice * (f1 - f2);
    ProductNonNegative(originalPrice, f1 - f2);
  }

  lemma ProductNonNegative(a: real, b: real)
    requires 0.0 <= a && 0.0 <= b
    ensures 0.0 <= a * b
  {
  }
}
