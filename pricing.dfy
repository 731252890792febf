/** The one pure formula of the inventory window: the sell price a product
    shows, derived from its cost and its markup percentage. The same
    expression is evaluated when a row is added and when the analytics pass
    repaints the SELL PRICE column. Prices are exact reals here. */
module Pricing {

  /** cost * (1 + markup / 100). */
  function SellPrice(cost: real, markup: real): (price: real)
    ensures markup == 0.0 ==> price == cost
    ensures cost == 0.0 ==> price == 0.0
    ensures cost >= 0.0 && markup >= 0.0 ==> price >= cost
  {
    cost * (1.0 + markup / 100.0)
  }

  /** What the markup adds on top of the cost is markup percent of the cost. */
  lemma SellPriceMargin(cost: real, markup: real)
    ensures SellPrice(cost, markup) - cost == cost * markup / 100.0
  {
  }

  /** For a non-zero cost the markup can be read back from the sell price:
      the derivation loses nothing. */
  lemma MarkupRecovered(cost: real, markup: real)
    requires cost != 0.0
    ensures (SellPrice(cost, markup) / cost - 1.0) * 100.0 == markup
  {
    var k := 1.0 + markup / 100.0;
    assert SellPrice(cost, markup) == k * cost;
    assert (k * cost) / cost == k;
  }

  /** A larger markup never gives a lower price on a non-negative cost. */
  lemma SellPriceMonotonic(cost: real, m1: real, m2: real)
    requires cost >= 0.0 && m1 <= m2
    ensures SellPrice(cost, m1) <= SellPrice(cost, m2)
  {
    var d := m2 - m1;
    assert d >= 0.0;
    assert cost * d >= 0.0;
    assert SellPrice(cost, m2) - SellPrice(cost, m1) == cost * d / 100.0;
  }
}
