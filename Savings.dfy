/** The client-side savings helper: how much and what share of the original price a discount saves. */
module Savings {
  import opened Types
  import Pricing

  datatype Saving = Saving(amount: real, percentage: int)

  /** calculateSavings: the difference, and its share of a positive original price rounded like Math.round. */
  function CalculateSavings(originalPrice: real, discountedPrice: real): (s: Saving)
    ensures s.amount == originalPrice - discountedPrice
    ensures originalPrice <= 0.0 ==> s.percentage == 0
    ensures originalPrice > 0.0 ==>
              s.percentage as real - 0.5 <= s.amount / originalPrice * 100.0 < s.percentage as real + 0.5
  {
    var amount := originalPrice - discountedPrice;
    var percentage := if originalPrice > 0.0 then Round(amount / originalPrice * 100.0) else 0;
    Saving(amount, percentage)
  }

  /** A discounted price between 0 and a positive original price saves between 0 and 100 percent. */
  lemma SavingsInRange(originalPrice: real, discountedPrice: real)
    requires originalPrice > 0.0 && 0.0 <= discountedPrice <= originalPrice
    ensures 0.0 <= CalculateSavings(originalPrice, discountedPrice).amount <= originalPrice
    ensures 0 <= CalculateSavings(originalPrice, discountedPrice).percentage <= 100
  {
    var amount := originalPrice - discountedPrice;
    assert amount / originalPrice <= 1.0;
    RoundMonotone(0.0, amount / originalPrice * 100.0);
    RoundMonotone(amount / originalPrice * 100.0, 100.0);
    RoundOfInt(0);
    RoundOfInt(100);
  }

  lemma NoSavingAtEqualPrices(price: real)
    ensures CalculateSavings(price, price) == Saving(0.0, 0)
  {
    RoundOfInt(0);
  }

  /**
   * The helper and the pricing engine share one rounding rule: for a positive base
   * price, the savings between the original price and what is left after the
   * engine's discount amount are exactly the engine's amount and percentage.
   */
  lemma SavingsAgreeWithPricing(product: Product, discounts: seq<DiscountRule>)
    requires product.basePrice > 0.0
    ensures var c := Pricing.Calculation(product, discounts);
            CalculateSavings(c.originalPrice, c.originalPrice - c.discountAmount)
              == Saving(c.discountAmount, c.discountPercentage)
  {
    var c := Pricing.Calculation(product, discounts);
    if c.discountAmount == 0.0 {
      RoundOfInt(0);
    }
  }
}
