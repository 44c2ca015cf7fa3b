/**
 * The pricing engine: seeds a price from the product's own pre-set discounted
 * price, then applies every active discount rule in order, each one on the
 * price left by the rules before it.
 */
module Pricing {
  import opened Types
  import opened Seqs

  /** The active rules, in their given order; neither the product nor any rule's conditions are looked at. */
  function ApplicableDiscounts(product: Product, discounts: seq<DiscountRule>): (r: seq<DiscountRule>)
    ensures forall d :: d in r ==> d in discounts && d.isActive
    ensures forall d :: d in discounts && d.isActive ==> d in r
    ensures |r| <= |discounts|
  {
    if discounts == [] then []
    else if discounts[0].isActive then [discounts[0]] + ApplicableDiscounts(product, discounts[1..])
    else ApplicableDiscounts(product, discounts[1..])
  }

  /** Every occurrence of an active rule is kept, with nothing deduplicated. */
  lemma {:induction false} ApplicableKeepsEveryOccurrence(product: Product, discounts: seq<DiscountRule>, d: DiscountRule)
    ensures multiset(ApplicableDiscounts(product, discounts))[d] == if d.isActive then multiset(discounts)[d] else 0
  {
    if discounts != [] {
      ApplicableKeepsEveryOccurrence(product, discounts[1..], d);
      assert discounts == [discounts[0]] + discounts[1..];
    }
  }

  lemma {:induction false} ApplicableIsSubsequence(product: Product, discounts: seq<DiscountRule>)
    ensures Subsequence(ApplicableDiscounts(product, discounts), discounts)
  {
    if discounts != [] {
      ApplicableIsSubsequence(product, discounts[1..]);
    }
  }

  /** Which rules apply never depends on the product: DiscountConditions are not evaluated. */
  lemma {:induction false} ApplicableIgnoresProduct(p: Product, q: Product, discounts: seq<DiscountRule>)
    ensures ApplicableDiscounts(p, discounts) == ApplicableDiscounts(q, discounts)
  {
    if discounts != [] {
      ApplicableIgnoresProduct(p, q, discounts[1..]);
    }
  }

  /** The amount one rule takes off the current price. */
  function ApplyDiscount(price: real, discount: DiscountRule): (amount: real)
    ensures discount.kind == Percentage ==> amount * 100.0 == price * discount.value
    ensures discount.kind == Fixed ==>
              amount <= price && amount <= discount.value && (amount == price || amount == discount.value)
    ensures discount.kind == Conditional ==> amount == 0.0
  {
    match discount.kind
    case Percentage => price * discount.value / 100.0
    case Fixed => Min(discount.value, price)
    case Conditional => 0.0
  }

  /** A rule of at most 100 percent, or a fixed rule, never takes more than a non-negative price. */
  lemma AmountWithinPrice(price: real, discount: DiscountRule)
    requires price >= 0.0
    requires discount.kind == Percentage ==> discount.value <= 100.0
    ensures ApplyDiscount(price, discount) <= price
  {
    if discount.kind == Percentage {
      var v := discount.value;
      assert price * (100.0 - v) >= 0.0;
      assert price * v <= price * 100.0;
    }
  }

  /** The starting price: a truthy pre-set discounted price below the base price, else the base price. */
  function SeedPrice(product: Product): (seed: real)
    ensures seed <= product.basePrice
    ensures (TruthyNum(product.discountedPrice) && product.discountedPrice.value < product.basePrice)
            <==> seed != product.basePrice
    ensures seed != product.basePrice ==> seed == product.discountedPrice.value
  {
    if TruthyNum(product.discountedPrice) && product.discountedPrice.value < product.basePrice
    then product.discountedPrice.value
    else product.basePrice
  }

  /** The result of running rules over a price: what is left, what was taken, and which rules took something. */
  datatype Compounded = Compounded(finalPrice: real, discount: real, applied: seq<DiscountRule>)

  /** Applies the rules left to right, each on the running price; a rule that takes nothing is skipped. */
  function Compound(price: real, rules: seq<DiscountRule>): (r: Compounded)
    decreases |rules|
    ensures r.finalPrice + r.discount == price
    ensures r.discount >= 0.0 && r.finalPrice <= price
    ensures |r.applied| <= |rules|
    ensures forall d :: d in r.applied ==> d in rules
  {
    if rules == [] then Compounded(price, 0.0, [])
    else
      var amount := ApplyDiscount(price, rules[0]);
      if amount > 0.0 then
        var rest := Compound(price - amount, rules[1..]);
        Compounded(rest.finalPrice, amount + rest.discount, [rules[0]] + rest.applied)
      else
        Compound(price, rules[1..])
  }

  lemma {:induction false} AppliedIsSubsequence(price: real, rules: seq<DiscountRule>)
    decreases |rules|
    ensures Subsequence(Compound(price, rules).applied, rules)
  {
    if rules != [] {
      var amount := ApplyDiscount(price, rules[0]);
      if amount > 0.0 {
        AppliedIsSubsequence(price - amount, rules[1..]);
      } else {
        AppliedIsSubsequence(price, rules[1..]);
      }
    }
  }

  /**
   * The applied rules are exactly the effective ones: running only them over the
   * same price gives the same final price, total and list.
   */
  lemma {:induction false} AppliedRulesSuffice(price: real, rules: seq<DiscountRule>)
    decreases |rules|
    ensures Compound(price, Compound(price, rules).applied) == Compound(price, rules)
  {
    if rules != [] {
      var amount := ApplyDiscount(price, rules[0]);
      if amount > 0.0 {
        var rest := Compound(price - amount, rules[1..]);
        AppliedRulesSuffice(price - amount, rules[1..]);
        CompoundCons(price, rules[0], rest.applied);
      } else {
        AppliedRulesSuffice(price, rules[1..]);
      }
    }
  }

  /** Each rule, run on the price its predecessors left, takes a positive amount. */
  ghost predicate EachTakes(price: real, rules: seq<DiscountRule>)
    decreases |rules|
  {
    rules == [] || (var amount := ApplyDiscount(price, rules[0]); amount > 0.0 && EachTakes(price - amount, rules[1..]))
  }

  /** Only a rule that took a positive amount from the running price is recorded as applied. */
  lemma {:induction false} AppliedRulesEachTake(price: real, rules: seq<DiscountRule>)
    decreases |rules|
    ensures EachTakes(price, Compound(price, rules).applied)
  {
    if rules != [] {
      var amount := ApplyDiscount(price, rules[0]);
      if amount > 0.0 {
        var rest := Compound(price - amount, rules[1..]);
        AppliedRulesEachTake(price - amount, rules[1..]);
        assert ([rules[0]] + rest.applied)[1..] == rest.applied;
      } else {
        AppliedRulesEachTake(price, rules[1..]);
      }
    }
  }

  /** `Compound` on a list with a known first rule. */
  lemma CompoundCons(price: real, first: DiscountRule, rest: seq<DiscountRule>)
    ensures var amount := ApplyDiscount(price, first);
            Compound(price, [first] + rest)
              == if amount > 0.0 then
                   var more := Compound(price - amount, rest);
                   Compounded(more.finalPrice, amount + more.discount, [first] + more.applied)
                 else Compound(price, rest)
  {
    assert ([first] + rest)[0] == first && ([first] + rest)[1..] == rest;
  }

  /** With no rule above 100 percent, a non-negative price never goes below zero. */
  lemma {:induction false} CompoundStaysNonNegative(price: real, rules: seq<DiscountRule>)
    requires price >= 0.0
    requires forall d :: d in rules && d.kind == Percentage ==> d.value <= 100.0
    ensures Compound(price, rules).finalPrice >= 0.0
    decreases |rules|
  {
    if rules != [] {
      AmountWithinPrice(price, rules[0]);
      var amount := ApplyDiscount(price, rules[0]);
      if amount > 0.0 {
        CompoundStaysNonNegative(price - amount, rules[1..]);
      } else {
        CompoundStaysNonNegative(price, rules[1..]);
      }
    }
  }

  /** The reported percentage: total over base price, rounded, or 0 when nothing was taken. */
  function PercentOf(total: real, basePrice: real): (pct: int)
    ensures total <= 0.0 ==> pct == 0
    ensures total > 0.0 && basePrice != 0.0 ==> pct as real - 0.5 <= total / basePrice * 100.0 < pct as real + 0.5
  {
    if total > 0.0 && basePrice != 0.0 then Round(total / basePrice * 100.0) else 0
  }

  lemma PercentInRange(total: real, basePrice: real)
    requires 0.0 <= total <= basePrice && basePrice > 0.0
    ensures 0 <= PercentOf(total, basePrice) <= 100
  {
    if total > 0.0 {
      assert total / basePrice <= 1.0;
      RoundMonotone(0.0, total / basePrice * 100.0);
      RoundMonotone(total / basePrice * 100.0, 100.0);
      RoundOfInt(0);
      RoundOfInt(100);
    }
  }

  /** What calculateProductDiscount returns, as a function of the product and the rule list. */
  function Calculation(product: Product, discounts: seq<DiscountRule>): (c: DiscountCalculation)
    ensures c.originalPrice == product.basePrice
    ensures c.discountedPrice >= 0.0
    ensures c.discountAmount >= 0.0
    ensures c.discountedPrice == Max(0.0, product.basePrice - c.discountAmount)
    ensures c.discountPercentage == PercentOf(c.discountAmount, product.basePrice)
    ensures |c.appliedDiscounts| <= |discounts|
    ensures forall d :: d in c.appliedDiscounts ==> d in discounts && d.isActive
  {
    var seed := SeedPrice(product);
    var run := Compound(seed, ApplicableDiscounts(product, discounts));
    var total := (product.basePrice - seed) + run.discount;
    DiscountCalculation(product.basePrice, Max(0.0, run.finalPrice), total,
                        PercentOf(total, product.basePrice), run.applied)
  }

  lemma AppliedDiscountsAreSubsequence(product: Product, discounts: seq<DiscountRule>)
    ensures Subsequence(Calculation(product, discounts).appliedDiscounts, ApplicableDiscounts(product, discounts))
  {
    AppliedIsSubsequence(SeedPrice(product), ApplicableDiscounts(product, discounts));
  }

  /** Without active rules the result is the seed price unchanged. */
  lemma NoActiveRulesPassThrough(product: Product, discounts: seq<DiscountRule>)
    requires forall d :: d in discounts ==> !d.isActive
    ensures Calculation(product, discounts).discountedPrice == Max(0.0, SeedPrice(product))
    ensures Calculation(product, discounts).discountAmount == product.basePrice - SeedPrice(product)
    ensures Calculation(product, discounts).appliedDiscounts == []
  {
  }

  /**
   * Sensible data (no negative pre-set price, no rule over 100 percent, a positive
   * base price) gives a percentage between 0 and 100, and then the final price and
   * the discount amount add up to the base price.
   */
  lemma SensibleDataStaysInRange(product: Product, discounts: seq<DiscountRule>)
    requires product.basePrice > 0.0
    requires product.discountedPrice.Some? ==> product.discountedPrice.value >= 0.0
    requires forall d :: d in discounts && d.kind == Percentage ==> d.value <= 100.0
    ensures 0 <= Calculation(product, discounts).discountPercentage <= 100
    ensures Calculation(product, discounts).discountedPrice + Calculation(product, discounts).discountAmount
            == product.basePrice
  {
    var seed := SeedPrice(product);
    var rules := ApplicableDiscounts(product, discounts);
    CompoundStaysNonNegative(seed, rules);
    var c := Calculation(product, discounts);
    PercentInRange(c.discountAmount, product.basePrice);
  }

  /** One active 10 % rule on a base price of 100. */
  lemma OnePercentageRule(product: Product, rule: DiscountRule)
    requires product.basePrice == 100.0 && product.discountedPrice.None?
    requires rule.kind == Percentage && rule.value == 10.0 && rule.isActive
    ensures Calculation(product, [rule]) == DiscountCalculation(100.0, 90.0, 10.0, 10, [rule])
  {
    assert ApplicableDiscounts(product, [rule]) == [rule];
    assert Compound(90.0, []) == Compounded(90.0, 0.0, []);
    RoundOfInt(10);
  }

  /** Two 10 % rules compound: 100 becomes 90 and then 81, a total of 19 and not 20. */
  lemma TwoPercentageRulesCompound(product: Product, r1: DiscountRule, r2: DiscountRule)
    requires product.basePrice == 100.0 && product.discountedPrice.None?
    requires r1.kind == Percentage && r1.value == 10.0 && r1.isActive
    requires r2.kind == Percentage && r2.value == 10.0 && r2.isActive
    ensures Calculation(product, [r1, r2]) == DiscountCalculation(100.0, 81.0, 19.0, 19, [r1, r2])
  {
    assert ApplicableDiscounts(product, [r1, r2]) == [r1, r2] by {
      assert [r1, r2][1..] == [r2];
      assert ApplicableDiscounts(product, [r2]) == [r2];
    }
    assert [r1, r2][1..] == [r2];
    assert Compound(81.0, []) == Compounded(81.0, 0.0, []);
    assert Compound(90.0, [r2]) == Compounded(81.0, 9.0, [r2]);
    RoundOfInt(19);
  }

  /**
   * Running the remaining rules from a point where `taken` has already been taken
   * off and `applied` recorded: the state the loop of calculateProductDiscount
   * resumes from.
   */
  function Resume(price: real, taken: real, applied: seq<DiscountRule>, rules: seq<DiscountRule>): (r: Compounded)
    ensures r.finalPrice + r.discount == price + taken
  {
    var rest := Compound(price, rules);
    Compounded(rest.finalPrice, taken + rest.discount, applied + rest.applied)
  }

  /** One loop step: the next rule either takes something off the running price or is skipped. */
  lemma ResumeStep(price: real, taken: real, applied: seq<DiscountRule>, rules: seq<DiscountRule>)
    requires rules != []
    ensures var amount := ApplyDiscount(price, rules[0]);
            Resume(price, taken, applied, rules)
              == if amount > 0.0 then Resume(price - amount, taken + amount, applied + [rules[0]], rules[1..])
                 else Resume(price, taken, applied, rules[1..])
  {
    var amount := ApplyDiscount(price, rules[0]);
    if amount > 0.0 {
      var rest := Compound(price - amount, rules[1..]);
      assert applied + ([rules[0]] + rest.applied) == (applied + [rules[0]]) + rest.applied;
    }
  }

  /** calculateProductDiscount: the loop over the active rules, with the running price and total. */
  method CalculateProductDiscount(product: Product, discounts: seq<DiscountRule>) returns (r: DiscountCalculation)
    ensures r == Calculation(product, discounts)
    ensures r.originalPrice == product.basePrice && r.discountedPrice >= 0.0
  {
    var applicable := ApplicableDiscounts(product, discounts);
    var finalPrice := SeedPrice(product);
    var totalDiscountAmount := product.basePrice - finalPrice;
    var appliedDiscounts: seq<DiscountRule> := [];
    ghost var whole := Resume(finalPrice, totalDiscountAmount, [], applicable);
    for i := 0 to |applicable|
      invariant finalPrice + totalDiscountAmount == product.basePrice
      invariant Resume(finalPrice, totalDiscountAmount, appliedDiscounts, applicable[i..]) == whole
    {
      assert applicable[i..][0] == applicable[i] && applicable[i..][1..] == applicable[i + 1..];
      ResumeStep(finalPrice, totalDiscountAmount, appliedDiscounts, applicable[i..]);
      var discountAmount := ApplyDiscount(finalPrice, applicable[i]);
      if discountAmount > 0.0 {
        finalPrice := finalPrice - discountAmount;
        totalDiscountAmount := totalDiscountAmount + discountAmount;
        appliedDiscounts := appliedDiscounts + [applicable[i]];
      }
    }
    assert applicable[|applicable|..] == [];
    assert [] + Compound(SeedPrice(product), applicable).applied == Compound(SeedPrice(product), applicable).applied;
    r := DiscountCalculation(product.basePrice, Max(0.0, finalPrice), totalDiscountAmount,
                             PercentOf(totalDiscountAmount, product.basePrice), appliedDiscounts);
  }
}
