/**
  The plan price table and the labels the pricing cards display.  The
  table maps a plan id to its monthly and annual amount; the period flag
  picks one of the two and the label is "R$ " followed by the amount in
  decimal.
 */
module Pricing {
  import opened Wrappers
  import Decimal

  datatype Plan = Plan(monthly: nat, annual: nat)

  /** The fixed price table, keyed by plan id. */
  const BasePricing: map<nat, Plan> :=
    map[79 := Plan(79, 790), 149 := Plan(149, 1490), 349 := Plan(349, 3490)]

  /** The table's keys in the order `Object.keys` lists integer-like keys: ascending. */
  const PlanKeys: seq<nat> := [79, 149, 349]

  const CurrencyPrefix: string := "R$ "

  /** The amount a plan shows under the given period flag. */
  function Amount(plan: Plan, isAnnual: bool): nat {
    if isAnnual then plan.annual else plan.monthly
  }

  /** The annual flag selects the annual column, and the cleared flag the monthly one. */
  lemma AmountFollowsFlag(plan: Plan)
    ensures Amount(plan, true) == plan.annual
    ensures Amount(plan, false) == plan.monthly
  {
  }

  /** The label a pricing card shows for an amount: `R$ ${amount}`. */
  function PriceLabel(amount: nat): (text: string)
    ensures |text| > |CurrencyPrefix| && text[..|CurrencyPrefix|] == CurrencyPrefix
  {
    CurrencyPrefix + Decimal.FromNat(amount)
  }

  /** Reads a price label back: the currency prefix followed by a canonical decimal. */
  function ParseLabel(text: string): Option<nat> {
    if |text| > |CurrencyPrefix| && text[..|CurrencyPrefix|] == CurrencyPrefix
       && Decimal.Canonical(text[|CurrencyPrefix|..])
    then Some(Decimal.ToNat(text[|CurrencyPrefix|..]))
    else None
  }

  /** Reading a label back gives exactly the amount it was made from. */
  lemma ParseOfPriceLabel(amount: nat)
    ensures ParseLabel(PriceLabel(amount)) == Some(amount)
  {
    var digits := Decimal.FromNat(amount);
    Decimal.ToNatFromNat(amount);
    assert PriceLabel(amount)[|CurrencyPrefix|..] == digits;
  }

  /** Every label that reads back as an amount is that amount's label. */
  lemma PriceLabelOfParse(text: string, amount: nat)
    requires ParseLabel(text) == Some(amount)
    ensures PriceLabel(amount) == text
  {
    var digits := text[|CurrencyPrefix|..];
    Decimal.FromNatToNat(digits);
    assert text == CurrencyPrefix + digits;
  }

  /** Two amounts share a label only when they are equal. */
  lemma PriceLabelInjective(a: nat, b: nat)
    ensures PriceLabel(a) == PriceLabel(b) <==> a == b
  {
    ParseOfPriceLabel(a);
    ParseOfPriceLabel(b);
  }

  /** The displayed prices for a period flag: one label per plan of the table. */
  function PricesFor(isAnnual: bool): (prices: map<nat, string>)
    ensures prices.Keys == BasePricing.Keys
  {
    map k | k in BasePricing :: PriceLabel(Amount(BasePricing[k], isAnnual))
  }

  /**
    The price effect: walks the table's keys in `Object.keys` order and
    stores one label per key into a fresh object.
   */
  method RecomputePrices(isAnnual: bool) returns (prices: map<nat, string>)
    ensures prices == PricesFor(isAnnual)
  {
    prices := map[];
    var i := 0;
    while i < |PlanKeys|
      invariant 0 <= i <= |PlanKeys|
      invariant prices.Keys == set j | 0 <= j < i :: PlanKeys[j]
      invariant forall k :: k in prices ==> k in BasePricing && prices[k] == PriceLabel(Amount(BasePricing[k], isAnnual))
    {
      var key := PlanKeys[i];
      var plan := BasePricing[key];
      var price := Amount(plan, isAnnual);
      prices := prices[key := PriceLabel(price)];
      i := i + 1;
    }
    assert prices.Keys == BasePricing.Keys by {
      assert PlanKeys[0] in prices && PlanKeys[1] in prices && PlanKeys[2] in prices;
    }
    var reference := PricesFor(isAnnual);
    assert forall k :: k in prices ==> prices[k] == reference[k];
  }

  /**
    The prices show one label per plan of the table, and each label reads as
    the annual amount when the flag is set and as the monthly one otherwise.
   */
  lemma PricesShowSelectedAmount(isAnnual: bool)
    ensures PricesFor(isAnnual).Keys == BasePricing.Keys
    ensures forall k :: k in PricesFor(isAnnual) ==>
      ParseLabel(PricesFor(isAnnual)[k])
        == Some(if isAnnual then BasePricing[k].annual else BasePricing[k].monthly)
  {
    forall k | k in PricesFor(isAnnual)
      ensures ParseLabel(PricesFor(isAnnual)[k])
        == Some(if isAnnual then BasePricing[k].annual else BasePricing[k].monthly)
    {
      ParseOfPriceLabel(Amount(BasePricing[k], isAnnual));
    }
  }

  /** Unset flag shows "R$ " + monthly, set flag shows "R$ " + annual, for every plan. */
  lemma LabelsFollowFlag(k: nat)
    requires k in BasePricing
    ensures PricesFor(false)[k] == CurrencyPrefix + Decimal.FromNat(BasePricing[k].monthly)
    ensures PricesFor(true)[k] == CurrencyPrefix + Decimal.FromNat(BasePricing[k].annual)
  {
  }

  /** Switching the period changes the label of every plan. */
  lemma EveryLabelChangesWithPeriod(k: nat)
    requires k in BasePricing
    ensures PricesFor(true)[k] != PricesFor(false)[k]
  {
    PriceLabelInjective(BasePricing[k].annual, BasePricing[k].monthly);
  }

  /** The labels of the monthly amounts. */
  lemma MonthlyLabels()
    ensures PriceLabel(79) == "R$ 79"
    ensures PriceLabel(149) == "R$ 149"
    ensures PriceLabel(349) == "R$ 349"
  {
    assert Decimal.FromNat(79) == "79";
    assert Decimal.FromNat(149) == "149";
    assert Decimal.FromNat(349) == "349";
  }

  /** The labels of the annual amounts. */
  lemma AnnualLabels()
    ensures PriceLabel(790) == "R$ 790"
    ensures PriceLabel(1490) == "R$ 1490"
    ensures PriceLabel(3490) == "R$ 3490"
  {
    assert Decimal.FromNat(790) == "790";
    assert Decimal.FromNat(1490) == "1490";
    assert Decimal.FromNat(3490) == "3490";
  }

  /** The prices plan by plan, before the labels are spelled out. */
  lemma PricesByPlan(isAnnual: bool)
    ensures PricesFor(isAnnual) == map[
      79 := PriceLabel(Amount(Plan(79, 790), isAnnual)),
      149 := PriceLabel(Amount(Plan(149, 1490), isAnnual)),
      349 := PriceLabel(Amount(Plan(349, 3490), isAnnual))]
  {
  }

  /** The concrete monthly labels: "R$ 79", "R$ 149", "R$ 349". */
  lemma ConcreteMonthlyPrices()
    ensures PricesFor(false) == map[79 := "R$ 79", 149 := "R$ 149", 349 := "R$ 349"]
  {
    MonthlyLabels();
    PricesByPlan(false);
  }

  /** The concrete annual labels: "R$ 790", "R$ 1490", "R$ 3490". */
  lemma ConcreteAnnualPrices()
    ensures PricesFor(true) == map[79 := "R$ 790", 149 := "R$ 1490", 349 := "R$ 3490"]
  {
    AnnualLabels();
    PricesByPlan(true);
  }
}
