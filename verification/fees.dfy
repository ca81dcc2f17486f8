/** The amount a family owes: adults and children at their per-person prices. */
module Fees {
  import opened Wrappers
  import opened Records
  import opened Numbers

  /** `PRICING.ADULT` and `PRICING.CHILD`. */
  datatype Prices = Prices(adult: int, child: int)

  /** `adults * PRICING.ADULT + children * PRICING.CHILD`. */
  function Fee(f: FamilyData, prices: Prices): (r: int)
    ensures f.adults >= 0 && f.children >= 0 && prices.adult >= 0 && prices.child >= 0 ==> r >= 0
    ensures f.adults == 0 && f.children == 0 ==> r == 0
  {
    assert f.adults >= 0 && f.children >= 0 && prices.adult >= 0 && prices.child >= 0 ==>
           f.adults * prices.adult >= 0 && f.children * prices.child >= 0 by {
      if f.adults >= 0 && f.children >= 0 && prices.adult >= 0 && prices.child >= 0 {
        ProductOfNaturals(f.adults, prices.adult);
        ProductOfNaturals(f.children, prices.child);
      }
    }
    f.adults * prices.adult + f.children * prices.child
  }

  /** The fee is linear in the counts: two parties together owe what each owes. */
  lemma FeeIsLinear(f: FamilyData, g: FamilyData, name: string, prices: Prices)
    ensures Fee(FamilyData(name, f.adults + g.adults, f.children + g.children), prices)
            == Fee(f, prices) + Fee(g, prices)
  {
    assert (f.adults + g.adults) * prices.adult == f.adults * prices.adult + g.adults * prices.adult;
    assert (f.children + g.children) * prices.child == f.children * prices.child + g.children * prices.child;
  }

  /** One more adult or child never lowers the fee while the prices are not negative. */
  lemma FeeIsMonotone(f: FamilyData, extraAdults: nat, extraChildren: nat, prices: Prices)
    requires prices.adult >= 0 && prices.child >= 0
    ensures Fee(f, prices) <= Fee(FamilyData(f.name, f.adults + extraAdults, f.children + extraChildren), prices)
  {
    ProductOfNaturals(extraAdults, prices.adult);
    ProductOfNaturals(extraChildren, prices.child);
    FeeIsLinear(f, FamilyData(f.name, extraAdults, extraChildren), f.name, prices);
  }

  /** The total shown in the payment summary: the selected family's fee, 0 with no selection. */
  function DisplayedTotal(selected: Option<FamilyData>, prices: Prices): (r: int)
    ensures selected.None? ==> r == 0
    ensures selected.Some? ==> r == Fee(selected.value, prices)
  {
    match selected
    case None => 0
    case Some(f) => Fee(f, prices)
  }

  /** `n * p` where the price `p` may be `undefined` (None): the product is then NaN. */
  function TimesPrice(n: int, p: Option<int>): NumberValue {
    match p
    case Some(x) => Finite(n * x)
    case None => NaN
  }

  /** JavaScript `+` on numbers: NaN as soon as either side is NaN. */
  function PlusNumber(a: NumberValue, b: NumberValue): NumberValue {
    if a.Finite? && b.Finite? then Finite(a.value + b.value) else NaN
  }

  /**
   * The fee expression as the page evaluates it, with each price read from a
   * constants object that may lack it. With both prices defined it is `Fee`;
   * with either one missing it is NaN.
   */
  function FeeAsEvaluated(f: FamilyData, adult: Option<int>, child: Option<int>): (r: NumberValue)
    ensures r.Finite? <==> adult.Some? && child.Some?
    ensures r.Finite? ==> r.value == Fee(f, Prices(adult.value, child.value))
  {
    PlusNumber(TimesPrice(f.adults, adult), TimesPrice(f.children, child))
  }
}
