/** Per-line tax and its totals. */
module Tax {
  import opened Common
  import opened Sums

  /** A non-negative tax rate num / den. */
  datatype RateValue = Rate(num: nat, den: nat)

  type Rate = r: RateValue | r.den > 0 witness Rate(0, 1)

  /** A product's own rate, if it has one; inactive ones are passed over. */
  datatype OwnRate = NoOwnRate | OwnRate(rate: Rate, active: bool)

  /** The rates in force: per product, the country's default for the tenant, and any default of the country. */
  datatype Rates = Rates(own: Id -> OwnRate, tenantDefault: Option<Rate>, countryDefault: Option<Rate>)

  /** The product's active rate, else the tenant's default, else the country's, else zero. */
  function RateFor(rates: Rates, product: Id): Rate {
    var own := rates.own(product);
    if own.OwnRate? && own.active then own.rate
    else if rates.tenantDefault.Some? then rates.tenantDefault.value
    else if rates.countryDefault.Some? then rates.countryDefault.value
    else Rate(0, 1)
  }

  datatype TaxLineInput = TaxLineInput(product: Id, quantity: int, priceCents: int)

  datatype TaxLineResult = TaxLineResult(product: Id, subtotalCents: nat, taxCents: nat)

  datatype TaxCalculation = TaxCalculation(items: seq<TaxLineResult>, subtotalCents: int, taxCents: int,
      totalCents: int)

  function LineResult(item: TaxLineInput, rates: Rates): TaxLineResult {
    var subtotal: nat := Max(0, item.priceCents) * Max(0, item.quantity);
    var rate := RateFor(rates, item.product);
    TaxLineResult(item.product, subtotal, RoundDiv(subtotal * rate.num, rate.den))
  }

  function LineResults(items: seq<TaxLineInput>, rates: Rates): (results: seq<TaxLineResult>)
    ensures |results| == |items|
    ensures forall i :: 0 <= i < |items| ==> results[i] == LineResult(items[i], rates)
  {
    seq(|items|, i requires 0 <= i < |items| => LineResult(items[i], rates))
  }

  /** `cents` is the tax on `subtotal` at the rate, to the nearest cent. */
  predicate NearestCent(cents: nat, subtotal: nat, rate: Rate) {
    2 * (subtotal * rate.num) - rate.den < 2 * (cents * rate.den) <= 2 * (subtotal * rate.num) + rate.den
  }

  lemma {:induction false} LineAtRate(item: TaxLineInput, rates: Rates, rate: Rate)
    requires RateFor(rates, item.product) == rate
    ensures NearestCent(LineResult(item, rates).taxCents, LineResult(item, rates).subtotalCents, rate)
  {
    RoundDivError(LineResult(item, rates).subtotalCents * rate.num, rate.den);
  }

  /**
   * Which rate a line is taxed at, to the nearest cent of its subtotal: the product's own while that is active,
   * whatever the defaults are; else the tenant's default; else the country's; and without any of them nothing.
   */
  lemma {:induction false} LineTaxError(item: TaxLineInput, rates: Rates)
    ensures var r := LineResult(item, rates);
            var own := rates.own(item.product);
            && r.product == item.product
            && r.subtotalCents
               == (if item.priceCents > 0 && item.quantity > 0 then item.priceCents * item.quantity else 0)
            && (own.OwnRate? && own.active ==> NearestCent(r.taxCents, r.subtotalCents, own.rate))
            && (!(own.OwnRate? && own.active) ==>
                  match rates.tenantDefault
                  case Some(rate) => NearestCent(r.taxCents, r.subtotalCents, rate)
                  case None =>
                    match rates.countryDefault
                    case Some(rate) => NearestCent(r.taxCents, r.subtotalCents, rate)
                    case None => r.taxCents == 0)
  {
    var own := rates.own(item.product);
    if own.OwnRate? && own.active {
      LineAtRate(item, rates, own.rate);
    } else if rates.tenantDefault.Some? {
      LineAtRate(item, rates, rates.tenantDefault.value);
    } else if rates.countryDefault.Some? {
      LineAtRate(item, rates, rates.countryDefault.value);
    } else {
      LineAtRate(item, rates, Rate(0, 1));
    }
  }

  /** The defaults do not reach a product with an active rate of its own, nor the country's one with a tenant's. */
  lemma {:induction false} DefaultsYield(item: TaxLineInput, rates: Rates, tenant: Option<Rate>, country: Option<Rate>)
    ensures var own := rates.own(item.product);
            var other := rates.(tenantDefault := tenant, countryDefault := country);
            && (own.OwnRate? && own.active ==> LineResult(item, other) == LineResult(item, rates))
            && (tenant.Some? && tenant == rates.tenantDefault ==> LineResult(item, other) == LineResult(item, rates))
  {
  }

  function SubtotalOf(): TaxLineResult -> int { (r: TaxLineResult) => r.subtotalCents }

  function TaxOf(): TaxLineResult -> int { (r: TaxLineResult) => r.taxCents }

  /** One result per line at the rate in force for its product, and totals that are the sums of the lines. */
  method Calculate(items: seq<TaxLineInput>, rates: Rates) returns (result: TaxCalculation)
    ensures result.items == LineResults(items, rates)
    ensures result.subtotalCents == Sum(result.items, SubtotalOf())
    ensures result.taxCents == Sum(result.items, TaxOf())
    ensures result.totalCents == result.subtotalCents + result.taxCents
  {
    var fallback := if rates.tenantDefault.Some? then rates.tenantDefault else rates.countryDefault;
    var lines: seq<TaxLineResult> := [];
    for k := 0 to |items|
      invariant |lines| == k
      invariant forall i :: 0 <= i < k ==> lines[i] == LineResult(items[i], rates)
    {
      var item := items[k];
      var own := rates.own(item.product);
      var rate := Rate(0, 1);
      if own.OwnRate? && own.active {
        rate := own.rate;
      } else if fallback.Some? {
        rate := fallback.value;
      }
      var subtotal: nat := Max(0, item.priceCents) * Max(0, item.quantity);
      lines := lines + [TaxLineResult(item.product, subtotal, RoundDiv(subtotal * rate.num, rate.den))];
    }
    var subtotal, tax := Sum(lines, SubtotalOf()), Sum(lines, TaxOf());
    return TaxCalculation(lines, subtotal, tax, subtotal + tax);
  }
}
