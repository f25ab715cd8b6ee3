/** Converting amounts through dollar rates, one at a time or as a batch, in exact arithmetic with explicit rounding. */
module Currency {
  import opened Common

  type Code = string

  // Units of each currency per dollar.
  type Rates = map<Code, real>

  datatype Item = Item(amount: real, currency: Code)

  datatype Conversion = Conversion(amount: real, rate: real)

  datatype ConversionError = Unsupported(currency: Code)

  function Abs(x: real): real {
    if x < 0.0 then -x else x
  }

  /** The nearest whole number of cents; a tie goes away from zero. */
  function ToCents(x: real): (r: real)
    ensures Abs(r - x) <= 0.005
  {
    var cents := (Abs(x) * 100.0 + 0.5).Floor;
    (if x < 0.0 then -cents else cents) as real / 100.0
  }

  /** The nearest whole number of millionths; a tie goes away from zero. */
  function ToMillionths(x: real): (r: real)
    ensures Abs(r - x) <= 0.0000005
  {
    var millionths := (Abs(x) * 1000000.0 + 0.5).Floor;
    (if x < 0.0 then -millionths else millionths) as real / 1000000.0
  }

  /** Rounding yields whole cents and whole millionths, and leaves what is whole already. */
  lemma RoundedIsWhole(x: real)
    ensures 100.0 * ToCents(x) == (100.0 * ToCents(x)).Floor as real
    ensures 1000000.0 * ToMillionths(x) == (1000000.0 * ToMillionths(x)).Floor as real
  {
    WholeCents((Abs(x) * 100.0 + 0.5).Floor);
    WholeCents(-(Abs(x) * 100.0 + 0.5).Floor);
    WholeMillionths((Abs(x) * 1000000.0 + 0.5).Floor);
    WholeMillionths(-(Abs(x) * 1000000.0 + 0.5).Floor);
  }

  lemma WholeCents(n: int)
    ensures 100.0 * (n as real / 100.0) == n as real && (n as real).Floor == n
    ensures ToCents(n as real / 100.0) == n as real / 100.0
  {
    var size: nat := if n < 0 then -n else n;
    assert Abs(n as real / 100.0) * 100.0 + 0.5 == size as real + 0.5;
    assert (size as real + 0.5).Floor == size;
  }

  lemma WholeMillionths(n: int)
    ensures 1000000.0 * (n as real / 1000000.0) == n as real && (n as real).Floor == n
    ensures ToMillionths(n as real / 1000000.0) == n as real / 1000000.0
  {
    var size: nat := if n < 0 then -n else n;
    assert Abs(n as real / 1000000.0) * 1000000.0 + 0.5 == size as real + 0.5;
    assert (size as real + 0.5).Floor == size;
  }

  /** A tie goes away from zero, on both sides of it. */
  lemma TiesGoAway(n: nat)
    ensures ToCents((n as real + 0.5) / 100.0) == (n + 1) as real / 100.0
    ensures ToCents(-((n as real + 0.5) / 100.0)) == -((n + 1) as real / 100.0)
  {
    assert ((n + 1) as real).Floor == n + 1;
  }

  // A code whose rate is absent or zero is unsupported.
  predicate Supported(rates: Rates, c: Code) {
    c in rates && rates[c] != 0.0
  }

  function RateOrOne(rates: Rates, c: Code): real {
    if Supported(rates, c) then rates[c] else 1.0
  }

  function InDollars(rates: Rates, amount: real, c: Code): real {
    amount / RateOrOne(rates, c)
  }

  function FromDollars(rates: Rates, dollars: real, c: Code): real {
    dollars * RateOrOne(rates, c)
  }

  function CrossRate(rates: Rates, from: Code, to: Code): real {
    RateOrOne(rates, to) / RateOrOne(rates, from)
  }

  function Converted(rates: Rates, amount: real, from: Code, to: Code): Result<Conversion, ConversionError> {
    if from == to then Ok(Conversion(amount, 1.0))
    else if !Supported(rates, from) then Err(Unsupported(from))
    else if !Supported(rates, to) then Err(Unsupported(to))
    else Ok(Conversion(ToCents(FromDollars(rates, InDollars(rates, amount, from), to)), ToMillionths(CrossRate(rates, from, to))))
  }

  function TotalInDollars(rates: Rates, items: seq<Item>): real {
    if items == [] then 0.0
    else
      var last := items[|items| - 1];
      TotalInDollars(rates, items[..|items| - 1]) + InDollars(rates, last.amount, last.currency)
  }

  function Batch(rates: Rates, items: seq<Item>, to: Code): real {
    ToCents(FromDollars(rates, TotalInDollars(rates, items), to))
  }

  /** The currency service over the rates it currently holds. */
  class CurrencyService {
    var rates: Rates

    constructor (rates: Rates)
      ensures this.rates == rates
    {
      this.rates := rates;
    }

    method Convert(amount: real, from: Code, to: Code) returns (r: Result<Conversion, ConversionError>)
      ensures r == Converted(rates, amount, from, to)
    {
      if from == to {
        return Ok(Conversion(amount, 1.0));
      }
      if !Supported(rates, from) || !Supported(rates, to) {
        return Err(Unsupported(if !Supported(rates, from) then from else to));
      }
      var amountInUSD := InDollars(rates, amount, from);
      var convertedAmount := FromDollars(rates, amountInUSD, to);
      r := Ok(Conversion(ToCents(convertedAmount), ToMillionths(CrossRate(rates, from, to))));
    }

    method ConvertBatch(items: seq<Item>, to: Code) returns (total: real)
      ensures total == Batch(rates, items, to)
    {
      var totalInUSD := 0.0;
      for i := 0 to |items|
        invariant totalInUSD == TotalInDollars(rates, items[..i])
      {
        assert items[..i + 1][..i] == items[..i];
        totalInUSD := totalInUSD + InDollars(rates, items[i].amount, items[i].currency);
      }
      assert items[..|items|] == items;
      total := ToCents(FromDollars(rates, totalInUSD, to));
    }
  }

  // ----- A conversion against the exact one -----

  ghost predicate Positive(rates: Rates) {
    forall c | c in rates :: rates[c] > 0.0
  }

  ghost function Exact(rates: Rates, amount: real, from: Code, to: Code): real {
    if from == to then amount else FromDollars(rates, InDollars(rates, amount, from), to)
  }

  lemma ToDollarsAndBack(rates: Rates, amount: real, c: Code)
    ensures FromDollars(rates, InDollars(rates, amount, c), c) == amount
    ensures InDollars(rates, FromDollars(rates, amount, c), c) == amount
  {}

  lemma FromDollarsAdds(rates: Rates, a: real, b: real, c: Code)
    ensures FromDollars(rates, a + b, c) == FromDollars(rates, a, c) + FromDollars(rates, b, c)
  {}

  lemma ConvertedNearExact(rates: Rates, amount: real, from: Code, to: Code)
    requires Converted(rates, amount, from, to).Ok?
    ensures Abs(Converted(rates, amount, from, to).value.amount - Exact(rates, amount, from, to)) <= if from == to then 0.0 else 0.005
  {}

  /** At rates a and b an amount converts to within half a cent of amount / a * b, at a quoted rate within half a millionth of
      b / a. */
  lemma ConvertedAtRates(rates: Rates, amount: real, from: Code, to: Code, a: real, b: real)
    requires from != to && from in rates && to in rates && rates[from] == a != 0.0 && rates[to] == b != 0.0
    ensures
      var r := Converted(rates, amount, from, to);
      && r.Ok?
      && amount / a * b - 0.005 <= r.value.amount <= amount / a * b + 0.005
      && b / a - 0.0000005 <= r.value.rate <= b / a + 0.0000005
  {
    SameProduct(rates, amount, from, to);
  }

  lemma SameProduct(rates: Rates, amount: real, from: Code, to: Code)
    requires Supported(rates, from) && Supported(rates, to)
    ensures FromDollars(rates, InDollars(rates, amount, from), to) == amount / rates[from] * rates[to]
    ensures CrossRate(rates, from, to) == rates[to] / rates[from]
  {}

  /** A dollar amount converts to the amount times the rate, and back to the amount by the rate. */
  lemma DollarsConvert(rates: Rates, amount: real, to: Code, r: real)
    requires "USD" in rates && rates["USD"] == 1.0 && to != "USD" && to in rates && rates[to] == r > 0.0
    ensures Converted(rates, amount, "USD", to).Ok? && Converted(rates, amount, to, "USD").Ok?
    ensures amount * r - 0.005 <= Converted(rates, amount, "USD", to).value.amount <= amount * r + 0.005
    ensures amount / r - 0.005 <= Converted(rates, amount, to, "USD").value.amount <= amount / r + 0.005
  {
    ConvertedAtRates(rates, amount, "USD", to, 1.0, r);
    ConvertedAtRates(rates, amount, to, "USD", r, 1.0);
    assert amount / 1.0 == amount;
    assert amount / r * 1.0 == amount / r;
  }

  // The amounts added up one conversion at a time.
  ghost function SumOfConverts(rates: Rates, items: seq<Item>, to: Code): Result<real, ConversionError> {
    if items == [] then Ok(0.0)
    else
      var last := items[|items| - 1];
      match SumOfConverts(rates, items[..|items| - 1], to)
      case Err(e) => Err(e)
      case Ok(sum) =>
        match Converted(rates, last.amount, last.currency, to)
        case Err(e) => Err(e)
        case Ok(c) => Ok(sum + c.amount)
  }

  ghost function Foreign(items: seq<Item>, to: Code): nat {
    if items == [] then 0
    else Foreign(items[..|items| - 1], to) + if items[|items| - 1].currency == to then 0 else 1
  }

  lemma {:induction false} SumNearDollarTotal(rates: Rates, items: seq<Item>, to: Code)
    requires SumOfConverts(rates, items, to).Ok?
    ensures Abs(SumOfConverts(rates, items, to).value - FromDollars(rates, TotalInDollars(rates, items), to))
         <= 0.005 * Foreign(items, to) as real
  {
    if items != [] {
      var front, last := items[..|items| - 1], items[|items| - 1];
      SumNearDollarTotal(rates, front, to);
      ConvertedNearExact(rates, last.amount, last.currency, to);
      ToDollarsAndBack(rates, last.amount, to);
      FromDollarsAdds(rates, TotalInDollars(rates, front), InDollars(rates, last.amount, last.currency), to);
    }
  }

  /** A batch differs from the sum of the single conversions by half a cent for itself and half a cent for each item
      in another currency, never more. */
  lemma BatchNearSumOfConverts(rates: Rates, items: seq<Item>, to: Code)
    requires SumOfConverts(rates, items, to).Ok?
    ensures Abs(Batch(rates, items, to) - SumOfConverts(rates, items, to).value) <= 0.005 * (Foreign(items, to) + 1) as real
  {
    SumNearDollarTotal(rates, items, to);
  }

  /** Converting one at a time fails exactly when a foreign item meets an unsupported code; a batch always answers. */
  lemma {:induction false} ConvertsSucceedExactlyWhen(rates: Rates, items: seq<Item>, to: Code)
    ensures SumOfConverts(rates, items, to).Ok?
       <==> (forall i | 0 <= i < |items| ::
               items[i].currency == to || (Supported(rates, items[i].currency) && Supported(rates, to)))
  {
    if items != [] {
      var front := items[..|items| - 1];
      ConvertsSucceedExactlyWhen(rates, front, to);
      if forall i | 0 <= i < |front| :: front[i].currency == to || (Supported(rates, front[i].currency) && Supported(rates, to)) {
        assert forall i | 0 <= i < |front| :: front[i] == items[i];
      } else {
        var i :| 0 <= i < |front| && !(front[i].currency == to || (Supported(rates, front[i].currency) && Supported(rates, to)));
        assert front[i] == items[i];
      }
    }
  }

  /** What the batch does instead of failing: every unsupported code is taken for a dollar. */
  lemma {:induction false} UnsupportedCountsAsDollar(rates: Rates, filled: Rates, items: seq<Item>, to: Code)
    requires forall c | c in rates && Supported(rates, c) :: c in filled && filled[c] == rates[c]
    requires forall c | c in filled && !Supported(rates, c) :: filled[c] == 1.0
    ensures Batch(rates, items, to) == Batch(filled, items, to)
  {
    DollarTotalFilled(rates, filled, items);
    SameRate(rates, filled, TotalInDollars(rates, items), to);
  }

  lemma SameRate(rates: Rates, filled: Rates, x: real, c: Code)
    requires RateOrOne(rates, c) == RateOrOne(filled, c)
    ensures FromDollars(rates, x, c) == FromDollars(filled, x, c)
    ensures InDollars(rates, x, c) == InDollars(filled, x, c)
  {}

  lemma {:induction false} DollarTotalFilled(rates: Rates, filled: Rates, items: seq<Item>)
    requires forall c | c in rates && Supported(rates, c) :: c in filled && filled[c] == rates[c]
    requires forall c | c in filled && !Supported(rates, c) :: filled[c] == 1.0
    ensures TotalInDollars(rates, items) == TotalInDollars(filled, items)
  {
    if items != [] {
      DollarTotalFilled(rates, filled, items[..|items| - 1]);
      var last := items[|items| - 1];
      SameRate(rates, filled, last.amount, last.currency);
    }
  }

  // ----- Chains of conversions -----

  // One leg as a function of the amount: linear, with the cross rate as its slope.
  lemma LegIsLinear(rates: Rates, x: real, y: real, from: Code, to: Code)
    ensures FromDollars(rates, InDollars(rates, x, from), to) - FromDollars(rates, InDollars(rates, y, from), to)
         == (x - y) * CrossRate(rates, from, to)
  {
    LegIsCross(rates, x, from, to);
    LegIsCross(rates, y, from, to);
  }

  lemma LegIsCross(rates: Rates, x: real, from: Code, to: Code)
    ensures FromDollars(rates, InDollars(rates, x, from), to) == x * CrossRate(rates, from, to)
  {
    Slope(x, RateOrOne(rates, from), RateOrOne(rates, to));
  }

  lemma Slope(x: real, a: real, b: real)
    requires a != 0.0
    ensures x / a * b == x * (b / a)
  {}

  lemma MagnitudeScales(x: real, y: real, unit: real)
    requires Abs(y) <= unit
    ensures Abs(x * y) <= Abs(x) * unit
    ensures Abs(y * x) <= Abs(x) * unit
  {
    assert Abs(x * y) == Abs(x) * Abs(y);
  }

  // An error on the near side of a leg arrives scaled by the cross rate.
  lemma LegCarriesError(rates: Rates, x: real, y: real, from: Code, to: Code)
    requires Positive(rates)
    requires Abs(x - y) <= 0.005
    ensures Abs(FromDollars(rates, InDollars(rates, x, from), to) - FromDollars(rates, InDollars(rates, y, from), to))
         <= 0.005 * CrossRate(rates, from, to)
  {
    LegIsLinear(rates, x, y, from, to);
    Quotient(RateOrOne(rates, to), RateOrOne(rates, from));
    ErrorScaled(x - y, CrossRate(rates, from, to));
  }

  lemma ErrorScaled(error: real, slope: real)
    requires Abs(error) <= 0.005 && 0.0 < slope
    ensures Abs(error * slope) <= 0.005 * slope
  {
    MagnitudeScales(slope, error, 0.005);
  }

  lemma Quotient(a: real, b: real)
    requires a > 0.0 && b > 0.0
    ensures a / b > 0.0
  {}

  /** Going through a third currency instead of straight costs at most half a cent of the third currency, at the
      rate of the second leg, and half a cent for each rounding in the target. */
  lemma DetourNearDirect(rates: Rates, amount: real, from: Code, via: Code, to: Code)
    requires Positive(rates)
    requires Converted(rates, amount, from, via).Ok?
    requires Converted(rates, Converted(rates, amount, from, via).value.amount, via, to).Ok?
    requires from != via && via != to
    ensures Converted(rates, amount, from, to).Ok?
    ensures var there := Converted(rates, amount, from, via).value.amount;
            Abs(Converted(rates, there, via, to).value.amount - Converted(rates, amount, from, to).value.amount)
              <= 0.005 * CrossRate(rates, via, to) + if from == to then 0.005 else 0.01
  {
    var there := Converted(rates, amount, from, via).value.amount;
    var exactThere := FromDollars(rates, InDollars(rates, amount, from), via);
    ConvertedNearExact(rates, amount, from, via);
    ConvertedNearExact(rates, there, via, to);
    ConvertedNearExact(rates, amount, from, to);
    ToDollarsAndBack(rates, InDollars(rates, amount, from), via);
    ToDollarsAndBack(rates, amount, from);
    LegCarriesError(rates, there, exactThere, via, to);
  }

  /** There and back. */
  lemma RoundTripNearOriginal(rates: Rates, amount: real, from: Code, to: Code)
    requires Positive(rates)
    requires Converted(rates, amount, from, to).Ok?
    requires from != to
    ensures var there := Converted(rates, amount, from, to).value.amount;
            var back := Converted(rates, there, to, from);
            back.Ok? && Abs(back.value.amount - amount) <= 0.005 * CrossRate(rates, to, from) + 0.005
  {
    DetourNearDirect(rates, amount, from, to, from);
  }

  ghost predicate Explains(c: Conversion, amount: real) {
    Abs(c.amount - amount * c.rate) <= Abs(amount) * 0.0000005 + 0.005
  }

  /** The quoted rate explains the converted amount up to the two roundings. */
  lemma QuotedRateExplainsAmount(rates: Rates, amount: real, from: Code, to: Code)
    requires Converted(rates, amount, from, to).Ok?
    ensures Explains(Converted(rates, amount, from, to).value, amount)
  {
    var c := Converted(rates, amount, from, to).value;
    if from == to {
      RoundingsExplain(amount, amount, c, 1.0);
    } else {
      RatesNearExact(rates, amount, from, to);
      RoundingsExplain(amount, Exact(rates, amount, from, to), c, CrossRate(rates, from, to));
    }
  }

  lemma RatesNearExact(rates: Rates, amount: real, from: Code, to: Code)
    requires from != to && Converted(rates, amount, from, to).Ok?
    ensures
      var c := Converted(rates, amount, from, to).value;
      && Abs(c.rate - CrossRate(rates, from, to)) <= 0.0000005
      && Abs(c.amount - Exact(rates, amount, from, to)) <= 0.005
      && Exact(rates, amount, from, to) == amount * CrossRate(rates, from, to)
  {
    LegIsCross(rates, amount, from, to);
  }

  lemma RateRounded(amount: real, got: real, exact: real, quoted: real, cross: real)
    requires Abs(quoted - cross) <= 0.0000005
    requires exact == amount * cross
    requires Abs(got - exact) <= 0.005
    ensures Abs(got - amount * quoted) <= Abs(amount) * 0.0000005 + 0.005
  {
    MagnitudeScales(amount, quoted - cross, 0.0000005);
    Spread(amount, quoted, cross);
    assert amount * quoted - exact == amount * (quoted - cross);
    Triangle(got, exact, amount * quoted, 0.005, Abs(amount) * 0.0000005);
  }

  lemma RoundingsExplain(amount: real, exact: real, c: Conversion, cross: real)
    requires Abs(c.rate - cross) <= 0.0000005
    requires exact == amount * cross
    requires Abs(c.amount - exact) <= 0.005
    ensures Explains(c, amount)
  {
    RateRounded(amount, c.amount, exact, c.rate, cross);
  }

  lemma Triangle(a: real, b: real, c: real, near: real, far: real)
    requires Abs(a - b) <= near && Abs(c - b) <= far
    ensures Abs(a - c) <= far + near
  {}

  lemma Spread(a: real, b: real, c: real)
    ensures a * (b - c) == a * b - a * c
  {}
}
