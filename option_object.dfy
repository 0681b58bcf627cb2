/**
 * One option contract: its quote as loaded from the chain, and the
 * projection state that pricing fills in. Dates are day numbers (the
 * ordinals of module IsoDate), prices, rates and percentages are reals.
 * The Black-Scholes price and the implied-volatility solver are library
 * code and are parameters here.
 */
module OptionObject {
  import opened Wrappers
  import opened IsoDate

  /** The volatility `getIV` returns when the solver raises. */
  const FALLBACK_VOLATILITY: real := 0.01

  /** Black-Scholes price: (flag, S, K, t, r, sigma) to the option's value. */
  type Pricer = (char, real, real, real, real, real) -> real

  /** Implied-volatility solver: (price, K, t, r, flag, S) to sigma, or None where it raises. */
  type IVSolver = (real, real, real, real, char, real) -> Maybe<real>

  /** calculateCP: the percentage change from `start` to `end`; dividing by a zero start raises. */
  function CalculateCP(start: real, end: real): (r: Result<real>)
    ensures r.Ok? <==> start != 0.0
    ensures r.Err? ==> r.error == ZeroDivisionError
    ensures r.Ok? ==> ApplyCP(start, r.value) == end
  {
    if start == 0.0 then Err(ZeroDivisionError) else Ok((end - start) / start * 100.0)
  }

  /** The price reached from `start` after a change of `pct` percent. */
  function ApplyCP(start: real, pct: real): real
  {
    start + start * pct / 100.0
  }

  /** A percentage change is recovered from the price it leads to. */
  lemma {:induction false} CalculateCPOfApply(start: real, pct: real)
    requires start != 0.0
    ensures CalculateCP(start, ApplyCP(start, pct)) == Ok(pct)
  {
    var end := ApplyCP(start, pct);
    assert end - start == start * (pct / 100.0);
    assert (end - start) / start == pct / 100.0;
  }

  /** From a positive start, the change is zero exactly when the price stays, and positive exactly when it rises. */
  lemma {:induction false} CalculateCPSign(start: real, end: real)
    requires start > 0.0
    ensures CalculateCP(start, end).value == 0.0 <==> end == start
    ensures CalculateCP(start, end).value > 0.0 <==> end > start
    ensures CalculateCP(start, end).value < 0.0 <==> end < start
  {
    var q := (end - start) / start;
    assert q * start == end - start;
    if end > start {
      assert q > 0.0;
    } else if end < start {
      assert q < 0.0;
    } else {
      assert q == 0.0;
    }
  }

  /** The pricing model's flag for the chain's putCall value; any other value binds no flag. */
  function FlagOf(optionType: string): (f: Maybe<char>)
    ensures f == Some('c') <==> optionType == "CALL"
    ensures f == Some('p') <==> optionType == "PUT"
    ensures f.None? <==> optionType != "CALL" && optionType != "PUT"
  {
    if optionType == "CALL" then Some('c')
    else if optionType == "PUT" then Some('p')
    else None
  }

  /** The maturity in years at which the rate curve is read: days / 30.5 / 12. */
  function RateMaturity(days: int): (years: real)
    ensures years * 366.0 == days as real
  {
    days as real / 30.5 / 12.0
  }

  /** The time to expiry in years handed to the pricing model: days / 365. */
  function PricingTime(days: int): (years: real)
    ensures years * 365.0 == days as real
  {
    days as real / 365.0
  }

  /** The annual rate handed to the pricing model: the curve read at the rate maturity, over 100. */
  function PricingRate(riskFree: real -> real, days: int): (r: real)
    ensures r * 100.0 == riskFree(RateMaturity(days))
  {
    riskFree(RateMaturity(days)) / 100.0
  }

  /** The two day-count conventions agree only on the expiration day itself. */
  lemma {:induction false} ConventionsAgreeOnlyAtZero(days: int)
    ensures RateMaturity(days) == PricingTime(days) <==> days == 0
  {
    var a, b := RateMaturity(days), PricingTime(days);
    if a == b {
      assert a * 366.0 - a * 365.0 == 0.0;
    }
  }

  class Option {
    const symbol: string
    const description: string
    /** The chain's putCall value (`type` in the source). */
    const optionType: string
    const strikePrice: real
    /** The expiration date as a day number. */
    const expirationDate: int
    const bid: real
    const ask: real
    const mark: real
    const DTE: Maybe<int>
    /** The volatility as a fraction. */
    const volatility: real
    const delta: real
    const gamma: real
    const theta: real
    const vega: real
    const rho: real
    const openInterest: int
    const volume: int
    var expectedDTE: Maybe<int>
    var expectedValue: Maybe<real>
    var expectedPercentChange: Maybe<real>
    var expectedVolatility: Maybe<real>
    const underlyingMark: real
    var underlyingExpected: Maybe<real>
    var underlyingCP: Maybe<real>
    /** The volatility as given, in percent. */
    const volPerm: real

    /**
     * The volatility is the given percentage over 100, and a percentage
     * change is recorded only beside an expected value, as that value's
     * change against the mark.
     */
    predicate Valid()
      reads this
    {
      && volatility == volPerm / 100.0
      && (expectedPercentChange.Some? ==>
            expectedValue.Some? && CalculateCP(mark, expectedValue.value) == Ok(expectedPercentChange.value))
    }

    /** `Option(...)`: stores its arguments, the volatility as a fraction. */
    constructor (symbol: string, description: string, optionType: string, strikePrice: real,
                 expirationDate: int, bid: real, ask: real, mark: real, DTE: Maybe<int>,
                 volatility: real, delta: real, gamma: real, theta: real, vega: real, rho: real,
                 openInterest: int, volume: int, expectedDTE: Maybe<int>, expectedValue: Maybe<real>,
                 expectedVolatility: Maybe<real>, underlyingMark: real, underlyingExpected: Maybe<real>,
                 underlyingCP: Maybe<real>)
      requires expectedValue.Some? && expectedDTE.Some? ==> mark != 0.0
      ensures Valid()
      ensures this.symbol == symbol && this.description == description && this.optionType == optionType
      ensures this.strikePrice == strikePrice && this.expirationDate == expirationDate
      ensures this.bid == bid && this.ask == ask && this.mark == mark && this.DTE == DTE
      ensures this.volatility == volatility / 100.0 && this.volPerm == volatility
      ensures this.delta == delta && this.gamma == gamma && this.theta == theta
      ensures this.vega == vega && this.rho == rho
      ensures this.openInterest == openInterest && this.volume == volume
      ensures this.expectedDTE == expectedDTE && this.expectedValue == expectedValue
      ensures this.expectedVolatility == expectedVolatility && this.underlyingMark == underlyingMark
      ensures this.underlyingExpected == underlyingExpected && this.underlyingCP == underlyingCP
      ensures this.expectedPercentChange.Some? <==> expectedValue.Some? && expectedDTE.Some?
      ensures this.expectedPercentChange.Some? ==>
                CalculateCP(mark, expectedValue.value) == Ok(this.expectedPercentChange.value)
    {
      this.symbol := symbol;
      this.description := description;
      this.optionType := optionType;
      this.strikePrice := strikePrice;
      this.expirationDate := expirationDate;
      this.bid := bid;
      this.ask := ask;
      this.mark := mark;
      this.DTE := DTE;
      this.volatility := volatility / 100.0;
      this.delta := delta;
      this.gamma := gamma;
      this.theta := theta;
      this.vega := vega;
      this.rho := rho;
      this.openInterest := openInterest;
      this.volume := volume;
      this.expectedDTE := expectedDTE;
      this.expectedValue := expectedValue;
      this.expectedPercentChange :=
        if expectedValue.Some? && expectedDTE.Some? then Some(CalculateCP(mark, expectedValue.value).value)
        else None;
      this.expectedVolatility := expectedVolatility;
      this.underlyingMark := underlyingMark;
      this.underlyingExpected := underlyingExpected;
      this.underlyingCP := underlyingCP;
      this.volPerm := volatility;
    }

    /** calculateDTE: the days from `date` to expiration, negative once `date` is past it. */
    function CalculateDTE(date: int): (dte: int)
      ensures date + dte == expirationDate
    {
      expirationDate - date
    }

    /**
     * setExpectedValue: overwrites the expected value and volatility that
     * are given, then recomputes the percentage change against the mark;
     * that step raises when there is still no expected value or the mark is 0.
     */
    method SetExpectedValue(newValue: Maybe<real>, newVolatility: Maybe<real>) returns (outcome: Outcome)
      requires Valid()
      modifies this`expectedValue, this`expectedVolatility, this`expectedPercentChange
      ensures Valid()
      ensures expectedValue == if newValue.Some? then newValue else old(expectedValue)
      ensures expectedVolatility == if newVolatility.Some? then newVolatility else old(expectedVolatility)
      ensures outcome.Pass? <==> expectedValue.Some? && mark != 0.0
      ensures outcome.Pass? ==>
                expectedPercentChange.Some? &&
                CalculateCP(mark, expectedValue.value) == Ok(expectedPercentChange.value)
      ensures outcome.Fail? ==> expectedPercentChange == old(expectedPercentChange)
      ensures outcome.Fail? ==> outcome.error == if expectedValue.None? then TypeError else ZeroDivisionError
      ensures expectedDTE == old(expectedDTE) && underlyingExpected == old(underlyingExpected)
      ensures underlyingCP == old(underlyingCP)
    {
      if newValue.Some? {
        expectedValue := newValue;
      }
      if newVolatility.Some? {
        expectedVolatility := newVolatility;
      }
      if expectedValue.None? {
        return Fail(TypeError);
      }
      var cp := CalculateCP(mark, expectedValue.value);
      if cp.Err? {
        return Fail(cp.error);
      }
      expectedPercentChange := Some(cp.value);
      outcome := Pass;
    }

    /**
     * The exception `getExpectedValue` raises, if any: the underlying's
     * change divides by its mark, an unknown type leaves `flag` unbound,
     * and the option's change divides by its own mark.
     */
    function PricingError(): Maybe<PyError>
    {
      if underlyingMark == 0.0 then Some(ZeroDivisionError)
      else if FlagOf(optionType).None? then Some(UnboundLocalError)
      else if mark == 0.0 then Some(ZeroDivisionError)
      else None
    }

    /**
     * The theoretical value at `expectedDate`: the pricer at spot
     * `underlyingPrice`, the strike, t = DTE / 365, and the rate read off
     * the curve at DTE / 30.5 / 12 and divided by 100.
     */
    function ExpectedValueAt(underlyingPrice: real, expectedDate: int, riskFree: real -> real, price: Pricer): real
      requires FlagOf(optionType).Some?
    {
      var days := CalculateDTE(expectedDate);
      price(FlagOf(optionType).value, underlyingPrice, strikePrice, PricingTime(days),
            PricingRate(riskFree, days), volatility)
    }

    /** The projection state after `getExpectedValue(underlyingPrice, expectedDate, riskFree)` succeeded. */
    predicate PricedAt(underlyingPrice: real, expectedDate: int, riskFree: real -> real, price: Pricer)
      reads this
    {
      && PricingError().None?
      && underlyingExpected == Some(underlyingPrice)
      && underlyingCP == Some(CalculateCP(underlyingMark, underlyingPrice).value)
      && expectedDTE == Some(CalculateDTE(expectedDate))
      && expectedValue == Some(ExpectedValueAt(underlyingPrice, expectedDate, riskFree, price))
      && expectedPercentChange ==
           Some(CalculateCP(mark, ExpectedValueAt(underlyingPrice, expectedDate, riskFree, price)).value)
    }

    /**
     * getExpectedValue: records the underlying's projected price and change
     * and the projected DTE, prices the option there and stores the price
     * through setExpectedValue; returns the stored value. Each step's
     * updates stay in place when a later step raises.
     */
    method GetExpectedValue(underlyingPrice: real, expectedDate: int, riskFree: real -> real, price: Pricer)
      returns (r: Result<real>)
      requires Valid()
      modifies this`underlyingExpected, this`underlyingCP, this`expectedDTE, this`expectedValue,
               this`expectedVolatility, this`expectedPercentChange
      ensures Valid()
      ensures expectedVolatility == old(expectedVolatility)
      ensures r.Ok? <==> PricingError().None?
      ensures r.Err? ==> r.error == PricingError().value
      ensures r.Ok? ==> PricedAt(underlyingPrice, expectedDate, riskFree, price)
      ensures r.Ok? ==> r.value == ExpectedValueAt(underlyingPrice, expectedDate, riskFree, price)
      ensures underlyingExpected == Some(underlyingPrice)
      ensures underlyingMark == 0.0 ==>
                underlyingCP == old(underlyingCP) && expectedDTE == old(expectedDTE) &&
                expectedValue == old(expectedValue) && expectedPercentChange == old(expectedPercentChange)
      ensures underlyingMark != 0.0 ==>
                underlyingCP == Some(CalculateCP(underlyingMark, underlyingPrice).value) &&
                expectedDTE == Some(CalculateDTE(expectedDate))
      ensures underlyingMark != 0.0 && FlagOf(optionType).None? ==>
                expectedValue == old(expectedValue) && expectedPercentChange == old(expectedPercentChange)
      ensures underlyingMark != 0.0 && FlagOf(optionType).Some? && mark == 0.0 ==>
                expectedValue == Some(ExpectedValueAt(underlyingPrice, expectedDate, riskFree, price)) &&
                expectedPercentChange == old(expectedPercentChange)
    {
      underlyingExpected := Some(underlyingPrice);
      var cp := CalculateCP(underlyingMark, underlyingPrice);
      if cp.Err? {
        return Err(cp.error);
      }
      underlyingCP := Some(cp.value);
      var days := CalculateDTE(expectedDate);
      expectedDTE := Some(days);
      var interestRate := PricingRate(riskFree, days);
      var flag := FlagOf(optionType);
      if flag.None? {
        return Err(UnboundLocalError);
      }
      var eVal := price(flag.value, underlyingPrice, strikePrice, PricingTime(days), interestRate, volatility);
      var outcome := SetExpectedValue(Some(eVal), None);
      if outcome.Fail? {
        return Err(outcome.error);
      }
      r := Ok(expectedValue.value);
    }

    /** Whether `getIV`'s solver call is reached: a known type, and an expected DTE to divide. */
    predicate IVInputsReady()
      reads this
    {
      FlagOf(optionType).Some? && expectedDTE.Some?
    }

    /**
     * getIV: the volatility that reproduces the mark at the expected DTE;
     * FALLBACK_VOLATILITY when anything inside the `try` raises.
     */
    function GetIV(interest: real, solve: IVSolver): (iv: real)
      reads this
      ensures IVInputsReady() ==>
                var solved := solve(mark, strikePrice, PricingTime(expectedDTE.value), interest,
                                    FlagOf(optionType).value, underlyingMark);
                iv == if solved.Some? then solved.value else FALLBACK_VOLATILITY
      ensures !IVInputsReady() ==> iv == FALLBACK_VOLATILITY
    {
      if !IVInputsReady() then FALLBACK_VOLATILITY
      else
        match solve(mark, strikePrice, PricingTime(expectedDTE.value), interest, FlagOf(optionType).value,
                    underlyingMark)
        case Some(v) => v
        case None => FALLBACK_VOLATILITY
    }
  }

  /**
   * On calendar dates: the days to expiration are negative exactly when the
   * date is past the expiration, and 0 exactly on the expiration day.
   */
  lemma CalculateDTESign(o: Option, date: Date, expiration: Date)
    requires ValidDate(date) && ValidDate(expiration) && o.expirationDate == ToOrdinal(expiration)
    ensures o.CalculateDTE(ToOrdinal(date)) < 0 <==> Before(expiration, date)
    ensures o.CalculateDTE(ToOrdinal(date)) == 0 <==> date == expiration
    ensures o.CalculateDTE(ToOrdinal(date)) > 0 <==> Before(date, expiration)
  {
    OrdinalOrder(expiration, date);
    OrdinalOrder(date, expiration);
  }

  /** After pricing, with a positive mark, the projected change is a gain exactly when the value beats the mark. */
  lemma PricedGainIffAboveMark(o: Option, underlyingPrice: real, expectedDate: int, riskFree: real -> real,
                               price: Pricer)
    requires o.PricedAt(underlyingPrice, expectedDate, riskFree, price)
    requires o.mark > 0.0
    ensures o.expectedPercentChange.value > 0.0 <==> o.expectedValue.value > o.mark
    ensures o.expectedPercentChange.value == 0.0 <==> o.expectedValue.value == o.mark
  {
    CalculateCPSign(o.mark, o.expectedValue.value);
  }
}
