/**
 * The risk-free rate curve: the 13 fixed maturities, the rates paired with
 * them, and the constant curve used when the Treasury page cannot be read.
 * The HTTP request and the HTML parsing are not modelled: their outcome is
 * the `scraped` argument, `None` for any exception and otherwise the numeric
 * cells that follow the date cell of the table's last row.
 */
module RateCurve {
  import opened Wrappers

  /** The overnight rate, put in front of the scraped yields. */
  const OVERNIGHT_RATE: real := 0.0

  /**
   * The value of the fallback curve: 2% written as a fraction, while the
   * scraped yields are in percent.
   */
  const FALLBACK_RISK_FREE_RATE: real := 0.02

  /** The fallback rate in percent, the unit of the scraped yields. */
  const FALLBACK_RISK_FREE_PERCENT: real := 2.0

  /** How many scraped yields the curve uses: 1, 2, 3, 6 months; 1, 2, 3, 5, 7, 10, 20, 30 years. */
  const YIELD_COUNT: nat := 12

  /** The maturities, in years, at which the curve is sampled. */
  const Years: seq<real> :=
    [0.0, 1.0 / 12.0, 2.0 / 12.0, 3.0 / 12.0, 6.0 / 12.0, 1.0, 2.0, 3.0, 5.0, 7.0, 10.0, 20.0, 30.0]

  /** A rate curve: maturity in years to an annual rate. */
  type Curve = real -> real

  /** A builder of a curve from sample points (scipy's interp1d, not modelled). */
  type Interpolator = (seq<real>, seq<real>) -> Curve

  /** The maturity grid has 13 strictly increasing points and starts at 0. */
  predicate IsGrid(xs: seq<real>)
  {
    && |xs| == YIELD_COUNT + 1
    && xs[0] == 0.0
    && forall i, j :: 0 <= i < j < |xs| ==> xs[i] < xs[j]
  }

  lemma {:induction false} YearsIsGrid()
    ensures IsGrid(Years)
  {
    forall i, j | 0 <= i < j < |Years|
      ensures Years[i] < Years[j]
    {
      var k := i;
      while k < j
        invariant i <= k <= j
        invariant Years[i] <= Years[k]
        invariant k > i ==> Years[i] < Years[k]
      {
        assert Years[k] < Years[k + 1];
        k := k + 1;
      }
    }
  }

  /** The rates paired with `Years`: the overnight rate, then the first twelve scraped yields. */
  function Rates(quotes: seq<real>): (r: seq<real>)
    requires |quotes| >= YIELD_COUNT
    ensures |r| == |Years|
    ensures r[0] == OVERNIGHT_RATE
    ensures forall i :: 1 <= i < |r| ==> r[i] == quotes[i - 1]
  {
    [OVERNIGHT_RATE] + quotes[..YIELD_COUNT]
  }

  /** The curve used when reading the Treasury page fails: the same rate at every maturity. */
  function FallbackCurve(): (c: Curve)
    ensures forall x :: c(x) == FALLBACK_RISK_FREE_RATE
  {
    x => FALLBACK_RISK_FREE_RATE
  }

  /** Whether the scrape produced all the yields the curve needs (`cells[12]` exists and parsed). */
  predicate Scraped(scraped: Maybe<seq<real>>)
  {
    scraped.Some? && |scraped.value| >= YIELD_COUNT
  }

  /**
   * getRiskFree: an interpolant through (Years, Rates) when the scrape
   * succeeded, and the fallback curve on any failure.
   */
  function GetRiskFree(scraped: Maybe<seq<real>>, interp: Interpolator): (c: Curve)
    ensures Scraped(scraped) ==> c == interp(Years, Rates(scraped.value))
    ensures !Scraped(scraped) ==> forall x :: c(x) == FALLBACK_RISK_FREE_RATE
  {
    if Scraped(scraped) then interp(Years, Rates(scraped.value)) else FallbackCurve()
  }

  /** getRiskFree with its fallback in the unit of the scraped yields: 2 percent at every maturity. */
  function GetRiskFreeInPercent(scraped: Maybe<seq<real>>, interp: Interpolator): (c: Curve)
    ensures Scraped(scraped) ==> c == GetRiskFree(scraped, interp)
    ensures !Scraped(scraped) ==> forall x :: c(x) == FALLBACK_RISK_FREE_PERCENT
  {
    if Scraped(scraped) then interp(Years, Rates(scraped.value)) else x => FALLBACK_RISK_FREE_PERCENT
  }

  /** Whatever the interpolator, a failed scrape gives 0.02 at every maturity. */
  lemma FallbackIsConstant(interp: Interpolator, x: real, y: real)
    ensures GetRiskFree(None, interp)(x) == GetRiskFree(None, interp)(y) == FALLBACK_RISK_FREE_RATE
  {
  }
}
