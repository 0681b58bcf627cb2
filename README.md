# OptionsProfitCalc in Dafny

OptionsProfitCalc does three things. It loads an options chain for a stock symbol. It reprices every contract that is still alive at a projected underlying price on a projected date. It then ranks the contracts by their expected percentage gain. This project models the bookkeeping around that repricing, and proves properties of it:

- the `Option` object, with its constructor and its percentage-change, days-to-expiration, set-expected-value, get-expected-value and implied-volatility operations;
- the chain operations of `optionsProfitCalc_base.py`, with `loadOptions` (row mapping and budget filter), `getRiskFree` (rate grid and fallback), `calculateValues` (expiration filter and repricing) and `sortChainByProfit`.

Modules, one concept each:

| file | module | models |
|---|---|---|
| `wrappers.dfy` | `Wrappers` | Python's `None` (`Maybe`) and the exceptions the code can raise (`Result`, `Outcome`) |
| `py_strings.dfy` | `PyStrings` | `str.find` (−1 when absent) and the slice `s[:stop]`, negative stops included |
| `iso_date.dfy` | `IsoDate` | `datetime.date` as its proleptic Gregorian ordinal, and strict `date.fromisoformat` |
| `rate_curve.dfy` | `RateCurve` | `getRiskFree`: the 13-point maturity grid, the rates paired with it, the 2% fallback curve |
| `option_object.dfy` | `OptionObject` | class `Option` and its operations |
| `profit_calc.dfy` | `ProfitCalc` | `loadOptions` and `calculateValues` |
| `profit_sort.dfy` | `ProfitSort` | `sortChainByProfit`, a stable descending sort |
| `seq_facts.dfy` | `SeqFacts` | concatenation facts the proofs share |

Conventions:

- **Dates.** A date is a day number, `date.toordinal()`. `IsoDate.OrdinalOrder` shows this keeps Python's ordering and equality of dates. So `>` and `==` on dates become integer comparisons, and `(a - b).days` becomes a subtraction.
- **Numbers.** Prices, rates and percentages are `real`.
- **Errors.** A Python exception becomes an `Err`/`Fail` value naming its kind:
  - `ZeroDivisionError` for a zero mark;
  - `UnboundLocalError` for the unbound `flag` when the type is neither CALL nor PUT;
  - `IndexError` for a chain shorter than two;
  - `TypeError` for `None` arithmetic and for comparing `None` keys;
  - `ValueError` for a malformed expiration date.

  An operation that raises part-way leaves in place the updates made before the raise. The contracts of `setExpectedValue` and `getExpectedValue` pin those updates down. `calculateValues` states that the options before the failing one are priced, and that later options not seen before it are untouched.
- **Library calls.** These are function-typed parameters:
  - the Black-Scholes price is `OptionObject.Pricer`;
  - the implied-volatility solver is `OptionObject.IVSolver`, which returns `None` where it raises;
  - `interp1d` is `RateCurve.Interpolator`;
  - the rate curve that `calculateValues` obtains from `getRiskFree()` is the `riskFree` argument.
- **Network.** The brokerage feed is the `rows` and `underlyingMark` arguments of `LoadOptions`. The outcome of scraping the Treasury page is the `scraped` argument of `GetRiskFree`.

Two day-count conventions: the rate curve is read at `DTE / 30.5 / 12` years, which is DTE/366, and the pricer gets `t = DTE / 365` years. Both are modelled as the code has them. `OptionObject.ConventionsAgreeOnlyAtZero` shows they differ at every DTE except 0.

## Notes on the code

- `getIV` divides the expected DTE, the one `getExpectedValue` sets. While there is none, the division raises inside the `try` and the fallback volatility is returned.
- The `getRiskFree` of `optionsProfitCalc_base.py` passes no `fill_value` to `interp1d`. Only the copy in `option_object.py` extrapolates. The model takes the interpolator as a parameter, so it covers both.
- The code has no deduplication of contracts.
- A type other than CALL or PUT prints a message, and the pricing call then raises `UnboundLocalError` on `flag`.
- The fallback curve gives 0.02, as a fraction, while the scraped yields are in percent, and `getExpectedValue` divides every curve value by 100 (see Findings).

## Model

| member | source | states |
|---|---|---|
| `OptionObject.CalculateCP` | optionsProfitCalc/option/option_object.py:68-69 | Succeeds exactly when `start` is non-zero, raising ZeroDivisionError otherwise; the percentage it returns, applied to `start`, gives back `end` |
| `OptionObject.CalculateCPOfApply` | optionsProfitCalc/option/option_object.py:68-69 | The inverse direction: the change computed between `start` and the price `pct` percent away from it is `pct` |
| `OptionObject.CalculateCPSign` | optionsProfitCalc/option/option_object.py:68-69 | For a positive start the change is 0 iff the price stays, positive iff it rises, negative iff it falls |
| `OptionObject.FlagOf` | optionsProfitCalc/option/option_object.py:107-112 | CALL ↦ 'c' and PUT ↦ 'p', each an iff; every other type binds no flag |
| `OptionObject.RateMaturity` | optionsProfitCalc/option/option_object.py:77 | The rate-curve maturity is DTE / 366 years (30.5 × 12 days) |
| `OptionObject.PricingRate` | optionsProfitCalc/option/option_object.py:77 | The rate handed to the pricer, times 100, is the curve read at the rate maturity |
| `OptionObject.PricingTime` | optionsProfitCalc/option/option_object.py:113-114 | The pricing time is DTE / 365 years |
| `OptionObject.ConventionsAgreeOnlyAtZero` | optionsProfitCalc/option/option_object.py:76-114 | The two conversions of the same DTE are equal iff the DTE is 0 |
| `OptionObject.Option.constructor` | optionsProfitCalc/option/option_object.py:25-55 | Every argument is stored unchanged, except that the volatility is stored over 100 and the raw value is kept as `volPerm`; the percentage change is set iff both the expected value and the expected DTE are given, and then it is `calculateCP(mark, expectedValue)`; the class invariant holds |
| `OptionObject.Option.CalculateDTE` | optionsProfitCalc/option/option_object.py:57-59 | The date plus the days to expiration is the expiration date |
| `OptionObject.CalculateDTESign` | optionsProfitCalc/option/option_object.py:57-59 | On calendar dates the DTE is negative iff the date is past expiration, 0 iff it is the expiration day, and positive iff it is before |
| `OptionObject.Option.SetExpectedValue` | optionsProfitCalc/option/option_object.py:61-66 | The expected value and volatility are overwritten only by non-None arguments. The method passes iff an expected value exists and the mark is non-zero, and the percentage change is then `calculateCP(mark, expectedValue)`. A raise is TypeError with no expected value and ZeroDivisionError with a zero mark, and then the change is left as it was. No other field changes, and the invariant is kept |
| `OptionObject.Option.GetExpectedValue` | optionsProfitCalc/option/option_object.py:71-118 | On success it records the underlying price, its change against the underlying mark and the DTE to the expected date; it stores and returns the pricer's value at t = DTE/365, rate = curve(DTE/30.5/12)/100 and the stored volatility, with its change against the mark. It fails iff the underlying mark is 0 (ZeroDivisionError), the type is neither CALL nor PUT (UnboundLocalError) or the mark is 0 (ZeroDivisionError), and in each case the fields set before the raise are pinned down. `expectedVolatility` is never touched |
| `OptionObject.PricedGainIffAboveMark` | optionsProfitCalc/option/option_object.py:113-118 | After pricing, with a positive mark, the expected change is a gain iff the expected value exceeds the mark, and 0 iff they are equal |
| `OptionObject.Option.GetIV` | optionsProfitCalc/option/option_object.py:153-167 | The solver's volatility for (mark, strike, expected DTE/365, rate, flag, underlying mark) when it succeeds; exactly FALLBACK_VOLATILITY = 0.01 when it raises, when the type binds no flag, or when there is no expected DTE |
| `RateCurve.YearsIsGrid` | optionsProfitCalc/optionsProfitCalc_base.py:123 | The maturity grid has 13 strictly increasing points starting at 0 |
| `RateCurve.Rates` | optionsProfitCalc/optionsProfitCalc_base.py:110-124 | 13 rates paired one-to-one with the grid: OVERNIGHT_RATE = 0 first, then the twelve scraped yields in column order |
| `RateCurve.FallbackCurve` | optionsProfitCalc/optionsProfitCalc_base.py:128-130 | The fallback curve gives FALLBACK_RISK_FREE_RATE = 0.02 at every maturity |
| `RateCurve.GetRiskFree` | optionsProfitCalc/optionsProfitCalc_base.py:99-130 | When the scrape yields 12 numeric cells, the curve is the interpolant through the grid and `Rates`; on any failure it is 0.02 at every maturity. The copy at option_object.py:120-151 differs only in the interpolator it is given |
| `RateCurve.GetRiskFreeInPercent` | optionsProfitCalc/optionsProfitCalc_base.py:99-130 | The corrected curve: the same interpolant as `GetRiskFree` on a full scrape, and 2 (percent) at every maturity otherwise |
| `ProfitCalc.FallbackRateAsWritten` | optionsProfitCalc/optionsProfitCalc_base.py:128-130 | As written, a failed scrape makes the pricer receive 0.0002, not the 2% rate (0.02) the fallback stands for |
| `ProfitCalc.FallbackRateCorrected` | optionsProfitCalc/optionsProfitCalc_base.py:128-130 | With the fallback in percent, a failed scrape prices at 0.02, and a full scrape prices exactly as before |
| `RateCurve.FallbackIsConstant` | optionsProfitCalc/option/option_object.py:148-151 | Whatever the interpolator, a failed scrape gives the same rate, 0.02, at any two maturities |
| `PyStrings.Find` | optionsProfitCalc/optionsProfitCalc_base.py:70 | `find` gives −1 iff the character is absent, and otherwise the index of its first occurrence |
| `PyStrings.SliceTo` | optionsProfitCalc/optionsProfitCalc_base.py:70 | `s[:stop]` is always a prefix of `s`: its first `stop` characters when `stop` is at most the length, all of `s` beyond that; for a negative `stop` it is what remains before the last `-stop` characters, or empty once `-stop` reaches the length |
| `PyStrings.BeforeFirstFound` | optionsProfitCalc/optionsProfitCalc_base.py:68-70 | With a `_` in the symbol, the stored symbol is the prefix before the first `_` and contains no `_` |
| `PyStrings.BeforeFirstMissing` | optionsProfitCalc/optionsProfitCalc_base.py:67-74 | With no `_` (or, for the expiration, no space), the result is the string minus its last character |
| `IsoDate.OrdinalOrder` | optionsProfitCalc/optionsProfitCalc_base.py:140 | Day numbers order and identify valid dates exactly as Python's date comparison does |
| `IsoDate.FromIsoFormat` | optionsProfitCalc/optionsProfitCalc_base.py:74 | A parse succeeds only on a 10-character string |
| `IsoDate.FromIsoFormatSpells` | optionsProfitCalc/optionsProfitCalc_base.py:74 | The converse of the round trip: a successful parse is the YYYY-MM-DD form of a valid date, and gives that date's day number |
| `IsoDate.PaddedOfNumber` | optionsProfitCalc/optionsProfitCalc_base.py:74 | A string of digits is the zero-padded form of the number it spells, which has no more digits than the string |
| `IsoDate.IsoFormatOfSpelled` | optionsProfitCalc/optionsProfitCalc_base.py:74 | A well-shaped string is the ISO form of the date its fields spell |
| `IsoDate.FromIsoFormatOfIsoFormat` | optionsProfitCalc/optionsProfitCalc_base.py:74 | Parsing a valid date's YYYY-MM-DD form gives back that date |
| `ProfitCalc.ExpirationOfTimestamp` | optionsProfitCalc/optionsProfitCalc_base.py:67-74 | A `YYYY-MM-DD <time>` expiration is cut at its space and parses to the date |
| `ProfitCalc.ExpirationWithoutTimeFails` | optionsProfitCalc/optionsProfitCalc_base.py:67-74 | An expiration with no space and at most 10 characters loses its last character and fails to parse |
| `ProfitCalc.AffordableRowsAppend` | optionsProfitCalc/optionsProfitCalc_base.py:87-91 | One more row adds itself to the kept rows iff it is affordable |
| `ProfitCalc.AffordableRowsExact` | optionsProfitCalc/optionsProfitCalc_base.py:87-91 | The kept rows are exactly the rows with mark × 100 ≤ budget, each as often as in the feed |
| `ProfitCalc.NoBudgetKeepsAll` | optionsProfitCalc/optionsProfitCalc_base.py:90-91 | Without a budget every row is kept, in feed order |
| `ProfitCalc.AllExpirationsParseIff` | optionsProfitCalc/optionsProfitCalc_base.py:65-74 | The recursive "all parse" predicate holds iff each row's expiration parses |
| `ProfitCalc.FailingRowBreaksAll` | optionsProfitCalc/optionsProfitCalc_base.py:74 | One unparsable expiration makes the whole feed fail |
| `ProfitCalc.FromRowValid` | optionsProfitCalc/optionsProfitCalc_base.py:70-86 | An Option built from a row satisfies the class invariant |
| `ProfitCalc.OptionFromRow` | optionsProfitCalc/optionsProfitCalc_base.py:70-86 | Fails with ValueError iff the expiration does not parse. Otherwise it gives a new Option holding the row's columns, the cut symbol, the parsed date, the row's volatility over 100, the underlying mark and no projection |
| `ProfitCalc.LoadStep` | optionsProfitCalc/optionsProfitCalc_base.py:87-91 | Row i extends the prefix that parses, and appends itself to the kept rows iff it is affordable |
| `ProfitCalc.LoadedAt` | optionsProfitCalc/optionsProfitCalc_base.py:65-91 | The loop's recursive correspondence gives, for each k, that option k was built from kept row k |
| `ProfitCalc.DistinctAt` | optionsProfitCalc/optionsProfitCalc_base.py:89-91 | The loop's recursive distinctness gives pairwise-distinct options |
| `ProfitCalc.DistinctAppend` | optionsProfitCalc/optionsProfitCalc_base.py:89-91 | Appending an option not yet present keeps the chain distinct |
| `ProfitCalc.LoadedAppend` | optionsProfitCalc/optionsProfitCalc_base.py:87-91 | Appending the option built from one more kept row keeps the row-to-option correspondence |
| `ProfitCalc.LoadRow` | optionsProfitCalc/optionsProfitCalc_base.py:66-91 | One loop pass keeps the loop's correspondence. It raises ValueError only when the feed cannot all parse, and appends exactly one new option iff the row is affordable, leaving the chain alone otherwise |
| `ProfitCalc.LoadOptions` | optionsProfitCalc/optionsProfitCalc_base.py:48-97 | Raises ValueError iff some expiration does not parse, affordable or not. Otherwise it returns one new, distinct Option per kept row, in feed order, each built from that row |
| `ProfitCalc.AliveFromAppend` | optionsProfitCalc/optionsProfitCalc_base.py:139-143 | One more option adds itself to the returned chain iff it expires on or after the expected date |
| `ProfitCalc.AliveFromExact` | optionsProfitCalc/optionsProfitCalc_base.py:139-143 | The returned options are exactly those with expiration ≥ the expected date, each as often as in the chain |
| `ProfitCalc.AliveFromMember` | optionsProfitCalc/optionsProfitCalc_base.py:139-143 | Every returned option is an alive member of the chain |
| `ProfitCalc.CalculateValues` | optionsProfitCalc/optionsProfitCalc_base.py:132-148 | An empty chain raises IndexError, a zero underlying mark raises ZeroDivisionError, and a one-option chain raises IndexError; these leave every option unchanged. Otherwise it succeeds iff no alive option has a pricing error. A failure is the error of the first alive option that has one: the alive options before it are priced and the later ones not seen before it are untouched. On success it returns the alive options in order, each priced at the given price, date and curve. Dropped options are unchanged, and expected volatilities are untouched |
| `ProfitCalc.PriceAlive` | optionsProfitCalc/optionsProfitCalc_base.py:136-148 | The loop alone: succeeds iff no alive option has a pricing error, fails at the first alive option that has one with the earlier ones priced and the later unseen ones untouched, and otherwise returns the alive options in order, all priced |
| `ProfitCalc.PriceStep` | optionsProfitCalc/optionsProfitCalc_base.py:140-143 | An option expiring before the expected date is left unchanged; an alive one is priced, and the pass fails iff it has a pricing error, with that error |
| `ProfitCalc.AliveFromPriced` | optionsProfitCalc/optionsProfitCalc_base.py:139-143 | If every alive option of the chain is priced, so is every option returned |
| `ProfitSort.Insert` | optionsProfitCalc/optionsProfitCalc_base.py:153 | Insertion adds exactly the one option, as a multiset |
| `ProfitSort.SortByProfit` | optionsProfitCalc/optionsProfitCalc_base.py:153 | The sorted chain is a permutation of the input |
| `ProfitSort.InsertOrdered` | optionsProfitCalc/optionsProfitCalc_base.py:153 | Insertion into a descending chain keeps it descending |
| `ProfitSort.SortByProfitOrdered` | optionsProfitCalc/optionsProfitCalc_base.py:153 | The sorted chain is non-increasing in expectedPercentChange |
| `ProfitSort.InsertStable` | optionsProfitCalc/optionsProfitCalc_base.py:153 | Insertion places the new option before every option of the rest with an equal key. It is the front element of the input, so this is the input order |
| `ProfitSort.SortByProfitStable` | optionsProfitCalc/optionsProfitCalc_base.py:153 | For every key, the sorted chain lists the options with that key in their input order |
| `ProfitSort.StableArrangementUnique` | optionsProfitCalc/optionsProfitCalc_base.py:153 | Two non-increasing arrangements with the same options per key, in the same order, are equal |
| `ProfitSort.SortByProfitUnique` | optionsProfitCalc/optionsProfitCalc_base.py:153 | Any stable descending sort of the chain, Python's `sorted(..., reverse=True)` included, equals `SortByProfit` |
| `ProfitSort.SortChainByProfit` | optionsProfitCalc/optionsProfitCalc_base.py:151-155 | Succeeds iff the chain has at most one option or every option has a percentage change, and otherwise raises TypeError; the result is a permutation |
| `ProfitSort.SortChainByProfitSpec` | optionsProfitCalc/optionsProfitCalc_base.py:151-155 | On a fully priced chain the result is a non-increasing permutation that keeps equal keys in input order |

## Findings

| source | as written | input that shows it | evidently intended | confidence | as-written member | corrected member |
|---|---|---|---|---|---|---|
| optionsProfitCalc/optionsProfitCalc_base.py:128-130 | The fallback curve returns `FALLBACK_RISK_FREE_RATE` = 0.02, and `getExpectedValue` divides every curve value by 100 (option_object.py:77), as is right for the scraped yields, which are in percent | Any failed scrape: every option is priced with r = 0.0002 instead of 0.02 | The fallback is in percent, 2, so the pricer receives 0.02 | medium, not executed | `ProfitCalc.FallbackRateAsWritten` | `ProfitCalc.FallbackRateCorrected` |

`RateCurve.GetRiskFree` stays as written. `RateCurve.GetRiskFreeInPercent` is the corrected curve. `CalculateValues` takes its curve as an argument, so either can be supplied.

## Left out

- Authentication with the brokerage, tokens and environment variables (`getTokens`, `authenticateAndLoad`). These are network and process state.
- The `td.quoteDF` and `td.optionsDF` calls. Their results are the `rows` and `underlyingMark` arguments, and `fromDate` and `opType` only parameterise that request.
- The `requests` call and the BeautifulSoup parsing of the Treasury page. Their outcome is `GetRiskFree`'s `scraped` argument, with `None` for any exception and otherwise the numeric cells after the date cell.
- `interp1d`, the Black-Scholes price and the implied-volatility solver. These are floating-point library code, modelled as parameters.
- `OptionObject.Pricer`: a total function. So the "fails iff" of `GetExpectedValue` and the "succeeds iff" of `CalculateValues` and `PriceAlive` assume that `black_scholes` never raises, for example on a non-positive spot, strike or time.
- `ProfitCalc.CalculateValues`: takes the rate curve as a total function. In `optionsProfitCalc_base.py` the curve comes from `interp1d` without extrapolation, which raises ValueError for a maturity outside 0–30 years. That is a DTE beyond about 10 980 days, which this model does not bound.
- IEEE floating-point rounding, infinities and NaN. All arithmetic is on `real`.
- `OptionObject.Option.constructor`: requires a non-zero mark when both an expected value and an expected DTE are given, where Python would raise ZeroDivisionError inside `__init__`. Every call in the code passes neither.
- `OptionObject.Option.constructor`: arguments that Python lets default to `None` are typed values here, except the expectation fields. `volatility / 100` on `None` would raise, and no caller in the code omits these arguments.
- `date.fromisoformat` is modelled in its strict `YYYY-MM-DD` form. The wider formats that Python 3.11 and later accept are not modelled.
- `ProfitCalc.CalculateValues`: requires the class invariant of every option it is given. Every `Option` built by the constructor satisfies it, and the methods keep it.
- Printing, the command-line prompts and `Option.__str__`.
- `optionsProfitCalc/optionsProfitCalc.py` and `OptionsProfitCalc.py`. They hold only authentication, network calls and printing.
- Deduplication of contracts. The code has none.
