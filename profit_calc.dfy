/**
 * The chain processing of optionsProfitCalc_base: turning the feed's rows
 * into `Option`s under an optional budget, and pricing the options that
 * are still alive on the expected date. The feed itself (`td.quoteDF`,
 * `td.optionsDF`) is the `rows` and `underlyingMark` arguments; the rate
 * curve that `getRiskFree` would fetch is the `riskFree` argument.
 */
module ProfitCalc {
  import opened Wrappers
  import opened PyStrings
  import opened IsoDate
  import opened OptionObject
  import opened RateCurve
  import opened SeqFacts

  /** One row of the options feed, with the columns loadOptions reads. */
  datatype Row = Row(symbol: string, description: string, putCall: string, strikePrice: real,
                     expirationDate: string, bid: real, ask: real, mark: real, volatility: real,
                     delta: real, gamma: real, theta: real, vega: real, rho: real,
                     openInterest: int, totalVolume: int)

  /** The stored symbol: `sym[:sym.find('_')]`. */
  function SymbolOf(sym: string): string
  {
    BeforeFirst(sym, '_')
  }

  /** The stored expiration: `date.fromisoformat(expDate[:expDate.find(' ')])`, None where that raises. */
  function ExpirationOf(expDate: string): Maybe<int>
  {
    FromIsoFormat(BeforeFirst(expDate, ' '))
  }

  /** The feed's `YYYY-MM-DD hh:mm:ss` timestamps give their date. */
  lemma ExpirationOfTimestamp(d: Date, time: string)
    requires ValidDate(d)
    ensures ExpirationOf(IsoFormat(d) + " " + time) == Some(ToOrdinal(d))
  {
    var iso := IsoFormat(d);
    var s := iso + " " + time;
    assert ' ' !in iso by {
      forall i | 0 <= i < |iso|
        ensures iso[i] != ' '
      {
        assert iso == Padded(d.year, 4) + "-" + Padded(d.month, 2) + "-" + Padded(d.day, 2);
        assert i < 4 || i == 4 || 5 <= i < 7 || i == 7 || 8 <= i < 10;
        if i < 4 {
          assert iso[i] == Padded(d.year, 4)[i];
        } else if 5 <= i < 7 {
          assert iso[i] == Padded(d.month, 2)[i - 5];
        } else if 8 <= i < 10 {
          assert iso[i] == Padded(d.day, 2)[i - 8];
        }
      }
    }
    assert s[|iso|] == ' ';
    assert ' ' in s;
    var k := Find(s, ' ');
    assert k == |iso| by {
      assert s[..|iso|] == iso;
      assert s[..k][|iso|..] == s[|iso|..k] || k <= |iso|;
    }
    assert s[..k] == iso;
    FromIsoFormatOfIsoFormat(d);
  }

  /** A 10-character date with no time part loses its last digit, and the parse then raises. */
  lemma ExpirationWithoutTimeFails(expDate: string)
    requires ' ' !in expDate && |expDate| <= 10
    ensures ExpirationOf(expDate).None?
  {
    BeforeFirstMissing(expDate, ' ');
  }

  /** Whether a row is kept: there is no budget, or 100 contracts' worth of its mark fits in it. */
  predicate Affordable(row: Row, budget: Maybe<real>)
  {
    budget.None? || row.mark * 100.0 <= budget.value
  }

  /** The rows loadOptions keeps, in feed order. */
  function AffordableRows(rows: seq<Row>, budget: Maybe<real>): seq<Row>
  {
    if rows == [] then []
    else (if Affordable(rows[0], budget) then [rows[0]] else []) + AffordableRows(rows[1..], budget)
  }

  lemma {:induction false} AffordableRowsAppend(rows: seq<Row>, row: Row, budget: Maybe<real>)
    ensures AffordableRows(rows + [row], budget) ==
            AffordableRows(rows, budget) + if Affordable(row, budget) then [row] else []
  {
    if rows == [] {
      assert [row][1..] == [];
      AppendEmpty(AffordableRows([row], budget));
    } else {
      AppendTail(rows, row);
      AffordableRowsAppend(rows[1..], row, budget);
      var head := if Affordable(rows[0], budget) then [rows[0]] else [];
      AppendAssoc(head, AffordableRows(rows[1..], budget), if Affordable(row, budget) then [row] else []);
    }
  }

  /** The kept rows are exactly the affordable ones, each as often as in the feed. */
  lemma {:induction false} AffordableRowsExact(rows: seq<Row>, budget: Maybe<real>, row: Row)
    ensures multiset(AffordableRows(rows, budget))[row] == if Affordable(row, budget) then multiset(rows)[row] else 0
  {
    if rows != [] {
      AffordableRowsExact(rows[1..], budget, row);
      assert rows == [rows[0]] + rows[1..];
    }
  }

  /** Without a budget every row is kept, in order. */
  lemma {:induction false} NoBudgetKeepsAll(rows: seq<Row>)
    ensures AffordableRows(rows, None) == rows
  {
    if rows != [] {
      NoBudgetKeepsAll(rows[1..]);
    }
  }

  /** Whether every row's expiration parses. */
  predicate AllExpirationsParse(rows: seq<Row>)
  {
    rows == [] || (ExpirationOf(rows[0].expirationDate).Some? && AllExpirationsParse(rows[1..]))
  }

  lemma {:induction false} AllExpirationsParseAppend(rows: seq<Row>, row: Row)
    requires AllExpirationsParse(rows) && ExpirationOf(row.expirationDate).Some?
    ensures AllExpirationsParse(rows + [row])
  {
    if rows == [] {
      assert [row][1..] == [];
    } else {
      assert (rows + [row])[1..] == rows[1..] + [row];
      AllExpirationsParseAppend(rows[1..], row);
    }
  }

  lemma {:induction false} AllExpirationsParseIff(rows: seq<Row>)
    ensures AllExpirationsParse(rows) <==> forall i :: 0 <= i < |rows| ==> ExpirationOf(rows[i].expirationDate).Some?
  {
    if rows != [] {
      AllExpirationsParseIff(rows[1..]);
      assert forall i :: 1 <= i < |rows| ==> rows[i] == rows[1..][i - 1];
    }
  }

  lemma FailingRowBreaksAll(rows: seq<Row>, i: nat)
    requires i < |rows| && ExpirationOf(rows[i].expirationDate).None?
    ensures !AllExpirationsParse(rows)
  {
    AllExpirationsParseIff(rows);
  }

  /** The fields of an Option, as one value; the expiration is Some where it was parsed. */
  datatype Fields = Fields(symbol: string, description: string, optionType: string, strikePrice: real,
                           expirationDate: Maybe<int>, bid: real, ask: real, mark: real, DTE: Maybe<int>,
                           volatility: real, volPerm: real, delta: real, gamma: real, theta: real,
                           vega: real, rho: real, openInterest: int, volume: int, expectedDTE: Maybe<int>,
                           expectedValue: Maybe<real>, expectedPercentChange: Maybe<real>,
                           expectedVolatility: Maybe<real>, underlyingMark: real,
                           underlyingExpected: Maybe<real>, underlyingCP: Maybe<real>)

  function FieldsOf(o: Option): Fields
    reads o
  {
    Fields(o.symbol, o.description, o.optionType, o.strikePrice, Some(o.expirationDate), o.bid, o.ask, o.mark,
           o.DTE, o.volatility, o.volPerm, o.delta, o.gamma, o.theta, o.vega, o.rho, o.openInterest, o.volume,
           o.expectedDTE, o.expectedValue, o.expectedPercentChange, o.expectedVolatility, o.underlyingMark,
           o.underlyingExpected, o.underlyingCP)
  }

  /**
   * The fields loadOptions gives the Option for `row`: the symbol cut at
   * '_', the parsed expiration, the volatility over 100 beside its raw
   * value, the quote's mark, and no DTE or projection.
   */
  function RowFields(row: Row, underlyingMark: real): Fields
  {
    Fields(SymbolOf(row.symbol), row.description, row.putCall, row.strikePrice, ExpirationOf(row.expirationDate),
           row.bid, row.ask, row.mark, None, row.volatility / 100.0, row.volatility, row.delta, row.gamma,
           row.theta, row.vega, row.rho, row.openInterest, row.totalVolume, None, None, None, None,
           underlyingMark, None, None)
  }

  /** `o` is the Option that loadOptions builds from `row`. */
  predicate FromRow(o: Option, row: Row, underlyingMark: real)
    reads o
  {
    FieldsOf(o) == RowFields(row, underlyingMark)
  }

  /** A freshly loaded option satisfies the class invariant. */
  lemma FromRowValid(o: Option, row: Row, underlyingMark: real)
    requires FromRow(o, row, underlyingMark)
    ensures o.Valid()
  {
  }

  /**
   * The `Option(...)` call of loadOptions for one feed row; the expiration
   * argument raises ValueError when it does not parse.
   */
  method OptionFromRow(row: Row, underlyingMark: real) returns (r: Result<Option>)
    ensures r.Err? <==> ExpirationOf(row.expirationDate).None?
    ensures r.Err? ==> r.error == ValueError
    ensures r.Ok? ==> fresh(r.value) && FromRow(r.value, row, underlyingMark)
  {
    var expirationDate := ExpirationOf(row.expirationDate);
    if expirationDate.None? {
      return Err(ValueError);
    }
    var o := new Option(SymbolOf(row.symbol), row.description, row.putCall, row.strikePrice,
                        expirationDate.value, row.bid, row.ask, row.mark, None, row.volatility,
                        row.delta, row.gamma, row.theta, row.vega, row.rho, row.openInterest,
                        row.totalVolume, None, None, None, underlyingMark, None, None);
    r := Ok(o);
  }

  /** `chain[k]` is the Option built from `kept[k]`, for every `k`. */
  predicate Loaded(chain: seq<Option>, kept: seq<Row>, underlyingMark: real)
    reads chain
  {
    |chain| == |kept| &&
    (chain == [] ||
     (Loaded(chain[..|chain| - 1], kept[..|kept| - 1], underlyingMark) &&
      FromRow(chain[|chain| - 1], kept[|kept| - 1], underlyingMark)))
  }

  /** Appending the option built from one more kept row keeps the correspondence. */
  lemma LoadedAppend(chain: seq<Option>, kept: seq<Row>, o: Option, row: Row, underlyingMark: real)
    requires Loaded(chain, kept, underlyingMark) && FromRow(o, row, underlyingMark)
    ensures Loaded(chain + [o], kept + [row], underlyingMark)
  {
    assert (chain + [o])[..|chain|] == chain;
    assert (kept + [row])[..|kept|] == kept;
  }

  lemma {:induction false} LoadedAt(chain: seq<Option>, kept: seq<Row>, underlyingMark: real)
    requires Loaded(chain, kept, underlyingMark)
    ensures |chain| == |kept|
    ensures forall k :: 0 <= k < |chain| ==> FromRow(chain[k], kept[k], underlyingMark)
  {
    if chain != [] {
      var n := |chain| - 1;
      LoadedAt(chain[..n], kept[..n], underlyingMark);
      forall k | 0 <= k < |chain|
        ensures FromRow(chain[k], kept[k], underlyingMark)
      {
        if k < n {
          assert chain[..n][k] == chain[k] && kept[..n][k] == kept[k];
        }
      }
    }
  }

  /** The bookkeeping of one step of the loadOptions loop over `rows[i]`. */
  lemma LoadStep(rows: seq<Row>, i: nat, budget: Maybe<real>)
    requires i < |rows| && AllExpirationsParse(rows[..i]) && ExpirationOf(rows[i].expirationDate).Some?
    ensures AllExpirationsParse(rows[..i + 1])
    ensures Affordable(rows[i], budget) ==>
              AffordableRows(rows[..i + 1], budget) == AffordableRows(rows[..i], budget) + [rows[i]]
    ensures !Affordable(rows[i], budget) ==> AffordableRows(rows[..i + 1], budget) == AffordableRows(rows[..i], budget)
  {
    assert rows[..i + 1] == rows[..i] + [rows[i]];
    AllExpirationsParseAppend(rows[..i], rows[i]);
    AffordableRowsAppend(rows[..i], rows[i], budget);
    assert AffordableRows(rows[..i], budget) + [] == AffordableRows(rows[..i], budget);
  }

  /** No option occurs twice in `chain`. */
  predicate Distinct(chain: seq<Option>)
  {
    chain == [] || (Distinct(chain[..|chain| - 1]) && chain[|chain| - 1] !in chain[..|chain| - 1])
  }

  lemma DistinctAppend(chain: seq<Option>, o: Option)
    requires Distinct(chain) && o !in chain
    ensures Distinct(chain + [o])
  {
    assert (chain + [o])[..|chain|] == chain;
  }

  lemma {:induction false} DistinctAt(chain: seq<Option>)
    requires Distinct(chain)
    ensures forall k, l :: 0 <= k < l < |chain| ==> chain[k] != chain[l]
  {
    if chain != [] {
      var n := |chain| - 1;
      DistinctAt(chain[..n]);
      forall k, l | 0 <= k < l < |chain|
        ensures chain[k] != chain[l]
      {
        assert chain[k] == chain[..n][k] || k == n;
        if l < n {
          assert chain[..n][k] == chain[k] && chain[..n][l] == chain[l];
        } else {
          assert chain[k] in chain[..n];
        }
      }
    }
  }

  /** Every option of `chain` was allocated since the previous state. */
  twostate predicate AllFresh(new chain: seq<Option>)
  {
    chain == [] || (AllFresh(chain[..|chain| - 1]) && fresh(chain[|chain| - 1]))
  }

  twostate lemma {:induction false} AllFreshAt(new chain: seq<Option>)
    requires AllFresh(chain)
    ensures forall k :: 0 <= k < |chain| ==> fresh(chain[k])
  {
    if chain != [] {
      var n := |chain| - 1;
      AllFreshAt(chain[..n]);
      assert forall k :: 0 <= k < n ==> chain[k] == chain[..n][k];
    }
  }

  /**
   * One pass of the loadOptions loop, over `rows[i]`: the Option for that
   * row, appended to `chain` when it is affordable.
   */
  method LoadRow(rows: seq<Row>, i: nat, underlyingMark: real, budget: Maybe<real>, chain: seq<Option>)
    returns (r: Result<seq<Option>>)
    requires i < |rows| && AllExpirationsParse(rows[..i])
    requires Loaded(chain, AffordableRows(rows[..i], budget), underlyingMark) && Distinct(chain)
    ensures r.Err? ==> r.error == ValueError && !AllExpirationsParse(rows)
    ensures r.Ok? ==> AllExpirationsParse(rows[..i + 1])
    ensures r.Ok? ==> Loaded(r.value, AffordableRows(rows[..i + 1], budget), underlyingMark) && Distinct(r.value)
    ensures r.Ok? ==> if Affordable(rows[i], budget)
                      then |r.value| == |chain| + 1 && r.value[..|chain|] == chain && fresh(r.value[|chain|])
                      else r.value == chain
  {
    var row := rows[i];
    var loaded := OptionFromRow(row, underlyingMark);
    if loaded.Err? {
      FailingRowBreaksAll(rows, i);
      return Err(loaded.error);
    }
    var option := loaded.value;
    LoadStep(rows, i, budget);
    if Affordable(row, budget) {
      LoadedAppend(chain, AffordableRows(rows[..i], budget), option, row, underlyingMark);
      DistinctAppend(chain, option);
      assert (chain + [option])[..|chain|] == chain;
      r := Ok(chain + [option]);
    } else {
      r := Ok(chain);
    }
  }

  /**
   * loadOptions: one new Option per feed row, kept when affordable. An
   * expiration that does not parse raises ValueError, affordable or not.
   */
  method LoadOptions(rows: seq<Row>, underlyingMark: real, budget: Maybe<real>) returns (r: Result<seq<Option>>)
    ensures r.Err? <==> !AllExpirationsParse(rows)
    ensures r.Err? ==> r.error == ValueError
    ensures r.Ok? ==> |r.value| == |AffordableRows(rows, budget)|
    ensures r.Ok? ==> forall i :: 0 <= i < |r.value| ==>
              fresh(r.value[i]) && FromRow(r.value[i], AffordableRows(rows, budget)[i], underlyingMark)
    ensures r.Ok? ==> forall i, j :: 0 <= i < j < |r.value| ==> r.value[i] != r.value[j]
  {
    var optionsChain: seq<Option> := [];
    var i := 0;
    while i < |rows|
      invariant 0 <= i <= |rows|
      invariant AllExpirationsParse(rows[..i])
      invariant Loaded(optionsChain, AffordableRows(rows[..i], budget), underlyingMark)
      invariant AllFresh(optionsChain)
      invariant Distinct(optionsChain)
    {
      var loaded := LoadRow(rows, i, underlyingMark, budget, optionsChain);
      if loaded.Err? {
        return loaded;
      }
      optionsChain := loaded.value;
      i := i + 1;
    }
    assert rows[..i] == rows;
    LoadedAt(optionsChain, AffordableRows(rows, budget), underlyingMark);
    DistinctAt(optionsChain);
    AllFreshAt(optionsChain);
    r := Ok(optionsChain);
  }

  /** Whether calculateValues prices an option: it expires on or after the expected date. */
  predicate Alive(o: Option, expectedDate: int)
  {
    o.expirationDate > expectedDate || o.expirationDate == expectedDate
  }

  /** The options calculateValues returns, in chain order. */
  function AliveFrom(chain: seq<Option>, expectedDate: int): seq<Option>
  {
    if chain == [] then []
    else (if Alive(chain[0], expectedDate) then [chain[0]] else []) + AliveFrom(chain[1..], expectedDate)
  }

  lemma {:induction false} AliveFromAppend(chain: seq<Option>, o: Option, expectedDate: int)
    ensures AliveFrom(chain + [o], expectedDate) ==
            AliveFrom(chain, expectedDate) + if Alive(o, expectedDate) then [o] else []
  {
    if chain == [] {
      assert [o][1..] == [];
      AppendEmpty(AliveFrom([o], expectedDate));
    } else {
      AppendTail(chain, o);
      AliveFromAppend(chain[1..], o, expectedDate);
      var head := if Alive(chain[0], expectedDate) then [chain[0]] else [];
      AppendAssoc(head, AliveFrom(chain[1..], expectedDate), if Alive(o, expectedDate) then [o] else []);
    }
  }

  /** The returned options are exactly those expiring on or after the expected date, each as often as in the chain. */
  lemma {:induction false} AliveFromExact(chain: seq<Option>, expectedDate: int, o: Option)
    ensures multiset(AliveFrom(chain, expectedDate))[o] == if o.expirationDate >= expectedDate then multiset(chain)[o] else 0
  {
    if chain != [] {
      AliveFromExact(chain[1..], expectedDate, o);
      assert chain == [chain[0]] + chain[1..];
    }
  }

  /**
   * The pricing of `chain[f]` raised `error`: every alive option before it
   * was priced, and every later option that is not one of those already
   * visited is untouched.
   */
  twostate predicate FirstFailure(chain: seq<Option>, f: int, error: PyError, underlyingPrice: real,
                                  expectedDate: int, riskFree: real -> real, price: Pricer)
    reads chain
  {
    && 0 <= f < |chain|
    && Alive(chain[f], expectedDate)
    && chain[f].PricingError() == Some(error)
    && (forall j :: 0 <= j < f && Alive(chain[j], expectedDate) ==>
          chain[j].PricedAt(underlyingPrice, expectedDate, riskFree, price))
    && (forall j :: f < j < |chain| && chain[j] !in chain[..f + 1] ==> unchanged(chain[j]))
  }

  /** One pass of the calculateValues loop: `option` is priced when it is alive, and left alone otherwise. */
  method PriceStep(option: Option, underlyingPrice: real, expectedDate: int, riskFree: real -> real, price: Pricer)
    returns (outcome: Outcome)
    requires option.Valid()
    modifies option
    ensures option.Valid() && option.expectedVolatility == old(option.expectedVolatility)
    ensures !Alive(option, expectedDate) ==> outcome == Pass && unchanged(option)
    ensures Alive(option, expectedDate) ==> (outcome.Pass? <==> option.PricingError().None?)
    ensures outcome.Fail? ==> option.PricingError() == Some(outcome.error)
    ensures Alive(option, expectedDate) && outcome.Pass? ==>
              option.PricedAt(underlyingPrice, expectedDate, riskFree, price)
  {
    if !Alive(option, expectedDate) {
      return Pass;
    }
    var value := option.GetExpectedValue(underlyingPrice, expectedDate, riskFree, price);
    outcome := if value.Err? then Fail(value.error) else Pass;
  }

  /**
   * The loop of calculateValues: prices every option of `chain` alive on
   * `expectedDate`, in order, and returns those; the first pricing error
   * propagates.
   */
  method PriceAlive(chain: seq<Option>, underlyingPrice: real, expectedDate: int, riskFree: real -> real,
                    price: Pricer) returns (r: Result<seq<Option>>)
    requires forall i :: 0 <= i < |chain| ==> chain[i].Valid()
    modifies chain
    ensures forall i :: 0 <= i < |chain| ==> chain[i].Valid()
    ensures r.Ok? <==> forall i :: 0 <= i < |chain| && Alive(chain[i], expectedDate) ==> chain[i].PricingError().None?
    ensures r.Err? ==> exists f :: FirstFailure(chain, f, r.error, underlyingPrice, expectedDate, riskFree, price)
    ensures r.Ok? ==> r.value == AliveFrom(chain, expectedDate)
    ensures r.Ok? ==> forall i :: 0 <= i < |r.value| ==>
              r.value[i].PricedAt(underlyingPrice, expectedDate, riskFree, price)
    ensures forall i :: 0 <= i < |chain| && !Alive(chain[i], expectedDate) ==> unchanged(chain[i])
    ensures forall i :: 0 <= i < |chain| ==> chain[i].expectedVolatility == old(chain[i].expectedVolatility)
  {
    var profitChain: seq<Option> := [];
    var i := 0;
    while i < |chain|
      invariant 0 <= i <= |chain|
      invariant profitChain == AliveFrom(chain[..i], expectedDate)
      invariant forall j :: 0 <= j < |chain| ==>
                  && (j < i && Alive(chain[j], expectedDate) ==>
                        chain[j].PricedAt(underlyingPrice, expectedDate, riskFree, price))
                  && chain[j].Valid()
                  && chain[j].expectedVolatility == old(chain[j].expectedVolatility)
                  && (!Alive(chain[j], expectedDate) || (i <= j && chain[j] !in chain[..i]) ==> unchanged(chain[j]))
    {
      var option := chain[i];
      assert chain[..i + 1] == chain[..i] + [option];
      AliveFromAppend(chain[..i], option, expectedDate);
      var outcome := PriceStep(option, underlyingPrice, expectedDate, riskFree, price);
      if outcome.Fail? {
        assert FirstFailure(chain, i, outcome.error, underlyingPrice, expectedDate, riskFree, price);
        return Err(outcome.error);
      }
      if Alive(option, expectedDate) {
        profitChain := profitChain + [option];
      }
      i := i + 1;
    }
    assert chain[..i] == chain;
    AliveFromPriced(chain, underlyingPrice, expectedDate, riskFree, price);
    r := Ok(profitChain);
  }

  /**
   * calculateValues: after reading `chain[0]` and `chain[1]` for its
   * progress message, prices every option alive on `expectedDate` and
   * returns those, in order; the first pricing error propagates.
   */
  method CalculateValues(chain: seq<Option>, underlyingPrice: real, expectedDate: int, riskFree: real -> real,
                         price: Pricer) returns (r: Result<seq<Option>>)
    requires forall i :: 0 <= i < |chain| ==> chain[i].Valid()
    modifies chain
    ensures forall i :: 0 <= i < |chain| ==> chain[i].Valid()
    ensures |chain| == 0 ==> r == Err(IndexError)
    ensures |chain| > 0 && chain[0].underlyingMark == 0.0 ==> r == Err(ZeroDivisionError)
    ensures |chain| == 1 && chain[0].underlyingMark != 0.0 ==> r == Err(IndexError)
    ensures |chain| < 2 || chain[0].underlyingMark == 0.0 ==> forall i :: 0 <= i < |chain| ==> unchanged(chain[i])
    ensures |chain| >= 2 && chain[0].underlyingMark != 0.0 ==>
              (r.Ok? <==> forall i :: 0 <= i < |chain| && Alive(chain[i], expectedDate) ==>
                                        chain[i].PricingError().None?)
    ensures |chain| >= 2 && chain[0].underlyingMark != 0.0 && r.Err? ==>
              exists f :: FirstFailure(chain, f, r.error, underlyingPrice, expectedDate, riskFree, price)
    ensures r.Ok? ==> r.value == AliveFrom(chain, expectedDate)
    ensures r.Ok? ==> forall i :: 0 <= i < |r.value| ==>
              r.value[i].PricedAt(underlyingPrice, expectedDate, riskFree, price)
    ensures forall i :: 0 <= i < |chain| && !Alive(chain[i], expectedDate) ==> unchanged(chain[i])
    ensures forall i :: 0 <= i < |chain| ==> chain[i].expectedVolatility == old(chain[i].expectedVolatility)
  {
    if |chain| == 0 {
      return Err(IndexError);
    }
    var cp := CalculateCP(chain[0].underlyingMark, underlyingPrice);
    if cp.Err? {
      return Err(cp.error);
    }
    if |chain| < 2 {
      return Err(IndexError);
    }
    r := PriceAlive(chain, underlyingPrice, expectedDate, riskFree, price);
  }

  /** Once every alive option of the chain is priced, so is every option calculateValues returns. */
  lemma AliveFromPriced(chain: seq<Option>, underlyingPrice: real, expectedDate: int, riskFree: real -> real,
                        price: Pricer)
    requires forall j :: 0 <= j < |chain| && Alive(chain[j], expectedDate) ==>
               chain[j].PricedAt(underlyingPrice, expectedDate, riskFree, price)
    ensures forall k :: 0 <= k < |AliveFrom(chain, expectedDate)| ==>
              AliveFrom(chain, expectedDate)[k].PricedAt(underlyingPrice, expectedDate, riskFree, price)
  {
    forall k | 0 <= k < |AliveFrom(chain, expectedDate)|
      ensures AliveFrom(chain, expectedDate)[k].PricedAt(underlyingPrice, expectedDate, riskFree, price)
    {
      AliveFromMember(chain, expectedDate, k);
    }
  }

  lemma {:induction false} AliveFromMember(chain: seq<Option>, expectedDate: int, k: nat)
    requires k < |AliveFrom(chain, expectedDate)|
    ensures exists j :: 0 <= j < |chain| && chain[j] == AliveFrom(chain, expectedDate)[k] && Alive(chain[j], expectedDate)
  {
    var head := if Alive(chain[0], expectedDate) then [chain[0]] else [];
    if k < |head| {
      assert chain[0] == AliveFrom(chain, expectedDate)[k];
    } else {
      assert AliveFrom(chain, expectedDate)[k] == AliveFrom(chain[1..], expectedDate)[k - |head|];
      AliveFromMember(chain[1..], expectedDate, k - |head|);
      var j :| 0 <= j < |chain[1..]| && chain[1..][j] == AliveFrom(chain[1..], expectedDate)[k - |head|] &&
               Alive(chain[1..][j], expectedDate);
      assert chain[j + 1] == chain[1..][j];
    }
  }

  /**
   * As written, calculateValues prices on getRiskFree's curve, and
   * getExpectedValue divides its value by 100: after a failed scrape the
   * pricing model receives 0.0002, a hundredth of the 2% fallback rate.
   */
  lemma FallbackRateAsWritten(interp: Interpolator, days: int)
    ensures PricingRate(GetRiskFree(None, interp), days) == FALLBACK_RISK_FREE_RATE / 100.0 == 0.0002
    ensures PricingRate(GetRiskFree(None, interp), days) != FALLBACK_RISK_FREE_RATE
  {
    var c := GetRiskFree(None, interp);
    assert c(RateMaturity(days)) == FALLBACK_RISK_FREE_RATE;
  }

  /**
   * With the fallback in percent, a failed scrape prices at the 2% rate, and
   * a successful one at the scraped yields over 100 exactly as before.
   */
  lemma FallbackRateCorrected(scraped: Maybe<seq<real>>, interp: Interpolator, days: int)
    ensures !Scraped(scraped) ==> PricingRate(GetRiskFreeInPercent(scraped, interp), days) == FALLBACK_RISK_FREE_RATE
    ensures Scraped(scraped) ==>
              PricingRate(GetRiskFreeInPercent(scraped, interp), days) == PricingRate(GetRiskFree(scraped, interp), days)
  {
    var c := GetRiskFreeInPercent(scraped, interp);
    if !Scraped(scraped) {
      assert c(RateMaturity(days)) == FALLBACK_RISK_FREE_PERCENT;
    }
  }
}
