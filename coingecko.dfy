/**
  The CoinGecko exchange-rate source of the wallet: its endpoint constants and the
  parser that turns the decoded `exchange_rates` response into a map from currency
  symbol to exchange rate, kept in ascending symbol order.

  The JSON decoding (Moshi) happens before this model starts: the response reaches
  Parse as the sequence of (key, entry) pairs of its `rates` object, in the order the
  decoded map enumerates them. bitcoinj's Fiat.parseFiatInexact is not visible, so it
  is a parameter of the parser (FiatParser) with the three outcomes the caller can see.
 */
module CoinGecko {
  import opened JavaStrings
  import opened TreeMaps

  datatype Option<T> = None | Some(value: T)

  datatype Result<T, E> = Success(value: T) | Failure(error: E)

  /** https://api.coingecko.com/api/v3/exchange_rates, written as scheme, host and path. */
  const URL: string := "https://" + "api.coingecko.com" + "/api/v3/exchange_rates"

  /** The provenance label every parsed rate carries. */
  const SOURCE: string := "CoinGecko.com"

  /**
    url(): the endpoint, the same on every call. HttpUrl.parse accepts it only as an
    http(s) URL with a host; it is an https URL whose host is CoinGecko's API server.
   */
  function Url(): (u: string)
    ensures |u| > 25 && u[..8] == "https://"
    ensures u[8..25] == "api.coingecko.com" && u[25] == '/'
  {
    URL
  }

  /** Java's long, the type of a Fiat amount. */
  newtype int64 = x: int | -0x8000_0000_0000_0000 <= x < 0x8000_0000_0000_0000

  /** The response's `type` enum; a missing `type` field decodes to null, hence Option<Type> below. */
  datatype Type = Crypto | Fiat | Commodity

  /** One value of the `rates` object. `kind` holds the JSON field `type`. */
  datatype ExchangeRateJson = ExchangeRateJson(name: string, unit: string, value: string, kind: Option<Type>)

  /** bitcoinj's Fiat: an amount in the currency's smallest unit, tagged with its currency code. */
  datatype FiatAmount = FiatAmount(currencyCode: string, value: int64)

  /** The wallet's ExchangeRate: the bitcoinj rate built from one Fiat, and its source label. */
  datatype ExchangeRate = ExchangeRate(rate: FiatAmount, source: string)

  /**
    What Fiat.parseFiatInexact(symbol, value) does: return an amount, throw an
    ArithmeticException (caught by the parser), or throw anything else (not caught).
   */
  datatype ParsedValue = Parsed(amount: int64) | ArithmeticError(message: string) | OtherError(message: string)

  type FiatParser = (string, string) -> ParsedValue

  /** The warning slf4j receives for a caught ArithmeticException: the symbol, the endpoint and the exception's message. */
  datatype Warning = Warning(symbol: string, url: string, message: string)

  /** An exception escaping parse: the symbol being parsed and the exception's message. */
  datatype Thrown = Thrown(symbol: string, message: string)

  /**
    The state of one parse call after a prefix of the entries: the map built so far, the
    warnings logged so far, and the exception that ended the call, if one did.
   */
  datatype Run = Run(rates: map<string, ExchangeRate>, log: seq<Warning>, thrown: Option<Thrown>)

  type Entry = (string, ExchangeRateJson)

  /** The symbol an entry is filed under. */
  function Symbol(e: Entry): string {
    ToUpperCase(e.0)
  }

  /** The entry is fiat and parses to a strictly positive amount: it puts a rate under `symbol`. */
  predicate Contributes(e: Entry, parse: FiatParser, symbol: string) {
    && Symbol(e) == symbol
    && e.1.kind == Some(Fiat)
    && parse(symbol, e.1.value).Parsed?
    && parse(symbol, e.1.value).amount > 0
  }

  /** The entry is fiat and its parse throws an exception the parser does not catch. */
  predicate Throws(e: Entry, parse: FiatParser) {
    e.1.kind == Some(Fiat) && parse(Symbol(e), e.1.value).OtherError?
  }

  /** The entry is fiat and its parse throws an ArithmeticException, which the parser catches. */
  predicate FailsArithmetically(e: Entry, parse: FiatParser) {
    e.1.kind == Some(Fiat) && parse(Symbol(e), e.1.value).ArithmeticError?
  }

  /** The warning logged for such an entry. */
  function WarningFor(e: Entry, parse: FiatParser): Warning
    requires FailsArithmetically(e, parse)
  {
    Warning(Symbol(e), URL, parse(Symbol(e), e.1.value).message)
  }

  /** The exception a throwing entry raises. */
  function ThrownBy(e: Entry, parse: FiatParser): Thrown
    requires Throws(e, parse)
  {
    Thrown(Symbol(e), parse(Symbol(e), e.1.value).message)
  }

  /** The rate a contributing entry stores: the parsed amount in the symbol's currency, labelled with the source. */
  function RateOf(symbol: string, amount: int64): ExchangeRate {
    ExchangeRate(FiatAmount(symbol, amount), SOURCE)
  }

  /**
    One iteration of the loop over `rates`. Once an exception has escaped, nothing more
    happens; otherwise the log only grows, the map changes only by putting the rate of a
    contributing entry under its symbol, and the outcome changes only when the entry throws.
   */
  function Step(r: Run, e: Entry, parse: FiatParser): (next: Run)
    ensures r.thrown.Some? ==> next == r
    ensures r.log <= next.log
    ensures next.rates != r.rates ==>
      && Contributes(e, parse, Symbol(e))
      && next.rates == r.rates[Symbol(e) := RateOf(Symbol(e), parse(Symbol(e), e.1.value).amount)]
    ensures Contributes(e, parse, Symbol(e)) && r.thrown == None ==> Symbol(e) in next.rates
    ensures next.thrown != r.thrown ==> Throws(e, parse) && next.thrown == Some(ThrownBy(e, parse))
  {
    if r.thrown.Some? then r
    else
      var symbol := Symbol(e);
      if e.1.kind != Some(Fiat) then r
      else
        match parse(symbol, e.1.value)
        case Parsed(amount) =>
          if amount > 0 then r.(rates := r.rates[symbol := RateOf(symbol, amount)]) else r
        case ArithmeticError(message) =>
          r.(log := r.log + [Warning(symbol, URL, message)])
        case OtherError(message) =>
          r.(thrown := Some(Thrown(symbol, message)))
  }

  /**
    The whole loop, from a fresh empty map: every stored rate is strictly positive, is in
    the currency it is filed under, and carries the CoinGecko source label.
   */
  function Process(entries: seq<Entry>, parse: FiatParser): (r: Run)
    ensures forall k :: k in r.rates ==>
      && r.rates[k].rate.value > 0
      && r.rates[k].rate.currencyCode == k
      && r.rates[k].source == SOURCE
    decreases |entries|
  {
    if entries == [] then Run(map[], [], None)
    else Step(Process(entries[..|entries| - 1], parse), entries[|entries| - 1], parse)
  }

  /** Once an exception has escaped, the later entries change nothing. */
  lemma {:induction false} ThrownIsFinal(entries: seq<Entry>, n: nat, parse: FiatParser)
    requires n <= |entries|
    requires Process(entries[..n], parse).thrown.Some?
    ensures Process(entries, parse) == Process(entries[..n], parse)
    decreases |entries| - n
  {
    if n < |entries| {
      var m := |entries| - 1;
      assert entries[..m][..n] == entries[..n];
      ThrownIsFinal(entries[..m], n, parse);
      assert entries[..|entries|] == entries;
    } else {
      assert entries[..n] == entries;
    }
  }

  /** The slf4j logger: the warnings it has received, in order. */
  class Logger {
    var warnings: seq<Warning>

    constructor ()
      ensures warnings == []
    {
      warnings := [];
    }

    method Warn(w: Warning)
      modifies this
      ensures warnings == old(warnings) + [w]
    {
      warnings := warnings + [w];
    }
  }

  /**
    parse(jsonSource): walks the decoded entries, filling a fresh TreeMap. Returns the map,
    or the exception that escaped; either way the log has received the warnings of the
    entries whose parse threw an ArithmeticException.
   */
  method Parse(rates: seq<Entry>, parse: FiatParser, log: Logger) returns (r: Result<TreeMap<ExchangeRate>, Thrown>)
    modifies log
    ensures log.warnings == old(log.warnings) + Process(rates, parse).log
    ensures r.Failure? <==> Process(rates, parse).thrown.Some?
    ensures r.Failure? ==> Process(rates, parse).thrown == Some(r.error)
    ensures r.Success? ==> fresh(r.value) && r.value.Valid() && r.value.entries == Process(rates, parse).rates
  {
    var result := new TreeMap<ExchangeRate>();
    var i := 0;
    while i < |rates|
      invariant 0 <= i <= |rates|
      invariant fresh(result) && result.Valid()
      invariant Process(rates[..i], parse).thrown == None
      invariant result.entries == Process(rates[..i], parse).rates
      invariant log.warnings == old(log.warnings) + Process(rates[..i], parse).log
    {
      assert rates[..i + 1][..i] == rates[..i];
      var (key, json) := rates[i];
      var symbol := ToUpperCase(key);
      if json.kind == Some(Fiat) {
        match parse(symbol, json.value)
        case Parsed(amount) =>
          if amount > 0 {
            result.Put(symbol, RateOf(symbol, amount));
          }
        case ArithmeticError(message) =>
          log.Warn(Warning(symbol, URL, message));
        case OtherError(message) =>
          ThrownIsFinal(rates, i + 1, parse);
          return Failure(Thrown(symbol, message));
      }
      i := i + 1;
    }
    assert rates[..|rates|] == rates;
    return Success(result);
  }
}
