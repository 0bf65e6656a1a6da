/**
  What a successful parse returns, and why, stated for every input: which symbols are
  keys, which rate each key holds, which entries are skipped without effect, when the
  call fails, and what is logged.
 */
module CoinGeckoProperties {
  import opened JavaStrings
  import opened TreeMaps
  import opened CoinGecko

  /** Removing the last entry of a prefix: the building block of every induction below. */
  lemma Unfold(entries: seq<Entry>, parse: FiatParser)
    requires entries != []
    ensures Process(entries, parse)
         == Step(Process(entries[..|entries| - 1], parse), entries[|entries| - 1], parse)
  {
  }

  /**
    The keys of a completed parse are exactly the symbols of the fiat entries that parse to
    a strictly positive amount: crypto, commodity and untyped entries, and entries whose
    amount is zero or negative, never make a key, and every qualifying entry does.
   */
  lemma {:induction false} KeysAreContributedSymbols(entries: seq<Entry>, parse: FiatParser)
    requires Process(entries, parse).thrown == None
    ensures forall k :: k in Process(entries, parse).rates
                    <==> exists i :: 0 <= i < |entries| && Contributes(entries[i], parse, k)
    decreases |entries|
  {
    if entries != [] {
      var n := |entries| - 1;
      var prefix := entries[..n];
      var e := entries[n];
      Unfold(entries, parse);
      KeysAreContributedSymbols(prefix, parse);
      forall k ensures k in Process(entries, parse).rates
                   <==> exists i :: 0 <= i < |entries| && Contributes(entries[i], parse, k)
      {
        if k in Process(entries, parse).rates {
          if !Contributes(e, parse, k) {
            var i :| 0 <= i < |prefix| && Contributes(prefix[i], parse, k);
            assert entries[i] == prefix[i];
          }
        }
        if exists i :: 0 <= i < |entries| && Contributes(entries[i], parse, k) {
          var i :| 0 <= i < |entries| && Contributes(entries[i], parse, k);
          if i < n {
            assert prefix[i] == entries[i];
          }
        }
      }
    }
  }

  /**
    Last write wins: when several fiat entries upper-case to the same symbol and parse to
    positive amounts, the symbol holds the rate of the last of them.
   */
  lemma {:induction false} LastWriteWins(entries: seq<Entry>, parse: FiatParser, j: nat, k: string)
    requires Process(entries, parse).thrown == None
    requires j < |entries| && Contributes(entries[j], parse, k)
    requires forall i :: j < i < |entries| ==> !Contributes(entries[i], parse, k)
    ensures k in Process(entries, parse).rates
    ensures Process(entries, parse).rates[k] == RateOf(k, parse(k, entries[j].1.value).amount)
    decreases |entries|
  {
    var n := |entries| - 1;
    Unfold(entries, parse);
    if j < n {
      var prefix := entries[..n];
      assert prefix[j] == entries[j];
      LastWriteWins(prefix, parse, j, k);
    }
  }

  /** The two-entry form: of two entries filed under the same symbol, the later one's rate is kept. */
  lemma {:induction false} LaterDuplicateOverwrites(entries: seq<Entry>, parse: FiatParser, i: nat, j: nat, k: string)
    requires Process(entries, parse).thrown == None
    requires i < j < |entries|
    requires Contributes(entries[i], parse, k) && Contributes(entries[j], parse, k)
    requires forall l :: j < l < |entries| ==> !Contributes(entries[l], parse, k)
    requires parse(k, entries[i].1.value).amount != parse(k, entries[j].1.value).amount
    ensures k in Process(entries, parse).rates
    ensures Process(entries, parse).rates[k] != RateOf(k, parse(k, entries[i].1.value).amount)
  {
    LastWriteWins(entries, parse, j, k);
  }

  /** Step's effect on the map and on the outcome does not depend on what was logged before. */
  lemma StepIgnoresLog(r1: Run, r2: Run, e: Entry, parse: FiatParser)
    requires r1.rates == r2.rates && r1.thrown == r2.thrown
    ensures Step(r1, e, parse).rates == Step(r2, e, parse).rates
    ensures Step(r1, e, parse).thrown == Step(r2, e, parse).thrown
  {
  }

  /**
    An entry that contributes no rate and throws nothing (not fiat, a non-positive amount,
    or a caught ArithmeticException) leaves the map and the outcome as if it were absent:
    the entries after it are processed exactly as they would have been.
   */
  lemma {:induction false} SkippedEntryChangesNothing(pre: seq<Entry>, e: Entry, post: seq<Entry>, parse: FiatParser)
    requires !Throws(e, parse) && !Contributes(e, parse, Symbol(e))
    ensures Process(pre + [e] + post, parse).rates == Process(pre + post, parse).rates
    ensures Process(pre + [e] + post, parse).thrown == Process(pre + post, parse).thrown
    decreases |post|
  {
    if post == [] {
      assert pre + [e] + post == pre + [e];
      assert pre + post == pre;
      Unfold(pre + [e], parse);
      assert (pre + [e])[..|pre|] == pre;
    } else {
      var n := |post| - 1;
      var with := pre + [e] + post;
      var without := pre + post;
      SkippedEntryChangesNothing(pre, e, post[..n], parse);
      assert with[..|with| - 1] == pre + [e] + post[..n];
      assert without[..|without| - 1] == pre + post[..n];
      assert with[|with| - 1] == without[|without| - 1] == post[n];
      Unfold(with, parse);
      Unfold(without, parse);
      StepIgnoresLog(Process(pre + [e] + post[..n], parse), Process(pre + post[..n], parse), post[n], parse);
    }
  }

  /** An entry whose type is not fiat is ignored completely: not even a warning is logged. */
  lemma {:induction false} NonFiatEntryIgnored(pre: seq<Entry>, e: Entry, post: seq<Entry>, parse: FiatParser)
    requires e.1.kind != Some(Fiat)
    ensures Process(pre + [e] + post, parse) == Process(pre + post, parse)
    decreases |post|
  {
    if post == [] {
      assert pre + [e] + post == pre + [e];
      assert pre + post == pre;
      Unfold(pre + [e], parse);
      assert (pre + [e])[..|pre|] == pre;
    } else {
      var n := |post| - 1;
      var with := pre + [e] + post;
      var without := pre + post;
      NonFiatEntryIgnored(pre, e, post[..n], parse);
      assert with[..|with| - 1] == pre + [e] + post[..n];
      assert without[..|without| - 1] == pre + post[..n];
      assert with[|with| - 1] == without[|without| - 1] == post[n];
      Unfold(with, parse);
      Unfold(without, parse);
    }
  }

  /**
    A caught ArithmeticException: the map is unchanged, the call goes on, and exactly one
    warning naming the symbol, the endpoint and the exception's message is logged.
   */
  lemma {:induction false} ArithmeticErrorOnlyWarns(pre: seq<Entry>, e: Entry, parse: FiatParser)
    requires Process(pre, parse).thrown == None
    requires e.1.kind == Some(Fiat) && parse(Symbol(e), e.1.value).ArithmeticError?
    ensures Process(pre + [e], parse).rates == Process(pre, parse).rates
    ensures Process(pre + [e], parse).thrown == None
    ensures Process(pre + [e], parse).log
         == Process(pre, parse).log + [Warning(Symbol(e), Url(), parse(Symbol(e), e.1.value).message)]
  {
    Unfold(pre + [e], parse);
    assert (pre + [e])[..|pre|] == pre;
  }

  /** Later entries only append to the log: the warnings of a prefix stay, in order, at its head. */
  lemma {:induction false} LogOnlyGrows(entries: seq<Entry>, n: nat, parse: FiatParser)
    requires n <= |entries|
    ensures Process(entries[..n], parse).log <= Process(entries, parse).log
    decreases |entries| - n
  {
    if n < |entries| {
      var m := |entries| - 1;
      assert entries[..m][..n] == entries[..n];
      LogOnlyGrows(entries[..m], n, parse);
      Unfold(entries, parse);
    } else {
      assert entries[..n] == entries;
    }
  }

  /**
    A fiat entry whose parse throws an ArithmeticException, and that the call reaches,
    has its warning, naming the endpoint, in the final log.
   */
  lemma {:induction false} ArithmeticErrorIsLogged(entries: seq<Entry>, parse: FiatParser, j: nat)
    requires j < |entries| && FailsArithmetically(entries[j], parse)
    requires forall i :: 0 <= i < j ==> !Throws(entries[i], parse)
    ensures WarningFor(entries[j], parse).url == Url()
    ensures WarningFor(entries[j], parse) in Process(entries, parse).log
  {
    var w := WarningFor(entries[j], parse);
    var reached, whole := Process(entries[..j + 1], parse).log, Process(entries, parse).log;
    assert w in reached by {
      assert Process(entries[..j], parse).thrown == None by {
        assert forall i :: 0 <= i < j ==> entries[..j][i] == entries[i];
        FailsIffSomeEntryThrows(entries[..j], parse);
      }
      assert entries[..j] + [entries[j]] == entries[..j + 1];
      ArithmeticErrorOnlyWarns(entries[..j], entries[j], parse);
    }
    assert reached <= whole by {
      LogOnlyGrows(entries, j + 1, parse);
    }
    InPrefixInWhole(reached, whole, w);
  }

  lemma InPrefixInWhole<T>(s: seq<T>, t: seq<T>, x: T)
    requires s <= t && x in s
    ensures x in t
  {
    var i :| 0 <= i < |s| && s[i] == x;
    assert t[i] == x;
  }

  /** Every logged warning names the endpoint and a fiat entry whose parse threw an ArithmeticException. */
  lemma {:induction false} WarningsComeFromArithmeticErrors(entries: seq<Entry>, parse: FiatParser)
    ensures forall w :: w in Process(entries, parse).log ==>
      && w.url == Url()
      && exists i :: 0 <= i < |entries| && entries[i].1.kind == Some(Fiat) && Symbol(entries[i]) == w.symbol
                  && parse(w.symbol, entries[i].1.value) == ArithmeticError(w.message)
    decreases |entries|
  {
    if entries != [] {
      var n := |entries| - 1;
      var prefix := entries[..n];
      Unfold(entries, parse);
      WarningsComeFromArithmeticErrors(prefix, parse);
      forall w | w in Process(entries, parse).log
        ensures exists i :: 0 <= i < |entries| && entries[i].1.kind == Some(Fiat) && Symbol(entries[i]) == w.symbol
                         && parse(w.symbol, entries[i].1.value) == ArithmeticError(w.message)
      {
        if w in Process(prefix, parse).log {
          var i :| 0 <= i < |prefix| && prefix[i].1.kind == Some(Fiat) && Symbol(prefix[i]) == w.symbol
                   && parse(w.symbol, prefix[i].1.value) == ArithmeticError(w.message);
          assert entries[i] == prefix[i];
        } else {
          assert entries[n].1.kind == Some(Fiat) && Symbol(entries[n]) == w.symbol;
        }
      }
    }
  }

  /** The call fails exactly when some fiat entry's parse throws an exception other than an ArithmeticException. */
  lemma {:induction false} FailsIffSomeEntryThrows(entries: seq<Entry>, parse: FiatParser)
    ensures Process(entries, parse).thrown.Some?
        <==> exists i :: 0 <= i < |entries| && Throws(entries[i], parse)
    decreases |entries|
  {
    if entries != [] {
      var n := |entries| - 1;
      var prefix := entries[..n];
      Unfold(entries, parse);
      FailsIffSomeEntryThrows(prefix, parse);
      if exists i :: 0 <= i < |entries| && Throws(entries[i], parse) {
        var i :| 0 <= i < |entries| && Throws(entries[i], parse);
        if i < n {
          assert prefix[i] == entries[i];
        }
      }
      if exists i :: 0 <= i < |prefix| && Throws(prefix[i], parse) {
        var i :| 0 <= i < |prefix| && Throws(prefix[i], parse);
        assert entries[i] == prefix[i];
      }
    }
  }

  /** The exception that escapes is the one of the first throwing entry; later entries are never reached. */
  lemma {:induction false} FirstThrowEndsCall(entries: seq<Entry>, parse: FiatParser, j: nat)
    requires j < |entries| && Throws(entries[j], parse)
    requires forall i :: 0 <= i < j ==> !Throws(entries[i], parse)
    ensures Process(entries, parse).thrown == Some(ThrownBy(entries[j], parse))
  {
    var prefix := entries[..j];
    FailsIffSomeEntryThrows(prefix, parse);
    assert Process(prefix, parse).thrown == None;
    Unfold(entries[..j + 1], parse);
    assert entries[..j + 1][..j] == prefix;
    ThrownIsFinal(entries, j + 1, parse);
  }

  /**
    Whatever order the entries come in, a completed parse hands back its keys in one and
    the same order: ascending by compareTo.
   */
  lemma {:induction false} IterationOrderIgnoresInputOrder(a: TreeMap<ExchangeRate>, b: TreeMap<ExchangeRate>)
    requires a.Valid() && b.Valid()
    requires a.entries.Keys == b.entries.Keys
    ensures a.keys == b.keys
  {
    assert forall x :: x in a.keys <==> x in b.keys by {
      forall x ensures x in a.keys <==> x in b.keys {
        assert x in a.keys <==> x in a.entries;
        assert x in b.keys <==> x in b.entries;
      }
    }
    AscendingListingIsUnique(a.keys, b.keys);
  }

  /**
    Reordering the entries does not change whether the call completes, nor, when it does,
    which symbols are keys; with IterationOrderIgnoresInputOrder the key listing is then
    the same too.
   */
  lemma {:induction false} ReorderedInputSameKeys(a: seq<Entry>, b: seq<Entry>, parse: FiatParser)
    requires multiset(a) == multiset(b)
    requires Process(a, parse).thrown == None
    ensures Process(b, parse).thrown == None
    ensures Process(a, parse).rates.Keys == Process(b, parse).rates.Keys
  {
    FailsIffSomeEntryThrows(a, parse);
    forall j | 0 <= j < |b| ensures !Throws(b[j], parse) {
      assert b[j] in multiset(a);
      var i :| 0 <= i < |a| && a[i] == b[j];
    }
    FailsIffSomeEntryThrows(b, parse);
    KeysAreContributedSymbols(a, parse);
    KeysAreContributedSymbols(b, parse);
    forall k ensures k in Process(a, parse).rates <==> k in Process(b, parse).rates {
      if k in Process(a, parse).rates {
        var i :| 0 <= i < |a| && Contributes(a[i], parse, k);
        assert a[i] in multiset(b);
        var j :| 0 <= j < |b| && b[j] == a[i];
      }
      if k in Process(b, parse).rates {
        var j :| 0 <= j < |b| && Contributes(b[j], parse, k);
        assert b[j] in multiset(a);
        var i :| 0 <= i < |a| && a[i] == b[j];
      }
    }
  }

  /**
    The response of three entries usd (fiat), btc (crypto) and eur (fiat), with both fiat
    values parsing to positive amounts, yields EUR and USD, listed in that order, and no BTC.
   */
  lemma {:induction false} ThreeEntryResponse(parse: FiatParser, usd: int64, eur: int64, keys: seq<string>)
    requires parse("USD", "1.0") == Parsed(usd) && usd > 0
    requires parse("EUR", "0.92") == Parsed(eur) && eur > 0
    requires StrictlyAscending(keys) && forall x :: x in keys <==> x in {"EUR", "USD"}
    ensures Process([("usd", ExchangeRateJson("US Dollar", "$", "1.0", Some(Fiat))),
                     ("btc", ExchangeRateJson("Bitcoin", "BTC", "0.000041", Some(Crypto))),
                     ("eur", ExchangeRateJson("Euro", "€", "0.92", Some(Fiat)))], parse)
         == Run(map["USD" := RateOf("USD", usd), "EUR" := RateOf("EUR", eur)], [], None)
    ensures keys == ["EUR", "USD"]
  {
    var e0 := ("usd", ExchangeRateJson("US Dollar", "$", "1.0", Some(Fiat)));
    var e1 := ("btc", ExchangeRateJson("Bitcoin", "BTC", "0.000041", Some(Crypto)));
    var e2 := ("eur", ExchangeRateJson("Euro", "€", "0.92", Some(Fiat)));
    var entries := [e0, e1, e2];
    assert Symbol(e0) == "USD";
    assert Symbol(e2) == "EUR";
    assert entries[..2][..1] == [e0] && [e0][..0] == [];
    assert entries[..2] == [e0, e1];
    assert Process([e0], parse) == Run(map["USD" := RateOf("USD", usd)], [], None);
    assert Process([e0, e1], parse) == Run(map["USD" := RateOf("USD", usd)], [], None);
    assert Process(entries, parse) == Run(map["USD" := RateOf("USD", usd)]["EUR" := RateOf("EUR", eur)], [], None);
    var sorted := ["EUR", "USD"];
    assert Less("EUR", "USD");
    assert StrictlyAscending(sorted);
    AscendingListingIsUnique(keys, sorted);
  }
}
