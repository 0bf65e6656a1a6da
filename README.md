# CoinGecko exchange-rate parsing, modelled in Dafny

The wallet fetches fiat exchange rates for bitcoin from CoinGecko's
`exchange_rates` endpoint. The class `CoinGecko` holds the endpoint URL and
the source label "CoinGecko.com". Its `parse` turns the decoded response into a
`TreeMap` from currency symbol to exchange rate. For every `(key, entry)` of the
response's `rates` object, `parse` does four things:

- it upper-cases the key into a symbol;
- it keeps only entries of type `fiat`;
- it parses the value with bitcoinj's `Fiat.parseFiatInexact`;
- it stores the rate under the symbol when the amount is strictly positive.

A later entry with the same symbol overwrites an earlier one. An
`ArithmeticException` from the parse is logged and the entry is skipped. Any
other exception ends the call.

The model has four modules:

- `JavaStrings` (`java_strings.dfy`): `String.toUpperCase(Locale.US)` on ASCII, and the `compareTo` order with lemmas that it is a strict total order.
- `TreeMaps` (`tree_maps.dfy`): the `TreeMap` the parser fills. It is a class with the keys in iteration order and the key-to-value map. `Put` places a new key at its sorted position (`InsertSorted`). A lemma shows that an ascending listing is fixed by its key set.
- `CoinGecko` (`coingecko.dfy`): the response and result types and the constants `URL` and `SOURCE`. `Process` is the pure left fold that specifies the loop. `Parse` is the imperative loop, proved against `Process`: it fills a fresh `TreeMap` with `Put` and sends warnings to a `Logger`.
- `CoinGeckoProperties` (`coingecko_properties.dfy`): all-inputs lemmas about `Process`. They cover which keys appear, which rate each key holds, skipped entries, failure, logging, order and an example response.

`Fiat.parseFiatInexact` is a parameter `parse: (symbol, text) -> ParsedValue`.
It has three outcomes: an amount in the currency's smallest unit (a Java
`long`), an `ArithmeticException`, or any other exception. The model does not
interpret this parser.

## Model

| member | source | states |
|---|---|---|
| `CoinGecko.Url` | wallet/src/de/schildbach/wallet/exchangerate/CoinGecko.java:38-51 | `url()` returns an `https` URL whose host is `api.coingecko.com`, followed by its path |
| `JavaStrings.UpperCase` | wallet/src/de/schildbach/wallet/exchangerate/CoinGecko.java:58 | upper-casing a character leaves no lower-case ASCII letter; a lower-case letter maps to the matching letter of the alphabet `A`..`Z`, and every other character is unchanged |
| `JavaStrings.ToUpperCase` | wallet/src/de/schildbach/wallet/exchangerate/CoinGecko.java:58 | the symbol has the key's length and upper-cases it character by character, so it contains no lower-case ASCII letter |
| `JavaStrings.ToUpperCaseIdempotent` | wallet/src/de/schildbach/wallet/exchangerate/CoinGecko.java:58 | upper-casing a symbol again gives the same symbol |
| `JavaStrings.SameSymbolIffEqualIgnoringCase` | wallet/src/de/schildbach/wallet/exchangerate/CoinGecko.java:58 | two keys give the same symbol if and only if they have the same length and agree position by position up to ASCII case (so `Usd` and `USD` collide) |
| `JavaStrings.LessIrreflexive` | wallet/src/de/schildbach/wallet/exchangerate/CoinGecko.java:56 | no key sorts before itself in the `TreeMap` order |
| `JavaStrings.LessTransitive` | wallet/src/de/schildbach/wallet/exchangerate/CoinGecko.java:56 | the `TreeMap` key order is transitive |
| `JavaStrings.LessConnected` | wallet/src/de/schildbach/wallet/exchangerate/CoinGecko.java:56 | any two different keys are ordered one way or the other |
| `JavaStrings.Less` | wallet/src/de/schildbach/wallet/exchangerate/CoinGecko.java:56 | the `TreeMap` key order is `compareTo < 0`: the first key is a proper prefix of the second, or is smaller at the first position where they differ |
| `JavaStrings.LessAsymmetric` | wallet/src/de/schildbach/wallet/exchangerate/CoinGecko.java:56 | two keys are never each below the other |
| `TreeMaps.InsertSorted` | wallet/src/de/schildbach/wallet/exchangerate/CoinGecko.java:64 | after a `put`, the key listing is still strictly ascending and holds exactly the old keys plus the new one, with no duplicate |
| `TreeMaps.AscendingListingIsUnique` | wallet/src/de/schildbach/wallet/exchangerate/CoinGecko.java:56 | two strictly ascending listings of the same keys are equal, so iteration order depends only on the key set |
| `TreeMaps.TreeMap.constructor` | wallet/src/de/schildbach/wallet/exchangerate/CoinGecko.java:56 | the result map starts empty and valid |
| `TreeMaps.TreeMap.Put` | wallet/src/de/schildbach/wallet/exchangerate/CoinGecko.java:64 | `put` maps the key to the new value, replacing any old one, and keeps the keys strictly ascending |
| `CoinGecko.Step` | wallet/src/de/schildbach/wallet/exchangerate/CoinGecko.java:58-67 | one loop iteration: after an escaped exception nothing changes; the log only grows; the map changes only by putting a contributing entry's rate under its symbol, and a contributing entry always leaves its symbol as a key; the outcome changes only to the exception a throwing entry raises |
| `CoinGecko.Process` | wallet/src/de/schildbach/wallet/exchangerate/CoinGecko.java:56-70 | every stored rate is strictly positive, is in the currency of the symbol it is filed under, and carries the source label `CoinGecko.com`; the stored value is built by `RateOf`, as at :64 |
| `CoinGecko.ThrownIsFinal` | wallet/src/de/schildbach/wallet/exchangerate/CoinGecko.java:61-67 | once an uncaught exception has left the loop, the remaining entries change nothing |
| `CoinGecko.Logger.Warn` | wallet/src/de/schildbach/wallet/exchangerate/CoinGecko.java:66 | a warning is appended to the log and nothing else changes |
| `CoinGecko.Parse` | wallet/src/de/schildbach/wallet/exchangerate/CoinGecko.java:53-71 | the loop returns a fresh, strictly ascending `TreeMap` holding exactly the rates of `Process`, or fails exactly when `Process` records an escaped exception (the same one); either way the log receives exactly the warnings of `Process` |
| `CoinGeckoProperties.KeysAreContributedSymbols` | wallet/src/de/schildbach/wallet/exchangerate/CoinGecko.java:58-64 | a completed parse has a key `k` if and only if some entry of type fiat upper-cases to `k` and parses to a strictly positive amount; crypto, commodity and untyped entries never add a key |
| `CoinGeckoProperties.LastWriteWins` | wallet/src/de/schildbach/wallet/exchangerate/CoinGecko.java:56-64 | a symbol holds the rate parsed from the last entry that qualifies for it |
| `CoinGeckoProperties.LaterDuplicateOverwrites` | wallet/src/de/schildbach/wallet/exchangerate/CoinGecko.java:64 | when two qualifying entries share a symbol and parse to different amounts, the earlier one's rate is not kept |
| `CoinGeckoProperties.SkippedEntryChangesNothing` | wallet/src/de/schildbach/wallet/exchangerate/CoinGecko.java:60-67 | an entry that is not fiat, parses to zero or less, or throws an `ArithmeticException` leaves the map and the outcome as if it were absent, and the later entries are still processed |
| `CoinGeckoProperties.NonFiatEntryIgnored` | wallet/src/de/schildbach/wallet/exchangerate/CoinGecko.java:60 | an entry that is not of type fiat has no effect at all, not even a warning |
| `CoinGeckoProperties.ArithmeticErrorOnlyWarns` | wallet/src/de/schildbach/wallet/exchangerate/CoinGecko.java:65-66 | an `ArithmeticException` leaves the map unchanged, does not end the call, and logs one warning with the symbol, the endpoint and the exception's message |
| `CoinGeckoProperties.LogOnlyGrows` | wallet/src/de/schildbach/wallet/exchangerate/CoinGecko.java:57-69 | the warnings logged up to any entry stay, in order, at the head of the final log |
| `CoinGeckoProperties.ArithmeticErrorIsLogged` | wallet/src/de/schildbach/wallet/exchangerate/CoinGecko.java:65-66 | a fiat entry whose parse throws an `ArithmeticException`, with no uncaught exception before it, has its warning, naming the `https` endpoint, in the final log |
| `CoinGeckoProperties.WarningsComeFromArithmeticErrors` | wallet/src/de/schildbach/wallet/exchangerate/CoinGecko.java:65-66 | every logged warning names the endpoint and the symbol of a fiat entry whose parse threw an `ArithmeticException` with that message |
| `CoinGeckoProperties.FailsIffSomeEntryThrows` | wallet/src/de/schildbach/wallet/exchangerate/CoinGecko.java:61-67 | the call fails if and only if the parse of some fiat entry throws something other than an `ArithmeticException` |
| `CoinGeckoProperties.FirstThrowEndsCall` | wallet/src/de/schildbach/wallet/exchangerate/CoinGecko.java:57-67 | the exception that escapes is the one thrown for the first such entry |
| `CoinGeckoProperties.IterationOrderIgnoresInputOrder` | wallet/src/de/schildbach/wallet/exchangerate/CoinGecko.java:56 | two result maps with the same keys list them in the same ascending order, whatever order the entries arrived in |
| `CoinGeckoProperties.ReorderedInputSameKeys` | wallet/src/de/schildbach/wallet/exchangerate/CoinGecko.java:56-64 | reordering the response's entries does not change whether the call completes, nor the set of keys of the result |
| `CoinGeckoProperties.ThreeEntryResponse` | wallet/src/de/schildbach/wallet/exchangerate/CoinGecko.java:53-71 | for the response `usd` (fiat), `btc` (crypto), `eur` (fiat) with positive amounts, the result is `EUR` then `USD` with those rates and no `BTC` |

## Left out

- Moshi decoding (CoinGecko.java:54-55): the model starts from the decoded `rates` entries in enumeration order. These are left out: malformed JSON, a missing `rates` object, an `IOException` from the stream, an unknown `type` string, and `null` entries or fields other than `type`.
- `Fiat.parseFiatInexact` and the bitcoinj `ExchangeRate`: their code is in bitcoinj, not in this repository. The parser is a parameter. The rate is modelled as the parsed amount tagged with the symbol as currency code.
- Non-numeric values are not skipped. One might expect them to be skipped like values that parse to zero or less. The code catches only `ArithmeticException`, so any other exception (for example `NumberFormatException`) leaves `parse`. The model follows the code: such an entry ends the call with a `Failure`.
- `JavaStrings.ToUpperCase`: upper-cases ASCII letters only. `Locale.US` upper-casing of other letters is not modelled, and some of them change a string's length (`ß` becomes `SS`).
- `JavaStrings.Less`: compares Dafny characters (Unicode scalar values), while Java compares UTF-16 code units. The two orders differ only for characters outside the Basic Multilingual Plane.
- The `TreeMap` red-black tree: the model keeps the ascending key list and the map, and not the tree.
- slf4j (CoinGecko.java:41, 66): modelled as a `Logger` object passed to `Parse`. The message formatting is not modelled, only its three arguments.
- `HttpUrl.parse` (CoinGecko.java:38): the URL is kept as its string.
- The `Moshi` field and the constructor (CoinGecko.java:43-47): they only hold the decoder.
