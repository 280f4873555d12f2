# Formatter store of the bitcoin-bridge explorer, in Dafny

This project models the core of `useFormatter`, the Pinia store that turns
raw chain coins into display text. It covers these parts:

- **Asset lookups.** The global asset registry is searched chain by chain
  (`findGlobalAssetConfig`). The display unit of an asset comes from the
  `denom_units` scan, where the last unit of largest exponent wins.
  `exponentForDenom` and `specialDenom` give exponents.
- **Amounts.** `tokenAmountNumber` and `tokenValueNumber` compute amounts,
  `price` and `priceInfo` look up prices, and `color` picks the CSS class.
  The guards and the one-basis-point clamp of `calculatePercent` are
  modelled.
- **Formatting.** `formatToken`, `formatTokens`, `tokenDisplayNumber` and
  `tokenDisplayDenom` choose a config by mode. An `ibc/` denom takes its
  config from the IBC metadata cache instead. A display unit with a positive
  exponent scales the amount. The dust and small-amount thresholds then
  pick the text.
- **Store state.** The `Formatter` class has the three fields
  `ibcDenoms`, `ibcMetadata` and `loading`. `fetchDenomTrace` is modelled.
  `fetchDenomMetadata` is split at its `await` into `BeginMetadataFetch`,
  the `includes` test and the `push`, and `CompleteMetadataFetch`, the
  cache write. The formatting methods fire a metadata fetch on a cache miss.
- **Text helpers.** `messages` summarises a transaction's messages as
  `Send×2, Delegate`. `multiLine` turns the escapes `\n` and `\r` into line
  breaks.

## How the model is built

- **Files.** There is one module per file:
  - `js_values.dfy`: JavaScript string and number behaviour.
  - `registry.dfy`: asset lookups.
  - `amounts.dfy`: prices and amounts.
  - `formatting.dfy`: what the formatting actions compute.
  - `messages.dfy`: `messages` and `multiLine`.
  - `store.dfy`: the store's state and its actions.
- **Loops.** Where the source runs a loop (the chain loop, the `forEach`
  scans, the `reduce` and the output loop of `messages`), the model has a
  method with that loop. Each such method is proved equal to a function, and
  the properties are proved as lemmas about that function.
- **Read-only inputs.** The dashboard's chains, coingecko map and prices,
  and the current chain's assets, are gathered in `Env`. The formatter only
  reads them.
- **Numbers.** A JavaScript number is `Num`: a finite `real`, ±Infinity or
  NaN. Arithmetic is exact.
- **`Number(amount)`.** It is modelled for the amount strings of coins.
  `""` is 0. Digits with at most one `.` give their decimal value. Anything
  else is NaN.
- **Rendering.** `numeral(x).format(f)` is a function parameter
  `render(x, f)`. The model proves which value and which format string reach
  it.
- **Fetches.** The network is not modelled. A fetch's answer is a parameter,
  and a fetch that fails never completes.
- **`loading` is never cleared.** `loading` reads like an in-flight guard,
  one that would drop a hash once its fetch settles so that a failed fetch
  could be retried. The code never removes a hash from `loading`
  (`src/stores/useFormatter.ts:84-91`), and the model follows the code.
  - A hash, once started, is never fetched again:
    `BeginMetadataFetch` returns `false` for it.
  - `loading` only grows (`LoadingAfterGrows`).

## Model

| member | source | states |
|---|---|---|
| JsValues.ReplaceLeadingPrefix | src/stores/useFormatter.ts:75 | On a denom that starts with `ibc/`, `replace('ibc/', '')` removes exactly that prefix: the hash is the rest of the denom. |
| JsValues.LastIndexOf | src/stores/useFormatter.ts:438 | `lastIndexOf('.')` is -1 or a position holding '.', with no '.' after it. |
| JsValues.Take | src/stores/useFormatter.ts:309 | `substring(0, 10)` is a prefix of the denom of length exactly min(length, 10): the whole denom when it is no longer than 10, its first 10 characters otherwise. |
| JsValues.JoinEmpty | src/stores/useFormatter.ts:328-330 | Joining non-empty pieces with `', '` gives "" exactly when there are no pieces. |
| JsValues.ParseNumber | src/stores/useFormatter.ts:271 | `Number(token.amount)` is a non-negative finite number or NaN. A string of digits gives its decimal value. |
| JsValues.ParseDecimal | src/stores/useFormatter.ts:271 | `Number("w.f")` for digit strings w and f, not both empty, is w + f / 10^len(f). |
| JsValues.ParseNumberFiniteIff | src/stores/useFormatter.ts:271 | `Number(amount)` is finite exactly for "", a digit string, or digits with one `.` (not the lone "."). Every other string gives NaN. |
| JsValues.NatToString | src/stores/useFormatter.ts:452 | `String(n)` is a non-empty digit string with no leading zero: it starts with '0' exactly when n is 0, and is then "0". |
| JsValues.ReplaceFirstWithoutMatch | src/stores/useFormatter.ts:439 | `replace` leaves a string unchanged when the pattern's first character does not occur in it. |
| JsValues.NatToStringRoundTrip | src/stores/useFormatter.ts:452 | The count written into `k×n` reads back as that count. |
| JsValues.DivByRoundTrip | src/stores/useFormatter.ts:151 | Dividing by a positive scale and multiplying back recovers a finite amount. NaN stays NaN, and a non-negative amount stays non-negative. |
| AssetRegistry.Find | src/stores/useFormatter.ts:176 | `assets.find` returns the first asset whose base matches the denom, and nothing exactly when none matches. |
| AssetRegistry.FindAssetNoneIff | src/stores/useFormatter.ts:172-182 | The global lookup returns nothing exactly when no asset of any chain has that base. |
| AssetRegistry.FindAssetIsFirst | src/stores/useFormatter.ts:172-182 | The global lookup returns the first match of the first chain that has one. |
| AssetRegistry.FindGlobalAssetConfig | src/stores/useFormatter.ts:172-182 | The indexed loop with early return computes that first match. |
| AssetRegistry.DisplayUnitIsLastMaximum | src/stores/useFormatter.ts:212-218 | The display-unit scan ends on a unit of maximum exponent, the last such unit on ties. An empty unit list gives `{exponent: 0, denom: ''}`. |
| AssetRegistry.ScanDisplayUnit | src/stores/useFormatter.ts:296-302 | The `forEach` scan that updates a running unit computes that display unit. |
| AssetRegistry.MaxExponentIsDisplayExponent | src/stores/useFormatter.ts:183-196 | `exponentForDenom`'s running maximum equals the exponent of the display unit. |
| AssetRegistry.DenomExponentBounds | src/stores/useFormatter.ts:183-196 | The exponent of a registered denom is at least every exponent of its units and equals one of them. It is 0 for an unregistered denom or an empty unit list. |
| AssetRegistry.ExponentForDenom | src/stores/useFormatter.ts:183-196 | The lookup followed by the `forEach` loop computes that exponent. |
| Amounts.CoinId | src/stores/useFormatter.ts:93 | The coin id is the denom's coingecko `coinId`, or '' for a denom coingecko does not list. |
| Amounts.PriceInfo | src/stores/useFormatter.ts:92-96 | A price table comes back exactly when the prices hold an entry under the denom's coin id, and it is that entry. |
| Amounts.Color | src/stores/useFormatter.ts:97-107 | The class is `text-success` exactly for a positive change and `text-error` exactly for a negative one. It is "" exactly for no change or 0. |
| Amounts.Price | src/stores/useFormatter.ts:112-116 | A denom shorter than two characters has price 0. The price is 0 exactly when the denom is that short, or has no price table, or no (non-zero) entry for the currency. A non-zero price is the currency's entry in `priceInfo(denom)`. |
| Amounts.SpecialDenom | src/stores/useFormatter.ts:132-142 | A `u` prefix gives 6, and takes priority. Otherwise an `a` prefix or `inj` gives 18. Otherwise the result is exactly `exponentForDenom(denom)`. |
| Amounts.SymbolOf | src/stores/useFormatter.ts:147 | The symbol is the denom's non-empty coingecko symbol, and the denom itself otherwise. |
| Amounts.AmountExponent | src/stores/useFormatter.ts:147-149 | The exponent is the non-zero coingecko exponent stored under the lower-cased symbol. When that key is missing or its exponent is 0, it is `specialDenom(denom)`. |
| Amounts.ScaleDown | src/stores/useFormatter.ts:151 | Dividing by 10^exponent is undone by multiplying back. NaN comes out exactly for NaN, and the result is never negative for a non-negative amount. |
| Amounts.TokenAmountNumber | src/stores/useFormatter.ts:143-153 | The amount is 0 for a missing token or denom, and otherwise finite non-negative or NaN. It is the raw amount divided by 10^(the chosen exponent): NaN exactly when the raw amount is, and multiplying back recovers it. |
| Amounts.Worth | src/stores/useFormatter.ts:158-160 | A finite amount is worth amount × price, divided by `decimal` when it is non-zero, and 0 at price 0. NaN stays NaN. |
| Amounts.TokenValueNumber | src/stores/useFormatter.ts:154-161 | The value is 0 for a missing token or denom, and 0 for an unpriced finite amount. A NaN amount gives NaN. |
| Amounts.TokenValueIsAmountTimesPrice | src/stores/useFormatter.ts:154-161 | For a token with a denom and a finite amount, the value is `tokenAmountNumber` × the USD price, divided by `decimal` when it is non-zero. |
| Amounts.PercentShown | src/stores/useFormatter.ts:362-363 | The value rendered is 0 or above 0.0001. A ratio above 0.0001 is rendered as it is, and any other ratio (NaN included) as 0. |
| Amounts.CalculatePercent | src/stores/useFormatter.ts:360-364 | A falsy input or total gives "0". Otherwise the text is `PercentShown(input, total)`, the clamped ratio, rendered with `0.[00]%`. |
| Formatting.IbcConfigFromMetadataOnly | src/stores/useFormatter.ts:288-293 | An `ibc/` denom's config does not depend on the mode or the registries. It is the metadata cache entry under the denom without `ibc/`, or nothing. |
| Formatting.MetadataMiss | src/stores/useFormatter.ts:288-293 | A fetch is due exactly for an `ibc/` denom whose hash is missing from the metadata cache, and it is for that hash. |
| Formatting.Scale | src/stores/useFormatter.ts:295-306 | At display exponent 0 the amount and the denom are unchanged. At a positive exponent the denom becomes the upper-cased unit denom, and multiplying the amount back by 10^exponent recovers the input. |
| Formatting.FormatTokenSpec | src/stores/useFormatter.ts:263-319 | The result is `-` exactly for an incomplete token. Below 1e-6 it is `0 ` and the first 10 characters of the denom. Below 0.01 the amount is rendered with `0.[000000]`, and otherwise with `fmt`. A space and the denom (when `withDenom`) follow. |
| Formatting.FormatAll | src/stores/useFormatter.ts:328-329 | Each token is formatted by `formatToken`, in order. |
| Formatting.FormatTokensSpec | src/stores/useFormatter.ts:320-331 | The result is "" exactly for undefined or empty tokens. Otherwise it is the `formatToken` text of each token, in order, joined by `', '`. |
| Formatting.TokenDisplayNumberSpec | src/stores/useFormatter.ts:224-262 | An incomplete token gives 0. Otherwise the result is the amount `formatToken` shows with no `decimal`. |
| Formatting.TokenDisplayDenomSpec | src/stores/useFormatter.ts:197-223 | Nothing comes out exactly for an undefined or empty denom. A denom without a global config comes back unchanged; with one, the result is the denom of that config's display unit. Upper-cased, the result is the denom `formatToken` shows in global mode whenever it scales. |
| MessageSummary.MsgType | src/stores/useFormatter.ts:436 | The type is never empty. `@type` is used when present, otherwise `typeUrl`, and 'unknown' when both are missing. |
| MessageSummary.ShortName | src/stores/useFormatter.ts:437-439 | The short name has no '.' left. A type with no '.' (`lastIndexOf` is -1) is the whole type with its first `Msg` removed. |
| MessageSummary.ShortNameOfUnknown | src/stores/useFormatter.ts:436-439 | A message with neither `@type` nor `typeUrl` is counted as `unknown`. |
| MessageSummary.ShortNameAfterLastDot | src/stores/useFormatter.ts:437-439 | The short name of `p.q`, where q has no '.', is q with its first `Msg` removed. |
| MessageSummary.ShortNameStripsMsg | src/stores/useFormatter.ts:437-439 | A type ending in `.Msg<Name>` with no '.' in Name is shown as Name, e.g. `/cosmos.bank.v1beta1.MsgSend` as `Send`. |
| MessageSummary.Names | src/stores/useFormatter.ts:435-440 | There is one short name per message, in message order, and none holds a '.'. |
| MessageSummary.TallyWellFormed | src/stores/useFormatter.ts:441-449 | Each name is a key exactly once, the keys are the counted names, and every count is at least 1. |
| MessageSummary.TallyCountsOccurrences | src/stores/useFormatter.ts:441-449 | The keys are exactly the names, and each count is the number of times its name occurs. |
| MessageSummary.FirstIndex | src/stores/useFormatter.ts:441-449 | The position returned holds the name, and no earlier position does. |
| MessageSummary.TallyKeysInFirstOccurrenceOrder | src/stores/useFormatter.ts:441-449 | The keys are exactly the names, and each key's first occurrence comes before that of every later key. |
| MessageSummary.TallyTotal | src/stores/useFormatter.ts:441-453 | The counts add up to the number of messages. |
| MessageSummary.EntriesAt | src/stores/useFormatter.ts:450-453 | The i-th output entry renders the i-th key with its count: `k×n` when the count is above 1, `k` otherwise. |
| MessageSummary.DistinctNamesListedInOrder | src/stores/useFormatter.ts:441-453 | Names that occur once each are listed as they are, in order, with no `×`. |
| MessageSummary.SummaryOfDistinct | src/stores/useFormatter.ts:432-455 | For messages with distinct short names, the summary is those names joined by `', '`. |
| MessageSummary.CountNames | src/stores/useFormatter.ts:441-449 | The `reduce` loop computes the tally. |
| MessageSummary.RenderEntries | src/stores/useFormatter.ts:450-453 | The output loop renders `k×n` for n > 1 and `k` otherwise, in key order. |
| MessageSummary.Messages | src/stores/useFormatter.ts:432-456 | Undefined messages give undefined. Otherwise the result is the summary. |
| MessageSummary.MultiLineLeavesNoEscape | src/stores/useFormatter.ts:457-459 | No `\n` or `\r` escape survives the replacement. |
| MessageSummary.MultiLineConcat | src/stores/useFormatter.ts:457-459 | Two pieces are rewritten independently unless the first ends with a backslash and the second starts with `n` or `r`, the only way an escape can cross the cut. |
| MessageSummary.MultiLineSplitsAtEscape | src/stores/useFormatter.ts:457-459 | Every `\n` or `\r` escape becomes a line break, whatever text surrounds it. |
| MessageSummary.MultiLineKeepsEscapeFree | src/stores/useFormatter.ts:457-459 | Text without escapes is unchanged. |
| MessageSummary.MultiLineIdempotent | src/stores/useFormatter.ts:457-459 | Applying `multiLine` twice is the same as once. |
| FormatterStore.Trigger | src/stores/useFormatter.ts:84-86 | A lookup's miss is pushed onto `loading` only when not already there. `loading` keeps its old contents and gains no duplicate. |
| FormatterStore.MissFor | src/stores/useFormatter.ts:288-293 | A fetch fires exactly for a complete `ibc/` token whose hash is missing from the cache, and it is for that hash. |
| FormatterStore.LoadingAfterGrows | src/stores/useFormatter.ts:320-331 | Formatting a list only grows `loading` and never adds a duplicate. It adds exactly the hashes of the list's uncached `ibc/` tokens. |
| FormatterStore.Formatter.constructor | src/stores/useFormatter.ts:52-58 | The store starts with all three caches empty. |
| FormatterStore.Formatter.FetchDenomTrace | src/stores/useFormatter.ts:74-83 | A cached trace is returned with no query. Otherwise the answer is stored under the hash and returned, and no other entry changes. |
| FormatterStore.Formatter.BeginMetadataFetch | src/stores/useFormatter.ts:84-86 | A hash already loading changes nothing. Otherwise `loading` grows by exactly that hash. `loading` keeps no duplicates. |
| FormatterStore.Formatter.CompleteMetadataFetch | src/stores/useFormatter.ts:87-90 | A completed fetch writes its hash's entry and no other. Only a started fetch completes. |
| FormatterStore.Formatter.ResolveConfig | src/stores/useFormatter.ts:280-293 | The config is chosen by mode and overridden from the cache for `ibc/`. A miss pushes the hash onto `loading`. |
| FormatterStore.Formatter.TokenDisplayDenom | src/stores/useFormatter.ts:197-223 | The method computes `TokenDisplayDenomSpec` on the cache as it was, and fires a fetch exactly on a miss. |
| FormatterStore.Formatter.TokenDisplayNumber | src/stores/useFormatter.ts:224-262 | The method computes `TokenDisplayNumberSpec` on the cache as it was, and fires a fetch exactly on a miss. |
| FormatterStore.Formatter.FormatToken | src/stores/useFormatter.ts:263-319 | The method computes `FormatTokenSpec` on the cache as it was, and fires a fetch exactly on a miss. |
| FormatterStore.Formatter.FormatTokens | src/stores/useFormatter.ts:320-331 | The loop computes `FormatTokensSpec` with an undefined mode taken as 'local'. `loading` ends as the misses of the tokens pushed in order. |

## Left out

- Floating point: amounts are exact reals, so rounding in `/ 10 ** exponent`
  and `Math.pow`, and signed zero, are not modelled.
- JsValues.ParseNumber: only decimal amount strings are modelled. Signs,
  exponents, hexadecimal, surrounding whitespace and "Infinity" come out as
  NaN rather than as JavaScript's value.
- JsValues.Upper: `toUpperCase`/`toLowerCase` are modelled on ASCII letters
  only. `substring` counts characters, not UTF-16 code units.
- `numeral(...).format(...)` is a parameter (`render`), so the digits, commas
  and percent sign of the text are not modelled.
- FormatterStore.Formatter.FetchDenomTrace: an RPC answer without a
  `denomTrace` is modelled as a failed query that stores nothing. The source
  stores `undefined`, which the next call treats as a miss just the same.
- FormatterStore.Formatter.CompleteMetadataFetch: a metadata response is an
  `Asset`. A response of another shape, which the source stores unchecked,
  is not modelled.
- The network: the RPC query and the HTTP metadata request are not modelled.
  Their answer, or their failure, is a parameter.
- The interleaving of concurrent completions is not modelled. Any sequence
  of `CompleteMetadataFetch` calls on started hashes is allowed.
- Pinia wiring: the getters for the blockchain, staking, bank and dashboard
  stores are not modelled. Their data is the read-only `Env`.
- MessageSummary.Messages: the output keeps first-occurrence order. JavaScript's
  `Object.keys` lists integer-like keys first, and names such as
  `constructor` hit `Object.prototype`. Neither is modelled.
- Default arguments are not modelled as such: every call passes all of its
  arguments. The defaults are `withDenom = true`, `fmt = '0,0.[0]'` and
  `mode = 'local'` for `formatToken`, and `mode = 'all'` (Global) for
  `tokenDisplayNumber`. Only `formatTokens`'s undefined `mode` is modelled.
- `formatTokenAmount`, `formatToken2`, `tokenValue`, `priceColor`,
  `priceChanges` and `showChanges` are thin wrappers over the modelled
  operations and `numeral`, and are not modelled.
- Dates (`toDay`, `toLocaleDate`), validator lookups, hex and base64
  decoding, the byte decoding of `percent`, and the other `numeral`
  formatters need dayjs, the staking store and encoding libraries. They are
  not modelled.
