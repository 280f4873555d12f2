/**
 The price and amount helpers of the formatter store: `color`, `price` (and
 the `priceInfo` lookup it makes), `specialDenom`, `tokenAmountNumber`,
 `tokenValueNumber` and the guards and clamp of `calculatePercent`.
 The dashboard's chains, coingecko map and prices, and the current chain's
 assets, are read-only inputs gathered in `Env`.
 */
module Amounts {
  import opened JsValues
  import opened AssetRegistry

  /**
   One entry of the dashboard's coingecko map. A missing field is written ""
   or 0: the code only ever reads these fields under `||`, which treats
   undefined, "" and 0 alike.
   */
  datatype CoinInfo = CoinInfo(coinId: string, symbol: string, exponent: nat)

  /** Collaborator state the formatter reads but never writes. */
  datatype Env = Env(
    chains: seq<Chain>,                       // Object.values(dashboard.chains)
    currentAssets: Option<seq<Asset>>,        // blockchain.current?.assets
    coingecko: map<string, CoinInfo>,         // dashboard.coingecko
    prices: map<string, map<string, real>>)   // dashboard.prices: coin id -> currency -> value

  /** A coin as the formatter receives it; "" stands for a missing field. */
  datatype Token = Token(denom: string, amount: string)

  /** `color(change)`: the CSS class for a price change. */
  function Color(change: Option<real>): (r: string)
    ensures r == "text-success" <==> change.Some? && change.value > 0.0
    ensures r == "text-error" <==> change.Some? && change.value < 0.0
    ensures r == "" <==> change.None? || change.value == 0.0
  {
    if change.None? || change.value == 0.0 then ""
    else if change.value > 0.0 then "text-success"
    else if change.value < 0.0 then "text-error"
    else ""
  }

  /** `dashboard.coingecko[denom]?.coinId || ''`. */
  function CoinId(env: Env, denom: string): (id: string)
    ensures denom in env.coingecko ==> id == env.coingecko[denom].coinId
    ensures denom !in env.coingecko ==> id == ""
  {
    if denom in env.coingecko then env.coingecko[denom].coinId else ""
  }

  /** `priceInfo(denom)`: the price table of the denom's coin id, undefined when there is none. */
  function PriceInfo(env: Env, denom: string): (r: Option<map<string, real>>)
    ensures r.Some? <==> CoinId(env, denom) in env.prices
    ensures r.Some? ==> r.value == env.prices[CoinId(env, denom)]
  {
    var id := CoinId(env, denom);
    if id in env.prices then Some(env.prices[id]) else None
  }

  /** `price(denom, currency)`: 0 for a denom shorter than two characters or without a (non-zero) price. */
  function Price(env: Env, denom: string, currency: string): (r: real)
    ensures |denom| < 2 ==> r == 0.0
    ensures r != 0.0 ==> PriceInfo(env, denom).Some? && currency in PriceInfo(env, denom).value
                         && r == PriceInfo(env, denom).value[currency]
    ensures r == 0.0 <==> |denom| < 2 || PriceInfo(env, denom).None?
                          || currency !in PriceInfo(env, denom).value
                          || PriceInfo(env, denom).value[currency] == 0.0
  {
    if |denom| < 2 then 0.0
    else match PriceInfo(env, denom)
      case None => 0.0
      case Some(info) => if currency in info then info[currency] else 0.0
  }

  /**
   `specialDenom(denom)`: a `u` prefix means 6 decimals, an `a` prefix or
   the literal `inj` 18, tested in that order; any other denom takes the
   registry's exponent.
   */
  function SpecialDenom(chains: seq<Chain>, denom: string): (r: nat)
    ensures StartsWith(denom, "u") ==> r == 6
    ensures !StartsWith(denom, "u") && (StartsWith(denom, "a") || denom == "inj") ==> r == 18
    ensures !StartsWith(denom, "u") && !StartsWith(denom, "a") && denom != "inj" ==>
              r == DenomExponent(chains, denom)
  {
    if StartsWith(denom, "u") then 6
    else if StartsWith(denom, "a") then 18
    else if denom == "inj" then 18
    else DenomExponent(chains, denom)
  }

  /** `dashboard.coingecko[denom]?.symbol || denom`. */
  function SymbolOf(env: Env, denom: string): (symbol: string)
    ensures denom in env.coingecko && env.coingecko[denom].symbol != "" ==> symbol == env.coingecko[denom].symbol
    ensures denom !in env.coingecko || env.coingecko[denom].symbol == "" ==> symbol == denom
  {
    if denom in env.coingecko && env.coingecko[denom].symbol != "" then env.coingecko[denom].symbol else denom
  }

  /**
   The exponent `tokenAmountNumber` divides by: the coingecko entry of the
   lower-cased symbol when that exponent is non-zero, else `specialDenom`.
   */
  function AmountExponent(env: Env, denom: string): (e: nat)
    ensures var key := Lower(SymbolOf(env, denom));
            && (key in env.coingecko && env.coingecko[key].exponent != 0 ==> e == env.coingecko[key].exponent)
            && (key !in env.coingecko || env.coingecko[key].exponent == 0 ==> e == SpecialDenom(env.chains, denom))
  {
    var key := Lower(SymbolOf(env, denom));
    if key in env.coingecko && env.coingecko[key].exponent != 0
    then env.coingecko[key].exponent
    else SpecialDenom(env.chains, denom)
  }

  /** `scaled` is `amount` divided by 10^exponent: NaN exactly when `amount` is, and multiplying back recovers it. */
  predicate ScaledFrom(scaled: Num, amount: Num, exponent: nat) {
    (amount.NaN? <==> scaled.NaN?)
    && (amount.Finite? ==> scaled.Finite? && scaled.v * Pow10(exponent) == amount.v)
  }

  /** `amount / 10 ** exponent`, which multiplying back by 10^exponent undoes. */
  function ScaleDown(amount: Num, exponent: nat): (r: Num)
    ensures ScaledFrom(r, amount, exponent)
    ensures amount.Finite? && amount.v >= 0.0 ==> r.v >= 0.0
  {
    DivByRoundTrip(amount, Pow10(exponent));
    DivBy(amount, Pow10(exponent))
  }

  /**
   `tokenAmountNumber(token)`: the amount in whole coins. It is 0 for a
   missing token or denom and never negative.
   */
  function TokenAmountNumber(env: Env, token: Option<Token>): (r: Num)
    ensures r.Finite? || r.NaN?
    ensures r.Finite? ==> r.v >= 0.0
    ensures token.None? || token.value.denom == "" ==> r == Finite(0.0)
    ensures token.Some? && token.value.denom != "" ==>
              ScaledFrom(r, ParseNumber(token.value.amount), AmountExponent(env, token.value.denom))
  {
    if token.None? || token.value.denom == "" then Finite(0.0)
    else ScaleDown(ParseNumber(token.value.amount), AmountExponent(env, token.value.denom))
  }

  /** What `decimal` divides by: itself when truthy, 1 (no change) otherwise. */
  function Divisor(decimal: Option<real>): real {
    if decimal.Some? && decimal.value != 0.0 then decimal.value else 1.0
  }

  /** `amount * price`, then divided by `decimal` when it is truthy. */
  function Worth(amount: Num, price: real, decimal: Option<real>): (r: Num)
    ensures amount.NaN? ==> r.NaN?
    ensures amount.Finite? ==> r == Finite(amount.v * price / Divisor(decimal))
    ensures amount.Finite? && price == 0.0 ==> r == Finite(0.0)
  {
    var value := Times(amount, price);
    if decimal.Some? && decimal.value != 0.0 then DivBy(value, decimal.value)
    else
      assert amount.Finite? ==> value.v / 1.0 == value.v;
      value
  }

  /**
   `tokenValueNumber(token, decimal)`: amount times the USD price, divided
   by a non-zero `decimal`. A token without a price is worth 0.
   */
  function TokenValueNumber(env: Env, token: Option<Token>, decimal: Option<real>): (r: Num)
    ensures token.None? || token.value.denom == "" ==> r == Finite(0.0)
    ensures (token.Some? && Price(env, token.value.denom, "usd") == 0.0
             && TokenAmountNumber(env, token).Finite?) ==> r == Finite(0.0)
    ensures TokenAmountNumber(env, token).NaN? ==> r.NaN?
  {
    if token.None? || token.value.denom == "" then Finite(0.0)
    else
      Worth(TokenAmountNumber(env, token), Price(env, token.value.denom, "usd"), decimal)
  }

  /** A finite amount is worth the amount times its USD price, over the truthy `decimal`. */
  lemma TokenValueIsAmountTimesPrice(env: Env, token: Option<Token>, decimal: Option<real>)
    requires token.Some? && token.value.denom != "" && TokenAmountNumber(env, token).Finite?
    ensures TokenValueNumber(env, token, decimal)
            == Finite(TokenAmountNumber(env, token).v * Price(env, token.value.denom, "usd") / Divisor(decimal))
  {
    TokenValueIsWorth(env, token, decimal);
    WorthOfFinite(TokenAmountNumber(env, token), Price(env, token.value.denom, "usd"), decimal);
  }

  /** A token with a denom is worth its amount at its USD price. */
  lemma TokenValueIsWorth(env: Env, token: Option<Token>, decimal: Option<real>)
    requires token.Some? && token.value.denom != ""
    ensures TokenValueNumber(env, token, decimal)
            == Worth(TokenAmountNumber(env, token), Price(env, token.value.denom, "usd"), decimal)
  {
  }

  /** A finite amount's worth, as `Worth` promises it. */
  lemma WorthOfFinite(amount: Num, price: real, decimal: Option<real>)
    requires amount.Finite?
    ensures Worth(amount, price, decimal) == Finite(amount.v * price / Divisor(decimal))
  {
  }

  /** An argument of `calculatePercent`: a string or a number. */
  datatype Operand = Text(s: string) | Number(n: real)

  /** Whether an optional operand is truthy ("" and 0 are not; "0" is). */
  predicate Truthy(x: Option<Operand>) {
    match x
    case None => false
    case Some(Text(s)) => s != ""
    case Some(Number(n)) => n != 0.0
  }

  function ToNumber(x: Operand): Num {
    match x
    case Text(s) => ParseNumber(s)
    case Number(n) => Finite(n)
  }

  /**
   The value `calculatePercent` hands to the formatter: the ratio when it is
   above 0.0001 (one basis point), 0 otherwise (NaN and negative ratios included).
   */
  function PercentShown(input: Operand, total: Operand): (p: Num)
    ensures p == Finite(0.0) || GreaterThan(p, 0.0001)
    ensures GreaterThan(Quotient(ToNumber(input), ToNumber(total)), 0.0001) ==>
              p == Quotient(ToNumber(input), ToNumber(total))
    ensures !GreaterThan(Quotient(ToNumber(input), ToNumber(total)), 0.0001) ==> p == Finite(0.0)
  {
    var ratio := Quotient(ToNumber(input), ToNumber(total));
    if GreaterThan(ratio, 0.0001) then ratio else Finite(0.0)
  }

  /** `calculatePercent(input, total)`, with `numeral(..).format(..)` as `render`. */
  function CalculatePercent(input: Option<Operand>, total: Option<Operand>,
                            render: (Num, string) -> string): (r: string)
    ensures !Truthy(input) || !Truthy(total) ==> r == "0"
    ensures Truthy(input) && Truthy(total) ==> r == render(PercentShown(input.value, total.value), "0.[00]%")
  {
    if !Truthy(input) || !Truthy(total) then "0"
    else render(PercentShown(input.value, total.value), "0.[00]%")
  }
}
