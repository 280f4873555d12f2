/**
 What `formatToken`, `formatTokens`, `tokenDisplayNumber` and
 `tokenDisplayDenom` compute, as functions of their arguments and of the
 store's IBC metadata cache. The store methods that run these steps (and fire
 metadata fetches on a cache miss) are proved equal to them.
 */
module Formatting {
  import opened JsValues
  import opened AssetRegistry
  import opened Amounts

  /**
   The `mode` argument: 'local' searches the current chain's assets, any
   other value the global registry. `formatToken` defaults to 'local' and
   `tokenDisplayNumber` to 'all' (Global), so the two resolve a token's
   config differently when both are called with their defaults.
   */
  datatype Mode = Local | Global

  /**
   The `withDenom`, `fmt`, `mode` and `decimal` arguments of `formatToken`.
   Their defaults are `true`, '0,0.[0]', Local and none; callers here pass
   every field explicitly.
   */
  datatype FormatOptions = FormatOptions(withDenom: bool, fmt: string, mode: Mode, decimal: Option<real>)

  /** The amount and denom a coin ends up shown with. */
  datatype Shown = Shown(amount: Num, denom: string)

  const IbcPrefix := "ibc/"

  /** Amounts below this collapse to "0 <denom>". */
  const DustThreshold := 0.000001

  /** Amounts below this switch to the high-precision format. */
  const SmallThreshold := 0.01

  const SmallFormat := "0.[000000]"

  /** `token && token.amount && token.denom`. */
  predicate IsComplete(token: Option<Token>) {
    token.Some? && token.value.amount != "" && token.value.denom != ""
  }

  /** `denom.replace('ibc/', '')`. */
  function IbcHash(denom: string): string {
    ReplaceFirst(denom, IbcPrefix, "")
  }

  /** `blockchain.current?.assets?.find(x => x.base === denom || x.base.denom === denom)`. */
  function LocalConfig(current: Option<seq<Asset>>, denom: string): Option<Asset> {
    match current
    case None => None
    case Some(assets) => Find(assets, denom, true)
  }

  /** The config chosen by mode, then replaced by the metadata cache entry for an ibc/ denom. */
  function ConfigFor(env: Env, metadata: map<string, Asset>, denom: string, mode: Mode): Option<Asset> {
    var conf := if mode == Local then LocalConfig(env.currentAssets, denom) else FindAsset(env.chains, denom);
    if StartsWith(denom, IbcPrefix) then
      (if IbcHash(denom) in metadata then Some(metadata[IbcHash(denom)]) else None)
    else conf
  }

  /**
   An ibc/ denom's config comes from the metadata cache alone, under the
   denom without its prefix: neither the mode nor the registries matter.
   */
  lemma IbcConfigFromMetadataOnly(env1: Env, env2: Env, metadata: map<string, Asset>, denom: string,
                                  mode1: Mode, mode2: Mode)
    requires StartsWith(denom, IbcPrefix)
    ensures ConfigFor(env1, metadata, denom, mode1) == ConfigFor(env2, metadata, denom, mode2)
    ensures ConfigFor(env1, metadata, denom, mode1).Some? <==> denom[4..] in metadata
    ensures denom[4..] in metadata ==> ConfigFor(env1, metadata, denom, mode1) == Some(metadata[denom[4..]])
  {
    ReplaceLeadingPrefix(denom, IbcPrefix);
  }

  /** The hash a lookup of `denom` fetches metadata for: an ibc/ denom missing from the cache. */
  function MetadataMiss(metadata: map<string, Asset>, denom: string): (h: Option<string>)
    ensures h.Some? ==> StartsWith(denom, IbcPrefix) && h.value == denom[4..] && h.value !in metadata
    ensures h.None? ==> !StartsWith(denom, IbcPrefix) || denom[4..] in metadata
  {
    if StartsWith(denom, IbcPrefix) then
      ReplaceLeadingPrefix(denom, IbcPrefix);
      if IbcHash(denom) !in metadata then Some(IbcHash(denom)) else None
    else None
  }

  /** The exponent of a config's display unit, 0 without a config. */
  function DisplayExponent(conf: Option<Asset>): nat {
    match conf
    case None => 0
    case Some(a) => DisplayUnit(a.denomUnits).exponent
  }

  /** `amount /= decimal` when `decimal` is truthy. */
  function Divided(amount: Num, decimal: Option<real>): Num {
    if decimal.Some? && decimal.value != 0.0 then DivBy(amount, decimal.value) else amount
  }

  /**
   The scaling step of `formatToken`: only a display unit with a positive
   exponent changes anything, dividing the amount by 10^exponent (which
   multiplying back undoes) and showing the unit's denom upper-cased.
   */
  function Scale(amount: Num, denom: string, conf: Option<Asset>): (s: Shown)
    ensures DisplayExponent(conf) == 0 ==> s == Shown(amount, denom)
    ensures DisplayExponent(conf) > 0 ==> s.denom == Upper(DisplayUnit(conf.value.denomUnits).denom)
    ensures amount.NaN? <==> s.amount.NaN?
    ensures amount.Finite? ==> s.amount.Finite? && s.amount.v * Pow10(DisplayExponent(conf)) == amount.v
  {
    match conf
    case None => Shown(amount, denom)
    case Some(a) =>
      var unit := DisplayUnit(a.denomUnits);
      if unit.exponent > 0 then Shown(ScaleDown(amount, unit.exponent), Upper(unit.denom))
      else Shown(amount, denom)
  }

  /** The amount and denom `formatToken` shows a complete token with. */
  function ShownFor(env: Env, metadata: map<string, Asset>, t: Token, mode: Mode, decimal: Option<real>): Shown {
    Scale(Divided(ParseNumber(t.amount), decimal), t.denom, ConfigFor(env, metadata, t.denom, mode))
  }

  /**
   `formatToken(token, withDenom, fmt, mode, decimal)`, with `numeral(x).format(f)`
   as `render(x, f)`. The sentinel "-" comes out exactly for an incomplete
   token; dust collapses to "0 " and at most ten characters of the denom;
   small amounts switch to the six-decimal format.
   */
  function FormatTokenSpec(env: Env, metadata: map<string, Asset>, token: Option<Token>,
                           opts: FormatOptions, render: (Num, string) -> string): (r: string)
    ensures r == "-" <==> !IsComplete(token)
    ensures IsComplete(token) && LessThan(ShownFor(env, metadata, token.value, opts.mode, opts.decimal).amount, DustThreshold)
            ==> r == "0 " + Take(ShownFor(env, metadata, token.value, opts.mode, opts.decimal).denom, 10)
    ensures IsComplete(token) ==>
              var s := ShownFor(env, metadata, token.value, opts.mode, opts.decimal);
              var suffix := if opts.withDenom then Take(s.denom, 10) else "";
              && (!LessThan(s.amount, DustThreshold) && LessThan(s.amount, SmallThreshold) ==>
                    r == render(s.amount, SmallFormat) + " " + suffix)
              && (!LessThan(s.amount, SmallThreshold) ==> r == render(s.amount, opts.fmt) + " " + suffix)
  {
    if !IsComplete(token) then "-"
    else
      var s := ShownFor(env, metadata, token.value, opts.mode, opts.decimal);
      if LessThan(s.amount, DustThreshold) then "0 " + Take(s.denom, 10)
      else
        var f := if LessThan(s.amount, SmallThreshold) then SmallFormat else opts.fmt;
        var r := render(s.amount, f) + " " + (if opts.withDenom then Take(s.denom, 10) else "");
        assert r[|render(s.amount, f)|] == ' ';
        r
  }

  /** `formatToken` of each token, in order. */
  function FormatAll(env: Env, metadata: map<string, Asset>, tokens: seq<Token>,
                     opts: FormatOptions, render: (Num, string) -> string): (parts: seq<string>)
    ensures |parts| == |tokens|
    ensures forall i :: 0 <= i < |tokens| ==> parts[i] == FormatTokenSpec(env, metadata, Some(tokens[i]), opts, render)
    decreases |tokens|
  {
    if tokens == [] then []
    else
      FormatAll(env, metadata, tokens[..|tokens| - 1], opts, render)
        + [FormatTokenSpec(env, metadata, Some(tokens[|tokens| - 1]), opts, render)]
  }

  /** `formatTokens(tokens, ...)`: the formatted tokens joined by ", ", empty for no tokens. */
  function FormatTokensSpec(env: Env, metadata: map<string, Asset>, tokens: Option<seq<Token>>,
                            opts: FormatOptions, render: (Num, string) -> string): (r: string)
    ensures r == "" <==> tokens.None? || tokens.value == []
    ensures tokens.Some? && |tokens.value| == 1 ==> r == FormatTokenSpec(env, metadata, Some(tokens.value[0]), opts, render)
    ensures tokens.Some? ==>
              r == Join(seq(|tokens.value|, i requires 0 <= i < |tokens.value| =>
                              FormatTokenSpec(env, metadata, Some(tokens.value[i]), opts, render)), ", ")
  {
    match tokens
    case None => ""
    case Some(ts) =>
      var parts := FormatAll(env, metadata, ts, opts, render);
      assert parts == seq(|ts|, i requires 0 <= i < |ts| => FormatTokenSpec(env, metadata, Some(ts[i]), opts, render));
      JoinEmpty(parts, ", ");
      Join(parts, ", ")
  }

  /**
   `tokenDisplayNumber(token, mode)`: the raw amount divided by 10^exponent
   of the display unit when that exponent is positive, 0 for an incomplete
   token. It is the amount `formatToken` shows when no `decimal` is given.
   */
  function TokenDisplayNumberSpec(env: Env, metadata: map<string, Asset>, token: Option<Token>, mode: Mode): (r: Num)
    ensures !IsComplete(token) ==> r == Finite(0.0)
    ensures IsComplete(token) ==> r == ShownFor(env, metadata, token.value, mode, None).amount
  {
    if !IsComplete(token) then Finite(0.0)
    else
      var conf := ConfigFor(env, metadata, token.value.denom, mode);
      var amount := ParseNumber(token.value.amount);
      if conf.Some? && DisplayUnit(conf.value.denomUnits).exponent > 0
      then DivBy(amount, Pow10(DisplayUnit(conf.value.denomUnits).exponent))
      else amount
  }

  /**
   `tokenDisplayDenom(denom)`: the display unit's denom of the denom's asset
   (metadata cache for ibc/, global registry otherwise), the denom itself
   when there is no asset, nothing for an empty denom. Upper-cased, it is
   the denom `formatToken` shows in global mode whenever it scales.
   */
  function TokenDisplayDenomSpec(env: Env, metadata: map<string, Asset>, denom: Option<string>): (r: Option<string>)
    ensures r.None? <==> denom.None? || denom.value == ""
    ensures r.Some? && ConfigFor(env, metadata, denom.value, Global).None? ==> r.value == denom.value
    ensures r.Some? && ConfigFor(env, metadata, denom.value, Global).Some? ==>
              r.value == DisplayUnit(ConfigFor(env, metadata, denom.value, Global).value.denomUnits).denom
    ensures forall t: Token, decimal: Option<real> ::
              r.Some? && t.denom == denom.value && DisplayExponent(ConfigFor(env, metadata, t.denom, Global)) > 0
              ==> ShownFor(env, metadata, t, Global, decimal).denom == Upper(r.value)
  {
    if denom.None? || denom.value == "" then None
    else
      var d := denom.value;
      var asset := if StartsWith(d, IbcPrefix)
                   then (if IbcHash(d) in metadata then Some(metadata[IbcHash(d)]) else None)
                   else FindAsset(env.chains, d);
      match asset
      case None => Some(d)
      case Some(a) => Some(DisplayUnit(a.denomUnits).denom)
  }
}
