/**
 The formatter store's state and the actions that touch it: the IBC denom
 trace cache (`fetchDenomTrace`), the IBC metadata cache with its `loading`
 guard (`fetchDenomMetadata`), and the formatting actions that read the
 metadata cache and fire a metadata fetch on a miss (`tokenDisplayDenom`,
 `tokenDisplayNumber`, `formatToken`, `formatTokens`).

 The network is not part of the model: a fetch's answer is a parameter.
 `fetchDenomMetadata` is split at its `await` into `BeginMetadataFetch`
 (the `includes` test and the `push`, which run at once) and
 `CompleteMetadataFetch` (the cache write when the response arrives). A fetch
 that fails never completes; nothing removes its hash from `loading`.
 */
module FormatterStore {
  import opened JsValues
  import opened AssetRegistry
  import opened Amounts
  import opened Formatting

  /** An ICS-20 denom trace: the channel path and the base denom. */
  datatype DenomTrace = DenomTrace(path: string, baseDenom: string)

  /** `loading` after a lookup whose metadata miss (if any) is `miss`: the hash is pushed unless already there. */
  function Trigger(loading: seq<string>, miss: Option<string>): (r: seq<string>)
    ensures NoDuplicates(loading) ==> NoDuplicates(r)
    ensures loading <= r
    ensures forall h :: h in r <==> h in loading || miss == Some(h)
  {
    if miss.Some? && miss.value !in loading then loading + [miss.value] else loading
  }

  /** The hash a formatting call on `token` fetches metadata for: none for an incomplete token. */
  function MissFor(metadata: map<string, Asset>, token: Option<Token>): (h: Option<string>)
    ensures h.Some? ==> IsComplete(token) && h.value !in metadata
    ensures h.Some? ==> StartsWith(token.value.denom, IbcPrefix) && h.value == token.value.denom[4..]
    ensures IsComplete(token) && StartsWith(token.value.denom, IbcPrefix) && token.value.denom[4..] !in metadata
            ==> h == Some(token.value.denom[4..])
  {
    if IsComplete(token) then MetadataMiss(metadata, token.value.denom) else None
  }

  /** `loading` after formatting each of `tokens` in turn against an unchanged metadata cache. */
  function LoadingAfter(loading: seq<string>, metadata: map<string, Asset>, tokens: seq<Token>): seq<string>
    decreases |tokens|
  {
    if tokens == [] then loading
    else Trigger(LoadingAfter(loading, metadata, tokens[..|tokens| - 1]), MissFor(metadata, Some(tokens[|tokens| - 1])))
  }

  /**
   Formatting a list only ever adds hashes to `loading`, never a duplicate,
   and adds exactly the hashes of the list's ibc/ tokens missing from the cache.
   */
  lemma {:induction false} LoadingAfterGrows(loading: seq<string>, metadata: map<string, Asset>, tokens: seq<Token>)
    ensures loading <= LoadingAfter(loading, metadata, tokens)
    ensures NoDuplicates(loading) ==> NoDuplicates(LoadingAfter(loading, metadata, tokens))
    ensures forall h :: h in LoadingAfter(loading, metadata, tokens) <==>
              h in loading || (exists i :: 0 <= i < |tokens| && MissFor(metadata, Some(tokens[i])) == Some(h))
    decreases |tokens|
  {
    if tokens != [] {
      var prefix := tokens[..|tokens| - 1];
      LoadingAfterGrows(loading, metadata, prefix);
      forall h
        ensures h in LoadingAfter(loading, metadata, tokens) <==>
                h in loading || (exists i :: 0 <= i < |tokens| && MissFor(metadata, Some(tokens[i])) == Some(h))
      {
        if exists i :: 0 <= i < |tokens| && MissFor(metadata, Some(tokens[i])) == Some(h) {
          var i :| 0 <= i < |tokens| && MissFor(metadata, Some(tokens[i])) == Some(h);
          if i < |prefix| {
            assert prefix[i] == tokens[i];
          }
        }
        if exists i :: 0 <= i < |prefix| && MissFor(metadata, Some(prefix[i])) == Some(h) {
          var i :| 0 <= i < |prefix| && MissFor(metadata, Some(prefix[i])) == Some(h);
          assert tokens[i] == prefix[i];
        }
      }
    }
  }

  class Formatter {
    /** `ibcDenoms`: denom traces by IBC hash. */
    var ibcDenoms: map<string, DenomTrace>
    /** `ibcMetadata`: registry assets by IBC hash. */
    var ibcMetadata: map<string, Asset>
    /** `loading`: every hash a metadata fetch was ever started for, in start order. */
    var loading: seq<string>

    /** Each hash is fetched at most once, and only a started fetch fills the cache. */
    ghost predicate Valid()
      reads this
    {
      NoDuplicates(loading) && forall h :: h in ibcMetadata ==> h in loading
    }

    /** The store's initial state: all three caches empty. */
    constructor ()
      ensures Valid()
      ensures ibcDenoms == map[] && ibcMetadata == map[] && loading == []
    {
      ibcDenoms := map[];
      ibcMetadata := map[];
      loading := [];
    }

    /**
     `fetchDenomTrace(denom)`: a cached trace is returned without a query;
     otherwise the RPC answer `response` is stored under the hash and
     returned. A failed query (None) changes nothing.
     */
    method FetchDenomTrace(denom: string, response: Option<DenomTrace>) returns (trace: Option<DenomTrace>, queried: bool)
      requires Valid()
      modifies this`ibcDenoms
      ensures Valid()
      ensures queried <==> IbcHash(denom) !in old(ibcDenoms)
      ensures !queried ==> trace == Some(old(ibcDenoms)[IbcHash(denom)]) && ibcDenoms == old(ibcDenoms)
      ensures queried && response.None? ==> trace.None? && ibcDenoms == old(ibcDenoms)
      ensures queried && response.Some? ==> trace == response && ibcDenoms == old(ibcDenoms)[IbcHash(denom) := response.value]
    {
      var hash := IbcHash(denom);
      if hash in ibcDenoms {
        return Some(ibcDenoms[hash]), false;
      }
      queried := true;
      if response.Some? {
        ibcDenoms := ibcDenoms[hash := response.value];
      }
      trace := response;
    }

    /**
     The synchronous half of `fetchDenomMetadata(hash)`: nothing happens when
     the hash is already loading; otherwise it is pushed and a fetch starts.
     */
    method BeginMetadataFetch(hash: string) returns (started: bool)
      requires Valid()
      modifies this`loading
      ensures Valid()
      ensures started <==> hash !in old(loading)
      ensures loading == Trigger(old(loading), Some(hash))
    {
      if hash in loading {
        return false;
      }
      loading := loading + [hash];
      started := true;
    }

    /** The half of `fetchDenomMetadata(hash)` after the `await`: the response is cached under the hash. */
    method CompleteMetadataFetch(hash: string, asset: Asset)
      requires Valid() && hash in loading && hash !in ibcMetadata
      modifies this`ibcMetadata
      ensures Valid()
      ensures ibcMetadata == old(ibcMetadata)[hash := asset]
    {
      ibcMetadata := ibcMetadata[hash := asset];
    }

    /** The config lookup shared by `tokenDisplayNumber` and `formatToken`, firing a fetch on an ibc/ miss. */
    method ResolveConfig(env: Env, denom: string, mode: Mode) returns (conf: Option<Asset>)
      requires Valid()
      modifies this`loading
      ensures Valid()
      ensures conf == ConfigFor(env, old(ibcMetadata), denom, mode)
      ensures loading == Trigger(old(loading), MetadataMiss(old(ibcMetadata), denom))
    {
      if mode == Local {
        conf := LocalConfig(env.currentAssets, denom);
      } else {
        conf := FindGlobalAssetConfig(env.chains, denom);
      }
      if StartsWith(denom, IbcPrefix) {
        var hash := IbcHash(denom);
        conf := if hash in ibcMetadata then Some(ibcMetadata[hash]) else None;
        if conf.None? {
          var _ := BeginMetadataFetch(hash);
        }
      }
    }

    /** `tokenDisplayDenom(denom)`. */
    method TokenDisplayDenom(env: Env, denom: Option<string>) returns (r: Option<string>)
      requires Valid()
      modifies this`loading
      ensures Valid()
      ensures r == TokenDisplayDenomSpec(env, old(ibcMetadata), denom)
      ensures loading == Trigger(old(loading), if r.Some? then MetadataMiss(old(ibcMetadata), denom.value) else None)
    {
      if denom.None? || denom.value == "" {
        return None;
      }
      var d := denom.value;
      var asset: Option<Asset>;
      if StartsWith(d, IbcPrefix) {
        var hash := IbcHash(d);
        asset := if hash in ibcMetadata then Some(ibcMetadata[hash]) else None;
        if asset.None? {
          var _ := BeginMetadataFetch(hash);
        }
      } else {
        asset := FindGlobalAssetConfig(env.chains, d);
      }
      if asset.Some? {
        var unit := ScanDisplayUnit(asset.value.denomUnits);
        return Some(unit.denom);
      }
      return Some(d);
    }

    /** `tokenDisplayNumber(token, mode)`. */
    method TokenDisplayNumber(env: Env, token: Option<Token>, mode: Mode) returns (r: Num)
      requires Valid()
      modifies this`loading
      ensures Valid()
      ensures r == TokenDisplayNumberSpec(env, old(ibcMetadata), token, mode)
      ensures loading == Trigger(old(loading), MissFor(old(ibcMetadata), token))
    {
      if !IsComplete(token) {
        return Finite(0.0);
      }
      var amount := ParseNumber(token.value.amount);
      var conf := ResolveConfig(env, token.value.denom, mode);
      if conf.Some? {
        var unit := ScanDisplayUnit(conf.value.denomUnits);
        if unit.exponent > 0 {
          amount := DivBy(amount, Pow10(unit.exponent));
        }
      }
      return amount;
    }

    /** `formatToken(token, withDenom, fmt, mode, decimal)`, rendering numbers with `render`. */
    method FormatToken(env: Env, token: Option<Token>, opts: FormatOptions, render: (Num, string) -> string)
      returns (r: string)
      requires Valid()
      modifies this`loading
      ensures Valid()
      ensures r == FormatTokenSpec(env, old(ibcMetadata), token, opts, render)
      ensures loading == Trigger(old(loading), MissFor(old(ibcMetadata), token))
    {
      if !IsComplete(token) {
        return "-";
      }
      var amount := ParseNumber(token.value.amount);
      if opts.decimal.Some? && opts.decimal.value != 0.0 {
        amount := DivBy(amount, opts.decimal.value);
      }
      var denom := token.value.denom;
      var conf := ResolveConfig(env, denom, opts.mode);
      if conf.Some? {
        var unit := ScanDisplayUnit(conf.value.denomUnits);
        if unit.exponent > 0 {
          amount := DivBy(amount, Pow10(unit.exponent));
          denom := Upper(unit.denom);
        }
      }
      if LessThan(amount, DustThreshold) {
        return "0 " + Take(denom, 10);
      }
      var fmt := opts.fmt;
      if LessThan(amount, SmallThreshold) {
        fmt := SmallFormat;
      }
      r := render(amount, fmt) + " " + (if opts.withDenom then Take(denom, 10) else "");
    }

    /**
     `formatTokens(tokens, withDenom, fmt, mode, decimal)`: an undefined
     `mode` falls through to `formatToken`'s default, 'local'.
     */
    method FormatTokens(env: Env, tokens: Option<seq<Token>>, withDenom: bool, fmt: string,
                        mode: Option<Mode>, decimal: Option<real>, render: (Num, string) -> string)
      returns (r: string)
      requires Valid()
      modifies this`loading
      ensures Valid()
      ensures var opts := FormatOptions(withDenom, fmt, if mode.Some? then mode.value else Local, decimal);
              r == FormatTokensSpec(env, old(ibcMetadata), tokens, opts, render)
      ensures loading == LoadingAfter(old(loading), old(ibcMetadata), if tokens.Some? then tokens.value else [])
    {
      if tokens.None? {
        return "";
      }
      var ts := tokens.value;
      var opts := FormatOptions(withDenom, fmt, if mode.Some? then mode.value else Local, decimal);
      var parts: seq<string> := [];
      for i := 0 to |ts|
        invariant Valid()
        invariant ibcMetadata == old(ibcMetadata)
        invariant parts == FormatAll(env, ibcMetadata, ts[..i], opts, render)
        invariant loading == LoadingAfter(old(loading), ibcMetadata, ts[..i])
      {
        assert ts[..i + 1][..i] == ts[..i];
        var part := FormatToken(env, Some(ts[i]), opts, render);
        parts := parts + [part];
      }
      assert ts[..|ts|] == ts;
      r := Join(parts, ", ");
    }
  }
}
