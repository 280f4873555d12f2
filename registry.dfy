/**
 Asset configuration lookups of the formatter store: the first asset of the
 dashboard's chains whose base is a denom (`findGlobalAssetConfig`), the
 `assets.find` over one chain, the display-unit scan over `denom_units`, and
 the largest exponent of a denom (`exponentForDenom`).
 */
module AssetRegistry {
  import opened JsValues

  datatype DenomUnit = DenomUnit(denom: string, exponent: nat)

  /** An asset's `base` is a denom string, or (in collapsed registry entries) an object `{ denom }`. */
  datatype Base = Plain(name: string) | Nested(denom: string)

  datatype Asset = Asset(base: Base, denomUnits: seq<DenomUnit>)

  datatype Chain = Chain(assets: seq<Asset>)

  /** The unit the display scan starts from: `{ exponent: 0, denom: '' }`. */
  const DefaultUnit := DenomUnit("", 0)

  /**
   The predicate passed to `assets.find`: `a.base === denom`, and when
   `acceptNested` also `a.base.denom === denom` (the current chain's lookup).
   */
  predicate Matches(a: Asset, denom: string, acceptNested: bool) {
    a.base == Plain(denom) || (acceptNested && a.base == Nested(denom))
  }

  /** The first index at or after `from` whose asset matches. */
  function MatchFrom(assets: seq<Asset>, denom: string, acceptNested: bool, from: nat): (r: Option<nat>)
    ensures r.Some? ==> from <= r.value < |assets| && Matches(assets[r.value], denom, acceptNested)
    ensures r.Some? ==> forall j :: from <= j < r.value ==> !Matches(assets[j], denom, acceptNested)
    ensures r.None? ==> forall j :: from <= j < |assets| ==> !Matches(assets[j], denom, acceptNested)
    decreases |assets| - from
  {
    if from >= |assets| then None
    else if Matches(assets[from], denom, acceptNested) then Some(from)
    else MatchFrom(assets, denom, acceptNested, from + 1)
  }

  /** `assets.find(...)`: the first matching asset, or undefined. */
  function Find(assets: seq<Asset>, denom: string, acceptNested: bool): (r: Option<Asset>)
    ensures r.None? <==> forall j :: 0 <= j < |assets| ==> !Matches(assets[j], denom, acceptNested)
    ensures r.Some? ==> (exists k :: 0 <= k < |assets| && assets[k] == r.value
                                && Matches(assets[k], denom, acceptNested)
                                && forall j :: 0 <= j < k ==> !Matches(assets[j], denom, acceptNested))
  {
    match MatchFrom(assets, denom, acceptNested, 0)
    case None => None
    case Some(k) => Some(assets[k])
  }

  /** The asset `findGlobalAssetConfig` returns: chains in order, and within a chain the first exact base. */
  function FindAsset(chains: seq<Chain>, denom: string): Option<Asset>
    decreases |chains|
  {
    if chains == [] then None
    else match Find(chains[0].assets, denom, false)
      case Some(a) => Some(a)
      case None => FindAsset(chains[1..], denom)
  }

  /** The lookup finds nothing exactly when no asset of any chain has that base. */
  lemma {:induction false} FindAssetNoneIff(chains: seq<Chain>, denom: string)
    ensures FindAsset(chains, denom).None? <==>
      forall i, j :: 0 <= i < |chains| && 0 <= j < |chains[i].assets| ==> !Matches(chains[i].assets[j], denom, false)
    decreases |chains|
  {
    if chains != [] {
      FindAssetNoneIff(chains[1..], denom);
      if FindAsset(chains, denom).None? {
        forall i, j | 0 <= i < |chains| && 0 <= j < |chains[i].assets|
          ensures !Matches(chains[i].assets[j], denom, false)
        {
          if i > 0 { assert chains[i] == chains[1..][i - 1]; }
        }
      } else if Find(chains[0].assets, denom, false).None? {
        var i, j :| 0 <= i < |chains[1..]| && 0 <= j < |chains[1..][i].assets|
                    && Matches(chains[1..][i].assets[j], denom, false);
        assert chains[i + 1] == chains[1..][i];
      }
    }
  }

  /** The lookup returns the first match of the first chain that has one. */
  lemma {:induction false} FindAssetIsFirst(chains: seq<Chain>, denom: string)
    ensures FindAsset(chains, denom).Some? ==>
      (exists i :: 0 <= i < |chains|
                   && Find(chains[i].assets, denom, false) == FindAsset(chains, denom)
                   && forall k :: 0 <= k < i ==> Find(chains[k].assets, denom, false).None?)
    decreases |chains|
  {
    if chains != [] && FindAsset(chains, denom).Some? && Find(chains[0].assets, denom, false).None? {
      FindAssetIsFirst(chains[1..], denom);
      var r := FindAsset(chains, denom);
      var i :| 0 <= i < |chains[1..]|
        && Find(chains[1..][i].assets, denom, false) == r
        && forall k :: 0 <= k < i ==> Find(chains[1..][k].assets, denom, false).None?;
      assert Find(chains[i + 1].assets, denom, false) == r;
      forall k | 0 <= k < i + 1
        ensures Find(chains[k].assets, denom, false).None?
      {
        if k > 0 { assert chains[k] == chains[1..][k - 1]; }
      }
    }
  }

  /** `findGlobalAssetConfig`: an indexed loop over the chains that returns the first hit. */
  method FindGlobalAssetConfig(chains: seq<Chain>, denom: string) returns (conf: Option<Asset>)
    ensures conf == FindAsset(chains, denom)
  {
    var i := 0;
    while i < |chains|
      invariant 0 <= i <= |chains|
      invariant FindAsset(chains[i..], denom) == FindAsset(chains, denom)
    {
      assert chains[i..][1..] == chains[i + 1..];
      var found := Find(chains[i].assets, denom, false);
      if found.Some? {
        return found;
      }
      i := i + 1;
    }
    return None;
  }

  /**
   The unit the `forEach` scan ends on: starting from DefaultUnit, every unit
   whose exponent is at least the current one replaces it.
   */
  function DisplayUnit(units: seq<DenomUnit>): DenomUnit
    decreases |units|
  {
    if units == [] then DefaultUnit
    else
      var best := DisplayUnit(units[..|units| - 1]);
      var x := units[|units| - 1];
      if x.exponent >= best.exponent then x else best
  }

  /**
   The scan picks a unit of maximum exponent, the last one in list order when
   several share it, and the default unit only for an empty list.
   */
  lemma {:induction false} DisplayUnitIsLastMaximum(units: seq<DenomUnit>)
    ensures units == [] ==> DisplayUnit(units) == DefaultUnit
    ensures units != [] ==>
      (exists k :: 0 <= k < |units| && DisplayUnit(units) == units[k]
                   && (forall j :: 0 <= j < |units| ==> units[j].exponent <= units[k].exponent)
                   && (forall j :: k < j < |units| ==> units[j].exponent < units[k].exponent))
    decreases |units|
  {
    if units != [] {
      var n := |units| - 1;
      var prefix := units[..n];
      DisplayUnitIsLastMaximum(prefix);
      if units[n].exponent >= DisplayUnit(prefix).exponent {
        assert DisplayUnit(units) == units[n];
        forall j | 0 <= j < |units|
          ensures units[j].exponent <= units[n].exponent
        {
          if j < n { assert units[j] == prefix[j]; }
        }
      } else {
        var k :| 0 <= k < |prefix| && DisplayUnit(prefix) == prefix[k]
          && (forall j :: 0 <= j < |prefix| ==> prefix[j].exponent <= prefix[k].exponent)
          && (forall j :: k < j < |prefix| ==> prefix[j].exponent < prefix[k].exponent);
        assert units[k] == prefix[k];
        forall j | 0 <= j < |units|
          ensures units[j].exponent <= units[k].exponent
        {
          if j < n { assert units[j] == prefix[j]; }
        }
        forall j | k < j < |units|
          ensures units[j].exponent < units[k].exponent
        {
          if j < n { assert units[j] == prefix[j]; }
        }
      }
    }
  }

  /** The display-unit scan as the source writes it: a loop updating a running unit. */
  method ScanDisplayUnit(units: seq<DenomUnit>) returns (unit: DenomUnit)
    ensures unit == DisplayUnit(units)
  {
    unit := DefaultUnit;
    for i := 0 to |units|
      invariant unit == DisplayUnit(units[..i])
    {
      assert units[..i + 1][..i] == units[..i];
      if units[i].exponent >= unit.exponent {
        unit := units[i];
      }
    }
    assert units[..|units|] == units;
  }

  /** The running maximum of `exponentForDenom`, starting from 0. */
  function MaxExponent(units: seq<DenomUnit>): nat
    decreases |units|
  {
    if units == [] then 0
    else
      var e := MaxExponent(units[..|units| - 1]);
      if units[|units| - 1].exponent >= e then units[|units| - 1].exponent else e
  }

  /** `exponentForDenom` and the display-unit scan agree on the exponent they settle on. */
  lemma {:induction false} MaxExponentIsDisplayExponent(units: seq<DenomUnit>)
    ensures MaxExponent(units) == DisplayUnit(units).exponent
    decreases |units|
  {
    if units != [] {
      MaxExponentIsDisplayExponent(units[..|units| - 1]);
    }
  }

  /** What `exponentForDenom(denom)` returns. */
  function DenomExponent(chains: seq<Chain>, denom: string): nat {
    match FindAsset(chains, denom)
    case None => 0
    case Some(a) => MaxExponent(a.denomUnits)
  }

  /**
   The exponent of a registered denom is at least every exponent of its
   units and is one of them; an unregistered denom, or one without units,
   gets 0.
   */
  lemma DenomExponentBounds(chains: seq<Chain>, denom: string)
    ensures FindAsset(chains, denom).None? ==> DenomExponent(chains, denom) == 0
    ensures FindAsset(chains, denom).Some? ==>
      var units := FindAsset(chains, denom).value.denomUnits;
      && (forall j :: 0 <= j < |units| ==> units[j].exponent <= DenomExponent(chains, denom))
      && (units == [] ==> DenomExponent(chains, denom) == 0)
      && (units != [] ==> exists j :: 0 <= j < |units| && units[j].exponent == DenomExponent(chains, denom))
  {
    if FindAsset(chains, denom).Some? {
      var units := FindAsset(chains, denom).value.denomUnits;
      MaxExponentIsDisplayExponent(units);
      DisplayUnitIsLastMaximum(units);
    }
  }

  /** `exponentForDenom`: the registry lookup followed by a loop keeping the largest exponent. */
  method ExponentForDenom(chains: seq<Chain>, denom: string) returns (exponent: nat)
    ensures exponent == DenomExponent(chains, denom)
  {
    var asset := FindGlobalAssetConfig(chains, denom);
    exponent := 0;
    if asset.Some? {
      var units := asset.value.denomUnits;
      for i := 0 to |units|
        invariant exponent == MaxExponent(units[..i])
      {
        assert units[..i + 1][..i] == units[..i];
        if units[i].exponent >= exponent {
          exponent := units[i].exponent;
        }
      }
      assert units[..|units|] == units;
    }
  }
}
