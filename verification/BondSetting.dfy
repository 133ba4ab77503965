/** NMSettingBond as an object: the options and the sorted index that is made of them on demand. */
module BondSetting {
  import opened Options
  import opened Severities
  import opened Text
  import opened StrOrder
  import opened Bond

  datatype NamedValue = NamedValue(name: bytes, value: bytes)

  /** The list holds the options in strcmp order of their names, each once. */
  ghost predicate IsIndex(list: seq<NamedValue>, o: Dict) {
    && |list| == |o|
    && (forall i, j :: 0 <= i < j < |list| ==> Less(list[i].name, list[j].name))
    && (forall i :: 0 <= i < |list| ==> list[i].name in o && o[list[i].name] == list[i].value)
    && (forall k :: k in o ==> exists i :: 0 <= i < |list| && list[i].name == k)
  }

  lemma {:induction false} SortedCount(keys: seq<bytes>, s: set<bytes>)
    requires Sorted(keys) && forall x :: x in keys <==> x in s
    ensures |keys| == |s|
  {
    if keys == [] {
      assert s == {};
    } else {
      var n := |keys| - 1;
      LessIrreflexive(keys[n]);
      assert keys[n] in s;
      SortedCount(keys[..n], s - {keys[n]});
    }
  }

  /** nm_utils_named_values_from_str_dict */
  method NamedValuesFromStrDict(o: Dict) returns (list: seq<NamedValue>)
    ensures IsIndex(list, o)
  {
    var keys := SortKeys(o.Keys);
    SortedCount(keys, o.Keys);
    list := [];
    for i := 0 to |keys|
      invariant |list| == i
      invariant forall j :: 0 <= j < i ==> list[j].name == keys[j] && keys[j] in o && list[j].value == o[keys[j]]
    {
      assert keys[i] in keys;
      list := list + [NamedValue(keys[i], o[keys[i]])];
    }
    forall k | k in o ensures exists i :: 0 <= i < |list| && list[i].name == k {
      assert k in keys;
      var i :| 0 <= i < |keys| && keys[i] == k;
      assert list[i].name == k;
    }
  }

  class SettingBond {
    var options: Dict
    var optionsIdxCache: Option<seq<NamedValue>>

    /** The index, when there is one, agrees with the table. */
    ghost predicate Valid()
      reads this
    {
      optionsIdxCache.Some? ==> IsIndex(optionsIdxCache.value, options)
    }

    constructor (c: Checks)
      ensures Valid() && options == map[MODE := ModeName(RoundRobin)]
    {
      options, optionsIdxCache := map[], None;
      new;
      var _ := AddOption(c, MODE, ModeName(RoundRobin));
      NewHasMode(c);
    }

    method GetNumOptions() returns (num: nat)
      ensures num == |options|
    {
      num := |options|;
    }

    method GetOption(idx: nat) returns (found: bool, option: NamedValue)
      requires Valid()
      modifies this`optionsIdxCache
      ensures Valid() && found == (idx < |options|)
      ensures found ==> optionsIdxCache.Some? && option == optionsIdxCache.value[idx]
      ensures old(optionsIdxCache).Some? ==> optionsIdxCache == old(optionsIdxCache)
    {
      if idx >= |options| {
        return false, NamedValue("", "");
      }
      if optionsIdxCache.None? {
        var list := NamedValuesFromStrDict(options);
        optionsIdxCache := Some(list);
      }
      return true, optionsIdxCache.value[idx];
    }

    method GetOptionByName(name: bytes) returns (value: Option<bytes>)
      ensures value == if KnownOption(name) && name in options then Some(options[name]) else None
    {
      if !KnownOption(name) || name !in options {
        return None;
      }
      return Some(options[name]);
    }

    method AddOption(c: Checks, name: bytes, value: bytes) returns (added: bool)
      requires Valid()
      modifies this
      ensures Valid() && added == ValidOption(c, name, value)
      ensures options == Bond.AddOption(c, old(options), name, value)
    {
      hide ValidOption;
      if !ValidOption(c, name, value) {
        return false;
      }
      optionsIdxCache := None;
      options := options[name := value];
      if name == MIIMON && value != "0" {
        options := options - {ARP_INTERVAL};
        options := options - {ARP_IP_TARGET};
      } else if name == ARP_INTERVAL && value != "0" {
        options := options - {MIIMON};
        options := options - {DOWNDELAY};
        options := options - {UPDELAY};
      }
      added := true;
    }

    method RemoveOption(name: bytes) returns (found: bool)
      requires Valid()
      modifies this
      ensures Valid() && found == (KnownOption(name) && name in old(options))
      ensures options == Bond.RemoveOption(old(options), name)
    {
      if !KnownOption(name) {
        return false;
      }
      optionsIdxCache := None;
      found := name in options;
      options := options - {name};
    }

    method SetProperty(value: Dict)
      modifies this
      ensures Valid() && options == value
    {
      optionsIdxCache := None;
      options := value;
    }
  }

  lemma NewHasMode(c: Checks)
    ensures Bond.AddOption(c, map[], MODE, ModeName(RoundRobin)) == map[MODE := ModeName(RoundRobin)]
  {
    ModeIsOption(c, RoundRobin);
    NamesApart();
  }

  // ---------------------------------------------------------------- normalisation

  /** _normalize_bond_mode */
  method NormalizeBondMode(c: Checks, bond: SettingBond) returns (changed: bool)
    requires bond.Valid()
    modifies bond
    ensures bond.Valid() && bond.options == NormalizedMode(old(bond.options))
    ensures changed <==> bond.options != old(bond.options)
  {
    hide ModeOf, ModeName, ValidOption, IsIndex;
    TableFacts(c, "");
    NamesApart();
    var mode := bond.GetOptionByName(MODE);
    changed := false;
    if mode.Some? && ModeOf(mode.value).Some? {
      var modeNew := ModeName(ModeOf(mode.value).value);
      if modeNew != mode.value {
        ModeIsOption(c, ModeOf(mode.value).value);
        var _ := bond.AddOption(c, MODE, modeNew);
        assert bond.options[MODE] == modeNew;
        return true;
      }
    }
  }

  /** What option normalisation does; it relies on the mode having its name. */
  function NormalizedOptions(o: Dict): Dict {
    if MODE in o && ModeFromString(o[MODE]).Some? then SupportedPart(o, ModeFromString(o[MODE]).value) else o
  }

  /** Only unsupported options have been taken away so far. */
  ghost predicate Trimmed(o: Dict, was: Dict, mode: Mode) {
    && (forall k :: k in o ==> k in was && o[k] == was[k])
    && (forall k :: k in was && Supported(k, mode) ==> k in o)
  }

  ghost predicate SupportedUpTo(cache: Option<seq<NamedValue>>, i: nat, mode: Mode) {
    i > 0 ==> cache.Some? && i <= |cache.value| && forall j :: 0 <= j < i ==> Supported(cache.value[j].name, mode)
  }

  lemma TrimOne(o: Dict, was: Dict, mode: Mode, name: bytes)
    requires Trimmed(o, was, mode) && name in o && !Supported(name, mode)
    ensures Trimmed(o - {name}, was, mode) && o - {name} != was && |o - {name}| < |o|
  {
    hide Supported;
    assert (o - {name}).Keys == o.Keys - {name};
    assert name in was && name !in o - {name};
    assert |(o - {name}).Keys| == |o - {name}| && |o.Keys| == |o|;
  }

  lemma TrimDone(o: Dict, was: Dict, mode: Mode, cache: Option<seq<NamedValue>>)
    requires Trimmed(o, was, mode) && SupportedUpTo(cache, |o|, mode) && (cache.Some? ==> IsIndex(cache.value, o))
    ensures o == SupportedPart(was, mode)
  {
    hide Supported;
    forall k | k in o ensures Supported(k, mode) {
      assert k in o.Keys && |o.Keys| == |o|;
      var j :| 0 <= j < |cache.value| && cache.value[j].name == k;
    }
  }

  /** _normalize_bond_options: after every removal the walk over the index starts again. */
  method NormalizeBondOptions(c: Checks, bond: SettingBond) returns (changed: bool)
    requires bond.Valid()
    modifies bond
    ensures bond.Valid() && bond.options == NormalizedOptions(old(bond.options))
    ensures changed <==> bond.options != old(bond.options)
  {
    hide ModeFromString, Supported, IsIndex, KnownOption, Trimmed, SupportedUpTo;
    ModeIsKnown();
    var modeStr := bond.GetOptionByName(MODE);
    if modeStr.None? || ModeFromString(modeStr.value).None? {
      return false;
    }
    var mode := ModeFromString(modeStr.value).value;
    ghost var was := bond.options;
    changed := false;
    var num := bond.GetNumOptions();
    var i := 0;
    NothingTrimmed(was, mode);
    NothingSupported(bond.optionsIdxCache, mode);
    while i < num
      invariant bond.Valid() && num == |bond.options| && 0 <= i <= num
      invariant Trimmed(bond.options, was, mode) && changed == (bond.options != was)
      invariant SupportedUpTo(bond.optionsIdxCache, i, mode)
      decreases |bond.options|, num - i
    {
      ghost var cache := bond.optionsIdxCache;
      var found, option := bond.GetOption(i);
      IndexName(bond.optionsIdxCache.value, bond.options, i);
      if found && !Supported(option.name, mode) {
        UnsupportedIsKnown(option.name, mode);
        TrimOne(bond.options, was, mode, option.name);
        var _ := bond.RemoveOption(option.name);
        changed := true;
        num := bond.GetNumOptions();
        i := 0;
        NothingSupported(bond.optionsIdxCache, mode);
      } else {
        OneMoreSupported(cache, bond.optionsIdxCache, i, mode);
        i := i + 1;
      }
    }
    TrimDone(bond.options, was, mode, bond.optionsIdxCache);
  }

  lemma ModeIsKnown()
    ensures KnownOption(MODE)
  {
    NamesOfTable();
    assert OptionName(OptMode) == MODE;
  }

  lemma NothingSupported(cache: Option<seq<NamedValue>>, mode: Mode)
    ensures SupportedUpTo(cache, 0, mode)
  {
  }

  lemma OneMoreSupported(before: Option<seq<NamedValue>>, after: Option<seq<NamedValue>>, i: nat, mode: Mode)
    requires SupportedUpTo(before, i, mode) && (before.Some? ==> after == before)
    requires after.Some? && i < |after.value| && Supported(after.value[i].name, mode)
    ensures SupportedUpTo(after, i + 1, mode)
  {
  }

  lemma NothingTrimmed(was: Dict, mode: Mode)
    ensures Trimmed(was, was, mode)
  {
  }

  lemma IndexName(list: seq<NamedValue>, o: Dict, i: nat)
    requires IsIndex(list, o) && i < |o|
    ensures |list| == |o| && list[i].name in o
  {
  }

  lemma NormalizedInTwoSteps(o: Dict)
    ensures Normalized(o) == NormalizedOptions(NormalizedMode(o))
  {
  }

  /** The mode is only changed to another text; options are only taken away. */
  lemma StepsChange(o: Dict)
    ensures NormalizedMode(o) != o || Normalized(o) != NormalizedMode(o) <==> Normalized(o) != o
  {
    hide Supported, ModeFromString, ModeOf;
    if NormalizedMode(o) != o {
      var mode := ModeOf(o[MODE]).value;
      ModeTexts(ModeName(mode), mode);
      SupportedFacts(mode);
      assert Normalized(o)[MODE] == ModeName(mode) != o[MODE];
    }
  }

  /** The bond part of nm_connection_normalize: the mode first, then the options.  Unless verify had found a
      real error, it succeeds from then on. */
  method NormalizeBond(c: Checks, ghost ctx: Context, bond: SettingBond) returns (changed: bool)
    requires bond.Valid()
    modifies bond
    ensures bond.Valid() && bond.options == Normalized(old(bond.options))
    ensures changed <==> bond.options != old(bond.options)
    ensures Verify(c, ctx, old(bond.options)) != Error ==> Verify(c, ctx, bond.options) == Success
    ensures Verify(c, ctx, old(bond.options)) == Success ==> !changed
  {
    hide NormalizedMode, NormalizedOptions, Normalized, Verify, IsIndex;
    ghost var o := bond.options;
    changed := NormalizeBondMode(c, bond);
    var stripped := NormalizeBondOptions(c, bond);
    changed := changed || stripped;
    NormalizedInTwoSteps(o);
    StepsChange(o);
    VerifyIsNoNormalizableError(c, ctx, o);
    if Verify(c, ctx, o) != Error {
      NormalizedVerifies(c, ctx, o);
      NormalizableIfChanged(c, ctx, o);
    }
  }

  lemma VerifyIsNoNormalizableError(c: Checks, ctx: Context, o: Dict)
    ensures Verify(c, ctx, o) != NormalizableError
  {
    VerifyMeans(c, ctx, o);
  }
}
