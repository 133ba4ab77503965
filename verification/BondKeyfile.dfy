/** The options of a bond written to a keyfile and replayed, one by one, on a new bond. */
module BondKeyfile {
  import opened Options
  import opened Severities
  import opened Text
  import opened StrOrder
  import opened KeyFile
  import KeyCodec
  import UserData
  import opened Bond
  import opened BondSetting

  const NEW_BOND: Dict := map[MODE := "balance-rr"]

  const INTERFACE_NAME: bytes := "interface-name"

  /** The options after the given keys of the group have been read by read_hash_of_string. */
  function ReadOptions(c: Checks, g: Group, keys: seq<bytes>, start: Dict): Dict {
    if keys == [] then start
    else
      var n := |keys| - 1;
      var before := ReadOptions(c, g, keys[..n], start);
      var name := KeyCodec.Decode(keys[n]);
      if keys[n] !in g.vals || name == INTERFACE_NAME then before
      else AddOption(c, before, name, g.vals[keys[n]])
  }

  method ReadBondOptions(c: Checks, file: KeyGroup, bond: SettingBond)
    requires bond.Valid() && forall k :: k in file.keys ==> NoNul(k)
    modifies bond
    ensures bond.Valid()
    ensures bond.options == ReadOptions(c, file.Contents(), file.keys, old(bond.options))
  {
    hide AddOption, KeyCodec.Decode, ValidOption, IsIndex;
    ghost var g := file.Contents();
    var keys := file.GetKeys();
    for i := 0 to |keys|
      invariant bond.Valid() && file.Contents() == g
      invariant bond.options == ReadOptions(c, g, keys[..i], old(bond.options))
    {
      assert keys[..i + 1][..i] == keys[..i];
      assert keys[i] in keys;
      var value := file.GetString(keys[i]);
      if value.None? {
        continue;
      }
      var name, copied := KeyCodec.KeyfileKeyDecode(keys[i]);
      if name != INTERFACE_NAME {
        var _ := bond.AddOption(c, name, value.value);
      }
    }
    assert keys[..|keys|] == keys;
  }

  // ---------------------------------------------------------------- what the replay keeps

  /** An enabled miimon drives out the ARP options. */
  predicate Displaces(o: Dict) {
    MIIMON in o && o[MIIMON] != "0"
  }

  function Replayed(o: Dict): Dict {
    NEW_BOND + if Displaces(o) then o - {ARP_INTERVAL, ARP_IP_TARGET} else o
  }

  function Restrict(o: Dict, names: seq<bytes>): Dict {
    map k | k in o && k in names :: o[k]
  }

  /** In strcmp order, arp_interval and arp_ip_target come before everything that they conflict with. */
  lemma OptionOrder()
    ensures Less(ARP_INTERVAL, MIIMON) && Less(ARP_INTERVAL, DOWNDELAY) && Less(ARP_INTERVAL, UPDELAY)
    ensures Less(ARP_IP_TARGET, MIIMON)
  {
    assert ARP_INTERVAL[0] == 'a' && ARP_IP_TARGET[0] == 'a';
    assert MIIMON[0] == 'm' && DOWNDELAY[0] == 'd' && UPDELAY[0] == 'u';
  }

  /** One more option of the list, when the list is sorted. */
  lemma ReplayStep(c: Checks, r: Dict, k: bytes, v: bytes)
    requires k !in r && ValidOption(c, k, v)
    requires k == ARP_INTERVAL ==> MIIMON !in r && DOWNDELAY !in r && UPDELAY !in r
    requires k == ARP_IP_TARGET ==> MIIMON !in r
    ensures AddOption(c, Replayed(r), k, v) == Replayed(r[k := v])
  {
    hide ValidOption;
    NamesApart();
    var r' := r[k := v];
    var kept := if Displaces(r) then r - {ARP_INTERVAL, ARP_IP_TARGET} else r;
    if k == MIIMON && v != "0" {
      assert (NEW_BOND + r)[k := v] - {ARP_INTERVAL, ARP_IP_TARGET} == NEW_BOND + (r' - {ARP_INTERVAL, ARP_IP_TARGET});
    } else if k == ARP_INTERVAL && v != "0" {
      assert (NEW_BOND + r)[k := v] - {MIIMON, DOWNDELAY, UPDELAY} == NEW_BOND + r';
    } else {
      assert Displaces(r') == Displaces(r);
      assert (NEW_BOND + kept)[k := v] == NEW_BOND + (if Displaces(r') then r' - {ARP_INTERVAL, ARP_IP_TARGET} else r');
    }
  }

  lemma RestrictStep(o: Dict, names: seq<bytes>)
    requires names != [] && Sorted(names) && forall k :: k in names ==> k in o
    ensures var n := |names| - 1;
            && Restrict(o, names) == Restrict(o, names[..n])[names[n] := o[names[n]]]
            && forall k :: k in Restrict(o, names[..n]) ==> Less(k, names[n])
  {
    var n := |names| - 1;
    assert forall k :: k in names <==> k in names[..n] || k == names[n];
    assert names[n] in names;
  }

  /** Replaying the first names of the sorted list. */
  lemma {:induction false} ReplayPart(c: Checks, g: Group, keys: seq<bytes>, o: Dict, names: seq<bytes>)
    requires OptionsOk(c, o) && UserData.NamesOk(o) && Sorted(names) && forall k :: k in names ==> k in o
    requires |keys| == |names| && forall i :: 0 <= i < |names| ==> keys[i] == KeyCodec.Encode(names[i])
    requires forall i :: 0 <= i < |names| ==> keys[i] in g.vals && g.vals[keys[i]] == o[names[i]]
    ensures ReadOptions(c, g, keys, NEW_BOND) == Replayed(Restrict(o, names))
  {
    hide AddOption, KeyCodec.Decode, KeyCodec.Encode, ValidOption, Less, Table, Replayed;
    if names == [] {
      NothingReplayed(o);
    } else {
      var n := |names| - 1;
      var k := names[n];
      ReplayPart(c, g, keys[..n], o, names[..n]);
      RestrictStep(o, names);
      assert k in names;
      KeyCodec.RoundTrip(k);
      TableFacts(c, "");
      ValidIsKnown(c, k, o[k]);
      var r := Restrict(o, names[..n]);
      OptionOrder();
      forall x, y | Less(x, y) && k == x ensures y !in r {
        if y in r { LessTransitive(x, y, x); LessIrreflexive(x); assert false; }
      }
      LessIrreflexive(k);
      ReplayStep(c, r, k, o[k]);
    }
  }

  lemma NothingReplayed(o: Dict)
    ensures Replayed(Restrict(o, [])) == NEW_BOND
  {
  }

  lemma ValidIsKnown(c: Checks, name: bytes, value: bytes)
    requires ValidOption(c, name, value)
    ensures KnownOption(name)
  {
  }

  // ---------------------------------------------------------------- round trip

  /** The options that writing and replaying changes: miimon is enabled and there is an ARP option with
      something to lose. */
  predicate Lossy(o: Dict) {
    Displaces(o) && ((ARP_INTERVAL in o && o[ARP_INTERVAL] != "0") || ARP_IP_TARGET in o)
  }

  ghost predicate IsNameList(names: seq<bytes>, o: Dict) {
    Sorted(names) && forall k :: k in names <==> k in o
  }

  /** Valid options, written in the order of their names and replayed on a new bond. */
  lemma ReplayIs(c: Checks, o: Dict, names: seq<bytes>)
    requires OptionsOk(c, o) && IsNameList(names, o)
    ensures UserData.NamesOk(o)
    ensures var g := UserData.Written(EMPTY_GROUP, names, o);
            ReadOptions(c, g, g.keys, NEW_BOND) == Replayed(o)
  {
    hide ReadOptions, Replayed, KeyCodec.Encode, ValidOption, Sorted, UserData.Written, KnownOption, NoNul;
    forall k | k in o ensures NoNul(k) {
      ValidIsKnown(c, k, o[k]);
      KnownIsCString(k);
    }
    var g := UserData.Written(EMPTY_GROUP, names, o);
    UserData.WrittenKeys(names, o);
    UserData.WrittenRepresents(names, o);
    forall i | 0 <= i < |names| ensures g.keys[i] in g.vals && g.vals[g.keys[i]] == o[names[i]] {
      assert names[i] in names;
    }
    ReplayPart(c, g, g.keys, o, names);
    assert Restrict(o, names) == o;
  }

  lemma KnownOptions(c: Checks, o: Dict)
    requires OptionsOk(c, o)
    ensures NamesOk(o) && NamesOk(Replayed(o))
  {
    hide ValidOption, Table;
    forall k | k in o ensures KnownOption(k) { ValidIsKnown(c, k, o[k]); }
    TableFacts(c, "");
  }

  /** What an option that the replay has lost counts as. */
  lemma LostCountsAs(r: Dict)
    ensures ARP_INTERVAL !in r ==> Effective(r, ARP_INTERVAL) == Some("0")
    ensures ARP_IP_TARGET !in r ==> Effective(r, ARP_IP_TARGET) == Some("")
    ensures MODE !in r ==> Effective(r, MODE) == Some("balance-rr")
    ensures forall k :: k in r ==> Effective(r, k) == Some(r[k])
  {
    hide Table;
    OthersApart();
    TableFacts(Checks(_ => true, _ => true, _ => true), "");
  }

  /** The round trip gives equal options exactly when there was nothing to lose. */
  lemma ReplayedEqual(c: Checks, o: Dict, inferrable: bool)
    requires OptionsOk(c, o)
    ensures NamesOk(o) && NamesOk(Replayed(o))
    ensures OptionsEqual(o, Replayed(o), inferrable) <==> !Lossy(o)
  {
    hide ValidOption, Table, Effective, EqualAsym, Replayed, Lossy;
    KnownOptions(c, o);
    ReplayedCovers(o, inferrable);
    CoversReplayed(o, inferrable);
  }

  /** What the new bond adds is a default, and what it keeps is as it was. */
  lemma ReplayedCovers(o: Dict, inferrable: bool)
    requires NamesOk(o) && NamesOk(Replayed(o))
    ensures EqualAsym(Replayed(o), o, inferrable)
  {
    hide Effective, KnownOption;
    NamesApart();
    LostCountsAs(o);
  }

  /** What the replay has lost is missed unless it was a default. */
  lemma CoversReplayed(o: Dict, inferrable: bool)
    requires NamesOk(o) && forall k :: k in o ==> o[k] != []
    ensures EqualAsym(o, Replayed(o), inferrable) <==> !Lossy(o)
  {
    hide Effective, KnownOption;
    NamesApart();
    OthersApart();
    LostCountsAs(Replayed(o));
  }

  lemma OthersApart()
    ensures ARP_INTERVAL !in {NUM_GRAT_ARP, NUM_UNSOL_NA, AD_ACTOR_SYSTEM, FAIL_OVER_MAC, ACTIVE_SLAVE}
    ensures ARP_IP_TARGET !in {NUM_GRAT_ARP, NUM_UNSOL_NA, AD_ACTOR_SYSTEM, FAIL_OVER_MAC, ACTIVE_SLAVE}
    ensures MODE !in {NUM_GRAT_ARP, NUM_UNSOL_NA, AD_ACTOR_SYSTEM, FAIL_OVER_MAC, ACTIVE_SLAVE}
  {
  }

  /** Bonds survive being written to a keyfile and read back, up to options_equal, exactly when no ARP
      option has to give way to an enabled miimon. */
  lemma BondRoundTrip(c: Checks, o: Dict, names: seq<bytes>, inferrable: bool)
    requires OptionsOk(c, o) && IsNameList(names, o)
    ensures var g := UserData.Written(EMPTY_GROUP, names, o);
            var r := ReadOptions(c, g, g.keys, NEW_BOND);
            NamesOk(o) && NamesOk(r) && (OptionsEqual(o, r, inferrable) <==> !Lossy(o))
  {
    hide ReadOptions, Replayed, OptionsOk, OptionsEqual, Lossy, UserData.Written;
    ReplayIs(c, o, names);
    ReplayedEqual(c, o, inferrable);
  }

  /** A decimal number without leading zeros. */
  predicate Canonical(s: bytes) {
    AllDigits(s) && s == Dec(DecVal(s))
  }

  lemma CanonicalZero(s: bytes)
    requires Canonical(s)
    ensures Atoi(s) == 0 <==> s == "0"
    ensures Atoi(s) >= 0
  {
    assert Dec(0) == "0";
    if s == "0" { DecRoundTrip(0); }
  }

  /** Options that verify lets pass, with miimon and arp_interval as canonical decimals, come back equal;
      the one thing that may be missing then is an arp_interval of zero. */
  lemma CanonicalRoundTrip(c: Checks, ctx: Context, o: Dict)
    requires Verify(c, ctx, o) != Error
    requires MIIMON in o ==> Canonical(o[MIIMON])
    requires ARP_INTERVAL in o ==> Canonical(o[ARP_INTERVAL])
    ensures !Lossy(o)
    ensures forall k :: k in Replayed(o) ==> k in o && Replayed(o)[k] == o[k]
    ensures forall k :: k in o && k !in Replayed(o) ==> k == ARP_INTERVAL && o[k] == "0" && Displaces(o)
  {
    hide OptionsOk, ValidIpList, Canonical, Atoi, ModeOf, Supported;
    if MIIMON in o { CanonicalZero(o[MIIMON]); }
    if ARP_INTERVAL in o { CanonicalZero(o[ARP_INTERVAL]); }
  }

  const LEADING_ZERO: Dict :=
    map[MODE := "balance-rr", MIIMON := "00", ARP_INTERVAL := "1", ARP_IP_TARGET := "192.0.2.1"]

  lemma ExampleOptions(o: Dict)
    requires o == LEADING_ZERO
    ensures MODE in o && o[MODE] == "balance-rr" && MIIMON in o && o[MIIMON] == "00"
    ensures ARP_INTERVAL in o && o[ARP_INTERVAL] == "1" && ARP_IP_TARGET in o && o[ARP_IP_TARGET] == "192.0.2.1"
    ensures o.Keys == {MODE, MIIMON, ARP_INTERVAL, ARP_IP_TARGET}
  {
    NamesApart();
  }

  lemma ExampleOk(c: Checks, o: Dict)
    requires c.ip4("192.0.2.1") && o == LEADING_ZERO
    ensures OptionsOk(c, o) && ValidIpList(c, o[ARP_IP_TARGET])
  {
    hide ValidNumber, ValidOption, Table, ValidIpList;
    ExampleOptions(o);
    ModeIsOption(c, RoundRobin);
    TableFacts(c, "00");
    TableFacts(c, "1");
    TableFacts(c, "192.0.2.1");
    SmallNumbers();
    OneIpAddress(c, "192.0.2.1");
    forall k | k in o ensures o[k] != [] && ValidOption(c, k, o[k]) {
      assert k == MODE || k == MIIMON || k == ARP_INTERVAL || k == ARP_IP_TARGET;
    }
  }

  lemma OneIpAddress(c: Checks, s: bytes)
    requires s != [] && c.ip4(s) && forall i :: 0 <= i < |s| ==> s[i] != ','
    ensures ValidIpList(c, s)
  {
    OneWord(s);
  }

  lemma OthersAbsent(o: Dict)
    requires o == LEADING_ZERO
    ensures forall k :: k in {PRIMARY, UPDELAY, DOWNDELAY, LACP_RATE, NUM_GRAT_ARP, NUM_UNSOL_NA} ==> k !in o
  {
    ExampleOptions(o);
    assert UPDELAY[0] == 'u' && DOWNDELAY[0] == 'd' && LACP_RATE[0] == 'l' && PRIMARY[0] == 'p';
  }

  /** Without canonical numbers it can fail: miimon=00 is off for verify, but not for the replay. */
  lemma LeadingZeroLoses(c: Checks)
    requires c.ip4("192.0.2.1")
    ensures Verify(c, Context(false, true), LEADING_ZERO) == Success && Lossy(LEADING_ZERO)
  {
    hide OptionsOk, ValidIpList, Atoi, ModeOf, Supported;
    var o := LEADING_ZERO;
    ExampleOptions(o);
    ExampleOk(c, o);
    OthersAbsent(o);
    ModeTexts("balance-rr", RoundRobin);
    SmallNumbers();
    ArpSupported();
  }

  lemma SmallNumbers()
    ensures ValidNumber("00", 0, MAXINT) && ValidNumber("1", 0, MAXINT) && Atoi("00") == 0 && Atoi("1") == 1
  {
    StrToInt64Digits("00", 0, MAXINT);
    StrToInt64Digits("1", 0, MAXINT);
    assert "00"[..1] == "0" && "0"[..0] == "" && "1"[..0] == "";
    assert DecVal("0") == 0;
  }

  lemma {:induction false} OneWord(s: bytes)
    requires forall i :: 0 <= i < |s| ==> s[i] != ','
    ensures Words(s) == [s]
  {
    if s != [] {
      OneWord(s[1..]);
      assert [s[0]] + s[1..] == s;
    }
  }

  lemma ArpSupported()
    ensures forall k :: k in {MODE, MIIMON, ARP_INTERVAL, ARP_IP_TARGET} ==> Supported(k, RoundRobin)
  {
  }
}
