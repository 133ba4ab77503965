/** The options of a bond: their table, which values are valid, what the modes support, verify and the
    comparison of two sets of options. */
module Bond {
  import opened Options
  import opened Severities
  import opened Text

  type Dict = map<bytes, bytes>

  const MODE: bytes := "mode"
  const MIIMON: bytes := "miimon"
  const DOWNDELAY: bytes := "downdelay"
  const UPDELAY: bytes := "updelay"
  const ARP_INTERVAL: bytes := "arp_interval"
  const ARP_IP_TARGET: bytes := "arp_ip_target"
  const PRIMARY: bytes := "primary"
  const LACP_RATE: bytes := "lacp_rate"
  const ACTIVE_SLAVE: bytes := "active_slave"
  const FAIL_OVER_MAC: bytes := "fail_over_mac"
  const AD_ACTOR_SYSTEM: bytes := "ad_actor_system"
  const NUM_GRAT_ARP: bytes := "num_grat_arp"
  const NUM_UNSOL_NA: bytes := "num_unsol_na"

  // ---------------------------------------------------------------- modes

  datatype Mode = RoundRobin | ActiveBackup | Xor | Broadcast | Ad8023 | Tlb | Alb

  function ModeName(m: Mode): bytes {
    match m
    case RoundRobin => "balance-rr"
    case ActiveBackup => "active-backup"
    case Xor => "balance-xor"
    case Broadcast => "broadcast"
    case Ad8023 => "802.3ad"
    case Tlb => "balance-tlb"
    case Alb => "balance-alb"
  }

  function ModeNumber(m: Mode): bytes {
    match m
    case RoundRobin => "0"
    case ActiveBackup => "1"
    case Xor => "2"
    case Broadcast => "3"
    case Ad8023 => "4"
    case Tlb => "5"
    case Alb => "6"
  }

  /** _nm_setting_bond_mode_from_string */
  function ModeFromString(s: bytes): Option<Mode> {
    if s == "balance-rr" then Some(RoundRobin)
    else if s == "active-backup" then Some(ActiveBackup)
    else if s == "balance-xor" then Some(Xor)
    else if s == "broadcast" then Some(Broadcast)
    else if s == "802.3ad" then Some(Ad8023)
    else if s == "balance-tlb" then Some(Tlb)
    else if s == "balance-alb" then Some(Alb)
    else None
  }

  /** nm_utils_bond_mode_string_to_int: the name or the number of a mode. */
  function ModeOf(s: bytes): Option<Mode> {
    if s == "0" then Some(RoundRobin)
    else if s == "1" then Some(ActiveBackup)
    else if s == "2" then Some(Xor)
    else if s == "3" then Some(Broadcast)
    else if s == "4" then Some(Ad8023)
    else if s == "5" then Some(Tlb)
    else if s == "6" then Some(Alb)
    else ModeFromString(s)
  }

  /** Exactly the names and the numbers stand for a mode; the name is the only text that both look-ups take. */
  lemma ModeTexts(s: bytes, m: Mode)
    ensures ModeOf(s) == Some(m) <==> s == ModeName(m) || s == ModeNumber(m)
    ensures ModeFromString(s) == Some(m) <==> s == ModeName(m)
  {
    NamesDiffer();
  }

  lemma NamesDiffer()
    ensures forall m, n :: ModeName(m) == ModeName(n) ==> m == n
    ensures forall m, n :: ModeName(m) != ModeNumber(n)
  {
    assert ModeName(RoundRobin)[8] == 'r' && ModeName(Xor)[8] == 'x';
    assert ModeName(Tlb)[8] == 't' && ModeName(Alb)[8] == 'a';
    assert forall m :: |ModeName(m)| >= 7 && |ModeNumber(m)| == 1;
  }

  // ---------------------------------------------------------------- the option table

  const MAXINT: int := 0x7FFF_FFFF

  /** What the host system says about addresses and names. */
  datatype Checks = Checks(ip4: bytes -> bool, mac: bytes -> bool, ifname: bytes -> bool)

  datatype Kind =
    | Number(min: int, max: int)
    | Both(min: int, max: int, list: seq<bytes>)
    | IpList
    | MacAddress
    | InterfaceName

  datatype Entry = Entry(val: bytes, kind: Kind)

  /** The rows of the table. */
  datatype OptionId =
    | OptMode | OptMiimon | OptDowndelay | OptUpdelay | OptArpInterval
    | OptArpIpTarget | OptArpValidate | OptPrimary | OptPrimaryReselect | OptFailOverMac
    | OptUseCarrier | OptAdSelect | OptXmitHashPolicy | OptResendIgmp | OptLacpRate
    | OptActiveSlave | OptAdActorSysPrio | OptAdActorSystem | OptAdUserPortKey | OptAllSlavesActive
    | OptArpAllTargets | OptMinLinks | OptNumGratArp | OptNumUnsolNa | OptPacketsPerSlave
    | OptTlbDynamicLb | OptLpInterval

  function OptionName(id: OptionId): bytes {
    match id
    case OptMode => "mode"
    case OptMiimon => "miimon"
    case OptDowndelay => "downdelay"
    case OptUpdelay => "updelay"
    case OptArpInterval => "arp_interval"
    case OptArpIpTarget => "arp_ip_target"
    case OptArpValidate => "arp_validate"
    case OptPrimary => "primary"
    case OptPrimaryReselect => "primary_reselect"
    case OptFailOverMac => "fail_over_mac"
    case OptUseCarrier => "use_carrier"
    case OptAdSelect => "ad_select"
    case OptXmitHashPolicy => "xmit_hash_policy"
    case OptResendIgmp => "resend_igmp"
    case OptLacpRate => "lacp_rate"
    case OptActiveSlave => "active_slave"
    case OptAdActorSysPrio => "ad_actor_sys_prio"
    case OptAdActorSystem => "ad_actor_system"
    case OptAdUserPortKey => "ad_user_port_key"
    case OptAllSlavesActive => "all_slaves_active"
    case OptArpAllTargets => "arp_all_targets"
    case OptMinLinks => "min_links"
    case OptNumGratArp => "num_grat_arp"
    case OptNumUnsolNa => "num_unsol_na"
    case OptPacketsPerSlave => "packets_per_slave"
    case OptTlbDynamicLb => "tlb_dynamic_lb"
    case OptLpInterval => "lp_interval"
  }

  /** The default and the valid values of an option. The default of ad_actor_system is not in the table. */
  function Row(id: OptionId): Entry {
    match id
    case OptMode =>
      Entry("balance-rr", Both(0, 6, ["balance-rr", "active-backup", "balance-xor", "broadcast",
                                   "802.3ad", "balance-tlb", "balance-alb"]))
    case OptMiimon => Entry("100", Number(0, MAXINT))
    case OptDowndelay => Entry("0", Number(0, MAXINT))
    case OptUpdelay => Entry("0", Number(0, MAXINT))
    case OptArpInterval => Entry("0", Number(0, MAXINT))
    case OptArpIpTarget => Entry("", IpList)
    case OptArpValidate =>
      Entry("none", Both(0, 6, ["none", "active", "backup", "all",
                                   "filter", "filter_active", "filter_backup"]))
    case OptPrimary => Entry("", InterfaceName)
    case OptPrimaryReselect => Entry("always", Both(0, 2, ["always", "better", "failure"]))
    case OptFailOverMac => Entry("none", Both(0, 2, ["none", "active", "follow"]))
    case OptUseCarrier => Entry("1", Number(0, 1))
    case OptAdSelect => Entry("stable", Both(0, 2, ["stable", "bandwidth", "count"]))
    case OptXmitHashPolicy => Entry("layer2", Both(0, 4, ["layer2", "layer3+4", "layer2+3", "encap2+3", "encap3+4"]))
    case OptResendIgmp => Entry("1", Number(0, 255))
    case OptLacpRate => Entry("slow", Both(0, 1, ["slow", "fast"]))
    case OptActiveSlave => Entry("", InterfaceName)
    case OptAdActorSysPrio => Entry("65535", Number(1, 65535))
    case OptAdActorSystem => Entry("", MacAddress)
    case OptAdUserPortKey => Entry("0", Number(0, 1023))
    case OptAllSlavesActive => Entry("0", Number(0, 1))
    case OptArpAllTargets => Entry("any", Both(0, 1, ["any", "all"]))
    case OptMinLinks => Entry("0", Number(0, MAXINT))
    case OptNumGratArp => Entry("1", Number(0, 255))
    case OptNumUnsolNa => Entry("1", Number(0, 255))
    case OptPacketsPerSlave => Entry("1", Number(0, 65535))
    case OptTlbDynamicLb => Entry("1", Number(0, 1))
    case OptLpInterval => Entry("1", Number(1, MAXINT))
  }

  /** Length, second and last character tell the names apart. */
  function Look(s: bytes): (nat, byte, byte)
    requires |s| >= 2
  {
    (|s|, s[1], s[|s| - 1])
  }

  function LookOf(id: OptionId): (nat, byte, byte) {
    match id
    case OptMode => (4, 'o', 'e')
    case OptMiimon => (6, 'i', 'n')
    case OptDowndelay => (9, 'o', 'y')
    case OptUpdelay => (7, 'p', 'y')
    case OptArpInterval => (12, 'r', 'l')
    case OptArpIpTarget => (13, 'r', 't')
    case OptArpValidate => (12, 'r', 'e')
    case OptPrimary => (7, 'r', 'y')
    case OptPrimaryReselect => (16, 'r', 't')
    case OptFailOverMac => (13, 'a', 'c')
    case OptUseCarrier => (11, 's', 'r')
    case OptAdSelect => (9, 'd', 't')
    case OptXmitHashPolicy => (16, 'm', 'y')
    case OptResendIgmp => (11, 'e', 'p')
    case OptLacpRate => (9, 'a', 'e')
    case OptActiveSlave => (12, 'c', 'e')
    case OptAdActorSysPrio => (17, 'd', 'o')
    case OptAdActorSystem => (15, 'd', 'm')
    case OptAdUserPortKey => (16, 'd', 'y')
    case OptAllSlavesActive => (17, 'l', 'e')
    case OptArpAllTargets => (15, 'r', 's')
    case OptMinLinks => (9, 'i', 's')
    case OptNumGratArp => (12, 'u', 'p')
    case OptNumUnsolNa => (12, 'u', 'a')
    case OptPacketsPerSlave => (17, 'a', 'e')
    case OptTlbDynamicLb => (14, 'l', 'b')
    case OptLpInterval => (11, 'p', 'l')
  }

  lemma LooksAre(id: OptionId)
    ensures |OptionName(id)| >= 2 && Look(OptionName(id)) == LookOf(id)
  {
  }

  lemma LooksDiffer(a: OptionId, b: OptionId)
    ensures LookOf(a) == LookOf(b) ==> a == b
  {
  }

  lemma NamesAreUnique(a: OptionId, b: OptionId)
    ensures OptionName(a) == OptionName(b) ==> a == b
  {
    hide OptionName, LookOf;
    LooksAre(a);
    LooksAre(b);
    LooksDiffer(a, b);
  }

  /** The row of the table for an option name. */
  function Table(name: bytes): (e: Option<Entry>)
    ensures e.Some? <==> exists id :: OptionName(id) == name
    ensures forall id :: OptionName(id) == name ==> e == Some(Row(id))
  {
    if exists id :: OptionName(id) == name then
      assert forall a, b :: OptionName(a) == name && OptionName(b) == name ==> a == b by {
        hide OptionName;
        forall a, b ensures OptionName(a) == name && OptionName(b) == name ==> a == b { NamesAreUnique(a, b); }
      }
      var id :| OptionName(id) == name;
      Some(Row(id))
    else None
  }

  predicate ValidNumber(value: bytes, min: int, max: int) {
    AllDigits(value) && StrToInt64(value, min, max).Some?
  }

  /** g_strsplit at commas; "a," has an empty last word. */
  function Words(s: bytes): (w: seq<bytes>)
    ensures w != []
  {
    if s == [] then [[]]
    else
      var rest := Words(s[1..]);
      if s[0] == ',' then [[]] + rest else [[s[0]] + rest[0]] + rest[1..]
  }

  function JoinWords(w: seq<bytes>): bytes
    requires w != []
  {
    if |w| == 1 then w[0] else w[0] + "," + JoinWords(w[1..])
  }

  /** The words are what stands between the commas. */
  lemma {:induction false} WordsMeans(s: bytes)
    ensures JoinWords(Words(s)) == s
    ensures forall i :: 0 <= i < |Words(s)| ==> ',' !in Words(s)[i]
  {
    if s != [] {
      var w, rest := Words(s), Words(s[1..]);
      WordsMeans(s[1..]);
      assert s == [s[0]] + s[1..];
      if s[0] == ',' {
        assert w[1..] == rest;
      } else if |rest| > 1 {
        assert w[1..] == rest[1..];
        assert ([s[0]] + rest[0]) + "," + JoinWords(rest[1..]) == [s[0]] + (rest[0] + "," + JoinWords(rest[1..]));
      }
    }
  }

  predicate ValidIpList(c: Checks, value: bytes) {
    value != [] && forall i :: 0 <= i < |Words(value)| ==> c.ip4(Words(value)[i])
  }

  /** nm_setting_bond_validate_option with a value; without one, the name need only be in the table. */
  predicate ValidOption(c: Checks, name: bytes, value: bytes) {
    var e := Table(name);
    e.Some? &&
    match e.value.kind
    case Number(min, max) => ValidNumber(value, min, max)
    case Both(min, max, list) => ValidNumber(value, min, max) || value in list
    case IpList => ValidIpList(c, value)
    case MacAddress => c.mac(value)
    case InterfaceName => value != [] && c.ifname(value)
  }

  predicate KnownOption(name: bytes) {
    Table(name).Some?
  }

  predicate NamesOk(o: Dict) {
    forall k :: k in o ==> KnownOption(k)
  }

  predicate OptionsOk(c: Checks, o: Dict) {
    forall k :: k in o ==> o[k] != [] && ValidOption(c, k, o[k])
  }

  lemma FirstNames()
    ensures NUL !in "mode" && NUL !in "miimon" && NUL !in "downdelay" && NUL !in "updelay"
    ensures NUL !in "arp_interval" && NUL !in "arp_ip_target" && NUL !in "arp_validate"
  {
  }

  lemma SecondNames()
    ensures NUL !in "primary" && NUL !in "primary_reselect" && NUL !in "fail_over_mac" && NUL !in "use_carrier"
    ensures NUL !in "ad_select" && NUL !in "xmit_hash_policy"
  {
  }

  lemma ThirdNames()
    ensures NUL !in "resend_igmp" && NUL !in "lacp_rate" && NUL !in "active_slave" && NUL !in "ad_actor_sys_prio"
    ensures NUL !in "ad_actor_system" && NUL !in "ad_user_port_key" && NUL !in "all_slaves_active"
  {
  }

  lemma LastNames()
    ensures NUL !in "arp_all_targets" && NUL !in "min_links" && NUL !in "num_grat_arp" && NUL !in "num_unsol_na"
    ensures NUL !in "packets_per_slave" && NUL !in "tlb_dynamic_lb" && NUL !in "lp_interval"
  {
  }

  /** The names of the table are C strings. */
  lemma KnownIsCString(name: bytes)
    requires KnownOption(name)
    ensures NoNul(name)
  {
    FirstNames();
    SecondNames();
    ThirdNames();
    LastNames();
    var id :| OptionName(id) == name;
    assert NUL !in OptionName(id);
  }

  /** What the proofs need of the table. */
  lemma TableFacts(c: Checks, value: bytes)
    ensures Table(MODE).Some? && Table(MODE).value.val == "balance-rr"
    ensures Table(ARP_INTERVAL).Some? && Table(ARP_INTERVAL).value.val == "0"
    ensures Table(ARP_IP_TARGET).Some? && Table(ARP_IP_TARGET).value.val == ""
    ensures ValidOption(c, MIIMON, value) <==> ValidNumber(value, 0, MAXINT)
    ensures ValidOption(c, ARP_INTERVAL, value) <==> ValidNumber(value, 0, MAXINT)
    ensures ValidOption(c, ARP_IP_TARGET, value) <==> ValidIpList(c, value)
    ensures !KnownOption("interface-name")
  {
    hide ValidNumber, ValidIpList, Table;
    assert OptionName(OptMode) == MODE && OptionName(OptArpInterval) == ARP_INTERVAL;
    assert OptionName(OptArpIpTarget) == ARP_IP_TARGET && OptionName(OptMiimon) == MIIMON;
    NotAnOption();
  }

  /** The names that verify, add_option and options_equal speak of are names of the table. */
  lemma NamesOfTable()
    ensures MODE == OptionName(OptMode) && MIIMON == OptionName(OptMiimon)
    ensures DOWNDELAY == OptionName(OptDowndelay) && UPDELAY == OptionName(OptUpdelay)
    ensures ARP_INTERVAL == OptionName(OptArpInterval) && ARP_IP_TARGET == OptionName(OptArpIpTarget)
    ensures PRIMARY == OptionName(OptPrimary) && LACP_RATE == OptionName(OptLacpRate)
    ensures ACTIVE_SLAVE == OptionName(OptActiveSlave) && FAIL_OVER_MAC == OptionName(OptFailOverMac)
    ensures AD_ACTOR_SYSTEM == OptionName(OptAdActorSystem)
    ensures NUM_GRAT_ARP == OptionName(OptNumGratArp) && NUM_UNSOL_NA == OptionName(OptNumUnsolNa)
  {
  }

  lemma NotAnOption()
    ensures !KnownOption("interface-name")
  {
    var name: bytes := "interface-name";
    forall id ensures OptionName(id) != name {
      LooksAre(id);
      assert Look(name) == (14, 'n', 'e');
    }
  }

  lemma ModeIsOption(c: Checks, m: Mode)
    ensures ValidOption(c, MODE, ModeName(m))
  {
    hide ValidNumber;
    assert OptionName(OptMode) == MODE;
    var list: seq<bytes> := Row(OptMode).kind.list;
    assert list[0] == "balance-rr" && list[1] == "active-backup" && list[2] == "balance-xor" && list[3] == "broadcast";
    assert list[4] == "802.3ad" && list[5] == "balance-tlb" && list[6] == "balance-alb";
  }

  /** A text of digits only with a value in the range. */
  predicate NumberIn(value: bytes, min: int, max: int) {
    value != [] && AllDigits(value) && min <= DecVal(value) <= max
  }

  lemma ValidNumberMeans(value: bytes, min: int, max: int)
    requires max <= INT64_MAX
    ensures ValidNumber(value, min, max) <==> NumberIn(value, min, max)
  {
    if value != [] && AllDigits(value) { StrToInt64Digits(value, min, max); }
  }

  /** Which numbers an option takes. */
  lemma NumericOptionsA(c: Checks, value: bytes)
    ensures ValidOption(c, "miimon", value) <==> NumberIn(value, 0, 0x7FFF_FFFF)
    ensures ValidOption(c, "downdelay", value) <==> NumberIn(value, 0, 0x7FFF_FFFF)
    ensures ValidOption(c, "updelay", value) <==> NumberIn(value, 0, 0x7FFF_FFFF)
    ensures ValidOption(c, "arp_interval", value) <==> NumberIn(value, 0, 0x7FFF_FFFF)
    ensures ValidOption(c, "use_carrier", value) <==> NumberIn(value, 0, 1)
  {
    hide ValidNumber, NumberIn, Table;
    ValidNumberMeans(value, 0, 1);
    ValidNumberMeans(value, 0, MAXINT);
    assert OptionName(OptMiimon) == "miimon";
    assert OptionName(OptDowndelay) == "downdelay";
    assert OptionName(OptUpdelay) == "updelay";
    assert OptionName(OptArpInterval) == "arp_interval";
    assert OptionName(OptUseCarrier) == "use_carrier";
  }

  /** Which numbers an option takes. */
  lemma NumericOptionsB(c: Checks, value: bytes)
    ensures ValidOption(c, "resend_igmp", value) <==> NumberIn(value, 0, 255)
    ensures ValidOption(c, "ad_actor_sys_prio", value) <==> NumberIn(value, 1, 65535)
    ensures ValidOption(c, "ad_user_port_key", value) <==> NumberIn(value, 0, 1023)
    ensures ValidOption(c, "all_slaves_active", value) <==> NumberIn(value, 0, 1)
    ensures ValidOption(c, "min_links", value) <==> NumberIn(value, 0, 0x7FFF_FFFF)
  {
    hide ValidNumber, NumberIn, Table;
    ValidNumberMeans(value, 0, 1);
    ValidNumberMeans(value, 0, 1023);
    ValidNumberMeans(value, 0, 255);
    ValidNumberMeans(value, 0, MAXINT);
    ValidNumberMeans(value, 1, 65535);
    assert OptionName(OptResendIgmp) == "resend_igmp";
    assert OptionName(OptAdActorSysPrio) == "ad_actor_sys_prio";
    assert OptionName(OptAdUserPortKey) == "ad_user_port_key";
    assert OptionName(OptAllSlavesActive) == "all_slaves_active";
    assert OptionName(OptMinLinks) == "min_links";
  }

  /** Which numbers an option takes. */
  lemma NumericOptionsC(c: Checks, value: bytes)
    ensures ValidOption(c, "num_grat_arp", value) <==> NumberIn(value, 0, 255)
    ensures ValidOption(c, "num_unsol_na", value) <==> NumberIn(value, 0, 255)
    ensures ValidOption(c, "packets_per_slave", value) <==> NumberIn(value, 0, 65535)
    ensures ValidOption(c, "tlb_dynamic_lb", value) <==> NumberIn(value, 0, 1)
    ensures ValidOption(c, "lp_interval", value) <==> NumberIn(value, 1, 0x7FFF_FFFF)
  {
    hide ValidNumber, NumberIn, Table;
    ValidNumberMeans(value, 0, 1);
    ValidNumberMeans(value, 0, 255);
    ValidNumberMeans(value, 0, 65535);
    ValidNumberMeans(value, 1, MAXINT);
    assert OptionName(OptNumGratArp) == "num_grat_arp";
    assert OptionName(OptNumUnsolNa) == "num_unsol_na";
    assert OptionName(OptPacketsPerSlave) == "packets_per_slave";
    assert OptionName(OptTlbDynamicLb) == "tlb_dynamic_lb";
    assert OptionName(OptLpInterval) == "lp_interval";
  }

  /** Which numbers and names an option takes. */
  lemma NamedOptionsA(c: Checks, value: bytes)
    ensures ValidOption(c, "mode", value) <==>
              NumberIn(value, 0, 6) || value in {"balance-rr", "active-backup", "balance-xor", "broadcast",
                                                 "802.3ad", "balance-tlb", "balance-alb"}
    ensures ValidOption(c, "arp_validate", value) <==>
              NumberIn(value, 0, 6) || value in {"none", "active", "backup", "all",
                                                 "filter", "filter_active", "filter_backup"}
    ensures ValidOption(c, "primary_reselect", value) <==>
              NumberIn(value, 0, 2) || value in {"always", "better", "failure"}
  {
    hide ValidNumber, NumberIn, Table;
    ValidNumberMeans(value, 0, 2);
    ValidNumberMeans(value, 0, 6);
    assert OptionName(OptMode) == "mode";
    assert OptionName(OptArpValidate) == "arp_validate";
    assert OptionName(OptPrimaryReselect) == "primary_reselect";
  }

  /** Which numbers and names an option takes. */
  lemma NamedOptionsB(c: Checks, value: bytes)
    ensures ValidOption(c, "fail_over_mac", value) <==>
              NumberIn(value, 0, 2) || value in {"none", "active", "follow"}
    ensures ValidOption(c, "ad_select", value) <==>
              NumberIn(value, 0, 2) || value in {"stable", "bandwidth", "count"}
    ensures ValidOption(c, "xmit_hash_policy", value) <==>
              NumberIn(value, 0, 4) || value in {"layer2", "layer3+4", "layer2+3", "encap2+3", "encap3+4"}
  {
    hide ValidNumber, NumberIn, Table;
    ValidNumberMeans(value, 0, 2);
    ValidNumberMeans(value, 0, 4);
    assert OptionName(OptFailOverMac) == "fail_over_mac";
    assert OptionName(OptAdSelect) == "ad_select";
    assert OptionName(OptXmitHashPolicy) == "xmit_hash_policy";
  }

  /** Which numbers and names an option takes. */
  lemma NamedOptionsC(c: Checks, value: bytes)
    ensures ValidOption(c, "lacp_rate", value) <==>
              NumberIn(value, 0, 1) || value in {"slow", "fast"}
    ensures ValidOption(c, "arp_all_targets", value) <==>
              NumberIn(value, 0, 1) || value in {"any", "all"}
  {
    hide ValidNumber, NumberIn, Table;
    ValidNumberMeans(value, 0, 1);
    assert OptionName(OptLacpRate) == "lacp_rate";
    assert OptionName(OptArpAllTargets) == "arp_all_targets";
  }

  /** The options for addresses. */
  lemma AddressOptions(c: Checks, value: bytes)
    ensures ValidOption(c, "arp_ip_target", value) <==> (value != [] && forall w :: w in Words(value) ==> c.ip4(w))
    ensures ValidOption(c, "ad_actor_system", value) <==> c.mac(value)
  {
    hide Words, Table;
    assert OptionName(OptArpIpTarget) == "arp_ip_target";
    assert OptionName(OptAdActorSystem) == "ad_actor_system";
  }

  /** The options for interfaces. */
  lemma InterfaceOptions(c: Checks, value: bytes)
    ensures ValidOption(c, "primary", value) <==> value != [] && c.ifname(value)
    ensures ValidOption(c, "active_slave", value) <==> value != [] && c.ifname(value)
  {
    hide Words, Table;
    assert OptionName(OptPrimary) == "primary";
    assert OptionName(OptActiveSlave) == "active_slave";
  }

  // ---------------------------------------------------------------- what a mode supports

  predicate Supported(option: bytes, mode: Mode) {
    if option == "packets_per_slave" then mode == RoundRobin
    else if option == "arp_validate" || option == "arp_interval" || option == "arp_ip_target" then
      !(mode == Ad8023 || mode == Tlb || mode == Alb)
    else if option == "lacp_rate" then mode == Ad8023
    else if option == "primary" || option == "active_slave" then mode == ActiveBackup || mode == Tlb || mode == Alb
    else if option == "tlb_dynamic_lb" then mode == Tlb
    else if option == "ad_actor_sys_prio" || option == "ad_actor_system" || option == "ad_user_port_key" then
      mode == Ad8023
    else true
  }

  /** The options that a mode does not support, mode by mode. */
  function Unsupported(mode: Mode): set<bytes> {
    var arp: set<bytes> := {"arp_validate", "arp_interval", "arp_ip_target"};
    var lacp: set<bytes> := {"lacp_rate", "ad_actor_sys_prio", "ad_actor_system", "ad_user_port_key"};
    var slave: set<bytes> := {"primary", "active_slave"};
    match mode
    case RoundRobin => lacp + slave + {"tlb_dynamic_lb"}
    case ActiveBackup => lacp + {"tlb_dynamic_lb", "packets_per_slave"}
    case Xor => lacp + slave + {"tlb_dynamic_lb", "packets_per_slave"}
    case Broadcast => lacp + slave + {"tlb_dynamic_lb", "packets_per_slave"}
    case Ad8023 => arp + slave + {"tlb_dynamic_lb", "packets_per_slave"}
    case Tlb => lacp + arp + {"packets_per_slave"}
    case Alb => lacp + arp + {"tlb_dynamic_lb", "packets_per_slave"}
  }

  lemma SupportedByMode(option: bytes, mode: Mode)
    ensures !Supported(option, mode) <==> option in Unsupported(mode)
  {
  }

  /** Only options of the table are ever unsupported. */
  lemma UnsupportedIsKnown(option: bytes, mode: Mode)
    ensures !Supported(option, mode) ==> KnownOption(option)
  {
    hide Table, OptionName;
    UnsupportedNames();
    MoreUnsupportedNames();
  }

  lemma UnsupportedNames()
    ensures OptionName(OptPacketsPerSlave) == "packets_per_slave" && OptionName(OptArpValidate) == "arp_validate"
    ensures OptionName(OptArpInterval) == "arp_interval" && OptionName(OptArpIpTarget) == "arp_ip_target"
    ensures OptionName(OptLacpRate) == "lacp_rate"
  {
  }

  lemma MoreUnsupportedNames()
    ensures OptionName(OptPrimary) == "primary" && OptionName(OptActiveSlave) == "active_slave"
    ensures OptionName(OptTlbDynamicLb) == "tlb_dynamic_lb" && OptionName(OptAdActorSysPrio) == "ad_actor_sys_prio"
    ensures OptionName(OptAdActorSystem) == "ad_actor_system" && OptionName(OptAdUserPortKey) == "ad_user_port_key"
  {
  }

  lemma SupportedFacts(mode: Mode)
    ensures Supported(MODE, mode) && Supported(MIIMON, mode) && Supported(UPDELAY, mode) && Supported(DOWNDELAY, mode)
    ensures Supported(NUM_GRAT_ARP, mode) && Supported(NUM_UNSOL_NA, mode)
    ensures Supported(ARP_INTERVAL, mode) <==> Supported(ARP_IP_TARGET, mode)
    ensures Supported(LACP_RATE, mode) <==> mode == Ad8023
  {
  }

  // ---------------------------------------------------------------- verify

  /** atoi on a text that was validated as a number. */
  function Atoi(s: bytes): int {
    if AllDigits(s) then DecVal(s) else 0
  }

  function Num(o: Dict, name: bytes, missing: int): int {
    if name in o then Atoi(o[name]) else missing
  }

  /** The surroundings of the bond: whether the connection has an infiniband setting, and whether its
      interface name will do. */
  datatype Context = Context(infiniband: bool, interfaceOk: bool)

  function Verify(c: Checks, ctx: Context, o: Dict): Severity {
    if !OptionsOk(c, o) then Error
    else
      var miimon := Num(o, MIIMON, 0);
      var arpInterval := Num(o, ARP_INTERVAL, 0);
      var gratArp := Num(o, NUM_GRAT_ARP, -1);
      var unsolNa := Num(o, NUM_UNSOL_NA, -1);
      if miimon > 0 && arpInterval > 0 then Error
      else if MODE !in o then Error
      else if ModeOf(o[MODE]).None? then Error
      else
        var mode := ModeOf(o[MODE]).value;
        if (mode == Alb || mode == Tlb) && arpInterval > 0 then Error
        else if PRIMARY in o && !(mode == ActiveBackup && c.ifname(o[PRIMARY])) then Error
        else if ctx.infiniband && mode != ActiveBackup then Error
        else if miimon == 0 && (Num(o, UPDELAY, 0) > 0 || Num(o, DOWNDELAY, 0) > 0) then Error
        else if arpInterval > 0 && !(ARP_IP_TARGET in o && ValidIpList(c, o[ARP_IP_TARGET])) then Error
        else if arpInterval <= 0 && ARP_IP_TARGET in o then Error
        else if LACP_RATE in o && mode != Ad8023 && o[LACP_RATE] != "slow" && o[LACP_RATE] != "0" then Error
        else if gratArp != -1 && unsolNa != -1 && gratArp != unsolNa then Error
        else if !ctx.interfaceOk then Error
        else if o[MODE] != ModeName(mode) then Normalizable
        else if exists k :: k in o && k != MODE && !Supported(k, mode) then Normalizable
        else Success
  }

  /** What options must be like to be usable in a mode, without any order of checks. */
  predicate Coherent(ctx: Context, o: Dict, mode: Mode) {
    var miimon, arpInterval := Num(o, MIIMON, 0), Num(o, ARP_INTERVAL, 0);
    && (miimon == 0 || arpInterval == 0)
    && (ARP_IP_TARGET in o <==> arpInterval > 0)
    && (Num(o, UPDELAY, 0) > 0 || Num(o, DOWNDELAY, 0) > 0 ==> miimon > 0)
    && (mode == Tlb || mode == Alb ==> arpInterval == 0)
    && (PRIMARY in o || ctx.infiniband ==> mode == ActiveBackup)
    && (LACP_RATE in o ==> mode == Ad8023 || o[LACP_RATE] == "slow" || o[LACP_RATE] == "0")
    && (NUM_GRAT_ARP in o && NUM_UNSOL_NA in o ==> Atoi(o[NUM_GRAT_ARP]) == Atoi(o[NUM_UNSOL_NA]))
    && ctx.interfaceOk
  }

  /** verify fails exactly when an option is invalid, there is no mode, or the options are not coherent in
      it.  Its second look at the addresses and at the primary interface never finds anything new. */
  lemma VerifyMeans(c: Checks, ctx: Context, o: Dict)
    ensures Verify(c, ctx, o) != Error <==>
            && OptionsOk(c, o)
            && MODE in o && ModeOf(o[MODE]).Some? && Coherent(ctx, o, ModeOf(o[MODE]).value)
    ensures Verify(c, ctx, o) == Success <==>
            && Verify(c, ctx, o) != Error
            && ModeFromString(o[MODE]).Some?
            && forall k :: k in o ==> Supported(k, ModeOf(o[MODE]).value)
    ensures Verify(c, ctx, o) != NormalizableError
  {
    hide Supported, ModeOf, ModeFromString, ModeName, ValidIpList, ValidOption, Atoi, Table;
    TargetsAreValid(c, o);
    PrimaryIsValid(c, o);
    NumsNatural(o);
    if MODE in o && ModeOf(o[MODE]).Some? {
      NameOrNumber(o[MODE]);
      SupportedFacts(ModeOf(o[MODE]).value);
    }
  }

  lemma TargetsAreValid(c: Checks, o: Dict)
    ensures OptionsOk(c, o) && ARP_IP_TARGET in o ==> ValidIpList(c, o[ARP_IP_TARGET])
  {
    hide ValidIpList;
    if ARP_IP_TARGET in o { TableFacts(c, o[ARP_IP_TARGET]); }
  }

  lemma PrimaryIsValid(c: Checks, o: Dict)
    ensures OptionsOk(c, o) && PRIMARY in o ==> c.ifname(o[PRIMARY])
  {
    hide ValidOption;
    if OptionsOk(c, o) && PRIMARY in o {
      InterfaceOptions(c, o[PRIMARY]);
    }
  }

  lemma NumsNatural(o: Dict)
    ensures forall k :: Num(o, k, 0) >= 0
    ensures forall k :: k in o ==> Atoi(o[k]) >= 0
  {
  }

  lemma NameOrNumber(s: bytes)
    requires ModeOf(s).Some?
    ensures ModeFromString(s).Some? <==> s == ModeName(ModeOf(s).value)
  {
    hide ModeOf, ModeFromString, ModeName, ModeNumber;
    var m := ModeOf(s).value;
    ModeTexts(s, m);
    NamesDiffer();
    if ModeFromString(s).Some? { ModeTexts(s, ModeFromString(s).value); }
  }

  // ---------------------------------------------------------------- add, remove, normalise

  /** nm_setting_bond_add_option with its side effects; an invalid option changes nothing. */
  function AddOption(c: Checks, o: Dict, name: bytes, value: bytes): Dict {
    if !ValidOption(c, name, value) then o
    else if name == MIIMON && value != "0" then o[name := value] - {ARP_INTERVAL, ARP_IP_TARGET}
    else if name == ARP_INTERVAL && value != "0" then o[name := value] - {MIIMON, DOWNDELAY, UPDELAY}
    else o[name := value]
  }

  lemma NamesApart()
    ensures MODE != MIIMON && MODE != ARP_INTERVAL && MODE != ARP_IP_TARGET && MIIMON != ARP_INTERVAL
    ensures MIIMON != ARP_IP_TARGET && ARP_INTERVAL != ARP_IP_TARGET
    ensures UPDELAY != MODE && DOWNDELAY != MODE && UPDELAY != MIIMON && DOWNDELAY != MIIMON
    ensures NUM_GRAT_ARP != MODE && NUM_UNSOL_NA != MODE && LACP_RATE != MODE && PRIMARY != MODE
  {
    assert DOWNDELAY[0] == 'd' && UPDELAY[0] == 'u' && NUM_GRAT_ARP[0] == 'n';
  }

  /** nm_setting_bond_remove_option */
  function RemoveOption(o: Dict, name: bytes): Dict {
    if KnownOption(name) then o - {name} else o
  }

  /** What setting one option to a value drives out. */
  predicate DrivesOut(name: bytes, value: bytes, k: bytes) {
    value != "0" &&
    (|| (name == "miimon" && (k == "arp_interval" || k == "arp_ip_target"))
     || (name == "arp_interval" && (k == "miimon" || k == "downdelay" || k == "updelay")))
  }

  /** An invalid option changes nothing; a valid one has its value, what it drives out is gone, and all the
      rest is as before. */
  lemma AddOptionMeans(c: Checks, o: Dict, name: bytes, value: bytes)
    ensures var r := AddOption(c, o, name, value);
            if !ValidOption(c, name, value) then r == o
            else
              && name in r && r[name] == value
              && (forall k :: DrivesOut(name, value, k) ==> k !in r)
              && (forall k :: k != name && !DrivesOut(name, value, k) ==>
                    && (k in r <==> k in o) && (k in r ==> r[k] == o[k]))
  {
    hide ValidOption;
    NamesApart();
  }

  /** Both ways of watching the links are enabled. */
  predicate Conflict(o: Dict) {
    "miimon" in o && o["miimon"] != "0" && "arp_interval" in o && o["arp_interval"] != "0"
  }

  datatype Edit = Add(name: bytes, value: bytes) | Remove(name: bytes)

  function Edited(c: Checks, o: Dict, edits: seq<Edit>): Dict {
    if edits == [] then o
    else
      var before := Edited(c, o, edits[..|edits| - 1]);
      match edits[|edits| - 1]
      case Add(name, value) => AddOption(c, before, name, value)
      case Remove(name) => RemoveOption(before, name)
  }

  /** However options are added and removed, miimon and arp_interval are never both enabled, unless they were
      from the start. */
  lemma {:induction false} NeverBoth(c: Checks, o: Dict, edits: seq<Edit>)
    requires !Conflict(o)
    ensures !Conflict(Edited(c, o, edits))
  {
    hide ValidOption, KnownOption, AddOption;
    if edits != [] {
      var n := |edits| - 1;
      NeverBoth(c, o, edits[..n]);
      if edits[n].Add? {
        AddOptionMeans(c, Edited(c, o, edits[..n]), edits[n].name, edits[n].value);
        NamesApart();
      }
    }
  }

  function SupportedPart(o: Dict, mode: Mode): Dict {
    map k | k in o && Supported(k, mode) :: o[k]
  }

  function NormalizedMode(o: Dict): Dict {
    if MODE in o && ModeOf(o[MODE]).Some? then o[MODE := ModeName(ModeOf(o[MODE]).value)] else o
  }

  /** Mode normalisation, then option normalisation. */
  function Normalized(o: Dict): Dict {
    var o1 := NormalizedMode(o);
    if MODE in o1 && ModeFromString(o1[MODE]).Some? then SupportedPart(o1, ModeFromString(o1[MODE]).value) else o1
  }

  /** When verify does not fail for good, normalising keeps exactly the supported options and names the mode. */
  lemma NormalizedIs(c: Checks, ctx: Context, o: Dict)
    requires Rank(Verify(c, ctx, o)) <= Rank(Normalizable)
    ensures MODE in o && ModeOf(o[MODE]).Some?
    ensures var mode := ModeOf(o[MODE]).value;
            && Normalized(o).Keys == (set k | k in o && Supported(k, mode))
            && forall k :: k in Normalized(o) ==> Normalized(o)[k] == if k == MODE then ModeName(mode) else o[k]
  {
    hide Supported, ModeOf, ModeName, OptionsOk, ValidIpList;
    var mode := ModeOf(o[MODE]).value;
    ModeTexts(ModeName(mode), mode);
    SupportedFacts(mode);
  }

  lemma NormalizedOptionsOk(c: Checks, ctx: Context, o: Dict)
    requires Rank(Verify(c, ctx, o)) <= Rank(Normalizable)
    ensures OptionsOk(c, Normalized(o))
  {
    hide Supported, ModeOf, ModeName, ValidOption, Normalized;
    NormalizedIs(c, ctx, o);
    var mode := ModeOf(o[MODE]).value;
    ModeIsOption(c, mode);
    forall k | k in Normalized(o) ensures Normalized(o)[k] != [] && ValidOption(c, k, Normalized(o)[k]) {
      if k == MODE { ModeNameIsNotEmpty(mode); }
    }
  }

  lemma ModeNameIsNotEmpty(m: Mode)
    ensures ModeName(m) != []
  {
  }

  /** The numbers that verify looks at are untouched, except for what the mode does not support. */
  lemma NormalizedNumbers(c: Checks, ctx: Context, o: Dict)
    requires Rank(Verify(c, ctx, o)) <= Rank(Normalizable)
    ensures var o' := Normalized(o);
            var mode := ModeOf(o[MODE]).value;
            && MODE in o' && o'[MODE] == ModeName(mode)
            && (forall k, d :: k in {MIIMON, UPDELAY, DOWNDELAY, NUM_GRAT_ARP, NUM_UNSOL_NA} ==>
                  Num(o', k, d) == Num(o, k, d))
            && Num(o', ARP_INTERVAL, 0) == (if Supported(ARP_INTERVAL, mode) then Num(o, ARP_INTERVAL, 0) else 0)
            && (ARP_IP_TARGET in o' <==> ARP_IP_TARGET in o && Supported(ARP_INTERVAL, mode))
            && (ARP_IP_TARGET in o' ==> o'[ARP_IP_TARGET] == o[ARP_IP_TARGET])
            && (PRIMARY in o' ==> PRIMARY in o && o'[PRIMARY] == o[PRIMARY])
            && (LACP_RATE in o' ==> mode == Ad8023)
  {
    hide Supported, ModeOf, ModeName, Verify, Normalized, Atoi;
    NormalizedIs(c, ctx, o);
    SupportedFacts(ModeOf(o[MODE]).value);
    NamesApart();
  }

  /** After normalising, verify succeeds. */
  lemma NormalizedVerifies(c: Checks, ctx: Context, o: Dict)
    requires Rank(Verify(c, ctx, o)) <= Rank(Normalizable)
    ensures Verify(c, ctx, Normalized(o)) == Success
  {
    hide Supported, ModeOf, ModeName, OptionsOk, ValidIpList, Normalized, Num;
    NormalizedIs(c, ctx, o);
    NormalizedOptionsOk(c, ctx, o);
    NormalizedNumbers(c, ctx, o);
    var mode := ModeOf(o[MODE]).value;
    ModeTexts(ModeName(mode), mode);
    NumNatural(o, ARP_INTERVAL);
  }

  lemma NumNatural(o: Dict, k: bytes)
    ensures Num(o, k, 0) >= 0
  {
  }

  lemma SuccessIsNormal(c: Checks, ctx: Context, o: Dict)
    requires Rank(Verify(c, ctx, o)) <= Rank(Success)
    ensures Normalized(o) == o
  {
    hide Supported, ModeOf, ModeName, OptionsOk, ValidIpList, Normalized, Num;
    NormalizedIs(c, ctx, o);
    SupportedFacts(ModeOf(o[MODE]).value);
  }

  /** Short of a real error, verify asks for normalisation exactly when normalising changes something. */
  lemma NormalizableIfChanged(c: Checks, ctx: Context, o: Dict)
    requires Rank(Verify(c, ctx, o)) <= Rank(Normalizable)
    ensures Verify(c, ctx, o) == Normalizable <==> Normalized(o) != o
  {
    NormalizedVerifies(c, ctx, o);
    if Verify(c, ctx, o) == Success { SuccessIsNormal(c, ctx, o); }
  }

  lemma NormalizeTwice(c: Checks, ctx: Context, o: Dict)
    requires Rank(Verify(c, ctx, o)) <= Rank(Normalizable)
    ensures Normalized(Normalized(o)) == Normalized(o)
  {
    NormalizedVerifies(c, ctx, o);
    SuccessIsNormal(c, ctx, Normalized(o));
  }

  // ---------------------------------------------------------------- comparison

  /** nm_setting_bond_get_option_default for an option of the table. */
  function DefaultOf(o: Dict, name: bytes): Option<bytes> {
    if name == AD_ACTOR_SYSTEM then
      Some(if MODE in o && (o[MODE] == "4" || o[MODE] == "802.3ad") then "00:00:00:00:00:00" else "")
    else if Table(name).Some? then Some(Table(name).value.val)
    else None
  }

  /** The default of an option is that of its row. */
  lemma DefaultByRow(o: Dict, id: OptionId)
    requires id != OptAdActorSystem
    ensures DefaultOf(o, OptionName(id)) == Some(Row(id).val)
  {
    hide Table, OptionName;
    assert OptionName(OptAdActorSystem) == AD_ACTOR_SYSTEM by { ActorSystemName(); }
    NamesAreUnique(id, OptAdActorSystem);
  }

  lemma ActorSystemName()
    ensures OptionName(OptAdActorSystem) == AD_ACTOR_SYSTEM
  {
  }

  /** The defaults of some options, by name. */
  lemma DefaultsA(o: Dict)
    ensures DefaultOf(o, "mode") == Some("balance-rr")
    ensures DefaultOf(o, "miimon") == Some("100")
    ensures DefaultOf(o, "downdelay") == Some("0")
    ensures DefaultOf(o, "updelay") == Some("0")
  {
    hide DefaultOf, Table;
    DefaultByRow(o, OptMode);
    DefaultByRow(o, OptMiimon);
    DefaultByRow(o, OptDowndelay);
    DefaultByRow(o, OptUpdelay);
    assert OptionName(OptMode) == "mode";
    assert OptionName(OptMiimon) == "miimon";
    assert OptionName(OptDowndelay) == "downdelay";
    assert OptionName(OptUpdelay) == "updelay";
  }

  /** The defaults of some options, by name. */
  lemma DefaultsB(o: Dict)
    ensures DefaultOf(o, "arp_interval") == Some("0")
    ensures DefaultOf(o, "arp_ip_target") == Some("")
    ensures DefaultOf(o, "arp_validate") == Some("none")
    ensures DefaultOf(o, "primary") == Some("")
  {
    hide DefaultOf, Table;
    DefaultByRow(o, OptArpInterval);
    DefaultByRow(o, OptArpIpTarget);
    DefaultByRow(o, OptArpValidate);
    DefaultByRow(o, OptPrimary);
    assert OptionName(OptArpInterval) == "arp_interval";
    assert OptionName(OptArpIpTarget) == "arp_ip_target";
    assert OptionName(OptArpValidate) == "arp_validate";
    assert OptionName(OptPrimary) == "primary";
  }

  /** The defaults of some options, by name. */
  lemma DefaultsC(o: Dict)
    ensures DefaultOf(o, "primary_reselect") == Some("always")
    ensures DefaultOf(o, "fail_over_mac") == Some("none")
    ensures DefaultOf(o, "use_carrier") == Some("1")
    ensures DefaultOf(o, "ad_select") == Some("stable")
  {
    hide DefaultOf, Table;
    DefaultByRow(o, OptPrimaryReselect);
    DefaultByRow(o, OptFailOverMac);
    DefaultByRow(o, OptUseCarrier);
    DefaultByRow(o, OptAdSelect);
    assert OptionName(OptPrimaryReselect) == "primary_reselect";
    assert OptionName(OptFailOverMac) == "fail_over_mac";
    assert OptionName(OptUseCarrier) == "use_carrier";
    assert OptionName(OptAdSelect) == "ad_select";
  }

  /** The defaults of some options, by name. */
  lemma DefaultsD(o: Dict)
    ensures DefaultOf(o, "xmit_hash_policy") == Some("layer2")
    ensures DefaultOf(o, "resend_igmp") == Some("1")
    ensures DefaultOf(o, "lacp_rate") == Some("slow")
    ensures DefaultOf(o, "active_slave") == Some("")
  {
    hide DefaultOf, Table;
    DefaultByRow(o, OptXmitHashPolicy);
    DefaultByRow(o, OptResendIgmp);
    DefaultByRow(o, OptLacpRate);
    DefaultByRow(o, OptActiveSlave);
    assert OptionName(OptXmitHashPolicy) == "xmit_hash_policy";
    assert OptionName(OptResendIgmp) == "resend_igmp";
    assert OptionName(OptLacpRate) == "lacp_rate";
    assert OptionName(OptActiveSlave) == "active_slave";
  }

  /** The defaults of some options, by name. */
  lemma DefaultsE(o: Dict)
    ensures DefaultOf(o, "ad_actor_sys_prio") == Some("65535")
    ensures DefaultOf(o, "ad_user_port_key") == Some("0")
    ensures DefaultOf(o, "all_slaves_active") == Some("0")
    ensures DefaultOf(o, "arp_all_targets") == Some("any")
  {
    hide DefaultOf, Table;
    DefaultByRow(o, OptAdActorSysPrio);
    DefaultByRow(o, OptAdUserPortKey);
    DefaultByRow(o, OptAllSlavesActive);
    DefaultByRow(o, OptArpAllTargets);
    assert OptionName(OptAdActorSysPrio) == "ad_actor_sys_prio";
    assert OptionName(OptAdUserPortKey) == "ad_user_port_key";
    assert OptionName(OptAllSlavesActive) == "all_slaves_active";
    assert OptionName(OptArpAllTargets) == "arp_all_targets";
  }

  /** The defaults of some options, by name. */
  lemma DefaultsF(o: Dict)
    ensures DefaultOf(o, "min_links") == Some("0")
    ensures DefaultOf(o, "num_grat_arp") == Some("1")
    ensures DefaultOf(o, "num_unsol_na") == Some("1")
  {
    hide DefaultOf, Table;
    DefaultByRow(o, OptMinLinks);
    DefaultByRow(o, OptNumGratArp);
    DefaultByRow(o, OptNumUnsolNa);
    assert OptionName(OptMinLinks) == "min_links";
    assert OptionName(OptNumGratArp) == "num_grat_arp";
    assert OptionName(OptNumUnsolNa) == "num_unsol_na";
  }

  /** The defaults of some options, by name. */
  lemma DefaultsG(o: Dict)
    ensures DefaultOf(o, "packets_per_slave") == Some("1")
    ensures DefaultOf(o, "tlb_dynamic_lb") == Some("1")
    ensures DefaultOf(o, "lp_interval") == Some("1")
  {
    hide DefaultOf, Table;
    DefaultByRow(o, OptPacketsPerSlave);
    DefaultByRow(o, OptTlbDynamicLb);
    DefaultByRow(o, OptLpInterval);
    assert OptionName(OptPacketsPerSlave) == "packets_per_slave";
    assert OptionName(OptTlbDynamicLb) == "tlb_dynamic_lb";
    assert OptionName(OptLpInterval) == "lp_interval";
  }

  /** The default of ad_actor_system depends on the mode. */
  lemma DefaultActorSystem(o: Dict)
    ensures DefaultOf(o, "ad_actor_system") ==
            Some(if MODE in o && ModeOf(o[MODE]) == Some(Ad8023) then "00:00:00:00:00:00" else "")
  {
    if MODE in o { ModeTexts(o[MODE], Ad8023); }
  }

  function Counterpart(name: bytes): Option<bytes> {
    if name == NUM_GRAT_ARP then Some(NUM_UNSOL_NA)
    else if name == NUM_UNSOL_NA then Some(NUM_GRAT_ARP)
    else None
  }

  /** What an option counts as in a set of options where it may be missing. */
  function Effective(o: Dict, name: bytes): Option<bytes> {
    var other := Counterpart(name);
    if name in o then Some(o[name])
    else if other.Some? && other.value in o then Some(o[other.value])
    else DefaultOf(o, name)
  }

  predicate EqualAsym(a: Dict, b: Dict, inferrable: bool)
    requires NamesOk(a)
  {
    forall k :: k in a ==> (inferrable && (k == FAIL_OVER_MAC || k == ACTIVE_SLAVE)) || Effective(b, k) == Some(a[k])
  }

  predicate OptionsEqual(a: Dict, b: Dict, inferrable: bool)
    requires NamesOk(a) && NamesOk(b)
  {
    EqualAsym(a, b, inferrable) && EqualAsym(b, a, inferrable)
  }

  predicate Overlooked(k: bytes, inferrable: bool) {
    inferrable && (k == "fail_over_mac" || k == "active_slave")
  }

  /** One more option makes no difference exactly if it has its default, or, for the two names of one number, the
      value under the other name; or if it is one that is overlooked. */
  lemma OneMoreOption(o: Dict, k: bytes, v: bytes, inferrable: bool)
    requires NamesOk(o) && KnownOption(k) && k !in o
    ensures NamesOk(o[k := v])
    ensures OptionsEqual(o, o[k := v], inferrable) <==>
            || Overlooked(k, inferrable)
            || Some(v) == if k == "num_grat_arp" && "num_unsol_na" in o then Some(o["num_unsol_na"])
                          else if k == "num_unsol_na" && "num_grat_arp" in o then Some(o["num_grat_arp"])
                          else DefaultOf(o, k)
  {
    hide DefaultOf, KnownOption;
    var p := o[k := v];
    assert EqualAsym(o, p, inferrable);
    assert EqualAsym(p, o, inferrable) <==> Overlooked(k, inferrable) || Effective(o, k) == Some(v) by {
      assert forall j :: j in p <==> j == k || j in o;
      assert forall j :: j in o ==> p[j] == o[j] && Effective(o, j) == Some(o[j]);
      assert k in p && p[k] == v;
    }
  }

  /** Options that both have count as they are. */
  lemma CommonOptions(a: Dict, b: Dict, inferrable: bool)
    requires NamesOk(a) && NamesOk(b) && a.Keys == b.Keys
    ensures OptionsEqual(a, b, inferrable) <==> forall k :: k in a && !Overlooked(k, inferrable) ==> a[k] == b[k]
  {
    hide DefaultOf, KnownOption;
    forall k | k in a ensures k in b && Effective(b, k) == Some(b[k]) && Effective(a, k) == Some(a[k]) {
      assert k in a.Keys;
    }
    forall k | k in b ensures k in a {
      assert k in b.Keys;
    }
  }
}
