/** A connection profile: verification as a whole and the normalisation of its IP settings. */
module Connections {
  import opened Options
  import opened Severities
  import opened Text

  // ---------------------------------------------------------------- the settings of a connection

  /** NMSettingConnection; the type may be missing. */
  datatype Con = Con(typ: Option<bytes>, master: Option<bytes>)

  /** NMSettingIPConfig. The token and its address mode exist for IPv6 only. */
  datatype Ip = Ip(meth: Option<bytes>, gateway: Option<bytes>, neverDefault: bool, mayFail: bool,
                   addresses: seq<bytes>, token: Option<bytes>, eui64: bool)

  const NEW_IP := Ip(None, None, false, true, [], None, false)

  datatype Settings = Settings(con: Option<Con>, ip4: Option<Ip>, ip6: Option<Ip>, proxy: Option<bytes>,
                               others: map<bytes, bytes>)

  const NEW_PROXY: bytes := ""

  /** Which setting of the table. */
  datatype Name = ConName | Ip4Name | Ip6Name | ProxyName | OtherName(name: bytes)

  predicate Present(s: Settings, n: Name) {
    match n
    case ConName => s.con.Some?
    case Ip4Name => s.ip4.Some?
    case Ip6Name => s.ip6.Some?
    case ProxyName => s.proxy.Some?
    case OtherName(name) => name in s.others
  }

  function ConType(s: Settings): Option<bytes> {
    if s.con.Some? then s.con.value.typ else None
  }

  datatype Family = Inet | Inet6 | Unspec

  function Supports(s: Settings, family: Family): bool {
    if ConType(s).None? then true
    else
      var typ := ConType(s).value;
      if typ == "ovs-interface" then true
      else if typ == "wpan" then false
      else if typ == "6lowpan" then family == Inet6 || family == Unspec
      else s.con.value.master.None?
  }

  /** A connection has a layer-3 configuration exactly if it has one of the two families. */
  lemma LayerThree(s: Settings)
    ensures Supports(s, Unspec) <==> Supports(s, Inet) || Supports(s, Inet6)
    ensures Supports(s, Inet) ==> Supports(s, Inet6)
  {
  }

  // ---------------------------------------------------------------- how bad it is, whatever the order

  /** What the verify function of a setting reports, and whether it has set an error. */
  datatype Verdict = Verdict(severity: Severity, error: bool)

  /** Every complaint comes with an error, as the verify functions promise. */
  ghost predicate Reported(verdict: Name -> Verdict) {
    forall n :: verdict(n).severity in {Normalizable, NormalizableError} ==> verdict(n).error
  }

  ghost predicate Occurs(s: Settings, verdict: Name -> Verdict, severity: Severity) {
    exists n :: Present(s, n) && verdict(n).severity == severity
  }

  /** The maximum over the settings. */
  ghost function WorstSetting(s: Settings, verdict: Name -> Verdict): Severity {
    if Occurs(s, verdict, Error) then Error
    else if Occurs(s, verdict, NormalizableError) then NormalizableError
    else if Occurs(s, verdict, Normalizable) then Normalizable
    else Success
  }

  /** A setting that should be there may be added; one that should not be there is an error. */
  function PresenceOf(s: Settings, family: Family, present: bool): Severity {
    if Supports(s, family) then if present then Success else Normalizable
    else if present then NormalizableError
    else Success
  }

  function Presence(s: Settings): Severity {
    Max(PresenceOf(s, Inet, s.ip4.Some?), Max(PresenceOf(s, Inet6, s.ip6.Some?), PresenceOf(s, Unspec, s.proxy.Some?)))
  }

  ghost function Worst(s: Settings, verdict: Name -> Verdict): Severity {
    if s.con.None? then Error
    else if WorstSetting(s, verdict) == Error then Error
    else Max(WorstSetting(s, verdict), Presence(s))
  }

  /** The worst is one that occurs, and nothing that occurs is worse. */
  lemma WorstSettingIsMaximum(s: Settings, verdict: Name -> Verdict)
    ensures forall n :: Present(s, n) ==> Rank(verdict(n).severity) <= Rank(WorstSetting(s, verdict))
    ensures WorstSetting(s, verdict) == Success || Occurs(s, verdict, WorstSetting(s, verdict))
  {
    forall n | Present(s, n) ensures Rank(verdict(n).severity) <= Rank(WorstSetting(s, verdict)) {
      assert Occurs(s, verdict, verdict(n).severity);
    }
  }

  // ---------------------------------------------------------------- the loop over the settings

  /** normalizable_error_type, and whether normalizable_error is set. */
  datatype Fold = Fold(typ: Severity, error: bool)

  function FoldStep(f: Fold, v: Verdict): Fold
    requires v.severity != Error
  {
    if v.severity == Success then f
    else
      var error := f.error && !(v.severity == NormalizableError && f.typ == Normalizable);
      if error then Fold(f.typ, true) else Fold(v.severity, v.error)
  }

  /** The state of the loop stays the maximum so far, with an error to show for it, exactly if the new
      complaint comes with an error or is not worse than what there is. */
  lemma FoldStepIsMax(f: Fold, v: Verdict)
    requires v.severity != Error && f.typ != Error && f.error == (f.typ != Success)
    ensures FoldStep(f, v) == Fold(Max(f.typ, v.severity), Max(f.typ, v.severity) != Success) <==>
            v.error || Rank(v.severity) <= Rank(f.typ)
  {
  }

  ghost predicate SeenWorst(typ: Severity, seen: seq<Name>, verdict: Name -> Verdict) {
    && (forall i :: 0 <= i < |seen| ==> Rank(verdict(seen[i]).severity) <= Rank(typ))
    && (typ != Success ==> exists i :: 0 <= i < |seen| && verdict(seen[i]).severity == typ)
  }

  lemma SeenStep(typ: Severity, seen: seq<Name>, verdict: Name -> Verdict, n: Name)
    requires SeenWorst(typ, seen, verdict)
    ensures SeenWorst(Max(typ, verdict(n).severity), seen + [n], verdict)
  {
    var more := seen + [n];
    var worst := Max(typ, verdict(n).severity);
    if worst == verdict(n).severity {
      assert verdict(more[|seen|]).severity == worst;
    } else {
      var i :| 0 <= i < |seen| && verdict(seen[i]).severity == typ;
      assert verdict(more[i]).severity == worst;
    }
  }

  lemma SeenAll(typ: Severity, seen: seq<Name>, verdict: Name -> Verdict, s: Settings)
    requires SeenWorst(typ, seen, verdict) && forall n :: n in seen <==> Present(s, n)
    ensures typ == WorstSetting(s, verdict)
  {
    WorstSettingIsMaximum(s, verdict);
    if typ != Success {
      var i :| 0 <= i < |seen| && verdict(seen[i]).severity == typ;
      assert seen[i] in seen;
      assert Rank(typ) <= Rank(WorstSetting(s, verdict));
    }
    if WorstSetting(s, verdict) != Success {
      var n :| Present(s, n) && verdict(n).severity == WorstSetting(s, verdict);
      assert n in seen;
    }
  }

  // ---------------------------------------------------------------- normalising the IP settings

  /** Canonical text of an IPv6 interface token, if the text is one. */
  datatype Tokens = Tokens(canon: bytes -> Option<bytes>)

  ghost predicate TokensOk(t: Tokens) {
    forall s :: t.canon(s).Some? ==> t.canon(t.canon(s).value) == t.canon(s)
  }

  function DropGateway(ip: Ip): Ip {
    if ip.gateway.Some? && ip.neverDefault then ip.(gateway := None) else ip
  }

  function NormalizedIp4(ip: Ip): Ip {
    var a := DropGateway(ip);
    var b := if a.meth == Some("disabled") then a.(mayFail := true) else a;
    if |b.addresses| > 1 && b.meth == Some("shared") then b.(addresses := b.addresses[..1]) else b
  }

  function NormalizedToken(t: Tokens, ip: Ip): Ip {
    if ip.token.Some? && ip.eui64 && t.canon(ip.token.value).Some? then ip.(token := t.canon(ip.token.value)) else ip
  }

  function NormalizedIp6(t: Tokens, ip: Ip): Ip {
    var a := DropGateway(NormalizedToken(t, ip));
    if a.meth == Some("ignore") || a.meth == Some("disabled") then a.(mayFail := true) else a
  }

  /** What an absent IP setting is made of. */
  function Default4(s: Settings): Ip {
    NEW_IP.(meth := Some(if ConType(s) == Some("wireguard") then "disabled" else "auto"))
  }

  function Default6(s: Settings, param: Option<bytes>): Ip {
    NEW_IP.(meth := if param.Some? then param
                    else Some(if ConType(s) == Some("wireguard") then "ignore" else "auto"))
  }

  function Ip4After(s: Settings): Option<Ip> {
    if !Supports(s, Inet) then None else Some(if s.ip4.Some? then NormalizedIp4(s.ip4.value) else Default4(s))
  }

  function Ip6After(t: Tokens, param: Option<bytes>, s: Settings): Option<Ip> {
    if !Supports(s, Inet6) then None
    else Some(if s.ip6.Some? then NormalizedIp6(t, s.ip6.value) else Default6(s, param))
  }

  function ProxyAfter(s: Settings): Option<bytes> {
    if !Supports(s, Unspec) then None else if s.proxy.Some? then s.proxy else Some(NEW_PROXY)
  }

  function NormalizedIpConfig(t: Tokens, param: Option<bytes>, s: Settings): Settings {
    s.(ip4 := Ip4After(s), ip6 := Ip6After(t, param, s), proxy := ProxyAfter(s))
  }

  /** What normalised IP settings are like. */
  predicate TidyGateway(ip: Ip) {
    ip.gateway.Some? ==> !ip.neverDefault
  }

  predicate Tidy4(ip: Ip) {
    && TidyGateway(ip)
    && (ip.meth == Some("disabled") ==> ip.mayFail)
    && (ip.meth == Some("shared") ==> |ip.addresses| <= 1)
  }

  predicate Tidy6(t: Tokens, ip: Ip) {
    && TidyGateway(ip)
    && (ip.meth == Some("ignore") || ip.meth == Some("disabled") ==> ip.mayFail)
    && (ip.token.Some? && ip.eui64 ==> t.canon(ip.token.value).None? || t.canon(ip.token.value) == ip.token)
  }

  /** Normalising makes settings tidy, leaves tidy ones alone, and touches nothing but what is untidy. */
  lemma Normalized4Means(ip: Ip)
    ensures var n := NormalizedIp4(ip);
            && Tidy4(n) && (n == ip <==> Tidy4(ip))
            && n == ip.(gateway := n.gateway, mayFail := n.mayFail, addresses := n.addresses)
            && (n.gateway != ip.gateway ==> ip.neverDefault)
            && (n.mayFail != ip.mayFail ==> ip.meth == Some("disabled"))
            && (n.addresses != ip.addresses ==> ip.meth == Some("shared") && n.addresses == [ip.addresses[0]])
  {
  }

  lemma Normalized6Means(t: Tokens, ip: Ip)
    requires TokensOk(t)
    ensures var n := NormalizedIp6(t, ip);
            && Tidy6(t, n) && (n == ip <==> Tidy6(t, ip))
            && n == ip.(gateway := n.gateway, mayFail := n.mayFail, token := n.token)
            && (n.gateway != ip.gateway ==> ip.neverDefault)
            && (n.mayFail != ip.mayFail ==> ip.meth == Some("ignore") || ip.meth == Some("disabled"))
            && (n.token != ip.token ==> ip.eui64)
  {
  }

  lemma Idempotent(t: Tokens, ip: Ip)
    requires TokensOk(t)
    ensures NormalizedIp4(NormalizedIp4(ip)) == NormalizedIp4(ip)
    ensures NormalizedIp6(t, NormalizedIp6(t, ip)) == NormalizedIp6(t, ip)
  {
    hide NormalizedIp4, NormalizedIp6, Tidy4, Tidy6;
    Normalized4Means(ip);
    Normalized4Means(NormalizedIp4(ip));
    Normalized6Means(t, ip);
    Normalized6Means(t, NormalizedIp6(t, ip));
  }

  /** Normalising again, even with another preferred method, finds nothing to do. */
  lemma NormalizeIpTwice(t: Tokens, param: Option<bytes>, param2: Option<bytes>, s: Settings)
    requires TokensOk(t)
    ensures var s' := NormalizedIpConfig(t, param, s); NormalizedIpConfig(t, param2, s') == s'
  {
    hide NormalizedIp4, NormalizedIp6;
    if s.ip4.Some? { Idempotent(t, s.ip4.value); }
    if s.ip6.Some? { Idempotent(t, s.ip6.value); }
    DefaultsNormal(t, param, s);
    SameSupport(t, param, s);
  }

  lemma DefaultsNormal(t: Tokens, param: Option<bytes>, s: Settings)
    ensures NormalizedIp4(Default4(s)) == Default4(s)
    ensures NormalizedIp6(t, Default6(s, param)) == Default6(s, param)
  {
  }

  lemma SameSupport(t: Tokens, param: Option<bytes>, s: Settings)
    ensures forall f :: Supports(NormalizedIpConfig(t, param, s), f) == Supports(s, f)
  {
  }

  /** After normalising, the presence checks have nothing to say, so verify reports the worst setting. */
  lemma NormalizedPresence(t: Tokens, param: Option<bytes>, s: Settings, verdict: Name -> Verdict)
    ensures Presence(NormalizedIpConfig(t, param, s)) == Success
    ensures var s' := NormalizedIpConfig(t, param, s);
            s.con.Some? ==> Worst(s', verdict) == WorstSetting(s', verdict)
  {
    hide Supports;
    SameSupport(t, param, s);
  }

  /** In turn, whenever the presence checks complain, normalising changes something. */
  lemma PresenceNeedsChange(t: Tokens, param: Option<bytes>, s: Settings)
    ensures Presence(s) != Success ==> NormalizedIpConfig(t, param, s) != s
  {
    hide Supports;
    NormalizedPresence(t, param, s, _ => Verdict(Success, false));
  }

  // ---------------------------------------------------------------- type by type

  lemma TypesDiffer()
    ensures "ovs-interface" != "wpan" && "ovs-interface" != "6lowpan" && "wpan" != "6lowpan"
  {
  }

  /** Which of IPv4, IPv6 and proxy a connection of a type has after normalising: an ovs-interface has all, a
      wpan none, a 6lowpan no IPv4; any other has all or none, as it has no master or one. */
  lemma NormalizedByType(t: Tokens, param: Option<bytes>, s: Settings, typ: bytes, master: Option<bytes>)
    requires s.con == Some(Con(Some(typ), master))
    ensures var n := NormalizedIpConfig(t, param, s);
            && n.con == s.con && n.others == s.others
            && (typ == "ovs-interface" ==> n.ip4.Some? && n.ip6.Some? && n.proxy.Some?)
            && (typ == "wpan" ==> n.ip4.None? && n.ip6.None? && n.proxy.None?)
            && (typ == "6lowpan" ==> n.ip4.None? && n.ip6.Some? && n.proxy.Some?)
            && (typ !in {"ovs-interface", "wpan", "6lowpan"} ==>
                  && n.ip4.Some? == n.ip6.Some? == n.proxy.Some? == master.None?)
  {
    hide NormalizedIp4, NormalizedIp6;
    TypesDiffer();
  }

  /** The methods of settings that are added; settings that were there keep theirs. */
  lemma AddedMethods(t: Tokens, param: Option<bytes>, s: Settings)
    ensures var n := NormalizedIpConfig(t, param, s);
            var wireguard := s.con.Some? && s.con.value.typ == Some("wireguard");
            && (n.ip4.Some? ==> n.ip4.value.meth == if s.ip4.Some? then s.ip4.value.meth
                                                    else if wireguard then Some("disabled") else Some("auto"))
            && (n.ip6.Some? ==> n.ip6.value.meth == if s.ip6.Some? then s.ip6.value.meth
                                                    else if param.Some? then param
                                                    else if wireguard then Some("ignore") else Some("auto"))
            && (n.ip4.Some? && s.ip4.None? ==> n.ip4.value.mayFail && n.ip4.value.addresses == [])
            && (n.ip6.Some? && s.ip6.None? ==> n.ip6.value.mayFail && n.ip6.value.addresses == [])
            && (n.proxy.Some? ==> n.proxy == if s.proxy.Some? then s.proxy else Some(""))
  {
    hide Supports;
  }

  /** The same types, as the presence checks see them: a setting that is missing may be added, one that
      should not be there is an error, and anything else is all right. */
  lemma PresenceByType(s: Settings, typ: bytes, master: Option<bytes>)
    requires s.con == Some(Con(Some(typ), master))
    ensures var four := typ == "ovs-interface" || (typ !in {"wpan", "6lowpan"} && master.None?);
            var six := typ == "ovs-interface" || typ == "6lowpan" || (typ != "wpan" && master.None?);
            var superfluous := (!four && s.ip4.Some?) || (!six && (s.ip6.Some? || s.proxy.Some?));
            var missing := (four && s.ip4.None?) || (six && (s.ip6.None? || s.proxy.None?));
            Presence(s) == if superfluous then NormalizableError else if missing then Normalizable else Success
  {
    TypesDiffer();
  }

  // ---------------------------------------------------------------- as the program does it

  /** NMSettingIPConfig as an object */
  class IpSetting {
    var ip: Ip

    constructor (meth: Option<bytes>, mayFail: bool)
      ensures ip == NEW_IP.(meth := meth, mayFail := mayFail)
    {
      ip := NEW_IP.(meth := meth, mayFail := mayFail);
    }

    method RemoveAddress(idx: nat)
      requires idx < |ip.addresses|
      modifies this
      ensures ip == old(ip).(addresses := old(ip.addresses)[..idx] + old(ip.addresses)[idx + 1..])
    {
      ip := ip.(addresses := ip.addresses[..idx] + ip.addresses[idx + 1..]);
    }

    method NormalizeIp4() returns (changed: bool)
      modifies this
      ensures ip == NormalizedIp4(old(ip)) && changed == (ip != old(ip))
    {
      changed := false;
      if ip.gateway.Some? && ip.neverDefault {
        ip := ip.(gateway := None);
        changed := true;
      }
      if ip.meth == Some("disabled") && !ip.mayFail {
        ip := ip.(mayFail := true);
        changed := true;
      }
      var num := |ip.addresses|;
      if num > 1 && ip.meth == Some("shared") {
        ghost var before := ip;
        var i := num - 1;
        while i > 0
          invariant 0 <= i < num && ip == before.(addresses := before.addresses[..i + 1])
        {
          RemoveAddress(i);
          i := i - 1;
        }
        changed := true;
      }
    }

    method NormalizeIp6(t: Tokens) returns (changed: bool)
      modifies this
      ensures ip == NormalizedIp6(t, old(ip)) && changed == (ip != old(ip))
    {
      changed := false;
      if ip.token.Some? && ip.eui64 {
        var normalized := t.canon(ip.token.value);
        if normalized.Some? && normalized != ip.token {
          ip := ip.(token := normalized);
          changed := true;
        }
      }
      if ip.gateway.Some? && ip.neverDefault {
        ip := ip.(gateway := None);
        changed := true;
      }
      if (ip.meth == Some("ignore") || ip.meth == Some("disabled")) && !ip.mayFail {
        ip := ip.(mayFail := true);
        changed := true;
      }
    }
  }

  class Connection {
    var con: Option<Con>
    var ip4: IpSetting?
    var ip6: IpSetting?
    var proxy: Option<bytes>
    var others: map<bytes, bytes>

    ghost predicate Valid()
      reads this
    {
      ip4 == null || ip6 == null || ip4 != ip6
    }

    ghost function Repr(): set<object>
      reads this
    {
      {this} + (if ip4 != null then {ip4} else {}) + (if ip6 != null then {ip6} else {})
    }

    function State(): Settings
      reads this, ip4, ip6
    {
      Settings(con, if ip4 != null then Some(ip4.ip) else None, if ip6 != null then Some(ip6.ip) else None,
               proxy, others)
    }

    constructor (con: Option<Con>, others: map<bytes, bytes>)
      ensures Valid() && fresh(Repr()) && State() == Settings(con, None, None, None, others)
    {
      this.con, this.others, proxy, ip4, ip6 := con, others, None, null, null;
    }

    /** _nm_connection_verify, for any order in which the table is walked. */
    method Verify(order: seq<Name>, verdict: Name -> Verdict) returns (result: Severity)
      requires Reported(verdict) && forall n :: n in order <==> Present(State(), n)
      ensures result == Worst(State(), verdict)
    {
      hide Reported, WorstSetting, PresenceOf, Supports;
      if con.None? {
        return Error;
      }
      var all := ConnectionFirst(order);
      result := VerifySettings(all, State(), verdict);
      if result == Success || result == Normalizable {
        result := CheckPresence(result, Inet, ip4 != null);
        result := CheckPresence(result, Inet6, ip6 != null);
        result := CheckPresence(result, Unspec, proxy.Some?);
      } else {
        NotWorse(State(), result);
      }
    }

    method CheckPresence(typ: Severity, family: Family, present: bool) returns (result: Severity)
      requires typ != Error
      ensures result == Max(typ, PresenceOf(State(), family, present)) && result != Error
    {
      result := typ;
      if Supports(State(), family) {
        if !present && typ == Success {
          result := Normalizable;
        }
      } else if present {
        result := NormalizableError;
      }
    }

    method NormalizeInet() returns (changed: bool)
      requires Valid()
      modifies this`ip4, ip4
      ensures Valid() && (ip4 != old(ip4) && ip4 != null ==> fresh(ip4))
      ensures State() == old(State()).(ip4 := Ip4After(old(State()))) && changed == (State() != old(State()))
    {
      changed := false;
      if Supports(State(), Inet) {
        if ip4 == null {
          var meth := if ConType(State()) == Some("wireguard") then "disabled" else "auto";
          ip4 := new IpSetting(Some(meth), true);
          changed := true;
        } else {
          changed := ip4.NormalizeIp4();
        }
      } else if ip4 != null {
        ip4 := null;
        changed := true;
      }
    }

    method NormalizeInet6(t: Tokens, param: Option<bytes>) returns (changed: bool)
      requires Valid()
      modifies this`ip6, ip6
      ensures Valid() && (ip6 != old(ip6) && ip6 != null ==> fresh(ip6))
      ensures State() == old(State()).(ip6 := Ip6After(t, param, old(State()))) && changed == (State() != old(State()))
    {
      changed := false;
      if Supports(State(), Inet6) {
        if ip6 == null {
          var meth := param;
          if meth.None? {
            meth := Some(if ConType(State()) == Some("wireguard") then "ignore" else "auto");
          }
          ip6 := new IpSetting(meth, true);
          changed := true;
        } else {
          changed := ip6.NormalizeIp6(t);
        }
      } else if ip6 != null {
        ip6 := null;
        changed := true;
      }
    }

    method NormalizeProxy() returns (changed: bool)
      modifies this`proxy
      ensures State() == old(State()).(proxy := ProxyAfter(old(State()))) && changed == (State() != old(State()))
    {
      changed := false;
      if Supports(State(), Unspec) {
        if proxy.None? {
          proxy := Some(NEW_PROXY);
          changed := true;
        }
      } else if proxy.Some? {
        proxy := None;
        changed := true;
      }
    }

    /** _normalize_ip_config */
    method NormalizeIpConfig(t: Tokens, param: Option<bytes>) returns (changed: bool)
      requires Valid()
      modifies Repr()
      ensures Valid() && fresh(Repr() - old(Repr()))
      ensures State() == NormalizedIpConfig(t, param, old(State()))
      ensures changed == (State() != old(State()))
    {
      hide Supports, NormalizedIp4, NormalizedIp6, Default4, Default6;
      ghost var s0 := State();
      var c4 := NormalizeInet();
      ghost var s1 := State();
      SameCon(s0, s1);
      var c6 := NormalizeInet6(t, param);
      ghost var s2 := State();
      SameCon(s0, s2);
      var cp := NormalizeProxy();
      changed := c4 || c6 || cp;
    }
  }

  /** Everything in the decision about address families comes from the connection setting. */
  lemma SameCon(s: Settings, s': Settings)
    requires s'.con == s.con
    ensures forall f :: Supports(s', f) == Supports(s, f)
    ensures Default4(s') == Default4(s) && forall param :: Default6(s', param) == Default6(s, param)
  {
  }

  lemma NotWorse(s: Settings, worst: Severity)
    requires worst == NormalizableError || worst == Error
    ensures Max(worst, Presence(s)) == worst
  {
  }

  /** The verify functions of all settings, one after the other, until one fails for good. */
  method VerifySettings(all: seq<Name>, ghost s: Settings, verdict: Name -> Verdict) returns (typ: Severity)
    requires Reported(verdict) && forall n :: n in all <==> Present(s, n)
    ensures typ == WorstSetting(s, verdict)
  {
    hide WorstSetting, SeenWorst;
    var f := Fold(Success, false);
    NothingSeen(verdict);
    for i := 0 to |all|
      invariant f.typ != Error && f.error == (f.typ != Success)
      invariant SeenWorst(f.typ, all[..i], verdict)
    {
      var v := verdict(all[i]);
      SeenStep(f.typ, all[..i], verdict, all[i]);
      assert all[..i + 1] == all[..i] + [all[i]];
      if v.severity == Error {
        FatalSeen(all[i], all, s, verdict);
        return Error;
      }
      FoldStepIsMax(f, v);
      ghost var next := FoldStep(f, v);
      if v.severity == Normalizable || v.severity == NormalizableError {
        if v.severity == NormalizableError && f.typ == Normalizable {
          f := f.(error := false);
        }
        if !f.error {
          f := Fold(v.severity, v.error);
        }
      }
      assert f == next;
    }
    assert all[..|all|] == all;
    SeenAll(f.typ, all, verdict, s);
    typ := f.typ;
  }

  lemma NothingSeen(verdict: Name -> Verdict)
    ensures SeenWorst(Success, [], verdict)
  {
  }

  lemma FatalSeen(n: Name, all: seq<Name>, s: Settings, verdict: Name -> Verdict)
    requires n in all && (forall m :: m in all <==> Present(s, m)) && verdict(n).severity == Error
    ensures WorstSetting(s, verdict) == Error
  {
    assert Present(s, n);
  }

  /** The list of settings to verify: the connection setting goes to the front. */
  method ConnectionFirst(order: seq<Name>) returns (all: seq<Name>)
    ensures forall n :: n in all <==> n in order
    ensures ConName in order ==> all != [] && all[0] == ConName
  {
    var list: seq<Name> := [];
    for i := 0 to |order|
      invariant forall n :: n in list <==> n in order[..i]
      invariant ConName in order[..i] ==> list != [] && list[|list| - 1] == ConName
    {
      assert order[..i + 1] == order[..i] + [order[i]];
      list := if order[i] == ConName then list + [order[i]] else [order[i]] + list;
    }
    assert order[..|order|] == order;
    all := Reversed(list);
    ReversedMembers(list);
  }

  /** g_slist_reverse */
  function Reversed(list: seq<Name>): (r: seq<Name>)
    ensures |r| == |list| && (list != [] ==> r[0] == list[|list| - 1])
  {
    if list == [] then [] else [list[|list| - 1]] + Reversed(list[..|list| - 1])
  }

  lemma {:induction false} ReversedMembers(list: seq<Name>)
    ensures forall n :: n in Reversed(list) <==> n in list
  {
    if list != [] {
      ReversedMembers(list[..|list| - 1]);
      assert list == list[..|list| - 1] + [list[|list| - 1]];
    }
  }
}
