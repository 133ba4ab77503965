/** One address or route as text: how the keyfile writes it and how the reader takes it apart. */
module IpText {
  import opened Options
  import opened Text

  // ---------------------------------------------------------------- addresses and routes

  /** inet_pton followed by inet_ntop: the canonical text of a valid address of a family, None otherwise. */
  datatype Net = Net(canon: (bool, bytes) -> Option<bytes>)

  predicate IpChar(c: char) {
    IsHex(c) || c == ':' || c == '.' || c == '%'
  }

  const IP_ADDRESS_CHARS: bytes := "0123456789abcdefABCDEF:.%"

  lemma IpCharsAre(c: char)
    ensures IpChar(c) <==> c in IP_ADDRESS_CHARS
  {
  }

  function Any(v6: bool): bytes {
    if v6 then "::" else "0.0.0.0"
  }

  /** Canonical texts are their own canonical form, are not empty and are made of address characters. */
  ghost predicate NetOk(net: Net) {
    && (forall v6, s: bytes :: net.canon(v6, s).Some? ==> IsCanonical(net, v6, net.canon(v6, s).value))
    && (forall v6 :: IsCanonical(net, v6, Any(v6)))
  }

  predicate IsCanonical(net: Net, v6: bool, t: bytes) {
    net.canon(v6, t) == Some(t) && t != [] && forall i :: 0 <= i < |t| ==> IpChar(t[i])
  }

  const MAXUINT32: int := 0xFFFF_FFFF

  function MaxPrefix(v6: bool): nat {
    if v6 then 128 else 32
  }

  /** NMIPAddress and NMIPRoute; a metric of -1 is the default, attributes are kept as their text. */
  datatype Entry =
    | Address(addr: bytes, plen: nat)
    | Route(addr: bytes, plen: nat, nextHop: Option<bytes>, metric: int, attrs: Option<bytes>)

  /** canonicalize_ip with null_any: the unspecified address counts as none. */
  function CanonHop(net: Net, v6: bool, hop: Option<bytes>): Option<bytes> {
    if hop.None? then None
    else
      var t := net.canon(v6, hop.value);
      if t == Some(Any(v6)) then None else t
  }

  predicate HopOk(net: Net, v6: bool, hop: Option<bytes>) {
    hop.Some? ==> IsCanonical(net, v6, hop.value) && hop.value != Any(v6)
  }

  predicate EntryOk(net: Net, v6: bool, e: Entry) {
    && IsCanonical(net, v6, e.addr) && e.plen <= MaxPrefix(v6)
    && (e.Route? ==>
          HopOk(net, v6, e.nextHop) && -1 <= e.metric <= MAXUINT32 && (e.attrs.Some? ==> e.attrs.value != []))
  }

  // ---------------------------------------------------------------- writing

  function Metric(e: Entry): int {
    if e.Route? then e.metric else -1
  }

  function Gateway(e: Entry, gateway: Option<bytes>): Option<bytes> {
    if e.Route? then e.nextHop else gateway
  }

  /** The value that write_ip_values writes for one entry; gateway is that of the setting, for addresses. */
  function ValueText(v6: bool, e: Entry, gateway: Option<bytes>): bytes
    requires Metric(e) >= -1
  {
    var gw := Gateway(e, gateway);
    e.addr + "/" + Dec(e.plen)
    + if Metric(e) == -1 && gw.None? then []
      else "," + (if gw.Some? then gw.value else Any(v6)) + if Metric(e) == -1 then [] else "," + Dec(Metric(e))
  }

  // ---------------------------------------------------------------- read_field

  predicate Delimiter(c: char) {
    c == '/' || c == ';' || c == ','
  }

  const DELIMITERS: bytes := "/;,"

  lemma DelimitersAre(c: char)
    ensures Delimiter(c) <==> c in DELIMITERS
  {
  }

  predicate FieldChar(ip: bool, c: char) {
    if ip then IpChar(c) else IsDigit(c)
  }

  /** How many characters from cur on belong to the class. */
  function Span(s: bytes, cur: nat, ip: bool): (n: nat)
    requires cur <= |s|
    ensures cur + n <= |s| && (cur + n < |s| ==> !FieldChar(ip, s[cur + n]))
    ensures forall i :: cur <= i < cur + n ==> FieldChar(ip, s[i])
    decreases |s| - cur
  {
    if cur < |s| && FieldChar(ip, s[cur]) then 1 + Span(s, cur + 1, ip) else 0
  }

  /** field: the text read; next: where to go on, None at the end; bad: a wrong character was met. */
  datatype FieldRead = FieldRead(field: Option<bytes>, next: Option<nat>, bad: bool)

  function ReadField(s: bytes, cur: Option<nat>, ip: bool): (r: FieldRead)
    requires cur.Some? ==> cur.value <= |s|
    ensures r.next.Some? ==> cur.Some? && cur.value <= r.next.value <= |s|
  {
    if cur.None? || cur.value == |s| then FieldRead(None, cur, false)
    else
      var end := cur.value + Span(s, cur.value, ip);
      if end == |s| then FieldRead(Some(s[cur.value..]), None, false)
      else if Delimiter(s[end]) then FieldRead(Some(s[cur.value..end]), Some(end + 1), false)
      else FieldRead(None, cur, true)
  }

  // ---------------------------------------------------------------- read_one_ip_address_or_route

  function MetricField(value: bytes, cur: Option<nat>, route: bool): FieldRead
    requires cur.Some? ==> cur.value <= |value|
  {
    if route then ReadField(value, cur, false) else FieldRead(None, cur, false)
  }

  datatype Severity = Warn | Info

  /** What one value gives: an entry, perhaps a gateway, and whether the warning handler set an error. */
  datatype Outcome = Outcome(entry: Option<Entry>, gateway: Option<bytes>, error: bool)

  function Rejected(h: Severity -> bool): Outcome {
    Outcome(None, None, h(Warn))
  }

  function GetOneInt(str: bytes, max: int): Option<int> {
    if str == [] then None else StrToInt64(str, 0, max)
  }

  function DefaultPrefix(route: bool, v6: bool): nat {
    if !v6 then 24 else if route then 128 else 64
  }

  /** build_route, with the workaround for a metric in the place of an IPv6 gateway. */
  function BuildRoute(net: Net, h: Severity -> bool, v6: bool, dest: Option<bytes>, plen: nat,
                      gateway: Option<bytes>, metric: Option<bytes>): Outcome
  {
    if dest.None? then Outcome(None, None, false)
    else
      var hop := if gateway == Some([]) then None else gateway;
      var badHop := hop.Some? && net.canon(v6, hop.value).None?;
      var instead := if badHop && v6 && metric.None? then GetOneInt(hop.value, MAXUINT32) else None;
      if badHop && instead.None? then Rejected(h)
      else
        var m := if metric.Some? then GetOneInt(metric.value, MAXUINT32)
                 else if instead.Some? then instead else Some(-1);
        if m.None? || net.canon(v6, dest.value).None? then Rejected(h)
        else
          Outcome(Some(Route(net.canon(v6, dest.value).value, plen,
                             CanonHop(net, v6, if badHop then None else hop), m.value, None)), None, false)
  }

  function BuildAddress(net: Net, h: Severity -> bool, v6: bool, addr: Option<bytes>, plen: nat,
                        gateway: Option<bytes>): Outcome
  {
    if addr.None? then Outcome(None, None, false)
    else
      match net.canon(v6, addr.value)
      case None => Rejected(h)
      case Some(t) => Outcome(Some(Address(t, plen)), gateway, false)
  }

  function Finish(net: Net, h: Severity -> bool, v6: bool, route: bool, addr: Option<bytes>,
                  plenStr: Option<bytes>, gateway: Option<bytes>, metric: Option<bytes>): Outcome
  {
    var plen := if plenStr.Some? then GetOneInt(plenStr.value, MaxPrefix(v6)) else None;
    if plen.None? && h(Warn) then Outcome(None, None, true)
    else
      var n := if plen.Some? && plen.value >= 0 then plen.value else DefaultPrefix(route, v6);
      if route then BuildRoute(net, h, v6, addr, n, gateway, metric)
      else BuildAddress(net, h, v6, addr, n, gateway)
  }

  function ReadOne(net: Net, h: Severity -> bool, v6: bool, route: bool, value: bytes): Outcome {
    var a := ReadField(value, Some(0), true);
    if a.bad then Rejected(h)
    else
      var p := ReadField(value, a.next, false);
      var g := ReadField(value, p.next, true);
      if g.bad then Rejected(h)
      else
        var m := MetricField(value, g.next, route);
        if m.bad || (m.next.Some? && m.next.value < |value|) then Rejected(h)
        else if m.next.Some? && h(Info) then Outcome(None, None, true)
        else Finish(net, h, v6, route, a.field, p.field, g.field, m.field)
  }

  // ---------------------------------------------------------------- the formats

  lemma {:induction false} SpanIs(s: bytes, cur: nat, ip: bool, n: nat)
    requires cur + n <= |s| && forall i :: cur <= i < cur + n ==> FieldChar(ip, s[i])
    requires cur + n < |s| ==> !FieldChar(ip, s[cur + n])
    ensures Span(s, cur, ip) == n
    decreases n
  {
    if n > 0 { SpanIs(s, cur + 1, ip, n - 1); }
  }

  /** A field followed by a delimiter, or by nothing, is read as it is. */
  lemma FieldIs(head: bytes, f: bytes, tail: bytes, ip: bool)
    requires f + tail != [] && forall i :: 0 <= i < |f| ==> FieldChar(ip, f[i])
    requires tail != [] ==> Delimiter(tail[0])
    ensures ReadField(head + f + tail, Some(|head|), ip) ==
            FieldRead(Some(f), if tail == [] then None else Some(|head| + |f| + 1), false)
  {
    hide FieldChar, Span, IpChar;
    var s := head + f + tail;
    FieldChars(head, f, tail, ip);
    if tail != [] { DelimiterEndsField(ip, tail[0]); }
    SpanIs(s, |head|, ip, |f|);
    assert s[|head|..|head| + |f|] == f;
    if tail == [] { assert s[|head|..] == f; }
  }

  lemma FieldChars(head: bytes, f: bytes, tail: bytes, ip: bool)
    requires forall i :: 0 <= i < |f| ==> FieldChar(ip, f[i])
    ensures var s := head + f + tail;
            && (forall i :: |head| <= i < |head| + |f| ==> FieldChar(ip, s[i]))
            && (tail != [] ==> s[|head| + |f|] == tail[0])
  {
    hide FieldChar;
    var s := head + f + tail;
    forall i | |head| <= i < |head| + |f| ensures FieldChar(ip, s[i]) {
      assert s[i] == f[i - |head|];
    }
  }

  lemma DelimiterEndsField(ip: bool, c: byte)
    requires Delimiter(c)
    ensures !FieldChar(ip, c)
  {
  }

  /** The parts of a value: prefix, gateway and metric may be missing from the end; only the gateway may be
      empty, if a metric follows. */
  datatype Parts = Parts(addr: bytes, plen: Option<bytes>, gw: Option<bytes>, metric: Option<bytes>)

  predicate IpChars(s: bytes) {
    forall i :: 0 <= i < |s| ==> IpChar(s[i])
  }

  predicate IsNumber(s: bytes) {
    s != [] && AllDigits(s)
  }

  predicate PartsOk(p: Parts) {
    && p.addr != [] && IpChars(p.addr)
    && (if p.plen.Some? then IsNumber(p.plen.value) else p.gw.None?)
    && (if p.gw.Some? then IpChars(p.gw.value) && (p.gw.value != [] || p.metric.Some?) else p.metric.None?)
    && (p.metric.Some? ==> IsNumber(p.metric.value))
  }

  /** The three delimiters, which may be any. */
  datatype Separators = Separators(a: byte, b: byte, c: byte)

  predicate SeparatorsOk(d: Separators) {
    Delimiter(d.a) && Delimiter(d.b) && Delimiter(d.c)
  }

  function MetricTail(p: Parts, d: Separators): bytes {
    if p.metric.None? then [] else [d.c] + p.metric.value
  }

  function GatewayTail(p: Parts, d: Separators): bytes {
    if p.gw.None? then [] else [d.b] + p.gw.value + MetricTail(p, d)
  }

  function PrefixTail(p: Parts, d: Separators): bytes {
    if p.plen.None? then [] else [d.a] + p.plen.value + GatewayTail(p, d)
  }

  function LayOut(p: Parts, d: Separators): bytes {
    p.addr + PrefixTail(p, d)
  }

  /** read_field takes a value apart into its parts. */
  lemma FieldsOfLayout(p: Parts, d: Separators)
    requires PartsOk(p) && SeparatorsOk(d)
    ensures var s := LayOut(p, d);
            var a := ReadField(s, Some(0), true);
            var pl := ReadField(s, a.next, false);
            var g := ReadField(s, pl.next, true);
            && !a.bad && a.field == Some(p.addr) && pl.field == p.plen
            && !g.bad && g.field == p.gw
            && (p.metric.None? ==> g.next.None?)
            && ReadField(s, g.next, false) == FieldRead(p.metric, None, false)
  {
    hide ReadField, FieldChar, IpChar, Delimiter;
    var s := LayOut(p, d);
    var c1 := p.addr + [d.a];
    FieldCharIs();
    assert s == [] + p.addr + PrefixTail(p, d);
    FieldIs([], p.addr, PrefixTail(p, d), true);
    NoField(s);
    if p.plen.Some? {
      assert s == c1 + p.plen.value + GatewayTail(p, d);
      FieldIs(c1, p.plen.value, GatewayTail(p, d), false);
    }
    if p.gw.Some? {
      var c2 := c1 + p.plen.value + [d.b];
      assert s == c2 + p.gw.value + MetricTail(p, d);
      FieldIs(c2, p.gw.value, MetricTail(p, d), true);
      if p.metric.Some? {
        var c3 := c2 + p.gw.value + [d.c];
        assert s == c3 + p.metric.value + [];
        FieldIs(c3, p.metric.value, [], false);
      }
    }
  }

  lemma FieldCharIs()
    ensures forall c :: FieldChar(true, c) <==> IpChar(c)
    ensures forall c :: FieldChar(false, c) <==> IsDigit(c)
  {
  }

  lemma NoField(s: bytes)
    ensures ReadField(s, None, true) == FieldRead(None, None, false)
    ensures ReadField(s, None, false) == FieldRead(None, None, false)
  {
  }

  /** The number in an optional field, or a default. */
  function NumberOr(field: Option<bytes>, missing: int): int
    requires field.Some? ==> AllDigits(field.value)
  {
    if field.Some? then DecVal(field.value) else missing
  }

  lemma GetOneIntIs(s: bytes, max: int)
    requires IsNumber(s) && max <= INT64_MAX
    ensures GetOneInt(s, max) == if DecVal(s) <= max then Some(DecVal(s)) else None
  {
    StrToInt64Digits(s, 0, max);
  }

  /** All documented formats, with any of the three delimiters at each place: address/plen,
      address/plen,gateway and, for routes, address/plen,,metric and address/plen,gateway,metric.  The next
      hop of a route is in canonical form, and none if it is missing or the unspecified address. */
  lemma DocumentedFormats(net: Net, h: Severity -> bool, v6: bool, route: bool, p: Parts, d: Separators)
    requires NetOk(net) && PartsOk(p) && SeparatorsOk(d) && p.plen.Some?
    requires net.canon(v6, p.addr).Some? && (p.metric.Some? ==> route)
    requires DecVal(p.plen.value) <= (if v6 then 128 else 32) && NumberOr(p.metric, 0) <= 0xFFFF_FFFF
    requires p.gw.Some? && p.gw.value != [] && route ==> net.canon(v6, p.gw.value).Some?
    ensures var addr := net.canon(v6, p.addr).value;
            var plen := DecVal(p.plen.value);
            var hop := if p.gw.None? || p.gw == Some([]) then None else net.canon(v6, p.gw.value);
            ReadOne(net, h, v6, route, LayOut(p, d)) ==
            if route then
              Outcome(Some(Route(addr, plen, if hop == Some(if v6 then "::" else "0.0.0.0") then None else hop,
                                 NumberOr(p.metric, -1), None)), None, false)
            else Outcome(Some(Address(addr, plen)), p.gw, false)
  {
    hide ReadField, GetOneInt, LayOut, NetOk, IpChars, Delimiter, AllDigits;
    FieldsOfLayout(p, d);
    GetOneIntIs(p.plen.value, MaxPrefix(v6));
    if p.metric.Some? { GetOneIntIs(p.metric.value, MAXUINT32); }
  }

  /** The prefix lengths that stand in for a missing one, as text. */
  function StandIn(v6: bool, route: bool): bytes {
    if !v6 then "24" else if route then "128" else "64"
  }

  lemma StandInIs(v6: bool, route: bool)
    ensures IsNumber(StandIn(v6, route))
    ensures DecVal(StandIn(v6, route)) == if !v6 then 24 else if route then 128 else 64
  {
    assert "24"[..1] == "2" && "2"[..0] == "" && "64"[..1] == "6" && "6"[..0] == "";
    assert "128"[..2] == "12" && "12"[..1] == "1" && "1"[..0] == "";
    assert DecVal("2") == 2 && DecVal("6") == 6 && DecVal("1") == 1;
    assert DecVal("12") == 12;
  }

  /** A value without a prefix, or with one that is too long, is read like one with /24 for IPv4, /64 for IPv6
      addresses and /128 for IPv6 routes, if the handler lets the warning pass, and not at all otherwise. */
  lemma MissingPrefix(net: Net, h: Severity -> bool, v6: bool, route: bool, p: Parts, d: Separators)
    requires NetOk(net) && PartsOk(p) && SeparatorsOk(d)
    requires net.canon(v6, p.addr).Some? && (p.metric.Some? ==> route) && NumberOr(p.metric, 0) <= 0xFFFF_FFFF
    requires p.gw.Some? && p.gw.value != [] && route ==> net.canon(v6, p.gw.value).Some?
    requires p.plen.None? || DecVal(p.plen.value) > (if v6 then 128 else 32)
    ensures var full := p.(plen := Some(StandIn(v6, route)));
            && PartsOk(full)
            && ReadOne(net, h, v6, route, LayOut(p, d)) ==
               if h(Warn) then Outcome(None, None, true) else ReadOne(net, h, v6, route, LayOut(full, d))
  {
    hide ReadField, GetOneInt, LayOut, NetOk, IpChars, Delimiter, AllDigits, StandIn;
    StandInIs(v6, route);
    var full := p.(plen := Some(StandIn(v6, route)));
    DocumentedFormats(net, h, v6, route, full, d);
    FieldsOfLayout(p, d);
    if p.plen.Some? { GetOneIntIs(p.plen.value, MaxPrefix(v6)); }
    if p.metric.Some? { GetOneIntIs(p.metric.value, MAXUINT32); }
  }

  /** A bare address: the texts written out. */
  lemma BareAddress(net: Net, h: Severity -> bool, v6: bool, route: bool, addr: bytes)
    requires NetOk(net) && addr != [] && IpChars(addr) && net.canon(v6, addr).Some? && !h(Warn)
    ensures ReadOne(net, h, v6, route, addr) ==
            ReadOne(net, h, v6, route, addr + (if !v6 then "/24" else if route then "/128" else "/64"))
  {
    hide ReadOne, NetOk, IpChars;
    var p := Parts(addr, None, None, None);
    MissingPrefix(net, h, v6, route, p, WRITTEN);
    assert LayOut(p, WRITTEN) == addr;
    var n := StandIn(v6, route);
    assert ['/'] + n + [] == "/" + n;
    assert "/" + n == if !v6 then "/24" else if route then "/128" else "/64";
    assert LayOut(p.(plen := Some(n)), WRITTEN) == addr + ("/" + n);
  }

  /** A metric that does not fit 32 bits, or an address or next hop that is none, gives no entry. */
  lemma InvalidParts(net: Net, h: Severity -> bool, v6: bool, route: bool, p: Parts, d: Separators)
    requires NetOk(net) && PartsOk(p) && SeparatorsOk(d) && p.plen.Some? && (p.metric.Some? ==> route)
    requires DecVal(p.plen.value) <= (if v6 then 128 else 32)
    requires || net.canon(v6, p.addr).None?
             || NumberOr(p.metric, 0) > 0xFFFF_FFFF
             || (route && p.gw.Some? && p.gw.value != [] && net.canon(v6, p.gw.value).None?
                 && !(v6 && p.metric.None? && AllDigits(p.gw.value)))
    ensures ReadOne(net, h, v6, route, LayOut(p, d)) == Outcome(None, None, h(Warn))
  {
    hide ReadField, LayOut, NetOk, IpChars, Delimiter, StrToInt64;
    FieldsOfLayout(p, d);
    GetOneIntIs(p.plen.value, MaxPrefix(v6));
    if p.metric.Some? { GetOneIntIs(p.metric.value, MAXUINT32); }
    if p.gw.Some? { IpCharsNumber(p.gw.value, MAXUINT32); }
  }

  /** Only digits make a number of address characters. */
  lemma IpCharsNumber(s: bytes, max: int)
    requires IpChars(s)
    ensures GetOneInt(s, max).Some? ==> AllDigits(s)
  {
    if s != [] {
      assert SkipSpaces(s) == s;
      var n := DigitSpan(s);
      if n < |s| {
        assert SkipSpaces(s[n..]) == s[n..];
      } else {
        assert s[..n] == s;
      }
    }
  }

  /** The deprecated address/gateway: what is no number is not taken for a prefix, so it is read like the same
      address and gateway with the prefix that stands in. */
  lemma DeprecatedGateway(net: Net, h: Severity -> bool, v6: bool, addr: bytes, gw: bytes, a: byte)
    requires NetOk(net) && addr != [] && IpChars(addr) && net.canon(v6, addr).Some?
    requires IpChars(gw) && !AllDigits(gw) && Delimiter(a) && !h(Warn)
    ensures ReadOne(net, h, v6, false, addr + [a] + gw) ==
            ReadOne(net, h, v6, false, addr + (if v6 then "/64," else "/24,") + gw) ==
            Outcome(Some(Address(net.canon(v6, addr).value, if v6 then 64 else 24)), Some(gw), false)
  {
    hide ReadField, GetOneInt, FieldChar, IpChar, Delimiter, NetOk;
    var s := addr + [a] + gw;
    FieldCharIs();
    assert s == [] + addr + ([a] + gw);
    FieldIs([], addr, [a] + gw, true);
    assert s == (addr + [a]) + gw + [];
    FieldIs(addr + [a], gw, [], true);
    NotAPrefix(addr + [a], gw);
    NoField(s);
    WithStandIn(net, h, v6, addr, gw);
  }

  lemma WithStandIn(net: Net, h: Severity -> bool, v6: bool, addr: bytes, gw: bytes)
    requires NetOk(net) && addr != [] && IpChars(addr) && net.canon(v6, addr).Some? && gw != [] && IpChars(gw)
    ensures ReadOne(net, h, v6, false, addr + (if v6 then "/64," else "/24,") + gw) ==
            Outcome(Some(Address(net.canon(v6, addr).value, if v6 then 64 else 24)), Some(gw), false)
  {
    hide ReadOne, NetOk, IpChars;
    var n := StandIn(v6, false);
    var p := Parts(addr, Some(n), Some(gw), None);
    StandInIs(v6, false);
    SeparatorsWritten();
    DocumentedFormats(net, h, v6, false, p, WRITTEN);
    assert "/" + n + "," == if v6 then "/64," else "/24,";
    assert LayOut(p, WRITTEN) == addr + ("/" + n + ",") + gw;
  }

  lemma SeparatorsWritten()
    ensures SeparatorsOk(WRITTEN)
  {
  }

  lemma NotAPrefix(head: bytes, gw: bytes)
    requires IpChars(gw) && !AllDigits(gw)
    ensures ReadField(head + gw, Some(|head|), false) == FieldRead(None, Some(|head|), true)
  {
    var s := head + gw;
    var n := Span(s, |head|, false);
    if n == |gw| {
      forall i | 0 <= i < |gw| ensures IsDigit(gw[i]) {
        assert gw[i] == s[|head| + i];
      }
    } else {
      assert s[|head| + n] == gw[n] && IpChar(gw[n]);
    }
  }

  /** Routes that a broken writer left as address/plen,metric are understood, for IPv6 only. */
  lemma MetricForGateway(net: Net, h: Severity -> bool, p: Parts, d: Separators)
    requires NetOk(net) && PartsOk(p) && SeparatorsOk(d) && p.gw.Some? && p.metric.None?
    requires net.canon(true, p.addr).Some? && DecVal(p.plen.value) <= 128
    requires IsNumber(p.gw.value) && DecVal(p.gw.value) <= 0xFFFF_FFFF && net.canon(true, p.gw.value).None?
    ensures ReadOne(net, h, true, true, LayOut(p, d)) ==
            Outcome(Some(Route(net.canon(true, p.addr).value, DecVal(p.plen.value), None, DecVal(p.gw.value), None)),
                    None, false)
  {
    hide ReadField, GetOneInt, LayOut, NetOk, IpChars, Delimiter, AllDigits;
    FieldsOfLayout(p, d);
    GetOneIntIs(p.plen.value, 128);
    GetOneIntIs(p.gw.value, MAXUINT32);
  }

  // ---------------------------------------------------------------- malformed values

  /** Reading never gets past a character that is neither part of an address nor a delimiter. */
  lemma StopsAt(s: bytes, cur: Option<nat>, ip: bool, i: nat)
    requires cur.Some? && cur.value <= i < |s| && !IpChar(s[i]) && !Delimiter(s[i])
    ensures var r := ReadField(s, cur, ip); r.next.Some? && r.next.value <= i
  {
    var n := Span(s, cur.value, ip);
    assert !FieldChar(ip, s[i]);
    assert cur.value + n <= i;
  }

  /** A value with such a character gives nothing. */
  lemma AlienCharacter(net: Net, h: Severity -> bool, v6: bool, route: bool, value: bytes, i: nat)
    requires i < |value| && value[i] !in IP_ADDRESS_CHARS && value[i] !in DELIMITERS
    ensures ReadOne(net, h, v6, route, value) == Outcome(None, None, h(Warn))
  {
    hide ReadField, Finish;
    IpCharsAre(value[i]);
    DelimitersAre(value[i]);
    StopsAt(value, Some(0), true, i);
    var a := ReadField(value, Some(0), true);
    StopsAt(value, a.next, false, i);
    var p := ReadField(value, a.next, false);
    StopsAt(value, p.next, true, i);
    var g := ReadField(value, p.next, true);
    if route { StopsAt(value, g.next, false, i); }
  }

  /** The fields of a value that goes on after its last part. */
  lemma FieldsBefore(p: Parts, d: Separators, tail: bytes)
    requires PartsOk(p) && SeparatorsOk(d) && tail != [] && Delimiter(tail[0])
    requires p.metric.None? && p.gw.Some? ==> p.gw.value != []
    ensures var s, n := LayOut(p, d) + tail, |LayOut(p, d)|;
            var a := ReadField(s, Some(0), true);
            var pl := ReadField(s, a.next, false);
            var g := ReadField(s, pl.next, true);
            var m := ReadField(s, g.next, false);
            && a == FieldRead(Some(p.addr), a.next, false)
            && (p.plen.None? ==> a.next == Some(n + 1))
            && (p.plen.Some? ==> pl == FieldRead(p.plen, pl.next, false))
            && (p.plen.Some? && p.gw.None? ==> pl.next == Some(n + 1))
            && (p.gw.Some? ==> g == FieldRead(p.gw, g.next, false))
            && (p.gw.Some? && p.metric.None? ==> g.next == Some(n + 1))
            && (p.metric.Some? ==> m == FieldRead(p.metric, Some(n + 1), false))
  {
    hide ReadField, FieldChar, IpChar, Delimiter, LayOut;
    var s := LayOut(p, d) + tail;
    FieldCharIs();
    CutBefore(p, d, tail);
    FieldIs([], p.addr, PrefixTail(p, d) + tail, true);
    if p.plen.Some? {
      var c1 := p.addr + [d.a];
      FieldIs(c1, p.plen.value, GatewayTail(p, d) + tail, false);
      if p.gw.Some? {
        var c2 := c1 + p.plen.value + [d.b];
        FieldIs(c2, p.gw.value, MetricTail(p, d) + tail, true);
        if p.metric.Some? {
          FieldIs(c2 + p.gw.value + [d.c], p.metric.value, tail, false);
        }
      }
    }
  }

  /** The text cut before and behind each of its parts. */
  lemma CutBefore(p: Parts, d: Separators, tail: bytes)
    requires PartsOk(p)
    ensures var s, c1 := LayOut(p, d) + tail, p.addr + [d.a];
            && s == [] + p.addr + (PrefixTail(p, d) + tail)
            && (p.plen.Some? ==> s == c1 + p.plen.value + (GatewayTail(p, d) + tail))
            && (p.gw.Some? ==>
                  var c2 := c1 + p.plen.value + [d.b];
                  && s == c2 + p.gw.value + (MetricTail(p, d) + tail)
                  && (p.metric.Some? ==> s == c2 + p.gw.value + [d.c] + p.metric.value + tail))
  {
    hide IpChars, AllDigits;
  }

  lemma NoFieldAtEnd(s: bytes)
    ensures ReadField(s, Some(|s|), true) == FieldRead(None, Some(|s|), false)
    ensures ReadField(s, Some(|s|), false) == FieldRead(None, Some(|s|), false)
  {
  }

  /** One delimiter at the end is let pass with a note, and the value is read as without it. */
  lemma TrailingDelimiter(net: Net, h: Severity -> bool, v6: bool, route: bool, p: Parts, d: Separators, last: byte)
    requires PartsOk(p) && SeparatorsOk(d) && Delimiter(last) && (p.metric.Some? ==> route)
    ensures ReadOne(net, h, v6, route, LayOut(p, d) + [last]) ==
            if h(Info) then Outcome(None, None, true) else ReadOne(net, h, v6, route, LayOut(p, d))
  {
    hide ReadField, LayOut, Finish, Delimiter, PartsOk;
    var s := LayOut(p, d) + [last];
    GatewayOfParts(p);
    FieldsBefore(p, d, [last]);
    FieldsOfLayout(p, d);
    NoFieldAtEnd(s);
  }

  lemma GatewayOfParts(p: Parts)
    requires PartsOk(p)
    ensures p.metric.None? && p.gw.Some? ==> p.gw.value != []
    ensures p.gw.Some? ==> p.plen.Some?
    ensures p.metric.Some? ==> p.gw.Some?
  {
  }

  /** Anything behind the last field that there can be makes the value garbage. */
  lemma Garbage(net: Net, h: Severity -> bool, v6: bool, route: bool, p: Parts, d: Separators, sep: byte, more: bytes)
    requires PartsOk(p) && SeparatorsOk(d) && Delimiter(sep) && more != []
    requires if route then p.metric.Some? else p.gw.Some? && p.metric.None?
    ensures ReadOne(net, h, v6, route, LayOut(p, d) + [sep] + more) == Outcome(None, None, h(Warn))
  {
    hide ReadField, LayOut, Finish, Delimiter, PartsOk;
    GatewayOfParts(p);
    assert LayOut(p, d) + [sep] + more == LayOut(p, d) + ([sep] + more);
    FieldsBefore(p, d, [sep] + more);
  }

  // ---------------------------------------------------------------- round trip of one entry

  const WRITTEN := Separators('/', ',', ',')

  function PartsOf(v6: bool, e: Entry, gateway: Option<bytes>): Parts
    requires Metric(e) >= -1
  {
    var gw := Gateway(e, gateway);
    Parts(e.addr, Some(Dec(e.plen)),
          if gw.Some? then gw else if Metric(e) != -1 then Some(Any(v6)) else None,
          if Metric(e) != -1 then Some(Dec(Metric(e))) else None)
  }

  lemma TextIsLayout(v6: bool, e: Entry, gateway: Option<bytes>)
    requires Metric(e) >= -1
    ensures ValueText(v6, e, gateway) == LayOut(PartsOf(v6, e, gateway), WRITTEN)
  {
    var p, d := PartsOf(v6, e, gateway), WRITTEN;
    var head := e.addr + "/" + Dec(e.plen);
    assert LayOut(p, d) == head + GatewayTail(p, d);
    if p.gw.Some? {
      assert MetricTail(p, d) == if Metric(e) == -1 then [] else "," + Dec(Metric(e));
      assert ("," + p.gw.value) + MetricTail(p, d) == GatewayTail(p, d);
    }
  }

  /** For any warning handler, a written address or route is read back exactly, with the gateway that was
      written with it; the stand-in for an absent next hop is dropped again. */
  lemma EntryRoundTrip(net: Net, h: Severity -> bool, v6: bool, e: Entry, gateway: Option<bytes>)
    requires NetOk(net) && EntryOk(net, v6, e) && HopOk(net, v6, gateway)
    ensures ReadOne(net, h, v6, e.Route?, ValueText(v6, e, gateway)) ==
            Outcome(Some(if e.Route? then e.(attrs := None) else e), if e.Route? then None else gateway, false)
  {
    hide ReadOne, Dec, LayOut, ValueText, IpChar;
    var p := PartsOf(v6, e, gateway);
    TextIsLayout(v6, e, gateway);
    assert IsCanonical(net, v6, Any(v6));
    DecRoundTrip(e.plen);
    if Metric(e) != -1 { DecRoundTrip(Metric(e)); }
    DocumentedFormats(net, h, v6, e.Route?, p, WRITTEN);
  }

  lemma GetOneIntRange(s: bytes, max: int)
    ensures GetOneInt(s, max).Some? ==> 0 <= GetOneInt(s, max).value <= max
  {
  }

  /** Whatever the text, only valid entries come out of it, and errors only where the handler asks for them. */
  lemma OnlyValidEntries(net: Net, h: Severity -> bool, v6: bool, route: bool, value: bytes)
    requires NetOk(net)
    ensures var o := ReadOne(net, h, v6, route, value);
            && (o.entry.Some? ==> EntryOk(net, v6, o.entry.value) && o.entry.value.Route? == route && !o.error)
            && (o.error ==> h(Warn) || h(Info))
  {
    hide ReadField, GetOneInt, IsCanonical;
    forall s: bytes, max | GetOneInt(s, max).Some? ensures 0 <= GetOneInt(s, max).value <= max {
      GetOneIntRange(s, max);
    }
  }

  /** What was read from any text, written in the normal form, is read as the same entry again. */
  lemma ReadWriteRead(net: Net, h: Severity -> bool, v6: bool, route: bool, value: bytes)
    requires NetOk(net) && ReadOne(net, h, v6, route, value).entry.Some?
    ensures var e := ReadOne(net, h, v6, route, value).entry.value;
            && Metric(e) >= -1
            && ReadOne(net, h, v6, route, ValueText(v6, e, None)).entry ==
               Some(if e.Route? then e.(attrs := None) else e)
  {
    hide ReadOne, ValueText, NetOk, IsCanonical;
    OnlyValidEntries(net, h, v6, route, value);
    EntryRoundTrip(net, h, v6, ReadOne(net, h, v6, route, value).entry.value, None);
  }

  // ---------------------------------------------------------------- the reader on its buffer

  /** From position c on the buffer still holds the rest of s and its NUL. */
  ghost predicate Rest(buf: seq<byte>, s: bytes, c: nat) {
    c <= |s| && |buf| == |s| + 1 && buf[|s|] == NUL && buf[c..|s|] == s[c..]
  }

  /** A NUL-terminated field somewhere in the buffer. */
  ghost predicate FieldAt(buf: seq<byte>, start: nat, f: bytes) {
    NoNul(f) && start + |f| < |buf| && buf[start..start + |f|] == f && buf[start + |f|] == NUL
  }

  /** The field that was read, if any: it lies before the place where reading goes on. */
  ghost predicate FieldBefore(buf: seq<byte>, start: Option<nat>, f: Option<bytes>, next: Option<nat>) {
    && (start.Some? <==> f.Some?)
    && (f.Some? ==> FieldAt(buf, start.value, f.value) && (next.Some? ==> start.value + |f.value| < next.value))
  }

  lemma RestChar(buf: seq<byte>, s: bytes, c: nat, k: nat)
    requires NoNul(s) && Rest(buf, s, c) && c <= k <= |s|
    ensures |buf| == |s| + 1 && buf[k] == (if k < |s| then s[k] else NUL) && (k < |s| ==> buf[k] != NUL)
  {
    if k < |s| { assert buf[c..|s|][k - c] == s[c..][k - c]; }
  }

  /** Writing a NUL at p makes a field of what lies before and leaves what comes after. */
  lemma Cut(buf: seq<byte>, s: bytes, c: nat, p: nat)
    requires NoNul(s) && Rest(buf, s, c) && c <= p <= |s|
    ensures FieldAt(buf[p := NUL], c, s[c..p]) && buf[p := NUL][..c] == buf[..c]
    ensures p < |s| ==> Rest(buf[p := NUL], s, p + 1)
    ensures p == |s| ==> buf[p := NUL] == buf && s[c..p] == s[c..]
  {
    var after := buf[p := NUL];
    assert buf[c..|s|][..p - c] == buf[c..p] == after[c..p];
    assert s[c..][..p - c] == s[c..p];
    if p < |s| {
      assert buf[c..|s|][p + 1 - c..] == buf[p + 1..|s|] == after[p + 1..|s|];
      assert s[c..][p + 1 - c..] == s[p + 1..];
    }
  }

  lemma SpanStep(s: bytes, c: nat, ip: bool)
    requires c <= |s|
    ensures Span(s, c, ip) == if c < |s| && FieldChar(ip, s[c]) then 1 + Span(s, c + 1, ip) else 0
  {
  }

  /** read_field: cuts the field off in place, with a NUL over the delimiter. The result start points at the
      field in the buffer. */
  method ReadFieldInPlace(buf: array<byte>, ghost s: bytes, cur: Option<nat>, ip: bool)
    returns (start: Option<nat>, next: Option<nat>, bad: bool)
    requires NoNul(s) && buf.Length == |s| + 1
    requires cur.Some? ==> Rest(buf[..], s, cur.value)
    modifies buf
    ensures var r := ReadField(s, cur, ip);
            && next == r.next && bad == r.bad && FieldBefore(buf[..], start, r.field, next)
    ensures cur.None? ==> buf[..] == old(buf[..])
    ensures cur.Some? ==> cur.value <= |s| && buf[..cur.value] == old(buf[..cur.value])
    ensures next.Some? ==> Rest(buf[..], s, next.value)
  {
    hide Span, FieldChar, FieldAt, Delimiter;
    if cur.None? {
      return None, None, false;
    }
    var c := cur.value;
    ghost var before := buf[..];
    RestChar(before, s, c, c);
    if buf[c] == NUL {
      return None, cur, false;
    }
    var p := c;
    while buf[p] != NUL && FieldChar(ip, buf[p])
      invariant c <= p <= |s| && buf[..] == before
      invariant Span(s, c, ip) == p - c + Span(s, p, ip)
      decreases |s| - p
    {
      RestChar(before, s, c, p);
      SpanStep(s, p, ip);
      p := p + 1;
    }
    RestChar(before, s, c, p);
    SpanStep(s, p, ip);
    Cut(before, s, c, p);
    if buf[p] != NUL {
      if Delimiter(buf[p]) {
        buf[p] := NUL;
        assert buf[..] == before[p := NUL];
        assert buf[..c] == buf[..][..c];
        return cur, Some(p + 1), false;
      }
      return None, cur, true;
    }
    return cur, None, false;
  }

  /** Later cuts leave an earlier field alone. */
  lemma FieldKept(before: seq<byte>, after: seq<byte>, start: Option<nat>, f: Option<bytes>, cur: Option<nat>,
                  next: Option<nat>)
    requires FieldBefore(before, start, f, cur) && |before| == |after|
    requires cur.None? ==> before == after
    requires cur.Some? ==> cur.value <= |before| && before[..cur.value] == after[..cur.value]
    requires next.Some? ==> cur.Some? && cur.value <= next.value
    ensures FieldBefore(after, start, f, next)
  {
    if f.Some? && cur.Some? {
      var a, b, end := start.value, start.value + |f.value|, cur.value;
      assert after[a..b] == after[..end][a..b] == before[..end][a..b] == before[a..b];
      assert after[..end][b] == before[..end][b];
    }
  }

  /** The C string a pointer stands for. */
  function CStringAt(buf: seq<byte>, start: Option<nat>): Option<bytes>
    requires start.Some? ==> start.value <= |buf|
  {
    if start.None? then None else Some(StrNDup(buf[start.value..]))
  }

  lemma FieldIsCString(buf: seq<byte>, start: Option<nat>, f: Option<bytes>, next: Option<nat>)
    requires FieldBefore(buf, start, f, next)
    ensures (start.Some? ==> start.value <= |buf|) && CStringAt(buf, start) == f
  {
    if f.Some? {
      var end := start.value + |f.value|;
      assert buf[start.value..] == f.value + buf[end..];
      StrNDupIs(f.value, buf[end..]);
    }
  }

  method Copy(s: bytes) returns (buf: array<byte>)
    ensures fresh(buf) && buf.Length == |s| + 1 && Rest(buf[..], s, 0)
  {
    var n := |s|;
    buf := new byte[n + 1](i requires 0 <= i <= n => if i < n then s[i] else NUL);
    assert buf[..][0..n] == s[0..];
  }

  /** The four fields, cut out one after the other; all of them stay readable to the end. */
  method ReadFields(buf: array<byte>, ghost value: bytes, route: bool)
    returns (addr: Option<nat>, plen: Option<nat>, gateway: Option<nat>, metric: Option<nat>, next: Option<nat>,
             bad: bool)
    requires NoNul(value) && buf.Length == |value| + 1 && Rest(buf[..], value, 0)
    modifies buf
    ensures var a := ReadField(value, Some(0), true);
            var p := ReadField(value, a.next, false);
            var g := ReadField(value, p.next, true);
            var m := MetricField(value, g.next, route);
            && bad == (a.bad || g.bad || m.bad)
            && (!bad ==>
                  && next == m.next && (next.Some? ==> Rest(buf[..], value, next.value))
                  && FieldBefore(buf[..], addr, a.field, next) && FieldBefore(buf[..], plen, p.field, next)
                  && FieldBefore(buf[..], gateway, g.field, next) && FieldBefore(buf[..], metric, m.field, next))
  {
    hide ReadField, FieldAt, FieldBefore, NoNul, Rest;
    plen, gateway, metric := None, None, None;
    addr, next, bad := ReadFieldInPlace(buf, value, Some(0), true);
    if bad {
      return;
    }
    ghost var b0, c0 := buf[..], next;
    plen, next, bad := ReadFieldInPlace(buf, value, next, false);
    ghost var b1, c1 := buf[..], next;
    FieldKept(b0, b1, addr, ReadField(value, Some(0), true).field, c0, c1);
    gateway, next, bad := ReadFieldInPlace(buf, value, next, true);
    if bad {
      return;
    }
    ghost var b2, c2 := buf[..], next;
    FieldKept(b1, b2, addr, ReadField(value, Some(0), true).field, c1, c2);
    FieldKept(b1, b2, plen, ReadField(value, c0, false).field, c1, c2);
    NoFieldBefore(b2, next);
    if route {
      metric, next, bad := ReadFieldInPlace(buf, value, next, false);
    }
    FieldKept(b2, buf[..], addr, ReadField(value, Some(0), true).field, c2, next);
    FieldKept(b2, buf[..], plen, ReadField(value, c0, false).field, c2, next);
    FieldKept(b2, buf[..], gateway, ReadField(value, c1, true).field, c2, next);
  }

  lemma NoFieldBefore(buf: seq<byte>, next: Option<nat>)
    ensures FieldBefore(buf, None, None, next)
  {
  }

  /** read_one_ip_address_or_route on its copy of the value */
  method ReadOneInPlace(net: Net, h: Severity -> bool, v6: bool, route: bool, value: bytes) returns (o: Outcome)
    requires NoNul(value)
    ensures o == ReadOne(net, h, v6, route, value)
  {
    hide ReadField, Finish, FieldAt, FieldBefore, CStringAt, NoNul, Rest;
    var buf := Copy(value);
    var addr, plen, gateway, metric, next, bad := ReadFields(buf, value, route);
    if bad {
      return Rejected(h);
    }
    if next.Some? {
      RestChar(buf[..], value, next.value, next.value);
      if buf[next.value] != NUL {
        return Rejected(h);
      }
      if h(Info) {
        return Outcome(None, None, true);
      }
    }
    ghost var a := ReadField(value, Some(0), true);
    ghost var p := ReadField(value, a.next, false);
    ghost var g := ReadField(value, p.next, true);
    FieldIsCString(buf[..], addr, a.field, next);
    FieldIsCString(buf[..], plen, p.field, next);
    FieldIsCString(buf[..], gateway, g.field, next);
    FieldIsCString(buf[..], metric, MetricField(value, g.next, route).field, next);
    o := Finish(net, h, v6, route, CStringAt(buf[..], addr), CStringAt(buf[..], plen),
                CStringAt(buf[..], gateway), CStringAt(buf[..], metric));
  }
}
