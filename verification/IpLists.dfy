/** The addresses and routes of an IP setting as numbered keys of a keyfile group. */
module IpLists {
  import opened Options
  import opened Sorting
  import opened Text
  import opened KeyFile
  import opened KeyIndex
  import opened IpText

  function Name(route: bool): bytes {
    if route then "route" else "address"
  }

  function Plural(route: bool): bytes {
    if route then "routes" else "addresses"
  }

  function KeyAt(route: bool, n: nat): bytes {
    Name(route) + Dec(n)
  }

  const OPTIONS_SUFFIX: bytes := "_options"

  function OptionsKey(key: bytes): bytes {
    key + OPTIONS_SUFFIX
  }

  /** The keys by their names: singular and plural are both read, each with its numbers. */
  lemma ListKeys(n: nat)
    requires n <= MAXINT32
    ensures KeyAt(false, n) == "address" + Dec(n) && KeyAt(true, n) == "route" + Dec(n)
    ensures OptionsKey(KeyAt(true, n)) == "route" + Dec(n) + "_options"
    ensures ItemFor("address" + Dec(n), Name(false), Plural(false)) == Some(Item("address" + Dec(n), n, 0))
    ensures ItemFor("addresses" + Dec(n), Name(false), Plural(false)) == Some(Item("addresses" + Dec(n), n, 1))
    ensures ItemFor("route" + Dec(n), Name(true), Plural(true)) == Some(Item("route" + Dec(n), n, 0))
    ensures ItemFor("routes" + Dec(n), Name(true), Plural(true)) == Some(Item("routes" + Dec(n), n, 1))
  {
    hide MatchKey;
    MatchMeans("address" + Dec(n), "address");
    MatchMeans("addresses" + Dec(n), "addresses");
    MatchMeans("route" + Dec(n), "route");
    MatchMeans("routes" + Dec(n), "routes");
    assert "addresses" + Dec(n) == "address" + ("es" + Dec(n));
    assert "routes" + Dec(n) == "route" + ("s" + Dec(n));
    NoNumber("es" + Dec(n), "address");
    NoNumber("s" + Dec(n), "route");
  }

  lemma NoNumber(rest: bytes, base: bytes)
    requires rest != [] && !IsDigit(rest[0])
    ensures MatchKey(base + rest, base) == None
  {
    assert (base + rest)[|base|..] == rest;
  }

  // ---------------------------------------------------------------- writing

  ghost predicate ListOk(net: Net, v6: bool, route: bool, entries: seq<Entry>) {
    forall i :: 0 <= i < |entries| ==> EntryOk(net, v6, entries[i]) && entries[i].Route? == route
  }

  /** The gateway that belongs to entry i: only the first address carries it. */
  function GatewayOf(gateway: Option<bytes>, i: nat): Option<bytes> {
    if i == 0 then gateway else None
  }

  function WriteEntry(g: Group, v6: bool, e: Entry, i: nat, gateway: Option<bytes>): Group
    requires Metric(e) >= -1
  {
    var key := KeyAt(e.Route?, i + 1);
    var g1 := Set(g, key, ValueText(v6, e, GatewayOf(gateway, i)));
    if e.Route? && e.attrs.Some? then Set(g1, OptionsKey(key), e.attrs.value) else g1
  }

  /** write_ip_values */
  function Written(g: Group, v6: bool, entries: seq<Entry>, gateway: Option<bytes>): Group
    requires forall i :: 0 <= i < |entries| ==> Metric(entries[i]) >= -1
  {
    if entries == [] then g
    else
      var n := |entries| - 1;
      WriteEntry(Written(g, v6, entries[..n], gateway), v6, entries[n], n, gateway)
  }

  // ---------------------------------------------------------------- reading

  datatype ReadState = ReadState(list: seq<Entry>, gateway: Option<bytes>, error: bool)

  function WithAttrs(g: Group, key: bytes, e: Entry): Entry {
    if !e.Route? then e
    else
      var text := Get(g, OptionsKey(key));
      if text.None? || text.value == [] then e else e.(attrs := text)
  }

  function ReadKey(net: Net, h: Severity -> bool, v6: bool, route: bool, g: Group, key: bytes, st: ReadState): ReadState
  {
    if st.error then st
    else
      match Get(g, key)
      case None => st
      case Some(value) =>
        var o := ReadOne(net, h, v6, route, value);
        var gateway := if st.gateway.Some? then st.gateway else o.gateway;
        if o.error || o.entry.None? then ReadState(st.list, gateway, o.error)
        else ReadState(st.list + [WithAttrs(g, key, o.entry.value)], gateway, false)
  }

  /** The loop of ip_address_or_route_parser over the visible entries of the sorted key list. */
  function ReadAll(net: Net, h: Severity -> bool, v6: bool, route: bool, g: Group, items: seq<Item>): ReadState {
    if items == [] then ReadState([], None, false)
    else
      var n := |items| - 1;
      ReadKey(net, h, v6, route, g, items[n].key, ReadAll(net, h, v6, route, g, items[..n]))
  }

  // ---------------------------------------------------------------- the keys that were written

  lemma OwnKey(route: bool, n: nat)
    requires n <= MAXINT32
    ensures ItemFor(KeyAt(route, n), Name(route), Plural(route)) == Some(Item(KeyAt(route, n), n, 0))
  {
    MatchMeans(KeyAt(route, n), Name(route));
  }

  /** The key of a route's attributes is taken for no route. */
  lemma OptionsKeyIsNoItem(route: bool, n: nat)
    ensures ItemFor(OptionsKey(KeyAt(route, n)), Name(route), Plural(route)) == None
  {
    var key := OptionsKey(KeyAt(route, n));
    var name, plural := Name(route), Plural(route);
    var d := Dec(n);
    assert key == name + (d + OPTIONS_SUFFIX);
    assert key[|name|] == d[0] && IsDigit(d[0]);
    assert !IsDigit(plural[|name|]);
    if |key| >= |plural| {
      assert key[..|plural|][|name|] == key[|name|];
    }
    var rest := key[|name|..];
    assert rest == d + OPTIONS_SUFFIX;
    assert rest[|d|] == '_' && |rest| > 1;
  }

  /** All keys of a written list differ: those with one number from those with another, and the entries
      from their attributes. */
  lemma KeysDiffer(route: bool, m: nat, n: nat)
    requires m <= MAXINT32 && n <= MAXINT32
    ensures KeyAt(route, m) == KeyAt(route, n) ==> m == n
    ensures OptionsKey(KeyAt(route, m)) == OptionsKey(KeyAt(route, n)) ==> m == n
    ensures OptionsKey(KeyAt(route, m)) != KeyAt(route, n)
  {
    OwnKey(route, m);
    OwnKey(route, n);
    OptionsKeyIsNoItem(route, m);
    var a, b := KeyAt(route, m), KeyAt(route, n);
    if OptionsKey(a) == OptionsKey(b) {
      assert a == OptionsKey(a)[..|a|] && b == OptionsKey(b)[..|b|];
    }
  }

  /** A key that the list of routes, or of addresses, has nothing to do with. */
  ghost predicate Foreign(k: bytes, route: bool) {
    && ItemFor(k, Name(route), Plural(route)) == None
    && forall n: nat :: k != OptionsKey(KeyAt(route, n))
  }

  /** A group in which the list can be written: it holds none of its keys yet. */
  ghost predicate Unrelated(g: Group, route: bool) {
    forall k :: k in g.vals ==> Foreign(k, route)
  }

  function AttrsOf(e: Entry): Option<bytes> {
    if e.Route? then e.attrs else None
  }

  ghost predicate IsListKey(k: bytes, route: bool, n: nat) {
    exists m: nat :: 1 <= m <= n && (k == KeyAt(route, m) || k == OptionsKey(KeyAt(route, m)))
  }

  /** The entries are in the group under their keys, with their attributes; all other keys are foreign to the
      list. */
  ghost predicate Holds(g: Group, v6: bool, route: bool, entries: seq<Entry>, gateway: Option<bytes>)
    requires forall i :: 0 <= i < |entries| ==> Metric(entries[i]) >= -1
  {
    && (forall i :: 0 <= i < |entries| ==>
          Get(g, KeyAt(route, i + 1)) == Some(ValueText(v6, entries[i], GatewayOf(gateway, i))))
    && (forall i :: 0 <= i < |entries| ==> Get(g, OptionsKey(KeyAt(route, i + 1))) == AttrsOf(entries[i]))
    && (forall k :: k in g.vals ==> Foreign(k, route) || IsListKey(k, route, |entries|))
  }

  /** Beyond the list there are no attributes. */
  lemma NoOptionsBeyond(g: Group, v6: bool, route: bool, entries: seq<Entry>, gateway: Option<bytes>, n: nat)
    requires forall i :: 0 <= i < |entries| ==> Metric(entries[i]) >= -1
    requires Holds(g, v6, route, entries, gateway) && |entries| < n <= MAXINT32
    ensures OptionsKey(KeyAt(route, n)) !in g.vals
  {
    hide ValueText, KeyAt, OptionsKey, ItemFor, Get;
    var k := OptionsKey(KeyAt(route, n));
    if k in g.vals {
      assert IsListKey(k, route, |entries|);
      var m: nat :| 1 <= m <= |entries| && (k == KeyAt(route, m) || k == OptionsKey(KeyAt(route, m)));
      KeysDiffer(route, n, m);
    }
  }

  lemma WriteEntryGet(g: Group, v6: bool, e: Entry, i: nat, gateway: Option<bytes>, k: bytes)
    requires Metric(e) >= -1
    ensures var key := KeyAt(e.Route?, i + 1);
            Get(WriteEntry(g, v6, e, i, gateway), k) ==
            if AttrsOf(e).Some? && k == OptionsKey(key) then AttrsOf(e)
            else if k == key then Some(ValueText(v6, e, GatewayOf(gateway, i)))
            else Get(g, k)
    ensures k in WriteEntry(g, v6, e, i, gateway).vals <==> Get(WriteEntry(g, v6, e, i, gateway), k).Some?
  {
    hide ValueText, KeyAt, OptionsKey;
  }

  lemma WriteEntryHolds(g: Group, v6: bool, route: bool, entries: seq<Entry>, e: Entry, gateway: Option<bytes>)
    requires forall i :: 0 <= i < |entries| ==> Metric(entries[i]) >= -1
    requires Metric(e) >= -1 && e.Route? == route && |entries| < MAXINT32
    requires Holds(g, v6, route, entries, gateway)
    ensures Holds(WriteEntry(g, v6, e, |entries|, gateway), v6, route, entries + [e], gateway)
  {
    hide ValueText, KeyAt, OptionsKey, Foreign, WriteEntry;
    var n := |entries|;
    var more := entries + [e];
    var g' := WriteEntry(g, v6, e, n, gateway);
    NoOptionsBeyond(g, v6, route, entries, gateway, n + 1);
    forall i | 0 <= i < |more|
      ensures Get(g', KeyAt(route, i + 1)) == Some(ValueText(v6, more[i], GatewayOf(gateway, i)))
      ensures Get(g', OptionsKey(KeyAt(route, i + 1))) == AttrsOf(more[i])
    {
      KeysDiffer(route, i + 1, n + 1);
      KeysDiffer(route, n + 1, i + 1);
      WriteEntryGet(g, v6, e, n, gateway, KeyAt(route, i + 1));
      WriteEntryGet(g, v6, e, n, gateway, OptionsKey(KeyAt(route, i + 1)));
      if i < n { assert more[i] == entries[i]; }
    }
    forall k | k in g'.vals ensures Foreign(k, route) || IsListKey(k, route, |more|) {
      WriteEntryGet(g, v6, e, n, gateway, k);
      if k == KeyAt(route, n + 1) || k == OptionsKey(KeyAt(route, n + 1)) {
        assert IsListKey(k, route, n + 1);
      } else {
        assert k in g.vals;
        ListGrows(k, route, n);
      }
    }
  }

  lemma ListGrows(k: bytes, route: bool, n: nat)
    ensures IsListKey(k, route, n) ==> IsListKey(k, route, n + 1)
  {
    hide KeyAt, OptionsKey;
    if IsListKey(k, route, n) {
      var m: nat :| 1 <= m <= n && (k == KeyAt(route, m) || k == OptionsKey(KeyAt(route, m)));
      assert 1 <= m <= n + 1;
    }
  }

  lemma NothingHeld(g: Group, v6: bool, route: bool, gateway: Option<bytes>)
    ensures Unrelated(g, route) <==> Holds(g, v6, route, [], gateway)
  {
    hide Foreign;
  }

  lemma MetricsOk(net: Net, v6: bool, route: bool, entries: seq<Entry>)
    requires ListOk(net, v6, route, entries)
    ensures forall i :: 0 <= i < |entries| ==> Metric(entries[i]) >= -1
  {
    hide IsCanonical;
  }

  /** A list written to a group that held none of its keys is held by it. */
  lemma {:induction false} WrittenHolds(g: Group, net: Net, v6: bool, route: bool, entries: seq<Entry>,
                                        gateway: Option<bytes>)
    requires ListOk(net, v6, route, entries) && |entries| <= MAXINT32 && Unrelated(g, route)
    ensures Holds(Written(g, v6, entries, gateway), v6, route, entries, gateway)
  {
    hide Holds, WriteEntry, Unrelated, EntryOk;
    if entries == [] {
      NothingHeld(g, v6, route, gateway);
    } else {
      var n := |entries| - 1;
      MetricsOk(net, v6, route, entries);
      WrittenHolds(g, net, v6, route, entries[..n], gateway);
      WriteEntryHolds(Written(g, v6, entries[..n], gateway), v6, route, entries[..n], entries[n], gateway);
      assert entries[..n] + [entries[n]] == entries;
    }
  }

  // ---------------------------------------------------------------- the other list

  lemma NamesApart(route: bool)
    ensures Name(route)[0] != Name(!route)[0] && Name(route)[0] != Plural(!route)[0]
  {
  }

  lemma OtherHead(k: bytes, base: bytes)
    requires k != [] && base != [] && k[0] != base[0]
    ensures MatchKey(k, base) == None
  {
    if |k| >= |base| { assert k[..|base|][0] == k[0]; }
  }

  lemma OtherOptions(k: bytes, route: bool)
    requires k != [] && k[0] != Name(route)[0]
    ensures forall n: nat :: k != OptionsKey(KeyAt(route, n))
  {
    forall n: nat ensures k != OptionsKey(KeyAt(route, n)) {
      assert OptionsKey(KeyAt(route, n))[0] == Name(route)[0];
    }
  }

  /** The keys of routes are foreign to the addresses, and the other way round. */
  lemma OtherKeysAreForeign(route: bool, n: nat)
    ensures Foreign(KeyAt(!route, n), route) && Foreign(OptionsKey(KeyAt(!route, n)), route)
  {
    hide MatchKey;
    NamesApart(route);
    NamesApart(!route);
    var k := KeyAt(!route, n);
    assert k[0] == Name(!route)[0] && OptionsKey(k)[0] == k[0];
    OtherHead(k, Name(route));
    OtherHead(k, Plural(route));
    OtherHead(OptionsKey(k), Name(route));
    OtherHead(OptionsKey(k), Plural(route));
    OtherOptions(k, route);
    OtherOptions(OptionsKey(k), route);
  }

  /** Writing one entry of the other kind leaves a list as it is. */
  lemma OtherEntryKeeps(g: Group, v6: bool, route: bool, entries: seq<Entry>, gateway: Option<bytes>,
                        e: Entry, i: nat, otherGateway: Option<bytes>)
    requires forall j :: 0 <= j < |entries| ==> Metric(entries[j]) >= -1
    requires Holds(g, v6, route, entries, gateway) && |entries| <= MAXINT32
    requires Metric(e) >= -1 && e.Route? == !route
    ensures Holds(WriteEntry(g, v6, e, i, otherGateway), v6, route, entries, gateway)
  {
    hide ValueText, KeyAt, OptionsKey, WriteEntry, ItemFor, IsListKey;
    var g' := WriteEntry(g, v6, e, i, otherGateway);
    OtherKeysAreForeign(route, i + 1);
    forall m: nat | m <= |entries|
      ensures Get(g', KeyAt(route, m)) == Get(g, KeyAt(route, m))
      ensures Get(g', OptionsKey(KeyAt(route, m))) == Get(g, OptionsKey(KeyAt(route, m)))
    {
      OwnKey(route, m);
      WriteEntryGet(g, v6, e, i, otherGateway, KeyAt(route, m));
      WriteEntryGet(g, v6, e, i, otherGateway, OptionsKey(KeyAt(route, m)));
    }
    forall k | k in g'.vals ensures Foreign(k, route) || IsListKey(k, route, |entries|) {
      WriteEntryGet(g, v6, e, i, otherGateway, k);
    }
  }

  lemma {:induction false} OtherListKeeps(g: Group, net: Net, v6: bool, route: bool, entries: seq<Entry>,
                                          gateway: Option<bytes>, others: seq<Entry>, otherGateway: Option<bytes>)
    requires ListOk(net, v6, route, entries) && ListOk(net, v6, !route, others) && |entries| <= MAXINT32
    requires forall j :: 0 <= j < |entries| ==> Metric(entries[j]) >= -1
    requires Holds(g, v6, route, entries, gateway)
    ensures forall j :: 0 <= j < |others| ==> Metric(others[j]) >= -1
    ensures Holds(Written(g, v6, others, otherGateway), v6, route, entries, gateway)
  {
    hide Holds, WriteEntry, EntryOk;
    MetricsOk(net, v6, !route, others);
    if others != [] {
      var n := |others| - 1;
      OtherListKeeps(g, net, v6, route, entries, gateway, others[..n], otherGateway);
      var g1 := Written(g, v6, others[..n], otherGateway);
      OtherEntryKeeps(g1, v6, route, entries, gateway, others[n], n, otherGateway);
    }
  }

  // ---------------------------------------------------------------- round trip

  /** The key list of a written group, whatever its order: the numbers from 1 on. */
  function Expected(route: bool, n: nat): (items: seq<Item>)
    ensures |items| == n && forall i :: 0 <= i < n ==> items[i] == Item(KeyAt(route, i + 1), i + 1, 0)
  {
    seq(n, i requires 0 <= i < n => Item(KeyAt(route, i + 1), i + 1, 0))
  }

  /** The strictly sorted list of the entries for these keys; SortedUnique makes it the only one. */
  ghost predicate IsKeyList(items: seq<Item>, keys: seq<bytes>, route: bool) {
    && SortedBy(Before, items)
    && forall it :: it in items <==> it.key in keys && ItemFor(it.key, Name(route), Plural(route)) == Some(it)
  }

  lemma WrittenKeysFound(g: Group, v6: bool, route: bool, entries: seq<Entry>, gateway: Option<bytes>,
                         keys: seq<bytes>, items: seq<Item>)
    requires forall i :: 0 <= i < |entries| ==> Metric(entries[i]) >= -1
    requires Holds(g, v6, route, entries, gateway) && |entries| <= MAXINT32
    requires (forall k :: k in keys <==> k in g.vals) && IsKeyList(items, keys, route)
    ensures items == Expected(route, |entries|)
  {
    hide ValueText, KeyAt, OptionsKey, ItemFor, Before;
    var expected := Expected(route, |entries|);
    forall it | it in expected ensures it in items {
      var i :| 0 <= i < |expected| && expected[i] == it;
      OwnKey(route, i + 1);
      assert Get(g, KeyAt(route, i + 1)) == Some(ValueText(v6, entries[i], GatewayOf(gateway, i)));
    }
    forall it | it in items ensures it in expected {
      assert it.key in g.vals && IsListKey(it.key, route, |entries|);
      var m: nat :| 1 <= m <= |entries| && (it.key == KeyAt(route, m) || it.key == OptionsKey(KeyAt(route, m)));
      OptionsKeyIsNoItem(route, m);
      OwnKey(route, m);
      assert it == expected[m - 1];
    }
    ExpectedSorted(route, |entries|);
    BeforeIsStrict();
    SortedUnique(Before, items, expected);
  }

  lemma ExpectedSorted(route: bool, n: nat)
    ensures SortedBy(Before, Expected(route, n))
  {
  }

  lemma ReadAllStep(net: Net, h: Severity -> bool, v6: bool, route: bool, g: Group, done: seq<Item>, item: Item)
    ensures ReadAll(net, h, v6, route, g, done + [item]) ==
            ReadKey(net, h, v6, route, g, item.key, ReadAll(net, h, v6, route, g, done))
  {
    assert (done + [item])[..|done|] == done;
  }

  lemma NothingRead(net: Net, h: Severity -> bool, v6: bool, route: bool, g: Group)
    ensures ReadAll(net, h, v6, route, g, []) == ReadState([], None, false)
  {
  }

  /** The key of one written entry gives back this entry. */
  lemma ReadKeyWritten(net: Net, h: Severity -> bool, g: Group, v6: bool, e: Entry, key: bytes, gateway: Option<bytes>,
                       list: seq<Entry>, sofar: Option<bytes>)
    requires NetOk(net) && EntryOk(net, v6, e) && HopOk(net, v6, gateway) && (e.Route? ==> gateway.None?)
    requires Get(g, key) == Some(ValueText(v6, e, gateway)) && Get(g, OptionsKey(key)) == AttrsOf(e)
    ensures ReadKey(net, h, v6, e.Route?, g, key, ReadState(list, sofar, false)) ==
            ReadState(list + [e], if sofar.Some? then sofar else gateway, false)
  {
    hide ReadOne, ValueText, OptionsKey, NetOk, IsCanonical, Get;
    EntryRoundTrip(net, h, v6, e, gateway);
    assert WithAttrs(g, key, if e.Route? then e.(attrs := None) else e) == e;
  }

  lemma {:induction false} ReadAllWritten(net: Net, h: Severity -> bool, g: Group, v6: bool, route: bool,
                                          entries: seq<Entry>, gateway: Option<bytes>, n: nat)
    requires NetOk(net) && ListOk(net, v6, route, entries) && HopOk(net, v6, gateway) && (route ==> gateway.None?)
    requires Holds(g, v6, route, entries, gateway) && n <= |entries| <= MAXINT32
    ensures ReadAll(net, h, v6, route, g, Expected(route, n)) ==
            ReadState(entries[..n], if n == 0 then None else gateway, false)
  {
    hide ReadAll, ReadKey, ValueText, KeyAt, OptionsKey, NetOk, HopOk, IsCanonical, Get, AttrsOf;
    if n == 0 {
      NothingRead(net, h, v6, route, g);
    } else {
      var i := n - 1;
      ReadAllWritten(net, h, g, v6, route, entries, gateway, i);
      assert Expected(route, n) == Expected(route, i) + [Expected(route, n)[i]];
      ReadAllStep(net, h, v6, route, g, Expected(route, i), Expected(route, n)[i]);
      NoHop(net, v6);
      assert Get(g, KeyAt(route, i + 1)) == Some(ValueText(v6, entries[i], GatewayOf(gateway, i)));
      ReadKeyWritten(net, h, g, v6, entries[i], KeyAt(route, i + 1), GatewayOf(gateway, i), entries[..i],
                     if i == 0 then None else gateway);
      assert entries[..i] + [entries[i]] == entries[..n];
    }
  }

  lemma NoHop(net: Net, v6: bool)
    ensures HopOk(net, v6, None)
  {
  }

  /** What ip_address_or_route_parser makes of a setting once the keys are read. */
  datatype IpState = IpState(addresses: seq<Entry>, routes: seq<Entry>, gateway: Option<bytes>)

  function Apply(net: Net, v6: bool, route: bool, was: IpState, st: ReadState): IpState {
    if st.error then was
    else
      var gateway := if st.gateway.Some? && net.canon(v6, st.gateway.value).Some? then CanonHop(net, v6, st.gateway)
                     else was.gateway;
      if st.list == [] then was.(gateway := gateway)
      else if route then was.(routes := st.list, gateway := gateway)
      else was.(addresses := st.list, gateway := gateway)
  }

  /** What one of the two parsers gives on reading a list that was written. */
  function AfterReading(route: bool, entries: seq<Entry>, gateway: Option<bytes>, was: IpState): IpState {
    if entries == [] then was
    else if route then was.(routes := entries)
    else was.(addresses := entries, gateway := if gateway.Some? then gateway else was.gateway)
  }

  /** Any list of up to 2^31 - 1 valid addresses (with an optional gateway) or routes (with optional next
      hop, metric and attributes) that a group holds is read back exactly and in order: whatever order, and
      however often, the group lists its keys, whatever foreign keys it holds besides, whatever warnings
      would do, and whatever the setting held before. */
  lemma ListRoundTrip(net: Net, h: Severity -> bool, g: Group, v6: bool, route: bool, entries: seq<Entry>,
                      gateway: Option<bytes>, keys: seq<bytes>, items: seq<Item>, was: IpState)
    requires NetOk(net) && ListOk(net, v6, route, entries) && HopOk(net, v6, gateway) && (route ==> gateway.None?)
    requires |entries| <= MAXINT32 && (forall i :: 0 <= i < |entries| ==> Metric(entries[i]) >= -1)
    requires Holds(g, v6, route, entries, gateway)
    requires (forall k :: k in keys <==> k in g.vals) && IsKeyList(items, keys, route)
    ensures Apply(net, v6, route, was, ReadAll(net, h, v6, route, g, items)) ==
            AfterReading(route, entries, gateway, was)
  {
    hide ReadAll, IsKeyList, NetOk, Holds, Written, EntryOk;
    WrittenKeysFound(g, v6, route, entries, gateway, keys, items);
    ReadAllWritten(net, h, g, v6, route, entries, gateway, |entries|);
    assert entries[..|entries|] == entries;
  }

  /** Both lists of a setting, written in either order. */
  function WrittenBoth(g: Group, v6: bool, addresses: seq<Entry>, gateway: Option<bytes>, routes: seq<Entry>,
                       addressesFirst: bool): Group
    requires forall i :: 0 <= i < |addresses| ==> Metric(addresses[i]) >= -1
    requires forall i :: 0 <= i < |routes| ==> Metric(routes[i]) >= -1
  {
    if addressesFirst then Written(Written(g, v6, addresses, gateway), v6, routes, None)
    else Written(Written(g, v6, routes, None), v6, addresses, gateway)
  }

  lemma BothHold(net: Net, g: Group, v6: bool, addresses: seq<Entry>, gateway: Option<bytes>, routes: seq<Entry>,
                 addressesFirst: bool)
    requires ListOk(net, v6, false, addresses) && ListOk(net, v6, true, routes)
    requires |addresses| <= MAXINT32 && |routes| <= MAXINT32 && Unrelated(g, false) && Unrelated(g, true)
    ensures forall i :: 0 <= i < |addresses| ==> Metric(addresses[i]) >= -1
    ensures forall i :: 0 <= i < |routes| ==> Metric(routes[i]) >= -1
    ensures var g' := WrittenBoth(g, v6, addresses, gateway, routes, addressesFirst);
            Holds(g', v6, false, addresses, gateway) && Holds(g', v6, true, routes, None)
  {
    hide Holds, Written, Unrelated, EntryOk;
    MetricsOk(net, v6, false, addresses);
    MetricsOk(net, v6, true, routes);
    var route := !addressesFirst;
    var first, second := if route then routes else addresses, if route then addresses else routes;
    var gw1, gw2 := if route then None else gateway, if route then gateway else None;
    var g1 := Written(g, v6, first, gw1);
    WrittenHolds(g, net, v6, route, first, gw1);
    OtherListKeeps(g1, net, v6, route, first, gw1, second, gw2);
    NothingHeld(g, v6, !route, gw2);
    OtherListKeeps(g, net, v6, !route, [], gw2, first, gw1);
    NothingHeld(g1, v6, !route, gw2);
    WrittenHolds(g1, net, v6, !route, second, gw2);
  }

  /** The addresses, the gateway and the routes of one setting, written to one group in either order, are all
      read back: each list in full and in its order, the gateway with the addresses. */
  lemma BothListsRoundTrip(net: Net, h: Severity -> bool, g: Group, v6: bool, addresses: seq<Entry>,
                           gateway: Option<bytes>, routes: seq<Entry>, addressesFirst: bool, keys: seq<bytes>,
                           items: seq<Item>, routeItems: seq<Item>, was: IpState)
    requires NetOk(net) && ListOk(net, v6, false, addresses) && ListOk(net, v6, true, routes) && HopOk(net, v6, gateway)
    requires |addresses| <= MAXINT32 && |routes| <= MAXINT32 && Unrelated(g, false) && Unrelated(g, true)
    requires forall i :: 0 <= i < |addresses| ==> Metric(addresses[i]) >= -1
    requires forall i :: 0 <= i < |routes| ==> Metric(routes[i]) >= -1
    requires forall k :: k in keys <==> k in WrittenBoth(g, v6, addresses, gateway, routes, addressesFirst).vals
    requires IsKeyList(items, keys, false) && IsKeyList(routeItems, keys, true)
    ensures var g' := WrittenBoth(g, v6, addresses, gateway, routes, addressesFirst);
            var read := Apply(net, v6, false, was, ReadAll(net, h, v6, false, g', items));
            Apply(net, v6, true, read, ReadAll(net, h, v6, true, g', routeItems)) ==
            IpState(if addresses == [] then was.addresses else addresses,
                    if routes == [] then was.routes else routes,
                    if addresses == [] || gateway.None? then was.gateway else gateway)
  {
    hide ReadAll, Apply, IsKeyList, NetOk, Holds, WrittenBoth, Unrelated, EntryOk, HopOk;
    var g' := WrittenBoth(g, v6, addresses, gateway, routes, addressesFirst);
    BothHold(net, g, v6, addresses, gateway, routes, addressesFirst);
    NoHop(net, v6);
    ListRoundTrip(net, h, g', v6, false, addresses, gateway, keys, items, was);
    ListRoundTrip(net, h, g', v6, true, routes, None, keys, routeItems, AfterReading(false, addresses, gateway, was));
  }

  // ---------------------------------------------------------------- as the program does it

  /** NMSettingIPConfig, as far as these lists go */
  class IpSetting {
    const v6: bool
    var addresses: seq<Entry>
    var routes: seq<Entry>
    var gateway: Option<bytes>

    constructor (v6: bool)
      ensures this.v6 == v6 && State() == IpState([], [], None)
    {
      this.v6 := v6;
      addresses, routes, gateway := [], [], None;
    }

    function State(): IpState
      reads this
    {
      IpState(addresses, routes, gateway)
    }

    /** set_property for the gateway: a text that is no address is refused, the unspecified one is dropped. */
    method SetGateway(net: Net, text: bytes)
      modifies this`gateway
      ensures gateway == if net.canon(v6, text).None? then old(gateway) else CanonHop(net, v6, Some(text))
    {
      if net.canon(v6, text).Some? {
        gateway := CanonHop(net, v6, Some(text));
      }
    }

    method SetList(route: bool, list: seq<Entry>)
      modifies this`addresses, this`routes
      ensures addresses == if route then old(addresses) else list
      ensures routes == if route then list else old(routes)
    {
      if route {
        routes := list;
      } else {
        addresses := list;
      }
    }
  }

  method WriteIpValues(file: KeyGroup, v6: bool, route: bool, entries: seq<Entry>, gateway: Option<bytes>)
    requires forall i :: 0 <= i < |entries| ==> Metric(entries[i]) >= -1 && entries[i].Route? == route
    modifies file
    ensures file.Contents() == Written(old(file.Contents()), v6, entries, gateway)
  {
    hide ValueText, KeyAt, OptionsKey, Set;
    for i := 0 to |entries|
      invariant file.Contents() == Written(old(file.Contents()), v6, entries[..i], gateway)
    {
      assert entries[..i + 1][..i] == entries[..i];
      var e := entries[i];
      var keyName := KeyAt(route, i + 1);
      file.SetString(keyName, ValueText(v6, e, if i == 0 then gateway else None));
      if route && e.attrs.Some? {
        file.SetString(OptionsKey(keyName), e.attrs.value);
      }
    }
    assert entries[..|entries|] == entries;
  }

  /** What the reader may meet in a file: C strings. */
  ghost predicate CStrings(g: Group) {
    forall k :: k in g.vals ==> NoNul(g.vals[k])
  }

  /** One turn of the loop: an entry that was read is appended, with its attributes. */
  method ReadItem(net: Net, h: Severity -> bool, file: KeyGroup, v6: bool, route: bool, key: bytes,
                  list0: seq<Entry>, gateway0: Option<bytes>)
    returns (list: seq<Entry>, gateway: Option<bytes>, error: bool)
    requires CStrings(file.Contents())
    ensures ReadState(list, gateway, error) ==
            ReadKey(net, h, v6, route, file.Contents(), key, ReadState(list0, gateway0, false))
  {
    hide ReadOne, OptionsKey, NoNul;
    list, gateway, error := list0, gateway0, false;
    var value := file.GetString(key);
    if value.None? {
      return;
    }
    var o := ReadOneInPlace(net, h, v6, route, value.value);
    if gateway.None? {
      gateway := o.gateway;
    }
    var item := o.entry;
    if item.Some? && item.value.Route? {
      var attrs := file.GetString(OptionsKey(key));
      if attrs.Some? && attrs.value != [] {
        item := Some(item.value.(attrs := attrs));
      }
    }
    if o.error {
      error := true;
    } else if item.Some? {
      list := list + [item.value];
    }
  }

  /** The loop: shadowed entries are skipped, an error ends it. */
  method ReadItems(net: Net, h: Severity -> bool, file: KeyGroup, v6: bool, route: bool, buildList: seq<Item>)
    returns (list: seq<Entry>, gateway: Option<bytes>, error: bool)
    requires CStrings(file.Contents())
    ensures ReadState(list, gateway, error) == ReadAll(net, h, v6, route, file.Contents(), Visible(buildList))
  {
    hide ReadKey, ReadAll, Visible, CStrings;
    ghost var g, items := file.Contents(), Visible(buildList);
    list, gateway, error := [], None, false;
    ghost var done: seq<Item> := [];
    NothingRead(net, h, v6, route, g);
    assert buildList[0..] == buildList;
    for i := 0 to |buildList|
      invariant done + Visible(buildList[i..]) == items
      invariant ReadAll(net, h, v6, route, g, done) == ReadState(list, gateway, false)
    {
      VisibleStep(buildList, i);
      if i + 1 < |buildList| && buildList[i] == buildList[i + 1] {
        continue;
      }
      ReadAllStep(net, h, v6, route, g, done, buildList[i]);
      assert done + [buildList[i]] + Visible(buildList[i + 1..]) == items;
      done := done + [buildList[i]];
      list, gateway, error := ReadItem(net, h, file, v6, route, buildList[i].key, list, gateway);
      if error {
        ReadAllStops(net, h, v6, route, g, done, Visible(buildList[i + 1..]));
        return;
      }
    }
    NothingVisible(buildList);
    assert done == items;
    error := false;
  }

  /** The result items tells which keys were read, in which order. */
  method IpAddressOrRouteParser(net: Net, h: Severity -> bool, file: KeyGroup, setting: IpSetting, route: bool)
    returns (error: bool, ghost items: seq<Item>)
    requires CStrings(file.Contents())
    modifies setting
    ensures IsKeyList(items, file.Contents().keys, route)
    ensures var st := ReadAll(net, h, setting.v6, route, file.Contents(), items);
            error == st.error && setting.State() == Apply(net, setting.v6, route, old(setting.State()), st)
  {
    hide ReadAll, Before, Ascending, ItemFor, SortedBy, Visible, CStrings, CanonHop;
    var keys := file.GetKeys();
    var buildList := BuildListCreate(keys, Name(route), Plural(route));
    items := Visible(buildList);
    VisibleSorted(buildList);
    VisibleSameMembers(buildList);
    var list, gateway, failed := ReadItems(net, h, file, setting.v6, route, buildList);
    if failed {
      return true, items;
    }
    if |list| >= 1 {
      setting.SetList(route, list);
    }
    if gateway.Some? {
      setting.SetGateway(net, gateway.value);
    }
    error := false;
  }

  lemma VisibleStep(list: seq<Item>, i: nat)
    requires i < |list|
    ensures Visible(list[i..]) ==
            if i + 1 < |list| && list[i] == list[i + 1] then Visible(list[i + 1..])
            else [list[i]] + Visible(list[i + 1..])
  {
    assert list[i..][1..] == list[i + 1..];
  }

  lemma NothingVisible(list: seq<Item>)
    ensures Visible(list[|list|..]) == []
  {
  }

  /** An error ends the reading. */
  lemma {:induction false} ReadAllStops(net: Net, h: Severity -> bool, v6: bool, route: bool, g: Group,
                                        done: seq<Item>, more: seq<Item>)
    requires ReadAll(net, h, v6, route, g, done).error
    ensures ReadAll(net, h, v6, route, g, done + more) == ReadAll(net, h, v6, route, g, done)
  {
    if more == [] {
      assert done + more == done;
    } else {
      var n := |more| - 1;
      ReadAllStops(net, h, v6, route, g, done, more[..n]);
      assert done + more == done + more[..n] + [more[n]];
      ReadAllStep(net, h, v6, route, g, done + more[..n], more[n]);
    }
  }
}
