/** Numbered keys of a keyfile group, such as "route3": which keys belong to a list and in what order. */
module KeyIndex {
  import opened Options
  import opened Sorting
  import opened StrOrder
  import opened Text

  const MAXINT32: int := 0x7FFF_FFFF

  /** _build_list_match_key_w_name_impl: -1 for the bare name, else the number behind it. */
  function MatchKey(key: bytes, base: bytes): Option<int> {
    if !HasPrefix(key, base) then None
    else
      var rest := key[|base|..];
      if rest == [] then Some(-1)
      else if rest[0] == '0' then if |rest| == 1 then Some(0) else None
      else if !AllDigits(rest) then None
      else StrToInt64(rest, 0, MAXINT32)
  }

  /** Per base name a number belongs to one key only. */
  lemma MatchInjective(a: bytes, b: bytes, base: bytes)
    requires MatchKey(a, base).Some? && MatchKey(a, base) == MatchKey(b, base)
    ensures a == b
  {
    MatchMeans(a, base);
    MatchMeans(b, base);
  }

  /** A key matches exactly when it is the name, or the name and a number without leading zeros. */
  lemma MatchMeans(key: bytes, base: bytes)
    ensures MatchKey(key, base) == Some(-1) <==> key == base
    ensures MatchKey(key, base).Some? ==> -1 <= MatchKey(key, base).value <= MAXINT32
    ensures forall n: nat :: MatchKey(key, base) == Some(n) <==> n <= MAXINT32 && key == base + Dec(n)
  {
    forall n: nat ensures MatchKey(key, base) == Some(n) <==> n <= MAXINT32 && key == base + Dec(n) {
      if n <= MAXINT32 && key == base + Dec(n) {
        assert key[..|base|] == base && key[|base|..] == Dec(n);
        DecLeading(n);
        DecRoundTrip(n);
        StrToInt64Dec(n, 0, MAXINT32);
      }
      if MatchKey(key, base) == Some(n) {
        var rest := key[|base|..];
        assert key == base + rest;
        if rest[0] == '0' {
          assert rest == "0" && Dec(0) == "0";
        } else {
          StrToInt64Digits(rest, 0, MAXINT32);
          DecUnique(rest);
        }
      }
    }
    if |key| >= |base| && key[..|base|] == base && key[|base|..] != [] {
      var rest := key[|base|..];
      if rest[0] != '0' && AllDigits(rest) {
        StrToInt64Digits(rest, 0, MAXINT32);
      }
    } else if key == base {
      assert key[|base|..] == [];
    }
  }

  // ---------------------------------------------------------------- the list of matching keys

  /** BuildListData: a key, its number, and which of the two names of the list it has. */
  datatype Item = Item(key: bytes, idx: int, kind: nat)

  /** _build_list_data_cmp (a, b) < 0 */
  predicate Before(a: Item, b: Item) {
    || a.idx < b.idx
    || (a.idx == b.idx && (a.kind < b.kind || (a.kind == b.kind && Less(a.key, b.key))))
  }

  lemma BeforeIsStrict()
    ensures StrictOrder(Before)
  {
    LessIsStrict();
  }

  /** The entry for one key: the singular name is tried before the plural one. */
  function ItemFor(key: bytes, name: bytes, plural: bytes): Option<Item> {
    var one := MatchKey(key, name);
    if one.Some? then Some(Item(key, one.value, 0))
    else
      var many := MatchKey(key, plural);
      if many.Some? then Some(Item(key, many.value, 1)) else None
  }

  /** Both names of a list count, the number decides, and of one number the singular name comes first. */
  lemma OrderOfKeys(name: bytes, plural: bytes, m: nat, n: nat)
    requires m <= n <= 0x7FFF_FFFF && MatchKey(plural + Dec(m), name).None? && MatchKey(plural + Dec(n), name).None?
    ensures var a, b := ItemFor(name + Dec(m), name, plural), ItemFor(name + Dec(n), name, plural);
            var c, d := ItemFor(plural + Dec(m), name, plural), ItemFor(plural + Dec(n), name, plural);
            && a.Some? && b.Some? && c.Some? && d.Some?
            && Before(a.value, d.value) && !Before(d.value, a.value)
            && (m < n ==> Before(a.value, b.value) && Before(c.value, d.value) && Before(c.value, b.value))
  {
    MatchMeans(name + Dec(m), name);
    MatchMeans(name + Dec(n), name);
    MatchMeans(plural + Dec(m), plural);
    MatchMeans(plural + Dec(n), plural);
  }

  /** A bare name comes before its numbers, and a number is at most 2147483647. */
  lemma BareNameIsFirst(name: bytes, plural: bytes, n: nat)
    ensures MatchKey(name + Dec(n), name).Some? <==> n <= 0x7FFF_FFFF
    ensures var a, b := ItemFor(name, name, plural), ItemFor(name + Dec(n), name, plural);
            n <= 0x7FFF_FFFF ==> a.Some? && b.Some? && Before(a.value, b.value)
  {
    MatchMeans(name, name);
    MatchMeans(name + Dec(n), name);
    if MatchKey(name + Dec(n), name).Some? && MatchKey(name + Dec(n), name).value >= 0 {
      var m: nat := MatchKey(name + Dec(n), name).value;
      assert (name + Dec(n))[|name|..] == Dec(n) && (name + Dec(m))[|name|..] == Dec(m);
      DecRoundTrip(n);
      DecRoundTrip(m);
    }
  }

  function Matching(keys: seq<bytes>, name: bytes, plural: bytes): seq<Item> {
    if keys == [] then []
    else
      var before := Matching(keys[..|keys| - 1], name, plural);
      var item := ItemFor(keys[|keys| - 1], name, plural);
      if item.Some? then before + [item.value] else before
  }

  lemma {:induction false} MatchingMembers(keys: seq<bytes>, name: bytes, plural: bytes)
    ensures forall it :: it in Matching(keys, name, plural) <==>
                         it.key in keys && ItemFor(it.key, name, plural) == Some(it)
  {
    if keys != [] {
      var n := |keys| - 1;
      MatchingMembers(keys[..n], name, plural);
      assert keys == keys[..n] + [keys[n]];
    }
  }

  /** Ascending, equal entries next to each other. */
  ghost predicate Ascending(list: seq<Item>) {
    forall i, j :: 0 <= i < j < |list| ==> !Before(list[j], list[i])
  }

  /** The entries that are not followed by their own duplicate (_build_list_data_is_shadowed). */
  function Visible(list: seq<Item>): seq<Item> {
    if |list| <= 1 then list
    else if list[0] == list[1] then Visible(list[1..])
    else [list[0]] + Visible(list[1..])
  }

  lemma {:induction false} VisibleSameMembers(list: seq<Item>)
    ensures forall x :: x in Visible(list) <==> x in list
  {
    if |list| > 1 {
      VisibleSameMembers(list[1..]);
      assert list == [list[0]] + list[1..];
      assert list[1..][0] == list[1];
    }
  }

  lemma BeforeTotal(a: Item, b: Item)
    ensures a == b || Before(a, b) || Before(b, a)
  {
    LessTotal(a.key, b.key);
  }

  /** In an ascending list, what remains visible is strictly sorted: every duplicate is dropped, and
      nothing else. */
  lemma {:induction false} VisibleSorted(list: seq<Item>)
    requires Ascending(list)
    ensures SortedBy(Before, Visible(list))
  {
    if |list| > 1 {
      VisibleSorted(list[1..]);
      VisibleSameMembers(list[1..]);
      if list[0] != list[1] {
        forall x | x in list[1..] ensures Before(list[0], x) {
          var i :| 1 <= i < |list| && list[i] == x;
          BeforeTotal(list[0], x);
          BeforeTotal(list[0], list[1]);
          BeforeIsStrict();
          BeforeTotal(list[1], x);
        }
      }
    }
  }

  /** g_qsort_with_data on the entries: insertion stands for whatever the library does. */
  method SortItems(items: seq<Item>) returns (list: seq<Item>)
    ensures Ascending(list) && multiset(list) == multiset(items)
  {
    hide Before, Ascending;
    list := [];
    NothingAscends();
    for i := 0 to |items|
      invariant Ascending(list) && multiset(list) == multiset(items[..i])
    {
      var x := items[i];
      var j := |list|;
      while j > 0 && Before(x, list[j - 1])
        invariant 0 <= j <= |list|
        invariant forall k :: j <= k < |list| ==> Before(x, list[k])
      {
        j := j - 1;
      }
      InsertKeepsOrder(list, x, j);
      assert items[..i + 1] == items[..i] + [x];
      assert multiset(list) == multiset(list[..j]) + multiset(list[j..]) by { assert list == list[..j] + list[j..]; }
      list := list[..j] + [x] + list[j..];
    }
    assert items[..|items|] == items;
  }

  lemma NothingAscends()
    ensures Ascending([])
  {
  }

  lemma InsertKeepsOrder(list: seq<Item>, x: Item, j: nat)
    requires Ascending(list) && j <= |list|
    requires forall k :: j <= k < |list| ==> Before(x, list[k])
    requires j > 0 ==> !Before(x, list[j - 1])
    ensures Ascending(list[..j] + [x] + list[j..])
  {
    hide Before;
    BeforeIsStrict();
    forall k | 0 <= k < j ensures !Before(x, list[k]) {
      if Before(x, list[k]) && k < j - 1 {
        assert !Before(list[j - 1], list[k]);
        BeforeTotal(list[j - 1], list[k]);
      }
    }
  }

  /** _build_list_create */
  method BuildListCreate(keys: seq<bytes>, name: bytes, plural: bytes) returns (list: seq<Item>)
    ensures Ascending(list)
    ensures forall it :: it in list <==> it.key in keys && ItemFor(it.key, name, plural) == Some(it)
  {
    var build: seq<Item> := [];
    for i := 0 to |keys|
      invariant build == Matching(keys[..i], name, plural)
    {
      assert keys[..i + 1][..i] == keys[..i];
      var item := ItemFor(keys[i], name, plural);
      if item.None? {
        continue;
      }
      build := build + [item.value];
    }
    assert keys[..|keys|] == keys;
    MatchingMembers(keys, name, plural);
    list := build;
    if |build| > 1 {
      list := SortItems(build);
      SameMembers(list, build);
    }
  }

  lemma SameMembers(a: seq<Item>, b: seq<Item>)
    requires multiset(a) == multiset(b)
    ensures forall x :: x in a <==> x in b
  {
    forall x ensures x in a <==> x in b {
      assert x in a <==> x in multiset(a);
      assert x in b <==> x in multiset(b);
    }
  }
}
