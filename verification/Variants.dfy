/** D-Bus values as GVariant has them, without doubles. */
module Variants {
  import opened Options
  import opened Text

  datatype Basic =
    | Boolean | Byte | Int16 | Uint16 | Int32 | Uint32 | Int64 | Uint64 | Handle
    | String | ObjectPath | Signature

  datatype VType =
    | TBasic(basic: Basic)
    | TBoxed
    | TArray(elem: VType)
    | TTuple(parts: seq<VType>)
    | TEntry(key: VType, val: VType)

  datatype Variant =
    | Number(basic: Basic, n: int)
    | Text(basic: Basic, s: bytes)
    | Boxed(content: Variant)
    | Array(elem: VType, items: seq<Variant>)
    | Tuple(items: seq<Variant>)
    | Entry(key: Variant, val: Variant)

  const STRING := TBasic(String)
  const STR_DICT := TArray(TEntry(STRING, STRING))
  const VAR_DICT := TArray(TEntry(STRING, TBoxed))

  predicate IsText(b: Basic) {
    b.String? || b.ObjectPath? || b.Signature?
  }

  function TypeOf(v: Variant): VType {
    match v
    case Number(basic, _) => TBasic(basic)
    case Text(basic, _) => TBasic(basic)
    case Boxed(_) => TBoxed
    case Array(elem, _) => TArray(elem)
    case Tuple(items) => TTuple(seq(|items|, i requires 0 <= i < |items| => TypeOf(items[i])))
    case Entry(key, val) => TEntry(TypeOf(key), TypeOf(val))
  }

  /** The values of a numeric type. */
  predicate InRange(b: Basic, n: int) {
    match b
    case Boolean => 0 <= n <= 1
    case Byte => 0 <= n <= 0xFF
    case Int16 => -0x8000 <= n <= 0x7FFF
    case Uint16 => 0 <= n <= 0xFFFF
    case Int32 | Handle => -0x8000_0000 <= n <= 0x7FFF_FFFF
    case Uint32 => 0 <= n <= 0xFFFF_FFFF
    case Int64 => -0x8000_0000_0000_0000 <= n <= 0x7FFF_FFFF_FFFF_FFFF
    case Uint64 => 0 <= n <= 0xFFFF_FFFF_FFFF_FFFF
    case String | ObjectPath | Signature => false
  }

  predicate WellTyped(v: Variant) {
    match v
    case Number(basic, n) => InRange(basic, n)
    case Text(basic, s) => IsText(basic)
    case Boxed(content) => WellTyped(content)
    case Array(elem, items) => forall i :: 0 <= i < |items| ==> WellTyped(items[i]) && TypeOf(items[i]) == elem
    case Tuple(items) => forall i :: 0 <= i < |items| ==> WellTyped(items[i])
    case Entry(key, val) => TypeOf(key).TBasic? && WellTyped(key) && WellTyped(val)
  }

  predicate IsCollection(v: Variant) {
    v.Array? || v.Tuple?
  }

  // ---------------------------------------------------------------- dictionaries

  predicate IsDict(v: Variant) {
    v.Array? && (TypeOf(v) == STR_DICT || TypeOf(v) == VAR_DICT)
  }

  /** An entry of such a dictionary: a string and, for a{sv}, a boxed value. */
  predicate DictEntry(e: Variant) {
    e.Entry? && e.key.Text?
  }

  function KeyOf(e: Variant): bytes
    requires DictEntry(e)
  {
    e.key.s
  }

  lemma DictEntries(v: Variant)
    requires WellTyped(v) && IsDict(v)
    ensures forall i :: 0 <= i < |v.items| ==> DictEntry(v.items[i]) && WellTyped(v.items[i].val)
    ensures forall i :: 0 <= i < |v.items| ==> TypeOf(v.items[i].val) == v.elem.val
  {
    forall i | 0 <= i < |v.items|
      ensures DictEntry(v.items[i]) && WellTyped(v.items[i].val) && TypeOf(v.items[i].val) == v.elem.val
    {
      var e := v.items[i];
      assert WellTyped(e) && TypeOf(e) == v.elem;
      assert e.Entry? && WellTyped(e.key) && TypeOf(e.key) == STRING;
    }
  }

  predicate Entries(items: seq<Variant>) {
    forall i :: 0 <= i < |items| ==> DictEntry(items[i])
  }

  ghost predicate DistinctKeys(items: seq<Variant>)
    requires Entries(items)
  {
    forall i, j :: 0 <= i < j < |items| ==> KeyOf(items[i]) != KeyOf(items[j])
  }

  /** g_variant_lookup: the value of the first entry with this key. */
  function Lookup(items: seq<Variant>, key: bytes): Option<Variant> {
    if items == [] then None
    else if DictEntry(items[0]) && KeyOf(items[0]) == key then Some(items[0].val)
    else Lookup(items[1..], key)
  }

  /** The dictionary as a map. */
  ghost function DictOf(items: seq<Variant>): map<bytes, Variant>
    requires Entries(items)
  {
    if items == [] then map[] else DictOf(items[1..])[KeyOf(items[0]) := items[0].val]
  }

  lemma {:induction false} LookupIsDict(items: seq<Variant>, key: bytes)
    requires Entries(items)
    ensures Lookup(items, key) == if key in DictOf(items) then Some(DictOf(items)[key]) else None
  {
    if items != [] { LookupIsDict(items[1..], key); }
  }

  lemma {:induction false} DictKeys(items: seq<Variant>)
    requires Entries(items)
    ensures forall k :: k in DictOf(items) <==> exists i :: 0 <= i < |items| && KeyOf(items[i]) == k
  {
    if items != [] {
      var rest := items[1..];
      DictKeys(rest);
      forall k ensures k in DictOf(items) <==> exists i :: 0 <= i < |items| && KeyOf(items[i]) == k {
        if i :| 0 <= i < |items| && KeyOf(items[i]) == k {
          if i > 0 { assert KeyOf(rest[i - 1]) == k; }
        }
        if k in DictOf(rest) {
          var i :| 0 <= i < |rest| && KeyOf(rest[i]) == k;
          assert KeyOf(items[i + 1]) == k;
        }
        if k == KeyOf(items[0]) { assert KeyOf(items[0]) == k; }
      }
    }
  }

  /** With distinct keys, the map has every entry, and as many. */
  lemma {:induction false} DictHasAll(items: seq<Variant>)
    requires Entries(items) && DistinctKeys(items)
    ensures |DictOf(items)| == |items|
    ensures forall i :: 0 <= i < |items| ==>
                          KeyOf(items[i]) in DictOf(items) && DictOf(items)[KeyOf(items[i])] == items[i].val
  {
    if items != [] {
      var rest := items[1..];
      DictHasAll(rest);
      DictKeys(rest);
      assert KeyOf(items[0]) !in DictOf(rest);
      assert DictOf(items).Keys == DictOf(rest).Keys + {KeyOf(items[0])};
      assert |DictOf(items).Keys| == |DictOf(items)| && |DictOf(rest).Keys| == |DictOf(rest)|;
      forall i | 0 <= i < |items|
        ensures KeyOf(items[i]) in DictOf(items) && DictOf(items)[KeyOf(items[i])] == items[i].val
      {
        if i > 0 { assert items[i] == rest[i - 1]; }
      }
    }
  }

  ghost predicate Contains(b: seq<Variant>, a: seq<Variant>)
    requires Entries(a)
  {
    forall i :: 0 <= i < |a| ==> Lookup(b, KeyOf(a[i])) == Some(a[i].val)
  }

  lemma ContainsIsSubmap(a: seq<Variant>, b: seq<Variant>)
    requires Entries(a) && Entries(b) && DistinctKeys(a)
    ensures Contains(b, a) <==> forall k :: k in DictOf(a) ==> k in DictOf(b) && DictOf(b)[k] == DictOf(a)[k]
  {
    hide Lookup;
    var m, n := DictOf(a), DictOf(b);
    DictHasAll(a);
    DictKeys(a);
    forall k ensures Lookup(b, k) == if k in n then Some(n[k]) else None {
      LookupIsDict(b, k);
    }
    if Contains(b, a) {
      forall k | k in m ensures k in n && n[k] == m[k] {
        var i :| 0 <= i < |a| && KeyOf(a[i]) == k;
      }
    }
  }

  /** As many entries, and each of the first in the second: then the two are the same map. */
  lemma SameDict(a: seq<Variant>, b: seq<Variant>)
    requires Entries(a) && Entries(b) && DistinctKeys(a) && DistinctKeys(b)
    ensures DictOf(a) == DictOf(b) <==> |a| == |b| && Contains(b, a)
  {
    hide DictOf, Entries, Contains, DistinctKeys;
    DictHasAll(a);
    DictHasAll(b);
    ContainsIsSubmap(a, b);
    var m, n := DictOf(a), DictOf(b);
    if |a| == |b| && Contains(b, a) {
      SubmapOfSameSize(m, n);
    }
  }

  lemma SubmapOfSameSize<K, V>(m: map<K, V>, n: map<K, V>)
    requires |m| == |n| && forall k :: k in m ==> k in n && n[k] == m[k]
    ensures m == n
  {
    assert |m.Keys| == |m| && |n.Keys| == |n|;
    assert n.Keys == m.Keys + (n.Keys - m.Keys);
    assert n.Keys - m.Keys == {};
  }
}
