/** nm_property_compare on D-Bus values. */
module PropertyCompare {
  import opened Options
  import opened Text
  import opened StrOrder
  import opened Variants

  function Sign(a: int, b: int): int {
    if a < b then -1 else if a > b then 1 else 0
  }

  /** The sign of strcmp */
  function Strcmp(a: bytes, b: bytes): int {
    if a == b then 0 else if Less(a, b) then -1 else 1
  }

  /** g_variant_compare on two values of one basic type; only the sign of the result matters. */
  function CompareBasic(a: Variant, b: Variant): int {
    if a.Number? && b.Number? then Sign(a.n, b.n)
    else if a.Text? && b.Text? then Strcmp(a.s, b.s)
    else 0
  }

  /** _nm_property_compare_strdict, from entry i of the first on */
  function StrDictFrom(a: seq<Variant>, b: seq<Variant>, i: nat): int
    decreases |a| - i
  {
    if i >= |a| then 0
    else if !DictEntry(a[i]) || Lookup(b, KeyOf(a[i])).None? then -1
    else
      var c := CompareBasic(a[i].val, Lookup(b, KeyOf(a[i])).value);
      if c != 0 then c else StrDictFrom(a, b, i + 1)
  }

  /** _nm_property_compare_vardict, from entry i of the first on: values count as g_variant_equal has them. */
  function VarDictFrom(a: seq<Variant>, b: seq<Variant>, i: nat): int
    decreases |a| - i
  {
    if i >= |a| then 0
    else if !DictEntry(a[i]) || Lookup(b, KeyOf(a[i])) != Some(a[i].val) then -1
    else VarDictFrom(a, b, i + 1)
  }

  /** Where the type descriptions of different types happen to lie in memory. */
  datatype Layout = Layout(address: VType -> int)

  ghost predicate LayoutOk(l: Layout) {
    forall s, t :: l.address(s) == l.address(t) ==> s == t
  }

  function Compare(l: Layout, a: Variant, b: Variant): int
    decreases a, 1, 0
  {
    if TypeOf(a) != TypeOf(b) then Sign(l.address(TypeOf(a)), l.address(TypeOf(b)))
    else if TypeOf(a).TBasic? then CompareBasic(a, b)
    else if !IsCollection(a) || !IsCollection(b) then 0
    else if |a.items| != |b.items| then Sign(|a.items|, |b.items|)
    else if TypeOf(a) == STR_DICT then StrDictFrom(a.items, b.items, 0)
    else if TypeOf(a) == VAR_DICT then VarDictFrom(a.items, b.items, 0)
    else CompareFrom(l, a, b, 0)
  }

  /** _nm_property_compare_collection, from child i on */
  function CompareFrom(l: Layout, a: Variant, b: Variant, i: nat): int
    requires IsCollection(a) && IsCollection(b) && |a.items| == |b.items|
    decreases a, 0, |a.items| - i
  {
    if i >= |a.items| then 0
    else
      var c := Compare(l, a.items[i], b.items[i]);
      if c != 0 then c else CompareFrom(l, a, b, i + 1)
  }

  // ---------------------------------------------------------------- a total order

  /** Types without dictionaries and boxed values. */
  predicate Ordered(t: VType) {
    match t
    case TBasic(_) => true
    case TBoxed => false
    case TArray(elem) => Ordered(elem)
    case TTuple(parts) => forall i :: 0 <= i < |parts| ==> Ordered(parts[i])
    case TEntry(_, _) => false
  }

  lemma OrderedChildren(a: Variant)
    requires WellTyped(a) && Ordered(TypeOf(a)) && IsCollection(a)
    ensures TypeOf(a) != STR_DICT && TypeOf(a) != VAR_DICT
    ensures forall i :: 0 <= i < |a.items| ==> WellTyped(a.items[i]) && Ordered(TypeOf(a.items[i]))
  {
    if a.Tuple? {
      forall i | 0 <= i < |a.items| ensures Ordered(TypeOf(a.items[i])) {
        assert TypeOf(a).parts[i] == TypeOf(a.items[i]);
      }
    }
  }

  lemma SameTypeChildren(a: Variant, b: Variant, i: nat)
    requires WellTyped(a) && WellTyped(b) && TypeOf(a) == TypeOf(b) && IsCollection(a)
    ensures IsCollection(b) && a.Array? == b.Array?
    ensures i < |a.items| && i < |b.items| ==> TypeOf(a.items[i]) == TypeOf(b.items[i])
  {
    if a.Tuple? && i < |a.items| && i < |b.items| {
      assert TypeOf(a).parts[i] == TypeOf(b).parts[i];
    }
  }

  lemma BasicShape(a: Variant, b: Variant)
    requires WellTyped(a) && WellTyped(b) && TypeOf(a) == TypeOf(b)
    ensures TypeOf(a).TBasic? ==> a.basic == b.basic && ((a.Number? && b.Number?) || (a.Text? && b.Text?))
    ensures IsCollection(a) <==> TypeOf(a).TArray? || TypeOf(a).TTuple?
  {
  }

  lemma StrcmpFacts(a: bytes, b: bytes, c: bytes)
    ensures Strcmp(a, b) == -Strcmp(b, a)
    ensures Strcmp(a, b) <= 0 && Strcmp(b, c) <= 0 ==> Strcmp(a, c) <= 0
  {
    LessTotal(a, b);
    LessIsStrict();
    LessTotal(b, c);
    LessTotal(a, c);
  }

  /** Equal means identical, and swapping the values swaps the sign. */
  lemma {:induction false} Antisymmetric(l: Layout, a: Variant, b: Variant)
    requires WellTyped(a) && WellTyped(b) && TypeOf(a) == TypeOf(b) && Ordered(TypeOf(a))
    ensures Compare(l, a, b) == -Compare(l, b, a)
    ensures Compare(l, a, b) == 0 <==> a == b
    decreases a, 1, 0
  {
    BasicShape(a, b);
    if IsCollection(a) {
      SameTypeChildren(a, b, 0);
      OrderedChildren(a);
      if |a.items| == |b.items| {
        AntisymmetricFrom(l, a, b, 0);
        assert a == b <==> a.items == b.items;
      }
    } else if a.Text? {
      StrcmpFacts(a.s, b.s, b.s);
    }
  }

  lemma {:induction false} AntisymmetricFrom(l: Layout, a: Variant, b: Variant, i: nat)
    requires WellTyped(a) && WellTyped(b) && TypeOf(a) == TypeOf(b) && Ordered(TypeOf(a))
    requires IsCollection(a) && IsCollection(b) && |a.items| == |b.items| && i <= |a.items|
    ensures CompareFrom(l, a, b, i) == -CompareFrom(l, b, a, i)
    ensures CompareFrom(l, a, b, i) == 0 <==> a.items[i..] == b.items[i..]
    decreases a, 0, |a.items| - i
  {
    if i < |a.items| {
      OrderedChildren(a);
      OrderedChildren(b);
      SameTypeChildren(a, b, i);
      Antisymmetric(l, a.items[i], b.items[i]);
      AntisymmetricFrom(l, a, b, i + 1);
      assert a.items[i..] == [a.items[i]] + a.items[i + 1..];
      assert b.items[i..] == [b.items[i]] + b.items[i + 1..];
    }
  }

  lemma {:induction false} Transitive(l: Layout, a: Variant, b: Variant, c: Variant)
    requires WellTyped(a) && WellTyped(b) && WellTyped(c)
    requires TypeOf(a) == TypeOf(b) == TypeOf(c) && Ordered(TypeOf(a))
    requires Compare(l, a, b) <= 0 && Compare(l, b, c) <= 0
    ensures Compare(l, a, c) <= 0
    decreases a, 1, 0
  {
    BasicShape(a, b);
    BasicShape(b, c);
    if IsCollection(a) {
      SameTypeChildren(a, b, 0);
      SameTypeChildren(b, c, 0);
      OrderedChildren(a);
      if |a.items| == |b.items| == |c.items| {
        TransitiveFrom(l, a, b, c, 0);
      }
    } else if a.Text? {
      StrcmpFacts(a.s, b.s, c.s);
    }
  }

  lemma {:induction false} TransitiveFrom(l: Layout, a: Variant, b: Variant, c: Variant, i: nat)
    requires WellTyped(a) && WellTyped(b) && WellTyped(c)
    requires TypeOf(a) == TypeOf(b) == TypeOf(c) && Ordered(TypeOf(a))
    requires IsCollection(a) && IsCollection(b) && IsCollection(c) && |a.items| == |b.items| == |c.items|
    requires CompareFrom(l, a, b, i) <= 0 && CompareFrom(l, b, c, i) <= 0
    ensures CompareFrom(l, a, c, i) <= 0
    decreases a, 0, |a.items| - i
  {
    if i < |a.items| {
      var x, y, z := a.items[i], b.items[i], c.items[i];
      OrderedChildren(a);
      OrderedChildren(b);
      OrderedChildren(c);
      SameTypeChildren(a, b, i);
      SameTypeChildren(b, c, i);
      Antisymmetric(l, x, y);
      Antisymmetric(l, y, z);
      Antisymmetric(l, x, z);
      Transitive(l, x, y, z);
      if x == z {
        if x == y { TransitiveFrom(l, a, b, c, i + 1); }
      }
    }
  }

  /** The direction of the order: numbers by size, texts by strcmp, and collections by their length and then by
      the first items that differ. */
  lemma SmallerMeans(l: Layout, a: Variant, b: Variant)
    requires WellTyped(a) && WellTyped(b) && TypeOf(a) == TypeOf(b) && Ordered(TypeOf(a))
    ensures a.Number? && b.Number? ==> (Compare(l, a, b) < 0 <==> a.n < b.n)
    ensures a.Text? && b.Text? ==> (Compare(l, a, b) < 0 <==> Less(a.s, b.s))
    ensures IsCollection(a) && IsCollection(b) ==>
              (Compare(l, a, b) < 0 <==>
               || |a.items| < |b.items|
               || (|a.items| == |b.items| && exists i :: FirstSmaller(l, a.items, b.items, i)))
  {
    BasicShape(a, b);
    if IsCollection(a) {
      OrderedChildren(a);
      if |a.items| == |b.items| {
        SmallerFrom(l, a, b, 0);
      }
    } else if a.Text? && Less(a.s, b.s) {
      LessIrreflexive(a.s);
    }
  }

  /** The items agree before i, and are in order at i. */
  ghost predicate FirstSmaller(l: Layout, s: seq<Variant>, t: seq<Variant>, i: nat) {
    i < |s| == |t| && s[..i] == t[..i] && Compare(l, s[i], t[i]) < 0
  }

  lemma {:induction false} SmallerFrom(l: Layout, a: Variant, b: Variant, i: nat)
    requires WellTyped(a) && WellTyped(b) && TypeOf(a) == TypeOf(b) && Ordered(TypeOf(a))
    requires IsCollection(a) && IsCollection(b) && |a.items| == |b.items| && i <= |a.items|
    requires a.items[..i] == b.items[..i]
    ensures CompareFrom(l, a, b, i) < 0 <==> exists j :: i <= j && FirstSmaller(l, a.items, b.items, j)
    decreases |a.items| - i
  {
    if i < |a.items| {
      var x, y := a.items[i], b.items[i];
      OrderedChildren(a);
      OrderedChildren(b);
      SameTypeChildren(a, b, i);
      Antisymmetric(l, x, y);
      if x == y {
        assert a.items[..i + 1] == a.items[..i] + [x] && b.items[..i + 1] == b.items[..i] + [y];
        SmallerFrom(l, a, b, i + 1);
        assert !FirstSmaller(l, a.items, b.items, i);
      } else {
        forall j | i < j < |a.items| ensures a.items[..j] != b.items[..j] {
          assert a.items[..j][i] == x && b.items[..j][i] == y;
        }
        if Compare(l, x, y) < 0 { assert FirstSmaller(l, a.items, b.items, i); }
      }
    }
  }

  // ---------------------------------------------------------------- when two values count as equal

  /** Equal with dictionaries a{ss} and a{sv} read as maps. What the program cannot compare, boxed values
      outside a{sv} and the entries of other dictionaries, passes for equal. */
  ghost predicate Alike(a: Variant, b: Variant) {
    && TypeOf(a) == TypeOf(b)
    && (TypeOf(a).TBasic? ==> a == b)
    && (IsCollection(a) && IsCollection(b) ==>
          && |a.items| == |b.items|
          && if IsDict(a) then Entries(a.items) && Entries(b.items) && DictOf(a.items) == DictOf(b.items)
             else forall i :: 0 <= i < |a.items| ==> Alike(a.items[i], b.items[i]))
  }

  /** No dictionary that is compared as one has a key twice. */
  ghost predicate KeysOnce(v: Variant) {
    IsCollection(v) ==>
      if IsDict(v) then Entries(v.items) && DistinctKeys(v.items)
      else forall i :: 0 <= i < |v.items| ==> KeysOnce(v.items[i])
  }

  lemma CompareTexts(a: Variant, b: Variant)
    requires WellTyped(a) && WellTyped(b) && TypeOf(a) == TypeOf(b) && TypeOf(a).TBasic?
    ensures CompareBasic(a, b) == 0 <==> a == b
  {
    BasicShape(a, b);
  }

  lemma {:induction false} LookupIsEntry(items: seq<Variant>, key: bytes)
    ensures Lookup(items, key).Some? ==>
              exists i :: 0 <= i < |items| && items[i].Entry? && Some(items[i].val) == Lookup(items, key)
  {
    if items != [] && !(DictEntry(items[0]) && KeyOf(items[0]) == key) {
      LookupIsEntry(items[1..], key);
      if Lookup(items, key).Some? {
        var i :| 0 <= i < |items[1..]| && items[1..][i].Entry? && Some(items[1..][i].val) == Lookup(items[1..], key);
        assert items[i + 1] == items[1..][i];
      }
    }
  }

  lemma {:induction false} StrDictZero(a: Variant, b: Variant, i: nat)
    requires WellTyped(a) && WellTyped(b) && TypeOf(a) == TypeOf(b) == STR_DICT && i <= |a.items|
    ensures Entries(a.items)
    ensures StrDictFrom(a.items, b.items, i) == 0 <==>
            forall j :: i <= j < |a.items| ==> Lookup(b.items, KeyOf(a.items[j])) == Some(a.items[j].val)
    decreases |a.items| - i
  {
    hide WellTyped, CompareBasic, Lookup;
    DictEntries(a);
    DictEntries(b);
    if i < |a.items| {
      StrDictZero(a, b, i + 1);
      var key := KeyOf(a.items[i]);
      LookupIsEntry(b.items, key);
      if Lookup(b.items, key).Some? {
        var j :| 0 <= j < |b.items| && b.items[j].Entry? && Some(b.items[j].val) == Lookup(b.items, key);
        CompareTexts(a.items[i].val, b.items[j].val);
      }
    }
  }

  lemma {:induction false} VarDictZero(a: seq<Variant>, b: seq<Variant>, i: nat)
    requires Entries(a) && i <= |a|
    ensures VarDictFrom(a, b, i) == 0 <==> forall j :: i <= j < |a| ==> Lookup(b, KeyOf(a[j])) == Some(a[j].val)
    decreases |a| - i
  {
    if i < |a| { VarDictZero(a, b, i + 1); }
  }

  lemma DictZero(l: Layout, a: Variant, b: Variant)
    requires WellTyped(a) && WellTyped(b) && TypeOf(a) == TypeOf(b) && IsDict(a) && KeysOnce(a) && KeysOnce(b)
    ensures Compare(l, a, b) == 0 <==> |a.items| == |b.items| && DictOf(a.items) == DictOf(b.items)
  {
    hide WellTyped, StrDictFrom, VarDictFrom, Lookup, DictOf;
    SameDict(a.items, b.items);
    if TypeOf(a) == STR_DICT {
      StrDictZero(a, b, 0);
    } else {
      VarDictZero(a.items, b.items, 0);
    }
  }

  /** The comparison is zero exactly for values that are alike. */
  lemma {:induction false} ZeroMeansAlike(l: Layout, a: Variant, b: Variant)
    requires LayoutOk(l) && WellTyped(a) && WellTyped(b) && KeysOnce(a) && KeysOnce(b)
    ensures Compare(l, a, b) == 0 <==> Alike(a, b)
    decreases a, 1, 0
  {
    if TypeOf(a) == TypeOf(b) {
      BasicShape(a, b);
      if TypeOf(a).TBasic? {
        CompareTexts(a, b);
      } else if IsCollection(a) {
        if IsDict(a) {
          DictZero(l, a, b);
        } else if |a.items| == |b.items| {
          ZeroFrom(l, a, b, 0);
        }
      }
    }
  }

  lemma {:induction false} ZeroFrom(l: Layout, a: Variant, b: Variant, i: nat)
    requires LayoutOk(l) && WellTyped(a) && WellTyped(b) && KeysOnce(a) && KeysOnce(b)
    requires IsCollection(a) && IsCollection(b) && !IsDict(a) && !IsDict(b)
    requires |a.items| == |b.items| && i <= |a.items|
    ensures CompareFrom(l, a, b, i) == 0 <==> forall j :: i <= j < |a.items| ==> Alike(a.items[j], b.items[j])
    decreases a, 0, |a.items| - i
  {
    if i < |a.items| {
      assert WellTyped(a.items[i]) && WellTyped(b.items[i]);
      ZeroMeansAlike(l, a.items[i], b.items[i]);
      ZeroFrom(l, a, b, i + 1);
    }
  }

  // ---------------------------------------------------------------- what is never told apart

  /** Two lists of boxed values, or two dictionaries that are neither a{ss} nor a{sv}, are never told apart
      if they are of one type and as long as each other, whatever they hold. */
  lemma ElementsPassForEqual(l: Layout, a: Variant, b: Variant)
    requires WellTyped(a) && WellTyped(b) && a.Array? && TypeOf(a) == TypeOf(b) && !IsDict(a)
    requires (a.elem.TBoxed? || a.elem.TEntry?) && |a.items| == |b.items|
    ensures Compare(l, a, b) == 0
  {
    NothingTellsApart(l, a, b, 0);
  }

  lemma {:induction false} NothingTellsApart(l: Layout, a: Variant, b: Variant, i: nat)
    requires WellTyped(a) && WellTyped(b) && a.Array? && b.Array? && a.elem == b.elem
    requires (a.elem.TBoxed? || a.elem.TEntry?) && |a.items| == |b.items|
    ensures CompareFrom(l, a, b, i) == 0
    decreases |a.items| - i
  {
    if i < |a.items| {
      assert TypeOf(a.items[i]) == a.elem == TypeOf(b.items[i]);
      NothingTellsApart(l, a, b, i + 1);
    }
  }

  /** A boxed value of one in a tuple passes for a boxed value of two. */
  lemma BoxedPassForEqual(l: Layout)
    ensures Compare(l, Tuple([Boxed(Number(Int32, 1))]), Tuple([Boxed(Number(Int32, 2))])) == 0
  {
    var a, b := Tuple([Boxed(Number(Int32, 1))]), Tuple([Boxed(Number(Int32, 2))]);
    assert TypeOf(a) == TTuple([TBoxed]) == TypeOf(b);
    assert Compare(l, a.items[0], b.items[0]) == 0;
    assert CompareFrom(l, a, b, 1) == 0;
    assert CompareFrom(l, a, b, 0) == 0;
  }

  function StrEntry(k: bytes, v: bytes): Variant {
    Entry(Text(String, k), Text(String, v))
  }

  function VarDictOf(k: bytes, v: Variant): Variant {
    Array(VAR_DICT.elem, [Entry(Text(String, k), Boxed(v))])
  }

  /** Two dictionaries that differ in the order of their entries only are alike on their own, but not as
      values inside a{sv}. */
  lemma NestedOrderMatters(l: Layout)
    ensures var d := Array(STR_DICT.elem, [StrEntry("a", "x"), StrEntry("b", "y")]);
            var e := Array(STR_DICT.elem, [StrEntry("b", "y"), StrEntry("a", "x")]);
            && Compare(l, d, e) == 0
            && Compare(l, VarDictOf("k", d), VarDictOf("k", e)) != 0
  {
    var d := Array(STR_DICT.elem, [StrEntry("a", "x"), StrEntry("b", "y")]);
    var e := Array(STR_DICT.elem, [StrEntry("b", "y"), StrEntry("a", "x")]);
    assert e.items[1..] == [StrEntry("a", "x")];
    assert Lookup(e.items[1..], "a") == Some(Text(String, "x"));
    assert Lookup(e.items, "a") == Some(Text(String, "x"));
    assert Lookup(e.items, "b") == Some(Text(String, "y"));
    assert StrDictFrom(d.items, e.items, 2) == 0;
    assert StrDictFrom(d.items, e.items, 1) == 0;
    assert d.items[0] != e.items[0];
    assert Lookup(VarDictOf("k", e).items, "k") == Some(Boxed(e));
  }

  // ---------------------------------------------------------------- as the program does it

  method PropertyCompareCollection(l: Layout, a: Variant, b: Variant) returns (ret: int)
    requires IsCollection(a) && IsCollection(b) && WellTyped(a) && WellTyped(b)
    ensures ret == if |a.items| != |b.items| then Sign(|a.items|, |b.items|) else CompareFrom(l, a, b, 0)
    decreases a, 0
  {
    var len1, len2 := |a.items|, |b.items|;
    if len1 != len2 {
      return if len1 < len2 then -1 else 1;
    }
    for i := 0 to len1
      invariant CompareFrom(l, a, b, 0) == CompareFrom(l, a, b, i)
    {
      ret := PropertyCompare(l, Some(a.items[i]), Some(b.items[i]), false);
      if ret != 0 {
        return;
      }
    }
    ret := 0;
  }

  method PropertyCompareStrdict(a: seq<Variant>, b: seq<Variant>) returns (ret: int)
    requires Entries(a)
    ensures ret == if |a| != |b| then Sign(|a|, |b|) else StrDictFrom(a, b, 0)
  {
    if |a| != |b| {
      return if |a| < |b| then -1 else 1;
    }
    for i := 0 to |a|
      invariant StrDictFrom(a, b, 0) == StrDictFrom(a, b, i)
    {
      var val2 := Lookup(b, KeyOf(a[i]));
      if val2.None? {
        return -1;
      }
      ret := CompareBasic(a[i].val, val2.value);
      if ret != 0 {
        return;
      }
    }
    ret := 0;
  }

  method PropertyCompareVardict(a: seq<Variant>, b: seq<Variant>) returns (ret: int)
    requires Entries(a)
    ensures ret == if |a| != |b| then Sign(|a|, |b|) else VarDictFrom(a, b, 0)
  {
    if |a| != |b| {
      return if |a| < |b| then -1 else 1;
    }
    for i := 0 to |a|
      invariant VarDictFrom(a, b, 0) == VarDictFrom(a, b, i)
    {
      var val2 := Lookup(b, KeyOf(a[i]));
      if val2.None? {
        return -1;
      }
      if a[i].val != val2.value {
        return -1;
      }
    }
    ret := 0;
  }

  /** nm_property_compare; same tells whether the two pointers are equal. */
  method PropertyCompare(l: Layout, a: Option<Variant>, b: Option<Variant>, same: bool) returns (ret: int)
    requires same ==> a == b
    requires a.None? && b.None? ==> same
    requires (a.Some? ==> WellTyped(a.value)) && (b.Some? ==> WellTyped(b.value))
    ensures ret == if same then 0 else if a.None? then 1 else if b.None? then -1 else Compare(l, a.value, b.value)
    decreases if a.Some? then a.value else Tuple([]), 1
  {
    if same {
      return 0;
    }
    if a.None? {
      return 1;
    }
    if b.None? {
      return -1;
    }
    var v1, v2 := a.value, b.value;
    var type1, type2 := TypeOf(v1), TypeOf(v2);
    if type1 != type2 {
      return Sign(l.address(type1), l.address(type2));
    }
    if type1.TBasic? {
      ret := CompareBasic(v1, v2);
    } else if !IsCollection(v1) {
      ret := 0;
    } else if type1 == STR_DICT {
      DictEntries(v1);
      ret := PropertyCompareStrdict(v1.items, v2.items);
    } else if type1 == VAR_DICT {
      DictEntries(v1);
      ret := PropertyCompareVardict(v1.items, v2.items);
    } else {
      ret := PropertyCompareCollection(l, v1, v2);
    }
  }
}
