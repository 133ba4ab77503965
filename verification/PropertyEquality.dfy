/** When nm_property_compare finds two values equal exactly if they are. */
module PropertyEquality {
  import opened Options
  import opened Text
  import opened Variants
  import opened PropertyCompare

  // ---------------------------------------------------------------- equality

  /** Deep equality, through boxes and entries, with a{ss} and a{sv} read as maps. */
  ghost predicate Same(a: Variant, b: Variant)
    decreases a
  {
    TypeOf(a) == TypeOf(b) &&
    match a
    case Number(_, _) => a == b
    case Text(_, _) => a == b
    case Boxed(content) => b.Boxed? && Same(content, b.content)
    case Entry(key, val) => b.Entry? && Same(key, b.key) && Same(val, b.val)
    case Tuple(items) =>
      b.Tuple? && |items| == |b.items| && forall i :: 0 <= i < |items| ==> Same(items[i], b.items[i])
    case Array(_, items) =>
      b.Array? &&
      if IsDict(a) then
        && Entries(items) && Entries(b.items) && DictOf(items).Keys == DictOf(b.items).Keys
        && forall i :: 0 <= i < |items| ==>
                         && KeyOf(items[i]) in DictOf(b.items)
                         && Same(items[i].val, DictOf(b.items)[KeyOf(items[i])])
      else
        |items| == |b.items| && forall i :: 0 <= i < |items| ==> Same(items[i], b.items[i])
  }

  /** No a{ss} or a{sv}, however deep, has a key twice. */
  ghost predicate KeysOnceInside(v: Variant) {
    match v
    case Number(_, _) => true
    case Text(_, _) => true
    case Boxed(content) => KeysOnceInside(content)
    case Entry(_, val) => KeysOnceInside(val)
    case Tuple(items) => forall i :: 0 <= i < |items| ==> KeysOnceInside(items[i])
    case Array(_, items) =>
      && (IsDict(v) ==> Entries(items) && DistinctKeys(items))
      && forall i :: 0 <= i < |items| ==> KeysOnceInside(items[i])
  }

  /** No a{ss} or a{sv} of two or more entries, however deep: there is no order to disagree about. */
  predicate Rigid(v: Variant) {
    match v
    case Number(_, _) => true
    case Text(_, _) => true
    case Boxed(content) => Rigid(content)
    case Entry(_, val) => Rigid(val)
    case Tuple(items) => forall i :: 0 <= i < |items| ==> Rigid(items[i])
    case Array(_, items) => (IsDict(v) ==> |items| <= 1) && forall i :: 0 <= i < |items| ==> Rigid(items[i])
  }

  /** No boxed value outside a{sv}, no entry of another dictionary, and nothing but rigid values inside
      a{sv}. */
  predicate Plain(a: Variant) {
    match a
    case Number(_, _) => true
    case Text(_, _) => true
    case Boxed(_) => false
    case Entry(_, _) => false
    case Tuple(items) => forall i :: 0 <= i < |items| ==> Plain(items[i])
    case Array(_, items) =>
      if IsDict(a) then forall i :: 0 <= i < |items| ==> Rigid(items[i])
      else forall i :: 0 <= i < |items| ==> Plain(items[i])
  }

  lemma {:induction false} SameAsItself(v: Variant)
    requires WellTyped(v) && KeysOnceInside(v)
    ensures Same(v, v)
  {
    match v
    case Number(_, _) =>
    case Text(_, _) =>
    case Boxed(content) => SameAsItself(content);
    case Entry(key, val) =>
      BasicIsSimple(key);
      SameAsItself(key);
      SameAsItself(val);
    case Tuple(items) =>
      forall i | 0 <= i < |items| ensures Same(items[i], items[i]) { SameAsItself(items[i]); }
    case Array(_, items) =>
      forall i | 0 <= i < |items| ensures Same(items[i], items[i]) { SameAsItself(items[i]); }
      if IsDict(v) { DictHasAll(items); }
  }

  lemma BasicIsSimple(v: Variant)
    requires TypeOf(v).TBasic?
    ensures KeysOnceInside(v) && Rigid(v) && (v.Number? || v.Text?)
  {
  }

  // ---------------------------------------------------------------- rigid values

  /** The entry of a dictionary with a given key. */
  lemma EntryWithKey(items: seq<Variant>, k: bytes) returns (i: nat)
    requires Entries(items) && DistinctKeys(items) && k in DictOf(items)
    ensures i < |items| && KeyOf(items[i]) == k && DictOf(items)[k] == items[i].val
  {
    DictKeys(items);
    DictHasAll(items);
    i :| 0 <= i < |items| && KeyOf(items[i]) == k;
  }

  lemma SingleDict(a: Variant, b: Variant)
    requires WellTyped(a) && WellTyped(b) && KeysOnceInside(a) && KeysOnceInside(b)
    requires TypeOf(a) == TypeOf(b) && IsDict(a) && |a.items| <= 1
    requires DictOf(a.items).Keys == DictOf(b.items).Keys
    ensures |a.items| == |b.items|
    ensures |a.items| == 1 ==> a.items[0].key == b.items[0].key
                               && DictOf(b.items)[KeyOf(a.items[0])] == b.items[0].val
  {
    DictHasAll(a.items);
    DictHasAll(b.items);
    assert |DictOf(a.items).Keys| == |DictOf(a.items)| && |DictOf(b.items).Keys| == |DictOf(b.items)|;
    if |a.items| == 1 {
      DictEntries(a);
      DictEntries(b);
      var i := EntryWithKey(b.items, KeyOf(a.items[0]));
      assert i == 0;
      StringKey(a, 0);
      StringKey(b, 0);
    }
  }

  lemma StringKey(d: Variant, i: nat)
    requires WellTyped(d) && IsDict(d) && i < |d.items|
    ensures DictEntry(d.items[i]) && d.items[i].key == Text(String, KeyOf(d.items[i]))
  {
    DictEntries(d);
    assert WellTyped(d.items[i]) && TypeOf(d.items[i]) == d.elem;
  }

  /** Of a rigid value, only itself is the same. */
  lemma {:induction false} RigidSame(v: Variant, w: Variant)
    requires WellTyped(v) && WellTyped(w) && KeysOnceInside(v) && KeysOnceInside(w) && Rigid(v)
    ensures Same(v, w) <==> v == w
    decreases v
  {
    hide DictOf, DistinctKeys;
    if v == w { SameAsItself(v); }
    if Same(v, w) {
      match v
      case Number(_, _) =>
      case Text(_, _) =>
      case Boxed(content) => RigidSame(content, w.content);
      case Entry(key, val) =>
        BasicIsSimple(key);
        BasicIsSimple(w.key);
        RigidSame(key, w.key);
        RigidSame(val, w.val);
      case Tuple(items) =>
        forall i | 0 <= i < |items| ensures items[i] == w.items[i] { RigidSame(items[i], w.items[i]); }
      case Array(_, items) =>
        if IsDict(v) {
          SingleDict(v, w);
          if |items| == 1 {
            DictEntries(v);
            DictEntries(w);
            RigidSame(items[0].val, w.items[0].val);
            assert items == [items[0]] && w.items == [w.items[0]];
          }
        } else {
          forall i | 0 <= i < |items| ensures items[i] == w.items[i] { RigidSame(items[i], w.items[i]); }
        }
    }
  }

  // ---------------------------------------------------------------- plain values

  lemma {:induction false} KeysOnceAsCompared(v: Variant)
    requires KeysOnceInside(v)
    ensures KeysOnce(v)
  {
    if IsCollection(v) && !IsDict(v) {
      forall i | 0 <= i < |v.items| ensures KeysOnce(v.items[i]) { KeysOnceAsCompared(v.items[i]); }
    }
  }

  lemma RigidEntry(a: Variant, b: Variant, i: nat)
    requires WellTyped(a) && WellTyped(b) && KeysOnceInside(a) && KeysOnceInside(b)
    requires TypeOf(a) == TypeOf(b) && IsDict(a) && Plain(a) && i < |a.items|
    ensures Entries(a.items) && Entries(b.items)
    ensures var n, k := DictOf(b.items), KeyOf(a.items[i]);
            k in n ==> (Same(a.items[i].val, n[k]) <==> a.items[i].val == n[k])
  {
    hide DictOf, DistinctKeys, Same;
    DictEntries(a);
    DictEntries(b);
    var k := KeyOf(a.items[i]);
    if k in DictOf(b.items) {
      var j := EntryWithKey(b.items, k);
      assert Rigid(a.items[i]) && KeysOnceInside(a.items[i]) && KeysOnceInside(b.items[j]);
      RigidSame(a.items[i].val, b.items[j].val);
    }
  }

  /** As maps: the same keys, and identical values. */
  lemma EqualMaps(s: seq<Variant>, t: seq<Variant>)
    requires Entries(s) && Entries(t) && DistinctKeys(s) && DistinctKeys(t)
    ensures DictOf(s) == DictOf(t) <==>
            && DictOf(s).Keys == DictOf(t).Keys
            && forall i :: 0 <= i < |s| ==> KeyOf(s[i]) in DictOf(t) && s[i].val == DictOf(t)[KeyOf(s[i])]
    ensures DictOf(s).Keys == DictOf(t).Keys ==> |s| == |t|
  {
    hide DictOf, DistinctKeys;
    var m, n := DictOf(s), DictOf(t);
    DictHasAll(s);
    DictHasAll(t);
    assert |m.Keys| == |m| && |n.Keys| == |n|;
    forall k | k in m ensures exists i :: 0 <= i < |s| && KeyOf(s[i]) == k && m[k] == s[i].val {
      var i := EntryWithKey(s, k);
    }
  }

  lemma RigidDict(a: Variant, b: Variant)
    requires WellTyped(a) && WellTyped(b) && KeysOnceInside(a) && KeysOnceInside(b)
    requires TypeOf(a) == TypeOf(b) && IsDict(a) && Plain(a)
    ensures Alike(a, b) <==> Same(a, b)
  {
    hide DictOf, DistinctKeys, Rigid, WellTyped;
    DictEntries(a);
    DictEntries(b);
    EqualMaps(a.items, b.items);
    forall i | 0 <= i < |a.items| && KeyOf(a.items[i]) in DictOf(b.items)
      ensures Same(a.items[i].val, DictOf(b.items)[KeyOf(a.items[i])]) <==>
              a.items[i].val == DictOf(b.items)[KeyOf(a.items[i])]
    {
      RigidEntry(a, b, i);
    }
  }

  lemma {:induction false} PlainAlike(a: Variant, b: Variant)
    requires WellTyped(a) && WellTyped(b) && KeysOnceInside(a) && KeysOnceInside(b) && Plain(a)
    ensures Alike(a, b) <==> Same(a, b)
    decreases a
  {
    if TypeOf(a) == TypeOf(b) {
      BasicShape(a, b);
      if IsCollection(a) {
        if IsDict(a) {
          RigidDict(a, b);
        } else if |a.items| == |b.items| {
          forall i | 0 <= i < |a.items| ensures Alike(a.items[i], b.items[i]) <==> Same(a.items[i], b.items[i]) {
            PlainAlike(a.items[i], b.items[i]);
          }
        }
      }
    }
  }

  /** For a plain value, the comparison is zero exactly for the values that are the same. */
  lemma ZeroMeansSame(l: Layout, a: Variant, b: Variant)
    requires LayoutOk(l) && WellTyped(a) && WellTyped(b) && KeysOnceInside(a) && KeysOnceInside(b) && Plain(a)
    ensures Compare(l, a, b) == 0 <==> Same(a, b)
  {
    KeysOnceAsCompared(a);
    KeysOnceAsCompared(b);
    ZeroMeansAlike(l, a, b);
    PlainAlike(a, b);
  }

  lemma {:induction false} OrderedIsPlain(a: Variant)
    requires WellTyped(a) && Ordered(TypeOf(a))
    ensures Plain(a) && Rigid(a) && KeysOnceInside(a)
  {
    BasicShape(a, a);
    if IsCollection(a) {
      OrderedChildren(a);
      forall i | 0 <= i < |a.items| ensures Plain(a.items[i]) && Rigid(a.items[i]) && KeysOnceInside(a.items[i]) {
        OrderedIsPlain(a.items[i]);
      }
    }
  }

  /** The values that the comparison orders are plain; of them, only the value itself is the same. */
  lemma OrderedSame(a: Variant, b: Variant)
    requires WellTyped(a) && WellTyped(b) && TypeOf(a) == TypeOf(b) && Ordered(TypeOf(a))
    ensures Plain(a)
    ensures Same(a, b) <==> a == b
    ensures Alike(a, b) <==> a == b
  {
    OrderedIsPlain(a);
    OrderedIsPlain(b);
    RigidSame(a, b);
    PlainAlike(a, b);
  }

  /** A value compares equal to itself, so it makes no difference that the program does not look at two
      values that are one object. */
  lemma {:induction false} EqualToItself(l: Layout, v: Variant)
    requires LayoutOk(l) && WellTyped(v) && KeysOnce(v)
    ensures Compare(l, v, v) == 0
  {
    AlikeItself(v);
    ZeroMeansAlike(l, v, v);
  }

  lemma {:induction false} AlikeItself(v: Variant)
    requires KeysOnce(v)
    ensures Alike(v, v)
  {
    if IsCollection(v) && !IsDict(v) {
      forall i | 0 <= i < |v.items| ensures Alike(v.items[i], v.items[i]) { AlikeItself(v.items[i]); }
    }
  }

  // ---------------------------------------------------------------- values that are not plain

  /** Another value of a basic type. */
  function Other(v: Variant): (w: Variant)
    requires TypeOf(v).TBasic? && WellTyped(v)
    ensures WellTyped(w) && TypeOf(w) == TypeOf(v) && w != v
  {
    match v
    case Number(basic, n) => Number(basic, if n == 0 then 1 else 0)
    case Text(basic, s) =>
      var one: bytes := if basic == ObjectPath then "/" else "s";
      Text(basic, if s == one then (if basic == ObjectPath then "/s" else "i") else one)
  }

  /** A value of another type. */
  function Foreign(v: Variant): (w: Variant)
    ensures WellTyped(w) && KeysOnceInside(w) && TypeOf(w) != TypeOf(v)
  {
    if TypeOf(v) == TBasic(Boolean) then Number(Byte, 0) else Number(Boolean, 0)
  }

  function WithItem(v: Variant, i: nat, w: Variant): Variant
    requires IsCollection(v) && i < |v.items|
  {
    v.(items := v.items[i := w])
  }

  lemma WithItemTyped(v: Variant, i: nat, w: Variant)
    requires WellTyped(v) && IsCollection(v) && i < |v.items| && WellTyped(w) && TypeOf(w) == TypeOf(v.items[i])
    ensures WellTyped(WithItem(v, i, w)) && TypeOf(WithItem(v, i, w)) == TypeOf(v)
    ensures IsDict(WithItem(v, i, w)) == IsDict(v)
  {
    var x := WithItem(v, i, w);
    if v.Tuple? {
      assert TypeOf(x).parts == TypeOf(v).parts;
    }
  }

  /** The first two entries of a dictionary change places. */
  lemma SwapFirst(v: Variant) returns (w: Variant)
    requires WellTyped(v) && KeysOnceInside(v) && IsDict(v) && |v.items| >= 2
    ensures WellTyped(w) && KeysOnceInside(w) && TypeOf(w) == TypeOf(v) && w != v && Same(v, w)
  {
    var s := v.items;
    w := v.(items := s[0 := s[1]][1 := s[0]]);
    DictEntries(v);
    SameAsItself(v);
    assert KeyOf(s[0]) != KeyOf(s[1]);
    assert forall i :: 0 <= i < |s| ==> w.items[i] == s[if i == 0 then 1 else if i == 1 then 0 else i];
    DictHasAll(s);
    DictHasAll(w.items);
    SwappedDict(s, w.items);
  }

  lemma SwappedDict(s: seq<Variant>, t: seq<Variant>)
    requires |s| >= 2 && Entries(s) && DistinctKeys(s) && t == s[0 := s[1]][1 := s[0]]
    ensures Entries(t) && DistinctKeys(t) && DictOf(t) == DictOf(s)
  {
    assert forall i :: 0 <= i < |s| ==> t[i] == s[if i == 0 then 1 else if i == 1 then 0 else i];
    DictHasAll(s);
    DictHasAll(t);
    forall i | 0 <= i < |s| ensures Lookup(t, KeyOf(s[i])) == Some(s[i].val) {
      var j := if i == 0 then 1 else if i == 1 then 0 else i;
      assert t[j] == s[i];
      LookupIsDict(t, KeyOf(s[i]));
    }
    SameDict(s, t);
  }

  lemma BasicIsRigid(v: Variant)
    ensures v.Number? || v.Text? ==> Rigid(v) && Plain(v)
  {
  }

  /** One entry of a dictionary gets a value that is the same but not identical. */
  lemma RearrangedEntry(v: Variant, i: nat, x: Variant)
    requires WellTyped(v) && KeysOnceInside(v) && IsDict(v) && i < |v.items|
    requires WellTyped(x) && KeysOnceInside(x) && TypeOf(x) == TypeOf(v.items[i])
    requires x != v.items[i] && Same(v.items[i], x)
    ensures var w := WithItem(v, i, x);
            && WellTyped(w) && TypeOf(w) == TypeOf(v) && KeysOnceInside(w) && Same(v, w)
            && Entries(v.items) && Entries(w.items) && DictOf(v.items) != DictOf(w.items)
  {
    hide DictOf, Rigid;
    var w := WithItem(v, i, x);
    var s, t := v.items, w.items;
    WithItemTyped(v, i, x);
    DictEntries(v);
    DictEntries(w);
    assert t[i] == x;
    StringKey(v, i);
    StringKey(w, i);
    assert x.key == s[i].key && x.val != s[i].val && Same(s[i].val, x.val);
    assert forall j :: 0 <= j < |s| ==> KeyOf(t[j]) == KeyOf(s[j]);
    DictHasAll(s);
    DictHasAll(t);
    SameKeys(s, t);
    forall j | 0 <= j < |s| ensures Same(s[j].val, DictOf(t)[KeyOf(s[j])]) {
      assert DictOf(t)[KeyOf(t[j])] == t[j].val;
      if j != i {
        assert WellTyped(s[j]) && KeysOnceInside(s[j]);
        SameAsItself(s[j].val);
      }
    }
    assert DictOf(s)[KeyOf(s[i])] != DictOf(t)[KeyOf(s[i])];
  }

  lemma SameKeys(s: seq<Variant>, t: seq<Variant>)
    requires Entries(s) && Entries(t) && |s| == |t| && forall j :: 0 <= j < |s| ==> KeyOf(t[j]) == KeyOf(s[j])
    ensures DictOf(s).Keys == DictOf(t).Keys
  {
    DictKeys(s);
    DictKeys(t);
    forall k ensures k in DictOf(s) <==> k in DictOf(t) {
      if k in DictOf(s) {
        var j :| 0 <= j < |s| && KeyOf(s[j]) == k;
        assert KeyOf(t[j]) == k;
      }
      if k in DictOf(t) {
        var j :| 0 <= j < |t| && KeyOf(t[j]) == k;
        assert KeyOf(s[j]) == k;
      }
    }
  }

  /** One item of a list or tuple is replaced: the whole is the same if the items are. */
  lemma ReplacedItem(v: Variant, i: nat, x: Variant)
    requires WellTyped(v) && KeysOnceInside(v) && IsCollection(v) && !IsDict(v) && i < |v.items|
    requires WellTyped(x) && KeysOnceInside(x) && TypeOf(x) == TypeOf(v.items[i])
    ensures var w := WithItem(v, i, x);
            && WellTyped(w) && TypeOf(w) == TypeOf(v) && KeysOnceInside(w) && !IsDict(w)
            && (Same(v, w) <==> Same(v.items[i], x))
            && (Alike(v, w) <==> Alike(v.items[i], x))
  {
    var w := WithItem(v, i, x);
    WithItemTyped(v, i, x);
    assert w.items[i] == x;
    forall j | 0 <= j < |v.items| && j != i
      ensures Same(v.items[j], w.items[j]) && Alike(v.items[j], w.items[j])
    {
      SameAsItself(v.items[j]);
      KeysOnceAsCompared(v.items[j]);
      AlikeItself(v.items[j]);
    }
  }

  /** The same value in another form, for a value that is not rigid. */
  lemma {:induction false} Rearranged(v: Variant) returns (w: Variant)
    requires WellTyped(v) && KeysOnceInside(v) && !Rigid(v)
    ensures WellTyped(w) && KeysOnceInside(w) && TypeOf(w) == TypeOf(v) && w != v && Same(v, w)
    decreases v
  {
    BasicIsRigid(v);
    if v.Boxed? {
      var x := Rearranged(v.content);
      w := Boxed(x);
    } else if v.Entry? {
      var x := Rearranged(v.val);
      BasicIsSimple(v.key);
      SameAsItself(v.key);
      w := Entry(v.key, x);
    } else if IsDict(v) && |v.items| >= 2 {
      w := SwapFirst(v);
    } else {
      var i :| 0 <= i < |v.items| && !Rigid(v.items[i]);
      var x := Rearranged(v.items[i]);
      w := WithItem(v, i, x);
      assert w.items[i] == x;
      if IsDict(v) { RearrangedEntry(v, i, x); } else { ReplacedItem(v, i, x); }
    }
  }

  /** For every value that is not plain there is one, of the same type and with distinct keys, on which the
      comparison and sameness disagree. */
  lemma {:induction false} PlainIsNeeded(l: Layout, a: Variant) returns (b: Variant)
    requires LayoutOk(l) && WellTyped(a) && KeysOnceInside(a) && !Plain(a)
    ensures WellTyped(b) && KeysOnceInside(b) && TypeOf(b) == TypeOf(a)
    ensures (Compare(l, a, b) == 0) != Same(a, b)
    decreases a
  {
    BasicIsRigid(a);
    if a.Boxed? {
      b := Boxed(Foreign(a.content));
    } else if a.Entry? {
      b := Entry(Other(a.key), a.val);
      assert !Same(a.key, b.key);
    } else {
      if IsDict(a) {
        var i :| 0 <= i < |a.items| && !Rigid(a.items[i]);
        var x := Rearranged(a.items[i]);
        b := WithItem(a, i, x);
        RearrangedEntry(a, i, x);
      } else {
        var i :| 0 <= i < |a.items| && !Plain(a.items[i]);
        var x := PlainIsNeeded(l, a.items[i]);
        b := WithItem(a, i, x);
        ReplacedItem(a, i, x);
        KeysOnceAsCompared(a.items[i]);
        KeysOnceAsCompared(x);
        ZeroMeansAlike(l, a.items[i], x);
      }
      KeysOnceAsCompared(a);
      KeysOnceAsCompared(b);
      ZeroMeansAlike(l, a, b);
    }
  }
}
