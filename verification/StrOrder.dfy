/** strcmp order on byte strings, and the sorted list of a finite set of them. */
module StrOrder {
  import opened Sorting
  import opened Text

  /** strcmp (a, b) < 0 */
  predicate Less(a: bytes, b: bytes) {
    b != [] && (a == [] || a[0] < b[0] || (a[0] == b[0] && Less(a[1..], b[1..])))
  }

  lemma {:induction false} LessIrreflexive(a: bytes)
    ensures !Less(a, a)
  {
    if a != [] { LessIrreflexive(a[1..]); }
  }

  lemma {:induction false} LessTransitive(a: bytes, b: bytes, c: bytes)
    requires Less(a, b) && Less(b, c)
    ensures Less(a, c)
  {
    if a != [] && a[0] == b[0] && b[0] == c[0] {
      LessTransitive(a[1..], b[1..], c[1..]);
    }
  }

  lemma {:induction false} LessTotal(a: bytes, b: bytes)
    ensures a == b || Less(a, b) || Less(b, a)
  {
    if a != [] && b != [] && a[0] == b[0] {
      LessTotal(a[1..], b[1..]);
      assert a == [a[0]] + a[1..] && b == [b[0]] + b[1..];
    }
  }

  /** One text is a proper start of the other, or has the smaller character at the first difference. */
  ghost predicate Precedes(a: bytes, b: bytes) {
    exists i :: 0 <= i <= |a| && i < |b| && a[..i] == b[..i] && (i == |a| || a[i] < b[i])
  }

  lemma {:induction false} LessMeans(a: bytes, b: bytes)
    ensures Less(a, b) <==> Precedes(a, b)
  {
    if b == [] || a == [] || a[0] != b[0] {
      if Less(a, b) { assert a[..0] == b[..0]; }
      if Precedes(a, b) {
        var i :| 0 <= i <= |a| && i < |b| && a[..i] == b[..i] && (i == |a| || a[i] < b[i]);
        if i > 0 { assert a[..i][0] == b[..i][0]; }
      }
    } else {
      LessMeans(a[1..], b[1..]);
      if Precedes(a[1..], b[1..]) {
        var i :| 0 <= i <= |a| - 1 && i < |b| - 1 && a[1..][..i] == b[1..][..i]
                 && (i == |a| - 1 || a[1..][i] < b[1..][i]);
        assert a[..i + 1] == [a[0]] + a[1..][..i] && b[..i + 1] == [b[0]] + b[1..][..i];
      }
      if Precedes(a, b) {
        var i :| 0 <= i <= |a| && i < |b| && a[..i] == b[..i] && (i == |a| || a[i] < b[i]);
        if i > 0 { assert a[1..][..i - 1] == a[..i][1..] && b[1..][..i - 1] == b[..i][1..]; }
      }
    }
  }

  predicate Sorted(keys: seq<bytes>) {
    forall i, j :: 0 <= i < j < |keys| ==> Less(keys[i], keys[j])
  }

  /** The smallest of a non-empty set. */
  lemma {:induction false} MinimumExists(s: set<bytes>) returns (m: bytes)
    requires s != {}
    ensures m in s && forall x :: x in s && x != m ==> Less(m, x)
  {
    m :| m in s;
    var rest := s - {m};
    if rest != {} {
      var n := MinimumExists(rest);
      LessTotal(m, n);
      if Less(n, m) {
        forall x | x in s && x != n ensures Less(n, x) {
          if x != m { assert x in rest; }
        }
        m := n;
      } else {
        forall x | x in s && x != m ensures Less(m, x) {
          assert x in rest;
          if x != n { LessTransitive(m, n, x); }
        }
      }
    } else {
      assert forall x :: x in s ==> x in rest || x == m;
    }
  }

  lemma LessIsStrict()
    ensures StrictOrder(Less)
  {
    forall x: bytes ensures !Less(x, x) {
      LessIrreflexive(x);
    }
    forall x: bytes, y: bytes, z: bytes | Less(x, y) && Less(y, z) ensures Less(x, z) {
      LessTransitive(x, y, z);
    }
  }

  lemma SortedDistinct(keys: seq<bytes>, i: nat, j: nat)
    requires Sorted(keys) && i < |keys| && j < |keys| && keys[i] == keys[j]
    ensures i == j
  {
    LessIrreflexive(keys[i]);
  }

  /** The keys of a dictionary in strcmp order (nm_utils_strdict_get_keys with sorting). */
  method SortKeys(s: set<bytes>) returns (keys: seq<bytes>)
    ensures Sorted(keys) && forall x :: x in keys <==> x in s
  {
    keys := [];
    var left := s;
    while left != {}
      invariant Sorted(keys) && left <= s
      invariant forall x :: x in keys <==> x in s - left
      invariant forall i, x :: 0 <= i < |keys| && x in left ==> Less(keys[i], x)
      decreases left
    {
      ghost var w := MinimumExists(left);
      assert Least(w, left);
      var m :| m in left && Least(m, left);
      LeastBelow(m, left);
      keys := keys + [m];
      left := left - {m};
    }
  }

  predicate Least(m: bytes, s: set<bytes>) {
    forall x :: x in s && x != m ==> Less(m, x)
  }

  lemma LeastBelow(m: bytes, s: set<bytes>)
    requires Least(m, s)
    ensures forall x :: x in s - {m} ==> Less(m, x)
  {
    forall x | x in s - {m} ensures Less(m, x) {
      assert x in s && x != m;
    }
  }
}
