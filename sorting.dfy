/**
 * Python's ordering of `str` values (lexicographic by code point) and its
 * stable sort, used both to order a record's field keys and to sort the
 * object list in place by a key.
 */
module Sorting {

  /** Python's `a < b` on strings. */
  predicate Less(a: string, b: string)
  {
    if a == [] then b != []
    else if b == [] then false
    else if a[0] != b[0] then a[0] < b[0]
    else Less(a[1..], b[1..])
  }

  /** Python's `a <= b` on strings. */
  predicate LessEq(a: string, b: string)
  {
    !Less(b, a)
  }

  lemma {:induction false} LessAsymmetric(a: string, b: string)
    ensures !(Less(a, b) && Less(b, a))
  {
    if a != [] && b != [] && a[0] == b[0] {
      LessAsymmetric(a[1..], b[1..]);
    }
  }

  lemma {:induction false} LessTotal(a: string, b: string)
    ensures a == b || Less(a, b) || Less(b, a)
  {
    if a != [] && b != [] && a[0] == b[0] {
      LessTotal(a[1..], b[1..]);
      if a[1..] == b[1..] {
        assert a == [a[0]] + a[1..] && b == [b[0]] + b[1..];
      }
    }
  }

  lemma {:induction false} LessTransitive(a: string, b: string, c: string)
    requires Less(a, b) && Less(b, c)
    ensures Less(a, c)
  {
    if a != [] && a[0] == b[0] && b[0] == c[0] {
      LessTransitive(a[1..], b[1..], c[1..]);
    }
  }

  lemma LessEqTransitive(a: string, b: string, c: string)
    requires LessEq(a, b) && LessEq(b, c)
    ensures LessEq(a, c)
  {
    if Less(c, a) {
      LessTotal(a, b);
      LessTotal(b, c);
      if Less(a, b) {
        LessTransitive(c, a, b);
        LessAsymmetric(c, b);
      } else {
        LessTransitive(b, c, a);
        LessAsymmetric(a, b);
      }
    }
  }

  /** The sequence is in non-decreasing order of `key`. */
  ghost predicate SortedOn<T>(s: seq<T>, key: T -> string)
  {
    forall i, j :: 0 <= i < j < |s| ==> LessEq(key(s[i]), key(s[j]))
  }

  /** The elements of `s` whose key is `k`, in their order in `s`. */
  function WithKey<T>(s: seq<T>, key: T -> string, k: string): seq<T>
  {
    if s == [] then []
    else WithKey(s[..|s| - 1], key, k) + (if key(s[|s| - 1]) == k then [s[|s| - 1]] else [])
  }

  /**
   * Inserts `x` into `s` after every element whose key is not greater than
   * that of `x`, scanning from the right.
   */
  function Insert<T>(s: seq<T>, x: T, key: T -> string): seq<T>
  {
    if s == [] || LessEq(key(s[|s| - 1]), key(x)) then s + [x]
    else Insert(s[..|s| - 1], x, key) + [s[|s| - 1]]
  }

  /** Python's `sorted(s, key=key)` (a stable sort), as insertion sort. */
  function SortOn<T>(s: seq<T>, key: T -> string): seq<T>
  {
    if s == [] then [] else Insert(SortOn(s[..|s| - 1], key), s[|s| - 1], key)
  }

  lemma {:induction false} InsertFacts<T>(s: seq<T>, x: T, key: T -> string)
    requires SortedOn(s, key)
    ensures multiset(Insert(s, x, key)) == multiset(s) + multiset{x}
    ensures SortedOn(Insert(s, x, key), key)
  {
    if s == [] || LessEq(key(s[|s| - 1]), key(x)) {
      AppendSorted(s, x, key);
    } else {
      var init, last := s[..|s| - 1], s[|s| - 1];
      assert s == init + [last];
      InsertFacts(init, x, key);
      ShiftSorted(init, last, Insert(init, x, key), x, key);
    }
  }

  /** Appending an element whose key is not below the last key keeps the order. */
  lemma AppendSorted<T>(s: seq<T>, x: T, key: T -> string)
    requires SortedOn(s, key)
    requires s == [] || LessEq(key(s[|s| - 1]), key(x))
    ensures SortedOn(s + [x], key)
  {
    var r := s + [x];
    forall i, j | 0 <= i < j < |r| ensures LessEq(key(r[i]), key(r[j])) {
      if j == |s| && i < |s| - 1 {
        LessEqTransitive(key(s[i]), key(s[|s| - 1]), key(x));
      }
    }
  }

  /**
   * Re-appending the last element of `init + [last]` after inserting `x`
   * (whose key is below that of `last`) keeps the order.
   */
  lemma ShiftSorted<T>(init: seq<T>, last: T, q: seq<T>, x: T, key: T -> string)
    requires SortedOn(init + [last], key) && SortedOn(q, key)
    requires multiset(q) == multiset(init) + multiset{x}
    requires !LessEq(key(last), key(x))
    ensures SortedOn(q + [last], key)
  {
    var s, r := init + [last], q + [last];
    LessAsymmetric(key(x), key(last));
    forall i, j | 0 <= i < j < |r| ensures LessEq(key(r[i]), key(r[j])) {
      if j == |q| {
        assert r[i] == q[i] && r[j] == last;
        assert q[i] in multiset(q);
        assert q[i] == x || q[i] in multiset(init);
        if q[i] != x {
          var k :| 0 <= k < |init| && init[k] == q[i];
          assert s[k] == q[i] && s[|init|] == last;
        }
      } else {
        assert r[i] == q[i] && r[j] == q[j];
      }
    }
  }

  /** Insertion keeps the relative order of elements with any given key. */
  lemma {:induction false} InsertStable<T>(s: seq<T>, x: T, key: T -> string, k: string)
    ensures WithKey(Insert(s, x, key), key, k) == WithKey(s, key, k) + (if key(x) == k then [x] else [])
  {
    var r := Insert(s, x, key);
    if s == [] || LessEq(key(s[|s| - 1]), key(x)) {
      assert r[..|r| - 1] == s;
    } else {
      var init, last := s[..|s| - 1], s[|s| - 1];
      InsertStable(init, x, key, k);
      var q := Insert(init, x, key);
      assert r[..|r| - 1] == q && r[|r| - 1] == last;
      LessAsymmetric(key(x), key(last));
    }
  }

  /**
   * The sort is a permutation, is ordered by key, and keeps elements with
   * equal keys in their original order: what Python promises of `sorted`.
   */
  lemma {:induction false} SortOnFacts<T>(s: seq<T>, key: T -> string)
    ensures multiset(SortOn(s, key)) == multiset(s)
    ensures SortedOn(SortOn(s, key), key)
    ensures forall k :: WithKey(SortOn(s, key), key, k) == WithKey(s, key, k)
  {
    if s != [] {
      var init, last := s[..|s| - 1], s[|s| - 1];
      assert s == init + [last];
      SortOnFacts(init, key);
      InsertFacts(SortOn(init, key), last, key);
      forall k ensures WithKey(SortOn(s, key), key, k) == WithKey(s, key, k) {
        InsertStable(SortOn(init, key), last, key, k);
      }
    }
  }

  /** Python's stable in-place list sort by a key: sorts the array in place, with the result `SortOn` describes. */
  method SortInPlace<T>(a: array<T>, key: T -> string)
    modifies a
    ensures a[..] == SortOn(old(a[..]), key)
  {
    ghost var s := a[..];
    var i := 0;
    while i < a.Length
      invariant 0 <= i <= a.Length
      invariant a[..i] == SortOn(s[..i], key)
      invariant a[i..] == s[i..]
    {
      SortOnStep(s, i, key);
      InsertInPlace(a, i, key);
      i := i + 1;
    }
    assert s[..a.Length] == s;
  }

  lemma SortOnStep<T>(s: seq<T>, i: nat, key: T -> string)
    requires i < |s|
    ensures SortOn(s[..i + 1], key) == Insert(SortOn(s[..i], key), s[i], key)
  {
    assert s[..i + 1][..i] == s[..i];
  }

  /** Insertion stops at the first element from the right whose key is not greater. */
  lemma InsertStop<T>(p: seq<T>, x: T, key: T -> string)
    requires p == [] || LessEq(key(p[|p| - 1]), key(x))
    ensures Insert(p, x, key) == p + [x]
  {
  }

  /** Insertion passes over an element whose key is greater. */
  lemma InsertPass<T>(p: seq<T>, j: nat, x: T, key: T -> string)
    requires 0 < j <= |p| && !LessEq(key(p[j - 1]), key(x))
    ensures Insert(p[..j], x, key) + p[j..] == Insert(p[..j - 1], x, key) + p[j - 1..]
  {
    assert p[..j][..j - 1] == p[..j - 1];
    assert p[j - 1..] == [p[j - 1]] + p[j..];
  }

  /**
   * One step of the insertion sort: shifts the elements of `a[..i]` whose key
   * is greater than that of `a[i]` one place right and drops `a[i]` into the gap.
   */
  method InsertInPlace<T>(a: array<T>, i: nat, key: T -> string)
    requires i < a.Length
    modifies a
    ensures a[..i + 1] == Insert(old(a[..i]), old(a[i]), key)
    ensures a[i + 1..] == old(a[i + 1..])
  {
    var x := a[i];
    ghost var p := a[..i];
    var j := i;
    while j > 0 && !LessEq(key(a[j - 1]), key(x))
      invariant 0 <= j <= i
      invariant a[..j] == p[..j]
      invariant a[j + 1..i + 1] == p[j..]
      invariant a[i + 1..] == old(a[i + 1..])
      invariant Insert(p, x, key) == Insert(p[..j], x, key) + p[j..]
    {
      InsertPass(p, j, x, key);
      a[j] := a[j - 1];
      j := j - 1;
    }
    InsertStop(p[..j], x, key);
    a[j] := x;
    assert a[..i + 1] == p[..j] + [x] + p[j..];
  }
}
