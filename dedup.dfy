/**
  "Keep the first element of each key" — the pattern the source writes with a
  `seen` set and an output list (item tags, item types, error details, tag sets).
 */
module Dedup {

  /** The key of an exact-match deduplication. */
  function Identity<T>(x: T): T {
    x
  }

  function KeysOf<T(==), K>(s: seq<T>, key: T -> K): set<K> {
    set x | x in s :: key(x)
  }

  lemma KeysOfSnoc<T, K>(s: seq<T>, x: T, key: T -> K)
    ensures KeysOf(s + [x], key) == KeysOf(s, key) + {key(x)}
  {
    assert forall y :: y in s + [x] <==> y in s || y == x;
  }

  /** `s[i]` is the first element of `s` with its key. */
  ghost predicate IsFirstOfKey<T, K>(s: seq<T>, key: T -> K, i: int)
    requires 0 <= i < |s|
  {
    forall j :: 0 <= j < i ==> key(s[j]) != key(s[i])
  }

  /**
    Scans `s` left to right keeping an element only when no kept element has the
    same key.
   */
  function FirstByKey<T(==), K(==)>(s: seq<T>, key: T -> K): seq<T>
    decreases |s|
  {
    if s == [] then []
    else
      var p := FirstByKey(s[..|s| - 1], key);
      if key(s[|s| - 1]) in KeysOf(p, key) then p else p + [s[|s| - 1]]
  }

  /** Appending one element is one step of the scan. */
  lemma FirstByKeySnoc<T, K>(s: seq<T>, x: T, key: T -> K)
    ensures FirstByKey(s + [x], key)
         == if key(x) in KeysOf(FirstByKey(s, key), key) then FirstByKey(s, key)
            else FirstByKey(s, key) + [x]
  {
    assert (s + [x])[..|s + [x]| - 1] == s;
  }

  /** The scan keeps only elements of its input and represents every key of the input. */
  lemma {:induction false} FirstByKeyKeys<T, K>(s: seq<T>, key: T -> K)
    ensures forall x :: x in FirstByKey(s, key) ==> x in s
    ensures KeysOf(FirstByKey(s, key), key) == KeysOf(s, key)
    decreases |s|
  {
    if s != [] {
      var s' := s[..|s| - 1];
      var x := s[|s| - 1];
      FirstByKeyKeys(s', key);
      assert s == s' + [x];
      KeysOfSnoc(s', x, key);
      KeysOfSnoc(FirstByKey(s', key), x, key);
    }
  }

  /** No element occurs twice. */
  ghost predicate Distinct<T>(s: seq<T>) {
    forall i, j :: 0 <= i < j < |s| ==> s[i] != s[j]
  }

  /** No two elements of `r` share a key. */
  ghost predicate DistinctKeys<T, K>(r: seq<T>, key: T -> K) {
    forall i, j :: 0 <= i < j < |r| ==> key(r[i]) != key(r[j])
  }

  /** No two kept elements share a key. */
  lemma {:induction false} FirstByKeyDistinct<T, K>(s: seq<T>, key: T -> K)
    ensures DistinctKeys(FirstByKey(s, key), key)
    decreases |s|
  {
    if s != [] {
      var s' := s[..|s| - 1];
      var x := s[|s| - 1];
      var p := FirstByKey(s', key);
      FirstByKeyDistinct(s', key);
      if key(x) !in KeysOf(p, key) {
        var r := p + [x];
        forall i, j | 0 <= i < j < |r| ensures key(r[i]) != key(r[j]) {
          assert r[i] == p[i];
          if j == |p| {
            assert p[i] in p;
          } else {
            assert r[j] == p[j];
          }
        }
      }
    }
  }

  /** The first element of each key is the one kept: first-seen wins. */
  lemma {:induction false} FirstOfKeyKept<T, K>(s: seq<T>, key: T -> K, i: int)
    requires 0 <= i < |s| && IsFirstOfKey(s, key, i)
    ensures s[i] in FirstByKey(s, key)
    decreases |s|
  {
    var s' := s[..|s| - 1];
    var p := FirstByKey(s', key);
    if i < |s| - 1 {
      assert IsFirstOfKey(s', key, i);
      FirstOfKeyKept(s', key, i);
    } else {
      FirstByKeyKeys(s', key);
      forall y | y in p ensures key(y) != key(s[i]) {
        var j :| 0 <= j < |s'| && s'[j] == y;
      }
    }
  }

  /** Every kept element is the first of its key. */
  lemma {:induction false} KeptAreFirsts<T, K>(s: seq<T>, key: T -> K, x: T)
    requires x in FirstByKey(s, key)
    ensures exists i :: 0 <= i < |s| && s[i] == x && IsFirstOfKey(s, key, i)
    decreases |s|
  {
    var s' := s[..|s| - 1];
    var p := FirstByKey(s', key);
    if x in p {
      KeptAreFirsts(s', key, x);
      var i :| 0 <= i < |s'| && s'[i] == x && IsFirstOfKey(s', key, i);
      assert s[i] == x && IsFirstOfKey(s, key, i);
    } else {
      var i := |s| - 1;
      FirstByKeyKeys(s', key);
      assert x == s[i] && key(x) !in KeysOf(p, key);
      forall j | 0 <= j < i ensures key(s[j]) != key(s[i]) {
        assert s[j] in s';
        assert key(s[j]) in KeysOf(s', key);
      }
    }
  }

  /** Scanning a prefix yields a prefix: earlier input comes first in the output. */
  lemma {:induction false} FirstByKeyPrefix<T, K>(s: seq<T>, key: T -> K, k: nat)
    requires k <= |s|
    ensures FirstByKey(s[..k], key) <= FirstByKey(s, key)
    decreases |s| - k
  {
    if k < |s| {
      var s' := s[..|s| - 1];
      assert s'[..k] == s[..k];
      FirstByKeyPrefix(s', key, k);
    } else {
      assert s[..k] == s;
    }
  }
}
