/**
  Python's `sorted(xs, key=...)` where the key is a tuple of ints and strings.
  A key is a sequence of atoms compared lexicographically, exactly as Python
  compares tuples; strings compare by code point, as Python's `str` does.
 */
module Ordering {

  datatype Atom = N(n: int) | S(s: string)

  type Key = seq<Atom>

  /** Lexicographic `a <= b` on strings, by code point. */
  predicate StrLe(a: string, b: string)
    decreases |a|
  {
    a == [] || (b != [] && (a[0] < b[0] || (a[0] == b[0] && StrLe(a[1..], b[1..]))))
  }

  lemma {:induction false} StrLeRefl(a: string)
    ensures StrLe(a, a)
    decreases |a|
  {
    if a != [] { StrLeRefl(a[1..]); }
  }

  lemma {:induction false} StrLeTotal(a: string, b: string)
    ensures StrLe(a, b) || StrLe(b, a)
    decreases |a|
  {
    if a != [] && b != [] && a[0] == b[0] { StrLeTotal(a[1..], b[1..]); }
  }

  lemma {:induction false} StrLeTrans(a: string, b: string, c: string)
    requires StrLe(a, b) && StrLe(b, c)
    ensures StrLe(a, c)
    decreases |a|
  {
    if a != [] && a[0] == b[0] && b[0] == c[0] { StrLeTrans(a[1..], b[1..], c[1..]); }
  }

  lemma {:induction false} StrLeAntisym(a: string, b: string)
    requires StrLe(a, b) && StrLe(b, a)
    ensures a == b
    decreases |a|
  {
    if a != [] {
      StrLeAntisym(a[1..], b[1..]);
      assert a == [a[0]] + a[1..] && b == [b[0]] + b[1..];
    }
  }

  /** Strict order on atoms: ints before strings, then by value. */
  predicate AtomLt(x: Atom, y: Atom) {
    match (x, y)
    case (N(a), N(b)) => a < b
    case (N(_), S(_)) => true
    case (S(_), N(_)) => false
    case (S(a), S(b)) => a != b && StrLe(a, b)
  }

  lemma AtomTrichotomy(x: Atom, y: Atom)
    ensures AtomLt(x, y) || x == y || AtomLt(y, x)
    ensures !(AtomLt(x, y) && AtomLt(y, x))
    ensures !AtomLt(x, x)
  {
    if x.S? && y.S? {
      StrLeTotal(x.s, y.s);
      if StrLe(x.s, y.s) && StrLe(y.s, x.s) { StrLeAntisym(x.s, y.s); }
    }
  }

  lemma AtomLtTrans(x: Atom, y: Atom, z: Atom)
    requires AtomLt(x, y) && AtomLt(y, z)
    ensures AtomLt(x, z)
  {
    if x.S? && y.S? && z.S? {
      StrLeTrans(x.s, y.s, z.s);
      if x.s == z.s { StrLeAntisym(x.s, y.s); }
    }
  }

  /** Lexicographic `a <= b` on keys, the order of Python tuples. */
  predicate KeyLe(a: Key, b: Key)
    decreases |a|
  {
    a == [] || (b != [] && (AtomLt(a[0], b[0]) || (a[0] == b[0] && KeyLe(a[1..], b[1..]))))
  }

  lemma {:induction false} KeyLeRefl(a: Key)
    ensures KeyLe(a, a)
    decreases |a|
  {
    if a != [] { KeyLeRefl(a[1..]); }
  }

  lemma {:induction false} KeyLeTotal(a: Key, b: Key)
    ensures KeyLe(a, b) || KeyLe(b, a)
    decreases |a|
  {
    if a != [] && b != [] {
      AtomTrichotomy(a[0], b[0]);
      if a[0] == b[0] { KeyLeTotal(a[1..], b[1..]); }
    }
  }

  lemma {:induction false} KeyLeTrans(a: Key, b: Key, c: Key)
    requires KeyLe(a, b) && KeyLe(b, c)
    ensures KeyLe(a, c)
    decreases |a|
  {
    if a != [] {
      if AtomLt(a[0], b[0]) && AtomLt(b[0], c[0]) {
        AtomLtTrans(a[0], b[0], c[0]);
      } else if a[0] == b[0] && b[0] == c[0] {
        KeyLeTrans(a[1..], b[1..], c[1..]);
      }
    }
  }

  lemma {:induction false} KeyLeAntisym(a: Key, b: Key)
    requires KeyLe(a, b) && KeyLe(b, a)
    ensures a == b
    decreases |a|
  {
    if a != [] {
      AtomTrichotomy(a[0], b[0]);
      KeyLeAntisym(a[1..], b[1..]);
      assert a == [a[0]] + a[1..] && b == [b[0]] + b[1..];
    }
  }

  /** Two keys that start with different first atoms are ordered by those atoms. */
  lemma KeyLeHead(a: Key, b: Key)
    requires KeyLe(a, b) && a != [] && b != []
    ensures AtomLt(a[0], b[0]) || a[0] == b[0]
  {
  }

  /** A key of one string orders as that string does. */
  lemma KeyLeString(a: string, b: string)
    requires KeyLe([S(a)], [S(b)])
    ensures StrLe(a, b)
  {
    if a == b { StrLeRefl(a); }
  }

  ghost predicate SortedBy<T>(s: seq<T>, key: T -> Key) {
    forall i, j :: 0 <= i < j < |s| ==> KeyLe(key(s[i]), key(s[j]))
  }

  /** A key below the head of a sorted sequence is below all of it. */
  lemma BelowHead<T>(x: T, s: seq<T>, key: T -> Key)
    requires SortedBy(s, key) && s != [] && KeyLe(key(x), key(s[0]))
    ensures forall j :: 0 <= j < |s| ==> KeyLe(key(x), key(s[j]))
  {
    forall j | 0 <= j < |s| ensures KeyLe(key(x), key(s[j])) {
      if j > 0 { KeyLeTrans(key(x), key(s[0]), key(s[j])); }
    }
  }

  /** A key below every element of `s` and below `x` is below every element of a permutation of `s + [x]`. */
  lemma BelowPermutation<T>(b: T, s: seq<T>, x: T, r: seq<T>, key: T -> Key)
    requires multiset(r) == multiset(s) + multiset{x}
    requires forall j :: 0 <= j < |s| ==> KeyLe(key(b), key(s[j]))
    requires KeyLe(key(b), key(x))
    ensures forall j :: 0 <= j < |r| ==> KeyLe(key(b), key(r[j]))
  {
    forall j | 0 <= j < |r| ensures KeyLe(key(b), key(r[j])) {
      assert r[j] in multiset(r);
      if r[j] != x {
        assert r[j] in multiset(s);
        var k :| 0 <= k < |s| && s[k] == r[j];
      }
    }
  }

  /** Prepending a key below everything keeps a sequence sorted. */
  lemma SortedCons<T>(b: T, r: seq<T>, key: T -> Key)
    requires SortedBy(r, key)
    requires forall j :: 0 <= j < |r| ==> KeyLe(key(b), key(r[j]))
    ensures SortedBy([b] + r, key)
  {
    var c := [b] + r;
    forall i, j | 0 <= i < j < |c| ensures KeyLe(key(c[i]), key(c[j])) {
      assert c[j] == r[j - 1];
      if i > 0 { assert c[i] == r[i - 1]; }
    }
  }

  /** Inserts `x` before the first element whose key is not below `x`'s (keeps stability). */
  function Insert<T>(x: T, s: seq<T>, key: T -> Key): (r: seq<T>)
    requires SortedBy(s, key)
    ensures multiset(r) == multiset(s) + multiset{x}
    ensures SortedBy(r, key)
    decreases |s|
  {
    if s == [] then [x]
    else if KeyLe(key(x), key(s[0])) then
      BelowHead(x, s, key);
      SortedCons(x, s, key);
      [x] + s
    else
      var tail := s[1..];
      assert SortedBy(tail, key);
      var rest := Insert(x, tail, key);
      KeyLeTotal(key(x), key(s[0]));
      assert s == [s[0]] + tail;
      assert forall j :: 0 <= j < |tail| ==> KeyLe(key(s[0]), key(tail[j]));
      BelowPermutation(s[0], tail, x, rest, key);
      SortedCons(s[0], rest, key);
      [s[0]] + rest
  }

  /** Python's `sorted(s, key=key)`: an ordered permutation of `s`, stable by `SortByStable`. */
  function SortBy<T>(s: seq<T>, key: T -> Key): (r: seq<T>)
    ensures multiset(r) == multiset(s)
    ensures SortedBy(r, key)
    decreases |s|
  {
    if s == [] then []
    else
      assert s == [s[0]] + s[1..];
      Insert(s[0], SortBy(s[1..], key), key)
  }

  /** The elements of `s` whose key is `k`, in the order of `s`. */
  function WithKey<T>(s: seq<T>, key: T -> Key, k: Key): seq<T>
    decreases |s|
  {
    if s == [] then [] else (if key(s[0]) == k then [s[0]] else []) + WithKey(s[1..], key, k)
  }

  lemma WithKeyCons<T>(y: T, t: seq<T>, key: T -> Key, k: Key)
    ensures WithKey([y] + t, key, k) == (if key(y) == k then [y] else []) + WithKey(t, key, k)
  {
    assert ([y] + t)[1..] == t;
  }

  /** One step of `Insert` past the head of `s`. */
  lemma InsertPast<T>(x: T, s: seq<T>, key: T -> Key)
    requires SortedBy(s, key) && s != [] && !KeyLe(key(x), key(s[0]))
    ensures SortedBy(s[1..], key)
    ensures Insert(x, s, key) == [s[0]] + Insert(x, s[1..], key)
  {
  }

  /** `Insert` puts `x` first when it is not above the head of `s`. */
  lemma InsertFirst<T>(x: T, s: seq<T>, key: T -> Key)
    requires SortedBy(s, key) && (s == [] || KeyLe(key(x), key(s[0])))
    ensures Insert(x, s, key) == [x] + s
  {
  }

  /** When one of two sequences is empty, they commute in front of a third. */
  lemma SwapEmpty<T>(a: seq<T>, b: seq<T>, w: seq<T>)
    requires a == [] || b == []
    ensures a + (b + w) == b + (a + w)
  {
  }

  /** `Insert` puts `x` after every element of `s` that shares its key. */
  lemma {:induction false} InsertWithKey<T>(x: T, s: seq<T>, key: T -> Key, k: Key)
    requires SortedBy(s, key)
    ensures WithKey(Insert(x, s, key), key, k) == (if key(x) == k then [x] else []) + WithKey(s, key, k)
    decreases |s|
  {
    if s == [] || KeyLe(key(x), key(s[0])) {
      InsertFirst(x, s, key);
      WithKeyCons(x, s, key, k);
    } else {
      var tail := s[1..];
      InsertPast(x, s, key);
      WithKeyCons(s[0], Insert(x, tail, key), key, k);
      InsertWithKey(x, tail, key, k);
      assert s == [s[0]] + tail;
      WithKeyCons(s[0], tail, key, k);
      KeyLeRefl(key(x));
      var here, mine := if key(s[0]) == k then [s[0]] else [], if key(x) == k then [x] else [];
      SwapEmpty(here, mine, WithKey(tail, key, k));
      assert WithKey(Insert(x, s, key), key, k) == here + (mine + WithKey(tail, key, k));
    }
  }

  /**
    `sorted` is stable: the elements that share any one key come out in the
    order they went in.
   */
  lemma {:induction false} SortByStable<T>(s: seq<T>, key: T -> Key)
    ensures forall k :: WithKey(SortBy(s, key), key, k) == WithKey(s, key, k)
    decreases |s|
  {
    if s != [] {
      SortByStable(s[1..], key);
      forall k ensures WithKey(SortBy(s, key), key, k) == WithKey(s, key, k) {
        InsertWithKey(s[0], SortBy(s[1..], key), key, k);
      }
    }
  }

  function Reverse<T>(s: seq<T>): (r: seq<T>)
    ensures |r| == |s|
    ensures forall i :: 0 <= i < |s| ==> r[i] == s[|s| - 1 - i]
    decreases |s|
  {
    if s == [] then [] else Reverse(s[1..]) + [s[0]]
  }

  /** A sorted sequence reversed is sorted the other way. */
  lemma ReverseSorted<T>(s: seq<T>, key: T -> Key)
    requires SortedBy(s, key)
    ensures forall i, j :: 0 <= i < j < |Reverse(s)| ==> KeyLe(key(Reverse(s)[j]), key(Reverse(s)[i]))
  {
    var r := Reverse(s);
    forall i, j | 0 <= i < j < |r| ensures KeyLe(key(r[j]), key(r[i])) {
      assert r[i] == s[|s| - 1 - i] && r[j] == s[|s| - 1 - j];
    }
  }

  lemma ReversePermutation<T>(s: seq<T>)
    ensures multiset(Reverse(s)) == multiset(s)
    decreases |s|
  {
    if s != [] {
      ReversePermutation(s[1..]);
      assert s == [s[0]] + s[1..];
    }
  }

  /** A sequence without repeated elements has multiplicity at most one everywhere. */
  lemma {:induction false} DistinctMultiplicity<T>(s: seq<T>, x: T)
    requires forall i, j :: 0 <= i < j < |s| ==> s[i] != s[j]
    ensures multiset(s)[x] <= 1
    decreases |s|
  {
    if s != [] {
      DistinctMultiplicity(s[1..], x);
      assert s == [s[0]] + s[1..];
      if s[0] == x {
        assert x !in s[1..];
      }
    }
  }

  /** A permutation of a sequence without repeated elements has none either. */
  lemma DistinctPermutation<T>(a: seq<T>, b: seq<T>)
    requires multiset(a) == multiset(b)
    requires forall i, j :: 0 <= i < j < |a| ==> a[i] != a[j]
    ensures forall i, j :: 0 <= i < j < |b| ==> b[i] != b[j]
  {
    forall i, j | 0 <= i < j < |b| ensures b[i] != b[j] {
      DistinctMultiplicity(a, b[i]);
      assert b == b[..j] + [b[j]] + b[j + 1..];
      assert b[i] in multiset(b[..j]);
      assert multiset(b)[b[j]] == multiset(b[..j])[b[j]] + 1 + multiset(b[j + 1..])[b[j]];
    }
  }
}
