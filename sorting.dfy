/**
 * Python's `sorted(xs, key=k)`: a stable sort by a key under a total order.
 * Modelled as insertion sort; its contract is what `sorted` promises:
 * the result is ordered by key, and for every key value the elements with
 * that key keep their original relative order (which also makes it a
 * permutation of the input).
 */
module Sorting {

  ghost predicate TotalOrder<K(!new)>(le: (K, K) -> bool) {
    && (forall a :: le(a, a))
    && (forall a, b :: le(a, b) || le(b, a))
    && (forall a, b, c :: le(a, b) && le(b, c) ==> le(a, c))
  }

  ghost predicate SortedBy<T, K>(s: seq<T>, key: T -> K, le: (K, K) -> bool) {
    forall i, j :: 0 <= i < j < |s| ==> le(key(s[i]), key(s[j]))
  }

  /** The elements of s whose key is k, in their order in s. */
  function WithKey<T, K(==)>(s: seq<T>, key: T -> K, k: K): (r: seq<T>)
    ensures |r| <= |s|
  {
    if s == [] then []
    else (if key(s[0]) == k then [s[0]] else []) + WithKey(s[1..], key, k)
  }

  /** Inserts x before the first element whose key is at least x's. */
  function Insert<T, K>(x: T, s: seq<T>, key: T -> K, le: (K, K) -> bool): seq<T> {
    if s == [] || le(key(x), key(s[0])) then [x] + s
    else [s[0]] + Insert(x, s[1..], key, le)
  }

  function SortBy<T, K>(s: seq<T>, key: T -> K, le: (K, K) -> bool): seq<T> {
    if s == [] then [] else Insert(s[0], SortBy(s[1..], key, le), key, le)
  }

  lemma {:induction false} InsertKeepsKeyOrder<T, K(!new)>(x: T, s: seq<T>, key: T -> K, le: (K, K) -> bool, k: K)
    requires forall a :: le(a, a)
    ensures WithKey(Insert(x, s, key, le), key, k) == (if key(x) == k then [x] else []) + WithKey(s, key, k)
  {
    if s == [] || le(key(x), key(s[0])) {
      assert ([x] + s)[1..] == s;
    } else {
      var rest := Insert(x, s[1..], key, le);
      InsertKeepsKeyOrder(x, s[1..], key, le, k);
      var t := [s[0]] + rest;
      assert t[1..] == rest;
      var head := if key(s[0]) == k then [s[0]] else [];
      var mid := if key(x) == k then [x] else [];
      assert WithKey(t, key, k) == head + WithKey(rest, key, k);
      assert WithKey(s, key, k) == head + WithKey(s[1..], key, k);
      assert le(key(x), key(x));
      assert key(s[0]) != key(x);
      if key(x) == k {
        assert head == [];
      } else {
        assert mid == [];
      }
    }
  }

  lemma {:induction false} InsertSorted<T, K(!new)>(x: T, s: seq<T>, key: T -> K, le: (K, K) -> bool)
    requires TotalOrder(le)
    requires SortedBy(s, key, le)
    ensures SortedBy(Insert(x, s, key, le), key, le)
    ensures multiset(Insert(x, s, key, le)) == multiset(s) + multiset{x}
  {
    if s == [] || le(key(x), key(s[0])) {
      var t := [x] + s;
      forall i, j | 0 <= i < j < |t| ensures le(key(t[i]), key(t[j])) {
        if i == 0 && j > 1 {
          assert le(key(s[0]), key(s[j - 1]));
        }
      }
    } else {
      var rest := Insert(x, s[1..], key, le);
      InsertSorted(x, s[1..], key, le);
      assert le(key(s[0]), key(x));
      assert s == [s[0]] + s[1..];
      var t := [s[0]] + rest;
      forall j | 0 < j < |t| ensures le(key(s[0]), key(t[j])) {
        assert t[j] in multiset(rest);
        assert t[j] == x || t[j] in multiset(s[1..]);
        if t[j] != x {
          var m :| 0 <= m < |s[1..]| && s[1..][m] == t[j];
          assert s[m + 1] == t[j];
        }
      }
    }
  }

  /** `sorted` is stable: per key value, the original order is kept. */
  lemma {:induction false} SortByStable<T, K(!new)>(s: seq<T>, key: T -> K, le: (K, K) -> bool, k: K)
    requires forall a :: le(a, a)
    ensures WithKey(SortBy(s, key, le), key, k) == WithKey(s, key, k)
  {
    if s != [] {
      SortByStable(s[1..], key, le, k);
      InsertKeepsKeyOrder(s[0], SortBy(s[1..], key, le), key, le, k);
    }
  }

  /** `sorted` returns a permutation of its input, ordered by key. */
  lemma {:induction false} SortBySorted<T, K(!new)>(s: seq<T>, key: T -> K, le: (K, K) -> bool)
    requires TotalOrder(le)
    ensures SortedBy(SortBy(s, key, le), key, le)
    ensures multiset(SortBy(s, key, le)) == multiset(s)
  {
    if s != [] {
      SortBySorted(s[1..], key, le);
      InsertSorted(s[0], SortBy(s[1..], key, le), key, le);
      assert s == [s[0]] + s[1..];
    }
  }

  predicate IntLe(a: int, b: int) { a <= b }

  /** Python's `<=` on strings: lexicographic by code point. */
  predicate StrLe(a: string, b: string) {
    if a == [] then true
    else if b == [] then false
    else if a[0] != b[0] then a[0] < b[0]
    else StrLe(a[1..], b[1..])
  }

  lemma IntLeTotal()
    ensures TotalOrder(IntLe)
  {
  }

  lemma {:induction false} StrLeReflexive(a: string)
    ensures StrLe(a, a)
  {
    if a != [] {
      StrLeReflexive(a[1..]);
    }
  }

  lemma {:induction false} StrLeTotal2(a: string, b: string)
    ensures StrLe(a, b) || StrLe(b, a)
  {
    if a != [] && b != [] && a[0] == b[0] {
      StrLeTotal2(a[1..], b[1..]);
    }
  }

  lemma {:induction false} StrLeTransitive(a: string, b: string, c: string)
    requires StrLe(a, b) && StrLe(b, c)
    ensures StrLe(a, c)
  {
    if a != [] && b != [] && c != [] && a[0] == b[0] == c[0] {
      StrLeTransitive(a[1..], b[1..], c[1..]);
    }
  }

  lemma StrLeTotal()
    ensures TotalOrder(StrLe)
  {
    forall a: string ensures StrLe(a, a) {
      StrLeReflexive(a);
    }
    forall a: string, b: string ensures StrLe(a, b) || StrLe(b, a) {
      StrLeTotal2(a, b);
    }
    forall a: string, b: string, c: string | StrLe(a, b) && StrLe(b, c) ensures StrLe(a, c) {
      StrLeTransitive(a, b, c);
    }
  }
}
