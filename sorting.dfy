/** Python's `sorted(s, key=key)`: a stable sort in ascending string order of
    the key. Modelled as an insertion sort that places each element after
    every element with a smaller key and before every element with an equal
    one that came after it in the input. */
module Sorting {
  import opened PyStrings

  predicate SortedBy<T>(s: seq<T>, key: T -> string)
  {
    forall i, j :: 0 <= i < j < |s| ==> LessEq(key(s[i]), key(s[j]))
  }

  /** No two different elements of `s` share a key. */
  ghost predicate KeyInjective<T>(s: seq<T>, key: T -> string)
  {
    forall x, y :: x in s && y in s && key(x) == key(y) ==> x == y
  }

  function InsertBy<T>(x: T, s: seq<T>, key: T -> string): (r: seq<T>)
    requires SortedBy(s, key)
    ensures multiset(r) == multiset(s) + multiset{x}
    ensures SortedBy(r, key)
    decreases |s|
  {
    if s == [] then [x]
    else if LessEq(key(x), key(s[0])) then
      assert forall j :: 0 <= j < |s| ==> LessEq(key(x), key(s[j])) by {
        forall j | 0 <= j < |s| ensures LessEq(key(x), key(s[j])) {
          if j > 0 { LessEqTransitive(key(x), key(s[0]), key(s[j])); }
        }
      }
      [x] + s
    else
      var rest := InsertBy(x, s[1..], key);
      assert s == [s[0]] + s[1..];
      assert forall y :: y in rest ==> LessEq(key(s[0]), key(y)) by {
        forall y | y in rest ensures LessEq(key(s[0]), key(y)) {
          assert y in multiset(rest);
          if y == x {
            LessEqTotal(key(x), key(s[0]));
          } else {
            assert y in multiset(s[1..]);
            var j :| 0 <= j < |s[1..]| && s[1..][j] == y;
            assert s[j + 1] == y;
          }
        }
      }
      [s[0]] + rest
  }

  /** `sorted(s, key=key)`: a permutation of `s`, in ascending key order. */
  function SortBy<T>(s: seq<T>, key: T -> string): (r: seq<T>)
    ensures multiset(r) == multiset(s)
    ensures |r| == |s|
    ensures SortedBy(r, key)
    decreases |s|
  {
    if s == [] then []
    else
      assert s == [s[0]] + s[1..];
      InsertBy(s[0], SortBy(s[1..], key), key)
  }

  /** The elements of `s` whose key is `k`, in their order in `s`. */
  function WithKey<T>(s: seq<T>, key: T -> string, k: string): seq<T>
  {
    if s == [] then [] else (if key(s[0]) == k then [s[0]] else []) + WithKey(s[1..], key, k)
  }

  /** Inserting `x` puts it before every element with the same key. */
  lemma {:induction false} InsertByStable<T>(x: T, s: seq<T>, key: T -> string, k: string)
    requires SortedBy(s, key)
    ensures WithKey(InsertBy(x, s, key), key, k) == WithKey([x] + s, key, k)
    decreases |s|
  {
    assert ([x] + s)[1..] == s;
    if s != [] && !LessEq(key(x), key(s[0])) {
      LessEqTotal(key(x), key(x));
      var rest := InsertBy(x, s[1..], key);
      SortedTail(s, key);
      InsertByStable(x, s[1..], key, k);
      assert ([s[0]] + rest)[1..] == rest;
      assert ([x] + s[1..])[1..] == s[1..];
      if key(s[0]) == k {
        assert WithKey([x] + s, key, k) == WithKey(s, key, k);
      } else if key(x) == k {
        assert WithKey(s, key, k) == WithKey(s[1..], key, k);
      }
    }
  }

  /** `sorted` is stable: elements with equal keys keep their input order. */
  lemma {:induction false} SortByStable<T>(s: seq<T>, key: T -> string, k: string)
    ensures WithKey(SortBy(s, key), key, k) == WithKey(s, key, k)
    decreases |s|
  {
    if s != [] {
      var rest := SortBy(s[1..], key);
      SortByStable(s[1..], key, k);
      InsertByStable(s[0], rest, key, k);
      assert ([s[0]] + rest)[1..] == rest;
    }
  }

  function Identity(s: string): string
  {
    s
  }

  /** `sorted(lines)` on a list of strings. */
  function SortStrings(lines: seq<string>): (r: seq<string>)
    ensures multiset(r) == multiset(lines)
    ensures forall i, j :: 0 <= i < j < |r| ==> LessEq(r[i], r[j])
  {
    SortBy(lines, Identity)
  }

  /** The first element of a key-sorted list has the least key. */
  lemma SortedHeadLeast<T>(s: seq<T>, key: T -> string, x: T)
    requires SortedBy(s, key)
    requires x in s
    ensures LessEq(key(s[0]), key(x))
  {
    var k :| 0 <= k < |s| && s[k] == x;
    if k == 0 {
      LessEqTotal(key(x), key(x));
    }
  }

  lemma SortedTail<T>(a: seq<T>, key: T -> string)
    requires a != [] && SortedBy(a, key)
    ensures SortedBy(a[1..], key)
  {
    forall i, j | 0 <= i < j < |a| - 1 ensures LessEq(key(a[1..][i]), key(a[1..][j])) {
      assert a[1..][i] == a[i + 1] && a[1..][j] == a[j + 1];
    }
  }

  lemma KeyInjectiveTail<T>(a: seq<T>, key: T -> string)
    requires a != [] && KeyInjective(a, key)
    ensures KeyInjective(a[1..], key)
  {
    forall x, y | x in a[1..] && y in a[1..] && key(x) == key(y) ensures x == y {
      assert x in a && y in a;
    }
  }

  lemma SortedHeadsAgree<T>(a: seq<T>, b: seq<T>, key: T -> string)
    requires a != []
    requires SortedBy(a, key) && SortedBy(b, key)
    requires multiset(a) == multiset(b)
    requires KeyInjective(a, key)
    ensures b != [] && a[0] == b[0]
  {
    assert |multiset(b)| == |a|;
    assert a[0] in multiset(b) && b[0] in multiset(a);
    SortedHeadLeast(b, key, a[0]);
    SortedHeadLeast(a, key, b[0]);
    LessEqAntisymmetric(key(a[0]), key(b[0]));
  }

  /** Two key-sorted orderings of the same elements coincide when no two
      different elements share a key: the result of the sort depends only on
      the multiset of its input, not on the input order. */
  lemma {:induction false} SortedByUnique<T>(a: seq<T>, b: seq<T>, key: T -> string)
    requires SortedBy(a, key) && SortedBy(b, key)
    requires multiset(a) == multiset(b)
    requires KeyInjective(a, key)
    ensures a == b
    decreases |a|
  {
    if a == [] {
      assert |multiset(b)| == 0;
    } else {
      SortedHeadsAgree(a, b, key);
      assert a == [a[0]] + a[1..] && b == [b[0]] + b[1..];
      assert multiset(a[1..]) == multiset(a) - multiset{a[0]};
      assert multiset(b[1..]) == multiset(b) - multiset{b[0]};
      KeyInjectiveTail(a, key);
      SortedTail(a, key);
      SortedTail(b, key);
      SortedByUnique(a[1..], b[1..], key);
    }
  }

  /** Sorting two arrangements of the same elements gives the same list
      whenever no two different elements share a key. */
  lemma SortByOrderIndependent<T>(s: seq<T>, t: seq<T>, key: T -> string)
    requires multiset(s) == multiset(t)
    requires KeyInjective(s, key)
    ensures SortBy(s, key) == SortBy(t, key)
  {
    var a, b := SortBy(s, key), SortBy(t, key);
    assert KeyInjective(a, key) by {
      forall x, y | x in a && y in a && key(x) == key(y) ensures x == y {
        assert x in multiset(a) && y in multiset(a);
        assert x in s && y in s;
      }
    }
    SortedByUnique(a, b, key);
  }
}
