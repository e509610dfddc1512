/**
 * Ordering by a key, largest first, keeping the input order among equal keys:
 * the behaviour of LINQ's OrderByDescending, which is a stable sort.
 */
module Ranking {

  /** s is non-increasing in key. */
  predicate SortedDesc<T>(s: seq<T>, key: T -> int)
  {
    forall i, j :: 0 <= i < j < |s| ==> key(s[i]) >= key(s[j])
  }

  /** The elements of s whose key is k, in the order they have in s. */
  function WithKey<T>(s: seq<T>, key: T -> int, k: int): seq<T>
  {
    if s == [] then []
    else (if key(s[0]) == k then [s[0]] else []) + WithKey(s[1..], key, k)
  }

  /**
   * r is a stable descending ordering of s: r is non-increasing in key, and for
   * every key value r holds the same elements as s in the same order.
   */
  ghost predicate StableDescOf<T>(r: seq<T>, s: seq<T>, key: T -> int)
  {
    SortedDesc(r, key) && forall k :: WithKey(r, key, k) == WithKey(s, key, k)
  }

  /** Puts x in front of the first element whose key is not larger than x's. */
  function Insert<T>(x: T, s: seq<T>, key: T -> int): seq<T>
  {
    if s == [] || key(s[0]) <= key(x) then [x] + s
    else [s[0]] + Insert(x, s[1..], key)
  }

  /** Insertion sort, largest key first; an element is inserted ahead of the equal keys that came after it. */
  function SortDesc<T>(s: seq<T>, key: T -> int): seq<T>
  {
    if s == [] then [] else Insert(s[0], SortDesc(s[1..], key), key)
  }

  lemma WithKeyCons<T>(x: T, s: seq<T>, key: T -> int, k: int)
    ensures WithKey([x] + s, key, k) == (if key(x) == k then [x] else []) + WithKey(s, key, k)
  {
    assert ([x] + s)[1..] == s;
  }

  /** Every element that WithKey selects is an element of s with key k. */
  lemma {:induction false} WithKeyMembers<T>(s: seq<T>, key: T -> int, k: int, i: int)
    requires 0 <= i < |WithKey(s, key, k)|
    ensures WithKey(s, key, k)[i] in s && key(WithKey(s, key, k)[i]) == k
  {
    if key(s[0]) == k && i == 0 {
    } else {
      var j := if key(s[0]) == k then i - 1 else i;
      WithKeyMembers(s[1..], key, k, j);
    }
  }

  lemma {:induction false} InsertSorted<T>(x: T, s: seq<T>, key: T -> int)
    requires SortedDesc(s, key)
    ensures SortedDesc(Insert(x, s, key), key)
    ensures |Insert(x, s, key)| == |s| + 1
    ensures Insert(x, s, key) != [] && (Insert(x, s, key)[0] == x || Insert(x, s, key)[0] == s[0])
  {
    if s != [] && key(s[0]) > key(x) {
      InsertSorted(x, s[1..], key);
    }
  }

  lemma {:induction false} InsertWithKey<T>(x: T, s: seq<T>, key: T -> int, k: int)
    requires SortedDesc(s, key)
    ensures WithKey(Insert(x, s, key), key, k) == (if key(x) == k then [x] else []) + WithKey(s, key, k)
  {
    if s == [] || key(s[0]) <= key(x) {
      WithKeyCons(x, s, key, k);
    } else {
      InsertWithKey(x, s[1..], key, k);
      WithKeyCons(s[0], Insert(x, s[1..], key), key, k);
      WithKeyCons(s[0], s[1..], key, k);
      assert [s[0]] + s[1..] == s;
    }
  }

  lemma {:induction false} InsertMultiset<T>(x: T, s: seq<T>, key: T -> int)
    ensures multiset(Insert(x, s, key)) == multiset(s) + multiset{x}
  {
    if s != [] && key(s[0]) > key(x) {
      InsertMultiset(x, s[1..], key);
      assert [s[0]] + s[1..] == s;
    }
  }

  /** SortDesc yields a stable descending ordering of its input. */
  lemma {:induction false} SortDescStable<T>(s: seq<T>, key: T -> int)
    ensures StableDescOf(SortDesc(s, key), s, key)
    ensures |SortDesc(s, key)| == |s|
  {
    if s != [] {
      var t := SortDesc(s[1..], key);
      SortDescStable(s[1..], key);
      InsertSorted(s[0], t, key);
      forall k ensures WithKey(SortDesc(s, key), key, k) == WithKey(s, key, k) {
        InsertWithKey(s[0], t, key, k);
        WithKeyCons(s[0], s[1..], key, k);
        assert [s[0]] + s[1..] == s;
      }
    }
  }

  /** SortDesc only reorders: it returns a permutation of its input. */
  lemma {:induction false} SortDescPermutation<T>(s: seq<T>, key: T -> int)
    ensures multiset(SortDesc(s, key)) == multiset(s)
  {
    if s != [] {
      SortDescPermutation(s[1..], key);
      InsertMultiset(s[0], SortDesc(s[1..], key), key);
      assert [s[0]] + s[1..] == s;
    }
  }

  lemma WithKeyNonEmpty<T>(s: seq<T>, key: T -> int)
    requires s != []
    ensures WithKey(s, key, key(s[0])) != [] && WithKey(s, key, key(s[0]))[0] == s[0]
  {
  }

  /** Two orderings that agree on every key class are both empty or both not. */
  lemma SameEmptiness<T>(a: seq<T>, b: seq<T>, key: T -> int)
    requires forall k :: WithKey(a, key, k) == WithKey(b, key, k)
    ensures a == [] <==> b == []
  {
    if a != [] {
      WithKeyNonEmpty(a, key);
      assert WithKey(b, key, key(a[0])) != [];
    }
    if b != [] {
      WithKeyNonEmpty(b, key);
      assert WithKey(a, key, key(b[0])) != [];
    }
  }

  /** Two non-increasing orderings that agree on every key class start with the same element. */
  lemma SameHead<T>(a: seq<T>, b: seq<T>, key: T -> int)
    requires a != [] && b != []
    requires SortedDesc(a, key) && SortedDesc(b, key)
    requires forall k :: WithKey(a, key, k) == WithKey(b, key, k)
    ensures a[0] == b[0]
  {
    var ka, kb := key(a[0]), key(b[0]);
    WithKeyNonEmpty(a, key);
    WithKeyNonEmpty(b, key);
    assert WithKey(a, key, kb) == WithKey(b, key, kb);
    assert WithKey(b, key, ka) == WithKey(a, key, ka);
    WithKeyMembers(a, key, kb, 0);
    WithKeyMembers(b, key, ka, 0);
    assert ka == kb;
  }

  /** Dropping the same first element keeps the key classes in agreement. */
  lemma SameTails<T>(a: seq<T>, b: seq<T>, key: T -> int)
    requires a != [] && b != [] && a[0] == b[0]
    requires forall k :: WithKey(a, key, k) == WithKey(b, key, k)
    ensures forall k :: WithKey(a[1..], key, k) == WithKey(b[1..], key, k)
  {
    forall k ensures WithKey(a[1..], key, k) == WithKey(b[1..], key, k) {
      WithKeyCons(a[0], a[1..], key, k);
      WithKeyCons(b[0], b[1..], key, k);
      assert [a[0]] + a[1..] == a;
      assert [b[0]] + b[1..] == b;
      var head := if key(a[0]) == k then [a[0]] else [];
      assert head + WithKey(a[1..], key, k) == head + WithKey(b[1..], key, k);
      assert WithKey(a[1..], key, k) == (head + WithKey(a[1..], key, k))[|head|..];
      assert WithKey(b[1..], key, k) == (head + WithKey(b[1..], key, k))[|head|..];
    }
  }

  /**
   * Two sequences that are both non-increasing in key and agree on the order of
   * every key class are equal: a stable descending ordering is unique.
   */
  lemma {:induction false} StableOrderUnique<T>(a: seq<T>, b: seq<T>, key: T -> int)
    requires SortedDesc(a, key) && SortedDesc(b, key)
    requires forall k :: WithKey(a, key, k) == WithKey(b, key, k)
    ensures a == b
    decreases |a|
  {
    SameEmptiness(a, b, key);
    if a != [] {
      SameHead(a, b, key);
      SameTails(a, b, key);
      StableOrderUnique(a[1..], b[1..], key);
      assert a == [a[0]] + a[1..];
      assert b == [b[0]] + b[1..];
    }
  }

  /** SortDesc is the stable descending ordering: any other one equals it. */
  lemma SortDescIsTheStableOrder<T>(r: seq<T>, s: seq<T>, key: T -> int)
    requires StableDescOf(r, s, key)
    ensures r == SortDesc(s, key)
  {
    SortDescStable(s, key);
    StableOrderUnique(r, SortDesc(s, key), key);
  }
}
