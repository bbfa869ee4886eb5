/** `Array.prototype.sort` with a descending numeric comparator
    (`(a, b) => key(b) - key(a)`). The sort is stable, so elements with
    equal keys keep their relative order; it is modelled by an insertion
    sort. */
module StableSort {

  /** Puts `e` in front of the first element whose key is not larger than
      its own, so that `e` precedes every element of equal key in `r`. */
  function Insert<T>(e: T, r: seq<T>, key: T -> real): (o: seq<T>)
    ensures |o| == |r| + 1
    ensures multiset(o) == multiset(r) + multiset{e}
  {
    if r == [] || key(r[0]) <= key(e) then [e] + r
    else
      assert r == [r[0]] + r[1..];
      [r[0]] + Insert(e, r[1..], key)
  }

  function SortDesc<T>(s: seq<T>, key: T -> real): (o: seq<T>)
    ensures |o| == |s|
    ensures multiset(o) == multiset(s)
  {
    if s == [] then []
    else
      assert s == [s[0]] + s[1..];
      Insert(s[0], SortDesc(s[1..], key), key)
  }

  predicate SortedDesc<T>(s: seq<T>, key: T -> real) {
    forall i, j :: 0 <= i < j < |s| ==> key(s[i]) >= key(s[j])
  }

  /** The elements of `s` whose key is `v`, in order. */
  function WithKey<T>(s: seq<T>, key: T -> real, v: real): (o: seq<T>)
    ensures |o| <= |s|
  {
    if s == [] then []
    else (if key(s[0]) == v then [s[0]] else []) + WithKey(s[1..], key, v)
  }

  lemma {:induction false} InsertSorted<T>(e: T, r: seq<T>, key: T -> real)
    requires SortedDesc(r, key)
    ensures SortedDesc(Insert(e, r, key), key)
  {
    if r == [] || key(r[0]) <= key(e) {
      forall k | 0 <= k < |r| ensures key(r[k]) <= key(e) {
        assert key(r[k]) <= key(r[0]);
      }
      SortedCons(e, r, key);
    } else {
      var tail := r[1..];
      var t := Insert(e, tail, key);
      assert SortedDesc(tail, key) by {
        forall i, j | 0 <= i < j < |tail| ensures key(tail[i]) >= key(tail[j]) {
          assert tail[i] == r[i + 1] && tail[j] == r[j + 1];
        }
      }
      InsertSorted(e, tail, key);
      forall k | 0 <= k < |t| ensures key(t[k]) <= key(r[0]) {
        assert t[k] in multiset(t);
        if t[k] != e {
          assert t[k] in multiset(tail);
          var m :| 0 <= m < |tail| && tail[m] == t[k];
          assert r[m + 1] == t[k];
        }
      }
      SortedCons(r[0], t, key);
    }
  }

  /** An element no smaller than every element of a sorted sequence can go
      in front of it. */
  lemma SortedCons<T>(x: T, t: seq<T>, key: T -> real)
    requires SortedDesc(t, key)
    requires forall k :: 0 <= k < |t| ==> key(t[k]) <= key(x)
    ensures SortedDesc([x] + t, key)
  {
    var o := [x] + t;
    forall i, j | 0 <= i < j < |o| ensures key(o[i]) >= key(o[j]) {
      assert o[j] == t[j - 1];
      if i > 0 {
        assert o[i] == t[i - 1];
      }
    }
  }

  /** The sort orders its result by non-increasing key. */
  lemma {:induction false} SortDescSorted<T>(s: seq<T>, key: T -> real)
    ensures SortedDesc(SortDesc(s, key), key)
  {
    if s != [] {
      SortDescSorted(s[1..], key);
      InsertSorted(s[0], SortDesc(s[1..], key), key);
    }
  }

  lemma {:induction false} InsertWithKey<T>(e: T, r: seq<T>, key: T -> real, v: real)
    ensures WithKey(Insert(e, r, key), key, v) == (if key(e) == v then [e] else []) + WithKey(r, key, v)
  {
    if r == [] || key(r[0]) <= key(e) {
      assert Insert(e, r, key) == [e] + r;
      WithKeyCons(e, r, key, v);
    } else {
      assert Insert(e, r, key) == [r[0]] + Insert(e, r[1..], key);
      var ev: seq<T> := if key(e) == v then [e] else [];
      var hd: seq<T> := if key(r[0]) == v then [r[0]] else [];
      InsertWithKey(e, r[1..], key, v);
      WithKeyCons(r[0], Insert(e, r[1..], key), key, v);
      WithKeyCons(r[0], r[1..], key, v);
      assert [r[0]] + r[1..] == r;
      // key(r[0]) > key(e), so at most one of the two has key v
      SwapEmpty(hd, ev, WithKey(r[1..], key, v));
    }
  }

  lemma WithKeyCons<T>(x: T, s: seq<T>, key: T -> real, v: real)
    ensures WithKey([x] + s, key, v) == (if key(x) == v then [x] else []) + WithKey(s, key, v)
  {
    assert ([x] + s)[0] == x && ([x] + s)[1..] == s;
  }

  lemma SwapEmpty<T>(a: seq<T>, b: seq<T>, w: seq<T>)
    requires a == [] || b == []
    ensures a + (b + w) == b + (a + w)
  {
    if a == [] {
      assert a + (b + w) == b + w && a + w == w;
    } else {
      assert b + w == w && b + (a + w) == a + w;
    }
  }

  /** Stability: the elements of any one key come out in the order they went
      in. */
  lemma {:induction false} SortDescStable<T>(s: seq<T>, key: T -> real, v: real)
    ensures WithKey(SortDesc(s, key), key, v) == WithKey(s, key, v)
  {
    if s != [] {
      SortDescStable(s[1..], key, v);
      InsertWithKey(s[0], SortDesc(s[1..], key), key, v);
    }
  }

  /** Of a sorted permutation `s` of `t`, an element of `t` left out of the
      first `n` has a key no larger than any element among them. */
  lemma PrefixDominates<T>(t: seq<T>, s: seq<T>, n: nat, key: T -> real)
    requires n <= |s| && multiset(s) == multiset(t) && SortedDesc(s, key)
    ensures forall e, x :: e in t && e !in s[..n] && x in s[..n] ==> key(x) >= key(e)
  {
    var r := s[..n];
    forall e, x | e in t && e !in r && x in r ensures key(x) >= key(e) {
      assert e in multiset(s);
      var j :| 0 <= j < |s| && s[j] == e;
      var i :| 0 <= i < |r| && r[i] == x;
      assert j >= |r|;
      assert key(s[i]) >= key(s[j]);
    }
  }

  /** A prefix keeps, of each key, a prefix of the elements of that key. */
  lemma {:induction false} WithKeyPrefix<T>(s: seq<T>, n: nat, key: T -> real, v: real)
    requires n <= |s|
    ensures |WithKey(s[..n], key, v)| <= |WithKey(s, key, v)|
    ensures WithKey(s[..n], key, v) == WithKey(s, key, v)[..|WithKey(s[..n], key, v)|]
  {
    if n > 0 {
      WithKeyPrefix(s[1..], n - 1, key, v);
      assert s[..n][1..] == s[1..][..n - 1];
    }
  }
}
