/** The frequency maps of the preference analysis: a JavaScript `Map` from a
    key to its count, which keeps its keys in insertion order, updated by
    `map.set(k, (map.get(k) || 0) + 1)`; and getTopEntries, which sorts its
    entries by count, highest first, and keeps the first `limit`. */
module Frequency {
  import opened JsValues
  import opened StableSort

  /** The keys of a map's entries, in insertion order. */
  function Keys<K>(t: seq<(K, nat)>): (ks: seq<K>)
    ensures |ks| == |t| && forall i :: 0 <= i < |t| ==> ks[i] == t[i].0
  {
    seq(|t|, i requires 0 <= i < |t| => t[i].0)
  }

  predicate DistinctKeys<K(==)>(t: seq<(K, nat)>) {
    forall i, j :: 0 <= i < j < |t| ==> t[i].0 != t[j].0
  }

  /** `map.get(k) || 0` */
  function CountOf<K(==)>(t: seq<(K, nat)>, k: K): nat {
    if t == [] then 0 else if t[0].0 == k then t[0].1 else CountOf(t[1..], k)
  }

  /** `map.set(k, (map.get(k) || 0) + 1)`: a present key keeps its place and
      gains one; a new key goes at the end with count 1. */
  function Increment<K(==)>(t: seq<(K, nat)>, k: K): seq<(K, nat)> {
    if t == [] then [(k, 1)]
    else if t[0].0 == k then [(k, t[0].1 + 1)] + t[1..]
    else [t[0]] + Increment(t[1..], k)
  }

  /** The map after counting every key of `ks` in order, from an empty map. */
  function TallyOf<K(==)>(ks: seq<K>): seq<(K, nat)> {
    if ks == [] then [] else Increment(TallyOf(ks[..|ks| - 1]), ks[|ks| - 1])
  }

  /** The distinct elements of `s` in order of first appearance. */
  function FirstAppearances<K(==)>(s: seq<K>): seq<K> {
    if s == [] then []
    else
      var d := FirstAppearances(s[..|s| - 1]);
      if s[|s| - 1] in d then d else d + [s[|s| - 1]]
  }

  lemma {:induction false} IncrementKeys<K>(t: seq<(K, nat)>, k: K)
    ensures Keys(Increment(t, k)) == Keys(t) + (if k in Keys(t) then [] else [k])
  {
    if t != [] && t[0].0 != k {
      IncrementKeys(t[1..], k);
      assert Keys(t) == [t[0].0] + Keys(t[1..]);
      assert Keys(Increment(t, k)) == [t[0].0] + Keys(Increment(t[1..], k));
    } else if t != [] {
      assert Keys(Increment(t, k)) == Keys(t);
    }
  }

  lemma {:induction false} IncrementCount<K>(t: seq<(K, nat)>, k: K, x: K)
    ensures CountOf(Increment(t, k), x) == CountOf(t, x) + (if x == k then 1 else 0)
  {
    if t != [] && t[0].0 != k {
      IncrementCount(t[1..], k, x);
      assert Increment(t, k)[1..] == Increment(t[1..], k);
    } else if t != [] {
      assert Increment(t, k)[1..] == t[1..];
    }
  }

  lemma IncrementDistinct<K>(t: seq<(K, nat)>, k: K)
    requires DistinctKeys(t)
    ensures DistinctKeys(Increment(t, k))
  {
    var o := Increment(t, k);
    IncrementKeys(t, k);
    forall i, j | 0 <= i < j < |o| ensures o[i].0 != o[j].0 {
      assert Keys(o)[i] == o[i].0 && Keys(o)[j] == o[j].0;
      if j < |t| {
        assert Keys(t)[i] == t[i].0 && Keys(t)[j] == t[j].0;
      } else {
        assert Keys(t)[i] == t[i].0;
      }
    }
  }

  /** Counting keeps one entry per distinct key, in order of first
      appearance, and the count of each key is its number of occurrences. */
  lemma {:induction false} TallyOfSpec<K>(ks: seq<K>)
    ensures DistinctKeys(TallyOf(ks))
    ensures Keys(TallyOf(ks)) == FirstAppearances(ks)
    ensures forall k :: CountOf(TallyOf(ks), k) == multiset(ks)[k]
  {
    if ks != [] {
      var pre := ks[..|ks| - 1];
      var last := ks[|ks| - 1];
      TallyOfSpec(pre);
      IncrementKeys(TallyOf(pre), last);
      IncrementDistinct(TallyOf(pre), last);
      assert ks == pre + [last];
      assert multiset(ks) == multiset(pre) + multiset{last};
      assert TallyOf(ks) == Increment(TallyOf(pre), last);
      forall k ensures CountOf(TallyOf(ks), k) == multiset(ks)[k] {
        IncrementCount(TallyOf(pre), last, k);
      }
    }
  }

  /** `(a, b) => b[1] - a[1]`, as the key of a descending sort. */
  function ByCount<K>(e: (K, nat)): real {
    e.1 as real
  }

  /** getTopEntries: `Array.from(map.entries()).sort((a, b) => b[1] - a[1]).slice(0, limit)` */
  function GetTopEntries<K>(t: seq<(K, nat)>, limit: int): seq<(K, nat)> {
    Slice(SortDesc(t, ByCount), limit)
  }

  /** getTopEntries returns min(limit, size) entries of the map, with counts
      non-increasing; each of them is an entry of the map, and any entry
      left out counts no more than any entry kept. */
  lemma TopEntriesSpec<K>(t: seq<(K, nat)>, limit: int)
    requires limit >= 0
    ensures var r := GetTopEntries(t, limit);
      && |r| == (if limit < |t| then limit else |t|)
      && (forall i, j :: 0 <= i < j < |r| ==> r[i].1 >= r[j].1)
      && (forall e :: e in r ==> e in t)
      && (forall e, x :: e in t && e !in r && x in r ==> x.1 >= e.1)
  {
    var s := SortDesc(t, ByCount);
    var r := GetTopEntries(t, limit);
    SortDescSorted(t, ByCount);
    assert r == s[..|r|];
    forall e | e in r ensures e in t {
      assert e in multiset(s);
    }
    PrefixDominates(t, s, |r|, ByCount);
  }

  /** Ties keep insertion order: the kept entries of any one count are the
      first entries of that count in the map. */
  lemma TopEntriesTies<K>(t: seq<(K, nat)>, limit: int, c: nat)
    ensures var kept := WithKey(GetTopEntries(t, limit), ByCount, c as real);
      |kept| <= |WithKey(t, ByCount, c as real)| && kept == WithKey(t, ByCount, c as real)[..|kept|]
  {
    var s := SortDesc(t, ByCount);
    var r := GetTopEntries(t, limit);
    assert r == s[..|r|];
    WithKeyPrefix(s, |r|, ByCount, c as real);
    SortDescStable(t, ByCount, c as real);
  }

  lemma {:induction false} InsertDistinct<K>(e: (K, nat), r: seq<(K, nat)>, key: ((K, nat)) -> real)
    requires DistinctKeys(r) && forall x :: x in r ==> x.0 != e.0
    ensures DistinctKeys(Insert(e, r, key))
  {
    if r != [] && key(r[0]) > key(e) {
      InsertDistinct(e, r[1..], key);
      var o := Insert(e, r, key);
      var rest := Insert(e, r[1..], key);
      assert o == [r[0]] + rest;
      forall j | 0 < j < |o| ensures o[0].0 != o[j].0 {
        assert o[j] in multiset(rest);
        assert o[j] in r[1..] || o[j] == e;
      }
    }
  }

  lemma {:induction false} SortDistinct<K>(t: seq<(K, nat)>, key: ((K, nat)) -> real)
    requires DistinctKeys(t)
    ensures DistinctKeys(SortDesc(t, key))
  {
    if t != [] {
      SortDistinct(t[1..], key);
      var s := SortDesc(t[1..], key);
      forall x | x in s ensures x.0 != t[0].0 {
        assert x in multiset(t[1..]);
        var q :| 0 <= q < |t[1..]| && t[1..][q] == x;
        assert t[q + 1] == x;
      }
      InsertDistinct(t[0], s, key);
    }
  }

  /** Top entries of a counted map keep its keys distinct. */
  lemma TopEntriesDistinct<K>(t: seq<(K, nat)>, limit: int)
    requires DistinctKeys(t)
    ensures DistinctKeys(GetTopEntries(t, limit))
  {
    var s := SortDesc(t, ByCount);
    var r := GetTopEntries(t, limit);
    assert r == s[..|r|];
    SortDistinct(t, ByCount);
  }
}
