/** shuffleRecommendations of the enhanced recommendations script: the
    recommendations are grouped by reason (`rec.reason || 'general'`), each
    group is shuffled, and the result takes one item from each group in
    turn, round after round, until all groups are empty. */
module Shuffle {
  import opened JsValues

  /** The property name an item is grouped under. */
  function GroupKey<T>(x: T, reasonOf: T -> Js): string {
    var reason := reasonOf(x);
    if Truthy(reason) then ToStr(reason) else "general"
  }

  /** `groupedRecs[key].push(x)`, creating the group at the end when the
      key is new; groups keep the order their keys first appeared in. */
  function AddToGroup<T>(groups: seq<(string, seq<T>)>, k: string, x: T): (r: seq<(string, seq<T>)>)
    ensures |r| == |groups| || |r| == |groups| + 1
  {
    if groups == [] then [(k, [x])]
    else if groups[0].0 == k then [(k, groups[0].1 + [x])] + groups[1..]
    else [groups[0]] + AddToGroup(groups[1..], k, x)
  }

  /** The grouped object after the `forEach` over `recs`. */
  function GroupsOf<T>(recs: seq<T>, reasonOf: T -> Js): seq<(string, seq<T>)> {
    if recs == [] then []
    else
      var last := recs[|recs| - 1];
      AddToGroup(GroupsOf(recs[..|recs| - 1], reasonOf), GroupKey(last, reasonOf), last)
  }

  /** All groups' items, one group after the other. */
  function Flatten<T>(gs: seq<seq<T>>): seq<T> {
    if gs == [] then [] else gs[0] + Flatten(gs[1..])
  }

  /** `Object.values(groupedRecs)` */
  function Values<T>(groups: seq<(string, seq<T>)>): (vs: seq<seq<T>>)
    ensures |vs| == |groups| && forall i :: 0 <= i < |groups| ==> vs[i] == groups[i].1
  {
    seq(|groups|, i requires 0 <= i < |groups| => groups[i].1)
  }

  /** The first item of every non-empty group, in group order: one round of
      the interleave. */
  function Heads<T>(gs: seq<seq<T>>): seq<T> {
    if gs == [] then []
    else (if gs[0] != [] then [gs[0][0]] else []) + Heads(gs[1..])
  }

  /** Every group after `shift()`; empty groups stay empty. */
  function Tails<T>(gs: seq<seq<T>>): (ts: seq<seq<T>>)
    ensures |ts| == |gs| && forall i :: 0 <= i < |gs| ==> ts[i] == if gs[i] == [] then [] else gs[i][1..]
  {
    seq(|gs|, i requires 0 <= i < |gs| => if gs[i] == [] then [] else gs[i][1..])
  }

  function TotalSize<T>(gs: seq<seq<T>>): nat {
    if gs == [] then 0 else |gs[0]| + TotalSize(gs[1..])
  }

  predicate AllEmpty<T>(gs: seq<seq<T>>) {
    forall i :: 0 <= i < |gs| ==> gs[i] == []
  }

  lemma TailsSmaller<T>(gs: seq<seq<T>>)
    ensures TotalSize(Tails(gs)) + |Heads(gs)| == TotalSize(gs)
    ensures AllEmpty(gs) <==> Heads(gs) == []
  {
    TailsSize(gs);
    HeadsEmpty(gs);
  }

  lemma {:induction false} TailsSize<T>(gs: seq<seq<T>>)
    ensures TotalSize(Tails(gs)) + |Heads(gs)| == TotalSize(gs)
  {
    if gs != [] {
      TailsSize(gs[1..]);
      assert Tails(gs)[1..] == Tails(gs[1..]);
    }
  }

  /** A list of groups is all empty exactly when its first group and the
      rest are. */
  lemma AllEmptyCons<T>(gs: seq<seq<T>>)
    requires gs != []
    ensures AllEmpty(gs) <==> gs[0] == [] && AllEmpty(gs[1..])
  {
    if gs[0] == [] && AllEmpty(gs[1..]) {
      forall i | 0 <= i < |gs| ensures gs[i] == [] {
        if i > 0 {
          assert gs[i] == gs[1..][i - 1];
        }
      }
    }
    if AllEmpty(gs) {
      forall i | 0 <= i < |gs[1..]| ensures gs[1..][i] == [] {
        assert gs[1..][i] == gs[i + 1];
      }
    }
  }

  lemma {:induction false} HeadsEmpty<T>(gs: seq<seq<T>>)
    ensures AllEmpty(gs) <==> Heads(gs) == []
  {
    if gs != [] {
      HeadsEmpty(gs[1..]);
      AllEmptyCons(gs);
    }
  }

  /** The interleave: rounds of Heads until every group is empty. */
  function RoundRobin<T>(gs: seq<seq<T>>): seq<T>
    decreases TotalSize(gs)
  {
    TailsSmaller(gs);
    if AllEmpty(gs) then [] else Heads(gs) + RoundRobin(Tails(gs))
  }

  // ---- the script's steps ----

  /** `groupedRecs` is a plain object: for a key inherited from
      Object.prototype, `groupedRecs[reason]` is already truthy, no group is
      created, and `.push` is not a function there, so the `forEach`
      throws. */
  predicate GroupThrows<T>(recs: seq<T>, reasonOf: T -> Js) {
    exists i :: 0 <= i < |recs| && GroupKey(recs[i], reasonOf) in ObjectPrototypeNames
  }

  /** The `forEach` that fills `groupedRecs`; None is the TypeError. */
  method GroupByReason<T>(recs: seq<T>, reasonOf: T -> Js) returns (groups: Option<seq<(string, seq<T>)>>)
    ensures groups.None? <==> GroupThrows(recs, reasonOf)
    ensures groups.Some? ==> groups.value == GroupsOf(recs, reasonOf)
  {
    var gs := [];
    for i := 0 to |recs|
      invariant gs == GroupsOf(recs[..i], reasonOf)
      invariant forall j :: 0 <= j < i ==> GroupKey(recs[j], reasonOf) !in ObjectPrototypeNames
    {
      var key := GroupKey(recs[i], reasonOf);
      if key in ObjectPrototypeNames {
        return None;
      }
      assert recs[..i + 1][..i] == recs[..i];
      gs := AddToGroup(gs, key, recs[i]);
    }
    assert recs[..|recs|] == recs;
    return Some(gs);
  }

  /** The reasons the recommendation scripts give all start with a capital
      letter, and a missing one becomes 'general': no such key is inherited
      from Object.prototype, so grouping them never throws. */
  lemma CapitalisedReasonsGroup<T>(recs: seq<T>, reasonOf: T -> Js)
    requires forall i :: 0 <= i < |recs| ==>
      GroupKey(recs[i], reasonOf) == "general" || IsCapitalised(GroupKey(recs[i], reasonOf))
    ensures !GroupThrows(recs, reasonOf)
  {
  }

  predicate IsCapitalised(k: string) {
    k != [] && 'A' <= k[0] <= 'Z'
  }

  /** shuffle: Fisher-Yates on a copy (`[...array]`), swapping each cell `i`
      from the last down to 1 with a cell `j` in `0..i`; `Math.random()`
      picks `j`, here any such `j`. The argument is a value and is left as
      it was. */
  method ShuffleArray<T>(a: seq<T>) returns (r: seq<T>)
    ensures multiset(r) == multiset(a)
    ensures |a| <= 1 ==> r == a
  {
    var result := new T[|a|](i requires 0 <= i < |a| => a[i]);
    assert result[..] == a;
    var i := |a| - 1;
    while i > 0
      invariant i < |a|
      invariant multiset(result[..]) == multiset(a)
      invariant |a| <= 1 ==> result[..] == a
    {
      var j :| 0 <= j <= i;
      ghost var before := result[..];
      result[i], result[j] := result[j], result[i];
      assert result[..] == before[i := before[j]][j := before[i]];
      SwapPermutes(before, i, j);
      i := i - 1;
    }
    r := result[..];
  }

  /** Swapping two cells keeps the same items. */
  lemma SwapPermutes<T>(s: seq<T>, i: nat, j: nat)
    requires i < |s| && j < |s|
    ensures multiset(s[i := s[j]][j := s[i]]) == multiset(s)
  {
  }

  lemma HeadsSnoc<T>(gs: seq<seq<T>>, k: nat)
    requires k < |gs|
    ensures Heads(gs[..k + 1]) == Heads(gs[..k]) + (if gs[k] != [] then [gs[k][0]] else [])
  {
    HeadsAppend(gs[..k], [gs[k]]);
    assert gs[..k + 1] == gs[..k] + [gs[k]];
    assert [gs[k]][1..] == [];
  }

  lemma {:induction false} HeadsAppend<T>(a: seq<seq<T>>, b: seq<seq<T>>)
    ensures Heads(a + b) == Heads(a) + Heads(b)
  {
    if a != [] {
      HeadsAppend(a[1..], b);
      assert (a + b)[1..] == a[1..] + b;
    } else {
      assert a + b == b;
    }
  }

  /** One round of the `while (!allEmpty)` loop: `group.shift()` from every
      non-empty group, in order. */
  method Round<T>(start: seq<seq<T>>, before: seq<T>) returns (groups: seq<seq<T>>, result: seq<T>, allEmpty: bool)
    ensures groups == Tails(start) && result == before + Heads(start) && allEmpty == AllEmpty(start)
  {
    groups := start;
    result := before;
    allEmpty := true;
    var k := 0;
    while k < |groups|
      invariant 0 <= k <= |groups| == |start|
      invariant forall i :: 0 <= i < k ==> groups[i] == if start[i] == [] then [] else start[i][1..]
      invariant forall i :: k <= i < |groups| ==> groups[i] == start[i]
      invariant result == before + Heads(start[..k])
      invariant allEmpty <==> forall i :: 0 <= i < k ==> start[i] == []
    {
      HeadsSnoc(start, k);
      if |groups[k]| > 0 {
        result := result + [groups[k][0]];
        groups := groups[k := groups[k][1..]];
        allEmpty := false;
      }
      k := k + 1;
    }
    assert start[..k] == start;
    assert groups == Tails(start);
  }

  /** What one round contributes to the interleave. */
  lemma RoundStep<T>(gs: seq<seq<T>>, acc: seq<T>)
    ensures TotalSize(Tails(gs)) + |Heads(gs)| == TotalSize(gs)
    ensures AllEmpty(gs) ==> acc + Heads(gs) == acc + RoundRobin(gs)
    ensures !AllEmpty(gs) ==>
      && TotalSize(Tails(gs)) < TotalSize(gs)
      && (acc + Heads(gs)) + RoundRobin(Tails(gs)) == acc + RoundRobin(gs)
  {
    TailsSmaller(gs);
    if AllEmpty(gs) {
      RoundRobinEmpty(gs);
      assert acc + [] == acc;
    } else {
      RoundRobinCons(gs);
      SeqAssoc(acc, Heads(gs), RoundRobin(Tails(gs)));
    }
  }

  lemma RoundRobinEmpty<T>(gs: seq<seq<T>>)
    requires AllEmpty(gs)
    ensures RoundRobin(gs) == [] && Heads(gs) == []
  {
    TailsSmaller(gs);
  }

  lemma RoundRobinCons<T>(gs: seq<seq<T>>)
    requires !AllEmpty(gs)
    ensures RoundRobin(gs) == Heads(gs) + RoundRobin(Tails(gs))
  {
  }

  lemma SeqAssoc<T>(a: seq<T>, b: seq<T>, c: seq<T>)
    ensures (a + b) + c == a + (b + c)
  {
  }

  /** The interleave: rounds until a round finds every group empty. */
  method Interleave<T>(groups0: seq<seq<T>>) returns (result: seq<T>)
    ensures result == RoundRobin(groups0)
  {
    var groups := groups0;
    result := [];
    var allEmpty := false;
    while !allEmpty
      invariant !allEmpty ==> result + RoundRobin(groups) == RoundRobin(groups0)
      invariant allEmpty ==> result == RoundRobin(groups0)
      decreases TotalSize(groups) + (if allEmpty then 0 else 1)
    {
      RoundStep(groups, result);
      groups, result, allEmpty := Round(groups, result);
    }
  }

  /** shuffleRecommendations. The outer None is the TypeError of the
      grouping, the inner None a null argument. Null or a list of at most one
      item comes back as it is. Otherwise, unless the grouping throws, the
      groups are shuffled one by one (`shuffled` is the shuffled groups, a
      witness of the random choices) and the result is their interleave: a
      permutation of the input. */
  method ShuffleRecommendations<T>(recs: Option<seq<T>>, reasonOf: T -> Js)
    returns (r: Option<Option<seq<T>>>, ghost shuffled: seq<seq<T>>)
    ensures recs.None? || |recs.value| <= 1 ==> r == Some(recs)
    ensures recs.Some? && |recs.value| > 1 ==> (r.None? <==> GroupThrows(recs.value, reasonOf))
    ensures recs.Some? && r.Some? ==> r.value.Some? && multiset(r.value.value) == multiset(recs.value)
    ensures recs.Some? && |recs.value| > 1 && r.Some? ==>
      && |shuffled| == |GroupsOf(recs.value, reasonOf)|
      && (forall i :: 0 <= i < |shuffled| ==> multiset(shuffled[i]) == multiset(GroupsOf(recs.value, reasonOf)[i].1))
      && r.value.value == RoundRobin(shuffled)
  {
    if recs.None? || |recs.value| <= 1 {
      return Some(recs), [];
    }
    var grouping := GroupByReason(recs.value, reasonOf);
    if grouping.None? {
      return None, [];
    }
    var grouped := grouping.value;
    var groups := grouped;
    for k := 0 to |groups|
      invariant |groups| == |grouped|
      invariant forall i :: 0 <= i < k ==> groups[i].0 == grouped[i].0 && multiset(groups[i].1) == multiset(grouped[i].1)
      invariant forall i :: k <= i < |groups| ==> groups[i] == grouped[i]
    {
      var s := ShuffleArray(groups[k].1);
      groups := groups[k := (groups[k].0, s)];
    }
    var values := Values(groups);
    var result := Interleave(values);
    RoundRobinPermutation(values);
    FlattenSameMultisets(values, Values(grouped));
    GroupsPermutation(recs.value, reasonOf);
    return Some(Some(result)), values;
  }

  // ---- properties ----

  /** Groups with the same items give the same items in all. */
  lemma {:induction false} FlattenSameMultisets<T>(a: seq<seq<T>>, b: seq<seq<T>>)
    requires |a| == |b| && forall i :: 0 <= i < |a| ==> multiset(a[i]) == multiset(b[i])
    ensures multiset(Flatten(a)) == multiset(Flatten(b))
  {
    if a != [] {
      FlattenSameMultisets(a[1..], b[1..]);
      assert multiset(a[0]) == multiset(b[0]);
    }
  }

  lemma {:induction false} HeadsTails<T>(gs: seq<seq<T>>)
    ensures multiset(Flatten(gs)) == multiset(Heads(gs)) + multiset(Flatten(Tails(gs)))
  {
    if gs != [] {
      var h0: seq<T> := if gs[0] != [] then [gs[0][0]] else [];
      var t0: seq<T> := if gs[0] == [] then [] else gs[0][1..];
      HeadsTails(gs[1..]);
      TailsCons(gs);
      assert gs[0] == h0 + t0;
      calc {
        multiset(Flatten(gs));
        multiset(gs[0]) + multiset(Flatten(gs[1..]));
        multiset(h0) + multiset(t0) + multiset(Heads(gs[1..])) + multiset(Flatten(Tails(gs[1..])));
        multiset(h0 + Heads(gs[1..])) + multiset(t0 + Flatten(Tails(gs[1..])));
        multiset(Heads(gs)) + multiset(Flatten(Tails(gs)));
      }
    }
  }

  lemma TailsCons<T>(gs: seq<seq<T>>)
    requires gs != []
    ensures Flatten(Tails(gs)) == (if gs[0] == [] then [] else gs[0][1..]) + Flatten(Tails(gs[1..]))
  {
    assert Tails(gs)[1..] == Tails(gs[1..]);
  }

  lemma {:induction false} EmptyFlatten<T>(gs: seq<seq<T>>)
    requires AllEmpty(gs)
    ensures Flatten(gs) == []
  {
    if gs != [] {
      assert gs[0] == [];
      assert AllEmpty(gs[1..]) by {
        forall i | 0 <= i < |gs[1..]| ensures gs[1..][i] == [] {
          assert gs[1..][i] == gs[i + 1];
        }
      }
      EmptyFlatten(gs[1..]);
    }
  }

  /** The interleave takes every item of every group exactly once. */
  lemma {:induction false} RoundRobinPermutation<T>(gs: seq<seq<T>>)
    ensures multiset(RoundRobin(gs)) == multiset(Flatten(gs))
    decreases TotalSize(gs)
  {
    TailsSmaller(gs);
    if AllEmpty(gs) {
      EmptyFlatten(gs);
    } else {
      RoundRobinPermutation(Tails(gs));
      HeadsTails(gs);
    }
  }

  lemma {:induction false} AddToGroupItems<T>(groups: seq<(string, seq<T>)>, k: string, x: T)
    ensures multiset(Flatten(Values(AddToGroup(groups, k, x)))) == multiset(Flatten(Values(groups))) + multiset{x}
  {
    var r := AddToGroup(groups, k, x);
    if groups == [] {
      assert Values(r) == [[x]];
      assert Flatten(Values(r)) == [x] + Flatten(Values(r)[1..]);
    } else {
      assert Values(groups)[1..] == Values(groups[1..]);
      assert Values(r)[1..] == Values(r[1..]);
      if groups[0].0 != k {
        AddToGroupItems(groups[1..], k, x);
      } else {
        assert r[1..] == groups[1..];
      }
    }
  }

  /** Grouping loses and adds nothing. */
  lemma {:induction false} GroupsPermutation<T>(recs: seq<T>, reasonOf: T -> Js)
    ensures multiset(Flatten(Values(GroupsOf(recs, reasonOf)))) == multiset(recs)
  {
    if recs != [] {
      var pre, last := recs[..|recs| - 1], recs[|recs| - 1];
      var g := GroupsOf(pre, reasonOf);
      assert GroupsOf(recs, reasonOf) == AddToGroup(g, GroupKey(last, reasonOf), last);
      GroupsPermutation(pre, reasonOf);
      AddToGroupItems(g, GroupKey(last, reasonOf), last);
      assert recs == pre + [last];
      assert multiset(recs) == multiset(pre) + multiset{last};
    }
  }

  /** The `j`-th round (from 0): the `j`-th item of every group that has
      one, in group order. */
  function RoundAt<T>(gs: seq<seq<T>>, j: nat): seq<T> {
    if gs == [] then [] else (if |gs[0]| > j then [gs[0][j]] else []) + RoundAt(gs[1..], j)
  }

  /** Rounds `j` to `n - 1`, one after the other. */
  function RoundsFrom<T>(gs: seq<seq<T>>, j: nat, n: nat): seq<T>
    decreases n - j
  {
    if j >= n then [] else RoundAt(gs, j) + RoundsFrom(gs, j + 1, n)
  }

  lemma {:induction false} HeadsRound<T>(gs: seq<seq<T>>)
    ensures Heads(gs) == RoundAt(gs, 0)
  {
    if gs != [] {
      HeadsRound(gs[1..]);
    }
  }

  lemma {:induction false} RoundAtTails<T>(gs: seq<seq<T>>, j: nat)
    ensures RoundAt(Tails(gs), j) == RoundAt(gs, j + 1)
  {
    if gs != [] {
      RoundAtTails(gs[1..], j);
      assert Tails(gs)[1..] == Tails(gs[1..]);
      if gs[0] != [] && |gs[0]| > j + 1 {
        assert Tails(gs)[0][j] == gs[0][j + 1];
      }
    }
  }

  lemma {:induction false} RoundsFromTails<T>(gs: seq<seq<T>>, j: nat, m: nat)
    ensures RoundsFrom(Tails(gs), j, m) == RoundsFrom(gs, j + 1, m + 1)
    decreases m - j
  {
    if j < m {
      RoundAtTails(gs, j);
      RoundsFromTails(gs, j + 1, m);
    }
  }

  lemma {:induction false} EmptyRounds<T>(gs: seq<seq<T>>, j: nat, n: nat)
    requires AllEmpty(gs)
    ensures RoundsFrom(gs, j, n) == []
    decreases n - j
  {
    if j < n {
      EmptyRound(gs, j);
      EmptyRounds(gs, j + 1, n);
    }
  }

  lemma {:induction false} EmptyRound<T>(gs: seq<seq<T>>, j: nat)
    requires AllEmpty(gs)
    ensures RoundAt(gs, j) == []
  {
    if gs != [] {
      assert gs[0] == [];
      assert AllEmpty(gs[1..]) by {
        forall i | 0 <= i < |gs[1..]| ensures gs[1..][i] == [] {
          assert gs[1..][i] == gs[i + 1];
        }
      }
      EmptyRound(gs[1..], j);
    }
  }

  /** The interleave is round 1, then round 2, and so on: round `j` holds
      the `j`-th item of every group of more than `j` items, in group
      order, so a group of `k` items contributes to exactly the first `k`
      rounds. `n` is any bound on the group sizes. */
  lemma {:induction false} RoundRobinRounds<T>(gs: seq<seq<T>>, n: nat)
    requires forall i :: 0 <= i < |gs| ==> |gs[i]| <= n
    ensures RoundRobin(gs) == RoundsFrom(gs, 0, n)
    decreases TotalSize(gs)
  {
    TailsSmaller(gs);
    if AllEmpty(gs) {
      EmptyRounds(gs, 0, n);
    } else {
      var i :| 0 <= i < |gs| && gs[i] != [];
      assert n >= 1;
      var ts := Tails(gs);
      assert forall k :: 0 <= k < |ts| ==> |ts[k]| <= n - 1;
      RoundRobinRounds(ts, n - 1);
      RoundsFromTails(gs, 0, n - 1);
      HeadsRound(gs);
      calc {
        RoundRobin(gs);
        Heads(gs) + RoundRobin(ts);
        RoundAt(gs, 0) + RoundsFrom(ts, 0, n - 1);
        RoundAt(gs, 0) + RoundsFrom(gs, 1, n);
        RoundsFrom(gs, 0, n);
      }
    }
  }
}
