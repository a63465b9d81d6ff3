/** `synchronize_with` of src/history/History.hpp, for trades. */
module Synchronization {
  import opened Models
  import opened MemoryHistories

  function Elements<T>(s: seq<T>): set<T> {
    set x | x in s
  }

  /** The trades of the first log that the second does not have. */
  ghost function Specific1(ts1: seq<Trade>, ts2: seq<Trade>): set<Trade> {
    Elements(ts1) - Elements(ts2)
  }

  /** The trades the original feeds to the first history: those it does not have, and those the
      second history holds more than once. */
  ghost function Specific2(ts1: seq<Trade>, ts2: seq<Trade>): set<Trade> {
    set t | t in ts2 && (t !in ts1 || multiset(ts2)[t] >= 2)
  }

  ghost predicate Distinct(ts: seq<Trade>) {
    forall t :: multiset(ts)[t] <= 1
  }

  // ----- the method -----

  lemma CountLast(ts: seq<Trade>, k: nat, t: Trade)
    requires k < |ts|
    ensures multiset(ts[..k + 1])[t] == multiset(ts[..k])[t] + if ts[k] == t then 1 else 0
    ensures t in ts[..k + 1] <==> t in ts[..k] || t == ts[k]
  {
    assert ts[..k + 1] == ts[..k] + [ts[k]];
  }

  lemma Member(ts: seq<Trade>, t: Trade)
    ensures t in ts <==> multiset(ts)[t] >= 1
  {
    assert t in ts <==> t in multiset(ts);
  }

  /** The two sets after a prefix of the second log has been gone through. */
  ghost predicate Compared(ts1: seq<Trade>, seen: seq<Trade>, s1: set<Trade>, s2: set<Trade>) {
    s1 == Specific1(ts1, seen) && s2 == Specific2(ts1, seen)
  }

  lemma CompareOne(ts1: seq<Trade>, ts2: seq<Trade>, k: nat, s1: set<Trade>, s2: set<Trade>)
    requires k < |ts2| && Compared(ts1, ts2[..k], s1, s2)
    ensures ts2[k] in s1 ==> Compared(ts1, ts2[..k + 1], s1 - {ts2[k]}, s2)
    ensures ts2[k] !in s1 ==> Compared(ts1, ts2[..k + 1], s1, s2 + {ts2[k]})
  {
    var x := ts2[k];
    forall t: Trade ensures t in Specific2(ts1, ts2[..k + 1]) <==> t in s2 || (t == x && x !in s1) {
      CountLast(ts2, k, t);
      Member(ts2[..k], t);
    }
    forall t: Trade ensures t in Specific1(ts1, ts2[..k + 1]) <==> t in s1 && t != x {
      CountLast(ts2, k, t);
    }
  }

  /** The two comparison loops. */
  method Compare(ts1: seq<Trade>, ts2: seq<Trade>) returns (specific1: set<Trade>, specific2: set<Trade>)
    ensures specific1 == Specific1(ts1, ts2) && specific2 == Specific2(ts1, ts2)
  {
    specific1 := {};
    for i := 0 to |ts1|
      invariant specific1 == Elements(ts1[..i])
    {
      assert ts1[..i + 1] == ts1[..i] + [ts1[i]];
      specific1 := specific1 + {ts1[i]};
    }
    assert ts1[..|ts1|] == ts1;
    specific2 := {};
    for i := 0 to |ts2|
      invariant Compared(ts1, ts2[..i], specific1, specific2)
    {
      CompareOne(ts1, ts2, i, specific1, specific2);
      if ts2[i] !in specific1 {
        specific2 := specific2 + {ts2[i]};
      } else {
        specific1 := specific1 - {ts2[i]};
      }
    }
    assert ts2[..|ts2|] == ts2;
  }

  lemma OneMore(ts: seq<Trade>, fed: set<Trade>, t: Trade)
    requires t !in fed
    ensures multiset(fed + {t}) == multiset(fed) + multiset{t}
    ensures multiset(ts + [t]) == multiset(ts) + multiset{t}
    ensures Elements(ts + [t]) == Elements(ts) + {t}
  {
  }

  lemma Joined(ts: seq<Trade>, order: seq<Trade>)
    ensures multiset(ts + order) == multiset(ts) + multiset(order)
    ensures Elements(ts + order) == Elements(ts) + Elements(order)
  {
  }

  lemma SetOfNone(none: seq<Trade>, nothing: set<Trade>)
    requires none == [] && nothing == {}
    ensures Elements(none) == nothing && multiset(none) == multiset(nothing)
  {
  }

  method FeedAll(history: MemoryHistory, ts: set<Trade>)
    requires history.Valid()
    modifies history`trades, history`tradesById, history`tradesByTimestamp
    ensures history.Valid()
    ensures multiset(history.trades) == multiset(old(history.trades)) + multiset(ts)
    ensures Elements(history.trades) == Elements(old(history.trades)) + ts
  {
    hide MemoryHistory.Valid, Elements;
    var left := ts;
    ghost var fed: set<Trade>, order: seq<Trade> := {}, [];
    ghost var before := history.trades;
    SetOfNone(order, fed);
    while left != {}
      invariant history.Valid() && history.trades == before + order
      invariant fed + left == ts && fed !! left
      invariant multiset(order) == multiset(fed) && Elements(order) == fed
      decreases |left|
    {
      var t :| t in left;
      OneMore(order, fed, t);
      history.FeedTrade(t);
      assert before + order + [t] == before + (order + [t]);
      left, fed, order := left - {t}, fed + {t}, order + [t];
    }
    Joined(before, order);
    assert fed == ts;
  }

  lemma UnionReached(ts1: seq<Trade>, ts2: seq<Trade>)
    ensures Elements(ts1) + Specific2(ts1, ts2) == Elements(ts1) + Elements(ts2)
    ensures Elements(ts2) + Specific1(ts1, ts2) == Elements(ts1) + Elements(ts2)
  {
  }

  method SynchronizeTrades(history1: MemoryHistory, history2: MemoryHistory) returns (n1: nat, n2: nat)
    requires history1 != history2 && history1.Valid() && history2.Valid()
    modifies history1`trades, history1`tradesById, history1`tradesByTimestamp
    modifies history2`trades, history2`tradesById, history2`tradesByTimestamp
    ensures history1.Valid() && history2.Valid()
    ensures var ts1, ts2 := old(history1.trades), old(history2.trades);
            && n1 == |Specific1(ts1, ts2)| && n2 == |Specific2(ts1, ts2)|
            && multiset(history1.trades) == multiset(ts1) + multiset(Specific2(ts1, ts2))
            && multiset(history2.trades) == multiset(ts2) + multiset(Specific1(ts1, ts2))
            && Elements(history1.trades) == Elements(ts1) + Elements(ts2) == Elements(history2.trades)
  {
    UnionReached(history1.trades, history2.trades);
    hide MemoryHistory.Valid, Elements, Specific1, Specific2;
    var specific1, specific2 := Compare(history1.trades, history2.trades);
    FeedAll(history2, specific1);
    FeedAll(history1, specific2);
    return |specific1|, |specific2|;
  }

  // ----- what it returns, and what a second call does -----

  lemma SubsetOfSameSize<T>(a: set<T>, b: set<T>)
    requires a <= b
    ensures |a| <= |b| && (|a| == |b| <==> a == b)
  {
    assert b == a + (b - a);
    assert |b| == |a| + |b - a|;
  }

  /** The first count is always the number of trades only the first history had. The second one is
      the number only the second had exactly when the second history holds no trade of the first
      more than once. */
  lemma CountsAreDifferences(ts1: seq<Trade>, ts2: seq<Trade>)
    ensures Specific1(ts1, ts2) == Elements(ts1) - Elements(ts2)
    ensures |Specific2(ts1, ts2)| == |Elements(ts2) - Elements(ts1)| <==> forall t :: t in ts1 ==> multiset(ts2)[t] <= 1
  {
    var extra := Elements(ts2) - Elements(ts1);
    assert extra <= Specific2(ts1, ts2);
    SubsetOfSameSize(extra, Specific2(ts1, ts2));
    if forall t :: t in ts1 ==> multiset(ts2)[t] <= 1 {
      assert Specific2(ts1, ts2) == extra;
    } else {
      var t :| t in ts1 && multiset(ts2)[t] > 1;
      Member(ts2, t);
      assert t in Specific2(ts1, ts2) && t !in extra;
    }
  }

  /** A second call returns (0, 0), and so feeds nothing, exactly when the argument history had no
      duplicates. `us1` and `us2` are the logs after the first call. */
  lemma SecondCall(ts1: seq<Trade>, ts2: seq<Trade>, us1: seq<Trade>, us2: seq<Trade>)
    requires multiset(us1) == multiset(ts1) + multiset(Specific2(ts1, ts2))
    requires multiset(us2) == multiset(ts2) + multiset(Specific1(ts1, ts2))
    ensures Specific1(us1, us2) == {}
    ensures Specific2(us1, us2) == {} <==> Distinct(ts2)
  {
    forall t: Trade
      ensures t in us1 <==> t in us2
      ensures multiset(us2)[t] <= 1 <==> multiset(ts2)[t] <= 1
    {
      Member(us1, t);
      Member(us2, t);
      Member(ts1, t);
      Member(ts2, t);
    }
    if !Distinct(ts2) {
      var t :| multiset(ts2)[t] > 1;
      Member(us2, t);
      assert t in Specific2(us1, us2);
    }
  }

  // ----- a chain of histories -----

  /** Two neighbours synchronised. */
  function SyncAt<T>(hs: seq<set<T>>, i: nat): seq<set<T>>
    requires i + 1 < |hs|
  {
    var union := hs[i] + hs[i + 1];
    hs[i := union][i + 1 := union]
  }

  /** Synchronise 0 with 1, 1 with 2 and so on up to k. */
  function Forward<T>(hs: seq<set<T>>, k: nat): (r: seq<set<T>>)
    requires k < |hs|
    ensures |r| == |hs|
  {
    if k == 0 then hs else SyncAt(Forward(hs, k - 1), k - 1)
  }

  /** Then k with k - 1 and so on down to 0. */
  function Backward<T>(hs: seq<set<T>>, k: nat): (r: seq<set<T>>)
    requires k < |hs|
    ensures |r| == |hs|
    decreases k
  {
    if k == 0 then hs else Backward(SyncAt(hs, k - 1), k - 1)
  }

  function Union<T>(hs: seq<set<T>>): set<T> {
    if hs == [] then {} else Union(hs[..|hs| - 1]) + hs[|hs| - 1]
  }

  lemma {:induction false} UnionGrows<T>(hs: seq<set<T>>, k: nat)
    requires k <= |hs|
    ensures Union(hs[..k]) <= Union(hs)
    decreases |hs|
  {
    if k < |hs| {
      assert hs[..|hs| - 1][..k] == hs[..k];
      UnionGrows(hs[..|hs| - 1], k);
    } else {
      assert hs[..k] == hs;
    }
  }

  lemma {:induction false} ForwardCollects<T>(hs: seq<set<T>>, k: nat)
    requires k < |hs|
    ensures var fs := Forward(hs, k);
            && fs[k] == Union(hs[..k + 1])
            && (forall j :: k < j < |hs| ==> fs[j] == hs[j])
            && (forall j :: 0 <= j < k ==> fs[j] == Union(hs[..j + 2]))
  {
    if k == 0 {
      assert hs[..1][..0] == [] && Union(hs[..1]) == {} + hs[0];
    } else {
      ForwardCollects(hs, k - 1);
      assert hs[..k + 1][..k] == hs[..k];
    }
  }

  lemma {:induction false} BackwardSpreads<T>(hs: seq<set<T>>, k: nat, all: set<T>)
    requires k < |hs| && hs[k] == all && forall j :: 0 <= j < k ==> hs[j] <= all
    ensures forall j :: 0 <= j <= k ==> Backward(hs, k)[j] == all
    ensures forall j :: k < j < |hs| ==> Backward(hs, k)[j] == hs[j]
    decreases k
  {
    if k > 0 {
      BackwardSpreads(SyncAt(hs, k - 1), k - 1, all);
    }
  }

  /** One pass up the row and one pass down. */
  function BothWays<T>(hs: seq<set<T>>): (r: seq<set<T>>)
    requires hs != []
    ensures |r| == |hs|
  {
    Backward(Forward(hs, |hs| - 1), |hs| - 1)
  }

  /** Both passes over a row of any length make every history the union of them all. */
  lemma ChainConverges<T>(hs: seq<set<T>>)
    requires hs != []
    ensures forall j :: 0 <= j < |hs| ==> BothWays(hs)[j] == Union(hs)
  {
    var k := |hs| - 1;
    ForwardCollects(hs, k);
    assert hs[..k + 1] == hs;
    forall j | 0 <= j < k ensures Forward(hs, k)[j] <= Union(hs) {
      UnionGrows(hs, j + 2);
    }
    BackwardSpreads(Forward(hs, k), k, Union(hs));
  }

  /** One pass alone is enough exactly when the first two have it all. */
  lemma OnePassIsEnough<T>(hs: seq<set<T>>)
    requires |hs| >= 2
    ensures var once := Forward(hs, |hs| - 1);
            (forall j :: 0 <= j < |once| ==> once[j] == Union(hs)) <==> hs[0] + hs[1] == Union(hs)
  {
    var k := |hs| - 1;
    ForwardCollects(hs, k);
    assert hs[..k + 1] == hs;
    var first, two := [hs[0]], hs[..2];
    assert first[..|first| - 1] == [] && two[..|two| - 1] == first && two[|two| - 1] == hs[1];
    assert Union(first) == Union(first[..|first| - 1]) + hs[0] == {} + hs[0];
    assert Union(two) == hs[0] + hs[1];
    assert Forward(hs, k)[0] == hs[0] + hs[1];
    forall j | 0 <= j < k ensures Union(hs[..2]) <= Forward(hs, k)[j] <= Union(hs) {
      UnionGrows(hs, j + 2);
      assert hs[..j + 2][..2] == hs[..2];
      UnionGrows(hs[..j + 2], 2);
    }
  }

  /** What each history of a row holds. */
  ghost function Row(hs: seq<MemoryHistory>): (r: seq<set<Trade>>)
    reads hs
    ensures |r| == |hs|
  {
    seq(|hs|, i requires 0 <= i < |hs| reads hs => Elements(hs[i].trades))
  }

  ghost predicate AllHold(hs: seq<MemoryHistory>, ts: set<Trade>)
    reads hs
  {
    forall h :: h in hs ==> Elements(h.trades) == ts
  }

  lemma AllHoldRow(hs: seq<MemoryHistory>, ts: set<Trade>)
    ensures AllHold(hs, ts) <==> forall j :: 0 <= j < |hs| ==> Row(hs)[j] == ts
  {
    hide Elements;
    if forall j :: 0 <= j < |hs| ==> Row(hs)[j] == ts {
      forall h | h in hs ensures Elements(h.trades) == ts {
        var j :| 0 <= j < |hs| && hs[j] == h;
        assert Row(hs)[j] == ts;
      }
    }
  }

  /** No trade of any history is lost. */
  twostate predicate NoneLost(hs: seq<MemoryHistory>)
    reads hs
  {
    forall h :: h in hs ==> old(allocated(h)) && multiset(old(h.trades)) <= multiset(h.trades)
  }

  ghost predicate Separate(hs: seq<MemoryHistory>)
    reads hs
  {
    && (forall i, j :: 0 <= i < j < |hs| ==> hs[i] != hs[j])
    && (forall h :: h in hs ==> h.Valid())
  }

  /** Two neighbours of a row of histories. */
  method SynchronizeNeighbours(hs: seq<MemoryHistory>, i: nat)
    requires i + 1 < |hs| && Separate(hs)
    modifies hs
    ensures Separate(hs) && NoneLost(hs) && Row(hs) == SyncAt(old(Row(hs)), i)
  {
    hide MemoryHistory.Valid, Elements, Specific1, Specific2;
    ghost var others := set h | h in hs && h != hs[i] && h != hs[i + 1];
    var n1, n2 := SynchronizeTrades(hs[i], hs[i + 1]);
    assert forall h :: h in others ==> h.trades == old(h.trades);
    assert forall j :: 0 <= j < |hs| && j != i && j != i + 1 ==> hs[j] in others;
  }

  /** Each with the next, up the row. That alone makes all hold everything exactly when the first two have
      it all. */
  method SynchronizeUp(hs: seq<MemoryHistory>)
    requires hs != [] && Separate(hs)
    modifies hs
    ensures Separate(hs) && NoneLost(hs) && Row(hs) == Forward(old(Row(hs)), |hs| - 1)
    ensures |hs| >= 2 ==>
              var row := old(Row(hs));
              (AllHold(hs, Union(row)) <==> row[0] + row[1] == Union(row))
  {
    hide MemoryHistory.Valid, Elements, Separate, SyncAt;
    ghost var row := Row(hs);
    for k := 1 to |hs|
      invariant Separate(hs) && NoneLost(hs) && Row(hs) == Forward(row, k - 1)
    {
      SynchronizeNeighbours(hs, k - 1);
    }
    if |hs| >= 2 {
      OnePassIsEnough(row);
      AllHoldRow(hs, Union(row));
    }
  }

  /** Each with the previous, down the row. */
  method SynchronizeDown(hs: seq<MemoryHistory>)
    requires hs != [] && Separate(hs)
    modifies hs
    ensures Separate(hs) && NoneLost(hs) && Row(hs) == Backward(old(Row(hs)), |hs| - 1)
  {
    hide MemoryHistory.Valid, Elements, Separate, SyncAt;
    ghost var row := Row(hs);
    var k := |hs| - 1;
    while k > 0
      invariant 0 <= k < |hs| && Separate(hs) && NoneLost(hs) && Backward(Row(hs), k) == Backward(row, |hs| - 1)
    {
      k := k - 1;
      SynchronizeNeighbours(hs, k);
    }
  }

  /** Both passes: all hold the union of what they held, and none has lost anything. */
  method SynchronizeBothWays(hs: seq<MemoryHistory>)
    requires hs != [] && Separate(hs)
    modifies hs
    ensures Separate(hs) && NoneLost(hs)
    ensures AllHold(hs, Union(old(Row(hs))))
  {
    hide MemoryHistory.Valid, Elements, Separate, Union, Forward, Backward;
    ghost var row := Row(hs);
    SynchronizeUp(hs);
    SynchronizeDown(hs);
    ChainConverges(row);
    assert Row(hs) == BothWays(row);
    AllHoldRow(hs, Union(row));
  }
}
