/** The order in which the orders of an id are fed to the order book of src/sources/Source.hpp: what time
    order keeps true on every run, and the runs that go wrong without it. */
module ArrivalOrder {
  import opened Models
  import opened OrderBook
  import opened BookRuns

  // ----- the conditions -----

  /** Every order with a positive timestamp is later than all before it, or a copy of one of them. */
  ghost predicate TimeOrdered(os: seq<Order>) {
    forall i, j :: 0 <= i < j < |os| && os[j].timestamp > 0.0 ==>
      os[i].timestamp < os[j].timestamp || os[i] == os[j]
  }

  /** Different orders are at least a window apart. */
  ghost predicate Spaced(os: seq<Order>, threshold: real) {
    forall i, j :: 0 <= i < j < |os| && os[i].timestamp > 0.0 && os[j].timestamp > 0.0 ==>
      os[i] == os[j] || os[i].timestamp + threshold <= os[j].timestamp
  }

  ghost predicate Stale(b: Book, id: nat, t: real) {
    Retrieve(b, id, t) != RetrieveFromLog(b, id, t) && Retrieve(b, id, t) != ZERO_ORDER
  }

  // ----- sufficient -----

  /** With an order, every later one is held as well. */
  ghost predicate UpClosed(held: seq<Order>, all: seq<Order>) {
    forall o, p :: o in held && p in all && 0.0 < o.timestamp < p.timestamp ==> p in held
  }

  lemma OrderedFront(os: seq<Order>, front: seq<Order>, threshold: real)
    requires front <= os
    ensures TimeOrdered(os) ==> TimeOrdered(front)
    ensures Spaced(os, threshold) ==> Spaced(front, threshold)
  {
    assert forall i :: 0 <= i < |front| ==> front[i] == os[i];
  }

  /** In time order, equal positive timestamps mean equal orders. */
  lemma OrderedUnique(os: seq<Order>, o: Order, p: Order)
    requires TimeOrdered(os) && o in os && p in os && 0.0 < o.timestamp == p.timestamp
    ensures o == p
  {
    var i, j :| 0 <= i < |os| && 0 <= j < |os| && os[i] == o && os[j] == p;
    if i < j {
      assert os[i] == os[j];
    } else if j < i {
      assert os[j] == os[i];
    }
  }

  lemma SpacedApart(os: seq<Order>, threshold: real, o: Order, p: Order)
    requires TimeOrdered(os) && Spaced(os, threshold) && o in os && p in os && 0.0 < o.timestamp < p.timestamp
    ensures o.timestamp + threshold <= p.timestamp
  {
    var i, j :| 0 <= i < |os| && 0 <= j < |os| && os[i] == o && os[j] == p;
    assert i < j;
  }

  lemma {:induction false} SubsequenceMembers(a: seq<Order>, b: seq<Order>)
    requires IsSubsequence(a, b)
    ensures forall o :: o in a ==> o in b
    decreases |b|
  {
    if a != [] {
      var front, last := b[..|b| - 1], b[|b| - 1];
      assert b == front + [last] && a == a[..|a| - 1] + [a[|a| - 1]];
      if a[|a| - 1] == last {
        SubsequenceMembers(a[..|a| - 1], front);
      } else {
        SubsequenceMembers(a, front);
      }
    }
  }

  lemma UpClosedNotStale(held: seq<Order>, all: seq<Order>, t: real)
    requires TimeOrdered(all) && UpClosed(held, all) && forall o :: o in held ==> o in all
    ensures Latest(held, t) == Latest(all, t) || Latest(held, t) == ZERO_ORDER
  {
    var i := LatestIsFirst(held, t);
    var j := LatestIsFirst(all, t);
    if i != -1 {
      var o := held[i];
      assert o in held && o in all;
      var k :| 0 <= k < |all| && all[k] == o;
      var r := all[j];
      assert o.timestamp < r.timestamp ==> r in held;
      OrderedUnique(all, o, r);
    }
  }

  lemma OrderedLast(all: seq<Order>, o: Order)
    requires TimeOrdered(all + [o]) && o.timestamp > 0.0
    ensures forall q :: q in all ==> q.timestamp < o.timestamp || q == o
  {
    forall q | q in all ensures q.timestamp < o.timestamp || q == o {
      var i :| 0 <= i < |all| && all[i] == q;
      assert (all + [o])[i] == q && (all + [o])[|all|] == o;
    }
  }

  lemma UpClosedMore(held: seq<Order>, all: seq<Order>, o: Order)
    requires UpClosed(held, all) && TimeOrdered(all + [o]) && forall p :: p in held ==> p in all
    ensures UpClosed(held + [o], all + [o])
  {
    if o.timestamp > 0.0 {
      OrderedLast(all, o);
    }
  }

  /** A prune during which the clock stood still keeps it. */
  lemma UpClosedStill(survivors: seq<Order>, held: seq<Order>, all: seq<Order>, bound: real)
    requires UpClosed(held, all) && forall p :: p in survivors ==> p in held && p.timestamp > bound
    requires Newer(survivors, bound) == Newer(held, bound)
    ensures UpClosed(survivors, all)
  {
    NewerMembers(survivors, bound);
    NewerMembers(held, bound);
    forall o, p | o in survivors && p in all && 0.0 < o.timestamp < p.timestamp ensures p in survivors {
      assert p in Newer(held, bound);
    }
  }

  /** So does any prune when different orders are a window apart: it leaves copies of one order. */
  lemma UpClosedSpaced(survivors: seq<Order>, all: seq<Order>, threshold: real, since: real)
    requires TimeOrdered(all) && Spaced(all, threshold)
    requires forall p :: p in survivors ==> p in all && p.timestamp > since - threshold
    requires forall p :: p in all ==> p.timestamp <= since
    ensures UpClosed(survivors, all)
  {
    forall o, p | o in survivors && p in all ensures !(0.0 < o.timestamp < p.timestamp) {
      if 0.0 < o.timestamp < p.timestamp {
        SpacedApart(all, threshold, o, p);
      }
    }
  }

  ghost predicate Still(b: Book, id: nat) {
    Locks(b, id) ==> b.scan.since == b.last
  }

  lemma PrunedUpClosed(b: Book, id: nat)
    requires Inv(b) && Locks(b, id) && Enabled(b, Released) && UpClosed(Current(b, id), Log(b, id))
    requires TimeOrdered(Log(b, id)) && (Still(b, id) || Spaced(Log(b, id), b.threshold))
    ensures UpClosed(Current(Release(b), id), Log(b, id))
  {
    hide UpClosed, TimeOrdered, Spaced, IsSubsequence, Newer;
    var survivors := b.scan.survivors;
    assert Consistent(b, id) && b.orders[id][..b.scan.next] == b.orders[id];
    SubsequenceMembers(survivors, b.orders[id]);
    SubsequenceMembers(b.orders[id], Log(b, id));
    assert Current(Release(b), id) == survivors;
    if Still(b, id) {
      UpClosedStill(survivors, b.orders[id], Log(b, id), Bound(b));
    } else {
      UpClosedSpaced(survivors, Log(b, id), b.threshold, b.scan.since);
    }
  }

  lemma UpClosedKept(b: Book, s: Step, id: nat)
    requires Inv(b) && Enabled(b, s) && UpClosed(Current(b, id), Log(b, id))
    requires TimeOrdered(Log(Apply(b, s), id))
    requires Still(b, id) || Spaced(Log(Apply(b, s), id), b.threshold)
    ensures UpClosed(Current(Apply(b, s), id), Log(Apply(b, s), id))
  {
    hide UpClosed, TimeOrdered, Spaced, Survived, IsSubsequence, Newer;
    assert Consistent(b, id);
    SubsequenceMembers(Current(b, id), Log(b, id));
    if s.Appended? && s.order.id == id {
      UpClosedMore(Current(b, id), Log(b, id), s.order);
    } else if s.Released? && Locks(b, id) {
      assert b.orders[id][..b.scan.next] == b.orders[id];
      PrunedUpClosed(b, id);
    }
  }

  lemma StillKept(b: Book, s: Step, id: nat)
    requires Enabled(b, s) && Still(b, id)
    requires Locks(b, id) && s.Touched? ==> s.timestamp <= b.last
    ensures Still(Apply(b, s), id)
  {
  }

  lemma {:induction false} RunUpClosed(b: Book, steps: seq<Step>, id: nat, calm: bool)
    requires Inv(b) && IsRun(b, steps) && UpClosed(Current(b, id), Log(b, id))
    requires TimeOrdered(Log(Run(b, steps), id))
    requires if calm then Still(b, id) && Calm(b, steps, id) else Spaced(Log(Run(b, steps), id), b.threshold)
    ensures UpClosed(Current(Run(b, steps), id), Log(Run(b, steps), id))
    decreases |steps|
  {
    hide Inv, Enabled, Apply, UpClosed, TimeOrdered, Spaced, Still, AllAppended;
    if steps != [] {
      var b' := Apply(b, steps[0]);
      LogIsComplete(b', steps[1..], id);
      OrderedFront(Log(Run(b, steps), id), Log(b', id), b.threshold);
      StepKeeps(b, steps[0]);
      UpClosedKept(b, steps[0], id);
      if calm {
        StillKept(b, steps[0], id);
      } else {
        ClockAndMarks(b, [steps[0]]);
      }
      RunUpClosed(b', steps[1..], id, calm);
    }
  }

  // ----- the two ways to go wrong -----

  /** An order that comes late, after the prune took the one it is older than. */
  function LateSteps(id: nat, front: seq<Order>, time: real, y: Order): seq<Step> {
    FeedSteps(front) + ForgetSteps(id, time, |front|) + FeedSteps([y])
  }

  lemma LateRun(threshold: real, id: nat, front: seq<Order>, time: real, y: Order) returns (b': Book)
    requires front != [] && time >= 0.0 && forall o :: o in front + [y] ==> o.id == id
    requires forall o :: o in front ==> o.timestamp <= time && o.timestamp <= time - threshold
    ensures Goes(Fresh(threshold), LateSteps(id, front, time, y), b', id, front + [y], true)
    ensures Current(b', id) == [y] && Log(b', id) == front + [y]
  {
    hide Goes, FeedSteps, ForgetSteps;
    var b0, none: seq<Order> := Fresh(threshold), [];
    assert forall o :: o in front ==> o in front + [y];
    assert y in front + [y];
    var b1 := Feeding(b0, front, id);
    assert none + front == front && front + none == front && none + [y] == [y];
    var b2 := Forget(b1, id, time);
    GoesConcat(b0, FeedSteps(front), b1, front, ForgetSteps(id, time, |front|), b2, none, id, true);
    b' := Feeding(b2, [y], id);
    var s2 := FeedSteps(front) + ForgetSteps(id, time, |front|);
    GoesConcat(b0, s2, b2, front, FeedSteps([y]), b', [y], id, true);
  }

  lemma LateLookup(front: seq<Order>, x: Order, y: Order)
    requires TimeOrdered(front) && x in front && x != y && 0.0 < y.timestamp <= x.timestamp
    ensures Latest([y], x.timestamp) == y != Latest(front + [y], x.timestamp)
  {
    assert [y][..0] == [];
    var all := front + [y];
    var i := LatestIsFirst(all, x.timestamp);
    var k :| 0 <= k < |front| && front[k] == x;
    assert all[k] == x && all[|front|] == y;
    if i < |front| {
      assert all[i] == front[i] && front[i] in front;
      if all[i] == y {
        OrderedUnique(front, all[i], x);
      }
    }
  }

  lemma StaleFrom(b: Book, id: nat, t: real, held: seq<Order>, all: seq<Order>)
    requires Current(b, id) == held && Log(b, id) == all
    requires Latest(held, t) != ZERO_ORDER && Latest(held, t) != Latest(all, t)
    ensures Stale(b, id, t)
  {
  }

  lemma LateIsStale(threshold: real, id: nat, front: seq<Order>, time: real, x: Order, y: Order)
    requires TimeOrdered(front) && x in front && x != y && 0.0 < y.timestamp <= x.timestamp
    requires time >= 0.0 && forall o :: o in front + [y] ==> o.id == id
    requires forall o :: o in front ==> o.timestamp <= time && o.timestamp <= time - threshold
    ensures var steps := LateSteps(id, front, time, y);
            && IsRun(Fresh(threshold), steps) && AllAppended(steps, id) == front + [y]
            && Calm(Fresh(threshold), steps, id) && Stale(Run(Fresh(threshold), steps), id, x.timestamp)
  {
    hide Goes, Latest, LateSteps, Calm, TimeOrdered;
    var b' := LateRun(threshold, id, front, time, y);
    LateLookup(front, x, y);
    StaleFrom(b', id, x.timestamp, [y], front + [y]);
    GoesIsRun(Fresh(threshold), LateSteps(id, front, time, y), b', id, front + [y], true);
  }

  lemma FeedAndMark(threshold: real, id: nat, all: seq<Order>, y: Order) returns (b': Book)
    requires forall o :: o in all ==> o.id == id && o.timestamp <= y.timestamp
    requires y in all && y.timestamp > 0.0
    ensures Goes(Fresh(threshold), FeedSteps(all) + [Marked(id)], b', id, all, false)
    ensures b'.scan.Idle? && b'.threshold == threshold && b'.last == y.timestamp && Log(b', id) == all
    ensures id in b'.deleted && id in b'.orders && b'.orders[id] == all
  {
    hide Goes, FeedSteps;
    var b0, none: seq<Order> := Fresh(threshold), [];
    var b1 := Feeding(b0, all, id);
    assert none + all == all && all + none == all;
    b' := Mark(b1, id);
    GoesSnoc(b0, FeedSteps(all), b1, all, Marked(id), id, true);
    GoesIsRun(b0, FeedSteps(all) + [Marked(id)], b', id, all, true);
  }

  /** Two different orders less than a window apart, and a clock that moves between comparing them. */
  function CloseSteps(threshold: real, id: nat, all: seq<Order>, k: nat, y: Order): seq<Step>
    requires k < |all|
  {
    FeedSteps(all) + [Marked(id)] + TearSteps(id, k + 1, y.timestamp + threshold, |all| - (k + 1))
  }

  lemma CloseRun(threshold: real, id: nat, all: seq<Order>, k: nat, y: Order) returns (b': Book)
    requires threshold >= 0.0 && k < |all| && forall o :: o in all ==> o.id == id && o.timestamp <= y.timestamp
    requires y in all && y.timestamp > 0.0
    ensures Goes(Fresh(threshold), CloseSteps(threshold, id, all, k, y), b', id, all, false)
    ensures Current(b', id) == Newer(all[..k + 1], y.timestamp - threshold) && Log(b', id) == all
  {
    hide Goes, Newer, FeedSteps, TearSteps;
    var none: seq<Order> := [];
    var b2 := FeedAndMark(threshold, id, all, y);
    var time := y.timestamp + threshold;
    var tear := TearSteps(id, k + 1, time, |all| - (k + 1));
    b' := Tear(b2, id, k + 1, time);
    GoesIsRun(b2, tear, b', id, none, time <= b2.last);
    GoesConcat(Fresh(threshold), FeedSteps(all) + [Marked(id)], b2, all, tear, b', none, id, false);
    assert all + none == all;
  }

  lemma CloseLookup(all: seq<Order>, k: nat, y: Order, bound: real)
    requires TimeOrdered(all) && y in all && k < |all|
    requires 0.0 < all[k].timestamp < y.timestamp && bound < all[k].timestamp
    ensures var held := Newer(all[..k + 1], bound);
            Latest(held, y.timestamp) != ZERO_ORDER && Latest(held, y.timestamp) != Latest(all, y.timestamp)
  {
    var first := all[..k + 1];
    var held := Newer(first, bound);
    NewerMembers(first, bound);
    assert first[k] == all[k];
    assert all[k] in held;
    hide Newer;
    assert forall i :: 0 <= i < k ==> all[i].timestamp < all[k].timestamp || all[i] == all[k];
    assert forall o :: o in first ==> o.timestamp < y.timestamp;
    var i := LatestIsFirst(held, y.timestamp);
    var j := LatestIsFirst(all, y.timestamp);
    hide Latest;
    assert held[i] in first;
  }

  lemma OrderedMax(all: seq<Order>)
    requires TimeOrdered(all) && all != [] && all[|all| - 1].timestamp > 0.0
    ensures forall o :: o in all ==> o.timestamp <= all[|all| - 1].timestamp
  {
  }

  lemma CloseIsStale(threshold: real, id: nat, all: seq<Order>, i: nat, j: nat)
    requires TimeOrdered(all) && i < j == |all| - 1 && forall o :: o in all ==> o.id == id
    requires 0.0 < all[i].timestamp < all[j].timestamp < all[i].timestamp + threshold
    ensures var steps := CloseSteps(threshold, id, all, i, all[j]);
            && IsRun(Fresh(threshold), steps) && AllAppended(steps, id) == all
            && Stale(Run(Fresh(threshold), steps), id, all[j].timestamp)
  {
    hide TimeOrdered, Goes, Newer, Latest, Calm, Stale, IsRun, Run, AllAppended, CloseSteps;
    var y := all[j];
    OrderedMax(all);
    CloseLookup(all, i, y, y.timestamp - threshold);
    var b' := CloseRun(threshold, id, all, i, y);
    StaleFrom(b', id, y.timestamp, Newer(all[..i + 1], y.timestamp - threshold), all);
    GoesIsRun(Fresh(threshold), CloseSteps(threshold, id, all, i, y), b', id, all, false);
  }

  // ----- the first order that comes late -----

  lemma {:induction false} FirstDisorder(os: seq<Order>) returns (i: nat, j: nat)
    requires !TimeOrdered(os)
    ensures i < j < |os| && TimeOrdered(os[..j]) && 0.0 < os[j].timestamp <= os[i].timestamp && os[i] != os[j]
  {
    var front := os[..|os| - 1];
    if TimeOrdered(front) {
      assert forall k :: 0 <= k < |front| ==> front[k] == os[k];
      j := |front|;
      i :| 0 <= i < j && os[j].timestamp > 0.0 && os[i].timestamp >= os[j].timestamp && os[i] != os[j];
    } else {
      i, j := FirstDisorder(front);
      assert front[..j] == os[..j];
    }
  }

  // ----- two runs in full -----

  /** A late order, on a run in which the clock stands still during the prune. */
  lemma StaleAnswer(late: Order, right: Order)
    requires late.id == right.id == 1 && late.timestamp == 5.0 && right.timestamp == 10.0
    ensures var steps := [Touched(10.0), Appended(right), Touched(70.0), Marked(1), Locked(1), Touched(70.0), Compared,
                          Released, Touched(5.0), Appended(late)];
            IsRun(Fresh(60.0), steps) && Calm(Fresh(60.0), steps, 1) && Stale(Run(Fresh(60.0), steps), 1, 10.0)
  {
    hide IsRun, Run, Calm, Stale;
    FeedStepsOne(late);
    FeedStepsOne(right);
    LateIsStale(60.0, 1, [right], 70.0, right, late);
    assert LateSteps(1, [right], 70.0, late) ==
           [Touched(10.0), Appended(right), Touched(70.0), Marked(1), Locked(1), Touched(70.0), Compared,
            Released, Touched(5.0), Appended(late)];
  }

  /** Orders in time order, on a run in which the clock moves during the prune. */
  lemma TornAnswer(first: Order, right: Order)
    requires first.id == right.id == 1 && first.timestamp == 10.0 && right.timestamp == 11.0
    ensures var steps := [Touched(10.0), Appended(first), Touched(11.0), Appended(right), Marked(1), Locked(1), Compared,
                          Touched(71.0), Compared, Released];
            IsRun(Fresh(60.0), steps) && Stale(Run(Fresh(60.0), steps), 1, 11.0)
  {
    hide IsRun, Run, Calm, Stale;
    FeedStepsOne(first);
    assert [first, right][..1] == [first];
    CloseIsStale(60.0, 1, [first, right], 0, 1);
    assert CloseSteps(60.0, 1, [first, right], 0, right) ==
           [Touched(10.0), Appended(first), Touched(11.0), Appended(right), Marked(1), Locked(1), Compared,
            Touched(71.0), Compared, Released];
  }
}
