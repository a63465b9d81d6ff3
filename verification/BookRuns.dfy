/** Runs of the order book put together from parts: feeding a list of orders, comparing the orders of a
    locked id, and prunes in which the clock moves or stands still. */
module BookRuns {
  import opened Models
  import opened OrderBook

  /** The clock does not move while the orders of the id are being pruned. */
  ghost predicate Calm(b: Book, steps: seq<Step>, id: nat)
    requires IsRun(b, steps)
    decreases |steps|
  {
    steps != [] ==>
      && (Locks(b, id) && steps[0].Touched? ==> steps[0].timestamp <= b.last)
      && Calm(Apply(b, steps[0]), steps[1..], id)
  }

  /** A run from one book to another that appends the given orders for an id. */
  ghost predicate Goes(b: Book, steps: seq<Step>, b': Book, id: nat, os: seq<Order>, calm: bool) {
    && IsRun(b, steps) && Run(b, steps) == b'
    && AllAppended(steps, id) == os
    && (calm ==> Calm(b, steps, id))
  }

  lemma {:induction false} CalmConcat(b: Book, s1: seq<Step>, s2: seq<Step>, id: nat)
    requires IsRun(b, s1) && IsRun(Run(b, s1), s2) && Calm(b, s1, id) && Calm(Run(b, s1), s2, id)
    ensures IsRun(b, s1 + s2) && Calm(b, s1 + s2, id)
    decreases |s1|
  {
    hide Enabled, Apply;
    RunConcat(b, s1, s2);
    if s1 == [] {
      assert s1 + s2 == s2;
    } else {
      assert (s1 + s2)[1..] == s1[1..] + s2;
      CalmConcat(Apply(b, s1[0]), s1[1..], s2, id);
    }
  }

  lemma GoesConcat(b: Book, s1: seq<Step>, b1: Book, os1: seq<Order>, s2: seq<Step>, b2: Book, os2: seq<Order>,
                   id: nat, calm: bool)
    requires Goes(b, s1, b1, id, os1, calm) && Goes(b1, s2, b2, id, os2, calm)
    ensures Goes(b, s1 + s2, b2, id, os1 + os2, calm)
  {
    hide IsRun, Run, Calm, AllAppended;
    RunConcat(b, s1, s2);
    AppendedConcat(s1, s2, id);
    if calm {
      CalmConcat(b, s1, s2, id);
    }
  }

  lemma GoesNowhere(b: Book, id: nat, calm: bool)
    ensures Goes(b, [], b, id, [], calm)
  {
  }

  lemma GoesOne(b: Book, s: Step, id: nat, calm: bool)
    requires Enabled(b, s) && (calm && s.Touched? ==> !Locks(b, id) || s.timestamp <= b.last)
    ensures Goes(b, [s], Apply(b, s), id, AppendedBy(s, id), calm)
  {
    RunOne(b, s);
    assert [s][1..] == [];
    assert AllAppended([s], id) == AppendedBy(s, id) + [];
    assert AppendedBy(s, id) + [] == AppendedBy(s, id);
    if calm {
      assert Calm(b, [s], id);
    }
  }

  lemma GoesSnoc(b: Book, steps: seq<Step>, b': Book, os: seq<Order>, s: Step, id: nat, calm: bool)
    requires Goes(b, steps, b', id, os, calm) && Enabled(b', s)
    requires calm && s.Touched? ==> !Locks(b', id) || s.timestamp <= b'.last
    ensures Goes(b, steps + [s], Apply(b', s), id, os + AppendedBy(s, id), calm)
  {
    hide Goes, Enabled, Apply;
    GoesOne(b', s, id, calm);
    GoesConcat(b, steps, b', os, [s], Apply(b', s), AppendedBy(s, id), id, calm);
  }

  /** Feeding a list of orders of one id. */
  function FeedSteps(os: seq<Order>): seq<Step> {
    if os == [] then []
    else FeedSteps(os[..|os| - 1]) + [Touched(os[|os| - 1].timestamp)] + [Appended(os[|os| - 1])]
  }

  lemma FeedStepsOne(o: Order)
    ensures FeedSteps([o]) == [Touched(o.timestamp), Appended(o)]
  {
    assert [o][..0] == [];
  }

  /** What a book is after feeding: only the clock, the held orders and the log of the id changed. */
  ghost predicate Fed(b: Book, b': Book, id: nat, os: seq<Order>) {
    && b.scan.Idle? && b'.scan.Idle? && b'.threshold == b.threshold && b'.deleted == b.deleted
    && Current(b', id) == Current(b, id) + os && Log(b', id) == Log(b, id) + os
    && b.last <= b'.last && (forall o :: o in os ==> o.timestamp <= b'.last)
    && (b'.last == b.last || exists o :: o in os && o.timestamp == b'.last)
    && (os != [] ==> id in b'.orders)
  }

  lemma FedMore(b: Book, b1: Book, id: nat, front: seq<Order>, o: Order)
    requires Fed(b, b1, id, front) && o.id == id
    ensures Enabled(Touch(b1, o.timestamp), Appended(o))
    ensures Fed(b, Append(Touch(b1, o.timestamp), o), id, front + [o])
  {
    var b' := Append(Touch(b1, o.timestamp), o);
    assert Current(b', id) == Current(b, id) + (front + [o]) && Log(b', id) == Log(b, id) + (front + [o]);
    assert o in front + [o];
    if b'.last != b.last && b'.last != o.timestamp {
      var p :| p in front && p.timestamp == b1.last;
      assert p in front + [o];
    }
  }

  lemma {:induction false} Feeding(b: Book, os: seq<Order>, id: nat) returns (b': Book)
    requires b.scan.Idle? && forall o :: o in os ==> o.id == id
    ensures Goes(b, FeedSteps(os), b', id, os, true) && Fed(b, b', id, os)
  {
    hide Goes;
    if os == [] {
      b' := b;
      GoesNowhere(b, id, true);
      assert Current(b, id) + [] == Current(b, id) && Log(b, id) + [] == Log(b, id);
    } else {
      var front, o := os[..|os| - 1], os[|os| - 1];
      var b1 := Feeding(b, front, id);
      FedMore(b, b1, id, front, o);
      var b2 := Touch(b1, o.timestamp);
      b' := Append(b2, o);
      assert front + [] == front && os == front + [o] && !Locks(b1, id);
      hide Fed, Touch, Append, Current, Log;
      GoesSnoc(b, FeedSteps(front), b1, front, Touched(o.timestamp), id, true);
      GoesSnoc(b, FeedSteps(front) + [Touched(o.timestamp)], b2, front, Appended(o), id, true);
    }
  }

  function Comparisons(n: nat): seq<Step> {
    if n == 0 then [] else Comparisons(n - 1) + [Compared]
  }

  function ScannedTo(b: Book, next: nat, survivors: seq<Order>): Book
    requires b.scan.Scan?
  {
    b.(scan := b.scan.(next := next, survivors := survivors))
  }

  lemma CompareAt(b: Book, next: nat, survivors: seq<Order>)
    requires b.scan.Scan? && next < |Current(b, b.scan.id)|
    ensures var b', o := ScannedTo(b, next, survivors), Current(b, b.scan.id)[next];
            && Enabled(b', Compared)
            && Compare(b') == ScannedTo(b, next + 1, if o.timestamp > Bound(b) then survivors + [o] else survivors)
  {
  }

  lemma CompareOneMore(b: Book, steps: seq<Step>, next: nat, survivors: seq<Order>, o: Order, id: nat)
    requires b.scan.Scan? && next < |Current(b, b.scan.id)| && o == Current(b, b.scan.id)[next]
    requires Goes(b, steps, ScannedTo(b, next, survivors), id, [], true)
    ensures var survivors' := if o.timestamp > Bound(b) then survivors + [o] else survivors;
            Goes(b, steps + [Compared], ScannedTo(b, next + 1, survivors'), id, [], true)
  {
    CompareAt(b, next, survivors);
    hide Goes, ScannedTo, Compare, Enabled;
    GoesSnoc(b, steps, ScannedTo(b, next, survivors), [], Compared, id, true);
    assert AppendedBy(Compared, id) + [] == [];
  }

  /** Comparing against a clock that stands still. */
  lemma {:induction false} Comparing(b: Book, held: seq<Order>, n: nat, id: nat)
    requires b.scan.Scan? && held == Current(b, b.scan.id) && b.scan.next == 0 && b.scan.survivors == []
    requires n <= |held|
    ensures Goes(b, Comparisons(n), ScannedTo(b, n, Newer(held[..n], Bound(b))), id, [], true)
  {
    hide Goes;
    if n == 0 {
      GoesNowhere(b, id, true);
      assert ScannedTo(b, n, []) == b;
    } else {
      Comparing(b, held, n - 1, id);
      assert held[..n] == held[..n - 1] + [held[n - 1]];
      NewerLast(held[..n - 1], held[n - 1], Bound(b));
      var survivors := Newer(held[..n - 1], Bound(b));
      assert survivors + [] == survivors;
      CompareOneMore(b, Comparisons(n - 1), n - 1, survivors, held[n - 1], id);
    }
  }

  /** Comparing when the clock has left all orders that are still to come behind. */
  lemma {:induction false} ComparingOld(b: Book, held: seq<Order>, n: nat, id: nat)
    requires b.scan.Scan? && held == Current(b, b.scan.id) && b.scan.next + n <= |held|
    requires forall o :: o in held ==> o.timestamp <= Bound(b)
    ensures Goes(b, Comparisons(n), ScannedTo(b, b.scan.next + n, b.scan.survivors), id, [], true)
  {
    hide Goes;
    if n == 0 {
      GoesNowhere(b, id, true);
      assert ScannedTo(b, b.scan.next, b.scan.survivors) == b;
    } else {
      ComparingOld(b, held, n - 1, id);
      CompareOneMore(b, Comparisons(n - 1), b.scan.next + n - 1, b.scan.survivors, held[b.scan.next + n - 1], id);
    }
  }

  lemma GoesWeaker(b: Book, steps: seq<Step>, b': Book, id: nat, os: seq<Order>, calm: bool)
    requires Goes(b, steps, b', id, os, true)
    ensures Goes(b, steps, b', id, os, calm)
  {
  }

  /** A prune in which the clock moves to a time after some comparisons, and no order held is in the
      window after that. It is calm if the clock really stood at that time before. */
  function TearSteps(id: nat, first: nat, time: real, rest: nat): seq<Step> {
    [Locked(id)] + Comparisons(first) + [Touched(time)] + Comparisons(rest) + [Released]
  }

  lemma Tear(b: Book, id: nat, k: nat, time: real) returns (b': Book)
    requires b.scan.Idle? && id in b.orders && id in b.deleted && k <= |b.orders[id]|
    requires forall o :: o in b.orders[id] ==> o.timestamp <= Bound(Touch(b, time))
    ensures Goes(b, TearSteps(id, k, time, |b.orders[id]| - k), b', id, [], time <= b.last)
    ensures b'.scan.Idle? && b'.threshold == b.threshold && Log(b', id) == Log(b, id)
    ensures Current(b', id) == Newer(b.orders[id][..k], Bound(b))
  {
    hide Goes, Newer;
    var calm, held := time <= b.last, b.orders[id];
    var b1, s1 := Lock(b, id), [Locked(id)];
    var none: seq<Order> := [];
    assert none + none == none;
    GoesOne(b, Locked(id), id, calm);
    var survivors := Newer(held[..k], Bound(b));
    var b2, s2 := ScannedTo(b1, k, survivors), Comparisons(k);
    Comparing(b1, held, k, id);
    GoesWeaker(b1, s2, b2, id, none, calm);
    GoesConcat(b, s1, b1, none, s2, b2, none, id, calm);
    var b3 := Touch(b2, time);
    GoesSnoc(b, s1 + s2, b2, none, Touched(time), id, calm);
    var b4, s4 := ScannedTo(b3, |held|, survivors), Comparisons(|held| - k);
    ComparingOld(b3, held, |held| - k, id);
    GoesWeaker(b3, s4, b4, id, none, calm);
    GoesConcat(b, s1 + s2 + [Touched(time)], b3, none, s4, b4, none, id, calm);
    b' := Release(b4);
    GoesSnoc(b, s1 + s2 + [Touched(time)] + s4, b4, none, Released, id, calm);
  }

  lemma GoesIsRun(b: Book, steps: seq<Step>, b': Book, id: nat, os: seq<Order>, calm: bool)
    requires Goes(b, steps, b', id, os, calm)
    ensures IsRun(b, steps) && Run(b, steps) == b' && AllAppended(steps, id) == os
    ensures calm ==> Calm(b, steps, id)
    ensures Goes(b, steps, b', id, os, false)
  {
  }

  function ForgetSteps(id: nat, time: real, n: nat): seq<Step> {
    [Touched(time)] + [Marked(id)] + TearSteps(id, 0, time, n)
  }

  /** A calm way to make the book forget an id: the clock leaves all its orders behind. */
  lemma Forget(b: Book, id: nat, time: real) returns (b': Book)
    requires b.scan.Idle? && id in b.orders
    requires forall o :: o in b.orders[id] ==> o.timestamp <= time - b.threshold
    requires b.last <= time
    ensures Goes(b, ForgetSteps(id, time, |b.orders[id]|), b', id, [], true)
    ensures b'.scan.Idle? && b'.threshold == b.threshold && Log(b', id) == Log(b, id) && Current(b', id) == []
  {
    hide Goes, Newer, TearSteps;
    var none: seq<Order> := [];
    assert none + none == none;
    var b1 := Touch(b, time);
    var b2 := Mark(b1, id);
    var tear := TearSteps(id, 0, time, |b.orders[id]|);
    GoesOne(b, Touched(time), id, true);
    GoesSnoc(b, [Touched(time)], b1, none, Marked(id), id, true);
    assert b2.orders[id][..0] == none;
    b' := Tear(b2, id, 0, time);
    NewerOfNone(none, Bound(b2));
    assert b2.last == time && b2.scan.Idle? && b.orders == b2.orders;
    assert time <= b2.last;
    GoesConcat(b, [Touched(time)] + [Marked(id)], b2, none, tear, b', none, id, true);
    assert [Touched(time)] + [Marked(id)] + tear == ForgetSteps(id, time, |b.orders[id]|);
  }
}
