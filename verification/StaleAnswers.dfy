/** When does the order book of src/sources/Source.hpp answer with an order that is neither the right
    one nor the zero order? The answer is in the order in which the orders of an id are fed, which
    whoever feeds them can check: `OrderedNeverStale` for runs in which the clock stands still while
    the id is pruned, `SpacedNeverStale` for all runs. Both are exact. */
module StaleAnswers {
  import opened Models
  import opened OrderBook
  import opened BookRuns
  import opened ArrivalOrder

  ghost predicate OfOneId(os: seq<Order>, id: nat) {
    forall o :: o in os ==> o.id == id
  }

  /** A run that feeds the given orders for an id, or some first ones of them. */
  ghost predicate Feeds(threshold: real, steps: seq<Step>, id: nat, os: seq<Order>) {
    IsRun(Fresh(threshold), steps) && AllAppended(steps, id) <= os
  }

  ghost predicate NeverStale(threshold: real, id: nat, os: seq<Order>) {
    forall steps, t :: Feeds(threshold, steps, id, os) ==> !Stale(Run(Fresh(threshold), steps), id, t)
  }

  ghost predicate NeverStaleIfCalm(threshold: real, id: nat, os: seq<Order>) {
    forall steps, t :: Feeds(threshold, steps, id, os) && Calm(Fresh(threshold), steps, id) ==>
      !Stale(Run(Fresh(threshold), steps), id, t)
  }

  lemma NotStale(threshold: real, id: nat, os: seq<Order>, calm: bool, steps: seq<Step>, t: real)
    requires TimeOrdered(os) && (calm || Spaced(os, threshold))
    requires Feeds(threshold, steps, id, os)
    requires calm ==> Calm(Fresh(threshold), steps, id)
    ensures !Stale(Run(Fresh(threshold), steps), id, t)
  {
    hide TimeOrdered, Spaced, Latest, IsRun, Run, Calm, AllAppended;
    var b0 := Fresh(threshold);
    var b := Run(b0, steps);
    LogIsComplete(b0, steps, id);
    assert [] + AllAppended(steps, id) == AllAppended(steps, id);
    OrderedFront(os, Log(b, id), threshold);
    FreshInv(threshold);
    RunUpClosed(b0, steps, id, calm);
    RunKeeps(b0, steps);
    assert Consistent(b, id);
    SubsequenceMembers(Current(b, id), Log(b, id));
    UpClosedNotStale(Current(b, id), Log(b, id), t);
  }

  lemma OrderedSuffices(threshold: real, id: nat, os: seq<Order>)
    requires TimeOrdered(os)
    ensures NeverStaleIfCalm(threshold, id, os)
    ensures Spaced(os, threshold) ==> NeverStale(threshold, id, os)
  {
    hide TimeOrdered, Spaced, IsRun, Run, AllAppended, Stale, Calm;
    forall steps, t | Feeds(threshold, steps, id, os)
      ensures Calm(Fresh(threshold), steps, id) || Spaced(os, threshold) ==>
                !Stale(Run(Fresh(threshold), steps), id, t)
    {
      if Spaced(os, threshold) {
        NotStale(threshold, id, os, false, steps, t);
      } else if Calm(Fresh(threshold), steps, id) {
        NotStale(threshold, id, os, true, steps, t);
      }
    }
  }

  lemma DisorderedIsStale(threshold: real, id: nat, os: seq<Order>)
    requires !TimeOrdered(os) && OfOneId(os, id)
    ensures !NeverStaleIfCalm(threshold, id, os)
  {
    hide TimeOrdered, IsRun, Run, AllAppended, Calm, Stale, Goes, LateSteps;
    var i, j := FirstDisorder(os);
    var front := os[..j];
    assert front + [os[j]] == os[..j + 1];
    assert front[i] == os[i];
    var b1 := Feeding(Fresh(threshold), front, id);
    var time := b1.last + if threshold > 0.0 then threshold else 0.0;
    LateIsStale(threshold, id, front, time, os[i], os[j]);
    assert Feeds(threshold, LateSteps(id, front, time, os[j]), id, os);
  }

  /** As long as the clock stands still while an id is pruned, lookups of the id are never stale, on
      any run, exactly when its orders are fed in time order. */
  lemma OrderedNeverStale(threshold: real, id: nat, os: seq<Order>)
    requires OfOneId(os, id)
    ensures NeverStaleIfCalm(threshold, id, os) <==> TimeOrdered(os)
  {
    hide TimeOrdered, NeverStaleIfCalm, NeverStale;
    if TimeOrdered(os) {
      OrderedSuffices(threshold, id, os);
    } else {
      DisorderedIsStale(threshold, id, os);
    }
  }

  /** Lookups of an id are never stale, on any run at all, exactly when its orders are fed in time
      order and different ones are at least a window apart. */
  lemma SpacedNeverStale(threshold: real, id: nat, os: seq<Order>)
    requires OfOneId(os, id)
    ensures NeverStale(threshold, id, os) <==> TimeOrdered(os) && Spaced(os, threshold)
  {
    if !TimeOrdered(os) {
      OrderedNeverStale(threshold, id, os);
      assert NeverStale(threshold, id, os) ==> NeverStaleIfCalm(threshold, id, os);
    } else if Spaced(os, threshold) {
      OrderedSuffices(threshold, id, os);
    } else {
      var i, j :| 0 <= i < j < |os| && os[i].timestamp > 0.0 && os[j].timestamp > 0.0 && os[i] != os[j] &&
        os[j].timestamp < os[i].timestamp + threshold;
      OrderedFront(os, os[..j + 1], threshold);
      hide TimeOrdered, IsRun, Run, AllAppended, Calm, Stale;
      CloseIsStale(threshold, id, os[..j + 1], i, j);
    }
  }
}
