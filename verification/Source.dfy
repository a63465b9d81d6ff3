/** The imperative form of src/sources/Source.hpp. */
module Sources {
  import opened Models
  import opened OrderBook

  // ----- forwarding -----

  datatype Fed = FedTrade(trade: Trade) | FedOrder(order: Order)

  /** What every history is fed with a trade: the test for the buy order looks at the sell order. */
  function FedWith(trade: Trade, buyOrder: Order, sellOrder: Order): seq<Fed> {
    if sellOrder.action != WAIT then [FedTrade(trade), FedOrder(buyOrder), FedOrder(sellOrder)]
    else [FedTrade(trade)]
  }

  /** Exactly the orders that were found are forwarded if and only if both or none were found. */
  lemma ForwardsFound(trade: Trade, buyOrder: Order, sellOrder: Order)
    ensures (forall o :: FedOrder(o) in FedWith(trade, buyOrder, sellOrder) <==>
                         o in {buyOrder, sellOrder} && o.action != WAIT)
            <==> (buyOrder.action == WAIT <==> sellOrder.action == WAIT)
  {
    assert sellOrder.action != WAIT ==> FedOrder(buyOrder) in FedWith(trade, buyOrder, sellOrder);
    assert buyOrder in {buyOrder, sellOrder};
  }

  /** What a trade makes of a book: the clock moves, then both orders are looked up. */
  function FedBy(b: Book, trade: Trade): seq<Fed> {
    var b' := Touch(b, trade.timestamp);
    FedWith(trade, Retrieve(b', trade.buyOrderId, trade.timestamp), Retrieve(b', trade.sellOrderId, trade.timestamp))
  }

  /** An order that is forwarded is the zero order, or one that is held for one of the two ids of the trade, not
      newer than the trade, and the latest such. */
  lemma ForwardedOrders(b: Book, trade: Trade, o: Order)
    requires FedOrder(o) in FedBy(b, trade) && o != ZERO_ORDER
    ensures exists id :: (id == trade.buyOrderId || id == trade.sellOrderId) && o in Current(b, id)
              && 0.0 < o.timestamp <= trade.timestamp
              && forall other :: other in Current(b, id) && other.timestamp <= trade.timestamp ==>
                   other.timestamp <= o.timestamp
  {
    var b' := Touch(b, trade.timestamp);
    var buyOrder := Retrieve(b', trade.buyOrderId, trade.timestamp);
    var id := if o == buyOrder then trade.buyOrderId else trade.sellOrderId;
    assert o == Retrieve(b', id, trade.timestamp);
    assert Current(b', id) == Current(b, id);
    var i := LatestIsFirst(Current(b, id), trade.timestamp);
    hide Latest;
    assert o in Current(b, id);
  }

  lemma FeedOne(o: Order)
    requires o.timestamp == 10.0
    ensures var steps := [Touched(10.0), Appended(o)];
            && IsRun(Fresh(60.0), steps)
            && forall id :: Current(Run(Fresh(60.0), steps), id) == if id == o.id then [o] else []
  {
    var b := Touch(Fresh(60.0), 10.0);
    RunOne(Fresh(60.0), Touched(10.0));
    RunSnoc(Fresh(60.0), [Touched(10.0)], Appended(o));
    assert [Touched(10.0)] + [Appended(o)] == [Touched(10.0), Appended(o)];
    assert [] + [o] == [o];
  }

  /** A buy order that was fed is not forwarded with its trade; and with a sell order that was fed, the
      zero order is forwarded in place of a buy order that was not. */
  lemma ForwardingFails(buyOrder: Order, sellOrder: Order, trade: Trade)
    requires buyOrder.id == trade.buyOrderId != trade.sellOrderId == sellOrder.id
    requires buyOrder.action == BUY && sellOrder.action == SELL
    requires buyOrder.timestamp == sellOrder.timestamp == trade.timestamp == 10.0
    ensures var steps := [Touched(10.0), Appended(buyOrder)];
            IsRun(Fresh(60.0), steps) && FedBy(Run(Fresh(60.0), steps), trade) == [FedTrade(trade)]
    ensures var steps := [Touched(10.0), Appended(sellOrder)];
            && IsRun(Fresh(60.0), steps)
            && FedBy(Run(Fresh(60.0), steps), trade) == [FedTrade(trade), FedOrder(ZERO_ORDER), FedOrder(sellOrder)]
  {
    FeedOne(buyOrder);
    FeedOne(sellOrder);
    hide IsRun, Run;
    assert [buyOrder][..0] == [] && [sellOrder][..0] == [];
    assert Latest([buyOrder], 10.0) == buyOrder && Latest([sellOrder], 10.0) == sellOrder;
    assert Latest([], 10.0) == ZERO_ORDER;
    ghost var b1, b2 := Run(Fresh(60.0), [Touched(10.0), Appended(buyOrder)]),
                        Run(Fresh(60.0), [Touched(10.0), Appended(sellOrder)]);
    assert forall id :: Current(Touch(b1, 10.0), id) == Current(b1, id);
    assert forall id :: Current(Touch(b2, 10.0), id) == Current(b2, id);
  }

  // ----- the steps of a cleanup -----

  /** Before each comparison, other threads may feed something. */
  function ComparisonSteps(feeds: nat -> real, n: nat): seq<Step> {
    if n == 0 then [] else ComparisonSteps(feeds, n - 1) + [Touched(feeds(n - 1))] + [Compared]
  }

  function PruneSteps(id: nat, feeds: nat -> real, n: nat): seq<Step> {
    [Locked(id)] + ComparisonSteps(feeds, n) + [Released]
  }

  /** The prunes of the listed ids, as far as the book has them. */
  function CleanupSteps(ids: seq<nat>, feeds: nat -> nat -> real, orders: map<nat, seq<Order>>): seq<Step> {
    if ids == [] then []
    else
      var id := ids[|ids| - 1];
      CleanupSteps(ids[..|ids| - 1], feeds, orders) +
      if id in orders then PruneSteps(id, feeds(id), |orders[id]|) else []
  }

  ghost predicate Ascending(ids: seq<nat>) {
    forall i, j :: 0 <= i < j < |ids| ==> ids[i] < ids[j]
  }

  lemma CleanupOnMore(b0: Book, ids: seq<nat>, feeds: nat -> nat -> real, b: Book, id: nat, b': Book)
    requires IsRun(b0, CleanupSteps(ids, feeds, b0.orders)) && b == Run(b0, CleanupSteps(ids, feeds, b0.orders))
    requires id in b0.orders ==>
               var steps := PruneSteps(id, feeds(id), |b0.orders[id]|); IsRun(b, steps) && b' == Run(b, steps)
    requires id !in b0.orders ==> b' == b
    ensures var steps := CleanupSteps(ids + [id], feeds, b0.orders); IsRun(b0, steps) && b' == Run(b0, steps)
  {
    hide IsRun, Run, PruneSteps;
    var steps := CleanupSteps(ids, feeds, b0.orders);
    assert (ids + [id])[..|ids|] == ids;
    if id in b0.orders {
      RunConcat(b0, steps, PruneSteps(id, feeds(id), |b0.orders[id]|));
    } else {
      assert steps + [] == steps;
    }
  }

  ghost predicate IsLeast(m: nat, s: set<nat>) {
    m in s && forall n :: n in s ==> m <= n
  }

  lemma {:induction false} Least(s: set<nat>) returns (m: nat)
    requires s != {}
    ensures IsLeast(m, s)
    decreases |s|
  {
    m :| m in s;
    if s != {m} {
      var rest := s - {m};
      assert s == rest + {m};
      var n := Least(rest);
      m := if m < n then m else n;
    }
  }

  /** The listed ids come before those that are left, in ascending order. */
  ghost predicate Visited(ids: seq<nat>, left: set<nat>, all: set<nat>) {
    && Ascending(ids) && left <= all
    && (forall id :: id in ids <==> id in all - left)
    && (forall id, other :: id in ids && other in left ==> id < other)
  }

  lemma VisitLeast(ids: seq<nat>, left: set<nat>, all: set<nat>, id: nat)
    requires Visited(ids, left, all) && IsLeast(id, left)
    ensures Visited(ids + [id], left - {id}, all)
  {
    assert forall i :: 0 <= i < |ids| ==> ids[i] in ids;
  }

  /** Two maps agree on the keys of a set. */
  ghost predicate Agree(a: map<nat, seq<Order>>, b: map<nat, seq<Order>>, keys: set<nat>) {
    forall id :: id in keys ==> (id in a <==> id in b) && (id in a ==> a[id] == b[id])
  }

  lemma AgreeAt(a: map<nat, seq<Order>>, b: map<nat, seq<Order>>, keys: set<nat>, id: nat)
    requires Agree(a, b, keys) && id in keys
    ensures (id in a <==> id in b) && (id in a ==> a[id] == b[id])
  {
  }

  lemma AgreeRest(a: map<nat, seq<Order>>, b: map<nat, seq<Order>>, c: map<nat, seq<Order>>, keys: set<nat>, id: nat)
    requires Agree(a, b, keys - {id}) && Agree(b, c, keys)
    ensures Agree(a, c, keys - {id})
  {
  }

  // ----- what is left after a cleanup -----

  /** Every order left is one from before, in order, and newer than `since`; every one newer than `until` is
      left; and if these are the same, exactly those are left. */
  ghost predicate Trimmed(before: seq<Order>, after: seq<Order>, since: real, until: real) {
    && since <= until
    && IsSubsequence(after, before)
    && (forall o :: o in after ==> o.timestamp > since)
    && (forall o :: o in before && o.timestamp > until ==> o in after)
    && Newer(after, until) == Newer(before, until)
    && (since == until ==> after == Newer(before, since))
  }

  lemma TrimmedNone(since: real)
    ensures Trimmed([], [], since, since)
  {
  }

  lemma TrimmedWider(before: seq<Order>, after: seq<Order>, since: real, until: real, since': real, until': real)
    requires Trimmed(before, after, since, until) && since' <= since && until <= until'
    ensures Trimmed(before, after, since', until')
  {
    NewerTwice(after, until, until');
    NewerTwice(before, until, until');
    hide IsSubsequence, Newer;
  }

  lemma TrimmedMore(before: seq<Order>, after: seq<Order>, since: real, until: real, o: Order)
    requires Trimmed(before, after, since, until)
    ensures Trimmed(before + [o], if o.timestamp > until then after + [o] else after, since, until)
  {
    SubsequenceBoth(after, before, o);
    SubsequenceOfMore(after, before, o);
    NewerLast(after, o, until);
    NewerLast(before, o, until);
    hide IsSubsequence, Newer;
  }

  lemma ComparedOne(held: seq<Order>, i: nat, orders: seq<Order>, since: real, until: real, until': real)
    requires i < |held| && Trimmed(held[..i], orders, since, until) && until <= until'
    ensures Trimmed(held[..i + 1], if held[i].timestamp > until' then orders + [held[i]] else orders, since, until')
  {
    hide Trimmed;
    TrimmedWider(held[..i], orders, since, until, since, until');
    TrimmedMore(held[..i], orders, since, until', held[i]);
    assert held[..i + 1] == held[..i] + [held[i]];
  }

  /** While the orders of an id are compared, no list changes, and those compared so far are trimmed. */
  lemma {:induction false} ComparisonsTrim(b0: Book, id: nat, feeds: nat -> real, n: nat)
    requires b0.scan.Idle? && id in b0.deleted && id in b0.orders && n <= |b0.orders[id]|
    ensures var steps := [Locked(id)] + ComparisonSteps(feeds, n);
            && IsRun(b0, steps)
            && var b := Run(b0, steps);
            && b == b0.(last := b.last, scan := b.scan)
            && b.scan.Scan? && b.scan.id == id && b.scan.next == n
            && Trimmed(b0.orders[id][..n], b.scan.survivors, Bound(b0), Bound(b))
  {
    hide IsRun, Run, Trimmed;
    if n == 0 {
      RunOne(b0, Locked(id));
      TrimmedNone(Bound(b0));
      assert [Locked(id)] + ComparisonSteps(feeds, 0) == [Locked(id)];
    } else {
      ComparisonsTrim(b0, id, feeds, n - 1);
      var steps := [Locked(id)] + ComparisonSteps(feeds, n - 1);
      var b, t := Run(b0, steps), feeds(n - 1);
      RunSnoc(b0, steps, Touched(t));
      RunSnoc(b0, steps + [Touched(t)], Compared);
      assert steps + [Touched(t)] + [Compared] == [Locked(id)] + ComparisonSteps(feeds, n);
      ComparedOne(b0.orders[id], n - 1, b.scan.survivors, Bound(b0), Bound(b), Bound(Touch(b, t)));
    }
  }

  /** A prune trims the list of its id, and leaves no empty list; nothing else changes but the clock. */
  lemma PruneTrims(b0: Book, id: nat, feeds: nat -> real)
    requires b0.scan.Idle? && id in b0.deleted && id in b0.orders
    ensures var steps := PruneSteps(id, feeds, |b0.orders[id]|);
            && IsRun(b0, steps)
            && var b := Run(b0, steps);
            && b == b0.(last := b.last, orders := b.orders)
            && Trimmed(Current(b0, id), Current(b, id), Bound(b0), Bound(b))
            && (id in b.orders <==> Current(b, id) != [])
            && (forall other :: other != id ==>
                  (other in b.orders <==> other in b0.orders) && Current(b, other) == Current(b0, other))
  {
    var n := |b0.orders[id]|;
    ComparisonsTrim(b0, id, feeds, n);
    assert b0.orders[id][..n] == b0.orders[id];
    hide IsRun, Run, Trimmed, ComparisonSteps;
    RunSnoc(b0, [Locked(id)] + ComparisonSteps(feeds, n), Released);
  }

  /** A cleanup trims the lists of the ids it visits, and leaves no empty list of theirs; all others stay. */
  ghost predicate Cleaned(b0: Book, b: Book, id: nat, visited: bool) {
    if visited then
      && Trimmed(Current(b0, id), Current(b, id), Bound(b0), Bound(b))
      && (id in b.orders <==> id in b0.orders && Current(b, id) != [])
    else (id in b.orders <==> id in b0.orders) && Current(b, id) == Current(b0, id)
  }

  lemma CleanedLater(b0: Book, b: Book, b': Book, id: nat, visited: bool)
    requires Cleaned(b0, b, id, visited) && Bound(b) <= Bound(b')
    requires (id in b'.orders <==> id in b.orders) && Current(b', id) == Current(b, id)
    ensures Cleaned(b0, b', id, visited)
  {
    hide Trimmed;
    if visited {
      TrimmedWider(Current(b0, id), Current(b, id), Bound(b0), Bound(b), Bound(b0), Bound(b'));
    }
  }

  lemma CleanedNow(b0: Book, b: Book, b': Book, id: nat)
    requires Cleaned(b0, b, id, false) && Bound(b0) <= Bound(b)
    requires Trimmed(Current(b, id), Current(b', id), Bound(b), Bound(b'))
    requires id in b'.orders <==> id in b.orders && Current(b', id) != []
    ensures Cleaned(b0, b', id, true)
  {
    var os, os' := Current(b, id), Current(b', id);
    assert Bound(b) <= Bound(b');
    hide Trimmed;
    TrimmedWider(os, os', Bound(b), Bound(b'), Bound(b0), Bound(b'));
  }

  lemma NotBefore(ids: seq<nat>, id: nat)
    requires Ascending(ids + [id])
    ensures id !in ids
  {
    assert forall i :: 0 <= i < |ids| ==> ids[i] == (ids + [id])[i] < (ids + [id])[|ids|];
  }

  lemma {:induction false} CleanupTrims(b0: Book, ids: seq<nat>, feeds: nat -> nat -> real)
    requires b0.scan.Idle? && Ascending(ids) && forall id :: id in ids ==> id in b0.deleted
    ensures var steps := CleanupSteps(ids, feeds, b0.orders);
            && IsRun(b0, steps)
            && var b := Run(b0, steps);
            && b == b0.(last := b.last, orders := b.orders) && b0.last <= b.last
            && forall id: nat :: Cleaned(b0, b, id, id in ids)
    decreases |ids|
  {
    hide IsRun, Run, Trimmed, PruneSteps;
    var steps := CleanupSteps(ids, feeds, b0.orders);
    if ids == [] {
      assert IsRun(b0, steps) && Run(b0, steps) == b0 by { NoSteps(b0); }
    } else {
      var front, id := ids[..|ids| - 1], ids[|ids| - 1];
      assert ids == front + [id];
      CleanupTrims(b0, front, feeds);
      var before := CleanupSteps(front, feeds, b0.orders);
      var b := Run(b0, before);
      assert id !in front by { NotBefore(front, id); }
      assert Cleaned(b0, b, id, false);
      var b' := b;
      if id in b0.orders {
        PruneTrims(b, id, feeds(id));
        b' := Run(b, PruneSteps(id, feeds(id), |b0.orders[id]|));
        RunConcat(b0, before, PruneSteps(id, feeds(id), |b0.orders[id]|));
        assert Trimmed(Current(b, id), Current(b', id), Bound(b), Bound(b'));
        ClockForward(Current(b, id), Current(b', id), Bound(b), Bound(b'));
      } else {
        assert before + [] == before;
        TrimmedNone(Bound(b));
      }
      CleanedNow(b0, b, b', id);
      forall other: nat ensures Cleaned(b0, b', other, other in ids) {
        if other != id {
          assert Cleaned(b0, b, other, other in front);
          CleanedLater(b0, b, b', other, other in front);
        }
      }
    }
  }

  /** A deleted id keeps of its list what is newer, and is gone exactly if that is nothing; every other id keeps its
      whole list. */
  ghost predicate CleanedUp(before: map<nat, seq<Order>>, after: map<nat, seq<Order>>, deleted: set<nat>, since: real,
                            until: real)
  {
    && (forall id :: id !in deleted ==> (id in after <==> id in before) && ListOf(after, id) == ListOf(before, id))
    && (forall id :: id in deleted ==>
          && Trimmed(ListOf(before, id), ListOf(after, id), since, until)
          && (id in after <==> id in before && ListOf(after, id) != []))
  }

  lemma CleanupMeans(b0: Book, b: Book, ids: seq<nat>, feeds: nat -> nat -> real)
    requires b0.scan.Idle? && Ascending(ids) && forall id :: id in ids <==> id in b0.deleted
    requires var steps := CleanupSteps(ids, feeds, b0.orders); IsRun(b0, steps) && b == Run(b0, steps)
    ensures CleanedUp(b0.orders, b.orders, b0.deleted, b0.last - b0.threshold, b.last - b0.threshold)
  {
    hide IsRun, Run, Trimmed, CleanupSteps;
    CleanupTrims(b0, ids, feeds);
    forall id: nat ensures Cleaned(b0, b, id, id in b0.deleted) {
      assert Cleaned(b0, b, id, id in ids);
    }
  }

  lemma ClockForward(before: seq<Order>, after: seq<Order>, since: real, until: real)
    requires Trimmed(before, after, since, until)
    ensures since <= until
  {
  }

  lemma NoSteps(b: Book)
    ensures IsRun(b, []) && Run(b, []) == b
  {
  }

  class Source {
    var lastTimestamp: real
    var currentOrders: map<nat, seq<Order>>
    var deletedOrdersIds: set<nat>
    const cleanupThreshold: real
    ghost var log: map<nat, seq<Order>>

    /** The state between two methods: no prune is in progress. */
    ghost function State(): Book
      reads this
    {
      Book(lastTimestamp, cleanupThreshold, currentOrders, deletedOrdersIds, Idle, log)
    }

    constructor ()
      ensures State() == Fresh(60.0)
    {
      lastTimestamp, cleanupThreshold := 0.0, 60.0;
      currentOrders, deletedOrdersIds, log := map[], {}, map[];
    }

    method RetrieveOrder(id: nat, timestamp: real) returns (resultOrder: Order)
      ensures resultOrder == Retrieve(State(), id, timestamp)
    {
      resultOrder := Order(0, 0.0, 0.0, WAIT, 0.0);
      if id in currentOrders {
        var orders := currentOrders[id];
        for i := 0 to |orders|
          invariant resultOrder == Latest(orders[..i], timestamp)
        {
          assert orders[..i + 1][..i] == orders[..i];
          if orders[i].timestamp > resultOrder.timestamp && orders[i].timestamp <= timestamp {
            resultOrder := orders[i];
          }
        }
        assert orders[..|orders|] == orders;
      }
    }

    /** Feeding a trade moves the clock, looks up the two orders it refers to, and feeds every history. */
    method FeedTrade(trade: Trade) returns (fed: seq<Fed>)
      modifies this
      ensures State() == Touch(old(State()), trade.timestamp)
      ensures fed == FedBy(old(State()), trade)
    {
      if trade.timestamp > lastTimestamp {
        lastTimestamp := trade.timestamp;
      }
      var buyOrder := RetrieveOrder(trade.buyOrderId, trade.timestamp);
      var sellOrder := RetrieveOrder(trade.sellOrderId, trade.timestamp);
      fed := [FedTrade(trade)];
      if sellOrder.action != WAIT {
        fed := fed + [FedOrder(buyOrder)];
      }
      if sellOrder.action != WAIT {
        fed := fed + [FedOrder(sellOrder)];
      }
    }

    method FeedOrder(order: Order)
      modifies this
      ensures State() == Append(Touch(old(State()), order.timestamp), order)
    {
      if order.timestamp > lastTimestamp {
        lastTimestamp := order.timestamp;
      }
      if order.id in currentOrders {
        currentOrders := currentOrders[order.id := currentOrders[order.id] + [order]];
      } else {
        assert [] + [order] == [order];
        currentOrders := currentOrders[order.id := [order]];
      }
      log := log[order.id := (if order.id in log then log[order.id] else []) + [order]];
    }

    method Puke(order: Order)
      modifies this
      ensures var b := old(State());
              State() == Mark(if order.id in b.orders then b else Append(Touch(b, order.timestamp), order), order.id)
    {
      if order.id !in currentOrders {
        FeedOrder(order);
      }
      deletedOrdersIds := deletedOrdersIds + {order.id};
    }

    /** One iteration of the cleanup loop. Other threads feed while it compares; of that, only the
        clock concerns the locked id. */
    method CleanupOne(id: nat, feeds: nat -> real)
      requires id in deletedOrdersIds
      modifies this`currentOrders, this`lastTimestamp
      ensures id in old(currentOrders) ==>
                var steps := PruneSteps(id, feeds, |old(currentOrders)[id]|);
                IsRun(old(State()), steps) && State() == Run(old(State()), steps)
      ensures id !in old(currentOrders) ==> State() == old(State())
      ensures forall keys :: id !in keys ==> Agree(currentOrders, old(currentOrders), keys)
    {
      if id in currentOrders {
        ghost var b0 := State();
        ghost var b, steps := Lock(b0, id), [Locked(id)];
        RunOne(b0, Locked(id));
        var held := currentOrders[id];
        var orders := [];
        for i := 0 to |held|
          invariant currentOrders == old(currentOrders)
          invariant b == State().(scan := Scan(id, i, orders, b0.last))
          invariant steps == [Locked(id)] + ComparisonSteps(feeds, i)
          invariant IsRun(b0, steps) && Run(b0, steps) == b
        {
          RunSnoc(b0, steps, Touched(feeds(i)));
          if feeds(i) > lastTimestamp {
            lastTimestamp := feeds(i);
          }
          RunSnoc(b0, steps + [Touched(feeds(i))], Compared);
          if held[i].timestamp > lastTimestamp - cleanupThreshold {
            orders := orders + [held[i]];
          }
          b := Compare(Touch(b, feeds(i)));
          steps := steps + [Touched(feeds(i))] + [Compared];
        }
        RunSnoc(b0, steps, Released);
        if |orders| == 0 {
          currentOrders := currentOrders - {id};
        } else {
          currentOrders := currentOrders[id := orders];
        }
      }
    }

    /** The whole cleanup: one prune after the other, in ascending order of the ids. */
    method Cleanup(feeds: nat -> nat -> real) returns (ghost ids: seq<nat>)
      modifies this`currentOrders, this`lastTimestamp
      ensures Ascending(ids) && forall id :: id in ids <==> id in deletedOrdersIds
      ensures var steps := CleanupSteps(ids, feeds, old(currentOrders));
              IsRun(old(State()), steps) && State() == Run(old(State()), steps)
      ensures CleanedUp(old(currentOrders), currentOrders, deletedOrdersIds,
                        old(lastTimestamp) - cleanupThreshold, lastTimestamp - cleanupThreshold)
    {
      hide CleanedUp;
      ids := [];
      var left := deletedOrdersIds;
      while left != {}
        invariant Visited(ids, left, deletedOrdersIds) && Agree(currentOrders, old(currentOrders), left)
        invariant var steps := CleanupSteps(ids, feeds, old(currentOrders));
                  IsRun(old(State()), steps) && State() == Run(old(State()), steps)
        decreases |left|
      {
        hide CleanupSteps, PruneSteps, IsRun, Run, Agree;
        ghost var least := Least(left);
        var id :| id in left && forall other :: other in left ==> id <= other;
        ghost var before := State();
        AgreeAt(currentOrders, old(currentOrders), left, id);
        CleanupOne(id, feeds(id));
        CleanupOnMore(old(State()), ids, feeds, before, id, State());
        VisitLeast(ids, left, deletedOrdersIds, id);
        AgreeRest(currentOrders, before.orders, old(currentOrders), left, id);
        ids := ids + [id];
        left := left - {id};
      }
      hide IsRun, Run, CleanupSteps, PruneSteps, Agree;
      CleanupMeans(old(State()), State(), ids, feeds);
    }
  }
}
