/** At which times of decisions do the all-in runs of src/brokers/Broker.hpp alternate between BUY and SELL, and
    when do commissions never decrease? */
module AllInTimes {
  import opened Options
  import opened Models
  import opened Numbers
  import opened MemoryHistories
  import opened Ledgers
  import opened AllInRuns

  /** A run of decisions at the given times that leave their amount unset, every SELL at a price from 1. */
  ghost predicate AllInAt(time: real, ts: seq<real>, events: seq<Event>) {
    InTime(time, events) && AllIn(events) && PricedFromOne(events) && DecisionTimes(events) == ts
  }

  ghost predicate NotBefore(time: real, ts: seq<real>) {
    forall i :: 0 <= i < |ts| ==> time <= ts[i]
  }

  ghost predicate AlwaysAlternates(time: real, ts: seq<real>) {
    forall rate, liquidity, events ::
      liquidity >= 0.0 && AllInAt(time, ts, events) && IsRun(Start(rate, time, liquidity), events) ==>
        Alternates(BrokerTrades(Run(Start(rate, time, liquidity), events).trades))
  }

  ghost predicate AlwaysNeverDrops(time: real, ts: seq<real>) {
    forall rate, liquidity, events ::
      liquidity >= 0.0 && AllInAt(time, ts, events) && IsRun(Start(rate, time, liquidity), events) ==>
        NeverDrops(Run(Start(rate, time, liquidity), events).changes)
  }

  lemma PickedTimes(time: real, at: seq<nat>, a: seq<real>, b: seq<real>)
    requires Picks(at, a, b)
    ensures NeverBack(b) && Spread(b) && OnceAt(time, b) ==> NeverBack(a) && Spread(a) && OnceAt(time, a)
    ensures NoneUndercuts(time, b) ==> NoneUndercuts(time, a)
  {
    hide NeverBack, Spread, OnceAt, NoneUndercuts;
    if NeverBack(b) && Spread(b) && OnceAt(time, b) {
      PickedInTurn(time, at, a, b);
    }
    if NoneUndercuts(time, b) {
      PickedNoneUndercuts(time, at, a, b);
    }
  }

  lemma PickedNoneUndercuts(time: real, at: seq<nat>, a: seq<real>, b: seq<real>)
    requires Picks(at, a, b) && NoneUndercuts(time, b)
    ensures NoneUndercuts(time, a)
  {
    hide AfterRise, AfterDip, AfterTwoRises, Picks;
    PickedRise(time, at, a, b);
    PickedDip(time, at, a, b);
    PickedTwoRises(time, at, a, b);
  }

  lemma PickedInTurn(time: real, at: seq<nat>, a: seq<real>, b: seq<real>)
    requires Picks(at, a, b) && NeverBack(b) && Spread(b) && OnceAt(time, b)
    ensures NeverBack(a) && Spread(a) && OnceAt(time, a)
  {
    forall h, i, j, k | 0 <= h < i < j < k < |a| ensures !(a[h] < a[i] == a[j] == a[k]) {
      assert b[at[h]] == a[h] && b[at[i]] == a[i] && b[at[j]] == a[j] && b[at[k]] == a[k];
    }
  }

  lemma PickedRise(time: real, at: seq<nat>, a: seq<real>, b: seq<real>)
    requires Picks(at, a, b) && AfterRise(time, b)
    ensures AfterRise(time, a)
  {
    forall h, i, j | 0 <= h < i < j < |a| && a[h] <= a[i] && time < a[i] ensures a[h] <= a[j] && time < a[j] {
      assert b[at[h]] == a[h] && b[at[i]] == a[i] && b[at[j]] == a[j];
    }
  }

  lemma PickedDip(time: real, at: seq<nat>, a: seq<real>, b: seq<real>)
    requires Picks(at, a, b) && AfterDip(time, b)
    ensures AfterDip(time, a)
  {
    forall h, g, i, j | 0 <= h < g < i < j < |a| && a[g] <= a[i] < a[h] && time < a[i] ensures a[j] < a[h] {
      assert b[at[h]] == a[h] && b[at[g]] == a[g] && b[at[i]] == a[i] && b[at[j]] == a[j];
    }
  }

  lemma PickedTwoRises(time: real, at: seq<nat>, a: seq<real>, b: seq<real>)
    requires Picks(at, a, b) && AfterTwoRises(time, b)
    ensures AfterTwoRises(time, a)
  {
    forall h, g, i, j | 0 <= h < g < i < j < |a| ensures !FallsBelow(time, a, h, g, i, j) {
      assert !FallsBelow(time, b, at[h], at[g], at[i], at[j]);
    }
  }

  lemma TimesSuffice(rate: real, time: real, liquidity: real, ts: seq<real>, events: seq<Event>)
    requires liquidity >= 0.0 && AllInAt(time, ts, events)
    ensures IsRun(Start(rate, time, liquidity), events)
    ensures var l := Run(Start(rate, time, liquidity), events);
            && (NoneUndercuts(time, ts) ==> NeverDrops(l.changes))
            && (NeverBack(ts) && Spread(ts) && OnceAt(time, ts) ==> Alternates(BrokerTrades(l.trades)))
  {
    var l0 := Start(rate, time, liquidity);
    StartGrounded(rate, time, liquidity);
    hide Start, Run, IsRun, BrokerTrades, InTime, AllIn, PricedFromOne, AllSound, Spread, NeverBack, OnceAt, Picks,
      DecisionTimes, NoneUndercuts, NeverDrops, Alternates, SellsFromOne, SellsOut, SellsAtOne, Kept;
    AllInSound(rate, time, liquidity, events);
    AllInInTurn(rate, time, liquidity, events);
    var at := TradesPick(l0, events, time);
    var bt := BrokerTrades(Run(l0, events).trades);
    assert bt[0..] == bt;
    PickedTimes(time, at, Times(bt), ts);
  }

  // ----- runs that go wrong -----

  function AllInDecision(action: ActionType, price: real, t: real): Decision {
    Decision(1, action, 0, PENDING, t, None, None, Some(price), 0, "")
  }

  /** What is left of a sound balance by an all-in trade. */
  function Moved(rate: real, b: Balance, action: ActionType, price: real): Balance
    requires price != 0.0
  {
    var worth := AtStake(b, action);
    if action == BUY then Balance(b.commission, b.stock + worth / price, b.commission + worth * Abs(rate))
    else Balance(b.liquidity + worth, b.stock - worth / price, b.commission + worth * Abs(rate))
  }

  lemma MovedIs(rate: real, b: Balance, d: Decision)
    requires Sound(b) && d.amount.None? && d.action != WAIT && d.price.Some? && d.price.value > 0.0
    requires if d.action == BUY then !Spent(b) else b.stock > 0.0
    ensures b.Plus(Delta(rate, TradeOf(Filled(d, b)))) == Moved(rate, b, d.action, d.price.value)
  {
    AllInDelta(rate, b, d);
    assert TradeOf(Filled(d, b)).volume == AtStake(b, d.action) / d.price.value;
    hide Delta, Filled, TradeOf, Abs;
  }

  /** What decisions, one after the other, make of a ledger that starts with 100 and takes a commission of a tenth. */
  ghost predicate Reached(time: real, ds: seq<Decision>, l: Ledger) {
    var l0 := Start(0.1, time, 100.0);
    && IsRun(l0, Decides(ds)) && l == Run(l0, Decides(ds)) && l.rate == 0.1 && l.changes != []
    && forall d :: d in ds ==> AllInOrder(d)
  }

  lemma StartReached(time: real) returns (l: Ledger)
    ensures Reached(time, [], l) && BrokerTrades(l.trades) == [] && |l.changes| == 1
    ensures l.changes[0].timestamp == time && l.changes[0].consolidated == Balance(100.0, 0.0, 0.0)
  {
    l := Start(0.1, time, 100.0);
    StartGrounded(0.1, time, 100.0);
  }

  /** An all-in decision that passes on one balance and leaves the other. */
  predicate Moves(b: Balance, action: ActionType, price: real, b': Balance) {
    && action != WAIT && price >= 1.0 && Sound(b) && b' == Moved(0.1, b, action, price)
    && if action == BUY then !Spent(b) else b.stock > 0.0 && b.liquidity + b.stock * price >= b.commission
  }

  lemma MovePasses(l: Ledger, action: ActionType, price: real, t: real, b: Balance, b': Balance)
    requires l.rate == 0.1 && Covers(ChangeIndex(l), t) && BalanceAt(l, t) == b && Moves(b, action, price, b')
    ensures var d := AllInDecision(action, price, t);
            && AllInOrder(d) && Executable(l, d) && Execute(l, d).rate == 0.1
            && Execute(l, d).changes[..|l.changes|] == l.changes && |Execute(l, d).changes| == |l.changes| + 1
            && Execute(l, d).changes[|l.changes|].timestamp == t
            && Execute(l, d).changes[|l.changes|].consolidated == b'
            && |BrokerTrades(Execute(l, d).trades)| == |BrokerTrades(l.trades)| + 1
            && BrokerTrades(l.trades) <= BrokerTrades(Execute(l, d).trades)
            && BrokerTrades(Execute(l, d).trades)[|BrokerTrades(l.trades)|].action == action
  {
    var d := AllInDecision(action, price, t);
    AllInPasses(b, d);
    MovedIs(l.rate, b, d);
    var f := Filled(d, b);
    assert TradeOf(f).decisionId == 1 && TradeOf(f).action == action && TradeOf(f).timestamp == t;
    hide BalanceAt, ChangeIndex, Covers, BrokerTrades, Delta, Filled, Accepts, TradeOf, Moved;
    ExecuteIs(l, d);
    BrokerTradesAppend(l.trades, TradeOf(f));
  }

  /** One more decision that passes. */
  lemma ReachMore(time: real, ds: seq<Decision>, l: Ledger, action: ActionType, price: real, t: real, k: nat, b': Balance)
    returns (l': Ledger)
    requires Reached(time, ds, l) && Found(Stamps(l.changes), t, k) && k < |l.changes|
    requires Moves(l.changes[k].consolidated, action, price, b')
    ensures Reached(time, ds + [AllInDecision(action, price, t)], l')
    ensures Stamps(l'.changes) == Stamps(l.changes) + [t] && |l'.changes| == |l.changes| + 1
    ensures l'.changes[..|l.changes|] == l.changes && l'.changes[|l.changes|].consolidated == b'
    ensures |BrokerTrades(l'.trades)| == |BrokerTrades(l.trades)| + 1 && BrokerTrades(l.trades) <= BrokerTrades(l'.trades)
    ensures BrokerTrades(l'.trades)[|BrokerTrades(l.trades)|].action == action
  {
    var d := AllInDecision(action, price, t);
    BaseIs(l, t, k);
    hide BalanceAt, ChangeIndex, Covers, BrokerTrades, Found, Start, IsRun, Run, Decides, Execute, Executable, Moves,
      AllInOrder, AllInDecision;
    MovePasses(l, action, price, t, l.changes[k].consolidated, b');
    l' := Execute(l, d);
    DecideMore(Start(0.1, time, 100.0), ds, d);
  }

  lemma DecideMore(l: Ledger, ds: seq<Decision>, d: Decision)
    requires IsRun(l, Decides(ds)) && Executable(Run(l, Decides(ds)), d)
    ensures IsRun(l, Decides(ds + [d])) && Run(l, Decides(ds + [d])) == Execute(Run(l, Decides(ds)), d)
  {
    hide Execute, Executable;
    RunsConcat(l, Decides(ds), [Decide(d)]);
    assert Decides(ds + [d]) == Decides(ds) + [Decide(d)];
  }

  function Buy(price: real, t: real): Decision {
    AllInDecision(BUY, price, t)
  }

  function Sell(price: real, t: real): Decision {
    AllInDecision(SELL, price, t)
  }

  /** The balances after a BUY, a SELL that leaves something of both, and one more BUY. */
  function Usual(n: nat): Balance {
    if n == 0 then Balance(100.0, 0.0, 0.0)
    else if n == 1 then Balance(0.0, 100.0, 10.0)
    else if n == 2 then Balance(100.0, 50.0, 20.0)
    else Balance(20.0, 130.0, 28.0)
  }

  lemma UsualMoves()
    ensures Moves(Usual(0), BUY, 1.0, Usual(1)) && Moves(Usual(1), SELL, 2.0, Usual(2))
    ensures Moves(Usual(2), BUY, 1.0, Usual(3))
  {
  }

  lemma UsualStart()
    ensures Usual(0) == Balance(100.0, 0.0, 0.0)
    ensures Usual(1).commission < Usual(2).commission < Usual(3).commission
    ensures 10.1 < Usual(2).commission
  {
  }

  /** A move with less commission after it than after the usual three. */
  lemma CheapMove(k: nat) returns (action: ActionType, b: Balance)
    requires k < 3
    ensures Moves(Usual(k), action, 1.0, b) && b.commission < Usual(3).commission
  {
    action := if k == 0 then BUY else SELL;
    b := Moved(0.1, Usual(k), action, 1.0);
  }

  lemma OtherMoves()
    ensures Moves(Usual(0), BUY, 100.0, Balance(0.0, 1.0, 10.0))
    ensures Moves(Balance(0.0, 1.0, 10.0), SELL, 100.0, Balance(1.0, 0.99, 10.1))
  {
  }

  ghost predicate AsUsual(ks: seq<real>, l: Ledger) {
    Stamps(l.changes) == ks && forall n :: 0 <= n < |l.changes| ==> l.changes[n].consolidated == Usual(n)
  }

  lemma OneBuy(time: real, t1: real) returns (l: Ledger)
    requires time <= t1
    ensures Reached(time, [Buy(1.0, t1)], l) && AsUsual([time, t1], l)
    ensures |BrokerTrades(l.trades)| == 1 && BrokerTrades(l.trades)[0].action == BUY
  {
    UsualMoves();
    var l0 := StartReached(time);
    hide Reached, Moves, BrokerTrades;
    l := ReachMore(time, [], l0, BUY, 1.0, t1, 0, Usual(1));
    assert [] + [Buy(1.0, t1)] == [Buy(1.0, t1)];
  }

  lemma FoundInTwo(time: real, t1: real, t: real)
    requires time <= t1 && time <= t
    ensures Found([time], t1, 0)
    ensures t < t1 || t == time ==> Found([time, t1], t, 0)
    ensures t1 <= t && time < t ==> Found([time, t1], t, 1)
  {
  }

  lemma FoundInThree(time: real, t1: real, t2: real, t: real)
    requires time <= t1 && time <= t2 && time <= t
    ensures t1 <= t2 && (t < t1 || t == time) ==> Found([time, t1, t2], t, 0)
    ensures t1 <= t2 <= t && t1 < t && time < t2 ==> Found([time, t1, t2], t, 2)
    ensures t2 <= t < t1 && time < t ==> Found([time, t1, t2], t, 2)
  {
  }

  lemma FoundInFour(time: real, t1: real, t2: real, t3: real, t: real)
    requires time <= t1 && time <= t2
    ensures t1 < t2 == t3 == t ==> Found([time, t1, t2, t3], t, 2)
    ensures t2 <= t3 < t1 <= t ==> Found([time, t1, t2, t3], t, 1)
  {
  }

  lemma FoundBelow(time: real, t1: real, t2: real, t3: real, t: real) returns (k: nat)
    requires time <= t1 <= t2 <= t3 && time <= t && (t < t3 || t == t3 == t2)
    ensures k < 3 && Found([time, t1, t2, t3], t, k)
  {
    var ks := [time, t1, t2, t3];
    k := Base(ks, t);
    assert ks[0] <= t && ks[2] == t2 && ks[3] == t3;
    hide Base;
  }

  /** Two BUYs without a SELL between them: the second comes at an earlier time, or both at that of the first
      balance, so both look up the first balance. */
  lemma TwoBuys(time: real, t1: real, t2: real) returns (l: Ledger)
    requires time <= t2 && (t2 < t1 || t1 == t2 == time)
    ensures Reached(time, [Buy(1.0, t1), Buy(1.0, t2)], l) && !Alternates(BrokerTrades(l.trades))
  {
    hide Reached, Moves, BrokerTrades, Usual, Found, Base;
    UsualMoves();
    FoundInTwo(time, t1, t2);
    var l1 := OneBuy(time, t1);
    l := ReachMore(time, [Buy(1.0, t1)], l1, BUY, 1.0, t2, 0, Usual(1));
    assert [Buy(1.0, t1)] + [Buy(1.0, t2)] == [Buy(1.0, t1), Buy(1.0, t2)];
    assert BrokerTrades(l.trades)[0].action == BrokerTrades(l.trades)[1].action == BUY;
  }

  lemma BuyAndSell(time: real, t1: real, t2: real) returns (l: Ledger)
    requires time <= t1 <= t2 && time < t2
    ensures Reached(time, [Buy(1.0, t1), Sell(2.0, t2)], l) && AsUsual([time, t1, t2], l)
    ensures |BrokerTrades(l.trades)| == 2
  {
    hide Reached, Moves, BrokerTrades, Usual, Found, Base;
    UsualMoves();
    FoundInTwo(time, t1, t2);
    var l1 := OneBuy(time, t1);
    l := ReachMore(time, [Buy(1.0, t1)], l1, SELL, 2.0, t2, 1, Usual(2));
    assert [Buy(1.0, t1)] + [Sell(2.0, t2)] == [Buy(1.0, t1), Sell(2.0, t2)];
  }

  /** After a BUY and a SELL, a BUY at a time that finds the first balance owes less commission than the SELL. */
  lemma BelowRise(time: real, t1: real, t2: real, t3: real) returns (l: Ledger)
    requires time <= t1 <= t2 && time < t2 && time <= t3 && (t3 < t1 || t3 == time)
    ensures Reached(time, [Buy(1.0, t1), Sell(2.0, t2), Buy(1.0, t3)], l) && !NeverDrops(l.changes)
  {
    hide Reached, Moves, BrokerTrades, Usual, Found, Base;
    UsualStart();
    UsualMoves();
    FoundInThree(time, t1, t2, t3);
    var l2 := BuyAndSell(time, t1, t2);
    l := ReachMore(time, [Buy(1.0, t1), Sell(2.0, t2)], l2, BUY, 1.0, t3, 0, Usual(1));
    assert [Buy(1.0, t1), Sell(2.0, t2)] + [Buy(1.0, t3)] == [Buy(1.0, t1), Sell(2.0, t2), Buy(1.0, t3)];
    assert l.changes[2].consolidated.commission > l.changes[3].consolidated.commission;
  }

  lemma ThreeTrades(time: real, t1: real, t2: real, t3: real) returns (l: Ledger)
    requires time <= t1 <= t2 <= t3 && t1 < t3 && time < t2
    ensures Reached(time, [Buy(1.0, t1), Sell(2.0, t2), Buy(1.0, t3)], l) && AsUsual([time, t1, t2, t3], l)
    ensures |BrokerTrades(l.trades)| == 3 && BrokerTrades(l.trades)[2].action == BUY
  {
    hide Reached, Moves, BrokerTrades, Usual, Found, Base;
    UsualMoves();
    FoundInThree(time, t1, t2, t3);
    var l2 := BuyAndSell(time, t1, t2);
    l := ReachMore(time, [Buy(1.0, t1), Sell(2.0, t2)], l2, BUY, 1.0, t3, 2, Usual(3));
    assert [Buy(1.0, t1), Sell(2.0, t2)] + [Buy(1.0, t3)] == [Buy(1.0, t1), Sell(2.0, t2), Buy(1.0, t3)];
  }

  /** A third trade at one time builds on the first of them again. */
  lemma TwoBuysTied(time: real, t1: real, t: real) returns (l: Ledger)
    requires time <= t1 < t
    ensures Reached(time, [Buy(1.0, t1), Sell(2.0, t), Buy(1.0, t), Buy(1.0, t)], l)
    ensures !Alternates(BrokerTrades(l.trades))
  {
    hide Reached, Moves, BrokerTrades, Usual, Found, Base;
    UsualMoves();
    FoundInFour(time, t1, t, t, t);
    var ds := [Buy(1.0, t1), Sell(2.0, t), Buy(1.0, t)];
    var l3 := ThreeTrades(time, t1, t, t);
    l := ReachMore(time, ds, l3, BUY, 1.0, t, 2, Usual(3));
    assert ds + [Buy(1.0, t)] == [Buy(1.0, t1), Sell(2.0, t), Buy(1.0, t), Buy(1.0, t)];
    assert BrokerTrades(l.trades)[2].action == BrokerTrades(l.trades)[3].action == BUY;
  }

  /** After a BUY, a SELL and a BUY, a trade that does not find the last change owes less commission. */
  lemma BelowTwoRises(time: real, t1: real, t2: real, t3: real, t4: real) returns (last: ActionType, l: Ledger)
    requires time <= t1 <= t2 <= t3 && t1 < t3 && time < t2 && time <= t4 && (t4 < t3 || t4 == t3 == t2)
    ensures Reached(time, [Buy(1.0, t1), Sell(2.0, t2), Buy(1.0, t3), AllInDecision(last, 1.0, t4)], l)
    ensures !NeverDrops(l.changes)
  {
    hide Reached, Moves, BrokerTrades, Usual, Found, Base;
    UsualMoves();
    var k := FoundBelow(time, t1, t2, t3, t4);
    var ds := [Buy(1.0, t1), Sell(2.0, t2), Buy(1.0, t3)];
    var l3 := ThreeTrades(time, t1, t2, t3);
    var b: Balance;
    last, b := CheapMove(k);
    l := ReachMore(time, ds, l3, last, 1.0, t4, k, b);
    assert ds + [AllInDecision(last, 1.0, t4)] ==
           [Buy(1.0, t1), Sell(2.0, t2), Buy(1.0, t3), AllInDecision(last, 1.0, t4)];
    assert l.changes[3].consolidated.commission > l.changes[4].consolidated.commission;
  }

  /** Two BUYs on the first balance, of which the second gets more stock: a SELL on the first owes less commission
      than the SELL before it on the second. */
  lemma BelowDip(time: real, t1: real, t2: real, t3: real, t4: real) returns (l: Ledger)
    requires time <= t2 <= t3 < t1 <= t4 && time < t3
    ensures Reached(time, [Buy(100.0, t1), Buy(1.0, t2), Sell(2.0, t3), Sell(100.0, t4)], l)
    ensures !NeverDrops(l.changes)
  {
    hide Reached, Moves, BrokerTrades, Usual, Found, Base;
    UsualStart();
    UsualMoves();
    OtherMoves();
    FoundInTwo(time, t1, t2);
    FoundInThree(time, t1, t2, t3);
    FoundInFour(time, t1, t2, t3, t4);
    var few, last := Balance(0.0, 1.0, 10.0), Balance(1.0, 0.99, 10.1);
    var l0 := StartReached(time);
    var ds1 := [Buy(100.0, t1)];
    assert [] + [Buy(100.0, t1)] == ds1 && Stamps(l0.changes) == [time];
    var l1 := ReachMore(time, [], l0, BUY, 100.0, t1, 0, few);
    var ds2 := [Buy(100.0, t1), Buy(1.0, t2)];
    assert ds1 + [Buy(1.0, t2)] == ds2 && [time] + [t1] == [time, t1];
    var l2 := ReachMore(time, ds1, l1, BUY, 1.0, t2, 0, Usual(1));
    var ds3 := [Buy(100.0, t1), Buy(1.0, t2), Sell(2.0, t3)];
    assert ds2 + [Sell(2.0, t3)] == ds3 && [time, t1] + [t2] == [time, t1, t2];
    var l3 := ReachMore(time, ds2, l2, SELL, 2.0, t3, 2, Usual(2));
    assert [time, t1, t2] + [t3] == [time, t1, t2, t3];
    l := ReachMore(time, ds3, l3, SELL, 100.0, t4, 1, last);
    assert ds3 + [Sell(100.0, t4)] == [Buy(100.0, t1), Buy(1.0, t2), Sell(2.0, t3), Sell(100.0, t4)];
    assert l.changes[3].consolidated.commission > l.changes[4].consolidated.commission;
  }

  // ----- runs with given decisions at given times -----

  /** Decisions to wait. */
  function Waits(ts: seq<real>): seq<Event> {
    seq(|ts|, i requires 0 <= i < |ts| => Decide(Decision(1, WAIT, 0, PENDING, ts[i], None, None, None, 0, "")))
  }

  /** Some decisions at their places in a list of times. */
  ghost predicate Placed(ts: seq<real>, from: nat, at: seq<nat>, ds: seq<Decision>) {
    && from <= |ts| && |at| == |ds|
    && (forall i :: 0 <= i < |at| ==> from <= at[i] < |ts| && ds[i].timestamp == ts[at[i]])
    && (forall i, j :: 0 <= i < j < |at| ==> at[i] < at[j])
  }

  ghost function Script(ts: seq<real>, from: nat, at: seq<nat>, ds: seq<Decision>): seq<Event>
    requires Placed(ts, from, at, ds)
    decreases |at|
  {
    if at == [] then Waits(ts[from..])
    else Waits(ts[from..at[0]]) + ([Decide(ds[0])] + Script(ts, at[0] + 1, at[1..], ds[1..]))
  }

  function Decides(ds: seq<Decision>): seq<Event> {
    seq(|ds|, i requires 0 <= i < |ds| => Decide(ds[i]))
  }

  predicate AllInOrder(d: Decision) {
    d.id != 0 && d.action != WAIT && d.amount.None? && d.price.Some? && d.price.value >= 1.0
  }

  lemma DecisionTimesFirst(ev: Event, events: seq<Event>)
    ensures DecisionTimes([ev] + events) ==
            (if ev.Decide? then [ev.decision.timestamp] else []) + DecisionTimes(events)
  {
    assert ([ev] + events)[1..] == events;
  }

  lemma TimesAssociate(a: seq<real>, b: seq<real>, c: seq<real>)
    ensures a + b + c == a + (b + c)
  {
  }

  lemma {:induction false} DecisionTimesConcat(a: seq<Event>, b: seq<Event>)
    ensures DecisionTimes(a + b) == DecisionTimes(a) + DecisionTimes(b)
    decreases |a|
  {
    if a == [] {
      assert a + b == b;
    } else {
      DecisionTimesFirst(a[0], a[1..]);
      DecisionTimesFirst(a[0], a[1..] + b);
      assert a == [a[0]] + a[1..] && a + b == [a[0]] + (a[1..] + b);
      DecisionTimesConcat(a[1..], b);
      hide DecisionTimes;
      TimesAssociate(if a[0].Decide? then [a[0].decision.timestamp] else [], DecisionTimes(a[1..]), DecisionTimes(b));
    }
  }

  lemma {:induction false} WaitsTimes(ts: seq<real>)
    ensures DecisionTimes(Waits(ts)) == ts
    decreases |ts|
  {
    if ts != [] {
      assert Waits(ts)[1..] == Waits(ts[1..]);
      WaitsTimes(ts[1..]);
    }
  }

  lemma PlacedFirst(ts: seq<real>, from: nat, at: seq<nat>, ds: seq<Decision>)
    requires Placed(ts, from, at, ds) && at != []
    ensures from <= at[0] < |ts| && Placed(ts, at[0] + 1, at[1..], ds[1..])
    ensures ts[from..] == ts[from..at[0]] + ([ds[0].timestamp] + ts[at[0] + 1..])
  {
  }

  lemma TimesAround(before: seq<Event>, d: Decision, after: seq<Event>)
    ensures DecisionTimes(before + ([Decide(d)] + after)) ==
            DecisionTimes(before) + ([d.timestamp] + DecisionTimes(after))
  {
    DecisionTimesConcat(before, [Decide(d)] + after);
    DecisionTimesFirst(Decide(d), after);
  }

  lemma {:induction false} ScriptTimes(ts: seq<real>, from: nat, at: seq<nat>, ds: seq<Decision>)
    requires Placed(ts, from, at, ds)
    ensures DecisionTimes(Script(ts, from, at, ds)) == ts[from..]
    decreases |at|
  {
    if at == [] {
      WaitsTimes(ts[from..]);
    } else {
      PlacedFirst(ts, from, at, ds);
      hide Placed, DecisionTimes, Waits;
      var k := at[0];
      var rest := Script(ts, k + 1, at[1..], ds[1..]);
      ScriptTimes(ts, k + 1, at[1..], ds[1..]);
      WaitsTimes(ts[from..k]);
      TimesAround(Waits(ts[from..k]), ds[0], rest);
    }
  }

  lemma {:induction false} ScriptMembers(ts: seq<real>, from: nat, at: seq<nat>, ds: seq<Decision>, ev: Event)
    requires Placed(ts, from, at, ds) && ev in Script(ts, from, at, ds)
    ensures ev.Decide? && (ev.decision in ds || (ev.decision.timestamp in ts &&
              ev.decision == Decision(1, WAIT, 0, PENDING, ev.decision.timestamp, None, None, None, 0, "")))
    decreases |at|
  {
    if at != [] && ev !in Waits(ts[from..at[0]]) && ev != Decide(ds[0]) {
      ScriptMembers(ts, at[0] + 1, at[1..], ds[1..], ev);
    }
  }

  lemma ScriptIsAllIn(time: real, ts: seq<real>, at: seq<nat>, ds: seq<Decision>)
    requires Placed(ts, 0, at, ds) && (forall d :: d in ds ==> AllInOrder(d)) && NotBefore(time, ts)
    ensures AllInAt(time, ts, Script(ts, 0, at, ds))
  {
    ScriptTimes(ts, 0, at, ds);
    assert ts[0..] == ts;
    forall ev | ev in Script(ts, 0, at, ds)
      ensures ev.Decide? && time <= ev.decision.timestamp && ev.decision.id != 0 && ev.decision.amount.None?
      ensures ev.decision.action == WAIT || AllInOrder(ev.decision)
    {
      ScriptMembers(ts, 0, at, ds, ev);
      if ev.decision in ds {
        var i :| 0 <= i < |ds| && ds[i] == ev.decision;
        assert ts[at[i]] in ts;
      }
    }
  }

  lemma {:induction false} RunsConcat(l: Ledger, a: seq<Event>, b: seq<Event>)
    requires IsRun(l, a) && IsRun(Run(l, a), b)
    ensures IsRun(l, a + b) && Run(l, a + b) == Run(Run(l, a), b)
    decreases |a|
  {
    hide Execute, Executable;
    if a == [] {
      assert a + b == b;
    } else {
      assert (a + b)[1..] == a[1..] + b;
      match a[0]
      case Market(t) => RunsConcat(l.(trades := l.trades + [t]), a[1..], b);
      case Decide(d) => RunsConcat(Execute(l, d), a[1..], b);
    }
  }

  lemma {:induction false} WaitsRun(l: Ledger, ts: seq<real>)
    ensures IsRun(l, Waits(ts)) && Run(l, Waits(ts)) == l
    decreases |ts|
  {
    if ts != [] {
      assert Waits(ts)[1..] == Waits(ts[1..]);
      WaitsRun(l, ts[1..]);
    }
  }

  /** Waiting in between makes no difference. */
  lemma {:induction false} ScriptRuns(l: Ledger, ts: seq<real>, from: nat, at: seq<nat>, ds: seq<Decision>)
    requires Placed(ts, from, at, ds) && IsRun(l, Decides(ds))
    ensures IsRun(l, Script(ts, from, at, ds)) && Run(l, Script(ts, from, at, ds)) == Run(l, Decides(ds))
    decreases |at|
  {
    hide Execute, Executable;
    if at == [] {
      WaitsRun(l, ts[from..]);
    } else {
      assert Decides(ds)[0] == Decide(ds[0]) && Decides(ds)[1..] == Decides(ds[1..]);
      var rest := Script(ts, at[0] + 1, at[1..], ds[1..]);
      ScriptRuns(Execute(l, ds[0]), ts, at[0] + 1, at[1..], ds[1..]);
      WaitsRun(l, ts[from..at[0]]);
      assert ([Decide(ds[0])] + rest)[1..] == rest;
      RunsConcat(l, Waits(ts[from..at[0]]), [Decide(ds[0])] + rest);
    }
  }

  lemma Refutes(time: real, ts: seq<real>, at: seq<nat>, ds: seq<Decision>, l: Ledger)
    requires NotBefore(time, ts) && Placed(ts, 0, at, ds) && Reached(time, ds, l)
    ensures !Alternates(BrokerTrades(l.trades)) ==> !AlwaysAlternates(time, ts)
    ensures !NeverDrops(l.changes) ==> !AlwaysNeverDrops(time, ts)
  {
    hide Script, Placed, IsRun, Run, Start, BrokerTrades, Alternates, NeverDrops, AllInAt, AllInOrder, Decides;
    ScriptIsAllIn(time, ts, at, ds);
    ScriptRuns(Start(0.1, time, 100.0), ts, 0, at, ds);
    var events := Script(ts, 0, at, ds);
    assert AllInAt(time, ts, events) && IsRun(Start(0.1, time, 100.0), events);
  }

  lemma RefutesFour(time: real, ts: seq<real>, at: seq<nat>, ds: seq<Decision>, l: Ledger)
    requires NotBefore(time, ts) && Reached(time, ds, l) && |at| == |ds| == 4
    requires 0 <= at[0] < at[1] < at[2] < at[3] < |ts| && forall i :: 0 <= i < 4 ==> ds[i].timestamp == ts[at[i]]
    ensures !Alternates(BrokerTrades(l.trades)) ==> !AlwaysAlternates(time, ts)
    ensures !NeverDrops(l.changes) ==> !AlwaysNeverDrops(time, ts)
  {
    hide Alternates, AlwaysAlternates, NeverDrops, AlwaysNeverDrops, BrokerTrades, Reached;
    Refutes(time, ts, at, ds, l);
  }

  lemma AlwaysInTurn(time: real, ts: seq<real>)
    ensures NoneUndercuts(time, ts) ==> AlwaysNeverDrops(time, ts)
    ensures NeverBack(ts) && Spread(ts) && OnceAt(time, ts) ==> AlwaysAlternates(time, ts)
  {
    hide NeverBack, Spread, OnceAt, NoneUndercuts, AllInAt, Start, IsRun, Run, BrokerTrades, NeverDrops, Alternates;
    forall rate, liquidity, events
      | liquidity >= 0.0 && AllInAt(time, ts, events) && IsRun(Start(rate, time, liquidity), events)
      ensures var l := Run(Start(rate, time, liquidity), events);
              && (NoneUndercuts(time, ts) ==> NeverDrops(l.changes))
              && (NeverBack(ts) && Spread(ts) && OnceAt(time, ts) ==> Alternates(BrokerTrades(l.trades)))
    {
      TimesSuffice(rate, time, liquidity, ts, events);
    }
  }

  lemma TwoBuysAt(time: real, ts: seq<real>, i: nat, j: nat)
    requires NotBefore(time, ts) && i < j < |ts| && (ts[j] < ts[i] || ts[i] == ts[j] == time)
    ensures !AlwaysAlternates(time, ts)
  {
    var l := TwoBuys(time, ts[i], ts[j]);
    hide Reached, Alternates, AlwaysAlternates, BrokerTrades;
    Refutes(time, ts, [i, j], [Buy(1.0, ts[i]), Buy(1.0, ts[j])], l);
  }

  lemma SometimesTwoBuys(time: real, ts: seq<real>)
    requires NotBefore(time, ts) && !(NeverBack(ts) && Spread(ts) && OnceAt(time, ts))
    ensures !AlwaysAlternates(time, ts)
  {
    hide AlwaysAlternates, Alternates, Reached, BrokerTrades, Placed;
    if !NeverBack(ts) {
      var i, j :| 0 <= i < j < |ts| && ts[j] < ts[i];
      TwoBuysAt(time, ts, i, j);
    } else if !OnceAt(time, ts) {
      var i, j :| 0 <= i < j < |ts| && ts[i] == ts[j] == time;
      TwoBuysAt(time, ts, i, j);
    } else {
      hide OnceAt, NeverBack;
      var h, i, j, k :| 0 <= h < i < j < k < |ts| && ts[h] < ts[i] == ts[j] == ts[k];
      var t := ts[k];
      var l := TwoBuysTied(time, ts[h], t);
      RefutesFour(time, ts, [h, i, j, k], [Buy(1.0, ts[h]), Sell(2.0, t), Buy(1.0, t), Buy(1.0, t)], l);
    }
  }

  /** At which times do BUYs and SELLs alternate on all runs of decisions at those times, whichever of them pass?
      Exactly if the times do not step back, none comes three times after an earlier one, and that of the first
      balance does not come twice. */
  lemma AlternationExactly(time: real, ts: seq<real>)
    requires NotBefore(time, ts)
    ensures AlwaysAlternates(time, ts) <==> NeverBack(ts) && Spread(ts) && OnceAt(time, ts)
  {
    hide AlwaysAlternates, NeverBack, Spread, OnceAt, NotBefore;
    AlwaysInTurn(time, ts);
    if !(NeverBack(ts) && Spread(ts) && OnceAt(time, ts)) {
      SometimesTwoBuys(time, ts);
    }
  }

  lemma SometimesBelowRise(time: real, ts: seq<real>)
    requires NotBefore(time, ts) && !AfterRise(time, ts)
    ensures !AlwaysNeverDrops(time, ts)
  {
    hide AlwaysNeverDrops, NeverDrops, Reached;
    var h, i, j :| 0 <= h < i < j < |ts| && ts[h] <= ts[i] && time < ts[i] && !(ts[h] <= ts[j] && time < ts[j]);
    var l := BelowRise(time, ts[h], ts[i], ts[j]);
    Refutes(time, ts, [h, i, j], [Buy(1.0, ts[h]), Sell(2.0, ts[i]), Buy(1.0, ts[j])], l);
  }

  lemma SometimesBelowDip(time: real, ts: seq<real>)
    requires NotBefore(time, ts) && !AfterDip(time, ts)
    ensures !AlwaysNeverDrops(time, ts)
  {
    hide AlwaysNeverDrops, NeverDrops, Reached, Placed;
    var h, g, i, j :| 0 <= h < g < i < j < |ts| && ts[g] <= ts[i] < ts[h] && time < ts[i] && ts[j] >= ts[h];
    var l := BelowDip(time, ts[h], ts[g], ts[i], ts[j]);
    RefutesFour(time, ts, [h, g, i, j],
                [Buy(100.0, ts[h]), Buy(1.0, ts[g]), Sell(2.0, ts[i]), Sell(100.0, ts[j])], l);
  }

  lemma SometimesBelowTwoRises(time: real, ts: seq<real>)
    requires NotBefore(time, ts) && !AfterTwoRises(time, ts)
    ensures !AlwaysNeverDrops(time, ts)
  {
    hide AlwaysNeverDrops, NeverDrops, Reached, Placed;
    var h, g, i, j :| 0 <= h < g < i < j < |ts| && FallsBelow(time, ts, h, g, i, j);
    var last, l := BelowTwoRises(time, ts[h], ts[g], ts[i], ts[j]);
    RefutesFour(time, ts, [h, g, i, j],
                [Buy(1.0, ts[h]), Sell(2.0, ts[g]), Buy(1.0, ts[i]), AllInDecision(last, 1.0, ts[j])], l);
  }

  /** At which times do commissions never decrease on any run of decisions at those times, whichever of them pass?
      Exactly if, after a rise, no time is before the one it rose from or that of the first balance; after a rise
      below an earlier time, none is from that one on; and after two rises, none is before the last or a third at
      the same time. */
  lemma CommissionExactly(time: real, ts: seq<real>)
    requires NotBefore(time, ts)
    ensures AlwaysNeverDrops(time, ts) <==> NoneUndercuts(time, ts)
  {
    hide AlwaysNeverDrops, AfterRise, AfterDip, AfterTwoRises, NotBefore;
    AlwaysInTurn(time, ts);
    if !AfterRise(time, ts) {
      SometimesBelowRise(time, ts);
    } else if !AfterDip(time, ts) {
      SometimesBelowDip(time, ts);
    } else if !AfterTwoRises(time, ts) {
      SometimesBelowTwoRises(time, ts);
    }
  }
}
