/** What becomes of the decisions of src/brokers/Broker.hpp: which of them pass, what a passed one changes, and
    what is logged. */
module DecisionRuns {
  import opened Options
  import opened Models
  import opened MemoryHistories
  import opened Ledgers

  // ----- which decisions pass -----

  /** A decision passes exactly when it has a price, the balance looked up has no debt, is worth the commission
      owed at that price, and the amount, be it set or computed from the balance, is positive. If it does not
      pass, no balance and no trade changes. */
  lemma PassesExactly(l: Ledger, d: Decision, time: real)
    requires Kept(l, time) && d.id != 0 && time <= d.timestamp && (d.action != WAIT ==> Defined(d))
    ensures Executable(l, d) && Covers(ChangeIndex(l), d.timestamp)
    ensures var l', b := Execute(l, d), BalanceAt(l, d.timestamp);
            var passes := && d.action != WAIT && d.price.Some?
                          && b.liquidity >= 0.0 && b.liquidity + b.stock * d.price.value >= b.commission
                          && (if d.amount.Some? then d.amount.value
                              else if d.action == BUY then (b.liquidity - b.commission) / d.price.value
                              else b.stock / d.price.value) > 0.0;
            && (passes ==> |l'.changes| == |l.changes| + 1 && |l'.trades| == |l.trades| + 1)
            && (!passes ==> l'.changes == l.changes && l'.trades == l.trades)
  {
    ExecuteKept(l, d, time);
    KeptCovers(l, time, d.timestamp);
    hide BalanceAt, Covers, ChangeIndex, Kept, Delta;
  }

  // ----- what a passed decision changes -----

  function Worth(t: Trade): real {
    t.volume * t.price
  }

  /** The share of a trade's worth that the broker takes. */
  function Fee(rate: real, t: Trade): real {
    if Worth(t) * rate >= 0.0 then Worth(t) * rate else -(Worth(t) * rate)
  }

  /** A change that a trade makes on a balance: a BUY takes the trade's worth from the liquidity and adds its
      volume to the stock, a SELL the other way round; the commission grows by its share of the worth. The balance
      could pay for it. */
  predicate Follows(rate: real, b: Balance, c: BalanceChange, t: Trade) {
    var delta := if t.action == BUY then Balance(-Worth(t), t.volume, Fee(rate, t))
                 else Balance(Worth(t), -t.volume, Fee(rate, t));
    && t.action != WAIT && t.volume > 0.0
    && b.liquidity >= 0.0 && b.liquidity + b.stock * t.price >= b.commission
    && c.originType == TRADE && c.originId == t.id && c.timestamp == t.timestamp && c.delta == Some(delta)
    && c.consolidated.liquidity == b.liquidity + delta.liquidity
    && c.consolidated.stock == b.stock + delta.stock
    && c.consolidated.commission == b.commission + delta.commission
  }

  /** Every change follows by its trade from the one it builds on. */
  ghost predicate Accounted(rate: real, cs: seq<BalanceChange>, bt: seq<Trade>) {
    |cs| == |bt| + 1 && forall i :: 0 < i < |cs| ==> AccountedAt(rate, cs, bt, i)
  }

  ghost predicate AccountedAt(rate: real, cs: seq<BalanceChange>, bt: seq<Trade>, i: nat)
    requires 0 < i < |cs| == |bt| + 1
  {
    Follows(rate, cs[Parent(Stamps(cs), i)].consolidated, cs[i], bt[i - 1])
  }

  lemma FeeIs(rate: real, t: Trade)
    ensures Commission(rate, t) == Fee(rate, t)
  {
    assert t.price * t.volume == t.volume * t.price;
  }

  lemma PassedFollows(l: Ledger, d: Decision, b: Balance)
    requires Defined(d) && d.id != 0 && d.action != WAIT && d.price.Some? && Accepts(Filled(d, b), b)
    ensures var l', t := Passed(l, d, Filled(d, b), b), TradeOf(Filled(d, b));
            && |l'.changes| == |l.changes| + 1 && l.changes <= l'.changes
            && BrokerTrades(l'.trades) == BrokerTrades(l.trades) + [t]
            && t.timestamp == d.timestamp && Follows(l.rate, b, l'.changes[|l.changes|], t)
  {
    var f := Filled(d, b);
    var t := TradeOf(f);
    assert f.price == d.price && f.action == d.action && f.timestamp == d.timestamp && f.id == d.id;
    BrokerTradesAppend(l.trades, t);
    assert b.liquidity >= 0.0 && b.liquidity + b.stock * t.price >= b.commission && t.volume > 0.0;
    hide Delta, BrokerTrades, Filled, Accepts, Follows;
    BookedFollows(l.rate, b, t);
  }

  lemma NegativeTimes(a: real, b: real)
    ensures -a * b == -(a * b)
  {
  }

  lemma DeltaIs(rate: real, t: Trade)
    requires t.action != WAIT
    ensures Delta(rate, t) == if t.action == BUY then Balance(-Worth(t), t.volume, Fee(rate, t))
                              else Balance(Worth(t), -t.volume, Fee(rate, t))
  {
    NegativeTimes(t.volume, t.price);
    FeeIs(rate, t);
    hide Commission, Fee;
  }

  lemma BookedFollows(rate: real, b: Balance, t: Trade)
    requires t.action != WAIT && t.volume > 0.0
    requires b.liquidity >= 0.0 && b.liquidity + b.stock * t.price >= b.commission
    ensures Follows(rate, b, BalanceChange(TRADE, t.id, Some(Delta(rate, t)), b.Plus(Delta(rate, t)), t.timestamp), t)
  {
    hide Delta, Worth, Fee;
    DeltaIs(rate, t);
  }

  lemma AccountedMore(rate: real, cs: seq<BalanceChange>, bt: seq<Trade>, c: BalanceChange, t: Trade)
    requires Accounted(rate, cs, bt)
    requires Follows(rate, cs[Base(Stamps(cs), c.timestamp)].consolidated, c, t)
    ensures Accounted(rate, cs + [c], bt + [t])
  {
    hide Follows, Base;
    var cs', bt' := cs + [c], bt + [t];
    forall i | 0 < i < |cs'| ensures AccountedAt(rate, cs', bt', i) {
      StampsUpTo(cs, cs', i);
      if i < |cs| {
        assert AccountedAt(rate, cs, bt, i);
      }
    }
  }

  lemma ExecuteAccounted(l: Ledger, d: Decision, time: real)
    requires Kept(l, time) && Executable(l, d) && d.id != 0 && time <= d.timestamp
    requires Accounted(l.rate, l.changes, BrokerTrades(l.trades))
    ensures Accounted(l.rate, Execute(l, d).changes, BrokerTrades(Execute(l, d).trades))
  {
    if d.action != WAIT && d.price.Some? {
      var k := Base(Stamps(l.changes), d.timestamp);
      assert Stamps(l.changes)[0] == l.changes[0].timestamp == time;
      BaseIs(l, d.timestamp, k);
      var b := BalanceAt(l, d.timestamp);
      hide Base, BalanceAt, ChangeIndex, Covers, Accounted, BrokerTrades, Follows, Dated, Filled, Accepts, Passed;
      ExecuteIs(l, d);
      if Accepts(Filled(d, b), b) {
        PassedFollows(l, d, b);
        var l' := Passed(l, d, Filled(d, b), b);
        var c := l'.changes[|l.changes|];
        assert l'.changes == l.changes + [c];
        assert c.timestamp == d.timestamp by { FollowsTime(l.rate, b, c, TradeOf(Filled(d, b))); }
        AccountedMore(l.rate, l.changes, BrokerTrades(l.trades), c, TradeOf(Filled(d, b)));
      }
    }
  }

  lemma FollowsTime(rate: real, b: Balance, c: BalanceChange, t: Trade)
    requires Follows(rate, b, c, t)
    ensures c.timestamp == t.timestamp
  {
  }

  lemma {:induction false} RunAccounted(l: Ledger, events: seq<Event>, time: real)
    requires Kept(l, time) && InTime(time, events) && IsRun(l, events)
    requires Accounted(l.rate, l.changes, BrokerTrades(l.trades))
    ensures Accounted(l.rate, Run(l, events).changes, BrokerTrades(Run(l, events).trades))
    decreases |events|
  {
    hide Dated, Accounted, Execute, Executable, BrokerTrades, Defined;
    if events != [] {
      RestInTime(time, events);
      match events[0]
      case Market(t) =>
        MarketKept(l, t);
        RunAccounted(l.(trades := l.trades + [t]), events[1..], time);
      case Decide(d) =>
        ExecuteKept(l, d, time);
        ExecuteAccounted(l, d, time);
        RunAccounted(Execute(l, d), events[1..], time);
    }
  }

  /** Over any run, whatever the times, prices and amounts: every change follows by one trade from the change that the
      lookup finds for it, and that one had no debt and was worth its commission. If the trades come in strict
      order, only the last balance can be in debt. */
  lemma EveryChangeFollows(rate: real, time: real, liquidity: real, events: seq<Event>)
    requires InTime(time, events)
    ensures IsRun(Start(rate, time, liquidity), events)
    ensures var l := Run(Start(rate, time, liquidity), events);
            var cs, bt := l.changes, BrokerTrades(l.trades);
            && cs != [] && cs[0] == BalanceChange(INIT, 0, None, Balance(liquidity, 0.0, 0.0), time)
            && Accounted(rate, cs, bt)
            && (InOrder(time, bt) ==> forall i :: 0 <= i < |cs| - 1 ==> cs[i].consolidated.liquidity >= 0.0)
  {
    var l0 := Start(rate, time, liquidity);
    assert Kept(l0, time) && Accounted(rate, l0.changes, BrokerTrades(l0.trades));
    assert l0.changes == [BalanceChange(INIT, 0, None, Balance(liquidity, 0.0, 0.0), time)];
    RunKept(l0, events, time);
    assert l0.changes <= Run(l0, events).changes;
    hide Start, Run, IsRun, BrokerTrades, Dated, Accounted;
    RunAccounted(l0, events, time);
    var l := Run(l0, events);
    if InOrder(time, BrokerTrades(l.trades)) {
      OnlyLast(rate, time, l.changes, BrokerTrades(l.trades));
    }
  }

  lemma OnlyLast(rate: real, time: real, cs: seq<BalanceChange>, bt: seq<Trade>)
    requires Accounted(rate, cs, bt) && Dated(time, cs, bt) && InOrder(time, bt)
    ensures forall i :: 0 <= i < |cs| - 1 ==> cs[i].consolidated.liquidity >= 0.0
  {
    forall i | 0 <= i < |cs| - 1 ensures cs[i].consolidated.liquidity >= 0.0 {
      assert AccountedAt(rate, cs, bt, i + 1);
      var ks := Stamps(cs);
      forall j | 0 <= j < i ensures ks[j] < ks[i] {
        assert j > 0 ==> ks[j] == bt[j - 1].timestamp;
        assert ks[i] == bt[i - 1].timestamp;
      }
      assert ks[i + 1] == bt[i].timestamp > ks[i];
      LastIsParent(ks, i + 1);
    }
  }

  lemma LastIsParent(ks: seq<real>, i: nat)
    requires 0 < i < |ks| && ks[i - 1] < ks[i] && forall j :: 0 <= j < i - 1 ==> ks[j] < ks[i - 1]
    ensures Parent(ks, i) == i - 1
  {
    var before := ks[..i];
    assert before[i - 1] <= ks[i];
    hide Base;
  }

  // ----- debt -----

  /** Once the balance at the latest time is in debt, no decision at a later time passes, and there is no way out. */
  lemma {:induction false} DebtIsFinal(l: Ledger, events: seq<Event>, time: real, k: nat)
    requires Kept(l, time) && InTime(time, events) && k < |l.changes| && l.changes[k].consolidated.liquidity < 0.0
    requires forall i :: 0 <= i < |l.changes| ==>
               l.changes[i].timestamp < l.changes[k].timestamp || (l.changes[i].timestamp == l.changes[k].timestamp && i <= k)
    requires forall ev :: ev in events && ev.Decide? ==> l.changes[k].timestamp < ev.decision.timestamp
    ensures IsRun(l, events) && Run(l, events).changes == l.changes
    decreases |events|
  {
    hide Dated, Execute, Executable, BrokerTrades, Defined;
    RunKept(l, events, time);
    if events != [] {
      RestInTime(time, events);
      assert forall ev :: ev in events[1..] ==> ev in events;
      match events[0]
      case Market(t) =>
        MarketKept(l, t);
        DebtIsFinal(l.(trades := l.trades + [t]), events[1..], time, k);
      case Decide(d) =>
        ExecuteKept(l, d, time);
        assert Found(Stamps(l.changes), d.timestamp, k);
        BaseIs(l, d.timestamp, k);
        hide Found, BalanceAt, Covers, ChangeIndex;
        PassesExactly(l, d, time);
        DebtIsFinal(Execute(l, d), events[1..], time, k);
    }
  }

  // ----- what is logged -----

  /** The decisions that are not to wait. */
  function Decided(events: seq<Event>): seq<Decision>
    decreases |events|
  {
    if events == [] then []
    else
      (if events[0].Decide? && events[0].decision.action != WAIT then [events[0].decision] else []) + Decided(events[1..])
  }

  /** What a decision becomes: passed or cancelled, with an amount if it had a price, otherwise the same. */
  predicate Settled(d: Decision, f: Decision) {
    && f.status != PENDING && f == d.(status := f.status, amount := f.amount)
    && (d.amount.Some? || d.price.None? ==> f.amount == d.amount)
    && (d.price.None? ==> f.status == CANCELLED) && (d.price.Some? ==> f.amount.Some?)
  }

  ghost predicate Logged(ds: seq<Decision>, log: seq<Decision>) {
    |log| == 2 * |ds| && forall i :: 0 <= i < |ds| ==> log[2 * i] == ds[i] && Settled(ds[i], log[2 * i + 1])
  }

  lemma ExecuteLogs(l: Ledger, d: Decision)
    requires Executable(l, d) && d.status == PENDING
    ensures var log := Execute(l, d).decisions;
            if d.action == WAIT then log == l.decisions
            else |log| == |l.decisions| + 2 && log == l.decisions + [d, log[|log| - 1]] && Settled(d, log[|log| - 1])
  {
    hide BalanceAt, Covers, ChangeIndex, Delta, Accepts;
  }

  lemma {:induction false} RunLogs(l: Ledger, events: seq<Event>)
    requires IsRun(l, events) && AllPending(events)
    ensures var log := Run(l, events).decisions;
            l.decisions <= log && Logged(Decided(events), log[|l.decisions|..])
    decreases |events|
  {
    hide Execute, Executable, Settled;
    if events != [] {
      var rest := events[1..];
      assert forall ev :: ev in rest ==> ev in events;
      match events[0]
      case Market(t) =>
        RunLogs(l.(trades := l.trades + [t]), rest);
      case Decide(d) =>
        assert d.status == PENDING;
        ExecuteLogs(l, d);
        RunLogs(Execute(l, d), rest);
        var l', log := Execute(l, d), Run(l, events).decisions;
        if d.action != WAIT {
          assert log[|l.decisions|..][..2] == [d, l'.decisions[|l'.decisions| - 1]];
          LoggedMore(d, l'.decisions[|l'.decisions| - 1], Decided(rest), log[|l'.decisions|..]);
          assert log[|l.decisions|..] == [d, l'.decisions[|l'.decisions| - 1]] + log[|l'.decisions|..];
        } else {
          assert [] + Decided(rest) == Decided(rest);
        }
    }
  }

  lemma LoggedMore(d: Decision, f: Decision, ds: seq<Decision>, log: seq<Decision>)
    requires Logged(ds, log) && Settled(d, f)
    ensures Logged([d] + ds, [d, f] + log)
  {
    hide Settled;
  }

  /** Every decision but those to wait is logged twice, in the order of their coming: as it came, and as it became. */
  lemma DecisionsLogged(rate: real, time: real, liquidity: real, events: seq<Event>)
    requires InTime(time, events) && AllPending(events)
    ensures IsRun(Start(rate, time, liquidity), events)
    ensures Logged(Decided(events), Run(Start(rate, time, liquidity), events).decisions)
  {
    var l0 := Start(rate, time, liquidity);
    RunKept(l0, events, time);
    hide Run, IsRun, Logged;
    RunLogs(l0, events);
    var log := Run(l0, events).decisions;
    assert log[0..] == log;
  }
}
