/** The ledger kept by src/brokers/Broker.hpp and src/brokers/PretendBroker.hpp in a MemoryHistory:
    every passed decision becomes a trade and a balance change whose consolidated balance is looked
    up in the very index it is then written to. */
module Ledgers {
  import opened Options
  import opened Models
  import opened Numbers
  import opened Multimaps
  import opened MemoryHistories

  /** The broker's commission rate and what its history has been fed. */
  datatype Ledger = Ledger(rate: real, changes: seq<BalanceChange>, trades: seq<Trade>, decisions: seq<Decision>)

  // ----- one decision -----

  ghost function ChangeIndex(l: Ledger): seq<Pair<BalanceChange>> {
    Index(ChangeEntries(l.changes))
  }

  ghost function BalanceAt(l: Ledger, t: real): Balance
    requires Covers(ChangeIndex(l), t)
  {
    ChangeIndex(l)[LookupIndex(ChangeIndex(l), t)].value.consolidated
  }

  /** The arithmetic of `validate` has a finite result: an unset amount is a division by the price. */
  predicate Defined(d: Decision) {
    d.price.Some? && d.amount.None? ==> d.price.value != 0.0
  }

  /** An unset amount means all in, as far as the original goes: a SELL divides the stock by the price. */
  function Filled(d: Decision, b: Balance): Decision
    requires d.price.Some? && Defined(d)
  {
    if d.amount.Some? then d
    else
      match d.action
      case BUY => d.(amount := Some((b.liquidity - b.commission) / d.price.value))
      case SELL => d.(amount := Some(b.stock / d.price.value))
      case WAIT => d.(amount := Some(0.0))
  }

  /** The answer of `validate`, for a decision whose amount is set. */
  predicate Accepts(d: Decision, b: Balance)
    requires d.price.Some? && d.amount.Some?
  {
    && !(b.liquidity < 0.0 || d.amount.value < 0.0 || b.liquidity + b.stock * d.price.value < b.commission)
    && d.amount.value != 0.0
  }

  function TradeOf(d: Decision): Trade
    requires d.price.Some? && d.amount.Some?
  {
    Trade(0, d.amount.value, d.price.value, d.action, d.timestamp, d.id, 0, 0)
  }

  function Commission(rate: real, t: Trade): real {
    Abs(t.price * t.volume * rate)
  }

  function Delta(rate: real, t: Trade): Balance
    requires t.action != WAIT
  {
    if t.action == BUY then Balance(-t.volume * t.price, t.volume, Commission(rate, t))
    else Balance(t.volume * t.price, -t.volume, Commission(rate, t))
  }

  function Recorded(ds: seq<Decision>, original: Decision, final: Decision): seq<Decision> {
    ds + (if original != final then [original] else []) + [final]
  }

  function Cancelled(l: Ledger, original: Decision, final: Decision): Ledger {
    l.(decisions := Recorded(l.decisions, original, final.(status := CANCELLED)))
  }

  /** One trade and the balance change it causes, given the balance before it. */
  function Booked(l: Ledger, t: Trade, b: Balance): Ledger
    requires t.action != WAIT
  {
    var delta := Delta(l.rate, t);
    l.(trades := l.trades + [t],
       changes := l.changes + [BalanceChange(TRADE, t.id, Some(delta), b.Plus(delta), t.timestamp)])
  }

  function Passed(l: Ledger, original: Decision, final: Decision, b: Balance): Ledger
    requires final.price.Some? && final.amount.Some? && final.action != WAIT
  {
    Booked(l, TradeOf(final), b).(decisions := Recorded(l.decisions, original, final.(status := PASSED)))
  }

  /** The lookups that a decision needs are defined. */
  ghost predicate CanLookUp(l: Ledger, d: Decision) {
    d.action != WAIT && d.price.Some? ==> Covers(ChangeIndex(l), d.timestamp)
  }

  ghost predicate Executable(l: Ledger, d: Decision) {
    CanLookUp(l, d) && (d.action != WAIT ==> Defined(d))
  }

  ghost function Execute(l: Ledger, d: Decision): Ledger
    requires Executable(l, d)
  {
    if d.action == WAIT then l
    else if d.price.None? then Cancelled(l, d, d)
    else
      var b := BalanceAt(l, d.timestamp);
      var f := Filled(d, b);
      if Accepts(f, b) then Passed(l, d, f, b) else Cancelled(l, d, f)
  }

  lemma ExecuteIs(l: Ledger, d: Decision)
    requires Executable(l, d) && d.action != WAIT && d.price.Some?
    ensures var b := BalanceAt(l, d.timestamp);
            var f := Filled(d, b);
            Execute(l, d) == if Accepts(f, b) then Passed(l, d, f, b) else Cancelled(l, d, f)
  {
  }

  /** Whatever a passed trade does, the worth of the account at the trade's price stays the same. */
  lemma TradeConserves(b: Balance, rate: real, t: Trade)
    requires t.action != WAIT
    ensures var b' := b.Plus(Delta(rate, t)); b'.liquidity + b'.stock * t.price == b.liquidity + b.stock * t.price
    ensures b.Plus(Delta(rate, t)).commission >= b.commission
  {
    var v := if t.action == BUY then t.volume else -t.volume;
    assert (b.stock + v) * t.price == b.stock * t.price + v * t.price;
  }

  /** A commission is never negative, it is zero only if nothing is charged for, and it does not
      matter whether a volume is traded at once or in two parts. */
  lemma CommissionAdds(rate: real, t: Trade, more: real)
    ensures Commission(rate, t) >= 0.0
    ensures Commission(rate, t) == 0.0 <==> rate == 0.0 || t.price == 0.0 || t.volume == 0.0
    ensures t.volume * more >= 0.0 ==>
              Commission(rate, t.(volume := t.volume + more)) ==
              Commission(rate, t) + Commission(rate, t.(volume := more))
  {
    var k := t.price * rate;
    RateFirst(t.price, t.volume, rate);
    RateFirst(t.price, more, rate);
    RateFirst(t.price, t.volume + more, rate);
    if t.volume * more >= 0.0 {
      AbsAdds(k, t.volume, more);
    }
  }

  lemma RateFirst(price: real, volume: real, rate: real)
    ensures price * volume * rate == price * rate * volume
    ensures price * volume * rate == 0.0 <==> rate == 0.0 || price == 0.0 || volume == 0.0
  {
    assert price * volume * rate == price * (volume * rate) == price * (rate * volume) == price * rate * volume;
  }

  lemma AbsAdds(k: real, a: real, b: real)
    requires a * b >= 0.0
    ensures Abs(k * (a + b)) == Abs(k * a) + Abs(k * b)
  {
    assert k * (a + b) == k * a + k * b;
    assert (a >= 0.0 && b >= 0.0) || (a <= 0.0 && b <= 0.0);
    SignOf(k, a);
    SignOf(k, b);
  }

  lemma SignOf(k: real, a: real)
    ensures k >= 0.0 && a >= 0.0 ==> k * a >= 0.0
    ensures k >= 0.0 && a <= 0.0 ==> k * a <= 0.0
    ensures k <= 0.0 && a >= 0.0 ==> k * a <= 0.0
    ensures k <= 0.0 && a <= 0.0 ==> k * a >= 0.0
  {
  }

  /** What sending a decision comes to: a BUY takes in its whole amount at its price, and sending the
      same decision as a SELL undoes it, except that each of the two pays its commission. */
  lemma SendSettles(rate: real, b: Balance, d: Decision)
    requires d.price.Some? && d.amount.Some? && d.action == BUY
    ensures var paid := Commission(rate, TradeOf(d));
            var bought := b.Plus(Delta(rate, TradeOf(d)));
            && bought.stock - b.stock == d.amount.value
            && bought.liquidity - b.liquidity == -d.amount.value * d.price.value
            && bought.commission - b.commission == paid
            && bought.Plus(Delta(rate, TradeOf(d.(action := SELL)))) == b.(commission := b.commission + paid + paid)
  {
  }

  // ----- runs -----

  /** Trades of the market are fed by a source; only the broker's carry a decision. */
  datatype Event = Market(trade: Trade) | Decide(decision: Decision)

  function Start(rate: real, time: real, liquidity: real): Ledger {
    Ledger(rate, [BalanceChange(INIT, 0, None, Balance(liquidity, 0.0, 0.0), time)], [], [])
  }

  /** Trades of the market carry no decision; decisions come at or after the time of the first balance,
      before which the original looks up a balance that is not there. */
  predicate InTime(time: real, events: seq<Event>) {
    forall ev :: ev in events ==>
      match ev
      case Market(t) => t.decisionId == 0
      case Decide(d) => d.id != 0 && time <= d.timestamp && (d.action != WAIT ==> Defined(d))
  }

  lemma RestInTime(time: real, events: seq<Event>)
    requires events != [] && InTime(time, events)
    ensures InTime(time, events[1..]) && events[0] in events
  {
    assert forall ev :: ev in events[1..] ==> ev in events;
  }

  ghost predicate IsRun(l: Ledger, events: seq<Event>)
    decreases |events|
  {
    if events == [] then true
    else match events[0]
      case Market(t) => IsRun(l.(trades := l.trades + [t]), events[1..])
      case Decide(d) => Executable(l, d) && IsRun(Execute(l, d), events[1..])
  }

  ghost function Run(l: Ledger, events: seq<Event>): Ledger
    requires IsRun(l, events)
    decreases |events|
  {
    if events == [] then l
    else match events[0]
      case Market(t) => Run(l.(trades := l.trades + [t]), events[1..])
      case Decide(d) => Run(Execute(l, d), events[1..])
  }

  /** The trades made by the broker, in feed order. */
  function BrokerTrades(ts: seq<Trade>): (r: seq<Trade>)
    ensures forall t :: t in r ==> t.decisionId != 0
  {
    if ts == [] then []
    else BrokerTrades(ts[..|ts| - 1]) + if ts[|ts| - 1].decisionId != 0 then [ts[|ts| - 1]] else []
  }

  function UpTo(ts: seq<Trade>, t: real): seq<Trade> {
    if ts == [] then []
    else UpTo(ts[..|ts| - 1], t) + if ts[|ts| - 1].timestamp <= t then [ts[|ts| - 1]] else []
  }

  /** What the account should hold: the starting balance and every trade applied to it. */
  function Replay(start: Balance, rate: real, ts: seq<Trade>): Balance
    requires forall t :: t in ts ==> t.action != WAIT
  {
    if ts == [] then start
    else Replay(start, rate, ts[..|ts| - 1]).Plus(Delta(rate, ts[|ts| - 1]))
  }

  // ----- what every run keeps -----

  /** There is one change per broker trade, at its time, after the first one. */
  ghost predicate Dated(time: real, cs: seq<BalanceChange>, bt: seq<Trade>) {
    && |cs| == |bt| + 1 && cs[0].timestamp == time
    && forall i :: 0 <= i < |bt| ==>
         && bt[i].action != WAIT && bt[i].volume > 0.0
         && time <= bt[i].timestamp == cs[i + 1].timestamp
  }

  ghost predicate Kept(l: Ledger, time: real) {
    Dated(time, l.changes, BrokerTrades(l.trades))
  }

  function Stamps(cs: seq<BalanceChange>): seq<real> {
    seq(|cs|, i requires 0 <= i < |cs| => cs[i].timestamp)
  }

  /** The balance after a change is looked up where the times of the changes, in the order of feeding, say. */
  lemma BaseIs(l: Ledger, t: real, k: nat)
    requires Found(Stamps(l.changes), t, k)
    ensures Covers(ChangeIndex(l), t) && BalanceAt(l, t) == l.changes[k].consolidated
  {
    LookupFinds(ChangeEntries(l.changes), t);
    assert Keys(ChangeEntries(l.changes)) == Stamps(l.changes);
    assert ChangeEntries(l.changes)[k].key <= t;
  }

  /** The change that change number `i` builds on, given the times of the changes in the order of feeding. */
  function Parent(ks: seq<real>, i: nat): (p: nat)
    requires 0 < i < |ks|
    ensures p < i
  {
    Base(ks[..i], ks[i])
  }

  lemma StampsUpTo(cs: seq<BalanceChange>, cs': seq<BalanceChange>, i: nat)
    requires cs <= cs' && i <= |cs|
    ensures Stamps(cs')[..i] == Stamps(cs)[..i] && (i == |cs| ==> Stamps(cs)[..i] == Stamps(cs))
  {
  }

  lemma KeptCovers(l: Ledger, time: real, t: real)
    requires Kept(l, time) && time <= t
    ensures Covers(ChangeIndex(l), t)
  {
    LookupFinds(ChangeEntries(l.changes), t);
    assert ChangeEntries(l.changes)[0].key <= t;
  }

  lemma BrokerTradesAppend(ts: seq<Trade>, t: Trade)
    ensures BrokerTrades(ts + [t]) == BrokerTrades(ts) + if t.decisionId != 0 then [t] else []
  {
    assert (ts + [t])[..|ts|] == ts;
  }

  lemma DatedMore(time: real, cs: seq<BalanceChange>, bt: seq<Trade>, c: BalanceChange, t: Trade)
    requires Dated(time, cs, bt)
    requires t.action != WAIT && t.volume > 0.0 && time <= t.timestamp == c.timestamp
    ensures Dated(time, cs + [c], bt + [t])
  {
  }

  lemma MarketKept(l: Ledger, t: Trade)
    requires t.decisionId == 0
    ensures BrokerTrades(l.trades + [t]) == BrokerTrades(l.trades)
  {
    BrokerTradesAppend(l.trades, t);
    assert BrokerTrades(l.trades) + [] == BrokerTrades(l.trades);
  }

  lemma PassedKept(l: Ledger, d: Decision, f: Decision, b: Balance, time: real)
    requires Kept(l, time) && f.price.Some? && f.amount.Some? && f.action != WAIT && f.id != 0
    requires f.amount.value > 0.0 && time <= f.timestamp
    ensures var l' := Passed(l, d, f, b); Kept(l', time) && l.changes <= l'.changes && l'.rate == l.rate
  {
    hide Dated, Delta, BrokerTrades;
    BrokerTradesAppend(l.trades, TradeOf(f));
    var l' := Passed(l, d, f, b);
    DatedMore(time, l.changes, BrokerTrades(l.trades), l'.changes[|l.changes|], TradeOf(f));
  }

  lemma KeptByTrades(l: Ledger, l': Ledger, time: real)
    requires Kept(l, time) && l'.changes == l.changes && l'.trades == l.trades
    ensures Kept(l', time)
  {
  }

  lemma ExecuteKept(l: Ledger, d: Decision, time: real)
    requires Kept(l, time) && d.id != 0 && time <= d.timestamp && (d.action != WAIT ==> Defined(d))
    ensures Executable(l, d)
    ensures var l' := Execute(l, d); Kept(l', time) && l.changes <= l'.changes && l'.rate == l.rate
  {
    KeptCovers(l, time, d.timestamp);
    hide Dated, Kept, Delta, BrokerTrades, ChangeIndex, BalanceAt, Covers, Passed;
    if d.action != WAIT && d.price.Some? {
      var b := BalanceAt(l, d.timestamp);
      var f := Filled(d, b);
      if Accepts(f, b) {
        PassedKept(l, d, f, b, time);
      } else {
        assert Execute(l, d) == Cancelled(l, d, f);
        KeptByTrades(l, Cancelled(l, d, f), time);
      }
    } else {
      KeptByTrades(l, Execute(l, d), time);
    }
  }

  lemma {:induction false} RunKept(l: Ledger, events: seq<Event>, time: real)
    requires Kept(l, time) && InTime(time, events)
    ensures IsRun(l, events)
    ensures var l' := Run(l, events); Kept(l', time) && l.changes <= l'.changes && l'.rate == l.rate
    decreases |events|
  {
    hide Dated, Execute, Executable, BrokerTrades, Defined;
    if events != [] {
      RestInTime(time, events);
      match events[0]
      case Market(t) =>
        MarketKept(l, t);
        RunKept(l.(trades := l.trades + [t]), events[1..], time);
      case Decide(d) =>
        ExecuteKept(l, d, time);
        RunKept(Execute(l, d), events[1..], time);
    }
  }

  /** The first events of a run are a run, and what comes later does not rewrite the changes. */
  lemma {:induction false} RunPrefix(l: Ledger, events: seq<Event>, k: nat, time: real)
    requires Kept(l, time) && InTime(time, events) && k <= |events|
    ensures IsRun(l, events) && IsRun(l, events[..k])
    ensures Run(l, events[..k]).changes <= Run(l, events).changes
    decreases |events|
  {
    RunKept(l, events, time);
    hide Dated, Execute, Executable, BrokerTrades, Defined;
    if k > 0 {
      RestInTime(time, events);
      assert events[..k][1..] == events[1..][..k - 1];
      match events[0]
      case Market(t) =>
        MarketKept(l, t);
        RunPrefix(l.(trades := l.trades + [t]), events[1..], k - 1, time);
      case Decide(d) =>
        ExecuteKept(l, d, time);
        RunPrefix(Execute(l, d), events[1..], k - 1, time);
    }
  }

  // ----- what runs in order keep -----

  ghost predicate Increasing(cs: seq<BalanceChange>) {
    forall i, j :: 0 <= i < j < |cs| ==> cs[i].timestamp < cs[j].timestamp
  }

  /** Each change follows from the one before by one broker trade of the same time. */
  ghost predicate Chained(rate: real, cs: seq<BalanceChange>, bt: seq<Trade>) {
    && |cs| == |bt| + 1
    && forall i :: 0 <= i < |bt| ==>
         && bt[i].action != WAIT
         && cs[i + 1].timestamp == bt[i].timestamp
         && cs[i + 1].consolidated == cs[i].consolidated.Plus(Delta(rate, bt[i]))
  }

  ghost predicate Inv(l: Ledger, start: Balance, time: real) {
    && Kept(l, time)
    && Chained(l.rate, l.changes, BrokerTrades(l.trades))
    && l.changes[0].consolidated == start
    && Increasing(l.changes)
  }

  /** A decision that leaves the changes in order builds on the last one. */
  lemma BuildsOnLast(l: Ledger, d: Decision, start: Balance, time: real)
    requires Inv(l, start, time) && Executable(l, d) && d.action != WAIT && d.price.Some?
    requires Increasing(Execute(l, d).changes)
    ensures var b := BalanceAt(l, d.timestamp);
            Accepts(Filled(d, b), b) ==>
              b == l.changes[|l.changes| - 1].consolidated && l.changes[|l.changes| - 1].timestamp < d.timestamp
  {
    var b := BalanceAt(l, d.timestamp);
    if Accepts(Filled(d, b), b) {
      var cs := Execute(l, d).changes;
      assert cs[|l.changes| - 1].timestamp < cs[|l.changes|].timestamp;
      hide BalanceAt, ChangeIndex, Covers;
      BaseIs(l, d.timestamp, |l.changes| - 1);
    }
  }

  lemma ChainedMore(rate: real, cs: seq<BalanceChange>, bt: seq<Trade>, c: BalanceChange, t: Trade)
    requires Chained(rate, cs, bt) && t.action != WAIT && c.timestamp == t.timestamp
    requires c.consolidated == cs[|bt|].consolidated.Plus(Delta(rate, t))
    ensures Chained(rate, cs + [c], bt + [t])
  {
    hide Delta;
  }

  lemma ExecuteKeeps(l: Ledger, d: Decision, start: Balance, time: real)
    requires Inv(l, start, time) && d.id != 0 && time <= d.timestamp && Executable(l, d)
    requires Increasing(Execute(l, d).changes)
    ensures Inv(Execute(l, d), start, time)
  {
    ExecuteKept(l, d, time);
    if d.action != WAIT && d.price.Some? {
      BuildsOnLast(l, d, start, time);
      var b := BalanceAt(l, d.timestamp);
      var f := Filled(d, b);
      if Accepts(f, b) {
        BrokerTradesAppend(l.trades, TradeOf(f));
        var l' := Passed(l, d, f, b);
        hide Dated, Increasing, Delta, BrokerTrades, BalanceAt, ChangeIndex, Covers;
        ChainedMore(l.rate, l.changes, BrokerTrades(l.trades), l'.changes[|l.changes|], TradeOf(f));
      }
    }
  }

  lemma MarketKeeps(l: Ledger, t: Trade, start: Balance, time: real)
    requires Inv(l, start, time) && t.decisionId == 0
    ensures Inv(l.(trades := l.trades + [t]), start, time)
  {
    MarketKept(l, t);
  }

  lemma IncreasingPrefix(cs: seq<BalanceChange>, cs': seq<BalanceChange>)
    requires cs <= cs' && Increasing(cs')
    ensures Increasing(cs)
  {
    assert forall i :: 0 <= i < |cs| ==> cs[i] == cs'[i];
  }

  /** As long as the changes stay in order, a run keeps the chain of balances. */
  lemma {:induction false} RunKeeps(l: Ledger, events: seq<Event>, start: Balance, time: real)
    requires Inv(l, start, time) && InTime(time, events) && IsRun(l, events) && Increasing(Run(l, events).changes)
    ensures Inv(Run(l, events), start, time)
    decreases |events|
  {
    hide Dated, Chained, Increasing, Execute, Executable, BrokerTrades, Defined;
    if events != [] {
      RestInTime(time, events);
      match events[0]
      case Market(t) =>
        MarketKeeps(l, t, start, time);
        RunKeeps(l.(trades := l.trades + [t]), events[1..], start, time);
      case Decide(d) =>
        ExecuteKept(l, d, time);
        RunKept(Execute(l, d), events[1..], time);
        IncreasingPrefix(Execute(l, d).changes, Run(l, events).changes);
        ExecuteKeeps(l, d, start, time);
        RunKeeps(Execute(l, d), events[1..], start, time);
    }
  }

  // ----- snapshots -----

  /** The balance looked up for a time is the starting balance with exactly the broker's trades up to
      that time replayed on it. */
  ghost predicate SnapshotRight(l: Ledger, start: Balance, t: real) {
    var made := UpTo(BrokerTrades(l.trades), t);
    && (forall u :: u in made ==> u.action != WAIT)
    && Covers(ChangeIndex(l), t) && BalanceAt(l, t) == Replay(start, l.rate, made)
  }

  ghost predicate SnapshotsRight(l: Ledger, start: Balance, time: real) {
    forall t :: time <= t ==> SnapshotRight(l, start, t)
  }

  lemma {:induction false} ReplayIsChained(rate: real, cs: seq<BalanceChange>, bt: seq<Trade>, k: nat)
    requires Chained(rate, cs, bt) && k <= |bt|
    ensures forall t :: t in bt[..k] ==> t.action != WAIT
    ensures cs[k].consolidated == Replay(cs[0].consolidated, rate, bt[..k])
    decreases k
  {
    if k > 0 {
      ReplayIsChained(rate, cs, bt, k - 1);
      assert bt[..k][..k - 1] == bt[..k - 1];
    }
  }

  lemma {:induction false} UpToPrefix(ts: seq<Trade>, k: nat, t: real)
    requires k <= |ts|
    requires forall i :: 0 <= i < k ==> ts[i].timestamp <= t
    requires forall i :: k <= i < |ts| ==> ts[i].timestamp > t
    ensures UpTo(ts, t) == ts[..k]
  {
    if ts != [] {
      var front := ts[..|ts| - 1];
      if k == |ts| {
        UpToPrefix(front, k - 1, t);
        assert front[..k - 1] + [ts[k - 1]] == ts[..k];
      } else {
        UpToPrefix(front, k, t);
        assert front[..k] == ts[..k];
      }
    }
  }

  lemma FoundIncreasing(cs: seq<BalanceChange>, t: real, k: nat)
    requires Increasing(cs) && k < |cs| && cs[k].timestamp <= t && (k + 1 < |cs| ==> t < cs[k + 1].timestamp)
    ensures Found(Stamps(cs), t, k)
  {
  }

  lemma SnapshotOf(l: Ledger, start: Balance, time: real, t: real, k: nat)
    requires Inv(l, start, time) && time <= t
    requires k < |l.changes| && l.changes[k].timestamp <= t && (k + 1 < |l.changes| ==> t < l.changes[k + 1].timestamp)
    ensures SnapshotRight(l, start, t)
  {
    var bt := BrokerTrades(l.trades);
    var cs := l.changes;
    FoundIncreasing(cs, t, k);
    BaseIs(l, t, k);
    ReplayIsChained(l.rate, cs, bt, k);
    forall i | 0 <= i < k ensures bt[i].timestamp <= t {
      assert cs[i + 1].timestamp == bt[i].timestamp;
      assert i + 1 < k ==> cs[i + 1].timestamp < cs[k].timestamp;
    }
    forall i | k <= i < |bt| ensures bt[i].timestamp > t {
      assert cs[i + 1].timestamp == bt[i].timestamp;
      assert k + 1 < i + 1 ==> cs[k + 1].timestamp < cs[i + 1].timestamp;
    }
    UpToPrefix(bt, k, t);
  }

  lemma {:induction false} LastChangeBefore(cs: seq<BalanceChange>, t: real) returns (k: nat)
    requires cs != [] && Increasing(cs) && cs[0].timestamp <= t
    ensures k < |cs| && cs[k].timestamp <= t && (k + 1 < |cs| ==> t < cs[k + 1].timestamp)
  {
    if cs[|cs| - 1].timestamp <= t {
      k := |cs| - 1;
    } else {
      k := LastChangeBefore(cs[..|cs| - 1], t);
    }
  }

  lemma InvSnapshots(l: Ledger, start: Balance, time: real)
    requires Inv(l, start, time)
    ensures SnapshotsRight(l, start, time)
  {
    hide SnapshotRight, Chained;
    forall t | time <= t ensures SnapshotRight(l, start, t) {
      var k := LastChangeBefore(l.changes, t);
      SnapshotOf(l, start, time, t, k);
    }
  }

  // ----- a trade out of order -----

  /** With a change out of order behind them, changes in order still answer with their last one at its
      time. */
  lemma FoundBehind(cs: seq<BalanceChange>, c: BalanceChange)
    requires cs != [] && Increasing(cs) && c.timestamp <= cs[|cs| - 1].timestamp
    ensures Found(Stamps(cs + [c]), cs[|cs| - 1].timestamp, |cs| - 1)
  {
  }

  lemma ReplayOneMore(start: Balance, rate: real, bt: seq<Trade>, t: Trade)
    requires (forall u :: u in bt ==> u.action != WAIT) && t.action != WAIT && t.volume > 0.0
    ensures forall u :: u in bt + [t] ==> u.action != WAIT
    ensures Replay(start, rate, bt + [t]) != Replay(start, rate, bt)
  {
    assert (bt + [t])[..|bt|] == bt;
  }

  lemma AllUpTo(time: real, cs: seq<BalanceChange>, bt: seq<Trade>, t: Trade)
    requires Dated(time, cs, bt) && Increasing(cs) && t.timestamp <= cs[|cs| - 1].timestamp
    ensures UpTo(bt + [t], cs[|cs| - 1].timestamp) == bt + [t]
  {
    var last := cs[|cs| - 1].timestamp;
    forall i | 0 <= i < |bt| + 1 ensures (bt + [t])[i].timestamp <= last {
      if i < |bt| {
        assert cs[i + 1].timestamp == bt[i].timestamp;
        assert i + 1 < |bt| ==> cs[i + 1].timestamp < last;
      }
    }
    UpToPrefix(bt + [t], |bt| + 1, last);
    assert (bt + [t])[..|bt| + 1] == bt + [t];
  }

  /** The snapshot at the time of the last change before it is wrong. */
  lemma LateIsWrong(l: Ledger, l': Ledger, c: BalanceChange, t: Trade, start: Balance, time: real)
    requires Inv(l, start, time) && l'.rate == l.rate && l'.changes == l.changes + [c]
    requires BrokerTrades(l'.trades) == BrokerTrades(l.trades) + [t] && t.action != WAIT && t.volume > 0.0
    requires t.timestamp == c.timestamp <= l.changes[|l.changes| - 1].timestamp
    ensures !SnapshotRight(l', start, l.changes[|l.changes| - 1].timestamp)
  {
    hide Dated, Increasing, Covers, Index, LookupIndex, ChangeEntries, Found, Stamps, UpTo, Delta, BrokerTrades;
    var bt, last := BrokerTrades(l.trades), l.changes[|l.changes| - 1];
    FoundBehind(l.changes, c);
    BaseIs(l', last.timestamp, |l.changes| - 1);
    AllUpTo(time, l.changes, bt, t);
    ReplayIsChained(l.rate, l.changes, bt, |bt|);
    assert bt[..|bt|] == bt && |l.changes| == |bt| + 1;
    ReplayOneMore(start, l.rate, bt, t);
  }

  lemma LateDecision(l: Ledger, d: Decision, start: Balance, time: real)
    requires Inv(l, start, time) && d.id != 0 && Executable(l, d) && !Increasing(Execute(l, d).changes)
    ensures !SnapshotsRight(Execute(l, d), start, time)
  {
    var b := BalanceAt(l, d.timestamp);
    var f := Filled(d, b);
    var t := TradeOf(f);
    var l' := Execute(l, d);
    assert l'.changes == l.changes + [l'.changes[|l.changes|]];
    BrokerTradesAppend(l.trades, t);
    var last := l.changes[|l.changes| - 1];
    assert Increasing(l.changes) && d.timestamp <= last.timestamp by {
      if last.timestamp < d.timestamp {
        IncreasingMore(l.changes, l'.changes[|l.changes|]);
      }
    }
    assert time <= last.timestamp by {
      assert |l.changes| > 1 ==> l.changes[0].timestamp < last.timestamp;
    }
    hide SnapshotRight, Inv, Dated, Increasing, Chained;
    LateIsWrong(l, l', l'.changes[|l.changes|], t, start, time);
  }

  lemma IncreasingMore(cs: seq<BalanceChange>, c: BalanceChange)
    requires Increasing(cs) && (cs != [] ==> cs[|cs| - 1].timestamp < c.timestamp)
    ensures Increasing(cs + [c])
  {
    forall i | 0 <= i < |cs| ensures cs[i].timestamp < c.timestamp {
      assert i < |cs| - 1 ==> cs[i].timestamp < cs[|cs| - 1].timestamp;
    }
  }

  /** If the changes of a run do not stay in order, the snapshots after some first events are wrong. */
  lemma {:induction false} WrongSomewhere(l: Ledger, events: seq<Event>, start: Balance, time: real) returns (k: nat)
    requires Inv(l, start, time) && InTime(time, events) && IsRun(l, events) && !Increasing(Run(l, events).changes)
    ensures k <= |events| && IsRun(l, events[..k]) && !SnapshotsRight(Run(l, events[..k]), start, time)
    decreases |events|
  {
    hide Dated, Chained, Increasing, Execute, Executable, BrokerTrades, Defined, SnapshotsRight;
    RestInTime(time, events);
    var next := if events[0].Market? then l.(trades := l.trades + [events[0].trade])
                else Execute(l, events[0].decision);
    if events[0].Market? {
      MarketKeeps(l, events[0].trade, start, time);
    }
    if Increasing(next.changes) {
      if events[0].Decide? {
        ExecuteKeeps(l, events[0].decision, start, time);
      }
      k := WrongSomewhere(next, events[1..], start, time);
      k := k + 1;
      assert events[..k][1..] == events[1..][..k - 1];
    } else {
      k := 1;
      assert events[..1][1..] == [];
      LateDecision(l, events[0].decision, start, time);
    }
  }

  /** The broker's trades are made at strictly increasing times, after the first balance. */
  ghost predicate InOrder(time: real, bt: seq<Trade>) {
    && (forall i :: 0 <= i < |bt| ==> time < bt[i].timestamp)
    && (forall i, j :: 0 <= i < j < |bt| ==> bt[i].timestamp < bt[j].timestamp)
  }

  lemma OrderOfChanges(time: real, cs: seq<BalanceChange>, bt: seq<Trade>)
    requires Dated(time, cs, bt)
    ensures InOrder(time, bt) <==> Increasing(cs)
  {
    if InOrder(time, bt) {
      forall i, j | 0 <= i < j < |cs| ensures cs[i].timestamp < cs[j].timestamp {
        assert cs[j].timestamp == bt[j - 1].timestamp;
        assert i > 0 ==> cs[i].timestamp == bt[i - 1].timestamp;
      }
    }
    if Increasing(cs) {
      forall j | 0 <= j < |bt| ensures time < bt[j].timestamp {
        assert cs[0].timestamp < cs[j + 1].timestamp;
      }
      forall i, j | 0 <= i < j < |bt| ensures bt[i].timestamp < bt[j].timestamp {
        assert cs[i + 1].timestamp < cs[j + 1].timestamp;
      }
    }
  }

  lemma StartInv(rate: real, time: real, liquidity: real)
    ensures Inv(Start(rate, time, liquidity), Balance(liquidity, 0.0, 0.0), time)
  {
  }

  /** Snapshots on all runs, with trades of the market fed in between: they are right at every time and
      after every event exactly when the trades, one per passed decision, are made in order. */
  lemma LedgerSnapshot(rate: real, time: real, liquidity: real, events: seq<Event>)
    requires InTime(time, events)
    ensures IsRun(Start(rate, time, liquidity), events)
    ensures forall k :: 0 <= k <= |events| ==> IsRun(Start(rate, time, liquidity), events[..k])
    ensures var l, start := Start(rate, time, liquidity), Balance(liquidity, 0.0, 0.0);
            (forall k :: 0 <= k <= |events| ==> SnapshotsRight(Run(l, events[..k]), start, time))
            <==> InOrder(time, BrokerTrades(Run(l, events).trades))
  {
    var l, start := Start(rate, time, liquidity), Balance(liquidity, 0.0, 0.0);
    StartInv(rate, time, liquidity);
    RunKept(l, events, time);
    hide Start, Run, IsRun, SnapshotsRight, Increasing, Chained, Dated, BrokerTrades, InOrder;
    OrderOfChanges(time, Run(l, events).changes, BrokerTrades(Run(l, events).trades));
    forall k | 0 <= k <= |events| ensures IsRun(l, events[..k]) {
      RunPrefix(l, events, k, time);
    }
    if Increasing(Run(l, events).changes) {
      forall k | 0 <= k <= |events| ensures SnapshotsRight(Run(l, events[..k]), start, time) {
        FirstEvents(events, k, time);
        RunPrefix(l, events, k, time);
        IncreasingPrefix(Run(l, events[..k]).changes, Run(l, events).changes);
        RunKeeps(l, events[..k], start, time);
        InvSnapshots(Run(l, events[..k]), start, time);
      }
    } else {
      var k := WrongSomewhere(l, events, start, time);
    }
  }

  /** A BUY of one unit at a price of 10 at time 1, without commission. */
  predicate OneUnit(d: Decision) {
    d.id != 0 && d.action == BUY && d.amount == Some(1.0) && d.price == Some(10.0) && d.timestamp == 1.0
  }

  lemma BuyOneUnit(l: Ledger, d: Decision, b: Balance) returns (c: BalanceChange)
    requires OneUnit(d) && Executable(l, d) && l.rate == 0.0 && b == BalanceAt(l, 1.0)
    requires b.liquidity >= 0.0 && b.stock >= 0.0 && b.commission == 0.0
    ensures var l' := Execute(l, d);
            && l'.changes == l.changes + [c] && l'.rate == 0.0
            && |BrokerTrades(l'.trades)| == |BrokerTrades(l.trades)| + 1
    ensures c.timestamp == 1.0 && c.consolidated == Balance(b.liquidity - 10.0, b.stock + 1.0, 0.0)
  {
    hide ChangeIndex, Covers, BalanceAt, BrokerTrades;
    BrokerTradesAppend(l.trades, TradeOf(d));
    c := Execute(l, d).changes[|l.changes|];
  }

  lemma TwoMoreUnits(l1: Ledger, d: Decision)
    requires OneUnit(d) && Kept(l1, 0.0) && Increasing(l1.changes) && l1.rate == 0.0
    requires |l1.changes| == 2 && l1.changes[1].timestamp == 1.0 && l1.changes[1].consolidated == Balance(90.0, 1.0, 0.0)
    ensures && Executable(l1, d) && var l2 := Execute(l1, d);
               Executable(l2, d) && var l3 := Execute(l2, d);
               && |BrokerTrades(l3.trades)| == |BrokerTrades(l1.trades)| + 2 && |l3.changes| == 4
               && l3.changes[3].consolidated == Balance(80.0, 2.0, 0.0)
  {
    hide Execute, Executable, Covers, Index, LookupIndex, Found, Stamps, Dated, BrokerTrades, Increasing, ChangeEntries;
    ExecuteKept(l1, d, 0.0);
    FoundIncreasing(l1.changes, 1.0, 1);
    BaseIs(l1, 1.0, 1);
    var c2 := BuyOneUnit(l1, d, l1.changes[1].consolidated);
    var l2 := Execute(l1, d);
    ExecuteKept(l2, d, 0.0);
    FoundBehind(l1.changes, c2);
    BaseIs(l2, 1.0, 1);
    var c3 := BuyOneUnit(l2, d, l1.changes[1].consolidated);
  }

  /** Three BUYs of one unit at the same time: the third builds on the first, and leaves two units. */
  lemma SameTimeExample(d: Decision)
    requires OneUnit(d)
    ensures var l0 := Start(0.0, 0.0, 100.0);
            && Executable(l0, d) && var l1 := Execute(l0, d);
               Executable(l1, d) && var l2 := Execute(l1, d);
               Executable(l2, d) && var l3 := Execute(l2, d);
               && |BrokerTrades(l3.trades)| == 3 && |l3.changes| == 4
               && l3.changes[3].consolidated == Balance(80.0, 2.0, 0.0)
  {
    hide Execute, Executable, Start, BalanceAt, Covers, ChangeIndex, Kept, Increasing, BrokerTrades;
    var l0 := Start(0.0, 0.0, 100.0);
    StartsEmpty();
    ExecuteKept(l0, d, 0.0);
    var c1 := BuyOneUnit(l0, d, l0.changes[0].consolidated);
    IncreasingMore(l0.changes, c1);
    TwoMoreUnits(Execute(l0, d), d);
  }

  lemma StartsEmpty()
    ensures var l0 := Start(0.0, 0.0, 100.0);
            && Kept(l0, 0.0) && Increasing(l0.changes) && BrokerTrades(l0.trades) == [] && l0.rate == 0.0
            && |l0.changes| == 1 && l0.changes[0].timestamp == 0.0
            && l0.changes[0].consolidated == Balance(100.0, 0.0, 0.0)
            && Covers(ChangeIndex(l0), 1.0) && BalanceAt(l0, 1.0) == l0.changes[0].consolidated
  {
    BaseIs(Start(0.0, 0.0, 100.0), 1.0, 0);
  }

  lemma FirstEvents(events: seq<Event>, k: nat, time: real)
    requires InTime(time, events) && k <= |events|
    ensures InTime(time, events[..k])
  {
    assert forall ev :: ev in events[..k] ==> ev in events;
  }

  // ----- decisions and trades -----

  function PassedOnes(ds: seq<Decision>): (r: seq<Decision>) {
    if ds == [] then []
    else PassedOnes(ds[..|ds| - 1]) + if ds[|ds| - 1].status == PASSED then [ds[|ds| - 1]] else []
  }

  ghost predicate Carried(d: Decision, t: Trade) {
    && d.price.Some? && d.amount.Some? && d.action != WAIT && d.amount.value > 0.0
    && t == Trade(0, d.amount.value, d.price.value, d.action, d.timestamp, d.id, 0, 0)
  }

  /** Every passed decision in the log has its trade, and every broker trade its passed decision, in
      the same order, for the whole amount at the decided price. */
  ghost predicate Matched(passed: seq<Decision>, bt: seq<Trade>) {
    |passed| == |bt| && forall i :: 0 <= i < |bt| ==> Carried(passed[i], bt[i])
  }

  predicate AllPending(events: seq<Event>) {
    forall ev :: ev in events && ev.Decide? ==> ev.decision.status == PENDING
  }

  lemma PassedOnesLast(ds: seq<Decision>, d: Decision)
    ensures PassedOnes(ds + [d]) == PassedOnes(ds) + if d.status == PASSED then [d] else []
  {
    assert (ds + [d])[..|ds|] == ds;
  }

  lemma RecordedPassed(ds: seq<Decision>, original: Decision, final: Decision)
    requires original.status == PENDING
    ensures PassedOnes(Recorded(ds, original, final)) == PassedOnes(ds) + if final.status == PASSED then [final] else []
  {
    var before := if original != final then [original] else [];
    assert ds + [] == ds && PassedOnes(ds) + [] == PassedOnes(ds);
    PassedOnesLast(ds, original);
    PassedOnesLast(ds + before, final);
  }

  lemma ExecuteMatches(l: Ledger, d: Decision)
    requires Executable(l, d) && d.id != 0 && d.status == PENDING
    requires Matched(PassedOnes(l.decisions), BrokerTrades(l.trades))
    ensures Matched(PassedOnes(Execute(l, d).decisions), BrokerTrades(Execute(l, d).trades))
  {
    hide Matched, PassedOnes, Recorded, BrokerTrades, Covers, BalanceAt, ChangeIndex, Delta;
    var passed := PassedOnes(l.decisions);
    assert passed + [] == passed;
    if d.action != WAIT {
      if d.price.None? {
        RecordedPassed(l.decisions, d, d.(status := CANCELLED));
      } else {
        var b := BalanceAt(l, d.timestamp);
        var f := Filled(d, b);
        if Accepts(f, b) {
          RecordedPassed(l.decisions, d, f.(status := PASSED));
          BrokerTradesAppend(l.trades, TradeOf(f));
          MatchedMore(passed, BrokerTrades(l.trades), f.(status := PASSED), TradeOf(f));
        } else {
          RecordedPassed(l.decisions, d, f.(status := CANCELLED));
        }
      }
    }
  }

  lemma MatchedMore(passed: seq<Decision>, bt: seq<Trade>, d: Decision, t: Trade)
    requires Matched(passed, bt) && Carried(d, t)
    ensures Matched(passed + [d], bt + [t])
  {
    hide Carried;
  }

  lemma {:induction false} RunMatches(l: Ledger, events: seq<Event>, time: real)
    requires Kept(l, time) && InTime(time, events) && AllPending(events)
    requires Matched(PassedOnes(l.decisions), BrokerTrades(l.trades))
    ensures IsRun(l, events) && Matched(PassedOnes(Run(l, events).decisions), BrokerTrades(Run(l, events).trades))
    decreases |events|
  {
    hide Kept, Execute, Executable, Matched, Defined;
    if events != [] {
      RestInTime(time, events);
      match events[0]
      case Market(t) =>
        MarketKept(l, t);
        KeptMarket(l, t, time);
        RunMatches(l.(trades := l.trades + [t]), events[1..], time);
      case Decide(d) =>
        ExecuteKept(l, d, time);
        ExecuteMatches(l, d);
        RunMatches(Execute(l, d), events[1..], time);
    }
  }

  lemma KeptMarket(l: Ledger, t: Trade, time: real)
    requires Kept(l, time) && t.decisionId == 0
    ensures Kept(l.(trades := l.trades + [t]), time)
  {
    MarketKept(l, t);
  }

  /** The log of decisions and the log of trades tell the same story after any run. */
  lemma DecisionsMatchTrades(rate: real, time: real, liquidity: real, events: seq<Event>)
    requires InTime(time, events) && AllPending(events)
    ensures IsRun(Start(rate, time, liquidity), events)
    ensures var l := Run(Start(rate, time, liquidity), events); Matched(PassedOnes(l.decisions), BrokerTrades(l.trades))
  {
    RunMatches(Start(rate, time, liquidity), events, time);
  }

  // ----- the times of decisions -----

  /** The times of the decisions of a run. */
  function DecisionTimes(events: seq<Event>): seq<real>
    decreases |events|
  {
    if events == [] then []
    else (if events[0].Decide? then [events[0].decision.timestamp] else []) + DecisionTimes(events[1..])
  }

  function Times(bt: seq<Trade>): (ts: seq<real>)
    ensures |ts| == |bt|
  {
    seq(|bt|, i requires 0 <= i < |bt| => bt[i].timestamp)
  }

  /** The elements of `a` are those of `b` at increasing places. */
  ghost predicate Picks(at: seq<nat>, a: seq<real>, b: seq<real>) {
    && |at| == |a|
    && (forall i :: 0 <= i < |a| ==> at[i] < |b| && a[i] == b[at[i]])
    && (forall i, j :: 0 <= i < j < |at| ==> at[i] < at[j])
  }

  lemma PicksMore(at: seq<nat>, a: seq<real>, b: seq<real>, x: real, picked: bool) returns (at': seq<nat>)
    requires Picks(at, a, b)
    ensures Picks(at', (if picked then [x] else []) + a, [x] + b)
  {
    var shifted := seq(|at|, i requires 0 <= i < |at| => at[i] + 1);
    at' := if picked then [0] + shifted else shifted;
  }

  /** The trades of a run are made at the times of some of its decisions, in their order. */
  lemma {:induction false} TradesPick(l: Ledger, events: seq<Event>, time: real) returns (at: seq<nat>)
    requires Kept(l, time) && InTime(time, events) && IsRun(l, events)
    ensures BrokerTrades(l.trades) <= BrokerTrades(Run(l, events).trades)
    ensures Picks(at, Times(BrokerTrades(Run(l, events).trades)[|BrokerTrades(l.trades)|..]), DecisionTimes(events))
    decreases |events|
  {
    hide Dated, Execute, Executable, BrokerTrades, Defined;
    if events == [] {
      at := [];
    } else {
      RestInTime(time, events);
      var bt, all := BrokerTrades(l.trades), BrokerTrades(Run(l, events).trades);
      match events[0]
      case Market(t) =>
        MarketKept(l, t);
        at := TradesPick(l.(trades := l.trades + [t]), events[1..], time);
        assert [] + DecisionTimes(events[1..]) == DecisionTimes(events[1..]);
      case Decide(d) =>
        ExecuteKept(l, d, time);
        ExecuteTrades(l, d);
        var bt' := BrokerTrades(Execute(l, d).trades);
        at := TradesPick(Execute(l, d), events[1..], time);
        at := PicksMore(at, Times(all[|bt'|..]), DecisionTimes(events[1..]), d.timestamp, bt' != bt);
        assert bt' != bt ==> Times(all[|bt|..]) == [d.timestamp] + Times(all[|bt'|..]);
        assert bt' == bt ==> Times(all[|bt|..]) == [] + Times(all[|bt'|..]);
    }
  }

  /** A decision makes one trade at its time, or none. */
  lemma ExecuteTrades(l: Ledger, d: Decision)
    requires Executable(l, d) && d.id != 0
    ensures var bt, bt' := BrokerTrades(l.trades), BrokerTrades(Execute(l, d).trades);
            bt' == bt || (bt <= bt' && |bt'| == |bt| + 1 && bt'[|bt|].timestamp == d.timestamp)
  {
    if d.action != WAIT && d.price.Some? {
      var b := BalanceAt(l, d.timestamp);
      BrokerTradesAppend(l.trades, TradeOf(Filled(d, b)));
    }
  }

  ghost predicate StrictlyAfter(time: real, ts: seq<real>) {
    && (forall i :: 0 <= i < |ts| ==> time < ts[i])
    && (forall i, j :: 0 <= i < j < |ts| ==> ts[i] < ts[j])
  }

  lemma PickedInOrder(time: real, at: seq<nat>, bt: seq<Trade>, ts: seq<real>)
    requires Picks(at, Times(bt), ts) && StrictlyAfter(time, ts)
    ensures InOrder(time, bt)
  {
    forall i | 0 <= i < |bt| ensures time < bt[i].timestamp {
      assert bt[i].timestamp == Times(bt)[i];
    }
    forall i, j | 0 <= i < j < |bt| ensures bt[i].timestamp < bt[j].timestamp {
      assert bt[i].timestamp == Times(bt)[i] && bt[j].timestamp == Times(bt)[j];
    }
  }

  /** So when decisions come at strictly increasing times after the first balance, every snapshot is
      right at all times, after every event. */
  lemma OrderedDecisions(rate: real, time: real, liquidity: real, events: seq<Event>, k: nat)
    requires InTime(time, events) && StrictlyAfter(time, DecisionTimes(events)) && k <= |events|
    ensures IsRun(Start(rate, time, liquidity), events[..k])
    ensures SnapshotsRight(Run(Start(rate, time, liquidity), events[..k]), Balance(liquidity, 0.0, 0.0), time)
  {
    var l := Start(rate, time, liquidity);
    StartInv(rate, time, liquidity);
    assert BrokerTrades(l.trades) == [];
    hide Start, Run, IsRun, SnapshotsRight, BrokerTrades, Dated, Inv, InTime, Picks, StrictlyAfter, InOrder, DecisionTimes;
    LedgerSnapshot(rate, time, liquidity, events);
    var at := TradesPick(l, events, time);
    var bt := BrokerTrades(Run(l, events).trades);
    assert bt[0..] == bt;
    PickedInOrder(time, at, bt, DecisionTimes(events));
  }
}
