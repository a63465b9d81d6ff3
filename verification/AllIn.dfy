/** Runs of decisions that leave their amount unset: the all-in runs of src/brokers/Broker.hpp. What holds of
    them at any times, and what only in certain orders of times. */
module AllInRuns {
  import opened Options
  import opened Models
  import opened Numbers
  import opened MemoryHistories
  import opened Ledgers

  // ----- one all-in trade -----

  /** Every decision leaves its amount unset. */
  predicate AllIn(events: seq<Event>) {
    forall ev :: ev in events && ev.Decide? ==> ev.decision.amount.None?
  }

  predicate Sound(b: Balance) {
    b.liquidity >= 0.0 && b.stock >= 0.0 && b.commission >= 0.0
  }

  /** No decision to buy can pass. */
  predicate Spent(b: Balance) {
    b.liquidity <= b.commission
  }

  lemma ScaleOrder(q: real, price: real)
    requires q > 0.0
    ensures (q <= q * price <==> 1.0 <= price) && (q == q * price <==> price == 1.0)
  {
    assert q * price - q == q * (price - 1.0);
    assert price > 1.0 ==> q * (price - 1.0) > 0.0;
    assert price < 1.0 ==> q * (price - 1.0) < 0.0;
  }

  lemma CommissionValue(rate: real, price: real, volume: real, worth: real)
    requires worth >= 0.0 && volume * price == worth
    ensures Abs(price * volume * rate) == worth * Abs(rate) >= 0.0
  {
    assert price * volume == worth;
    SignOf(worth, rate);
    assert worth * -rate == -(worth * rate);
  }

  lemma SignOfShare(worth: real, price: real)
    requires price != 0.0
    ensures worth / price * price == worth
    ensures worth / price > 0.0 <==> (worth > 0.0 && price > 0.0) || (worth < 0.0 && price < 0.0)
    ensures worth / price == 0.0 <==> worth == 0.0
  {
    var q := worth / price;
    assert q * price == worth;
    SignOf(q, price);
  }

  /** Which all-in decisions pass, from a sound balance: only those at a positive price; a BUY if and
      only if something is left after the commission owed, a SELL if and only if there is stock and
      the account is worth the commission owed. */
  lemma AllInPasses(b: Balance, d: Decision)
    requires Sound(b) && d.amount.None? && d.action != WAIT && d.price.Some? && d.price.value != 0.0
    ensures Accepts(Filled(d, b), b) <==>
              && d.price.value > 0.0
              && if d.action == BUY then !Spent(b)
                 else b.stock > 0.0 && b.liquidity + b.stock * d.price.value >= b.commission
  {
    SignOfShare(if d.action == BUY then b.liquidity - b.commission else b.stock, d.price.value);
    SignOf(d.price.value, b.stock);
  }

  /** What an all-in trade is about: the liquidity left after the commission owed, or the stock. */
  function AtStake(b: Balance, action: ActionType): real {
    if action == BUY then b.liquidity - b.commission else b.stock
  }

  /** What an all-in trade does to a sound balance: a BUY spends it; a SELL leaves it sound if and only
      if the price is at least 1, and sells the stock, no more and no less, if and only if it is 1. */
  predicate AllInStep(rate: real, b: Balance, b': Balance, t: Trade) {
    Sound(b) ==>
      && (Sound(b') <==> t.action == BUY || t.price >= 1.0)
      && b'.commission == b.commission + AtStake(b, t.action) * Abs(rate) >= b.commission
      && (t.action == BUY ==> !Spent(b) && Spent(b'))
      && (t.action == SELL ==> b.stock > 0.0 && (b'.stock == 0.0 <==> t.price == 1.0))
  }

  lemma ShareOf(rate: real, worth: real, price: real)
    requires worth > 0.0 && price > 0.0
    ensures var amount := worth / price;
            && amount > 0.0 && amount * price == worth && -amount * price == -worth
            && Abs(price * amount * rate) == worth * Abs(rate) >= 0.0
            && (amount <= worth <==> price >= 1.0) && (amount == worth <==> price == 1.0)
  {
    var amount := worth / price;
    SignOfShare(worth, price);
    ScaleOrder(amount, price);
    CommissionValue(rate, price, amount, worth);
  }

  lemma AllInDelta(rate: real, b: Balance, d: Decision)
    requires Sound(b) && d.amount.None? && d.action != WAIT && d.price.Some? && d.price.value > 0.0
    requires if d.action == BUY then !Spent(b) else b.stock > 0.0
    ensures var t := TradeOf(Filled(d, b));
            var worth := if d.action == BUY then b.liquidity - b.commission else b.stock;
            && t.action == d.action && t.price == d.price.value && t.volume > 0.0
            && worth * Abs(rate) >= 0.0
            && Delta(rate, t) == (if d.action == BUY then Balance(-worth, t.volume, worth * Abs(rate))
                                  else Balance(worth, -t.volume, worth * Abs(rate)))
            && (t.volume <= worth <==> t.price >= 1.0) && (t.volume == worth <==> t.price == 1.0)
  {
    var worth := if d.action == BUY then b.liquidity - b.commission else b.stock;
    ShareOf(rate, worth, d.price.value);
    assert Filled(d, b).amount.value == worth / d.price.value;
    hide Abs, Sound, Spent;
  }

  lemma AllInTrade(rate: real, b: Balance, d: Decision)
    requires d.amount.None? && d.action != WAIT && d.price.Some? && d.price.value != 0.0
    requires Accepts(Filled(d, b), b)
    ensures AllInStep(rate, b, b.Plus(Delta(rate, TradeOf(Filled(d, b)))), TradeOf(Filled(d, b)))
  {
    if Sound(b) {
      AllInPasses(b, d);
      AllInDelta(rate, b, d);
      hide Delta, Filled, Accepts, TradeOf;
    }
  }

  /** At a price of 2 half of the stock is kept; at a price of 1/2 twice the stock is sold. */
  lemma AllInSellExamples(d: Decision, b: Balance)
    requires d.action == SELL && d.amount.None? && d.price.Some? && b == Balance(0.0, 10.0, 0.0)
    ensures d.price.value == 2.0 ==>
              Accepts(Filled(d, b), b) && b.Plus(Delta(0.0, TradeOf(Filled(d, b)))) == Balance(10.0, 5.0, 0.0)
    ensures d.price.value == 0.5 ==>
              Accepts(Filled(d, b), b) && b.Plus(Delta(0.0, TradeOf(Filled(d, b)))) == Balance(10.0, -10.0, 0.0)
  {
  }

  // ----- what every run keeps -----

  /** An executed decision changes nothing of the balances, or makes one all-in trade on the balance that
      was looked up. */
  ghost predicate Executed(l: Ledger, d: Decision, l': Ledger)
    requires Covers(ChangeIndex(l), d.timestamp)
  {
    var cs, bt, cs', bt' := l.changes, BrokerTrades(l.trades), l'.changes, BrokerTrades(l'.trades);
    (cs' == cs && bt' == bt) || Extended(l.rate, cs, bt, cs', bt', d, BalanceAt(l, d.timestamp))
  }

  ghost predicate Extended(rate: real, cs: seq<BalanceChange>, bt: seq<Trade>, cs': seq<BalanceChange>, bt': seq<Trade>,
                           d: Decision, b: Balance)
  {
    && |cs'| == |cs| + 1 && cs <= cs' && |bt'| == |bt| + 1 && bt <= bt'
    && var c, t := cs'[|cs|], bt'[|bt|];
       && t.action == d.action != WAIT && d.price == Some(t.price) && t.timestamp == c.timestamp == d.timestamp
       && AllInStep(rate, b, c.consolidated, t)
  }

  lemma PassedIsAllIn(l: Ledger, d: Decision, b: Balance)
    requires Defined(d) && d.id != 0 && d.amount.None? && d.action != WAIT && d.price.Some? && Accepts(Filled(d, b), b)
    ensures var l' := Passed(l, d, Filled(d, b), b);
            Extended(l.rate, l.changes, BrokerTrades(l.trades), l'.changes, BrokerTrades(l'.trades), d, b)
  {
    var t := TradeOf(Filled(d, b));
    AllInTrade(l.rate, b, d);
    assert t.decisionId == d.id && t.action == d.action && t.timestamp == d.timestamp && d.price == Some(t.price);
    hide AllInStep, Delta, Filled, Accepts, BrokerTrades;
    BrokerTradesAppend(l.trades, t);
  }

  lemma ExecuteIsAllIn(l: Ledger, d: Decision)
    requires Executable(l, d) && Covers(ChangeIndex(l), d.timestamp) && d.id != 0 && d.amount.None?
    ensures Executed(l, d, Execute(l, d))
  {
    hide Extended, Passed, BrokerTrades, BalanceAt, Covers, ChangeIndex;
    if d.action != WAIT && d.price.Some? {
      var b := BalanceAt(l, d.timestamp);
      if Accepts(Filled(d, b), b) {
        PassedIsAllIn(l, d, b);
      }
    }
  }

  /** Every change is one all-in trade away from the one it builds on. */
  ghost predicate Grounded(rate: real, cs: seq<BalanceChange>, bt: seq<Trade>) {
    |cs| == |bt| + 1 && forall i :: 0 < i < |cs| ==> GroundedAt(rate, cs, bt, i)
  }

  ghost predicate GroundedAt(rate: real, cs: seq<BalanceChange>, bt: seq<Trade>, i: nat)
    requires 0 < i < |cs| == |bt| + 1
  {
    AllInStep(rate, cs[Parent(Stamps(cs), i)].consolidated, cs[i].consolidated, bt[i - 1])
  }

  lemma GroundedMore(rate: real, cs: seq<BalanceChange>, bt: seq<Trade>, cs': seq<BalanceChange>, bt': seq<Trade>,
                     d: Decision)
    requires Grounded(rate, cs, bt) && cs != []
    requires Extended(rate, cs, bt, cs', bt', d, cs[Base(Stamps(cs), d.timestamp)].consolidated)
    ensures Grounded(rate, cs', bt')
  {
    hide AllInStep, Base;
    forall i | 0 < i < |cs'| ensures GroundedAt(rate, cs', bt', i) {
      StampsUpTo(cs, cs', i);
      if i < |cs| {
        assert GroundedAt(rate, cs, bt, i);
      }
    }
  }

  ghost predicate AllSound(cs: seq<BalanceChange>) {
    forall i :: 0 <= i < |cs| ==> Sound(cs[i].consolidated)
  }

  ghost predicate SellsFromOne(bt: seq<Trade>) {
    forall i :: 0 <= i < |bt| && bt[i].action == SELL ==> bt[i].price >= 1.0
  }

  ghost predicate SellsAtOne(bt: seq<Trade>) {
    forall i :: 0 <= i < |bt| && bt[i].action == SELL ==> bt[i].price == 1.0
  }

  /** Every passed SELL sells all there is. */
  ghost predicate SellsOut(cs: seq<BalanceChange>, bt: seq<Trade>)
    requires |cs| == |bt| + 1
  {
    forall i :: 0 <= i < |bt| && bt[i].action == SELL ==> cs[i + 1].consolidated.stock == 0.0
  }

  /** Every SELL that has a price has one of at least 1. */
  predicate PricedFromOne(events: seq<Event>) {
    forall ev :: ev in events && ev.Decide? && ev.decision.action == SELL && ev.decision.price.Some? ==>
      ev.decision.price.value >= 1.0
  }

  lemma RestAllIn(events: seq<Event>)
    requires events != [] && AllIn(events)
    ensures AllIn(events[1..]) && (PricedFromOne(events) ==> PricedFromOne(events[1..]))
    ensures events[0] in events
  {
    assert forall ev :: ev in events[1..] ==> ev in events;
  }

  lemma ExecuteGrounded(l: Ledger, d: Decision, time: real)
    requires Kept(l, time) && Executable(l, d) && d.id != 0 && time <= d.timestamp && d.amount.None?
    requires Grounded(l.rate, l.changes, BrokerTrades(l.trades))
    ensures Grounded(l.rate, Execute(l, d).changes, BrokerTrades(Execute(l, d).trades))
  {
    var k := Base(Stamps(l.changes), d.timestamp);
    assert Stamps(l.changes)[0] == l.changes[0].timestamp == time;
    BaseIs(l, d.timestamp, k);
    ExecuteIsAllIn(l, d);
    hide Dated, Execute, Executable, BrokerTrades, Grounded, AllInStep, Base, BalanceAt, ChangeIndex, Covers;
    if Execute(l, d).changes != l.changes {
      GroundedMore(l.rate, l.changes, BrokerTrades(l.trades), Execute(l, d).changes, BrokerTrades(Execute(l, d).trades), d);
    }
  }

  lemma {:induction false} RunGrounded(l: Ledger, events: seq<Event>, time: real)
    requires Kept(l, time) && InTime(time, events) && IsRun(l, events) && AllIn(events)
    requires Grounded(l.rate, l.changes, BrokerTrades(l.trades))
    ensures var l' := Run(l, events);
            && Grounded(l.rate, l'.changes, BrokerTrades(l'.trades))
            && (PricedFromOne(events) && SellsFromOne(BrokerTrades(l.trades)) ==> SellsFromOne(BrokerTrades(l'.trades)))
    decreases |events|
  {
    hide Dated, Grounded, Execute, Executable, BrokerTrades, Defined, Covers, BalanceAt, ChangeIndex, AllInStep;
    if events != [] {
      RestInTime(time, events);
      RestAllIn(events);
      match events[0]
      case Market(t) =>
        MarketKept(l, t);
        RunGrounded(l.(trades := l.trades + [t]), events[1..], time);
      case Decide(d) =>
        ExecuteKept(l, d, time);
        KeptCovers(l, time, d.timestamp);
        ExecuteIsAllIn(l, d);
        ExecuteGrounded(l, d, time);
        RunGrounded(Execute(l, d), events[1..], time);
    }
  }

  lemma {:induction false} SoundUpTo(rate: real, cs: seq<BalanceChange>, bt: seq<Trade>, k: nat)
    requires Grounded(rate, cs, bt) && k < |cs| && Sound(cs[0].consolidated)
    requires forall i :: 0 <= i < |bt| ==> bt[i].action != WAIT
    requires SellsFromOne(bt)
    ensures Sound(cs[k].consolidated)
  {
    if k > 0 {
      hide Stamps, Parent;
      assert GroundedAt(rate, cs, bt, k);
      SoundUpTo(rate, cs, bt, Parent(Stamps(cs), k));
      assert bt[k - 1].action == BUY || bt[k - 1].price >= 1.0;
    }
  }

  lemma SoundExactly(rate: real, cs: seq<BalanceChange>, bt: seq<Trade>)
    requires Grounded(rate, cs, bt) && Sound(cs[0].consolidated)
    requires forall i :: 0 <= i < |bt| ==> bt[i].action != WAIT
    ensures AllSound(cs) <==> SellsFromOne(bt)
    ensures AllSound(cs) ==> (SellsOut(cs, bt) <==> SellsAtOne(bt))
  {
    if SellsFromOne(bt) {
      forall k | 0 <= k < |cs| ensures Sound(cs[k].consolidated) {
        SoundUpTo(rate, cs, bt, k);
      }
    }
    if AllSound(cs) {
      hide Sound, Spent, Stamps, Parent;
      forall i | 0 <= i < |bt| && bt[i].action == SELL
        ensures bt[i].price >= 1.0 && (cs[i + 1].consolidated.stock == 0.0 <==> bt[i].price == 1.0)
      {
        assert GroundedAt(rate, cs, bt, i + 1);
        var j := Parent(Stamps(cs), i + 1);
        assert Sound(cs[j].consolidated) && Sound(cs[i + 1].consolidated);
      }
    }
  }

  lemma StartGrounded(rate: real, time: real, liquidity: real)
    requires liquidity >= 0.0
    ensures var l := Start(rate, time, liquidity);
            && Kept(l, time) && BrokerTrades(l.trades) == [] && l.rate == rate && |l.changes| == 1
            && l.changes[0].timestamp == time && l.changes[0].consolidated == Balance(liquidity, 0.0, 0.0)
            && Grounded(rate, l.changes, []) && Sound(l.changes[0].consolidated)
  {
  }

  /** A run of decisions that leave their amount unset, at any times: no balance ever has a negative component
      exactly when every passed SELL is at a price of at least 1, so never if all SELLs are; and then every
      passed SELL sells out exactly when all of them are at a price of 1. */
  lemma AllInSound(rate: real, time: real, liquidity: real, events: seq<Event>)
    requires liquidity >= 0.0 && InTime(time, events) && AllIn(events)
    ensures IsRun(Start(rate, time, liquidity), events)
    ensures var l := Run(Start(rate, time, liquidity), events);
            var cs, bt := l.changes, BrokerTrades(l.trades);
            && |cs| == |bt| + 1
            && (AllSound(cs) <==> SellsFromOne(bt))
            && (AllSound(cs) ==> (SellsOut(cs, bt) <==> SellsAtOne(bt)))
            && (PricedFromOne(events) ==> AllSound(cs))
  {
    var l0 := Start(rate, time, liquidity);
    StartGrounded(rate, time, liquidity);
    RunKept(l0, events, time);
    var l := Run(l0, events);
    assert forall i :: 0 <= i < |BrokerTrades(l.trades)| ==> BrokerTrades(l.trades)[i].action != WAIT;
    assert l0.changes <= l.changes;
    hide Run, IsRun, Start, Grounded, AllSound, SellsOut, SellsAtOne, Sound, BrokerTrades, Dated, Kept;
    RunGrounded(l0, events, time);
    SoundExactly(rate, l.changes, BrokerTrades(l.trades));
    GroundedLength(rate, l.changes, BrokerTrades(l.trades));
  }

  lemma GroundedLength(rate: real, cs: seq<BalanceChange>, bt: seq<Trade>)
    requires Grounded(rate, cs, bt)
    ensures |cs| == |bt| + 1
  {
  }

  // ----- orders of times -----

  ghost predicate NeverBack(ts: seq<real>) {
    forall i, j :: 0 <= i < j < |ts| ==> ts[i] <= ts[j]
  }

  /** No time comes three times after an earlier one. */
  ghost predicate Spread(ts: seq<real>) {
    forall h, i, j, k :: 0 <= h < i < j < k < |ts| ==> !(ts[h] < ts[i] == ts[j] == ts[k])
  }

  ghost predicate OnceAt(time: real, ts: seq<real>) {
    forall i, j :: 0 <= i < j < |ts| ==> !(ts[i] == ts[j] == time)
  }

  /** After a rise, no time before the one it rose from, nor that of the first balance. */
  ghost predicate AfterRise(time: real, ts: seq<real>) {
    forall h, i, j :: 0 <= h < i < j < |ts| && ts[h] <= ts[i] && time < ts[i] ==> ts[h] <= ts[j] && time < ts[j]
  }

  /** After a rise that stays below an earlier time, no time from that one on. */
  ghost predicate AfterDip(time: real, ts: seq<real>) {
    forall h, g, i, j :: 0 <= h < g < i < j < |ts| && ts[g] <= ts[i] < ts[h] && time < ts[i] ==> ts[j] < ts[h]
  }

  /** After two rises, a time before the last one, or a third one at the same time. */
  predicate FallsBelow(time: real, ts: seq<real>, h: nat, g: nat, i: nat, j: nat)
    requires h < g < i < j < |ts|
  {
    && ts[h] <= ts[g] <= ts[i] && ts[h] < ts[i] && time < ts[g]
    && (ts[j] < ts[i] || ts[j] == ts[i] == ts[g])
  }

  ghost predicate AfterTwoRises(time: real, ts: seq<real>) {
    forall h, g, i, j :: 0 <= h < g < i < j < |ts| ==> !FallsBelow(time, ts, h, g, i, j)
  }

  ghost predicate NoneUndercuts(time: real, ts: seq<real>) {
    AfterRise(time, ts) && AfterDip(time, ts) && AfterTwoRises(time, ts)
  }

  /** Between any two passed BUYs there is a passed SELL. */
  ghost predicate Alternates(bt: seq<Trade>) {
    forall i :: 0 <= i < |bt| - 1 && bt[i].action == BUY ==> bt[i + 1].action == SELL
  }

  ghost predicate NeverDrops(cs: seq<BalanceChange>) {
    forall i :: 0 <= i < |cs| - 1 ==> cs[i].consolidated.commission <= cs[i + 1].consolidated.commission
  }

  // ----- what a change builds on -----

  ghost predicate FirstIsLeast(ks: seq<real>) {
    forall i :: 0 <= i < |ks| ==> ks[0] <= ks[i]
  }

  lemma ParentOf(ks: seq<real>, i: nat, j: nat)
    requires FirstIsLeast(ks) && j < i < |ks|
    ensures var p := Parent(ks, i);
            && ks[0] <= ks[p] <= ks[i]
            && (ks[j] <= ks[i] ==> ks[j] < ks[p] || (ks[j] == ks[p] && if ks[p] == ks[i] then p <= j else j <= p))
  {
    assert ks[..i][0] == ks[0] && ks[..i][j] == ks[j];
    assert Found(ks[..i], ks[i], Base(ks[..i], ks[i]));
    hide Base;
  }

  lemma ParentAbove(ks: seq<real>, i: nat)
    requires FirstIsLeast(ks) && 0 < i < |ks| && Parent(ks, i) > 0
    ensures ks[0] < ks[i]
  {
    ParentOf(ks, i, 0);
  }

  lemma Three(ks: seq<real>, h: nat, i: nat, j: nat)
    requires 0 < h < i < j < |ks| && NoneUndercuts(ks[0], ks[1..])
    ensures ks[h] <= ks[i] && ks[0] < ks[i] ==> ks[h] <= ks[j] && ks[0] < ks[j]
  {
    var ts := ks[1..];
    assert ts[h - 1] == ks[h] && ts[i - 1] == ks[i] && ts[j - 1] == ks[j];
    hide AfterDip, AfterTwoRises;
  }

  lemma Four(ks: seq<real>, h: nat, g: nat, i: nat, j: nat)
    requires 0 < h < g < i < j < |ks| && NoneUndercuts(ks[0], ks[1..])
    ensures ks[g] <= ks[i] < ks[h] && ks[0] < ks[i] ==> ks[j] < ks[h]
    ensures ks[h] <= ks[g] <= ks[i] && ks[h] < ks[i] && ks[0] < ks[g] ==>
              ks[i] <= ks[j] && (ks[j] == ks[i] ==> ks[g] < ks[i])
  {
    var ts := ks[1..];
    assert ts[h - 1] == ks[h] && ts[g - 1] == ks[g] && ts[i - 1] == ks[i] && ts[j - 1] == ks[j];
    assert !FallsBelow(ks[0], ts, h - 1, g - 1, i - 1, j - 1);
    hide AfterRise;
  }

  /** A change two steps or more behind a change on the first balance is the one that the next builds on. */
  lemma DeepFollows(ks: seq<real>, x: nat)
    requires 0 < x < |ks| - 1 && FirstIsLeast(ks) && NoneUndercuts(ks[0], ks[1..])
    requires Parent(ks, x) > 0 && Parent(ks, Parent(ks, x)) > 0
    ensures Parent(ks, x + 1) == x
  {
    hide Parent, NoneUndercuts, FirstIsLeast;
    var y, p, q := x + 1, Parent(ks, x), Parent(ks, x + 1);
    var pp := Parent(ks, p);
    ParentAbove(ks, p);
    ParentOf(ks, p, pp);
    ParentOf(ks, x, pp);
    ParentOf(ks, y, x);
    Four(ks, pp, p, x, y);
    if q != x {
      if ks[q] == ks[x] {
        ParentOf(ks, x, q);
      } else if q < p {
        ParentAbove(ks, x);
        Four(ks, q, p, x, y);
      } else if q > p {
        Four(ks, pp, p, q, x);
      }
      assert false;
    }
  }

  /** After a change that builds on one on the first balance, the next builds on that one too, or on another that
      does. */
  lemma ShallowFollows(ks: seq<real>, x: nat)
    requires 0 < x < |ks| - 1 && FirstIsLeast(ks) && NoneUndercuts(ks[0], ks[1..])
    requires Parent(ks, x) > 0 && Parent(ks, Parent(ks, x)) == 0
    ensures var p, q := Parent(ks, x), Parent(ks, x + 1);
            q == x || q == p || (q > 0 && Parent(ks, q) == p)
  {
    hide Parent, NoneUndercuts, FirstIsLeast;
    var y, p, q := x + 1, Parent(ks, x), Parent(ks, x + 1);
    ParentAbove(ks, x);
    ParentOf(ks, x, 0);
    Three(ks, p, x, y);
    ParentOf(ks, y, p);
    ParentOf(ks, y, 0);
    if q != x && q != p {
      assert q > 0;
      ParentOf(ks, x, q);
      OnlyChild(ks, x, q);
    }
  }

  lemma OnlyChild(ks: seq<real>, x: nat, q: nat)
    requires 0 < q < x < |ks| - 1 && FirstIsLeast(ks) && NoneUndercuts(ks[0], ks[1..])
    requires q == Parent(ks, x + 1) && q != Parent(ks, x)
    requires Parent(ks, x) > 0 && Parent(ks, Parent(ks, x)) == 0
    ensures Parent(ks, q) == Parent(ks, x)
  {
    hide Parent, NoneUndercuts, FirstIsLeast;
    var y, p, r := x + 1, Parent(ks, x), Parent(ks, q);
    ParentAbove(ks, x);
    ParentOf(ks, x, 0);
    Three(ks, p, x, y);
    ParentOf(ks, y, p);
    ParentOf(ks, x, q);
    ParentOf(ks, q, 0);
    ParentOf(ks, p, 0);
    if q < p {
      ParentOf(ks, p, q);
    } else {
      ParentOf(ks, q, p);
    }
    if r == 0 {
      if q < p {
        Four(ks, q, p, x, y);
      }
      assert false;
    } else if r != p {
      ParentAbove(ks, q);
      ParentOf(ks, x, r);
      ParentOf(ks, r, 0);
      var rr := Parent(ks, r);
      if rr > 0 {
        ParentAbove(ks, r);
        ParentOf(ks, q, rr);
        Four(ks, rr, r, q, x);
      } else if r < p {
        ParentOf(ks, p, r);
        if q < p {
          Three(ks, r, q, p);
        } else {
          Three(ks, r, q, x);
        }
      } else {
        ParentOf(ks, r, p);
      }
      assert false;
    }
  }

  // ----- sound runs -----

  /** A run of all-in trades without a negative balance, from a first balance without stock or commission. */
  ghost predicate SoundRun(rate: real, time: real, cs: seq<BalanceChange>, bt: seq<Trade>) {
    && Dated(time, cs, bt) && Grounded(rate, cs, bt) && AllSound(cs)
    && cs[0].consolidated.stock == 0.0 && cs[0].consolidated.commission == 0.0
  }

  lemma SoundStep(rate: real, time: real, cs: seq<BalanceChange>, bt: seq<Trade>, i: nat)
    requires SoundRun(rate, time, cs, bt) && 0 < i < |cs|
    ensures |Stamps(cs)| == |cs| == |bt| + 1
    ensures var b, b', t := cs[Parent(Stamps(cs), i)].consolidated, cs[i].consolidated, bt[i - 1];
            && b'.commission == b.commission + AtStake(b, t.action) * Abs(rate) >= b.commission
            && (if t.action == BUY then !Spent(b) && Spent(b') else t.action == SELL && b.stock > 0.0)
  {
    hide Parent;
    assert GroundedAt(rate, cs, bt, i) && Sound(cs[Parent(Stamps(cs), i)].consolidated);
    assert bt[i - 1].action != WAIT;
  }

  /** The commission after the first BUY. */
  function FirstCommission(rate: real, cs: seq<BalanceChange>): real
    requires cs != []
  {
    cs[0].consolidated.liquidity * Abs(rate)
  }

  lemma OnFirst(rate: real, time: real, cs: seq<BalanceChange>, bt: seq<Trade>, i: nat)
    requires SoundRun(rate, time, cs, bt) && 0 < i < |cs| == |Stamps(cs)| && Parent(Stamps(cs), i) == 0
    ensures |bt| == |cs| - 1 && bt[i - 1].action == BUY && Spent(cs[i].consolidated)
    ensures cs[i].consolidated.commission == FirstCommission(rate, cs)
  {
    hide Parent;
    SoundStep(rate, time, cs, bt, i);
  }

  lemma OnSecond(rate: real, time: real, cs: seq<BalanceChange>, bt: seq<Trade>, i: nat)
    requires SoundRun(rate, time, cs, bt) && 0 < i < |cs| == |Stamps(cs)|
    requires Parent(Stamps(cs), i) > 0 && Parent(Stamps(cs), Parent(Stamps(cs), i)) == 0
    ensures |bt| == |cs| - 1 && bt[i - 1].action == SELL
    ensures var b := cs[Parent(Stamps(cs), i)].consolidated;
            cs[i].consolidated.commission == b.commission + b.stock * Abs(rate)
  {
    hide Parent, SoundRun;
    OnFirst(rate, time, cs, bt, Parent(Stamps(cs), i));
    SoundStep(rate, time, cs, bt, i);
  }

  lemma {:induction false} NotBelowFirst(rate: real, time: real, cs: seq<BalanceChange>, bt: seq<Trade>, i: nat)
    requires SoundRun(rate, time, cs, bt) && 0 < i < |cs| == |Stamps(cs)|
    ensures cs[i].consolidated.commission >= FirstCommission(rate, cs)
  {
    hide Parent, SoundRun, FirstCommission;
    if Parent(Stamps(cs), i) == 0 {
      OnFirst(rate, time, cs, bt, i);
    } else {
      NotBelowFirst(rate, time, cs, bt, Parent(Stamps(cs), i));
      SoundStep(rate, time, cs, bt, i);
    }
  }

  lemma StampsOfRun(rate: real, time: real, cs: seq<BalanceChange>, bt: seq<Trade>)
    requires SoundRun(rate, time, cs, bt)
    ensures var ks := Stamps(cs); |ks| == |cs| == |bt| + 1 && FirstIsLeast(ks) && ks[0] == time && ks[1..] == Times(bt)
  {
    forall i | 0 < i < |cs| ensures Stamps(cs)[i] == Times(bt)[i - 1] >= time {
      assert cs[(i - 1) + 1].timestamp == bt[i - 1].timestamp;
    }
  }

  lemma NoDropOnSecond(rate: real, time: real, cs: seq<BalanceChange>, bt: seq<Trade>, x: nat, q: nat)
    requires SoundRun(rate, time, cs, bt) && 0 < x < |cs| - 1 == |Stamps(cs)| - 1
    requires Parent(Stamps(cs), x) > 0 && Parent(Stamps(cs), Parent(Stamps(cs), x)) == 0
    requires q == Parent(Stamps(cs), x + 1)
    requires q == Parent(Stamps(cs), x) || (q > 0 && Parent(Stamps(cs), q) == Parent(Stamps(cs), x))
    ensures cs[x].consolidated.commission <= cs[x + 1].consolidated.commission
  {
    hide Parent, SoundRun, Stamps, Abs, AtStake, Spent;
    OnSecond(rate, time, cs, bt, x);
    if q == Parent(Stamps(cs), x) {
      OnSecond(rate, time, cs, bt, x + 1);
    } else {
      OnSecond(rate, time, cs, bt, q);
      SoundStep(rate, time, cs, bt, x + 1);
    }
  }

  /** A change that the next one does not build on is itself one or two steps behind the first balance. */
  lemma ParentCases(ks: seq<real>, x: nat) returns (q: nat)
    requires 0 < x < |ks| - 1 && FirstIsLeast(ks) && NoneUndercuts(ks[0], ks[1..])
    ensures q == Parent(ks, x + 1)
    ensures q == x || Parent(ks, x) == 0 ||
            (Parent(ks, Parent(ks, x)) == 0 && (q == Parent(ks, x) || (q > 0 && Parent(ks, q) == Parent(ks, x))))
  {
    hide Parent, NoneUndercuts, FirstIsLeast;
    q := Parent(ks, x + 1);
    if Parent(ks, x) > 0 {
      if Parent(ks, Parent(ks, x)) > 0 {
        DeepFollows(ks, x);
      } else {
        ShallowFollows(ks, x);
      }
    }
  }

  lemma NotBelowParent(rate: real, time: real, cs: seq<BalanceChange>, bt: seq<Trade>, i: nat)
    requires SoundRun(rate, time, cs, bt) && 0 < i < |cs| == |Stamps(cs)|
    ensures cs[Parent(Stamps(cs), i)].consolidated.commission <= cs[i].consolidated.commission
  {
    hide Parent, SoundRun, Abs, AtStake, Spent;
    SoundStep(rate, time, cs, bt, i);
  }

  lemma NoDropAt(rate: real, time: real, cs: seq<BalanceChange>, bt: seq<Trade>, x: nat)
    requires SoundRun(rate, time, cs, bt) && 0 < x < |cs| - 1 && NoneUndercuts(time, Times(bt))
    ensures cs[x].consolidated.commission <= cs[x + 1].consolidated.commission
  {
    StampsOfRun(rate, time, cs, bt);
    var ks := Stamps(cs);
    var q := ParentCases(ks, x);
    var p := Parent(ks, x);
    hide *;
    if q == x {
      NotBelowParent(rate, time, cs, bt, x + 1);
    } else if p == 0 {
      OnFirst(rate, time, cs, bt, x);
      NotBelowFirst(rate, time, cs, bt, x + 1);
    } else {
      NoDropOnSecond(rate, time, cs, bt, x, q);
    }
  }

  /** Times that never step back build on the last change, or on the first of the same time. */
  lemma ForwardParent(ks: seq<real>, x: nat)
    requires 0 < x < |ks| - 1 && FirstIsLeast(ks) && NeverBack(ks[1..]) && Parent(ks, x + 1) != x
    ensures var q := Parent(ks, x + 1);
            q < x && ks[q] == ks[x] == ks[x + 1] && (q > 0 ==> ks[q - 1] < ks[q])
  {
    assert forall i :: 0 < i < |ks| ==> ks[i] == ks[1..][i - 1];
    var q := Parent(ks, x + 1);
    ParentOf(ks, x + 1, x);
    hide Parent;
    if q > 0 {
      ParentOf(ks, x + 1, q - 1);
    }
  }

  lemma Tied(ks: seq<real>, x: nat)
    requires 0 < x < |ks| - 1 && FirstIsLeast(ks) && Parent(ks, x + 1) != x
    requires NeverBack(ks[1..]) && Spread(ks[1..]) && OnceAt(ks[0], ks[1..])
    ensures Parent(ks, x + 1) == 1
  {
    hide Parent;
    assert forall i :: 0 < i < |ks| ==> ks[i] == ks[1..][i - 1];
    ForwardParent(ks, x);
  }

  lemma InTurnAt(rate: real, time: real, cs: seq<BalanceChange>, bt: seq<Trade>, x: nat)
    requires SoundRun(rate, time, cs, bt) && 0 < x < |cs| - 1
    requires NeverBack(Times(bt)) && Spread(Times(bt)) && OnceAt(time, Times(bt))
    requires |bt| == |cs| - 1 && bt[x - 1].action == BUY
    ensures bt[x].action == SELL
  {
    StampsOfRun(rate, time, cs, bt);
    var ks := Stamps(cs);
    SoundStep(rate, time, cs, bt, x);
    SoundStep(rate, time, cs, bt, x + 1);
    if Parent(ks, x + 1) != x {
      hide Parent, SoundRun, Stamps, Spread, OnceAt, Times, Abs, AtStake, Spent, FirstIsLeast;
      Tied(ks, x);
      OnFirst(rate, time, cs, bt, 1);
    }
  }

  /** Runs of decisions that leave their amount unset, as long as no balance goes negative: commissions never
      decrease if none of the times undercuts; and there is a passed SELL between any two passed BUYs if the times
      do not step back, with no third trade at one time after an earlier one, nor a second one at the very time of
      the first balance. */
  lemma AllInInTurn(rate: real, time: real, liquidity: real, events: seq<Event>)
    requires liquidity >= 0.0 && InTime(time, events) && AllIn(events)
    ensures IsRun(Start(rate, time, liquidity), events)
    ensures var l := Run(Start(rate, time, liquidity), events);
            var cs, bt := l.changes, BrokerTrades(l.trades);
            AllSound(cs) ==>
              && (NoneUndercuts(time, Times(bt)) ==> NeverDrops(cs))
              && (NeverBack(Times(bt)) && Spread(Times(bt)) && OnceAt(time, Times(bt)) ==> Alternates(bt))
  {
    var l0 := Start(rate, time, liquidity);
    StartGrounded(rate, time, liquidity);
    RunKept(l0, events, time);
    var l := Run(l0, events);
    var cs, bt := l.changes, BrokerTrades(l.trades);
    assert l0.changes <= cs && cs[0] == l0.changes[0];
    hide Run, IsRun, Start, Grounded, AllSound, BrokerTrades, Dated, NeverBack, Spread, OnceAt, NoneUndercuts;
    RunGrounded(l0, events, time);
    if AllSound(cs) {
      assert SoundRun(rate, time, cs, bt);
      InTurn(rate, time, cs, bt);
    }
  }

  lemma InTurn(rate: real, time: real, cs: seq<BalanceChange>, bt: seq<Trade>)
    requires SoundRun(rate, time, cs, bt)
    ensures NoneUndercuts(time, Times(bt)) ==> NeverDrops(cs)
    ensures NeverBack(Times(bt)) && Spread(Times(bt)) && OnceAt(time, Times(bt)) ==> Alternates(bt)
  {
    StampsOfRun(rate, time, cs, bt);
    hide SoundRun, NoneUndercuts, NeverBack, Spread, OnceAt;
    if NoneUndercuts(time, Times(bt)) {
      forall i | 0 <= i < |cs| - 1 ensures cs[i].consolidated.commission <= cs[i + 1].consolidated.commission {
        if i == 0 {
          NotBelowParent(rate, time, cs, bt, 1);
        } else {
          NoDropAt(rate, time, cs, bt, i);
        }
      }
    }
    if NeverBack(Times(bt)) && Spread(Times(bt)) && OnceAt(time, Times(bt)) {
      forall i | 0 <= i < |bt| - 1 && bt[i].action == BUY ensures bt[i + 1].action == SELL {
        InTurnAt(rate, time, cs, bt, i + 1);
      }
    }
  }
}
