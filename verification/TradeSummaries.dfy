/** The streaming aggregate of src/models/TradeSummary.hpp. */
module TradeSummaries {
  import opened Options
  import opened Models
  import opened Numbers

  // ----- one step -----

  datatype Part = Part(count: nat, price: real, volume: real, averagePrice: Option<real>)

  datatype Summary = Summary(span: TimestampSpan, buys: Part, sells: Part, spread: Option<real>, averagePrice: Option<real>)

  const EMPTY_PART: Part := Part(0, 0.0, 0.0, None)
  const EMPTY: Summary := Summary(TimestampSpan(None, None), EMPTY_PART, EMPTY_PART, None, None)

  /** A division; without a finite result (division by zero) there is no value. */
  function Quotient(a: real, b: real): Option<real> {
    if b == 0.0 then None else Some(a / b)
  }

  function AddToPart(p: Part, price: real, volume: real): Part {
    var price', volume' := p.price + volume * price, p.volume + volume;
    Part(p.count + 1, price', volume', Quotient(price', volume'))
  }

  function Spread(p: Part, q: Part): Option<real> {
    Quotient(Abs(p.price - q.price), p.volume + q.volume)
  }

  function Widen(span: TimestampSpan, t: real): TimestampSpan {
    TimestampSpan(if span.from.None? || t < span.from.value then Some(t) else span.from,
                  if span.to.None? || t > span.to.value then Some(t) else span.to)
  }

  function Bought(p: Part, t: Trade): Part {
    match t.action
    case BUY => AddToPart(p, t.price, t.volume)
    case SELL => p
    case WAIT => AddToPart(p, t.price, t.volume / 2.0)
  }

  function Sold(p: Part, t: Trade): Part {
    match t.action
    case BUY => p
    case SELL => AddToPart(p, t.price, t.volume)
    case WAIT => AddToPart(p, t.price, t.volume / 2.0)
  }

  function Derived(span: TimestampSpan, buys: Part, sells: Part): Summary {
    Summary(span, buys, sells, Spread(buys, sells), Quotient(buys.price + sells.price, buys.volume + sells.volume))
  }

  function Add(s: Summary, t: Trade): Summary {
    Derived(Widen(s.span, t.timestamp), Bought(s.buys, t), Sold(s.sells, t))
  }

  function SummarizeFrom(s: Summary, ts: seq<Trade>): Summary {
    if ts == [] then s else Add(SummarizeFrom(s, ts[..|ts| - 1]), ts[|ts| - 1])
  }

  function Summarize(ts: seq<Trade>): Summary {
    SummarizeFrom(EMPTY, ts)
  }

  // ----- order does not matter -----

  lemma PartCommutes(p: Part, price: real, volume: real, price': real, volume': real)
    ensures AddToPart(AddToPart(p, price, volume), price', volume') == AddToPart(AddToPart(p, price', volume'), price, volume)
  {
    hide Quotient;
  }

  lemma AddCommutes(s: Summary, t: Trade, u: Trade)
    ensures Add(Add(s, t), u) == Add(Add(s, u), t)
  {
    hide AddToPart, Quotient, Spread;
    PartCommutes(s.buys, t.price, if t.action == BUY then t.volume else t.volume / 2.0,
                 u.price, if u.action == BUY then u.volume else u.volume / 2.0);
    PartCommutes(s.sells, t.price, if t.action == SELL then t.volume else t.volume / 2.0,
                 u.price, if u.action == SELL then u.volume else u.volume / 2.0);
  }

  lemma AddLast(s: Summary, ts: seq<Trade>, t: Trade)
    ensures SummarizeFrom(s, ts + [t]) == Add(SummarizeFrom(s, ts), t)
  {
    assert (ts + [t])[..|ts|] == ts;
  }

  lemma {:induction false} MoveToEnd(s: Summary, a: seq<Trade>, t: Trade, b: seq<Trade>)
    ensures SummarizeFrom(s, a + [t] + b) == Add(SummarizeFrom(s, a + b), t)
  {
    hide Add;
    if b == [] {
      assert a + [t] + b == a + [t] && a + b == a;
      AddLast(s, a, t);
    } else {
      var front, last := b[..|b| - 1], b[|b| - 1];
      MoveToEnd(s, a, t, front);
      AddLast(s, a + [t] + front, last);
      AddLast(s, a + front, last);
      assert a + [t] + front + [last] == a + [t] + b && a + front + [last] == a + b;
      AddCommutes(SummarizeFrom(s, a + front), t, last);
    }
  }

  lemma TakeOut(ts: seq<Trade>, t: Trade, us: seq<Trade>) returns (a: seq<Trade>, b: seq<Trade>)
    requires multiset(ts + [t]) == multiset(us)
    ensures us == a + [t] + b && multiset(ts) == multiset(a + b)
  {
    assert t in multiset(ts + [t]);
    var k :| 0 <= k < |us| && us[k] == t;
    a, b := us[..k], us[k + 1..];
    assert us == a + [t] + b;
    assert multiset(us) == multiset(a) + multiset{t} + multiset(b);
    assert multiset(ts + [t]) == multiset(ts) + multiset{t};
    assert multiset(a + b) == multiset(a) + multiset(b);
    assert multiset(ts) + multiset{t} == multiset(a + b) + multiset{t};
    assert multiset(ts) + multiset{t} - multiset{t} == multiset(ts);
    assert multiset(a + b) + multiset{t} - multiset{t} == multiset(a + b);
  }

  /** Any permutation of the trades gives the same summary. */
  lemma {:induction false} OrderIndependent(s: Summary, ts: seq<Trade>, us: seq<Trade>)
    requires multiset(ts) == multiset(us)
    ensures SummarizeFrom(s, ts) == SummarizeFrom(s, us)
    decreases |ts|
  {
    hide Add;
    if ts == [] {
      assert |multiset(us)| == 0;
      assert us == [];
    } else {
      var front, t := ts[..|ts| - 1], ts[|ts| - 1];
      assert ts == front + [t];
      var a, b := TakeOut(front, t, us);
      OrderIndependent(s, front, a + b);
      MoveToEnd(s, a, t, b);
    }
  }

  // ----- summaries of parts of a log add up -----

  function MergeParts(p: Part, q: Part): Part {
    if q.count == 0 then p
    else Part(p.count + q.count, p.price + q.price, p.volume + q.volume,
              Quotient(p.price + q.price, p.volume + q.volume))
  }

  function MergeSpans(a: TimestampSpan, b: TimestampSpan): TimestampSpan {
    if b.from.None? || b.to.None? then a else Widen(Widen(a, b.from.value), b.to.value)
  }

  function Merge(a: Summary, b: Summary): Summary {
    if b.buys.count + b.sells.count == 0 then a
    else Derived(MergeSpans(a.span, b.span), MergeParts(a.buys, b.buys), MergeParts(a.sells, b.sells))
  }

  ghost predicate ConsistentPart(p: Part) {
    if p.count == 0 then p == EMPTY_PART else p.averagePrice == Quotient(p.price, p.volume)
  }

  ghost predicate Consistent(s: Summary) {
    && ConsistentPart(s.buys) && ConsistentPart(s.sells)
    && (s.span.from.Some? <==> s.span.to.Some?)
    && (s.span.from.Some? ==> s.span.from.value <= s.span.to.value)
    && if s.buys.count + s.sells.count == 0 then s == EMPTY
       else s.span.from.Some? && s == Derived(s.span, s.buys, s.sells)
  }

  lemma {:induction false} SummariesConsistent(ts: seq<Trade>)
    ensures Consistent(Summarize(ts))
  {
    if ts != [] {
      SummariesConsistent(ts[..|ts| - 1]);
    }
  }

  lemma MergeAddPart(p: Part, q: Part, price: real, volume: real)
    requires ConsistentPart(p) && ConsistentPart(q)
    ensures MergeParts(p, AddToPart(q, price, volume)) == AddToPart(MergeParts(p, q), price, volume)
  {
    hide Quotient;
  }

  lemma MergeWiden(a: TimestampSpan, b: TimestampSpan, t: real)
    requires b.from.Some? <==> b.to.Some?
    requires b.from.Some? ==> b.from.value <= b.to.value
    ensures MergeSpans(a, Widen(b, t)) == Widen(MergeSpans(a, b), t)
  {
  }

  lemma MergeAdd(a: Summary, b: Summary, t: Trade)
    requires Consistent(a) && Consistent(b)
    ensures Merge(a, Add(b, t)) == Add(Merge(a, b), t)
  {
    MergeAddPart(a.buys, b.buys, t.price, if t.action == BUY then t.volume else t.volume / 2.0);
    MergeAddPart(a.sells, b.sells, t.price, if t.action == SELL then t.volume else t.volume / 2.0);
    MergeWiden(a.span, b.span, t.timestamp);
    MergeNothing(a.buys, b.buys);
    MergeNothing(a.sells, b.sells);
    CountGrows(b, t);
    hide AddToPart, MergeParts, MergeSpans, Widen, Quotient, Spread;
  }

  lemma MergeNothing(p: Part, q: Part)
    ensures q.count == 0 ==> MergeParts(p, q) == p
  {
  }

  lemma CountGrows(b: Summary, t: Trade)
    ensures Add(b, t).buys.count + Add(b, t).sells.count > 0
    ensures MergeSpans(b.span, TimestampSpan(None, None)) == b.span
  {
  }

  /** The summary of a list is the merged summary of its two halves. */
  lemma {:induction false} SummariesAdd(ts: seq<Trade>, us: seq<Trade>)
    ensures Summarize(ts + us) == Merge(Summarize(ts), Summarize(us))
  {
    hide Add, Merge, Consistent;
    if us == [] {
      assert ts + us == ts;
      MergeEmpty(Summarize(ts));
    } else {
      var front, last := us[..|us| - 1], us[|us| - 1];
      SummariesAdd(ts, front);
      SummariesConsistent(ts);
      SummariesConsistent(front);
      MergeAdd(Summarize(ts), Summarize(front), last);
      AddLast(EMPTY, ts + front, last);
      assert ts + front + [last] == ts + us;
    }
  }

  lemma MergeEmpty(s: Summary)
    ensures Merge(s, EMPTY) == s
  {
  }

  // ----- what is summed -----

  /** How much volume counts for one side: all of it, half of it if the type is undefined. */
  function Share(t: Trade, side: ActionType): real {
    if t.action == side then t.volume else if t.action == WAIT then t.volume / 2.0 else 0.0
  }

  function TotalVolume(ts: seq<Trade>, side: ActionType): real {
    if ts == [] then 0.0 else TotalVolume(ts[..|ts| - 1], side) + Share(ts[|ts| - 1], side)
  }

  function TotalWorth(ts: seq<Trade>, side: ActionType): real {
    if ts == [] then 0.0
    else TotalWorth(ts[..|ts| - 1], side) + Share(ts[|ts| - 1], side) * ts[|ts| - 1].price
  }

  function TotalCount(ts: seq<Trade>, side: ActionType): nat {
    if ts == [] then 0
    else TotalCount(ts[..|ts| - 1], side) + if ts[|ts| - 1].action == side || ts[|ts| - 1].action == WAIT then 1 else 0
  }

  ghost predicate Sums(p: Part, ts: seq<Trade>, side: ActionType) {
    && p.count == TotalCount(ts, side)
    && p.volume == TotalVolume(ts, side)
    && p.price == TotalWorth(ts, side)
  }

  ghost predicate Spans(span: TimestampSpan, ts: seq<Trade>) {
    if ts == [] then span == TimestampSpan(None, None)
    else
      && span.from.Some? && span.to.Some?
      && (forall t :: t in ts ==> span.from.value <= t.timestamp <= span.to.value)
      && (exists t :: t in ts && t.timestamp == span.from.value)
      && (exists t :: t in ts && t.timestamp == span.to.value)
  }

  /** Both sides hold the totals of their trades, and the span is from the first to the last one. */
  lemma {:induction false} SummaryTotals(ts: seq<Trade>)
    ensures Sums(Summarize(ts).buys, ts, BUY) && Sums(Summarize(ts).sells, ts, SELL)
    ensures Spans(Summarize(ts).span, ts)
  {
    if ts != [] {
      var front, t := ts[..|ts| - 1], ts[|ts| - 1];
      SummaryTotals(front);
      TotalsMore(Summarize(front), front, t);
      SpanMore(Summarize(front).span, front, t);
      assert ts == front + [t];
    }
  }

  lemma PartMore(p: Part, ts: seq<Trade>, t: Trade, side: ActionType)
    requires Sums(p, ts, side) && side != WAIT
    ensures t.action == side || t.action == WAIT ==> Sums(AddToPart(p, t.price, Share(t, side)), ts + [t], side)
    ensures t.action != side && t.action != WAIT ==> Sums(p, ts + [t], side)
  {
    assert (ts + [t])[..|ts|] == ts;
    var share := Share(t, side);
    assert t.action != side && t.action != WAIT ==> share == 0.0;
    hide Quotient, Share;
    assert 0.0 * t.price == 0.0;
  }

  lemma TotalsMore(s: Summary, ts: seq<Trade>, t: Trade)
    requires Sums(s.buys, ts, BUY) && Sums(s.sells, ts, SELL)
    ensures Sums(Add(s, t).buys, ts + [t], BUY) && Sums(Add(s, t).sells, ts + [t], SELL)
  {
    PartMore(s.buys, ts, t, BUY);
    PartMore(s.sells, ts, t, SELL);
    hide AddToPart, Sums, Quotient, Spread;
  }

  lemma SpanMore(span: TimestampSpan, ts: seq<Trade>, t: Trade)
    requires Spans(span, ts)
    ensures Spans(Widen(span, t.timestamp), ts + [t])
  {
    var all, span' := ts + [t], Widen(span, t.timestamp);
    assert t in all;
    if ts != [] {
      var first :| first in ts && first.timestamp == span.from.value;
      var last :| last in ts && last.timestamp == span.to.value;
      assert first in all && last in all;
    }
  }

  lemma QuotientTimes(a: real, b: real)
    ensures Quotient(a, b).Some? <==> b != 0.0
    ensures Quotient(a, b).Some? ==> Quotient(a, b).value * b == a
  {
  }

  ghost predicate Means(average: Option<real>, spread: Option<real>, volume: real, bought: real, sold: real) {
    && (average.Some? <==> volume != 0.0) && (spread.Some? <==> volume != 0.0)
    && (volume != 0.0 ==> average.value * volume == bought + sold)
    && (volume != 0.0 ==> spread.value * volume == if bought < sold then sold - bought else bought - sold)
  }

  lemma DerivedMeans(span: TimestampSpan, p: Part, q: Part)
    ensures var s := Derived(span, p, q); Means(s.averagePrice, s.spread, p.volume + q.volume, p.price, q.price)
  {
    QuotientTimes(p.price + q.price, p.volume + q.volume);
    QuotientTimes(Abs(p.price - q.price), p.volume + q.volume);
    hide Quotient;
  }

  /** The average price times the total volume is the total worth, and the spread times the total
      volume is the difference in worth between the sides; both exist unless that volume is zero. */
  lemma AverageAndSpread(ts: seq<Trade>)
    requires ts != []
    ensures Means(Summarize(ts).averagePrice, Summarize(ts).spread, TotalVolume(ts, BUY) + TotalVolume(ts, SELL),
                  TotalWorth(ts, BUY), TotalWorth(ts, SELL))
  {
    SummaryTotals(ts);
    LastStep(ts);
    hide Summarize, TotalVolume, TotalWorth, TotalCount, Derived, Means, Spans;
    DerivedMeans(Summarize(ts).span, Summarize(ts).buys, Summarize(ts).sells);
  }

  lemma LastStep(ts: seq<Trade>)
    requires ts != []
    ensures Summarize(ts) == Derived(Summarize(ts).span, Summarize(ts).buys, Summarize(ts).sells)
  {
    hide Derived;
    assert Summarize(ts) == Add(Summarize(ts[..|ts| - 1]), ts[|ts| - 1]);
    DerivedFields(Widen(Summarize(ts[..|ts| - 1]).span, ts[|ts| - 1].timestamp),
                  Bought(Summarize(ts[..|ts| - 1]).buys, ts[|ts| - 1]), Sold(Summarize(ts[..|ts| - 1]).sells, ts[|ts| - 1]));
  }

  lemma DerivedFields(span: TimestampSpan, buys: Part, sells: Part)
    ensures var s := Derived(span, buys, sells); s.span == span && s.buys == buys && s.sells == sells
  {
  }

  /** So for each side: its average price times its volume is its worth. */
  lemma SideAverages(ts: seq<Trade>)
    ensures var s := Summarize(ts);
            && SideMeans(s.buys, TotalCount(ts, BUY), TotalVolume(ts, BUY), TotalWorth(ts, BUY))
            && SideMeans(s.sells, TotalCount(ts, SELL), TotalVolume(ts, SELL), TotalWorth(ts, SELL))
  {
    SummaryTotals(ts);
    SummariesConsistent(ts);
    var s := Summarize(ts);
    QuotientTimes(s.buys.price, s.buys.volume);
    QuotientTimes(s.sells.price, s.sells.volume);
    hide Summarize, TotalVolume, TotalWorth, TotalCount, Quotient, Spans, Derived;
  }

  ghost predicate SideMeans(p: Part, count: nat, volume: real, worth: real) {
    && (p.averagePrice.Some? <==> count > 0 && volume != 0.0)
    && (p.averagePrice.Some? ==> p.averagePrice.value * volume == worth)
  }

  // ----- what is split between the sides -----

  function Volume(ts: seq<Trade>): real {
    if ts == [] then 0.0 else Volume(ts[..|ts| - 1]) + ts[|ts| - 1].volume
  }

  function Worth(ts: seq<Trade>): real {
    if ts == [] then 0.0 else Worth(ts[..|ts| - 1]) + ts[|ts| - 1].volume * ts[|ts| - 1].price
  }

  /** Together the sides hold the volume and the worth of all trades, whatever their types. */
  lemma {:induction false} NothingLost(ts: seq<Trade>)
    ensures Summarize(ts).buys.volume + Summarize(ts).sells.volume == Volume(ts)
    ensures Summarize(ts).buys.price + Summarize(ts).sells.price == Worth(ts)
  {
    if ts != [] {
      NothingLost(ts[..|ts| - 1]);
      OneTrade(Summarize(ts[..|ts| - 1]), ts[|ts| - 1]);
      hide Add;
    }
  }

  lemma OneTrade(s: Summary, t: Trade)
    ensures Add(s, t).buys.volume + Add(s, t).sells.volume == s.buys.volume + s.sells.volume + t.volume
    ensures Add(s, t).buys.price + Add(s, t).sells.price == s.buys.price + s.sells.price + t.volume * t.price
  {
    hide Quotient, Spread, AddToPart;
    var half := t.volume / 2.0;
    HalfTwice(t.volume, t.price);
    PartSums(s.buys, t.price, if t.action == BUY then t.volume else half);
    PartSums(s.sells, t.price, if t.action == SELL then t.volume else half);
  }

  lemma HalfTwice(volume: real, price: real)
    ensures volume / 2.0 * price + volume / 2.0 * price == volume * price
  {
  }

  lemma PartSums(p: Part, price: real, volume: real)
    ensures AddToPart(p, price, volume).volume == p.volume + volume
    ensures AddToPart(p, price, volume).price == p.price + volume * price
  {
  }

  function Flipped(t: Trade): Trade {
    t.(action := if t.action == BUY then SELL else if t.action == SELL then BUY else WAIT)
  }

  function FlippedAll(ts: seq<Trade>): (r: seq<Trade>)
    ensures |r| == |ts|
  {
    seq(|ts|, i requires 0 <= i < |ts| => Flipped(ts[i]))
  }

  /** Turning BUYs into SELLs and SELLs into BUYs exchanges the sides and changes nothing else. */
  lemma {:induction false} FlipExchanges(ts: seq<Trade>)
    ensures var s, r := Summarize(ts), Summarize(FlippedAll(ts));
            && r.buys == s.sells && r.sells == s.buys && r.span == s.span
            && r.spread == s.spread && r.averagePrice == s.averagePrice
  {
    if ts != [] {
      var front, t := ts[..|ts| - 1], ts[|ts| - 1];
      FlipExchanges(front);
      assert FlippedAll(ts)[..|ts| - 1] == FlippedAll(front);
      FlipOne(Summarize(front), Summarize(FlippedAll(front)), t);
      hide Add;
    }
  }

  lemma FlipOne(s: Summary, r: Summary, t: Trade)
    requires r.buys == s.sells && r.sells == s.buys && r.span == s.span
    ensures var s', r' := Add(s, t), Add(r, Flipped(t));
            && r'.buys == s'.sells && r'.sells == s'.buys && r'.span == s'.span
            && r'.spread == s'.spread && r'.averagePrice == s'.averagePrice
  {
    hide AddToPart, Widen;
    var b, c := Bought(s.buys, t), Sold(s.sells, t);
    assert Abs(b.price - c.price) == Abs(c.price - b.price);
  }

  // ----- the average is between the extremes -----

  ghost predicate PricedWithin(t: Trade, low: real, high: real) {
    t.volume > 0.0 && low <= t.price <= high
  }

  ghost predicate Weighted(p: Part, low: real, high: real) {
    && p.volume >= 0.0 && (p.volume == 0.0 <==> p.count == 0)
    && low * p.volume <= p.price <= high * p.volume
  }

  lemma WeightedMore(p: Part, price: real, volume: real, low: real, high: real)
    requires Weighted(p, low, high) && volume > 0.0 && low <= price <= high
    ensures Weighted(AddToPart(p, price, volume), low, high)
  {
    assert low * volume <= price * volume <= high * volume;
    assert low * (p.volume + volume) == low * p.volume + low * volume;
    assert high * (p.volume + volume) == high * p.volume + high * volume;
  }

  lemma {:induction false} PartsWeighted(ts: seq<Trade>, low: real, high: real)
    requires forall t :: t in ts ==> PricedWithin(t, low, high)
    ensures Weighted(Summarize(ts).buys, low, high) && Weighted(Summarize(ts).sells, low, high)
    ensures ts != [] ==> Summarize(ts).buys.count + Summarize(ts).sells.count > 0
  {
    if ts == [] {
      assert Weighted(EMPTY_PART, low, high);
    } else {
      var front, t := ts[..|ts| - 1], ts[|ts| - 1];
      PartsWeighted(front, low, high);
      assert PricedWithin(t, low, high);
      var s := Summarize(front);
      hide Weighted;
      if t.action != SELL {
        WeightedMore(s.buys, t.price, if t.action == BUY then t.volume else t.volume / 2.0, low, high);
      }
      if t.action != BUY {
        WeightedMore(s.sells, t.price, if t.action == SELL then t.volume else t.volume / 2.0, low, high);
      }
    }
  }

  lemma QuotientWithin(a: real, b: real, low: real, high: real)
    requires b > 0.0 && low * b <= a <= high * b
    ensures Quotient(a, b).Some? && low <= Quotient(a, b).value <= high
  {
    var q := a / b;
    assert q * b == a;
    if q < low {
      assert (low - q) * b > 0.0;
    }
    if q > high {
      assert (q - high) * b > 0.0;
    }
  }

  lemma AveragesAreQuotients(ts: seq<Trade>)
    requires Summarize(ts).buys.count + Summarize(ts).sells.count > 0
    ensures var s := Summarize(ts);
            && s.averagePrice == Quotient(s.buys.price + s.sells.price, s.buys.volume + s.sells.volume)
            && (s.buys.count > 0 ==> s.buys.averagePrice == Quotient(s.buys.price, s.buys.volume))
            && (s.sells.count > 0 ==> s.sells.averagePrice == Quotient(s.sells.price, s.sells.volume))
  {
    SummariesConsistent(ts);
    hide Quotient, Spread, Summarize;
  }

  ghost predicate Within(q: Option<real>, low: real, high: real) {
    q.Some? && low <= q.value <= high
  }

  lemma SideWithin(p: Part, low: real, high: real)
    requires Weighted(p, low, high) && p.count > 0
    ensures Within(Quotient(p.price, p.volume), low, high)
  {
    QuotientWithin(p.price, p.volume, low, high);
  }

  lemma BothWithin(p: Part, q: Part, low: real, high: real)
    requires Weighted(p, low, high) && Weighted(q, low, high) && p.count + q.count > 0
    ensures Within(Quotient(p.price + q.price, p.volume + q.volume), low, high)
  {
    var v := p.volume + q.volume;
    assert low * v == low * p.volume + low * q.volume;
    assert high * v == high * p.volume + high * q.volume;
    QuotientWithin(p.price + q.price, v, low, high);
  }

  /** For positive volumes every average price is one between the lowest and the highest price,
      trades of undefined type being split in half between both sides. */
  lemma AverageWithinPrices(ts: seq<Trade>, low: real, high: real)
    requires ts != [] && forall t :: t in ts ==> PricedWithin(t, low, high)
    ensures var s := Summarize(ts);
            && Within(s.averagePrice, low, high)
            && (s.buys.count > 0 ==> Within(s.buys.averagePrice, low, high))
            && (s.sells.count > 0 ==> Within(s.sells.averagePrice, low, high))
  {
    hide Quotient, Weighted, Summarize, Within, PricedWithin;
    var s := Summarize(ts);
    PartsWeighted(ts, low, high);
    AveragesAreQuotients(ts);
    BothWithin(s.buys, s.sells, low, high);
    if s.buys.count > 0 {
      SideWithin(s.buys, low, high);
    }
    if s.sells.count > 0 {
      SideWithin(s.sells, low, high);
    }
  }

  // ----- the imperative form -----

  class TradeSummaryPart {
    var count: nat
    var price: real
    var volume: real
    var averagePrice: Option<real>

    ghost function State(): Part
      reads this
    {
      Part(count, price, volume, averagePrice)
    }

    constructor ()
      ensures State() == EMPTY_PART
    {
      count, price, volume, averagePrice := 0, 0.0, 0.0, None;
    }

    method AddTrade(trade: Trade)
      modifies this
      ensures State() == AddToPart(old(State()), trade.price, trade.volume)
    {
      count := count + 1;
      volume := volume + trade.volume;
      price := price + trade.volume * trade.price;
      averagePrice := Quotient(price, volume);
    }

    function ComputeSpreadWith(other: TradeSummaryPart): (r: Option<real>)
      reads this, other
      ensures r == Spread(State(), other.State()) == Spread(other.State(), State())
    {
      Quotient(Abs(price - other.price), volume + other.volume)
    }
  }

  class TradeSummary {
    var span: TimestampSpan
    const buys: TradeSummaryPart
    const sells: TradeSummaryPart
    var spread: Option<real>
    var averagePrice: Option<real>

    ghost predicate Valid() {
      buys != sells
    }

    ghost function State(): Summary
      reads this, buys, sells
    {
      Summary(span, buys.State(), sells.State(), spread, averagePrice)
    }

    constructor ()
      ensures Valid() && State() == EMPTY && fresh(buys) && fresh(sells)
    {
      span, spread, averagePrice := TimestampSpan(None, None), None, None;
      buys := new TradeSummaryPart();
      sells := new TradeSummaryPart();
    }

    method AddTrade(trade: Trade)
      requires Valid()
      modifies this, buys, sells
      ensures State() == Add(old(State()), trade)
    {
      hide AddToPart, Quotient, Abs;
      if span.from.None? || trade.timestamp < span.from.value {
        span := span.(from := Some(trade.timestamp));
      }
      if span.to.None? || trade.timestamp > span.to.value {
        span := span.(to := Some(trade.timestamp));
      }
      match trade.action {
        case BUY =>
          buys.AddTrade(trade);
        case SELL =>
          sells.AddTrade(trade);
        case WAIT =>
          buys.AddTrade(trade.(volume := trade.volume / 2.0));
          sells.AddTrade(trade.(volume := trade.volume / 2.0));
      }
      spread := buys.ComputeSpreadWith(sells);
      averagePrice := Quotient(buys.price + sells.price, buys.volume + sells.volume);
    }
  }
}
