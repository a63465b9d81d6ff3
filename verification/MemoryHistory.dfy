/** src/history/MemoryHistory.hpp: a log of everything fed and the indexes kept beside it, against the
    linear scans that src/history/History.hpp defines for the same queries. */
module MemoryHistories {
  import opened Options
  import opened Models
  import opened Multimaps
  import opened Ranges
  import opened TradeSummaries

  // ----- entries of the indexes -----

  function TradeEntries(ts: seq<Trade>): (es: seq<Pair<Trade>>)
    ensures |es| == |ts|
  {
    seq(|ts|, i requires 0 <= i < |ts| => Pair(ts[i].timestamp, ts[i]))
  }

  function TradeEntriesById(ts: seq<Trade>): (es: seq<Pair<Trade>>)
    ensures |es| == |ts|
  {
    seq(|ts|, i requires 0 <= i < |ts| => Pair(ts[i].id as real, ts[i]))
  }

  function ChangeEntries(cs: seq<BalanceChange>): (es: seq<Pair<BalanceChange>>)
    ensures |es| == |cs|
  {
    seq(|cs|, i requires 0 <= i < |cs| => Pair(cs[i].timestamp, cs[i]))
  }

  function DecisionEntries(ds: seq<Decision>): (es: seq<Pair<Decision>>)
    ensures |es| == |ds|
  {
    seq(|ds|, i requires 0 <= i < |ds| => Pair(ds[i].timestamp, ds[i]))
  }

  lemma TradeEntriesGrow(ts: seq<Trade>, t: Trade)
    ensures TradeEntries(ts + [t]) == TradeEntries(ts) + [Pair(t.timestamp, t)]
    ensures TradeEntriesById(ts + [t]) == TradeEntriesById(ts) + [Pair(t.id as real, t)]
  {
  }

  lemma ChangeEntriesGrow(cs: seq<BalanceChange>, c: BalanceChange)
    ensures ChangeEntries(cs + [c]) == ChangeEntries(cs) + [Pair(c.timestamp, c)]
  {
  }

  lemma DecisionEntriesGrow(ds: seq<Decision>, d: Decision)
    ensures DecisionEntries(ds + [d]) == DecisionEntries(ds) + [Pair(d.timestamp, d)]
  {
  }

  lemma IndexGrows<T>(es: seq<Pair<T>>, p: Pair<T>)
    ensures Index(es + [p]) == Insert(Index(es), p)
  {
    assert (es + [p])[..|es|] == es;
  }

  // ----- trades by time -----

  predicate InRange(t: Trade, begin: real, end: real) {
    begin < t.timestamp <= end
  }

  /** What the index gives for a time range. */
  function Indexed(ts: seq<Trade>, begin: real, end: real): seq<Trade> {
    Values(Between(Index(TradeEntries(ts)), begin, end))
  }

  /** What a scan of the whole log gives. */
  function Scanned(ts: seq<Trade>, begin: real, end: real): seq<Trade> {
    Filter(ts, t => InRange(t, begin, end))
  }

  lemma {:induction false} ScanEntries(ts: seq<Trade>, begin: real, end: real)
    ensures TradeEntries(Scanned(ts, begin, end)) == Between(TradeEntries(ts), begin, end)
  {
    if ts != [] {
      ScanEntries(ts[1..], begin, end);
      var p := Pair(ts[0].timestamp, ts[0]);
      assert TradeEntries(ts) == [p] + TradeEntries(ts[1..]);
      BetweenFirst(p, TradeEntries(ts[1..]), begin, end);
      var rest := Scanned(ts[1..], begin, end);
      assert TradeEntries([ts[0]] + rest) == [p] + TradeEntries(rest);
    }
  }

  /** Every entry of the trade index carries its own trade's timestamp. */
  ghost predicate Stamped(es: seq<Pair<Trade>>) {
    forall i :: 0 <= i < |es| ==> es[i].key == es[i].value.timestamp
  }

  lemma {:induction false} InsertStamped(m: seq<Pair<Trade>>, p: Pair<Trade>)
    requires Stamped(m) && p.key == p.value.timestamp
    ensures Stamped(Insert(m, p))
  {
    if m != [] && m[|m| - 1].key > p.key {
      InsertStamped(m[..|m| - 1], p);
    }
  }

  lemma {:induction false} IndexStamped(es: seq<Pair<Trade>>)
    requires Stamped(es)
    ensures Stamped(Index(es))
  {
    if es != [] {
      IndexStamped(es[..|es| - 1]);
      InsertStamped(Index(es[..|es| - 1]), es[|es| - 1]);
    }
  }

  lemma {:induction false} BetweenStamped(es: seq<Pair<Trade>>, begin: real, end: real)
    requires Stamped(es)
    ensures Stamped(Between(es, begin, end))
  {
    if es != [] {
      BetweenStamped(es[..|es| - 1], begin, end);
    }
  }

  /** The indexed query is the stable sort by timestamp of the scan, with equal timestamps in feed
      order; it is the only sequence that is; and it is empty for an empty range. */
  lemma IndexRefinesScan(ts: seq<Trade>, begin: real, end: real)
    ensures IsStableSort(TradeEntries(Indexed(ts, begin, end)), TradeEntries(Scanned(ts, begin, end)))
    ensures begin >= end ==> Indexed(ts, begin, end) == []
    ensures forall us :: IsStableSort(TradeEntries(us), TradeEntries(Scanned(ts, begin, end))) ==> us == Indexed(ts, begin, end)
  {
    var es := TradeEntries(ts);
    var found := Between(Index(es), begin, end);
    ScanEntries(ts, begin, end);
    IndexStamped(es);
    BetweenStamped(Index(es), begin, end);
    assert TradeEntries(Values(found)) == found;
    IndexRange(es, begin, end, found);
    forall us | IsStableSort(TradeEntries(us), Between(es, begin, end)) ensures us == Values(found) {
      IndexRange(es, begin, end, TradeEntries(us));
      assert Values(TradeEntries(us)) == us;
    }
    if begin >= end {
      NothingBetween(Index(es), begin, end);
    }
  }

  /** Index and scan both give the trades later than the begin of the range and not later than its end, each as
      often as it was fed. */
  lemma RangeExactly(ts: seq<Trade>, begin: real, end: real, t: Trade)
    ensures multiset(Indexed(ts, begin, end))[t] == multiset(Scanned(ts, begin, end))[t] ==
            if begin < t.timestamp && t.timestamp <= end then multiset(ts)[t] else 0
  {
    FilterCounts(ts, t => InRange(t, begin, end), t);
    IndexPermutes(TradeEntries(ts), begin, end);
    ScanEntries(ts, begin, end);
    assert Values(TradeEntries(Scanned(ts, begin, end))) == Scanned(ts, begin, end);
  }

  // ----- summaries -----

  lemma {:induction false} BetweenInsert<T>(m: seq<Pair<T>>, p: Pair<T>, begin: real, end: real)
    ensures multiset(Values(Between(Insert(m, p), begin, end)))
         == multiset(Values(Between(m, begin, end))) + if begin < p.key <= end then multiset{p.value} else multiset{}
  {
    if m == [] || m[|m| - 1].key <= p.key {
      BetweenLast(m, p, begin, end);
    } else {
      var front, last := m[..|m| - 1], m[|m| - 1];
      BetweenInsert(front, p, begin, end);
      BetweenLast(Insert(front, p), last, begin, end);
      BetweenLast(front, last, begin, end);
      assert m == front + [last];
    }
  }

  lemma BetweenLast<T>(es: seq<Pair<T>>, p: Pair<T>, begin: real, end: real)
    ensures multiset(Values(Between(es + [p], begin, end)))
         == multiset(Values(Between(es, begin, end))) + if begin < p.key <= end then multiset{p.value} else multiset{}
  {
    assert (es + [p])[..|es|] == es;
    var front := Between(es, begin, end);
    assert Values(front + [p]) == Values(front) + [p.value];
  }

  lemma {:induction false} IndexPermutes<T>(es: seq<Pair<T>>, begin: real, end: real)
    ensures multiset(Values(Between(Index(es), begin, end))) == multiset(Values(Between(es, begin, end)))
  {
    if es != [] {
      hide Between, Values, Index, Insert;
      var front, last := es[..|es| - 1], es[|es| - 1];
      assert es == front + [last];
      IndexPermutes(front, begin, end);
      IndexGrows(front, last);
      BetweenInsert(Index(front), last, begin, end);
      BetweenLast(front, last, begin, end);
    }
  }

  /** A summary over a time range is the same from the index as from a scan. */
  lemma SummaryRefinesScan(ts: seq<Trade>, begin: real, end: real)
    ensures Summarize(Indexed(ts, begin, end)) == Summarize(Scanned(ts, begin, end))
  {
    IndexPermutes(TradeEntries(ts), begin, end);
    ScanEntries(ts, begin, end);
    assert Values(TradeEntries(Scanned(ts, begin, end))) == Scanned(ts, begin, end);
    OrderIndependent(EMPTY, Indexed(ts, begin, end), Scanned(ts, begin, end));
  }

  lemma {:induction false} RangeSplits<T>(m: seq<Pair<T>>, a: real, b: real, c: real)
    requires Sorted(m) && a <= b <= c
    ensures Between(m, a, c) == Between(m, a, b) + Between(m, b, c)
  {
    if m != [] {
      var front, last := m[..|m| - 1], m[|m| - 1];
      RangeSplits(front, a, b, c);
      if last.key <= b {
        NothingBetween(m, b, c);
        NothingBetween(front, b, c);
      }
    }
  }

  /** Summaries of adjoining time ranges add up to the summary of the whole range. */
  lemma SummaryOfRangeSplits(ts: seq<Trade>, a: real, b: real, c: real)
    requires a <= b <= c
    ensures Summarize(Indexed(ts, a, c)) == Merge(Summarize(Indexed(ts, a, b)), Summarize(Indexed(ts, b, c)))
  {
    var m := Index(TradeEntries(ts));
    IndexIsStableSort(TradeEntries(ts));
    RangeSplits(m, a, b, c);
    assert Values(Between(m, a, b) + Between(m, b, c)) == Values(Between(m, a, b)) + Values(Between(m, b, c));
    SummariesAdd(Indexed(ts, a, b), Indexed(ts, b, c));
  }

  // ----- the time span -----

  function ScanSpan(ts: seq<Trade>): TimestampSpan {
    if ts == [] then TimestampSpan(None, None) else Widen(ScanSpan(ts[..|ts| - 1]), ts[|ts| - 1].timestamp)
  }

  function IndexSpan<T>(m: seq<Pair<T>>): TimestampSpan {
    if m == [] then TimestampSpan(None, None) else TimestampSpan(Some(m[0].key), Some(m[|m| - 1].key))
  }

  lemma InsertSpan<T>(m: seq<Pair<T>>, p: Pair<T>)
    requires Sorted(m)
    ensures IndexSpan(Insert(m, p)) == Widen(IndexSpan(m), p.key)
    decreases |m|
  {
    if m != [] && m[|m| - 1].key > p.key {
      InsertSpan(m[..|m| - 1], p);
    }
  }

  /** The ends of the index are the least and the greatest timestamp of the log. */
  lemma {:induction false} SpanRefinesScan(ts: seq<Trade>)
    ensures IndexSpan(Index(TradeEntries(ts))) == ScanSpan(ts)
  {
    if ts != [] {
      var front, last := ts[..|ts| - 1], ts[|ts| - 1];
      SpanRefinesScan(front);
      assert TradeEntries(ts) == TradeEntries(front) + [Pair(last.timestamp, last)];
      IndexGrows(TradeEntries(front), Pair(last.timestamp, last));
      IndexIsStableSort(TradeEntries(front));
      InsertSpan(Index(TradeEntries(front)), Pair(last.timestamp, last));
    }
  }

  // ----- balances by time -----

  /** There is an entry at or before the given time. Otherwise the original steps back from the
      beginning of the index, which is undefined. */
  ghost predicate Covers<T>(m: seq<Pair<T>>, t: real) {
    m != [] && m[0].key <= t
  }

  /** The entry that the balance lookup ends at. */
  function LookupIndex<T>(m: seq<Pair<T>>, t: real): (i: nat)
    requires Covers(m, t)
    ensures i < |m|
  {
    var i := LowerBound(m, t);
    if i < |m| && m[i].key == t then i else i - 1
  }

  lemma {:induction false} BoundIs<T>(m: seq<Pair<T>>, key: real, l: nat, u: nat)
    requires l <= u <= |m|
    requires forall i :: 0 <= i < l ==> m[i].key < key
    requires forall i :: l <= i < u ==> m[i].key == key
    requires forall i :: u <= i < |m| ==> m[i].key > key
    ensures LowerBound(m, key) == l && UpperBound(m, key) == u && |WithKey(m, key)| == u - l
  {
    if m != [] {
      var front := m[..|m| - 1];
      var l', u' := if l == |m| then l - 1 else l, if u == |m| then u - 1 else u;
      BoundIs(front, key, l', u');
    }
  }

  lemma CountWithKey<T>(m: seq<Pair<T>>, key: real)
    requires Sorted(m)
    ensures |WithKey(m, key)| == UpperBound(m, key) - LowerBound(m, key)
  {
    BoundIs(m, key, LowerBound(m, key), UpperBound(m, key));
  }

  /** The lookup finds the latest entry at or before a time exactly when no two entries have that
      very time; when several have it, it finds the one that was fed first. */
  lemma LookupIsLatest<T>(m: seq<Pair<T>>, t: real)
    requires Sorted(m) && Covers(m, t)
    ensures m[LookupIndex(m, t)].key <= t
    ensures LookupIndex(m, t) == UpperBound(m, t) - 1 <==> |WithKey(m, t)| <= 1
    ensures |WithKey(m, t)| >= 1 ==> LookupIndex(m, t) == LowerBound(m, t) && m[LookupIndex(m, t)].key == t
  {
    CountWithKey(m, t);
  }

  /** The lookup prefers an entry fed later when it is at a later time not after the one asked for, or at the same
      time before it. */
  predicate Prefers(later: real, earlier: real, t: real) {
    later <= t && (earlier < later || earlier == later < t || t < earlier)
  }

  /** The place of a lookup among entries fed with these keys, in whatever order: the first one fed with the key
      asked for, and if there is none, the last one fed with the greatest key below. */
  ghost predicate Found(keys: seq<real>, t: real, b: nat) {
    && b < |keys| && keys[b] <= t
    && forall i :: 0 <= i < |keys| && keys[i] <= t ==>
         keys[i] < keys[b] || (keys[i] == keys[b] && if keys[b] == t then b <= i else i <= b)
  }

  function Base(keys: seq<real>, t: real): (b: nat)
    requires keys != []
    ensures b < |keys| && ((exists i :: 0 <= i < |keys| && keys[i] <= t) <==> Found(keys, t, b))
  {
    var last := |keys| - 1;
    if last == 0 then 0
    else
      var b := Base(keys[..last], t);
      if Prefers(keys[last], keys[b], t) then last else b
  }

  function Keys<T>(es: seq<Pair<T>>): seq<real> {
    seq(|es|, i requires 0 <= i < |es| => es[i].key)
  }

  lemma {:induction false} InsertIs<T>(m: seq<Pair<T>>, p: Pair<T>) returns (u: nat)
    requires Sorted(m)
    ensures u <= |m| && Insert(m, p) == m[..u] + [p] + m[u..]
    ensures (forall i :: 0 <= i < u ==> m[i].key <= p.key) && forall i :: u <= i < |m| ==> p.key < m[i].key
  {
    u := |m|;
    if m != [] && m[|m| - 1].key > p.key {
      u := InsertIs(m[..|m| - 1], p);
    }
  }

  ghost predicate Lands<T>(m: seq<Pair<T>>, t: real, k: nat) {
    && k < |m|
    && if m[k].key == t then k > 0 ==> m[k - 1].key < t
       else m[k].key < t && (k + 1 < |m| ==> t < m[k + 1].key)
  }

  lemma LookupLands<T>(m: seq<Pair<T>>, t: real, k: nat)
    requires Sorted(m)
    ensures Lands(m, t, k) <==> Covers(m, t) && LookupIndex(m, t) == k
  {
  }

  lemma InsertLands<T>(m: seq<Pair<T>>, p: Pair<T>, t: real, u: nat, i: nat)
    requires Sorted(m) && Lands(m, t, i) && u <= |m|
    requires (forall i :: 0 <= i < u ==> m[i].key <= p.key) && forall i :: u <= i < |m| ==> p.key < m[i].key
    ensures Lands(m[..u] + [p] + m[u..], t, if Prefers(p.key, m[i].key, t) then u else if i < u then i else i + 1)
  {
  }

  lemma InsertFinds<T>(m: seq<Pair<T>>, p: Pair<T>, t: real)
    requires Sorted(m)
    ensures var m' := Insert(m, p);
            && (Covers(m', t) <==> Covers(m, t) || p.key <= t)
            && (Covers(m', t) ==>
                 m'[LookupIndex(m', t)] ==
                 if Covers(m, t) && !Prefers(p.key, m[LookupIndex(m, t)].key, t) then m[LookupIndex(m, t)] else p)
  {
    var u := InsertIs(m, p);
    InsertSorted(m, p);
    var m' := m[..u] + [p] + m[u..];
    if Covers(m, t) {
      var i := LookupIndex(m, t);
      LookupLands(m, t, i);
      InsertLands(m, p, t, u, i);
      hide Lands, LookupIndex, Sorted, Covers;
      LookupLands(m', t, if Prefers(p.key, m[i].key, t) then u else if i < u then i else i + 1);
    } else if p.key <= t {
      assert u == 0;
      LookupLands(m', t, u);
    }
  }

  lemma KeysMore<T>(es: seq<Pair<T>>, p: Pair<T>)
    ensures Keys(es + [p]) == Keys(es) + [p.key]
  {
  }

  /** The balance lookup in terms of the order of feeding, whatever that was. */
  lemma {:induction false} LookupFinds<T>(es: seq<Pair<T>>, t: real)
    requires es != []
    ensures var m := Index(es);
            && (Covers(m, t) <==> exists i :: 0 <= i < |es| && es[i].key <= t)
            && (Covers(m, t) ==> m[LookupIndex(m, t)] == es[Base(Keys(es), t)])
  {
    var front, last := es[..|es| - 1], es[|es| - 1];
    if front == [] {
      assert Index(es) == [last];
    } else {
      LookupFinds(front, t);
      IndexIsStableSort(front);
      KeysMore(front, last);
      assert es == front + [last];
      InsertFinds(Index(front), last, t);
    }
  }

  // ----- the class -----

  /** The loop of get_trade_summary. */
  method SummarizeRange(range: RangeData<Trade>) returns (summary: TradeSummary)
    requires range.Valid()
    modifies range.Leaf()
    ensures summary.Valid() && fresh(summary) && fresh(summary.buys) && fresh(summary.sells)
    ensures summary.State() == Summarize(range.Items())
  {
    hide RangeData.Items, RangeData.Rest, RangeData.AtElement, RangeData.Valid, RangeData.Leaf;
    hide Add, SummarizeFrom, TradeSummary.State;
    assert Summarize([]) == EMPTY by { NothingToSummarize(); }
    ghost var leaf := range.Leaf();
    summary := new TradeSummary();
    var value := range.Init();
    ghost var visited: seq<Trade> := [];
    while value.Some?
      invariant range.Leaf() == leaf && summary.Valid() && fresh(summary) && fresh(summary.buys) && fresh(summary.sells)
      invariant range.Agrees(value) && visited + range.Rest() == range.Items()
      invariant summary.State() == Summarize(visited)
      decreases |range.Rest()|
    {
      ghost var rest := range.Rest();
      assert visited + rest == visited + [value.value] + rest[1..];
      AddLast(EMPTY, visited, value.value);
      ghost var others: set<object> := {summary, summary.buys, summary.sells};
      assert leaf !in others;
      assert allocated(leaf);
      summary.AddTrade(value.value);
      assert range.Rest() == rest;
      visited := visited + [value.value];
      value := range.Next();
    }
    assert visited + [] == visited;
  }

  lemma NothingToSummarize()
    ensures Summarize([]) == EMPTY
  {
  }

  class MemoryHistory {
    var balanceChanges: seq<BalanceChange>
    var balanceChangesByTimestamp: seq<Pair<BalanceChange>>
    var trades: seq<Trade>
    var tradesById: seq<Pair<Trade>>
    var tradesByTimestamp: seq<Pair<Trade>>
    var decisions: seq<Decision>
    var decisionsByTimestamp: seq<Pair<Decision>>

    /** Every index is the one its log makes. */
    ghost predicate Valid()
      reads this
    {
      && balanceChangesByTimestamp == Index(ChangeEntries(balanceChanges))
      && tradesById == Index(TradeEntriesById(trades))
      && tradesByTimestamp == Index(TradeEntries(trades))
      && decisionsByTimestamp == Index(DecisionEntries(decisions))
    }

    constructor ()
      ensures Valid() && balanceChanges == [] && trades == [] && decisions == []
    {
      balanceChanges, balanceChangesByTimestamp := [], [];
      trades, tradesById, tradesByTimestamp := [], [], [];
      decisions, decisionsByTimestamp := [], [];
    }

    method FeedBalanceChange(change: BalanceChange)
      requires Valid()
      modifies this`balanceChanges, this`balanceChangesByTimestamp
      ensures Valid() && balanceChanges == old(balanceChanges) + [change]
    {
      hide Index, Insert, ChangeEntries, TradeEntries, TradeEntriesById, DecisionEntries;
      balanceChangesByTimestamp := Insert(balanceChangesByTimestamp, Pair(change.timestamp, change));
      ChangeEntriesGrow(balanceChanges, change);
      IndexGrows(ChangeEntries(balanceChanges), Pair(change.timestamp, change));
      balanceChanges := balanceChanges + [change];
    }

    method FeedTrade(trade: Trade)
      requires Valid()
      modifies this`trades, this`tradesById, this`tradesByTimestamp
      ensures Valid() && trades == old(trades) + [trade]
    {
      hide Index, Insert, ChangeEntries, TradeEntries, TradeEntriesById, DecisionEntries;
      tradesById := Insert(tradesById, Pair(trade.id as real, trade));
      tradesByTimestamp := Insert(tradesByTimestamp, Pair(trade.timestamp, trade));
      TradeEntriesGrow(trades, trade);
      IndexGrows(TradeEntriesById(trades), Pair(trade.id as real, trade));
      IndexGrows(TradeEntries(trades), Pair(trade.timestamp, trade));
      trades := trades + [trade];
    }

    method FeedDecision(decision: Decision)
      requires Valid()
      modifies this`decisions, this`decisionsByTimestamp
      ensures Valid() && decisions == old(decisions) + [decision]
    {
      hide Index, Insert, ChangeEntries, TradeEntries, TradeEntriesById, DecisionEntries;
      decisionsByTimestamp := Insert(decisionsByTimestamp, Pair(decision.timestamp, decision));
      DecisionEntriesGrow(decisions, decision);
      IndexGrows(DecisionEntries(decisions), Pair(decision.timestamp, decision));
      decisions := decisions + [decision];
    }

    method GetBalanceAtTimestamp(t: real) returns (balance: Balance)
      requires Valid() && Covers(balanceChangesByTimestamp, t)
      ensures balance == balanceChangesByTimestamp[LookupIndex(balanceChangesByTimestamp, t)].value.consolidated
    {
      var m := balanceChangesByTimestamp;
      ChangeKeys(balanceChanges);
      var it := LowerBound(m, t);
      if it == |m| {
        it := |m| - 1;
      }
      while m[it].value.timestamp > t
        invariant 0 <= it < |m|
        invariant it <= LowerBound(m, t) && LookupIndex(m, t) <= it
        decreases it
      {
        it := it - 1;
      }
      balance := m[it].value.consolidated;
    }

    /** The indexed query. */
    method GetTradesByTimestamp(begin: real, end: real) returns (range: RangeData<Trade>)
      requires Valid()
      ensures range.Valid() && fresh(range.Leaf()) && range.Items() == Indexed(trades, begin, end)
    {
      IndexIsStableSort(TradeEntries(trades));
      range := new RangeData.OfMultimap(tradesByTimestamp, begin, end);
    }

    /** The query of the base class, a filter over all trades. */
    method ScanTradesByTimestamp(begin: real, end: real) returns (range: RangeData<Trade>)
      ensures range.Valid() && fresh(range.Leaf()) && range.Items() == Scanned(trades, begin, end)
    {
      var all := new RangeData.OfSequence(trades);
      range := new RangeData.OfFilter(all, t => InRange(t, begin, end));
    }

    method GetTradeSummary(begin: real, end: real) returns (summary: TradeSummary)
      requires Valid()
      ensures summary.Valid() && fresh(summary) && fresh(summary.buys) && fresh(summary.sells)
      ensures summary.State() == Summarize(Scanned(trades, begin, end))
    {
      var range := GetTradesByTimestamp(begin, end);
      summary := SummarizeRange(range);
      SummaryRefinesScan(trades, begin, end);
    }

    method GetTimeSpan() returns (span: TimestampSpan)
      requires Valid()
      ensures span == ScanSpan(trades)
    {
      span := TimestampSpan(None, None);
      if tradesByTimestamp != [] {
        span := span.(from := Some(tradesByTimestamp[0].key));
        span := span.(to := Some(tradesByTimestamp[|tradesByTimestamp| - 1].key));
      }
      SpanRefinesScan(trades);
    }
  }

  /** Every entry of the balance index carries its own change's timestamp. */
  lemma {:induction false} ChangeKeys(cs: seq<BalanceChange>)
    ensures forall i :: 0 <= i < |Index(ChangeEntries(cs))| ==>
              Index(ChangeEntries(cs))[i].key == Index(ChangeEntries(cs))[i].value.timestamp
  {
    if cs != [] {
      var front, last := cs[..|cs| - 1], cs[|cs| - 1];
      ChangeKeys(front);
      assert ChangeEntries(cs) == ChangeEntries(front) + [Pair(last.timestamp, last)];
      IndexGrows(ChangeEntries(front), Pair(last.timestamp, last));
      InsertKeys(Index(ChangeEntries(front)), Pair(last.timestamp, last));
    }
  }

  lemma {:induction false} InsertKeys(m: seq<Pair<BalanceChange>>, p: Pair<BalanceChange>)
    requires p.key == p.value.timestamp && forall i :: 0 <= i < |m| ==> m[i].key == m[i].value.timestamp
    ensures forall i :: 0 <= i < |Insert(m, p)| ==> Insert(m, p)[i].key == Insert(m, p)[i].value.timestamp
  {
    if m != [] && m[|m| - 1].key > p.key {
      InsertKeys(m[..|m| - 1], p);
    }
  }
}
