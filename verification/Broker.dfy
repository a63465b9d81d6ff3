/** The imperative form of src/brokers/Broker.hpp with src/brokers/PretendBroker.hpp, for a broker
    with one MemoryHistory. */
module Brokers {
  import opened Options
  import opened Models
  import opened Numbers
  import opened MemoryHistories
  import opened Ledgers

  /** The answer of `validate`. `NotFinite` is a division by zero: the original goes on with an infinite
      amount or none at all, the model stops. */
  datatype Verdict = Accepted | Rejected | NotFinite

  class PretendBroker {
    const history: MemoryHistory
    var commission: real

    ghost function State(): Ledger
      reads this, history
    {
      Ledger(commission, history.balanceChanges, history.trades, history.decisions)
    }

    ghost predicate Valid()
      reads history
    {
      history.Valid()
    }

    constructor (history: MemoryHistory)
      requires history.Valid()
      ensures Valid() && this.history == history
    {
      this.history := history;
      commission := 0.0;
    }

    /** `init`: the first entry of the ledger. */
    method Init(timestamp: real, liquidity: real, rate: real)
      requires Valid()
      modifies this, history
      ensures Valid()
      ensures State() == old(State()).(rate := rate, changes := old(State()).changes
                         + Start(rate, timestamp, liquidity).changes)
    {
      commission := rate;
      var balanceChange := BalanceChange(INIT, 0, None, Balance(liquidity, 0.0, 0.0), timestamp);
      history.FeedBalanceChange(balanceChange);
    }

    function ComputeCommission(trade: Trade): (c: real)
      reads this
      ensures c == Commission(commission, trade) && c >= 0.0
    {
      Abs(trade.price * trade.volume * commission)
    }

    method GetBalanceAtTimestamp(timestamp: real) returns (balance: Balance)
      requires Valid() && Covers(ChangeIndex(State()), timestamp)
      ensures balance == BalanceAt(State(), timestamp)
    {
      balance := history.GetBalanceAtTimestamp(timestamp);
    }

    /** `validate`: fills in an unset amount, then decides. */
    method Validate(decision: Decision) returns (verdict: Verdict, d: Decision)
      requires Valid() && CanLookUp(State(), decision)
      ensures decision.action == WAIT || decision.price.None? ==> verdict == Rejected && d == decision
      ensures decision.action != WAIT && decision.price.Some? ==>
                if Defined(decision) then
                  var b := BalanceAt(State(), decision.timestamp);
                  d == Filled(decision, b) && verdict == if Accepts(d, b) then Accepted else Rejected
                else verdict == NotFinite && d == decision
    {
      d := decision;
      if d.action == WAIT {
        return Rejected, d;
      }
      if d.price.None? {
        return Rejected, d;
      }
      var balance := GetBalanceAtTimestamp(d.timestamp);
      if d.amount.None? {
        if d.price.value == 0.0 {
          return NotFinite, d;
        }
        match d.action {
          case BUY => d := d.(amount := Some((balance.liquidity - balance.commission) / d.price.value));
          case SELL => d := d.(amount := Some(balance.stock / d.price.value));
          case WAIT => d := d.(amount := Some(0.0));
        }
      }
      if balance.liquidity < 0.0 || d.amount.value < 0.0
        || balance.liquidity + balance.stock * d.price.value < balance.commission {
        return Rejected, d;
      }
      if d.amount.value == 0.0 {
        return Rejected, d;
      }
      return Accepted, d;
    }

    /** `send`: the pretended market takes every order at its price. */
    method Send(decision: Decision) returns (d: Decision, trades: seq<Trade>)
      requires decision.price.Some? && decision.amount.Some?
      ensures d == decision.(status := PASSED) && trades == [TradeOf(decision)]
    {
      d := decision.(status := PASSED);
      trades := [Trade(0, d.amount.value, d.price.value, d.action, d.timestamp, d.id, 0, 0)];
    }

    /** The body of the loop over the trades that came back. */
    method Book(d: Decision, trade: Trade)
      requires Valid() && d.action == trade.action != WAIT && Covers(ChangeIndex(State()), trade.timestamp)
      modifies history
      ensures Valid()
      ensures State() == Booked(old(State()), trade, old(BalanceAt(State(), trade.timestamp)))
    {
      hide MemoryHistory.Valid, BalanceAt, Covers, Commission;
      var delta := Balance(0.0, 0.0, 0.0);
      match d.action {
        case BUY => delta := delta.(liquidity := -trade.volume * trade.price, stock := trade.volume);
        case SELL => delta := delta.(liquidity := trade.volume * trade.price, stock := -trade.volume);
        case WAIT =>
      }
      delta := delta.(commission := ComputeCommission(trade));
      var before := GetBalanceAtTimestamp(trade.timestamp);
      history.FeedTrade(trade);
      history.FeedBalanceChange(BalanceChange(TRADE, trade.id, Some(delta), before.Plus(delta), trade.timestamp));
    }

    /** `execute`: the decision comes back with its amount and status set. */
    method Execute(decision: Decision) returns (verdict: Verdict, d: Decision)
      requires Valid() && CanLookUp(State(), decision)
      modifies history
      ensures Valid() && (verdict == NotFinite <==> decision.action != WAIT && !Defined(decision))
      ensures State() == if verdict == NotFinite then old(State()) else Ledgers.Execute(old(State()), decision)
      ensures decision.action == WAIT ==> d == decision
    {
      d := decision;
      if d.action == WAIT {
        return Rejected, d;
      }
      var originalDecision := decision;
      var trades: seq<Trade> := [];
      verdict, d := Validate(d);
      if verdict == NotFinite {
        return;
      }
      if verdict == Accepted {
        d, trades := Send(d);
      } else {
        d := d.(status := CANCELLED);
      }
      ghost var start := State();
      if decision.price.Some? {
        ExecuteIs(start, decision);
      } else {
        assert Ledgers.Execute(start, decision) == Cancelled(start, decision, decision);
      }
      hide MemoryHistory.Valid, Booked, Accepts, Filled, BalanceAt, Covers, ChangeIndex, Ledgers.Execute, Executable, Defined;
      for i := 0 to |trades|
        invariant Valid() && |trades| <= 1
        invariant i == 0 ==> State() == start
        invariant i == 1 ==> State() == Booked(start, trades[0], BalanceAt(start, trades[0].timestamp))
      {
        Book(d, trades[i]);
      }
      if originalDecision != d {
        history.FeedDecision(originalDecision);
      }
      history.FeedDecision(d);
    }
  }
}
