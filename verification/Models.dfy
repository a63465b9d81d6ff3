/** The records of src/models: exact numbers stand for `double`, an absent option for NAN. */
module Models {
  import opened Options

  datatype ActionType = BUY | WAIT | SELL

  datatype Trade = Trade(id: nat, volume: real, price: real, action: ActionType, timestamp: real,
                         decisionId: nat, buyOrderId: nat, sellOrderId: nat)

  datatype Order = Order(id: nat, amount: real, price: real, action: ActionType, timestamp: real)

  datatype Status = CANCELLED | PENDING | PASSED

  datatype Decision = Decision(id: nat, action: ActionType, key: int, status: Status, timestamp: real,
                               confidence: Option<real>, amount: Option<real>, price: Option<real>,
                               orderId: nat, source: string)

  datatype Balance = Balance(liquidity: real, stock: real, commission: real) {
    function Plus(other: Balance): Balance {
      Balance(liquidity + other.liquidity, stock + other.stock, commission + other.commission)
    }
  }

  datatype OriginType = UNKNOWN | INIT | UPDATE | TRADE

  /** `delta` is absent on an INIT change, where the original leaves it at NAN. */
  datatype BalanceChange = BalanceChange(originType: OriginType, originId: nat, delta: Option<Balance>,
                                         consolidated: Balance, timestamp: real)

  datatype TimestampSpan = TimestampSpan(from: Option<real>, to: Option<real>)
}
