/** Small shared vocabulary: optional values, accounts, and the market's price arithmetic. */
module Common {

  datatype Option<+T> = None | Some(value: T)

  /** The outcome of a request: a value, or an error that left the database as it was. */
  datatype Result<+T> = Ok(value: T) | Err

  /** An account in the encoding the database stores (`encodeAddress` has been applied already). */
  type Address = nat

  /** Sale statuses of an offer (`ASK_STATUS`). */
  datatype AskStatus = AskActive | Cancelled | Bought | RemovedByAdmin

  /** A row of `money_transfer`. */
  datatype TransferKind = Deposit | Withdraw

  datatype TransferStatus = PendingTransfer | InProgress | Completed | FailedTransfer

  datatype MoneyTransfer = MoneyTransfer(kind: TransferKind, status: TransferStatus, amount: int, address: Address)

  /** A commission in whole percent, as the configuration gives it. */
  type Percent = p: int | 0 <= p <= 100 witness 0

  /** BigInt's division by a positive number: the quotient is truncated toward zero. */
  function TruncatingDiv(x: int, y: int): int
    requires y > 0
  {
    if x >= 0 then x / y else -((-x) / y)
  }

  /** What the seller receives: the price less the market's commission (`getPriceWithoutCommission`). */
  function PriceWithoutCommission(price: int, commission: Percent): int {
    TruncatingDiv(price * (100 - commission), 100)
  }

  /** For a non-negative price the seller's part is the exact floor, never more than the price. */
  lemma SellerPartIsFloor(price: nat, commission: Percent)
    ensures 0 <= PriceWithoutCommission(price, commission) <= price
    ensures var r := PriceWithoutCommission(price, commission);
      r * 100 <= price * (100 - commission) < r * 100 + 100
  {
    var share := 100 - commission;
    assert price * 100 - price * share == price * (100 - share);
    assert price * share >= 0;
  }
}
