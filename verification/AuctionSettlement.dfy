/** Money through settlement, the two ledgers, and the running balance column. */
module AuctionSettlement {
  import opened Common
  import opened BidTable
  import opened AuctionMachine
  import opened AuctionInvariant
  import opened AuctionLaws

  /** All completed withdrawals. */
  function PaidOut(transfers: seq<MoneyTransfer>): int {
    if transfers == [] then 0
    else
      var t := transfers[|transfers| - 1];
      PaidOut(transfers[..|transfers| - 1]) + if t.kind == Withdraw && t.status == Completed then t.amount else 0
  }

  lemma PaidBackConserves(s: Db, a: nat, bidder: Address, amount: int, balance: int, paid: bool)
    ensures var s' := PaidBack(s, a, bidder, amount, balance, paid);
      PaidOut(s'.transfers) + Sum(s'.bids, Actual(a)) == PaidOut(s.transfers) + Sum(s.bids, Actual(a))
  {
    var s' := PaidBack(s, a, bidder, amount, balance, paid);
    assert s'.bids[..|s.bids|] == s.bids;
    assert s'.transfers[..|s.transfers|] == s.transfers;
  }

  /** Refunding moves money out of the bid table and into the payout rows, whichever transfers are refused. */
  lemma {:induction false} RefundsConserve(s: Db, a: nat, losers: seq<AggregatedBid>, refused: set<Address>, n: nat)
    requires n <= |losers|
    ensures var s' := Refunded(s, a, losers, refused, n);
      PaidOut(s'.transfers) + Sum(s'.bids, Actual(a)) == PaidOut(s.transfers) + Sum(s.bids, Actual(a))
  {
    if n > 0 {
      RefundsConserve(s, a, losers, refused, n - 1);
      var l := losers[n - 1];
      PaidBackConserves(Refunded(s, a, losers, refused, n - 1), a, l.bidderAddress, l.totalAmount, 0,
          l.bidderAddress !in refused);
    }
  }

  lemma {:induction false} SumOfTotalsGrows(rows: seq<AggregatedBid>, n: nat)
    requires n < |rows|
    ensures SumOfTotals(rows[..n + 1]) == SumOfTotals(rows[..n]) + rows[n].totalAmount
  {
    assert rows[..n + 1][0] == rows[0];
    if n > 0 {
      SumOfTotalsGrows(rows[1..], n - 1);
      assert rows[..n + 1][1..] == rows[1..][..n] && rows[..n][1..] == rows[1..][..n - 1];
    }
  }

  lemma RefundTakes(s: Db, a: nat, losers: seq<AggregatedBid>, n: nat)
    requires n < |losers| && losers[n].totalAmount >= 0
    ensures Sum(Refunded(s, a, losers, {}, n + 1).bids, Actual(a))
         == Sum(Refunded(s, a, losers, {}, n).bids, Actual(a)) - losers[n].totalAmount
  {
    var before, l := Refunded(s, a, losers, {}, n), losers[n];
    assert PaidBack(before, a, l.bidderAddress, l.totalAmount, 0, true).bids[..|before.bids|] == before.bids;
  }

  /** With nothing refused, refunding takes exactly the losers' totals out of the bid table. */
  lemma {:induction false} FullRefunds(s: Db, a: nat, losers: seq<AggregatedBid>, n: nat)
    requires n <= |losers| && forall i :: 0 <= i < |losers| ==> losers[i].totalAmount >= 0
    ensures Sum(Refunded(s, a, losers, {}, n).bids, Actual(a)) == Sum(s.bids, Actual(a)) - SumOfTotals(losers[..n])
  {
    if n > 0 {
      FullRefunds(s, a, losers, n - 1);
      SumOfTotalsGrows(losers, n - 1);
      RefundTakes(s, a, losers, n - 1);
    }
  }

  /** Each loser is brought to zero unless the transfer is refused; the winner keeps their total. */
  lemma SettlementTotals(s: Db, a: nat, rows: seq<AggregatedBid>, refused: set<Address>)
    requires a < |s.offers| && Solvent(s) && IsGrouping(rows, s.bids, Actual(a)) && rows != []
    ensures var bids' := AfterRefunds(s, a, rows, refused).bids;
      && Total(bids', Actual(a), rows[0].bidderAddress) == rows[0].totalAmount
      && forall i :: 1 <= i < |rows| ==>
        Total(bids', Actual(a), rows[i].bidderAddress)
          == if rows[i].bidderAddress in refused then rows[i].totalAmount else 0
  {
    var losers, closing, s' := rows[1..], Closing(s, a, rows), AfterRefunds(s, a, rows, refused);
    LosersOwnTotals(rows, s.bids, a);
    RefundTotals(closing, a, losers, refused, |losers|);
    assert !IsRefunded(losers, refused, |losers|, rows[0].bidderAddress);
    forall i | 1 <= i < |rows|
      ensures Total(s'.bids, Actual(a), rows[i].bidderAddress)
           == if rows[i].bidderAddress in refused then rows[i].totalAmount else 0
    {
      assert losers[i - 1] == rows[i];
      assert Total(s.bids, Actual(a), rows[i].bidderAddress) >= 0;
    }
  }

  /** With every transfer going through, the refunds take everything out of the table but the winner's total. */
  lemma RefundsLeaveTheWinner(s: Db, a: nat, rows: seq<AggregatedBid>)
    requires a < |s.offers| && Solvent(s) && IsGrouping(rows, s.bids, Actual(a)) && rows != []
    ensures Sum(AfterRefunds(s, a, rows, {}).bids, Actual(a)) == rows[0].totalAmount
  {
    var losers := rows[1..];
    forall i | 0 <= i < |losers| ensures losers[i].totalAmount >= 0 {
      assert Total(s.bids, Actual(a), losers[i].bidderAddress) >= 0;
    }
    FullRefunds(Closing(s, a, rows), a, losers, |losers|);
    GroupingConserves(rows, s.bids, Actual(a));
    assert losers[..|losers|] == losers;
  }

  /** The money when the losers have had their refunds, and what has not changed by then. */
  lemma RefundsBalance(s: Db, a: nat, rows: seq<AggregatedBid>, refused: set<Address>)
    requires a < |s.offers| && rows != []
    ensures var refunded := AfterRefunds(s, a, rows, refused);
      && PaidOut(refunded.transfers) + Sum(refunded.bids, Actual(a)) == PaidOut(s.transfers) + Sum(s.bids, Actual(a))
      && refunded.trades == s.trades && refunded.offers == Closing(s, a, rows).offers
  {
    var closing, refunded := Closing(s, a, rows), AfterRefunds(s, a, rows, refused);
    assert PaidOut(refunded.transfers) + Sum(refunded.bids, Actual(a)) == PaidOut(s.transfers) + Sum(s.bids, Actual(a)) by {
      RefundsConserve(closing, a, rows[1..], refused, |rows| - 1);
    }
    assert refunded.trades == s.trades && refunded.offers == closing.offers by {
      RefundsFrame(closing, a, rows[1..], refused, |rows| - 1);
    }
  }

  /** Serving a paid winner records one trade and pays the owner out; the bid table is left alone. */
  lemma SalePaysOut(s: Db, m: Market, a: nat, winner: AggregatedBid, submission: Option<Included>)
    requires a < |s.offers| && submission.Some? && s.offers[a].price == winner.totalAmount
    ensures var s' := OwnerPaid(TokenSent(s, a, winner.bidderAddress, submission), m, a, winner);
      && s'.bids == s.bids && |s'.trades| == |s.trades| + 1
      && PaidOut(s'.transfers) == PaidOut(s.transfers) + s'.trades[|s.trades|].price
      && s'.trades[|s.trades|].price + s'.trades[|s.trades|].commission == winner.totalAmount
  {
    var s', n := OwnerPaid(TokenSent(s, a, winner.bidderAddress, submission), m, a, winner), |s.transfers|;
    assert s'.transfers[..n + 1] == s.transfers + [s'.transfers[n]];
    assert s'.transfers[..n + 1][..n] == s.transfers;
  }

  /**
   * Settlement conserves money. Whatever is refused, what the settled database has paid out and what its bid table
   * still holds exceed what had arrived by the recorded owner's payment, which comes out of the winner's total.
   * With nothing refused only that total is left in the table, and once the sale is recorded the refunds, the
   * owner's payment and the commission on the trade row add up to all that had arrived.
   */
  lemma SettlementConserves(s: Db, m: Market, a: nat, rows: seq<AggregatedBid>, refused: set<Address>,
                            submission: Option<Included>, paid: bool)
    requires Inv(s) && Enabled(s, Settle(a, rows, refused, submission, paid)) && rows != []
    ensures var s', recorded := Settled(s, m, a, rows, refused, submission, paid), paid && submission.Some?;
      && |s'.trades| == |s.trades| + (if recorded then 1 else 0)
      && PaidOut(s'.transfers) - PaidOut(s.transfers) + Sum(s'.bids, Actual(a))
           == Sum(s.bids, Actual(a)) + (if recorded then s'.trades[|s.trades|].price else 0)
      && (refused == {} ==> Sum(s'.bids, Actual(a)) == rows[0].totalAmount)
      && (refused == {} && recorded ==>
            PaidOut(s'.transfers) - PaidOut(s.transfers) + s'.trades[|s.trades|].commission == Sum(s.bids, Actual(a)))
  {
    RefundsBalance(s, a, rows, refused);
    if refused == {} {
      RefundsLeaveTheWinner(s, a, rows);
    }
    if paid && submission.Some? {
      assert s.offers[a].price == rows[0].totalAmount by {
        SettledPriceIsWinnersTotal(s, a, rows);
      }
      SalePaysOut(AfterRefunds(s, a, rows, refused), m, a, rows[0], submission);
    } else {
      assert s.offers[a].blockNumberBuy.None?;
    }
  }

  /** When an auction is settled, its stored price is exactly what the winner paid in. */
  lemma SettledPriceIsWinnersTotal(s: Db, a: nat, rows: seq<AggregatedBid>)
    requires Inv(s) && a < |s.offers| && s.offers[a].statusAuction == Stopped && NoMinting(s.bids, a)
    requires IsGrouping(rows, s.bids, Actual(a)) && rows != []
    ensures s.offers[a].price == rows[0].totalAmount == Total(s.bids, Actual(a), rows[0].bidderAddress)
  {
    FirstRowLeads(rows, s.bids, Actual(a));
    NoMintingSameTotals(s.bids, a);
    assert IsLeader(s.bids, Pending(a), rows[0].bidderAddress);
    assert CachedAt(s, a);
    LeadingTotalIs(s.bids, Pending(a), s.offers[a].startPrice);
  }

  /**
   * The outcome of a paid settlement. The sale is marked either way, but its trade and money rows are written exactly when
   * the submission of the token's transfer resolved; then its price and commission add up to the original price,
   * which is the winner's finished total. Whether the token moved plays no part: a transfer that failed in a
   * finalized block is recorded as a sale like any other.
   */
  lemma TradeRowIsExact(s: Db, m: Market, a: nat, rows: seq<AggregatedBid>, refused: set<Address>,
      submission: Option<Included>)
    requires Inv(s) && Enabled(s, Settle(a, rows, refused, submission, true)) && rows != []
    ensures var s' := Settled(s, m, a, rows, refused, submission, true);
      && |s'.offers| == |s.offers|
      && s'.offers[a].status == Bought && s'.offers[a].statusAuction == Ended
      && s'.offers[a].addressTo == rows[0].bidderAddress
      && s'.releases == s.releases + [Release(a, rows[0].bidderAddress, submission.Some? && submission.value.succeeded)]
      && (submission.None? ==> s'.trades == s.trades && s'.transfers == AfterRefunds(s, a, rows, refused).transfers)
      && (submission.Some? ==>
            |s'.trades| == |s.trades| + 1 && s'.trades[..|s.trades|] == s.trades
            && IsSaleOf(s'.trades[|s.trades|], s, m, a, rows[0].bidderAddress)
            && s'.transfers == AfterRefunds(s, a, rows, refused).transfers + SaleTransfers(s'.trades[|s.trades|]))
  {
    var refunded := AfterRefunds(s, a, rows, refused);
    RefundsFrame(Closing(s, a, rows), a, rows[1..], refused, |rows| - 1);
    SettledPriceIsWinnersTotal(s, a, rows);
    SaleRow(s, refunded, m, a, rows[0], submission);
  }

  /**
   * The outcome of an unpaid settlement: the token was submitted to the winner, nothing is recorded, and the
   * auction is left cancelled and ended if the winner bid alone, and withdrawing for good otherwise.
   */
  lemma UnpaidSaleOutcome(s: Db, m: Market, a: nat, rows: seq<AggregatedBid>, refused: set<Address>,
                          submission: Option<Included>)
    requires Inv(s) && Enabled(s, Settle(a, rows, refused, submission, false)) && rows != []
    ensures var s', alone := Settled(s, m, a, rows, refused, submission, false), |rows| == 1;
      && |s'.offers| == |s.offers| && s'.trades == s.trades
      && s'.releases == s.releases + [Release(a, rows[0].bidderAddress, submission.Some? && submission.value.succeeded)]
      && s'.offers[a].addressTo == s.offers[a].addressTo
      && s'.offers[a].status == (if alone then Cancelled else s.offers[a].status)
      && s'.offers[a].statusAuction == (if alone then Ended else Withdrawing)
      && (alone ==> s'.bids == s.bids && s'.transfers == s.transfers)
  {
    RefundsFrame(Closing(s, a, rows), a, rows[1..], refused, |rows| - 1);
  }

  /** The money rows that go with a trade row: the price leaves the seller's account and the seller's part is paid out. */
  function SaleTransfers(t: Trade): seq<MoneyTransfer> {
    [MoneyTransfer(Deposit, Completed, -t.originPrice, t.seller), MoneyTransfer(Withdraw, Completed, t.price, t.seller)]
  }

  /** The trade row of a sale to `winner`: the original price is what the winner paid in, split exactly. */
  ghost predicate IsSaleOf(t: Trade, s: Db, m: Market, a: nat, winner: Address)
    requires a < |s.offers|
  {
    && t.auctionId == a && t.seller == s.offers[a].addressFrom && t.buyer == winner
    && t.originPrice == Total(s.bids, Actual(a), winner)
    && t.price + t.commission == t.originPrice
    && 0 <= t.price && t.price * 100 <= t.originPrice * (100 - m.commission) < t.price * 100 + 100
  }

  lemma SaleRow(s: Db, refunded: Db, m: Market, a: nat, winner: AggregatedBid, submission: Option<Included>)
    requires Inv(s) && a < |s.offers| == |refunded.offers| && Open(s.offers[a]) && refunded.trades == s.trades
    requires refunded.offers[a].price == s.offers[a].price == winner.totalAmount ==
        Total(s.bids, Actual(a), winner.bidderAddress)
    requires refunded.offers[a].addressFrom == s.offers[a].addressFrom
    requires refunded.offers[a].blockNumberBuy == s.offers[a].blockNumberBuy
    ensures var s' := OwnerPaid(TokenSent(refunded, a, winner.bidderAddress, submission), m, a, winner);
      && (submission.None? ==> s'.trades == s.trades && s'.transfers == refunded.transfers)
      && (submission.Some? ==>
            |s'.trades| == |s.trades| + 1 && s'.trades[..|s.trades|] == s.trades
            && IsSaleOf(s'.trades[|s.trades|], s, m, a, winner.bidderAddress)
            && s'.transfers == refunded.transfers + SaleTransfers(s'.trades[|s.trades|]))
  {
    assert Total(s.bids, Actual(a), winner.bidderAddress) >= 0;
    SellerPartIsFloor(winner.totalAmount, m.commission);
  }

  /**
   * The two ledgers agree account by account in every reachable database: completed deposits less completed
   * withdrawals are the finished money in the bid table, less what the account's own sales took out. Until a
   * sale is recorded, that is the finished money alone; and nobody's finished total is ever negative.
   */
  lemma LedgersAlwaysAgree(states: seq<Db>, m: Market, acts: seq<Action>, i: nat, x: Address)
    requires History(states, m, acts) && i < |states|
    ensures var s := states[i];
      && Net(s.transfers, x) == FinishedBy(s.bids, x) - SoldBy(s.trades, x)
      && (s.trades == [] ==> Net(s.transfers, x) == FinishedBy(s.bids, x))
      && forall a: nat :: Total(s.bids, Actual(a), x) >= 0
  {
    HistoryKeeps(states, m, acts);
  }

  /**
   * Over every run an auction has exactly one trade row when it is bought and the block of the token's transfer
   * is known, and none otherwise; so a paid sale whose token submission was rejected is never recorded.
   */
  lemma OneTradePerRecordedSale(states: seq<Db>, m: Market, acts: seq<Action>, i: nat, a: nat)
    requires History(states, m, acts) && i < |states|
    ensures var s := states[i];
      TradesOf(s.trades, a)
        == if a < |s.offers| && s.offers[a].status == Bought && s.offers[a].blockNumberBuy.Some? then 1 else 0
  {
    HistoryKeeps(states, m, acts);
  }

  // ---------- the balance column ----------

  /** A row as it is inserted, before its transfer resolves. */
  function AsInserted(b: Bid): Bid {
    b.(status := Minting)
  }

  ghost predicate BalanceIsRunningTotal(before: seq<Bid>, row: Bid) {
    row.balance == Total(before + [AsInserted(row)], Pending(row.auctionId), row.bidder)
  }

  /** Placing and withdrawing store the bidder's pending total as it is right after the insertion. */
  lemma BidderRowsBalance(s: Db, m: Market, act: Action)
    requires Inv(s) && Enabled(s, act) && (act.PlaceBid? || act.WithdrawBid?)
    ensures var s' := Next(s, m, act);
      |s'.bids| == |s.bids| + 1 && s'.bids[..|s.bids|] == s.bids && BalanceIsRunningTotal(s.bids, s'.bids[|s.bids|])
  {
    var row := Next(s, m, act).bids[|s.bids|];
    AppendTotals(s.bids, AsInserted(row));
  }

  /** A market refund stores zero, and zero is the loser's pending total right after the insertion. */
  lemma RefundRowsBalance(s: Db, a: nat, losers: seq<AggregatedBid>, refused: set<Address>, n: nat)
    requires n < |losers| && OwnTotals(losers, s.bids, a) && NoMinting(s.bids, a) && losers[n].totalAmount > 0
    ensures var before, after := Refunded(s, a, losers, refused, n), Refunded(s, a, losers, refused, n + 1);
      && after.bids == before.bids + [after.bids[|before.bids|]]
      && BalanceIsRunningTotal(before.bids, after.bids[|before.bids|])
  {
    var before, after := Refunded(s, a, losers, refused, n), Refunded(s, a, losers, refused, n + 1);
    var row := after.bids[|before.bids|];
    NextLoserUntouched(s, a, losers, refused, n);
    RefundsGrow(s, a, losers, refused, n);
    assert NoMinting(before.bids, a);
    NoMintingSameTotals(before.bids, a);
    AppendTotals(before.bids, AsInserted(row));
  }
}
