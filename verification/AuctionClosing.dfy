/** No auction is stuck, and what its settlement means to every account. */
module AuctionClosing {
  import opened Common
  import opened BidTable
  import opened AuctionMachine
  import opened AuctionInvariant
  import opened AuctionLaws
  import opened AuctionFloor
  import opened AuctionSettlement

  // ---------- settlement, account by account ----------

  /** What the refund of one row takes from `x`. */
  function RefundTo(l: AggregatedBid, refused: set<Address>, x: Address): int {
    if l.bidderAddress == x && x !in refused && l.totalAmount > 0 then l.totalAmount else 0
  }

  function RefundsTo(losers: seq<AggregatedBid>, refused: set<Address>, x: Address, n: nat): int
    requires n <= |losers|
  {
    if n == 0 then 0 else RefundsTo(losers, refused, x, n - 1) + RefundTo(losers[n - 1], refused, x)
  }

  lemma PaidBackNet(s: Db, a: nat, bidder: Address, amount: int, balance: int, paid: bool, x: Address)
    ensures Net(PaidBack(s, a, bidder, amount, balance, paid).transfers, x)
         == Net(s.transfers, x) - if paid && x == bidder then amount else 0
  {
    AppendLedgers([], Bid(a, bidder, -amount, 0, Finished), s.transfers,
                  MoneyTransfer(Withdraw, Completed, amount, bidder));
  }

  lemma {:induction false} RefundsReachTheirAccounts(s: Db, a: nat, losers: seq<AggregatedBid>, refused: set<Address>,
                                                    x: Address, n: nat)
    requires n <= |losers|
    ensures Net(Refunded(s, a, losers, refused, n).transfers, x) == Net(s.transfers, x) - RefundsTo(losers, refused, x, n)
  {
    if n > 0 {
      RefundsReachTheirAccounts(s, a, losers, refused, x, n - 1);
      var l := losers[n - 1];
      PaidBackNet(Refunded(s, a, losers, refused, n - 1), a, l.bidderAddress, l.totalAmount, 0,
          l.bidderAddress !in refused, x);
    }
  }

  /** Among distinct losers, an account is refunded its own total or nothing. */
  lemma {:induction false} OneRefundTo(losers: seq<AggregatedBid>, bids: seq<Bid>, a: nat, refused: set<Address>,
                                       x: Address, n: nat)
    requires n <= |losers| && OwnTotals(losers, bids, a)
    ensures RefundsTo(losers, refused, x, n) == if IsRefunded(losers, refused, n, x) then Total(bids, Actual(a), x) else 0
  {
    if n > 0 {
      OneRefundTo(losers, bids, a, refused, x, n - 1);
      var l := losers[n - 1];
      assert IsRefunded(losers, refused, n, x)
        <==> IsRefunded(losers, refused, n - 1, x) || (x !in refused && l.bidderAddress == x && l.totalAmount > 0);
    }
  }

  /** The account is a loser of the settlement and has money to get back. */
  predicate IsLoser(rows: seq<AggregatedBid>, x: Address, total: int)
    requires rows != []
  {
    x != rows[0].bidderAddress && total > 0
  }

  lemma LosersAreRefunded(s: Db, a: nat, rows: seq<AggregatedBid>, refused: set<Address>, x: Address)
    requires IsGrouping(rows, s.bids, Actual(a)) && rows != []
    ensures IsRefunded(rows[1..], refused, |rows| - 1, x)
       <==> x !in refused && IsLoser(rows, x, Total(s.bids, Actual(a), x))
  {
    NoRowsNoTotal(s.bids, Actual(a), x);
    if IsLoser(rows, x, Total(s.bids, Actual(a), x)) {
      assert Lists(rows, x);
      var i :| 0 <= i < |rows| && rows[i].bidderAddress == x;
      assert rows[1..][i - 1] == rows[i];
    }
  }

  lemma RefundsByAccount(s: Db, a: nat, rows: seq<AggregatedBid>, refused: set<Address>, x: Address)
    requires a < |s.offers| && IsGrouping(rows, s.bids, Actual(a)) && rows != []
    ensures Net(AfterRefunds(s, a, rows, refused).transfers, x)
         == Net(s.transfers, x)
            - if x !in refused && IsLoser(rows, x, Total(s.bids, Actual(a), x)) then Total(s.bids, Actual(a), x) else 0
  {
    LosersOwnTotals(rows, s.bids, a);
    RefundsReachTheirAccounts(Closing(s, a, rows), a, rows[1..], refused, x, |rows| - 1);
    OneRefundTo(rows[1..], s.bids, a, refused, x, |rows| - 1);
    LosersAreRefunded(s, a, rows, refused, x);
  }

  lemma SaleByAccount(transfers: seq<MoneyTransfer>, t: Trade, x: Address)
    ensures Net(transfers + SaleTransfers(t), x)
         == Net(transfers, x) - if x == t.seller then t.originPrice + t.price else 0
  {
    AppendSale([], t, transfers, SaleTransfers(t)[0], SaleTransfers(t)[1]);
  }

  /**
   * What a settlement does to any account: a loser gets back all that had arrived from it, unless the transfer is
   * refused; the winner gets nothing; and a recorded sale books to the seller the price and the seller's part of it.
   */
  lemma SettlementByAccount(s: Db, m: Market, a: nat, rows: seq<AggregatedBid>, refused: set<Address>,
                            submission: Option<Included>, paid: bool, x: Address)
    requires Inv(s) && Enabled(s, Settle(a, rows, refused, submission, paid)) && rows != []
    ensures paid && submission.Some? ==> |Settled(s, m, a, rows, refused, submission, paid).trades| == |s.trades| + 1
    ensures var s', total := Settled(s, m, a, rows, refused, submission, paid), Total(s.bids, Actual(a), x);
      Net(s.transfers, x) - Net(s'.transfers, x)
        == (if x !in refused && IsLoser(rows, x, total) then total else 0)
           + (if paid && submission.Some? && x == s.offers[a].addressFrom
              then SaleShare(s'.trades[|s.trades|], x) else 0)
  {
    var s' := Settled(s, m, a, rows, refused, submission, paid);
    RefundsByAccount(s, a, rows, refused, x);
    if paid {
      TradeRowIsExact(s, m, a, rows, refused, submission);
      if submission.Some? {
        SaleByAccount(AfterRefunds(s, a, rows, refused).transfers, s'.trades[|s.trades|], x);
      }
    }
  }

  // ---------- every auction can be closed ----------

  function ResolvedAs(b: Bid, arrived: bool): Bid {
    b.(status := if arrived then Finished else ErrorBid)
  }

  lemma OneStepMore(states: seq<Db>, m: Market, acts: seq<Action>, act: Action)
    requires Run(states, m, acts) && Enabled(states[|acts|], act)
    ensures Run(states + [Next(states[|acts|], m, act)], m, acts + [act])
  {}

  /** A run goes on with an auction's unresolved bids among the first `n` rows, each resolved as it may. */
  lemma {:induction false} ResolveAll(before: seq<Db>, m: Market, earlier: seq<Action>, a: nat, arrives: nat -> bool,
                                      n: nat)
      returns (states: seq<Db>, acts: seq<Action>)
    requires Run(before, m, earlier) && a < |before[|earlier|].offers| && n <= |before[|earlier|].bids|
    ensures Run(states, m, acts) && states[0] == before[0]
    ensures var s, s' := before[|earlier|], states[|acts|];
      && |s'.offers| == |s.offers| && s'.offers[a].statusAuction == s.offers[a].statusAuction
      && |s'.bids| == |s.bids|
      && forall i :: 0 <= i < |s.bids| ==>
           s'.bids[i] == if i < n && IsUnresolved(s.bids[i], a) then ResolvedAs(s.bids[i], arrives(i)) else s.bids[i]
  {
    states, acts := before, earlier;
    if n > 0 {
      states, acts := ResolveAll(before, m, earlier, a, arrives, n - 1);
      var last := states[|acts|];
      if IsUnresolved(last.bids[n - 1], a) {
        var act := if arrives(n - 1) then FinishBid(n - 1) else FailBid(n - 1);
        OneStepMore(states, m, acts, act);
        states, acts := states + [Next(last, m, act)], acts + [act];
      }
    }
  }

  /** An open auction can be stopped. */
  lemma CanStop(s: Db, m: Market, a: nat, now: int) returns (states: seq<Db>, acts: seq<Action>)
    requires a < |s.offers| && Open(s.offers[a])
    ensures Run(states, m, acts) && states[0] == s
    ensures var s' := states[|acts|];
      a < |s'.offers| && s'.offers[a].statusAuction == Stopped && s'.bids == s.bids
  {
    if s.offers[a].statusAuction == Stopped {
      states, acts := [s], [];
    } else {
      assert Enabled(s, ForceStop(a, now));
      states, acts := [s, Next(s, m, ForceStop(a, now))], [ForceStop(a, now)];
    }
  }

  /**
   * No auction is ever stuck. However its unresolved bids turn out, and whatever the chain does with the submissions
   * of its settlement, from every reachable state the auction can be stopped, resolved and settled; and then its token
   * has been sent out.
   */
  lemma EveryAuctionCanClose(s: Db, m: Market, a: nat, now: int, arrives: nat -> bool, refused: set<Address>,
                             submission: Option<Included>, paid: bool)
      returns (states: seq<Db>, acts: seq<Action>)
    requires Inv(s) && a < |s.offers| && Open(s.offers[a])
    ensures Run(states, m, acts) && states[0] == s
    ensures var s' := states[|acts|];
      && a < |s'.offers| && !Open(s'.offers[a]) && Issued(s'.releases, a) == 1
      && |s'.bids| >= |s.bids| && forall i :: 0 <= i < |s.bids| ==>
           s'.bids[i] == if IsUnresolved(s.bids[i], a) then ResolvedAs(s.bids[i], arrives(i)) else s.bids[i]
  {
    states, acts := CanStop(s, m, a, now);
    states, acts := ResolveAll(states, m, acts, a, arrives, |s.bids|);
    var ready := states[|acts|];
    assert NoMinting(ready.bids, a);
    var rows := Group(ready.bids, Actual(a));
    GroupIsGrouping(ready.bids, Actual(a));
    var act := Settle(a, rows, refused, submission, paid);
    OneStepMore(states, m, acts, act);
    SettlementRows(ready, m, a, rows, refused, submission, paid);
    SettlementSends(ready, m, a, rows, refused, submission, paid);
    states, acts := states + [Next(ready, m, act)], acts + [act];
    RunKeeps(states, m, acts);
  }
}
