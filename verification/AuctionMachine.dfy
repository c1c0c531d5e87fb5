/**
 * The auction database as a state machine. Each action is one database transaction or interval handler;
 * placing, finishing and failing a bid are separate actions, so they interleave across bidders.
 */
module AuctionMachine {
  import opened Common
  import opened BidTable

  datatype AuctionStatus = Created | Active | Stopped | Withdrawing | Ended

  datatype Offer = Offer(
    collectionId: nat,
    tokenId: nat,
    addressFrom: Address,
    addressTo: Address,
    status: AskStatus,
    statusAuction: AuctionStatus,
    price: int,
    startPrice: int,
    priceStep: int,
    stopAt: int,
    blockNumberBuy: Option<nat>,
    blockNumberCancel: Option<nat>)

  /** A row of `market_trade`. */
  datatype Trade = Trade(
    auctionId: nat, price: int, originPrice: int, commission: int, seller: Address, buyer: Address)

  /** What a submission that reached a finalized block resolves to; the transaction in it may still have failed. */
  datatype Included = Included(block: nat, succeeded: bool)

  /** Whether the transaction of a submission took effect; None is a submission that was rejected. */
  predicate TookEffect(submission: Option<Included>) {
    submission.Some? && submission.value.succeeded
  }

  /** A submitted NFT transfer out of the market's custody, and whether the NFT moved. */
  datatype Release = Release(auctionId: nat, recipient: Address, moved: bool)

  datatype Db = Db(
    offers: seq<Offer>,
    bids: seq<Bid>,
    transfers: seq<MoneyTransfer>,
    trades: seq<Trade>,
    releases: seq<Release>)

  /** What the configuration fixes for a whole run. */
  datatype Market = Market(address: Address, commission: Percent)

  const EMPTY := Db([], [], [], [], [])

  datatype Action =
    | CreateAuction(collectionId: nat, tokenId: nat, owner: Address, startPrice: int, priceStep: int, stopAt: int)
    | PlaceBid(a: nat, bidder: Address, amount: int)
    | FinishBid(bid: nat)
    | FailBid(bid: nat)
    | WithdrawBid(a: nat, bidder: Address, paid: bool)
    | CancelAuction(a: nat, owner: Address, now: int, returned: Option<Included>)
    | StopDue(now: int)
    | ForceStop(a: nat, now: int)
    | MakeAllDue(signer: Address, now: int)
    | FlipByAdmin(a: nat)
    | Settle(a: nat, rows: seq<AggregatedBid>, refused: set<Address>, submission: Option<Included>, paid: bool)

  /** Bids still count: the auction has not been picked for settlement. */
  predicate Open(o: Offer) {
    o.statusAuction == Created || o.statusAuction == Active || o.statusAuction == Stopped
  }

  predicate IsActive(s: Db, a: nat) {
    a < |s.offers| && s.offers[a].statusAuction == Active
  }

  // ---------- bidding ----------

  /** `minBidderAmount`: what a bidder must add to their pending total. */
  ghost function MinBidderAmount(s: Db, a: nat, bidder: Address): int
    requires a < |s.offers|
  {
    var o := s.offers[a];
    var missing := o.price - Total(s.bids, Pending(a), bidder);
    var isFirstBid := o.price == o.startPrice && !HasRow(s.bids, Pending(a));
    if missing > 0 && !isFirstBid then missing + o.priceStep else missing
  }

  ghost predicate AcceptsBid(s: Db, a: nat, bidder: Address, amount: int)
    requires a < |s.offers|
  {
    var o := s.offers[a];
    && !(o.price >= o.priceStep && amount < o.priceStep)
    && amount >= MinBidderAmount(s, a, bidder)
  }

  /** `checkActiveAuction` looks at the sale status, not at the auction status. */
  ghost predicate ListedForSale(s: Db, collectionId: nat, tokenId: nat) {
    exists i :: 0 <= i < |s.offers| && s.offers[i].collectionId == collectionId && s.offers[i].tokenId == tokenId
             && s.offers[i].status == AskActive
  }

  ghost function Placed(s: Db, a: nat, bidder: Address, amount: int): Db
    requires a < |s.offers|
  {
    var next := Total(s.bids, Pending(a), bidder) + amount;
    s.(offers := s.offers[a := s.offers[a].(price := next)],
       bids := s.bids + [Bid(a, bidder, amount, next, Minting)])
  }

  function FinishedBid(s: Db, bid: nat): Db
    requires bid < |s.bids|
  {
    var b := s.bids[bid];
    s.(bids := s.bids[bid := b.(status := Finished)],
       transfers := s.transfers + [MoneyTransfer(Deposit, Completed, b.amount, b.bidder)])
  }

  function FailedBid(s: Db, bid: nat): Db
    requires bid < |s.bids| && s.bids[bid].auctionId < |s.offers|
  {
    var b := s.bids[bid];
    var a := b.auctionId;
    var bids := s.bids[bid := b.(status := ErrorBid)];
    s.(bids := bids,
       offers := s.offers[a := s.offers[a].(price := LeadingTotal(bids, Pending(a), s.offers[a].startPrice))])
  }

  // ---------- money going back to bidders ----------

  /**
   * A withdrawal row and the outcome of its transfer (`makeWithdrawalTransfer`). The money row of a rejected
   * submission is never saved: its block number is the text of a missing value.
   */
  function PaidBack(s: Db, a: nat, bidder: Address, amount: int, balance: int, paid: bool): Db {
    s.(bids := s.bids + [Bid(a, bidder, -amount, balance, if paid then Finished else ErrorBid)],
       transfers := if paid then s.transfers + [MoneyTransfer(Withdraw, Completed, amount, bidder)] else s.transfers)
  }

  /** Some bidder other than `bidder` can come first in the leader query. */
  ghost predicate AnotherLeads(bids: seq<Bid>, f: BidsFilter, bidder: Address) {
    exists w :: w != bidder && IsLeader(bids, f, w)
  }

  ghost function Withdrawn(s: Db, a: nat, bidder: Address, paid: bool): Db {
    var actual := Total(s.bids, Actual(a), bidder);
    PaidBack(s, a, bidder, actual, Total(s.bids, Pending(a), bidder) - actual, paid)
  }

  /** Refunds the first `n` losers, skipping those with nothing to refund. */
  function Refunded(s: Db, a: nat, losers: seq<AggregatedBid>, refused: set<Address>, n: nat): Db
    requires n <= |losers|
  {
    if n == 0 then s
    else
      var before := Refunded(s, a, losers, refused, n - 1);
      var l := losers[n - 1];
      if l.totalAmount > 0 then PaidBack(before, a, l.bidderAddress, l.totalAmount, 0, l.bidderAddress !in refused)
      else before
  }

  // ---------- settlement ----------

  function WithOffer(s: Db, a: nat, o: Offer): Db
    requires a < |s.offers|
  {
    s.(offers := s.offers[a := o])
  }

  /** The status writes before any refund: an auction without losers is first written off as cancelled. */
  function Closing(s: Db, a: nat, rows: seq<AggregatedBid>): Db
    requires a < |s.offers|
  {
    WithOffer(s, a, if |rows| <= 1 then s.offers[a].(status := Cancelled, statusAuction := Ended)
                    else s.offers[a].(statusAuction := Withdrawing))
  }

  /** The token is sent to the winner; the block of any submission that resolves is stored, even of a failed transfer. */
  function TokenSent(s: Db, a: nat, winner: Address, submission: Option<Included>): Db
    requires a < |s.offers|
  {
    var o := s.offers[a];
    WithOffer(s, a, if submission.Some? then o.(blockNumberBuy := Some(submission.value.block)) else o)
      .(releases := s.releases + [Release(a, winner, TookEffect(submission))])
  }

  /** The status, trade and money rows of a sale; without a purchase block the handler throws before the rows. */
  function SaleWritten(s: Db, a: nat, buyer: Address, ownerPrice: int): Db
    requires a < |s.offers|
  {
    var o := s.offers[a].(status := Bought, addressTo := buyer, statusAuction := Ended);
    var sold := WithOffer(s, a, o);
    if o.blockNumberBuy.None? then sold
    else sold.(
      trades := s.trades + [Trade(a, ownerPrice, o.price, o.price - ownerPrice, o.addressFrom, buyer)],
      transfers := s.transfers + [MoneyTransfer(Deposit, Completed, -o.price, o.addressFrom),
                                  MoneyTransfer(Withdraw, Completed, ownerPrice, o.addressFrom)])
  }

  /** A paid sale: the owner gets what the winner paid in, less the commission. */
  function OwnerPaid(s: Db, m: Market, a: nat, winner: AggregatedBid): Db
    requires a < |s.offers|
  {
    SaleWritten(s, a, winner.bidderAddress, PriceWithoutCommission(winner.totalAmount, m.commission))
  }

  /** The block a return is recorded with: the transfer must have succeeded, in a block other than zero. */
  function ReturnBlock(returned: Option<Included>): Option<nat> {
    if TookEffect(returned) && returned.value.block != 0 then Some(returned.value.block) else None
  }

  /** `sendTokenBackToOwner`: a successful return is recorded, any other is only logged. */
  function TokenReturned(s: Db, a: nat, returned: Option<Included>): Db
    requires a < |s.offers|
  {
    var o := s.offers[a];
    var block := ReturnBlock(returned);
    WithOffer(s, a, if block.Some? then o.(blockNumberCancel := block, statusAuction := Ended) else o)
      .(releases := s.releases + [Release(a, o.addressFrom, TookEffect(returned))])
  }

  /** `processAuctionWithdraws`. */
  function Settled(s: Db, m: Market, a: nat, rows: seq<AggregatedBid>, refused: set<Address>,
                   submission: Option<Included>, paid: bool): Db
    requires a < |s.offers|
  {
    var closing := Closing(s, a, rows);
    if rows == [] then
      var returned := TokenReturned(closing, a, submission);
      WithOffer(returned, a, returned.offers[a].(status := Cancelled))
    else Served(closing, m, a, rows, refused, submission, paid)
  }

  /** The refunds, and then the winner's token and the owner's payment. */
  function Served(s: Db, m: Market, a: nat, rows: seq<AggregatedBid>, refused: set<Address>,
                  submission: Option<Included>, paid: bool): Db
    requires a < |s.offers| && rows != []
  {
    RefundsFrame(s, a, rows[1..], refused, |rows| - 1);
    var refunded := Refunded(s, a, rows[1..], refused, |rows| - 1);
    var sent := TokenSent(refunded, a, rows[0].bidderAddress, submission);
    if paid then OwnerPaid(sent, m, a, rows[0]) else sent
  }

  lemma {:induction false} RefundsFrame(s: Db, a: nat, losers: seq<AggregatedBid>, refused: set<Address>, n: nat)
    requires n <= |losers|
    ensures var s' := Refunded(s, a, losers, refused, n);
      s'.offers == s.offers && s'.trades == s.trades && s'.releases == s.releases && s.bids <= s'.bids
  {
    if n > 0 {
      RefundsFrame(s, a, losers, refused, n - 1);
    }
  }

  // ---------- stopping and cancelling ----------

  function CancelledByOwner(s: Db, a: nat, now: int, returned: Option<Included>): Db
    requires a < |s.offers|
  {
    var o := s.offers[a];
    var s' := TokenReturned(
      WithOffer(s, a, o.(status := Cancelled, stopAt := now, statusAuction := Ended)), a, returned);
    // a recorded return saves the entity read before the update, and with it the old stop time
    if ReturnBlock(returned).Some? then WithOffer(s', a, s'.offers[a].(stopAt := o.stopAt)) else s'
  }

  predicate IsDue(o: Offer, now: int) {
    o.statusAuction == Active && o.stopAt <= now
  }

  function StoppedOffers(offers: seq<Offer>, now: int): (r: seq<Offer>)
    ensures |r| == |offers|
    ensures forall i :: 0 <= i < |r| ==>
      r[i] == if IsDue(offers[i], now) then offers[i].(statusAuction := Stopped, stopAt := now) else offers[i]
  {
    seq(|offers|, i requires 0 <= i < |offers| =>
      if IsDue(offers[i], now) then offers[i].(statusAuction := Stopped, stopAt := now) else offers[i])
  }

  predicate ActiveOfOthers(o: Offer, signer: Address) {
    o.statusAuction == Active && o.addressFrom != signer
  }

  function DueNowOffers(offers: seq<Offer>, signer: Address, now: int): (r: seq<Offer>)
    ensures |r| == |offers|
    ensures forall i :: 0 <= i < |r| ==>
      r[i] == if ActiveOfOthers(offers[i], signer) then offers[i].(stopAt := now) else offers[i]
  {
    seq(|offers|, i requires 0 <= i < |offers| =>
      if ActiveOfOthers(offers[i], signer) then offers[i].(stopAt := now) else offers[i])
  }

  function Flipped(o: Offer): Offer {
    match o.status
    case AskActive => o.(status := RemovedByAdmin)
    case RemovedByAdmin => o.(status := AskActive)
    case _ => o
  }

  // ---------- the machine ----------

  ghost predicate NoMinting(bids: seq<Bid>, a: nat) {
    forall i :: 0 <= i < |bids| && bids[i].auctionId == a ==> bids[i].status != Minting
  }

  ghost predicate Enabled(s: Db, act: Action) {
    match act
    case CreateAuction(_, _, _, startPrice, priceStep, _) => startPrice >= 1 && priceStep >= 1
    case PlaceBid(a, bidder, amount) =>
      && amount >= 0
      && IsActive(s, a)
      && ListedForSale(s, s.offers[a].collectionId, s.offers[a].tokenId)
      && AcceptsBid(s, a, bidder, amount)
    case FinishBid(bid) => bid < |s.bids| && s.bids[bid].status == Minting
    case FailBid(bid) => bid < |s.bids| && s.bids[bid].status == Minting && s.bids[bid].auctionId < |s.offers|
    case WithdrawBid(a, bidder, _) =>
      && IsActive(s, a)
      && Total(s.bids, Actual(a), bidder) > 0
      && AnotherLeads(s.bids, Pending(a), bidder)
      && AnotherLeads(s.bids, Actual(a), bidder)
    case CancelAuction(a, owner, _, _) =>
      && IsActive(s, a)
      && s.offers[a].addressFrom == owner
      && forall i :: 0 <= i < |s.bids| && s.bids[i].auctionId == a ==> s.bids[i].status == ErrorBid
    case StopDue(_) => true
    case ForceStop(a, _) =>
      a < |s.offers| && (s.offers[a].statusAuction == Created || s.offers[a].statusAuction == Active)
    case MakeAllDue(_, _) => true
    case FlipByAdmin(a) => a < |s.offers|
    case Settle(a, rows, _, _, _) =>
      && a < |s.offers|
      && s.offers[a].statusAuction == Stopped
      && NoMinting(s.bids, a)
      && IsGrouping(rows, s.bids, Actual(a))
  }

  ghost function Next(s: Db, m: Market, act: Action): Db
    requires Enabled(s, act)
  {
    match act
    case CreateAuction(collectionId, tokenId, owner, startPrice, priceStep, stopAt) =>
      s.(offers := s.offers + [Offer(collectionId, tokenId, owner, m.address, AskActive, Active,
                                     startPrice, startPrice, priceStep, stopAt, None, None)])
    case PlaceBid(a, bidder, amount) => Placed(s, a, bidder, amount)
    case FinishBid(bid) => FinishedBid(s, bid)
    case FailBid(bid) => FailedBid(s, bid)
    case WithdrawBid(a, bidder, paid) => Withdrawn(s, a, bidder, paid)
    case CancelAuction(a, _, now, returned) => CancelledByOwner(s, a, now, returned)
    case StopDue(now) => s.(offers := StoppedOffers(s.offers, now))
    case ForceStop(a, now) => WithOffer(s, a, s.offers[a].(stopAt := now, statusAuction := Stopped))
    case MakeAllDue(signer, now) => s.(offers := DueNowOffers(s.offers, signer, now))
    case FlipByAdmin(a) => WithOffer(s, a, Flipped(s.offers[a]))
    case Settle(a, rows, refused, submission, paid) => Settled(s, m, a, rows, refused, submission, paid)
  }

  /** `states` is the history of executing `acts` from `states[0]`. */
  ghost predicate Run(states: seq<Db>, m: Market, acts: seq<Action>) {
    && |states| == |acts| + 1
    && forall i :: 0 <= i < |acts| ==> Enabled(states[i], acts[i]) && states[i + 1] == Next(states[i], m, acts[i])
  }
}
