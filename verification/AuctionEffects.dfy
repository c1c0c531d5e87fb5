/**
 * What each action does, seen from outside: to every bidder's totals, to every account's money, to every auction and
 * to the NFT.
 */
module AuctionEffects {
  import opened Common
  import opened BidTable
  import opened AuctionMachine
  import opened AuctionInvariant
  import opened AuctionLaws

  // ---------- which bids are taken ----------

  /** No pending total is above the price, also of bidders without a live row. */
  lemma NobodyAbovePrice(s: Db, a: nat, bidder: Address)
    requires Inv(s) && a < |s.offers| && Open(s.offers[a])
    ensures 0 <= Total(s.bids, Pending(a), bidder)
    ensures HasRow(s.bids, Pending(a)) ==> Total(s.bids, Pending(a), bidder) <= s.offers[a].price
    ensures !HasRow(s.bids, Pending(a)) ==>
      Total(s.bids, Pending(a), bidder) == 0 && s.offers[a].price == s.offers[a].startPrice
  {
    assert CachedAt(s, a);
    PriceBoundsTotals(s, a);
    NoRowsNoTotal(s.bids, Pending(a), bidder);
    LeadingTotalIs(s.bids, Pending(a), s.offers[a].startPrice);
    PendingIsNonNegative(s, a, bidder);
    if w :| IsLeader(s.bids, Pending(a), w) {
      PendingIsNonNegative(s, a, w);
    }
  }

  lemma PendingIsNonNegative(s: Db, a: nat, w: Address)
    requires Inv(s)
    ensures Total(s.bids, Pending(a), w) >= 0
  {
    PendingSplits(s.bids, a, w);
    UnresolvedTotals(s.bids, a, w);
    assert Total(s.bids, Actual(a), w) >= 0;
  }

  /**
   * The bidding rule in terms of totals alone. The first bid must reach the start price, a follower must come out a
   * step or more above the price, and a leader may add any full step; steps are waived for a price below one step.
   */
  lemma AcceptsBidExactly(s: Db, a: nat, bidder: Address, amount: nat)
    requires Inv(s) && a < |s.offers| && Open(s.offers[a])
    ensures var o, total := s.offers[a], Total(s.bids, Pending(a), bidder);
      AcceptsBid(s, a, bidder, amount) <==>
        if !HasRow(s.bids, Pending(a))
        then amount >= o.startPrice && (o.startPrice >= o.priceStep ==> amount >= o.priceStep)
        else if total < o.price then total + amount >= o.price + o.priceStep
        else o.price >= o.priceStep ==> amount >= o.priceStep
  {
    NobodyAbovePrice(s, a, bidder);
    MinimumIsExact(s, a, bidder);
  }

  /** The quoted minimum: the start price first, then a step above the price for a follower, nothing for a leader. */
  lemma MinimumIsExact(s: Db, a: nat, bidder: Address)
    requires Inv(s) && a < |s.offers| && Open(s.offers[a])
    ensures var o, total := s.offers[a], Total(s.bids, Pending(a), bidder);
      MinBidderAmount(s, a, bidder) ==
        if !HasRow(s.bids, Pending(a)) then o.startPrice
        else if total < o.price then o.price + o.priceStep - total
        else 0
  {
    NobodyAbovePrice(s, a, bidder);
  }

  // ---------- bids ----------

  /** Every total under `f` is as before, except that of one bidder, which has changed by `delta`. */
  ghost predicate OnlyTotal(bids: seq<Bid>, bids': seq<Bid>, f: BidsFilter, bidder: Address, delta: int) {
    forall w :: Total(bids', f, w) == Total(bids, f, w) + if w == bidder then delta else 0
  }

  /** The same over all auctions, of which only `a` may change. */
  ghost predicate OnlyPending(bids: seq<Bid>, bids': seq<Bid>, a: nat, bidder: Address, delta: int) {
    forall c: nat :: OnlyTotal(bids, bids', Pending(c), bidder, if c == a then delta else 0)
  }

  ghost predicate OnlyActual(bids: seq<Bid>, bids': seq<Bid>, a: nat, bidder: Address, delta: int) {
    forall c: nat :: OnlyTotal(bids, bids', Actual(c), bidder, if c == a then delta else 0)
  }

  /** Every account's net money is as before, except that of `x`, which has changed by `delta`. */
  ghost predicate OnlyNet(s: Db, s': Db, x: Address, delta: int) {
    forall y :: Net(s'.transfers, y) == Net(s.transfers, y) + if y == x then delta else 0
  }

  predicate SameSales(s: Db, s': Db) {
    s'.trades == s.trades && s'.releases == s.releases
  }

  /**
   * A placed bid adds its amount to its bidder's pending total, which becomes the price; no money is booked yet, and no
   * other total, auction or account changes.
   */
  lemma PlacedBidEffect(s: Db, m: Market, a: nat, bidder: Address, amount: int)
    requires Enabled(s, PlaceBid(a, bidder, amount))
    ensures var s' := Next(s, m, PlaceBid(a, bidder, amount));
      && OnlyPending(s.bids, s'.bids, a, bidder, amount) && OnlyActual(s.bids, s'.bids, a, bidder, 0)
      && s'.offers == s.offers[a := s.offers[a].(price := Total(s'.bids, Pending(a), bidder))]
      && OnlyNet(s, s', bidder, 0) && SameSales(s, s')
      && |s'.bids| == |s.bids| + 1 && s'.bids[..|s.bids|] == s.bids
      && Enabled(s', FinishBid(|s.bids|)) && Enabled(s', FailBid(|s.bids|))
  {
    var s' := Next(s, m, PlaceBid(a, bidder, amount));
    AppendTotals(s.bids, s'.bids[|s.bids|]);
  }

  /** One row changes its status and nothing else; all other rows stay. */
  predicate Resolves(bids: seq<Bid>, bids': seq<Bid>, bid: nat, status: BidStatus) {
    && bid < |bids| == |bids'|
    && bids'[bid] == bids[bid].(status := status)
    && forall i :: 0 <= i < |bids| && i != bid ==> bids'[i] == bids[i]
  }

  /**
   * A confirmed bid arrives: the bidder's finished total and net money rise by its amount, one row fewer is
   * unresolved, and pending totals, prices and everyone else's money stay.
   */
  lemma FinishedBidEffect(s: Db, m: Market, bid: nat)
    requires Enabled(s, FinishBid(bid))
    ensures var s', b := Next(s, m, FinishBid(bid)), s.bids[bid];
      && Resolves(s.bids, s'.bids, bid, Finished)
      && OnlyActual(s.bids, s'.bids, b.auctionId, b.bidder, b.amount)
      && OnlyPending(s.bids, s'.bids, b.auctionId, b.bidder, 0)
      && OnlyNet(s, s', b.bidder, b.amount)
      && s'.offers == s.offers && SameSales(s, s')
  {
    var s', b := Next(s, m, FinishBid(bid)), s.bids[bid];
    UpdateTotals(s.bids, bid, b.(status := Finished));
    AppendLedgers([], b, s.transfers, s'.transfers[|s.transfers|]);
  }

  /**
   * A failed bid is taken back: the bidder's pending total falls by its amount, the auction's price becomes what the
   * remaining rows lead with, and no money, finished total or other auction changes.
   */
  lemma FailedBidEffect(s: Db, m: Market, bid: nat)
    requires Enabled(s, FailBid(bid))
    ensures var s', b := Next(s, m, FailBid(bid)), s.bids[bid];
      && Resolves(s.bids, s'.bids, bid, ErrorBid)
      && OnlyPending(s.bids, s'.bids, b.auctionId, b.bidder, -b.amount)
      && OnlyActual(s.bids, s'.bids, b.auctionId, b.bidder, 0)
      && s'.offers == s.offers[b.auctionId := s.offers[b.auctionId].(price := s'.offers[b.auctionId].price)]
      && (!HasRow(s'.bids, Pending(b.auctionId)) ==> s'.offers[b.auctionId].price == s.offers[b.auctionId].startPrice)
      && (forall w :: IsLeader(s'.bids, Pending(b.auctionId), w) ==>
            s'.offers[b.auctionId].price == Total(s'.bids, Pending(b.auctionId), w))
      && OnlyNet(s, s', b.bidder, 0) && SameSales(s, s')
  {
    var s', b := Next(s, m, FailBid(bid)), s.bids[bid];
    UpdateTotals(s.bids, bid, b.(status := ErrorBid));
    LeadingTotalIs(s'.bids, Pending(b.auctionId), s.offers[b.auctionId].startPrice);
  }

  /**
   * A bidder's withdrawal: if it is paid, exactly their finished total leaves the table and their account, and what
   * stays pending is what is unresolved; if it is not, nothing moves. Prices, sales and all others stay as they are.
   */
  lemma WithdrawalEffect(s: Db, m: Market, a: nat, bidder: Address, paid: bool)
    requires Enabled(s, WithdrawBid(a, bidder, paid))
    ensures var s', back := Next(s, m, WithdrawBid(a, bidder, paid)),
                            if paid then -Total(s.bids, Actual(a), bidder) else 0;
      && OnlyActual(s.bids, s'.bids, a, bidder, back) && OnlyPending(s.bids, s'.bids, a, bidder, back)
      && (paid ==> Total(s'.bids, Actual(a), bidder) == 0
                   && Total(s'.bids, Pending(a), bidder) == Total(s.bids, Unresolved(a), bidder))
      && OnlyNet(s, s', bidder, back)
      && s'.offers == s.offers && SameSales(s, s')
      && |s'.bids| == |s.bids| + 1 && s'.bids[..|s.bids|] == s.bids
      && s'.bids[|s.bids|].status == (if paid then Finished else ErrorBid)
  {
    var s' := Next(s, m, WithdrawBid(a, bidder, paid));
    AppendTotals(s.bids, s'.bids[|s.bids|]);
    AppendLedgers([], s'.bids[|s.bids|], s.transfers,
                  MoneyTransfer(Withdraw, Completed, Total(s.bids, Actual(a), bidder), bidder));
    PendingSplits(s.bids, a, bidder);
  }

  // ---------- the end of an auction ----------

  /** What an auction is about: the token, the owner and the terms. */
  predicate SameLot(o: Offer, o': Offer) {
    && o'.collectionId == o.collectionId && o'.tokenId == o.tokenId && o'.addressFrom == o.addressFrom
    && o'.price == o.price && o'.startPrice == o.startPrice && o'.priceStep == o.priceStep
  }

  ghost predicate OnlyAuction(s: Db, s': Db, a: nat) {
    && a < |s.offers| == |s'.offers| && SameLot(s.offers[a], s'.offers[a])
    && forall c :: 0 <= c < |s.offers| && c != a ==> s'.offers[c] == s.offers[c]
  }

  /** The offer is off and over, and says in which block its token came back, if it did in a block other than zero. */
  predicate CalledOff(o: Offer, o': Offer, returned: Option<Included>) {
    && o'.status == Cancelled && o'.statusAuction == Ended
    && o'.addressTo == o.addressTo && o'.blockNumberBuy == o.blockNumberBuy
    && o'.blockNumberCancel ==
         if returned.Some? && returned.value.succeeded && returned.value.block != 0 then Some(returned.value.block)
         else o.blockNumberCancel
  }

  /** An auction without finished bids ends with its token on the way back to the owner; no money moves. */
  lemma EmptyAuctionReturnsToken(s: Db, m: Market, a: nat, refused: set<Address>, submission: Option<Included>, paid: bool)
    requires Enabled(s, Settle(a, [], refused, submission, paid))
    ensures var s' := Next(s, m, Settle(a, [], refused, submission, paid));
      && s'.releases == s.releases + [Release(a, s.offers[a].addressFrom, submission.Some? && submission.value.succeeded)]
      && OnlyAuction(s, s', a) && CalledOff(s.offers[a], s'.offers[a], submission)
      && s'.offers[a].stopAt == s.offers[a].stopAt
      && s'.bids == s.bids && s'.transfers == s.transfers && s'.trades == s.trades
  {}

  /** The rows are empty exactly when nobody's finished money is in the auction's rows. */
  lemma EmptyIffNoFinishedRow(rows: seq<AggregatedBid>, bids: seq<Bid>, a: nat)
    requires IsGrouping(rows, bids, Actual(a))
    ensures rows == [] <==> forall i :: 0 <= i < |bids| && bids[i].auctionId == a ==> bids[i].status != Finished
  {
    if i :| 0 <= i < |bids| && bids[i].auctionId == a && bids[i].status == Finished {
      RowIsCounted(bids, Actual(a), bids[i].bidder, i);
    }
    if rows != [] {
      var i := CountedRow(bids, Actual(a), rows[0].bidderAddress);
    }
  }

  /** A cancellation calls the auction off and sends the token back; a recorded return restores the old stop time. */
  lemma CancellationReturnsToken(s: Db, m: Market, a: nat, owner: Address, now: int, returned: Option<Included>)
    requires Enabled(s, CancelAuction(a, owner, now, returned))
    ensures var s' := Next(s, m, CancelAuction(a, owner, now, returned));
      && s'.releases == s.releases + [Release(a, owner, returned.Some? && returned.value.succeeded)]
      && owner == s.offers[a].addressFrom
      && OnlyAuction(s, s', a) && CalledOff(s.offers[a], s'.offers[a], returned)
      && s'.offers[a].stopAt ==
           (if returned.Some? && returned.value.succeeded && returned.value.block != 0 then s.offers[a].stopAt else now)
      && s'.bids == s.bids && s'.transfers == s.transfers && s'.trades == s.trades
  {}

  /** Rows of any status. */
  function AnyStatus(a: nat): BidsFilter {
    BidsFilter(a, None, None)
  }

  /** The refund loop writes one row for each loser with a positive total, and no other. */
  lemma {:induction false} OneRefundEach(s: Db, a: nat, losers: seq<AggregatedBid>, refused: set<Address>, n: nat)
    requires n <= |losers| && forall i, j :: 0 <= i < j < |losers| ==> losers[i].bidderAddress != losers[j].bidderAddress
    ensures forall w :: Rows(Refunded(s, a, losers, refused, n).bids, AnyStatus(a), w)
                     == Rows(s.bids, AnyStatus(a), w) + if IsRefunded(losers, {}, n, w) then 1 else 0
  {
    if n > 0 {
      OneRefundEach(s, a, losers, refused, n - 1);
      var before, l := Refunded(s, a, losers, refused, n - 1), losers[n - 1];
      AppendTotals(before.bids, PaidBack(before, a, l.bidderAddress, l.totalAmount, 0,
          l.bidderAddress !in refused).bids[|before.bids|]);
      assert !IsRefunded(losers, {}, n - 1, l.bidderAddress);
      forall w ensures IsRefunded(losers, {}, n, w)
        <==> (IsRefunded(losers, {}, n - 1, w) || (w == l.bidderAddress && l.totalAmount > 0)) {}
    }
  }

  /** The offer still has its terms and its stop time, and the block of any submission that resolved. */
  predicate KeepsLot(o: Offer, o': Offer, submission: Option<Included>) {
    && SameLot(o, o') && o'.stopAt == o.stopAt && o'.blockNumberCancel == o.blockNumberCancel
    && o'.blockNumberBuy == if submission.Some? then Some(submission.value.block) else o.blockNumberBuy
  }

  lemma ServedKeepsLot(refunded: Db, m: Market, a: nat, winner: AggregatedBid, submission: Option<Included>, paid: bool)
    requires a < |refunded.offers|
    ensures var sent := TokenSent(refunded, a, winner.bidderAddress, submission);
      var s' := if paid then OwnerPaid(sent, m, a, winner) else sent;
      OnlyAuction(refunded, s', a) && KeepsLot(refunded.offers[a], s'.offers[a], submission)
  {}

  /** A settlement with a winner keeps the lot, and touches no other auction. */
  lemma SaleKeepsLot(s: Db, m: Market, a: nat, rows: seq<AggregatedBid>, refused: set<Address>,
                     submission: Option<Included>, paid: bool)
    requires Enabled(s, Settle(a, rows, refused, submission, paid)) && rows != []
    ensures var s' := Next(s, m, Settle(a, rows, refused, submission, paid));
      OnlyAuction(s, s', a) && KeepsLot(s.offers[a], s'.offers[a], submission)
  {
    var closing := Closing(s, a, rows);
    RefundsFrame(closing, a, rows[1..], refused, |rows| - 1);
    ServedKeepsLot(Refunded(closing, a, rows[1..], refused, |rows| - 1), m, a, rows[0], submission, paid);
  }

  // ---------- stopping ----------

  /** Stopping leaves no due auction active: those that stay active are the undue ones, untouched. */
  lemma NothingDueStaysActive(s: Db, m: Market, now: int, a: nat)
    requires a < |s.offers|
    ensures var s' := Next(s, m, StopDue(now));
      && |s'.offers| == |s.offers| && SameLot(s.offers[a], s'.offers[a])
      && (IsActive(s', a) <==> IsActive(s, a) && s.offers[a].stopAt > now)
      && (s'.offers[a] != s.offers[a] ==> s'.offers[a].statusAuction == Stopped && s'.offers[a].stopAt == now)
      && (IsActive(s, a) && !IsActive(s', a) ==> s'.offers[a].statusAuction == Stopped)
      && s'.(offers := s.offers) == s
  {}

  /** After a mass cancellation the next round of stopping takes every auction of another seller, and the due ones. */
  lemma MassCancelStopsOthers(s: Db, m: Market, signer: Address, now: int, later: int, a: nat)
    requires a < |s.offers| && now <= later
    ensures var s' := Next(Next(s, m, MakeAllDue(signer, now)), m, StopDue(later));
      && |s'.offers| == |s.offers| && SameLot(s.offers[a], s'.offers[a])
      && (IsActive(s', a) <==> IsActive(s, a) && s.offers[a].addressFrom == signer && s.offers[a].stopAt > later)
      && (IsActive(s, a) && !IsActive(s', a) ==> s'.offers[a].statusAuction == Stopped)
      && (!IsActive(s, a) ==> s'.offers[a] == s.offers[a])
      && s'.(offers := s.offers) == s
  {}

  /** A forced stop changes nothing but the status and the stop time, and an auction without unresolved bids is ready. */
  lemma ForcedStopIsReady(s: Db, m: Market, a: nat, now: int, rows: seq<AggregatedBid>, refused: set<Address>,
                          submission: Option<Included>, paid: bool)
    requires Enabled(s, ForceStop(a, now)) && IsGrouping(rows, s.bids, Actual(a))
    ensures var s' := Next(s, m, ForceStop(a, now));
      && OnlyAuction(s, s', a) && s'.offers[a].stopAt == now && s'.(offers := s.offers) == s
      && s'.offers[a].(statusAuction := s.offers[a].statusAuction, stopAt := s.offers[a].stopAt) == s.offers[a]
      && (Enabled(s', Settle(a, rows, refused, submission, paid)) <==> !HasRow(s.bids, Unresolved(a)))
  {
    if i :| 0 <= i < |s.bids| && s.bids[i].auctionId == a && s.bids[i].status == Minting {
      RowIsCounted(s.bids, Unresolved(a), s.bids[i].bidder, i);
    } else {
      NoRows(s.bids, Unresolved(a));
    }
  }

  /** A removed auction takes no bids; a listed one takes those that meet the bidding rule. */
  lemma RemovalStopsBids(s: Db, m: Market, a: nat, bidder: Address, amount: nat)
    requires IsActive(s, a) && s.offers[a].status == AskActive
    requires forall i :: 0 <= i < |s.offers| && i != a && s.offers[i].status == AskActive ==>
      s.offers[i].collectionId != s.offers[a].collectionId || s.offers[i].tokenId != s.offers[a].tokenId
    ensures Enabled(s, PlaceBid(a, bidder, amount)) <==> AcceptsBid(s, a, bidder, amount)
    ensures !Enabled(Next(s, m, FlipByAdmin(a)), PlaceBid(a, bidder, amount))
  {
    assert s.offers[a].status == AskActive ==> ListedForSale(s, s.offers[a].collectionId, s.offers[a].tokenId);
  }

  /** Every row was placed or written by a withdrawal, so none is in the status that rows have before either. */
  ghost predicate NoCreatedRow(s: Db) {
    forall i :: 0 <= i < |s.bids| ==> s.bids[i].status != CreatedBid
  }

  lemma StepNoCreatedRow(s: Db, m: Market, act: Action)
    requires NoCreatedRow(s) && Enabled(s, act)
    ensures NoCreatedRow(Next(s, m, act))
  {
    match act
    case Settle(a, rows, refused, submission, paid) => SettlementNoCreatedRow(s, m, a, rows, refused, submission, paid);
    case _ =>
  }

  lemma SettlementNoCreatedRow(s: Db, m: Market, a: nat, rows: seq<AggregatedBid>, refused: set<Address>,
                               submission: Option<Included>, paid: bool)
    requires NoCreatedRow(s) && a < |s.offers|
    ensures NoCreatedRow(Settled(s, m, a, rows, refused, submission, paid))
  {
    SettlementFrame(s, m, a, rows, refused, submission, paid);
    if rows != [] {
      RefundsNoCreatedRow(Closing(s, a, rows), a, rows[1..], refused, |rows| - 1);
    }
  }

  lemma {:induction false} RefundsNoCreatedRow(s: Db, a: nat, losers: seq<AggregatedBid>, refused: set<Address>, n: nat)
    requires n <= |losers| && NoCreatedRow(s)
    ensures NoCreatedRow(Refunded(s, a, losers, refused, n))
  {
    if n > 0 {
      RefundsNoCreatedRow(s, a, losers, refused, n - 1);
    }
  }

  lemma {:induction false} NeverCreatedRow(states: seq<Db>, m: Market, acts: seq<Action>, i: nat)
    requires History(states, m, acts) && i < |states|
    ensures NoCreatedRow(states[i])
  {
    if i > 0 {
      NeverCreatedRow(states, m, acts, i - 1);
      StepNoCreatedRow(states[i - 1], m, acts[i - 1]);
    }
  }

  /**
   * In every reachable database an owner can cancel an active auction if and only if it has no live row, that is, if
   * every bid on it has failed; its price is then the start price.
   */
  lemma CancellableIff(states: seq<Db>, m: Market, acts: seq<Action>, i: nat, a: nat, owner: Address, now: int,
                       returned: Option<Included>)
    requires History(states, m, acts) && i < |states| && IsActive(states[i], a)
    ensures var s := states[i];
      && (Enabled(s, CancelAuction(a, owner, now, returned)) <==>
            s.offers[a].addressFrom == owner && !HasRow(s.bids, Pending(a)))
      && (Enabled(s, CancelAuction(a, owner, now, returned)) ==> s.offers[a].price == s.offers[a].startPrice)
  {
    var s := states[i];
    NeverCreatedRow(states, m, acts, i);
    HistoryKeeps(states, m, acts);
    NobodyAbovePrice(s, a, owner);
    if k :| 0 <= k < |s.bids| && s.bids[k].auctionId == a && s.bids[k].status != ErrorBid {
      RowIsCounted(s.bids, Pending(a), s.bids[k].bidder, k);
    } else {
      NoRows(s.bids, Pending(a));
    }
  }

  /** The administrator switches a listed auction off and on again; its course and its terms go on as they were. */
  lemma FlippingTwice(s: Db, m: Market, a: nat)
    requires a < |s.offers|
    ensures var s' := Next(s, m, FlipByAdmin(a));
      && |s'.offers| == |s.offers| && Next(s', m, FlipByAdmin(a)) == s
      && (s' != s <==> s.offers[a].status == AskActive || s.offers[a].status == RemovedByAdmin)
      && (s.offers[a].status == AskActive ==> s'.offers[a].status == RemovedByAdmin)
      && s'.offers[a].(status := s.offers[a].status) == s.offers[a]
      && s'.(offers := s.offers) == s && forall c :: 0 <= c < |s.offers| && c != a ==> s'.offers[c] == s.offers[c]
  {
    var s' := Next(s, m, FlipByAdmin(a));
    assert Next(s', m, FlipByAdmin(a)).offers == s.offers;
  }

  predicate OnToken(o: Offer, act: Action)
    requires act.CreateAuction?
  {
    o.collectionId == act.collectionId && o.tokenId == act.tokenId
  }

  /** A created auction starts open at its start price, with no bid to its name, and disturbs nothing. */
  lemma CreatedAuctionIsOpen(s: Db, m: Market, act: Action)
    requires Inv(s) && act.CreateAuction? && Enabled(s, act)
    ensures var s', a := Next(s, m, act), |s.offers|;
      && |s'.offers| == a + 1 && s'.offers[..a] == s.offers && s'.(offers := s.offers) == s
      && IsActive(s', a) && ListedForSale(s', act.collectionId, act.tokenId)
      && OnToken(s'.offers[a], act) && s'.offers[a].status == AskActive
      && s'.offers[a].addressFrom == act.owner && s'.offers[a].addressTo == m.address && s'.offers[a].stopAt == act.stopAt
      && s'.offers[a].blockNumberBuy.None? && s'.offers[a].blockNumberCancel.None?
      && s'.offers[a].startPrice == act.startPrice && s'.offers[a].priceStep == act.priceStep
      && !HasRow(s'.bids, Pending(a)) && s'.offers[a].price == act.startPrice
      && (act.startPrice >= act.priceStep ==> forall w, v: nat :: AcceptsBid(s', a, w, v) <==> v >= act.startPrice)
  {
    var s', a := Next(s, m, act), |s.offers|;
    NoRows(s.bids, Pending(a));
    StepKeeps(s, m, act);
    assert s'.offers[a].collectionId == act.collectionId;
    if act.startPrice >= act.priceStep {
      forall w, v: nat ensures AcceptsBid(s', a, w, v) <==> v >= act.startPrice {
        AcceptsBidExactly(s', a, w, v);
      }
    }
  }
}
