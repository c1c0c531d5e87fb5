/**
 * The auction services over their tables. Every method is tied to the machine's actions; the outcome of a
 * chain submission is a parameter, and the queries answer with any row their SQL allows.
 */
module AuctionService {
  import opened Common
  import opened BidTable
  import opened AuctionMachine
  import opened AuctionInvariant
  import opened AuctionLaws

  predicate OnToken(o: Offer, collectionId: nat, tokenId: nat) {
    o.collectionId == collectionId && o.tokenId == tokenId
  }

  /** Stopped, with no bid left in minting. */
  ghost predicate ReadyForWithdraw(s: Db, a: nat) {
    a < |s.offers| && s.offers[a].statusAuction == Stopped && NoMinting(s.bids, a)
  }

  /** The tokens of the chosen auctions, each once. */
  ghost predicate IsSelection(items: seq<(nat, nat)>, offers: seq<Offer>, auctionIds: set<nat>) {
    && (forall i, j :: 0 <= i < j < |items| ==> items[i] != items[j])
    && forall t :: t in items <==>
         exists a :: 0 <= a < |offers| && a in auctionIds && (offers[a].collectionId, offers[a].tokenId) == t
  }

  /** The action is a withdrawal by this bidder, with this outcome, from an auction on the token. */
  predicate WithdrawsOn(act: Action, offers: seq<Offer>, token: (nat, nat), bidder: Address, paid: bool) {
    && act.WithdrawBid? && act.a < |offers| && act.bidder == bidder && act.paid == paid
    && OnToken(offers[act.a], token.0, token.1)
  }

  /** A withdrawal can be refused: no active auction is on the token, or one is on which a check can fail. */
  ghost predicate CanRefuse(s: Db, token: (nat, nat), bidder: Address) {
    || (forall i :: 0 <= i < |s.offers| && OnToken(s.offers[i], token.0, token.1) ==> s.offers[i].statusAuction != Active)
    || exists a: nat :: IsActive(s, a) && OnToken(s.offers[a], token.0, token.1)
                        && (|| Total(s.bids, Actual(a), bidder) <= 0
                            || IsLeader(s.bids, Pending(a), bidder) || IsLeader(s.bids, Actual(a), bidder))
  }

  /** A run followed by one more step from where it ended is a run. */
  lemma ExtendRun(states: seq<Db>, m: Market, acts: seq<Action>, act: Action, s': Db)
    requires Run(states, m, acts) && Run([states[|acts|], s'], m, [act])
    ensures Run(states + [s'], m, acts + [act])
  {
    assert Enabled([states[|acts|], s'][0], [act][0]) && [states[|acts|], s'][1] == Next(states[|acts|], m, act);
  }

  /** What the submissions made while settling one auction come to. */
  datatype Outcome = Outcome(refused: set<Address>, submission: Option<Included>, paid: bool)

  class AuctionMarket {
    const market: Market
    var offers: seq<Offer>
    var bids: seq<Bid>
    var transfers: seq<MoneyTransfer>
    var trades: seq<Trade>
    var releases: seq<Release>

    function View(): Db
      reads this
    {
      Db(offers, bids, transfers, trades, releases)
    }

    constructor (market: Market)
      ensures this.market == market && View() == EMPTY
    {
      this.market := market;
      offers, bids, transfers, trades, releases := [], [], [], [], [];
    }

    /** `createAuctionBroadcast`, for a request that passed validation. */
    method CreateAuction(collectionId: nat, tokenId: nat, owner: Address, startPrice: int, priceStep: int, stopAt: int)
      returns (a: nat)
      requires startPrice >= 1 && priceStep >= 1
      modifies this
      ensures a == |old(offers)|
      ensures View() == Next(old(View()), market,
          Action.CreateAuction(collectionId, tokenId, owner, startPrice, priceStep, stopAt))
    {
      a := |offers|;
      offers := offers + [Offer(collectionId, tokenId, owner, market.address, AskActive, Active,
                                startPrice, startPrice, priceStep, stopAt, None, None)];
    }

    /** `getAuction`: any auction on the token in one of the statuses. */
    method GetAuction(collectionId: nat, tokenId: nat, statuses: set<AuctionStatus>) returns (r: Option<nat>)
      ensures r.Some? ==> r.value < |offers| && OnToken(offers[r.value], collectionId, tokenId)
                          && offers[r.value].statusAuction in statuses
      ensures r.None? ==> forall i :: 0 <= i < |offers| && OnToken(offers[i], collectionId, tokenId) ==>
                            offers[i].statusAuction !in statuses
    {
      if i :| 0 <= i < |offers| && OnToken(offers[i], collectionId, tokenId) && offers[i].statusAuction in statuses {
        r := Some(i);
      } else {
        r := None;
      }
    }

    // ---------- placing a bid ----------

    /** `getCalculationInfo`. */
    method CalculationInfo(a: nat, bidder: Address) returns (bidderPendingAmount: int, minBidderAmount: int)
      requires a < |offers|
      ensures bidderPendingAmount == Total(bids, Pending(a), bidder)
      ensures minBidderAmount == MinBidderAmount(View(), a, bidder)
    {
      var o := offers[a];
      bidderPendingAmount := UserSum(bids, Pending(a), bidder);
      minBidderAmount := o.price - bidderPendingAmount;
      var pendingWinner := FirstAggregatedBid(bids, Pending(a));
      var isFirstBid := o.price == o.startPrice && pendingWinner.None?;
      if minBidderAmount > 0 && !isFirstBid {
        minBidderAmount := minBidderAmount + o.priceStep;
      }
    }

    /** `tryPlacePendingBid`, on the active auction that was found. */
    method TryPlacePendingBid(a: nat, bidder: Address, amount: int) returns (r: Result<nat>)
      requires IsActive(View(), a)
      modifies this
      ensures r.Ok? <==> AcceptsBid(old(View()), a, bidder, amount)
      ensures r.Ok? ==> r.value == |old(bids)| && View() == Placed(old(View()), a, bidder, amount)
      ensures r.Err? ==> View() == old(View())
    {
      var o := offers[a];
      var bidderPendingAmount, minBidderAmount := CalculationInfo(a, bidder);
      if o.price >= o.priceStep && amount < o.priceStep {
        return Err;
      }
      if amount < minBidderAmount {
        return Err;
      }
      var next := bidderPendingAmount + amount;
      r := Ok(|bids|);
      offers := offers[a := o.(price := next)];
      bids := bids + [Bid(a, bidder, amount, next, Minting)];
    }

    method HandleBidTxSuccess(bid: nat)
      requires Enabled(View(), FinishBid(bid))
      modifies this
      ensures View() == Next(old(View()), market, FinishBid(bid))
    {
      bids := bids[bid := bids[bid].(status := Finished)];
      transfers := transfers + [MoneyTransfer(Deposit, Completed, bids[bid].amount, bids[bid].bidder)];
    }

    method HandleBidTxFail(bid: nat)
      requires Enabled(View(), FailBid(bid))
      modifies this
      ensures View() == Next(old(View()), market, FailBid(bid))
    {
      var a := bids[bid].auctionId;
      bids := bids[bid := bids[bid].(status := ErrorBid)];
      var newWinner := FirstAggregatedBid(bids, Pending(a));
      LeadingTotalIs(bids, Pending(a), offers[a].startPrice);
      var newPrice := match newWinner case Some(w) => w.totalAmount case None => offers[a].startPrice;
      offers := offers[a := offers[a].(price := newPrice)];
    }

    /** The first half of `placeBid`, up to the pending row; the transfer itself has already been submitted. */
    method PlaceBid(collectionId: nat, tokenId: nat, bidder: Address, amount: nat) returns (r: Result<nat>)
      modifies this
      ensures r.Err? ==> View() == old(View())
      ensures r.Err? ==>
        || !ListedForSale(old(View()), collectionId, tokenId)
        || (forall i :: 0 <= i < |old(offers)| && OnToken(old(offers)[i], collectionId, tokenId) ==>
            old(offers)[i].statusAuction != Active)
        || exists a: nat :: IsActive(old(View()), a) && OnToken(old(offers)[a], collectionId, tokenId)
                       && !AcceptsBid(old(View()), a, bidder, amount)
      ensures r.Ok? ==> r.value == |old(bids)| && |bids| == |old(bids)| + 1
      ensures r.Ok? ==>
        var a := bids[r.value].auctionId;
        && a < |old(offers)| && OnToken(old(offers)[a], collectionId, tokenId)
        && Enabled(old(View()), Action.PlaceBid(a, bidder, amount))
        && View() == Next(old(View()), market, Action.PlaceBid(a, bidder, amount))
    {
      if i :| 0 <= i < |offers| && OnToken(offers[i], collectionId, tokenId) && offers[i].status == AskActive {
        var found := GetAuction(collectionId, tokenId, {Active});
        if found.None? {
          return Err;
        }
        var _, minBidderAmount := CalculationInfo(found.value, bidder);
        if amount < minBidderAmount {
          return Err;
        }
        r := TryPlacePendingBid(found.value, bidder, amount);
      } else {
        r := Err;
      }
    }

    // ---------- withdrawing ----------

    /**
     * `makeWithdrawalTransfer`, for the row just inserted; `finalized` tells whether the submission resolved. After
     * a rejected one it throws: the failed money row has no block number and cannot be saved.
     */
    method MakeWithdrawalTransfer(bid: nat, finalized: bool) returns (threw: bool)
      requires bid < |bids|
      modifies this`bids, this`transfers
      ensures threw <==> !finalized
      ensures bids == old(bids)[bid := old(bids)[bid].(status := if finalized then Finished else ErrorBid)]
      ensures transfers == if threw then old(transfers)
        else old(transfers) + [MoneyTransfer(Withdraw, Completed, -old(bids)[bid].amount, old(bids)[bid].bidder)]
    {
      var amount := -bids[bid].amount;
      if finalized {
        bids := bids[bid := bids[bid].(status := Finished)];
        transfers := transfers + [MoneyTransfer(Withdraw, Completed, amount, bids[bid].bidder)];
      } else {
        bids := bids[bid := bids[bid].(status := ErrorBid)];
      }
      threw := !finalized;
    }

    /** `tryCreateWithdrawingBid`: the row is created unless a check, under some order of ties, refuses it. */
    method TryCreateWithdrawingBid(a: nat, bidder: Address) returns (r: Result<nat>)
      requires IsActive(View(), a)
      modifies this`bids
      ensures r.Ok? ==>
        && Total(old(bids), Actual(a), bidder) > 0
        && AnotherLeads(old(bids), Pending(a), bidder) && AnotherLeads(old(bids), Actual(a), bidder)
        && r.value == |old(bids)|
        && var actual := Total(old(bids), Actual(a), bidder);
           bids == old(bids) + [Bid(a, bidder, -actual, Total(old(bids), Pending(a), bidder) - actual, Minting)]
      ensures r.Err? ==>
        && bids == old(bids)
        && (|| Total(bids, Actual(a), bidder) <= 0
            || IsLeader(bids, Pending(a), bidder) || IsLeader(bids, Actual(a), bidder))
    {
      var actual := UserSum(bids, Actual(a), bidder);
      var pending := UserSum(bids, Pending(a), bidder);
      if actual <= 0 {
        return Err;
      }
      NoRowsNoTotal(bids, Actual(a), bidder);
      PendingSplits(bids, a, bidder);
      var pendingWinner := FirstAggregatedBid(bids, Pending(a));
      if pendingWinner.Some? && pendingWinner.value.bidderAddress == bidder {
        return Err;
      }
      var actualWinner := FirstAggregatedBid(bids, Actual(a));
      if actualWinner.Some? && actualWinner.value.bidderAddress == bidder {
        return Err;
      }
      r := Ok(|bids|);
      bids := bids + [Bid(a, bidder, -actual, pending - actual, Minting)];
    }

    /**
     * `withdrawBidByBidder`: `target` is the auction on which a withdrawal was opened, `ok` whether the request
     * resolves. A rejected submission makes it throw although the withdrawal has been recorded as failed.
     */
    method WithdrawBidByBidder(collectionId: nat, tokenId: nat, bidder: Address, finalized: bool)
      returns (target: Option<nat>, ok: bool)
      modifies this
      ensures ok <==> target.Some? && finalized
      ensures target.Some? ==>
        && Enabled(old(View()), WithdrawBid(target.value, bidder, finalized))
        && OnToken(old(offers)[target.value], collectionId, tokenId)
        && View() == Next(old(View()), market, WithdrawBid(target.value, bidder, finalized))
      ensures target.None? ==> View() == old(View()) && CanRefuse(View(), (collectionId, tokenId), bidder)
    {
      var found := GetAuction(collectionId, tokenId, {Active});
      if found.None? {
        return None, false;
      }
      var row := TryCreateWithdrawingBid(found.value, bidder);
      if row.Err? {
        return None, false;
      }
      var threw := MakeWithdrawalTransfer(row.value, finalized);
      target, ok := found, !threw;
    }

    /** `withdrawByMarket`. */
    method WithdrawByMarket(a: nat, bidder: Address, amount: int, finalized: bool) returns (threw: bool)
      modifies this`bids, this`transfers
      ensures threw <==> !finalized
      ensures View() == PaidBack(old(View()), a, bidder, amount, 0, finalized)
    {
      bids := bids + [Bid(a, bidder, -amount, 0, Minting)];
      threw := MakeWithdrawalTransfer(|bids| - 1, finalized);
    }

    /** The tokens of the chosen auctions, each once (`select distinct` in `withdrawBidsByBidder`). */
    method SelectTokens(auctionIds: set<nat>) returns (items: seq<(nat, nat)>)
      ensures IsSelection(items, offers, auctionIds)
    {
      items := [];
      for a := 0 to |offers|
        invariant IsSelection(items, offers[..a], auctionIds)
      {
        var t := (offers[a].collectionId, offers[a].tokenId);
        assert forall b :: 0 <= b < a ==> offers[..a + 1][b] == offers[..a][b];
        assert offers[..a + 1][a] == offers[a];
        if a in auctionIds && t !in items {
          items := items + [t];
        }
      }
      assert offers[..|offers|] == offers;
    }

    /**
     * `withdrawBidsByBidder`: one withdrawal per selected token, in order, until one throws, which ends the request.
     * What was withdrawn before that stays withdrawn. `finalized(i)` is the outcome of the `i`th submission.
     */
    method WithdrawBidsByBidder(bidder: Address, auctionIds: set<nat>, finalized: nat -> bool)
      returns (complete: bool, ghost items: seq<(nat, nat)>, ghost states: seq<Db>, ghost acts: seq<Action>)
      modifies this
      ensures IsSelection(items, old(offers), auctionIds) && offers == old(offers)
      ensures Run(states, market, acts) && states[0] == old(View()) && states[|acts|] == View()
      ensures |acts| <= |items|
      ensures forall i :: 0 <= i < |acts| ==> WithdrawsOn(acts[i], offers, items[i], bidder, finalized(i))
      ensures complete <==> |acts| == |items| && forall i :: 0 <= i < |acts| ==> finalized(i)
      ensures forall i :: 0 <= i < |acts| - 1 ==> finalized(i)
      ensures !complete ==>
        || (acts != [] && !finalized(|acts| - 1))
        || (|acts| < |items| && CanRefuse(View(), items[|acts|], bidder))
    {
      var selected := SelectTokens(auctionIds);
      items, states, acts := selected, [View()], [];
      for i := 0 to |selected|
        invariant Run(states, market, acts) && states[0] == old(View()) && states[|acts|] == View()
        invariant offers == old(offers) && |acts| == i
        invariant forall k :: 0 <= k < i ==> finalized(k) && WithdrawsOn(acts[k], offers, selected[k], bidder, finalized(k))
      {
        var target, ok := WithdrawBidByBidder(selected[i].0, selected[i].1, bidder, finalized(i));
        if target.Some? {
          ghost var act := WithdrawBid(target.value, bidder, finalized(i));
          ExtendRun(states, market, acts, act, View());
          states, acts := states + [View()], acts + [act];
        }
        if !ok {
          return false, items, states, acts;
        }
      }
      complete := true;
    }

    // ---------- stopping and cancelling ----------

    /** `updateAuctionsAsStopped`: collects the due auctions, then updates them. */
    method UpdateAuctionsAsStopped(now: int) returns (auctionIds: seq<nat>)
      modifies this`offers
      ensures View() == Next(old(View()), market, StopDue(now))
      ensures forall a: nat :: a in auctionIds <==> a < |old(offers)| && IsDue(old(offers)[a], now)
    {
      auctionIds := [];
      for a := 0 to |offers|
        invariant forall i :: 0 <= i < |auctionIds| ==> auctionIds[i] < a
        invariant forall i, j :: 0 <= i < j < |auctionIds| ==> auctionIds[i] != auctionIds[j]
        invariant forall b: nat :: b in auctionIds <==> b < a && IsDue(offers[b], now)
      {
        if IsDue(offers[a], now) {
          auctionIds := auctionIds + [a];
        }
      }
      for i := 0 to |auctionIds|
        invariant |offers| == |old(offers)|
        invariant forall b: nat :: b < |offers| ==>
          offers[b] == if b in auctionIds[..i] then old(offers)[b].(statusAuction := Stopped, stopAt := now)
                       else old(offers)[b]
      {
        var a := auctionIds[i];
        assert a in auctionIds;
        offers := offers[a := offers[a].(statusAuction := Stopped, stopAt := now)];
        assert auctionIds[..i + 1] == auctionIds[..i] + [a];
      }
      assert auctionIds[..|auctionIds|] == auctionIds;
      assert offers == StoppedOffers(old(offers), now);
    }

    /** `forceCloseAuction`. */
    method ForceCloseAuction(collectionId: nat, tokenId: nat, now: int) returns (r: Result<nat>)
      modifies this`offers
      ensures r.Ok? ==>
        && Enabled(old(View()), ForceStop(r.value, now)) && OnToken(old(offers)[r.value], collectionId, tokenId)
        && View() == Next(old(View()), market, ForceStop(r.value, now))
      ensures r.Err? ==> View() == old(View())
      ensures r.Err? ==> forall i :: 0 <= i < |offers| && OnToken(offers[i], collectionId, tokenId) ==>
        offers[i].statusAuction != Created && offers[i].statusAuction != Active
    {
      var found := GetAuction(collectionId, tokenId, {Created, Active});
      if found.None? {
        return Err;
      }
      var a := found.value;
      offers := offers[a := offers[a].(stopAt := now, statusAuction := Stopped)];
      r := Ok(a);
    }

    /** `massAuctionCancel`: every active auction of another seller becomes due now. */
    method MassAuctionCancel(signer: Address, now: int) returns (affected: nat)
      modifies this`offers
      ensures View() == Next(old(View()), market, MakeAllDue(signer, now))
      ensures affected == |set a: nat | a < |old(offers)| && ActiveOfOthers(old(offers)[a], signer)|
    {
      affected := 0;
      ghost var cancelled: set<nat> := {};
      for a := 0 to |offers|
        invariant |offers| == |old(offers)| && affected == |cancelled|
        invariant cancelled == set b: nat | b < a && ActiveOfOthers(old(offers)[b], signer)
        invariant forall b :: 0 <= b < |offers| ==>
          offers[b] == if b < a && ActiveOfOthers(old(offers)[b], signer) then old(offers)[b].(stopAt := now)
                       else old(offers)[b]
      {
        if ActiveOfOthers(offers[a], signer) {
          offers := offers[a := offers[a].(stopAt := now)];
          affected, cancelled := affected + 1, cancelled + {a};
        }
      }
      assert offers == DueNowOffers(old(offers), signer, now);
    }

    /** `sendTokenBackToOwner`, given the entity the caller read; whatever goes wrong is only logged. */
    method SendTokenBackToOwner(a: nat, entity: Offer, returned: Option<Included>)
      requires a < |offers|
      modifies this`offers, this`releases
      ensures releases == old(releases) + [Release(a, entity.addressFrom, TookEffect(returned))]
      ensures offers == if ReturnBlock(returned).None? then old(offers)
        else old(offers)[a := entity.(blockNumberCancel := ReturnBlock(returned), statusAuction := Ended)]
    {
      releases := releases + [Release(a, entity.addressFrom, TookEffect(returned))];
      if returned.None? {
        return;
      }
      var block, isSucceed := returned.value.block, returned.value.succeeded;
      if !isSucceed {
        return;
      }
      if block == 0 {
        return;
      }
      offers := offers[a := entity.(blockNumberCancel := Some(block), statusAuction := Ended)];
    }

    /** `tryCancelAuction`: `cancelInDatabase`, then the token goes back. */
    method TryCancelAuction(collectionId: nat, tokenId: nat, owner: Address, now: int, returned: Option<Included>)
      returns (r: Result<nat>)
      modifies this
      ensures r.Ok? ==>
        && Enabled(old(View()), Action.CancelAuction(r.value, owner, now, returned))
        && OnToken(old(offers)[r.value], collectionId, tokenId)
        && View() == Next(old(View()), market, Action.CancelAuction(r.value, owner, now, returned))
      ensures r.Err? ==> View() == old(View())
      ensures r.Err? ==>
        || (forall i :: 0 <= i < |offers| && OnToken(offers[i], collectionId, tokenId) ==>
            offers[i].statusAuction != Active)
        || exists a: nat :: IsActive(View(), a) && OnToken(offers[a], collectionId, tokenId)
             && (offers[a].addressFrom != owner || HasRowNotFailed(bids, a))
    {
      var found := GetAuction(collectionId, tokenId, {Active});
      if found.None? {
        return Err;
      }
      var a := found.value;
      var entity := offers[a];
      if entity.addressFrom != owner {
        return Err;
      }
      var bidsCount := CountNotFailed(a);
      if bidsCount != 0 {
        return Err;
      }
      offers := offers[a := entity.(status := Cancelled, stopAt := now, statusAuction := Ended)];
      SendTokenBackToOwner(a, entity.(status := Cancelled), returned);
      r := Ok(a);
    }

    method CountNotFailed(a: nat) returns (count: nat)
      ensures count != 0 <==> HasRowNotFailed(bids, a)
    {
      count := 0;
      for i := 0 to |bids|
        invariant count != 0 <==> HasRowNotFailed(bids[..i], a)
      {
        if bids[i].auctionId == a && bids[i].status != ErrorBid {
          assert bids[..i + 1][i] == bids[i];
          count := count + 1;
        }
        assert bids[..i + 1] == bids[..i] + [bids[i]];
      }
      assert bids[..|bids|] == bids;
    }

    // ---------- closing ----------

    /** `findAuctionsReadyForWithdraw`. */
    method FindAuctionsReadyForWithdraw() returns (auctions: seq<nat>)
      ensures forall i, j :: 0 <= i < j < |auctions| ==> auctions[i] != auctions[j]
      ensures forall a: nat :: a in auctions <==> ReadyForWithdraw(View(), a)
    {
      auctions := [];
      for a := 0 to |offers|
        invariant forall i :: 0 <= i < |auctions| ==> auctions[i] < a
        invariant forall i, j :: 0 <= i < j < |auctions| ==> auctions[i] != auctions[j]
        invariant forall b: nat :: b in auctions <==> b < a && ReadyForWithdraw(View(), b)
      {
        var minting := false;
        for i := 0 to |bids|
          invariant minting <==> exists k :: 0 <= k < i && bids[k].auctionId == a && bids[k].status == Minting
        {
          minting := minting || (bids[i].auctionId == a && bids[i].status == Minting);
        }
        if offers[a].statusAuction == Stopped && !minting {
          auctions := auctions + [a];
        }
      }
    }

    /** `sendTokenToWinner`: submitted once; the block is stored without asking whether the transfer succeeded. */
    method SendTokenToWinner(a: nat, winner: Address, submission: Option<Included>)
      requires a < |offers|
      modifies this`offers, this`releases
      ensures View() == TokenSent(old(View()), a, winner, submission)
    {
      releases := releases + [Release(a, winner, TookEffect(submission))];
      if submission.Some? {
        offers := offers[a := offers[a].(blockNumberBuy := Some(submission.value.block))];
      }
    }

    /** The winner's part of `processAuctionWithdraws`; it throws when a paid sale has no purchase block. */
    method ServeWinner(a: nat, winner: AggregatedBid, offer: Offer, submission: Option<Included>, paid: bool)
      returns (threw: bool)
      requires a < |offers| && offer.price == offers[a].price
      modifies this`offers, this`releases, this`trades, this`transfers
      ensures var sent := TokenSent(old(View()), a, winner.bidderAddress, submission);
        && View() == (if paid then OwnerPaid(sent, market, a, winner) else sent)
        && (threw <==> paid && sent.offers[a].blockNumberBuy.None?)
    {
      var ownerPrice := PriceWithoutCommission(winner.totalAmount, market.commission);
      SendTokenToWinner(a, winner.bidderAddress, submission);
      threw := false;
      if paid {
        offers := offers[a := offers[a].(status := Bought, addressTo := winner.bidderAddress, statusAuction := Ended)];
        var sold := offers[a];
        if sold.blockNumberBuy.None? {
          return true;
        }
        trades := trades + [Trade(a, ownerPrice, sold.price, offer.price - ownerPrice, sold.addressFrom,
            winner.bidderAddress)];
        transfers := transfers + [MoneyTransfer(Deposit, Completed, -offer.price, sold.addressFrom),
                                  MoneyTransfer(Withdraw, Completed, ownerPrice, sold.addressFrom)];
      }
    }

    /**
     * `processAuctionWithdraws`. `refused` are the bidders whose refund is not submitted successfully,
     * `submission` what the token transfer's submission resolved to, `paid` whether the owner's payment succeeded.
     */
    method ProcessAuctionWithdraws(a: nat, refused: set<Address>, submission: Option<Included>, paid: bool)
      returns (threw: bool, ghost rows: seq<AggregatedBid>)
      requires ReadyForWithdraw(View(), a)
      modifies this
      ensures IsGrouping(rows, old(bids), Actual(a))
      ensures View() == Settled(old(View()), market, a, rows, refused, submission, paid)
      ensures threw <==> Throws(old(View()), Settle(a, rows, refused, submission, paid))
    {
      offers := offers[a := offers[a].(statusAuction := Withdrawing)];
      var groups := AggregatedBids(bids, Actual(a));
      rows := groups;
      var offer := offers[a];
      if |groups| <= 1 {
        offers := offers[a := offers[a].(status := Cancelled, statusAuction := Ended)];
      }
      assert View() == Closing(old(View()), a, groups);
      threw := false;
      if groups == [] {
        SendTokenBackToOwner(a, offers[a], submission);
        offers := offers[a := offers[a].(status := Cancelled)];
      } else {
        threw := ServeBidders(a, groups, offer, refused, submission, paid);
      }
    }

    /** The refunds and the winner's part of `processAuctionWithdraws`. */
    method ServeBidders(a: nat, rows: seq<AggregatedBid>, offer: Offer, refused: set<Address>,
                        submission: Option<Included>, paid: bool)
      returns (threw: bool)
      requires a < |offers| && rows != [] && offer.price == offers[a].price
      modifies this
      ensures View() == Served(old(View()), market, a, rows, refused, submission, paid)
      ensures threw <==> paid && submission.None? && old(offers)[a].blockNumberBuy.None?
    {
      RefundLosers(a, rows[1..], refused);
      RefundsFrame(old(View()), a, rows[1..], refused, |rows| - 1);
      threw := ServeWinner(a, rows[0], offer, submission, paid);
    }

    /** The refund loop of `processAuctionWithdraws`. */
    method RefundLosers(a: nat, losers: seq<AggregatedBid>, refused: set<Address>)
      modifies this`bids, this`transfers
      ensures View() == Refunded(old(View()), a, losers, refused, |losers|)
    {
      for i := 0 to |losers|
        invariant View() == Refunded(old(View()), a, losers, refused, i)
      {
        if losers[i].totalAmount > 0 {
          // a throw is caught here, and the loop goes on
          var _ := WithdrawByMarket(a, losers[i].bidderAddress, losers[i].totalAmount, losers[i].bidderAddress !in refused);
        }
      }
    }

    /** One turn of the handler's loop: the next auction of the round is settled, and the rest stay ready. */
    method SettleNext(auctions: seq<nat>, outcome: nat -> Outcome, ghost states: seq<Db>, ghost acts: seq<Action>, i: nat)
      returns (threw: bool, ghost states': seq<Db>, ghost acts': seq<Action>)
      requires forall j, k :: 0 <= j < k < |auctions| ==> auctions[j] != auctions[k]
      requires i == |acts| < |auctions| && AllReady(View(), auctions[i..])
      requires Run(states, market, acts) && states[i] == View() && IsRound(states, acts, auctions, outcome)
      requires i > 0 ==> !Throws(states[i - 1], acts[i - 1])
      modifies this
      ensures Run(states', market, acts') && |acts'| == i + 1 && states'[0] == states[0] && states'[i + 1] == View()
      ensures IsRound(states', acts', auctions, outcome) && AllReady(View(), auctions[i + 1..])
      ensures threw <==> Throws(states'[i], acts'[i])
    {
      var a, o := auctions[i], outcome(auctions[i]);
      ghost var before, rest := View(), auctions[i + 1..];
      ghost var rows;
      assert auctions[i..][0] == a && auctions[i..][1..] == rest;
      threw, rows := ProcessAuctionWithdraws(a, o.refused, o.submission, o.paid);
      ghost var act := Settle(a, rows, o.refused, o.submission, o.paid);
      states', acts' := states + [View()], acts + [act];
      ExtendRun(states, market, acts, act, View());
      RoundGrows(states, acts, auctions, outcome, act, View());
      OthersStayReady(before, market, a, rows, o.refused, o.submission, o.paid, rest);
    }

    /**
     * `auctionsWithdrawingIntervalHandler`: finds the ready auctions, each once, and settles them in turn until one
     * throws, which ends the round and leaves those not reached as ready as they were. `outcome` gives the outcomes of
     * the submissions made for each auction.
     */
    method AuctionsWithdrawingIntervalHandler(outcome: nat -> Outcome)
      returns (complete: bool, ghost auctions: seq<nat>, ghost states: seq<Db>, ghost acts: seq<Action>)
      modifies this
      ensures forall i, j :: 0 <= i < j < |auctions| ==> auctions[i] != auctions[j]
      ensures forall a: nat :: a in auctions <==> ReadyForWithdraw(old(View()), a)
      ensures Run(states, market, acts) && states[0] == old(View()) && states[|acts|] == View()
      ensures IsRound(states, acts, auctions, outcome) && AllReady(View(), auctions[|acts|..])
      ensures complete <==> |acts| == |auctions| && (acts == [] || !Throws(states[|acts| - 1], acts[|acts| - 1]))
      ensures !complete ==> acts != [] && Throws(states[|acts| - 1], acts[|acts| - 1])
    {
      var ready := FindAuctionsReadyForWithdraw();
      auctions := ready;
      complete, states, acts := SettleInTurn(ready, outcome);
    }

    /** The loop of `auctionsWithdrawingIntervalHandler`. */
    method SettleInTurn(ready: seq<nat>, outcome: nat -> Outcome)
      returns (complete: bool, ghost states: seq<Db>, ghost acts: seq<Action>)
      requires forall i, j :: 0 <= i < j < |ready| ==> ready[i] != ready[j]
      requires AllReady(View(), ready)
      modifies this
      ensures Run(states, market, acts) && states[0] == old(View()) && states[|acts|] == View()
      ensures IsRound(states, acts, ready, outcome) && AllReady(View(), ready[|acts|..])
      ensures complete <==> |acts| == |ready| && (acts == [] || !Throws(states[|acts| - 1], acts[|acts| - 1]))
      ensures !complete ==> acts != [] && Throws(states[|acts| - 1], acts[|acts| - 1])
    {
      states, acts, complete := [View()], [], true;
      for i := 0 to |ready|
        invariant Run(states, market, acts) && states[0] == old(View()) && states[|acts|] == View()
        invariant |acts| == i && IsRound(states, acts, ready, outcome) && AllReady(View(), ready[i..])
        invariant complete && (i > 0 ==> !Throws(states[i - 1], acts[i - 1]))
      {
        var threw;
        threw, states, acts := SettleNext(ready, outcome, states, acts, i);
        if threw {
          complete := false;
          break;
        }
      }
    }
  }

  /** Settlements of the first auctions in order, with the outcomes given for them, of which only the last may throw. */
  ghost predicate IsRound(states: seq<Db>, acts: seq<Action>, auctions: seq<nat>, outcome: nat -> Outcome) {
    && |states| == |acts| + 1 && |acts| <= |auctions|
    && (forall i :: 0 <= i < |acts| ==> Settles(acts[i], auctions[i], outcome(auctions[i])))
    && (forall i :: 0 <= i < |acts| - 1 ==> !Throws(states[i], acts[i]))
  }

  lemma RoundGrows(states: seq<Db>, acts: seq<Action>, auctions: seq<nat>, outcome: nat -> Outcome, act: Action, s': Db)
    requires IsRound(states, acts, auctions, outcome) && |acts| < |auctions|
    requires acts != [] ==> !Throws(states[|acts| - 1], acts[|acts| - 1])
    requires Settles(act, auctions[|acts|], outcome(auctions[|acts|]))
    ensures IsRound(states + [s'], acts + [act], auctions, outcome)
  {}

  /** The action settles this auction with the outcomes given for it. */
  predicate Settles(act: Action, a: nat, o: Outcome) {
    act.Settle? && act == Settle(a, act.rows, o.refused, o.submission, o.paid)
  }

  /** The settlement ends in an exception: a paid sale without a purchase block. */
  predicate Throws(s: Db, act: Action) {
    && act.Settle? && act.rows != [] && act.paid
    && act.submission.None? && act.a < |s.offers| && s.offers[act.a].blockNumberBuy.None?
  }

  ghost predicate HasRowNotFailed(bids: seq<Bid>, a: nat) {
    exists i :: 0 <= i < |bids| && bids[i].auctionId == a && bids[i].status != ErrorBid
  }

  ghost predicate AllReady(s: Db, auctions: seq<nat>) {
    forall k :: 0 <= k < |auctions| ==> ReadyForWithdraw(s, auctions[k])
  }

  /** Settling one auction leaves the others ready. */
  lemma OthersStayReady(s: Db, m: Market, a: nat, rows: seq<AggregatedBid>, refused: set<Address>,
                        submission: Option<Included>, paid: bool, others: seq<nat>)
    requires a < |s.offers| && AllReady(s, others) && a !in others
    ensures AllReady(Settled(s, m, a, rows, refused, submission, paid), others)
  {
    SettlementFrame(s, m, a, rows, refused, submission, paid);
    SettlementRows(s, m, a, rows, refused, submission, paid);
    forall k | 0 <= k < |others| ensures ReadyForWithdraw(Settled(s, m, a, rows, refused, submission, paid), others[k]) {
      assert ReadyForWithdraw(s, others[k]) && others[k] != a;
    }
  }
}
