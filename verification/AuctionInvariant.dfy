/** What every action of the auction machine keeps. */
module AuctionInvariant {
  import opened Common
  import opened BidTable
  import opened AuctionMachine

  // ---------- the two ledgers, account by account ----------

  function FinishedShare(b: Bid, x: Address): int {
    if b.status == Finished && b.bidder == x then b.amount else 0
  }

  /** All money the bid table holds for `x`, over every auction. */
  function FinishedBy(bids: seq<Bid>, x: Address): int {
    if bids == [] then 0 else FinishedBy(bids[..|bids| - 1], x) + FinishedShare(bids[|bids| - 1], x)
  }

  function NetShare(t: MoneyTransfer, x: Address): int {
    if t.status != Completed || t.address != x then 0
    else match t.kind case Deposit => t.amount case Withdraw => -t.amount
  }

  /** Completed deposits of `x` minus its completed withdrawals. */
  function Net(transfers: seq<MoneyTransfer>, x: Address): int {
    if transfers == [] then 0 else Net(transfers[..|transfers| - 1], x) + NetShare(transfers[|transfers| - 1], x)
  }

  function SaleShare(t: Trade, x: Address): int {
    if t.seller == x then t.originPrice + t.price else 0
  }

  /** What the two settlement rows of each sale by `x` take out of the transfer ledger. */
  function SoldBy(trades: seq<Trade>, x: Address): int {
    if trades == [] then 0 else SoldBy(trades[..|trades| - 1], x) + SaleShare(trades[|trades| - 1], x)
  }

  function Issued(releases: seq<Release>, a: nat): nat {
    if releases == [] then 0
    else Issued(releases[..|releases| - 1], a) + if releases[|releases| - 1].auctionId == a then 1 else 0
  }

  lemma AppendLedgers(bids: seq<Bid>, b: Bid, transfers: seq<MoneyTransfer>, t: MoneyTransfer)
    ensures forall x :: FinishedBy(bids + [b], x) == FinishedBy(bids, x) + FinishedShare(b, x)
    ensures forall x :: Net(transfers + [t], x) == Net(transfers, x) + NetShare(t, x)
  {
    assert (bids + [b])[..|bids|] == bids;
    assert (transfers + [t])[..|transfers|] == transfers;
  }

  lemma {:induction false} UpdateFinishedBy(bids: seq<Bid>, i: nat, b: Bid, x: Address)
    requires i < |bids|
    ensures FinishedBy(bids[i := b], x) == FinishedBy(bids, x) - FinishedShare(bids[i], x) + FinishedShare(b, x)
  {
    var n := |bids| - 1;
    if i == n {
      assert bids[i := b][..n] == bids[..n];
    } else {
      assert bids[i := b][..n] == bids[..n][i := b];
      UpdateFinishedBy(bids[..n], i, b, x);
    }
  }

  lemma AppendSale(trades: seq<Trade>, t: Trade, transfers: seq<MoneyTransfer>, d: MoneyTransfer, w: MoneyTransfer)
    ensures forall x :: SoldBy(trades + [t], x) == SoldBy(trades, x) + SaleShare(t, x)
    ensures forall x :: Net(transfers + [d, w], x) == Net(transfers, x) + NetShare(d, x) + NetShare(w, x)
  {
    assert (trades + [t])[..|trades|] == trades;
    assert (transfers + [d, w])[..|transfers| + 1] == transfers + [d];
    assert (transfers + [d])[..|transfers|] == transfers;
  }

  function TradesOf(trades: seq<Trade>, a: nat): nat {
    if trades == [] then 0
    else TradesOf(trades[..|trades| - 1], a) + if trades[|trades| - 1].auctionId == a then 1 else 0
  }

  lemma AppendTrade(trades: seq<Trade>, t: Trade)
    ensures forall a :: TradesOf(trades + [t], a) == TradesOf(trades, a) + if t.auctionId == a then 1 else 0
  {
    assert (trades + [t])[..|trades|] == trades;
  }

  lemma AppendRelease(releases: seq<Release>, r: Release)
    ensures forall a :: Issued(releases + [r], a) == Issued(releases, a) + if r.auctionId == a then 1 else 0
  {
    assert (releases + [r])[..|releases|] == releases;
  }

  // ---------- the invariant ----------

  ghost predicate WellFormed(s: Db) {
    && (forall i :: 0 <= i < |s.bids| ==> s.bids[i].auctionId < |s.offers|)
    && (forall a :: 0 <= a < |s.offers| ==> s.offers[a].startPrice >= 1 && s.offers[a].priceStep >= 1)
  }

  /** No bidder has ever been paid back more than arrived. */
  ghost predicate Solvent(s: Db) {
    forall a: nat, w: Address :: Total(s.bids, Actual(a), w) >= 0
  }

  /** Only placed bids are unresolved, and only while their auction is open. */
  ghost predicate UnresolvedAreBids(s: Db)
    requires WellFormed(s)
  {
    forall i :: 0 <= i < |s.bids| && s.bids[i].status == Minting ==>
      s.bids[i].amount >= 0 && Open(s.offers[s.bids[i].auctionId])
  }

  /** The cached price is the highest pending total, or the start price when no live row exists. */
  ghost predicate PriceIsCached(s: Db) {
    forall a :: 0 <= a < |s.offers| && Open(s.offers[a]) ==>
      s.offers[a].price == LeadingTotal(s.bids, Pending(a), s.offers[a].startPrice)
  }

  ghost predicate LedgersAgree(s: Db) {
    forall x :: Net(s.transfers, x) == FinishedBy(s.bids, x) - SoldBy(s.trades, x)
  }

  /** The token of every closed auction has been sent out exactly once, and of no other. */
  ghost predicate ReleasedOnce(s: Db) {
    forall a: nat :: Issued(s.releases, a) == (if a < |s.offers| && !Open(s.offers[a]) then 1 else 0)
  }

  /** Sold, and the purchase block of the token is known. */
  predicate SaleRecorded(o: Offer) {
    o.status == Bought && o.blockNumberBuy.Some?
  }

  /** An auction has its one trade row exactly when it is bought and its purchase block is known. */
  ghost predicate SalesRecorded(s: Db) {
    && (forall a: nat :: TradesOf(s.trades, a) == if a < |s.offers| && SaleRecorded(s.offers[a]) then 1 else 0)
    && (forall a :: 0 <= a < |s.offers| && Open(s.offers[a]) ==>
          s.offers[a].status != Bought && s.offers[a].blockNumberBuy.None?)
  }

  /** Everything about money and prices; it also holds in the middle of a settlement. */
  ghost predicate Books(s: Db) {
    && WellFormed(s)
    && Solvent(s)
    && UnresolvedAreBids(s)
    && PriceIsCached(s)
    && LedgersAgree(s)
    && SalesRecorded(s)
  }

  ghost predicate Inv(s: Db) {
    Books(s) && ReleasedOnce(s)
  }

  lemma EmptyInv()
    ensures Inv(EMPTY)
  {}

  // ---------- pending = actual + minting ----------

  function Unresolved(a: nat): BidsFilter {
    BidsFilter(a, Some({Minting}), None)
  }

  lemma {:induction false} PendingSplits(bids: seq<Bid>, a: nat, w: Address)
    ensures Total(bids, Pending(a), w) == Total(bids, Actual(a), w) + Total(bids, Unresolved(a), w)
    ensures Rows(bids, Pending(a), w) == Rows(bids, Actual(a), w) + Rows(bids, Unresolved(a), w)
  {
    if bids != [] {
      PendingSplits(bids[..|bids| - 1], a, w);
    }
  }

  lemma {:induction false} UnresolvedTotals(bids: seq<Bid>, a: nat, w: Address)
    ensures (forall i :: 0 <= i < |bids| && bids[i].status == Minting ==> bids[i].amount >= 0)
      ==> Total(bids, Unresolved(a), w) >= 0
    ensures NoMinting(bids, a) ==> Total(bids, Unresolved(a), w) == 0 && Rows(bids, Unresolved(a), w) == 0
  {
    if bids != [] {
      var n := |bids| - 1;
      assert forall i :: 0 <= i < n ==> bids[..n][i] == bids[i];
      UnresolvedTotals(bids[..n], a, w);
    }
  }

  /** With nothing unresolved the two views of an auction coincide. */
  lemma NoMintingSameTotals(bids: seq<Bid>, a: nat)
    requires NoMinting(bids, a)
    ensures forall w :: Total(bids, Pending(a), w) == Total(bids, Actual(a), w)
    ensures forall w :: Rows(bids, Pending(a), w) == Rows(bids, Actual(a), w)
  {
    forall w
      ensures Total(bids, Pending(a), w) == Total(bids, Actual(a), w)
      ensures Rows(bids, Pending(a), w) == Rows(bids, Actual(a), w)
    {
      PendingSplits(bids, a, w);
      UnresolvedTotals(bids, a, w);
    }
  }

  // ---------- bids ----------

  /** A row appended for auction `a` leaves the leaders of every other auction alone. */
  lemma AppendElsewhere(bids: seq<Bid>, b: Bid, f: BidsFilter, default: int)
    requires f.auctionId != b.auctionId
    ensures LeadingTotal(bids + [b], f, default) == LeadingTotal(bids, f, default)
  {
    AppendTotals(bids, b);
    LeadingTotalSame(bids, bids + [b], f, default);
  }

  lemma UpdateElsewhere(bids: seq<Bid>, i: nat, b: Bid, f: BidsFilter, default: int)
    requires i < |bids| && f.auctionId != b.auctionId && f.auctionId != bids[i].auctionId
    ensures LeadingTotal(bids[i := b], f, default) == LeadingTotal(bids, f, default)
  {
    UpdateTotals(bids, i, b);
    LeadingTotalSame(bids, bids[i := b], f, default);
  }

  ghost predicate CachedAt(s: Db, a: nat)
    requires a < |s.offers|
  {
    s.offers[a].price == LeadingTotal(s.bids, Pending(a), s.offers[a].startPrice)
  }

  /** No pending total exceeds the cached price. */
  lemma PriceBoundsTotals(s: Db, a: nat)
    requires a < |s.offers| && CachedAt(s, a)
    ensures forall v :: Rows(s.bids, Pending(a), v) > 0 ==> Total(s.bids, Pending(a), v) <= s.offers[a].price
  {
    LeadingTotalIs(s.bids, Pending(a), s.offers[a].startPrice);
    if HasRow(s.bids, Pending(a)) {
      var w :| IsLeader(s.bids, Pending(a), w);
    }
  }

  /** An accepted bid reaches at least the cached price, so its bidder leads afterwards. */
  lemma PlacedLeads(s: Db, a: nat, bidder: Address, amount: int)
    requires a < |s.offers| && CachedAt(s, a) && s.offers[a].priceStep >= 1 && AcceptsBid(s, a, bidder, amount)
    ensures var s' := Placed(s, a, bidder, amount);
      && IsLeader(s'.bids, Pending(a), bidder)
      && Total(s'.bids, Pending(a), bidder) == s'.offers[a].price >= s.offers[a].price
  {
    var b := Bid(a, bidder, amount, Total(s.bids, Pending(a), bidder) + amount, Minting);
    AppendTotals(s.bids, b);
    PriceBoundsTotals(s, a);
  }

  lemma PlaceKeeps(s: Db, a: nat, bidder: Address, amount: int)
    requires Books(s) && Enabled(s, PlaceBid(a, bidder, amount))
    ensures Books(Placed(s, a, bidder, amount))
  {
    var s' := Placed(s, a, bidder, amount);
    var b := s'.bids[|s.bids|];
    AppendTotals(s.bids, b);
    AppendLedgers(s.bids, b, [], MoneyTransfer(Deposit, Completed, 0, 0));
    PlacedLeads(s, a, bidder, amount);
    forall c | 0 <= c < |s'.offers| && Open(s'.offers[c])
      ensures s'.offers[c].price == LeadingTotal(s'.bids, Pending(c), s'.offers[c].startPrice)
    {
      if c == a {
        LeadingTotalIs(s'.bids, Pending(a), s'.offers[a].startPrice);
      } else {
        AppendElsewhere(s.bids, b, Pending(c), s.offers[c].startPrice);
      }
    }
  }

  lemma FinishKeeps(s: Db, bid: nat)
    requires Books(s) && Enabled(s, FinishBid(bid))
    ensures Books(FinishedBid(s, bid))
  {
    var s' := FinishedBid(s, bid);
    var b := s'.bids[bid];
    UpdateTotals(s.bids, bid, b);
    AppendLedgers([], b, s.transfers, MoneyTransfer(Deposit, Completed, b.amount, b.bidder));
    forall x ensures Net(s'.transfers, x) == FinishedBy(s'.bids, x) - SoldBy(s'.trades, x) {
      UpdateFinishedBy(s.bids, bid, b, x);
    }
    forall c | 0 <= c < |s'.offers|
      ensures LeadingTotal(s'.bids, Pending(c), s.offers[c].startPrice)
           == LeadingTotal(s.bids, Pending(c), s.offers[c].startPrice)
    {
      LeadingTotalSame(s.bids, s'.bids, Pending(c), s.offers[c].startPrice);
    }
    forall a: nat, w: Address ensures Total(s'.bids, Actual(a), w) >= 0 {
      assert Total(s.bids, Actual(a), w) >= 0;
    }
  }

  lemma FailKeeps(s: Db, bid: nat)
    requires Books(s) && Enabled(s, FailBid(bid))
    ensures Books(FailedBid(s, bid))
  {
    var s' := FailedBid(s, bid);
    var b := s'.bids[bid];
    UpdateTotals(s.bids, bid, b);
    forall x ensures Net(s'.transfers, x) == FinishedBy(s'.bids, x) - SoldBy(s'.trades, x) {
      UpdateFinishedBy(s.bids, bid, b, x);
    }
    forall c | 0 <= c < |s'.offers| && Open(s'.offers[c])
      ensures s'.offers[c].price == LeadingTotal(s'.bids, Pending(c), s'.offers[c].startPrice)
    {
      if c != b.auctionId {
        UpdateElsewhere(s.bids, bid, b, Pending(c), s.offers[c].startPrice);
      }
    }
    forall a: nat, w: Address ensures Total(s'.bids, Actual(a), w) >= 0 {
      assert Total(s.bids, Actual(a), w) >= 0;
    }
  }

  // ---------- money back ----------

  /** Paying a bidder back at most what arrived keeps everything except, possibly, the price of an open auction. */
  lemma PaidBackKeeps(s: Db, a: nat, bidder: Address, amount: int, balance: int, paid: bool)
    requires Books(s) && a < |s.offers| && 0 < amount <= Total(s.bids, Actual(a), bidder)
    requires Open(s.offers[a]) ==> CachedAt(PaidBack(s, a, bidder, amount, balance, paid), a)
    ensures Books(PaidBack(s, a, bidder, amount, balance, paid))
  {
    var s' := PaidBack(s, a, bidder, amount, balance, paid);
    var b := s'.bids[|s.bids|];
    AppendTotals(s.bids, b);
    AppendLedgers(s.bids, b, s.transfers, MoneyTransfer(Withdraw, Completed, amount, bidder));
    forall c | 0 <= c < |s'.offers| && Open(s'.offers[c])
      ensures s'.offers[c].price == LeadingTotal(s'.bids, Pending(c), s'.offers[c].startPrice)
    {
      if c != a {
        AppendElsewhere(s.bids, b, Pending(c), s.offers[c].startPrice);
      }
    }
  }

  /** A leader that does not withdraw still leads with the same total. */
  lemma WithdrawalKeepsLeader(s: Db, a: nat, bidder: Address, paid: bool, f: BidsFilter, default: int)
    requires f == Pending(a) || f == Actual(a)
    requires Total(s.bids, Actual(a), bidder) > 0 && AnotherLeads(s.bids, f, bidder)
    ensures LeadingTotal(Withdrawn(s, a, bidder, paid).bids, f, default) == LeadingTotal(s.bids, f, default)
  {
    var s' := Withdrawn(s, a, bidder, paid);
    AppendTotals(s.bids, s'.bids[|s.bids|]);
    NoRowsNoTotal(s.bids, Actual(a), bidder);
    PendingSplits(s.bids, a, bidder);
    var w :| w != bidder && IsLeader(s.bids, f, w);
    assert IsLeader(s'.bids, f, w);
    LeadingTotalIs(s.bids, f, default);
    LeadingTotalIs(s'.bids, f, default);
  }

  lemma WithdrawKeeps(s: Db, a: nat, bidder: Address, paid: bool)
    requires Books(s) && IsActive(s, a) && Total(s.bids, Actual(a), bidder) > 0
    requires AnotherLeads(s.bids, Pending(a), bidder)
    ensures Books(Withdrawn(s, a, bidder, paid))
  {
    var actual := Total(s.bids, Actual(a), bidder);
    var balance := Total(s.bids, Pending(a), bidder) - actual;
    assert CachedAt(s, a);
    assert CachedAt(Withdrawn(s, a, bidder, paid), a) by {
      WithdrawalKeepsLeader(s, a, bidder, paid, Pending(a), s.offers[a].startPrice);
    }
    PaidBackKeeps(s, a, bidder, actual, balance, paid);
  }

  /** The losers of a grouping: distinct bidders, each with their own finished total. */
  ghost predicate OwnTotals(losers: seq<AggregatedBid>, bids: seq<Bid>, a: nat) {
    && (forall i, j :: 0 <= i < j < |losers| ==> losers[i].bidderAddress != losers[j].bidderAddress)
    && (forall i :: 0 <= i < |losers| ==> losers[i].totalAmount == Total(bids, Actual(a), losers[i].bidderAddress))
  }

  predicate IsRefunded(losers: seq<AggregatedBid>, refused: set<Address>, n: nat, w: Address)
    requires n <= |losers|
  {
    w !in refused && exists i :: 0 <= i < n && losers[i].bidderAddress == w && losers[i].totalAmount > 0
  }

  /** Refunding brings exactly the refunded losers to zero. */
  lemma {:induction false} RefundTotals(s: Db, a: nat, losers: seq<AggregatedBid>, refused: set<Address>, n: nat)
    requires n <= |losers| && OwnTotals(losers, s.bids, a)
    ensures forall w :: Total(Refunded(s, a, losers, refused, n).bids, Actual(a), w)
                     == if IsRefunded(losers, refused, n, w) then 0 else Total(s.bids, Actual(a), w)
  {
    if n > 0 {
      RefundTotals(s, a, losers, refused, n - 1);
      var before := Refunded(s, a, losers, refused, n - 1);
      var l := losers[n - 1];
      assert !IsRefunded(losers, refused, n - 1, l.bidderAddress);
      AppendTotals(before.bids, PaidBack(before, a, l.bidderAddress, l.totalAmount, 0,
          l.bidderAddress !in refused).bids[|before.bids|]);
      forall w ensures IsRefunded(losers, refused, n, w)
        <==> (IsRefunded(losers, refused, n - 1, w) || (w !in refused && w == l.bidderAddress && l.totalAmount > 0)) {}
    }
  }

  lemma NextLoserUntouched(s: Db, a: nat, losers: seq<AggregatedBid>, refused: set<Address>, n: nat)
    requires n < |losers| && OwnTotals(losers, s.bids, a)
    ensures Total(Refunded(s, a, losers, refused, n).bids, Actual(a), losers[n].bidderAddress) == losers[n].totalAmount
  {
    RefundTotals(s, a, losers, refused, n);
    assert !IsRefunded(losers, refused, n, losers[n].bidderAddress);
  }

  lemma NextRefundKeeps(s: Db, a: nat, losers: seq<AggregatedBid>, refused: set<Address>, n: nat)
    requires a < |s.offers| && !Open(s.offers[a]) && n < |losers| && OwnTotals(losers, s.bids, a)
    requires Books(Refunded(s, a, losers, refused, n))
    ensures Books(Refunded(s, a, losers, refused, n + 1))
  {
    var before, l := Refunded(s, a, losers, refused, n), losers[n];
    assert before.offers == s.offers by {
      RefundsFrame(s, a, losers, refused, n);
    }
    if l.totalAmount > 0 {
      assert Total(before.bids, Actual(a), l.bidderAddress) == l.totalAmount by {
        NextLoserUntouched(s, a, losers, refused, n);
      }
      PaidBackKeeps(before, a, l.bidderAddress, l.totalAmount, 0, l.bidderAddress !in refused);
    }
  }

  lemma {:induction false} RefundsKeep(s: Db, a: nat, losers: seq<AggregatedBid>, refused: set<Address>, n: nat)
    requires Books(s) && a < |s.offers| && !Open(s.offers[a])
    requires n <= |losers| && OwnTotals(losers, s.bids, a)
    ensures Books(Refunded(s, a, losers, refused, n))
  {
    if n == 0 {
      assert Refunded(s, a, losers, refused, n) == s;
    } else {
      RefundsKeep(s, a, losers, refused, n - 1);
      NextRefundKeeps(s, a, losers, refused, n - 1);
    }
  }

  // ---------- offers ----------

  /** Prices and sale are untouched and an auction closes only when none of its bids is unresolved. */
  ghost predicate SameTerms(s: Db, o: Offer, o': Offer, a: nat) {
    && o'.price == o.price && o'.startPrice == o.startPrice && o'.priceStep == o.priceStep
    && SaleRecorded(o') == SaleRecorded(o)
    && (Open(o') ==> Open(o) && o'.status != Bought && o'.blockNumberBuy == o.blockNumberBuy)
    && (Open(o) && !Open(o') ==> NoMinting(s.bids, a))
  }

  lemma OffersKeep(s: Db, offers: seq<Offer>)
    requires Books(s) && |offers| == |s.offers|
    requires forall a :: 0 <= a < |offers| ==> SameTerms(s, s.offers[a], offers[a], a)
    ensures Books(s.(offers := offers))
  {
    var s' := s.(offers := offers);
    forall i | 0 <= i < |s.bids| && s.bids[i].status == Minting ensures Open(offers[s.bids[i].auctionId]) {
      assert SameTerms(s, s.offers[s.bids[i].auctionId], offers[s.bids[i].auctionId], s.bids[i].auctionId);
    }
  }

  lemma NoRows(bids: seq<Bid>, f: BidsFilter)
    requires forall i :: 0 <= i < |bids| ==> !Matches(bids[i], f)
    ensures !HasRow(bids, f)
  {
    if HasRow(bids, f) {
      var w :| Rows(bids, f, w) > 0;
      var i := CountedRow(bids, f, w);
    }
  }

  lemma CreateKeeps(s: Db, o: Offer)
    requires Books(s) && o.price == o.startPrice && o.startPrice >= 1 && o.priceStep >= 1
    requires o.status == AskActive && o.blockNumberBuy.None?
    ensures Books(s.(offers := s.offers + [o]))
  {
    var s' := s.(offers := s.offers + [o]);
    var a := |s.offers|;
    NoRows(s.bids, Pending(a));
    LeadingTotalIs(s.bids, Pending(a), o.startPrice);
  }

  /** Releases are in nobody's books. */
  lemma ReleaseKeeps(s: Db, a: nat, o: Offer, releases: seq<Release>)
    requires Books(s) && a < |s.offers| && SameTerms(s, s.offers[a], o, a)
    ensures Books(WithOffer(s, a, o).(releases := releases))
  {
    OffersKeep(s, s.offers[a := o]);
  }

  lemma CancelKeeps(s: Db, a: nat, owner: Address, now: int, returned: Option<Included>)
    requires Books(s) && Enabled(s, CancelAuction(a, owner, now, returned))
    ensures Books(CancelledByOwner(s, a, now, returned))
  {
    var o := s.offers[a].(status := Cancelled, stopAt := now, statusAuction := Ended);
    OffersKeep(s, s.offers[a := o]);
    var ended := WithOffer(s, a, o);
    var back := TokenReturned(ended, a, returned);
    ReleaseKeeps(ended, a, back.offers[a], back.releases);
    if ReturnBlock(returned).Some? {
      OffersKeep(back, back.offers[a := back.offers[a].(stopAt := s.offers[a].stopAt)]);
    }
  }

  /** The rows of a sale move both sides of the seller's ledger by the same amount. */
  lemma SaleRowsAgree(s: Db, a: nat, buyer: Address, ownerPrice: int)
    requires LedgersAgree(s) && a < |s.offers| && s.offers[a].blockNumberBuy.Some?
    ensures LedgersAgree(SaleWritten(s, a, buyer, ownerPrice))
  {
    var o := s.offers[a];
    var t := Trade(a, ownerPrice, o.price, o.price - ownerPrice, o.addressFrom, buyer);
    AppendSale(s.trades, t, s.transfers, MoneyTransfer(Deposit, Completed, -o.price, o.addressFrom),
               MoneyTransfer(Withdraw, Completed, ownerPrice, o.addressFrom));
  }

  lemma SaleRowIsCounted(s: Db, a: nat, buyer: Address, ownerPrice: int)
    requires SalesRecorded(s) && a < |s.offers| && !Open(s.offers[a]) && s.offers[a].status != Bought
    requires s.offers[a].blockNumberBuy.Some?
    ensures SalesRecorded(SaleWritten(s, a, buyer, ownerPrice))
  {
    var s', o := SaleWritten(s, a, buyer, ownerPrice), s.offers[a];
    var t := Trade(a, ownerPrice, o.price, o.price - ownerPrice, o.addressFrom, buyer);
    forall c: nat
      ensures TradesOf(s'.trades, c) == if c < |s'.offers| && SaleRecorded(s'.offers[c]) then 1 else 0
    {
      assert TradesOf(s.trades, c) == if c < |s.offers| && SaleRecorded(s.offers[c]) then 1 else 0;
      AppendTrade(s.trades, t);
    }
  }

  lemma SaleKeeps(s: Db, a: nat, buyer: Address, ownerPrice: int)
    requires Books(s) && a < |s.offers| && !Open(s.offers[a]) && s.offers[a].status != Bought
    ensures Books(SaleWritten(s, a, buyer, ownerPrice))
  {
    var o := s.offers[a].(status := Cancelled, addressTo := buyer, statusAuction := Ended);
    if s.offers[a].blockNumberBuy.None? {
      OffersKeep(s, s.offers[a := o.(status := Bought)]);
    } else {
      OffersKeep(s, s.offers[a := o]);
      SaleRowsAgree(s, a, buyer, ownerPrice);
      SaleRowIsCounted(s, a, buyer, ownerPrice);
    }
  }

  lemma OwnerPaidKeeps(s: Db, m: Market, a: nat, winner: AggregatedBid)
    requires Books(s) && a < |s.offers| && !Open(s.offers[a]) && s.offers[a].status != Bought
    ensures Books(OwnerPaid(s, m, a, winner))
  {
    SaleKeeps(s, a, winner.bidderAddress, PriceWithoutCommission(winner.totalAmount, m.commission));
  }

  /** The first row of a grouping wins; the others are losers with their own totals. */
  lemma LosersOwnTotals(rows: seq<AggregatedBid>, bids: seq<Bid>, a: nat)
    requires IsGrouping(rows, bids, Actual(a)) && rows != []
    ensures OwnTotals(rows[1..], bids, a)
  {}

  /** The state in which the winner is served: losers refunded, no token released yet. */
  function AfterRefunds(s: Db, a: nat, rows: seq<AggregatedBid>, refused: set<Address>): Db
    requires a < |s.offers| && rows != []
  {
    Refunded(Closing(s, a, rows), a, rows[1..], refused, |rows| - 1)
  }

  lemma AfterRefundsKeep(s: Db, a: nat, rows: seq<AggregatedBid>, refused: set<Address>)
    requires Books(s) && a < |s.offers| && s.offers[a].statusAuction == Stopped
    requires NoMinting(s.bids, a) && IsGrouping(rows, s.bids, Actual(a)) && rows != []
    ensures var s' := AfterRefunds(s, a, rows, refused);
      && Books(s') && s'.offers == Closing(s, a, rows).offers && s'.trades == s.trades && s'.releases == s.releases
  {
    var closing := Closing(s, a, rows);
    OffersKeep(s, closing.offers);
    LosersOwnTotals(rows, s.bids, a);
    RefundsKeep(closing, a, rows[1..], refused, |rows| - 1);
    RefundsFrame(closing, a, rows[1..], refused, |rows| - 1);
  }

  lemma SettleKeeps(s: Db, m: Market, a: nat, rows: seq<AggregatedBid>, refused: set<Address>,
                    submission: Option<Included>, paid: bool)
    requires Books(s) && Enabled(s, Settle(a, rows, refused, submission, paid))
    ensures Books(Settled(s, m, a, rows, refused, submission, paid))
  {
    if rows == [] {
      var closing := Closing(s, a, rows);
      OffersKeep(s, closing.offers);
      var back := TokenReturned(closing, a, submission);
      ReleaseKeeps(closing, a, back.offers[a], back.releases);
      OffersKeep(back, back.offers[a := back.offers[a].(status := Cancelled)]);
    } else {
      AfterRefundsKeep(s, a, rows, refused);
      var refunded := AfterRefunds(s, a, rows, refused);
      var sent := TokenSent(refunded, a, rows[0].bidderAddress, submission);
      ReleaseKeeps(refunded, a, sent.offers[a], sent.releases);
      if paid {
        OwnerPaidKeeps(sent, m, a, rows[0]);
      }
    }
  }

  lemma StopsKeep(s: Db, m: Market, act: Action)
    requires Books(s) && Enabled(s, act) && (act.StopDue? || act.ForceStop? || act.MakeAllDue? || act.FlipByAdmin?)
    ensures Books(Next(s, m, act))
  {
    OffersKeep(s, Next(s, m, act).offers);
  }

  /** The token goes out in the very step that closes its auction, once. */
  lemma ClosingReleases(s: Db, s': Db, a: nat, r: Release)
    requires ReleasedOnce(s) && a < |s.offers| == |s'.offers| && Open(s.offers[a]) && !Open(s'.offers[a])
    requires forall c :: 0 <= c < |s.offers| && c != a ==> s'.offers[c] == s.offers[c]
    requires s'.releases == s.releases + [r] && r.auctionId == a
    ensures ReleasedOnce(s')
  {
    AppendRelease(s.releases, r);
  }

  /** Settlement closes its auction alone, and sends its token to the winner, or back when there is none. */
  lemma SettlementSends(s: Db, m: Market, a: nat, rows: seq<AggregatedBid>, refused: set<Address>,
                        submission: Option<Included>, paid: bool)
    requires a < |s.offers|
    ensures var s' := Settled(s, m, a, rows, refused, submission, paid);
      && |s'.offers| == |s.offers| && !Open(s'.offers[a])
      && (forall c :: 0 <= c < |s.offers| && c != a ==> s'.offers[c] == s.offers[c])
      && s'.releases == s.releases
           + [Release(a, if rows == [] then s.offers[a].addressFrom else rows[0].bidderAddress, TookEffect(submission))]
  {
    if rows != [] {
      RefundsFrame(Closing(s, a, rows), a, rows[1..], refused, |rows| - 1);
    }
  }

  lemma SettlementReleases(s: Db, m: Market, a: nat, rows: seq<AggregatedBid>, refused: set<Address>,
                           submission: Option<Included>, paid: bool)
    requires ReleasedOnce(s) && Enabled(s, Settle(a, rows, refused, submission, paid))
    ensures ReleasedOnce(Settled(s, m, a, rows, refused, submission, paid))
  {
    var s' := Settled(s, m, a, rows, refused, submission, paid);
    SettlementSends(s, m, a, rows, refused, submission, paid);
    ClosingReleases(s, s', a, s'.releases[|s.releases|]);
  }

  /** No token goes out while no auction closes. */
  lemma NothingCloses(s: Db, s': Db)
    requires ReleasedOnce(s) && s'.releases == s.releases && |s.offers| <= |s'.offers|
    requires forall c :: 0 <= c < |s'.offers| ==> Open(s'.offers[c]) == (c >= |s.offers| || Open(s.offers[c]))
    ensures ReleasedOnce(s')
  {
    forall c: nat ensures Issued(s'.releases, c) == (if c < |s'.offers| && !Open(s'.offers[c]) then 1 else 0) {
      assert Issued(s.releases, c) == (if c < |s.offers| && !Open(s.offers[c]) then 1 else 0);
    }
  }

  lemma StepReleases(s: Db, m: Market, act: Action)
    requires ReleasedOnce(s) && Enabled(s, act)
    ensures ReleasedOnce(Next(s, m, act))
  {
    match act
    case CancelAuction(a, owner, now, returned) =>
      ClosingReleases(s, CancelledByOwner(s, a, now, returned), a, Release(a, owner, TookEffect(returned)));
    case Settle(a, rows, refused, submission, paid) => SettlementReleases(s, m, a, rows, refused, submission, paid);
    case _ => NothingCloses(s, Next(s, m, act));
  }

  lemma StepKeeps(s: Db, m: Market, act: Action)
    requires Inv(s) && Enabled(s, act)
    ensures Inv(Next(s, m, act))
  {
    StepReleases(s, m, act);
    match act
    case CreateAuction(_, _, _, _, _, _) => CreateKeeps(s, Next(s, m, act).offers[|s.offers|]);
    case PlaceBid(a, bidder, amount) => PlaceKeeps(s, a, bidder, amount);
    case FinishBid(bid) => FinishKeeps(s, bid);
    case FailBid(bid) => FailKeeps(s, bid);
    case WithdrawBid(a, bidder, paid) => WithdrawKeeps(s, a, bidder, paid);
    case CancelAuction(a, owner, now, returned) => CancelKeeps(s, a, owner, now, returned);
    case Settle(a, rows, refused, submission, paid) => SettleKeeps(s, m, a, rows, refused, submission, paid);
    case _ => StopsKeep(s, m, act);
  }

  /** Every reachable database satisfies the invariant. */
  lemma {:induction false} RunKeeps(states: seq<Db>, m: Market, acts: seq<Action>)
    requires Run(states, m, acts) && Inv(states[0])
    ensures forall i :: 0 <= i < |states| ==> Inv(states[i])
  {
    if acts != [] {
      var n := |acts| - 1;
      RunKeeps(states[..n + 1], m, acts[..n]);
      assert Inv(states[..n + 1][n]);
      StepKeeps(states[n], m, acts[n]);
    }
  }
}
