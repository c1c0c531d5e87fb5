/** The promises of the auction services, over every run of the machine from an empty database. */
module AuctionLaws {
  import opened Common
  import opened BidTable
  import opened AuctionMachine
  import opened AuctionInvariant

  /** A run of the market from an empty database. */
  ghost predicate History(states: seq<Db>, m: Market, acts: seq<Action>) {
    Run(states, m, acts) && states[0] == EMPTY
  }

  lemma HistoryKeeps(states: seq<Db>, m: Market, acts: seq<Action>)
    requires History(states, m, acts)
    ensures forall i :: 0 <= i < |states| ==> Inv(states[i])
  {
    EmptyInv();
    RunKeeps(states, m, acts);
  }

  // ---------- what settlement touches ----------

  lemma {:induction false} RefundsGrow(s: Db, a: nat, losers: seq<AggregatedBid>, refused: set<Address>, n: nat)
    requires n <= |losers|
    ensures var bids' := Refunded(s, a, losers, refused, n).bids;
      && |s.bids| <= |bids'|
      && (forall i :: 0 <= i < |s.bids| ==> bids'[i] == s.bids[i])
      && (forall i :: |s.bids| <= i < |bids'| ==>
          bids'[i].auctionId == a && bids'[i].status != Minting && bids'[i].amount < 0)
      && (forall f, w :: Rows(bids', f, w) >= Rows(s.bids, f, w))
      && (forall f: BidsFilter, w :: f.auctionId != a ==>
            Rows(bids', f, w) == Rows(s.bids, f, w) && Total(bids', f, w) == Total(s.bids, f, w))
  {
    if n > 0 {
      RefundsGrow(s, a, losers, refused, n - 1);
      var before := Refunded(s, a, losers, refused, n - 1);
      var l := losers[n - 1];
      AppendTotals(before.bids, PaidBack(before, a, l.bidderAddress, l.totalAmount, 0,
          l.bidderAddress !in refused).bids[|before.bids|]);
    }
  }

  /** Settlement appends refund rows to its own auction and closes it; every other auction is untouched. */
  lemma SettlementFrame(s: Db, m: Market, a: nat, rows: seq<AggregatedBid>, refused: set<Address>,
                        submission: Option<Included>, paid: bool)
    requires a < |s.offers|
    ensures var s', o := Settled(s, m, a, rows, refused, submission, paid), s.offers[a];
      && |s'.offers| == |s.offers|
      && (forall c :: 0 <= c < |s.offers| && c != a ==> s'.offers[c] == s.offers[c])
      && (s'.offers[a].statusAuction == Withdrawing || s'.offers[a].statusAuction == Ended)
      && s'.offers[a].price == o.price && s'.offers[a].startPrice == o.startPrice && s'.offers[a].priceStep == o.priceStep
      && s'.offers[a].addressFrom == o.addressFrom
      && s'.bids == if rows == [] then s.bids else Refunded(Closing(s, a, rows), a, rows[1..], refused, |rows| - 1).bids
  {
    if rows != [] {
      RefundsFrame(Closing(s, a, rows), a, rows[1..], refused, |rows| - 1);
    }
  }

  /** A settlement's new rows are all refunds of the settled auction. */
  lemma SettlementRows(s: Db, m: Market, a: nat, rows: seq<AggregatedBid>, refused: set<Address>,
                       submission: Option<Included>, paid: bool)
    requires a < |s.offers|
    ensures var bids' := Settled(s, m, a, rows, refused, submission, paid).bids;
      && |s.bids| <= |bids'|
      && (forall i :: 0 <= i < |s.bids| ==> bids'[i] == s.bids[i])
      && (forall i :: |s.bids| <= i < |bids'| ==>
          bids'[i].auctionId == a && bids'[i].status != Minting && bids'[i].amount < 0)
      && (forall f, w :: Rows(bids', f, w) >= Rows(s.bids, f, w))
      && (forall f: BidsFilter, w :: f.auctionId != a ==>
            Rows(bids', f, w) == Rows(s.bids, f, w) && Total(bids', f, w) == Total(s.bids, f, w))
  {
    SettlementFrame(s, m, a, rows, refused, submission, paid);
    if rows != [] {
      RefundsGrow(Closing(s, a, rows), a, rows[1..], refused, |rows| - 1);
    }
  }

  // ---------- price ----------

  /**
   * Whatever the interleaving, while an auction is open its cached price is some bidder's finished+minting
   * total that no other bidder exceeds, and the start price when it has no live row.
   */
  lemma CachedPriceIsHighestTotal(states: seq<Db>, m: Market, acts: seq<Action>, i: nat, a: nat)
    requires History(states, m, acts) && i < |states| && a < |states[i].offers| && Open(states[i].offers[a])
    ensures var s, o := states[i], states[i].offers[a];
      && (!HasRow(s.bids, Pending(a)) ==> o.price == o.startPrice)
      && (HasRow(s.bids, Pending(a)) ==>
            exists w :: IsLeader(s.bids, Pending(a), w) && Total(s.bids, Pending(a), w) == o.price)
  {
    HistoryKeeps(states, m, acts);
    LeadingTotalIs(states[i].bids, Pending(a), states[i].offers[a].startPrice);
  }

  /** Only placing and failing bids move an auction's price; withdrawals, stops and settlement never do. */
  lemma PriceMovesOnlyWithBids(s: Db, m: Market, act: Action, a: nat)
    requires Enabled(s, act) && a < |s.offers|
    requires !(act.PlaceBid? && act.a == a) && !(act.FailBid? && s.bids[act.bid].auctionId == a)
    ensures var s' := Next(s, m, act);
      && a < |s'.offers| && s'.offers[a].price == s.offers[a].price
      && s'.offers[a].startPrice == s.offers[a].startPrice && s'.offers[a].priceStep == s.offers[a].priceStep
  {
    if act.Settle? {
      SettlementFrame(s, m, act.a, act.rows, act.refused, act.submission, act.paid);
    }
  }

  /** A bid accepted from behind makes its bidder the only leader and raises the price by a full step. */
  lemma AcceptedBidTakesTheLead(s: Db, a: nat, bidder: Address, amount: int)
    requires Inv(s) && Enabled(s, PlaceBid(a, bidder, amount))
    requires HasRow(s.bids, Pending(a)) && Total(s.bids, Pending(a), bidder) < s.offers[a].price
    ensures var s' := Placed(s, a, bidder, amount);
      && s'.offers[a].price >= s.offers[a].price + s.offers[a].priceStep
      && forall w :: IsLeader(s'.bids, Pending(a), w) <==> w == bidder
  {
    var s' := Placed(s, a, bidder, amount);
    PlacedLeads(s, a, bidder, amount);
    PriceBoundsTotals(s, a);
    AppendTotals(s.bids, s'.bids[|s.bids|]);
    forall w | IsLeader(s'.bids, Pending(a), w) ensures w == bidder {
      assert Rows(s'.bids, Pending(a), bidder) > 0;
    }
  }

  /** The leader's own next bid must be a full step exactly when the price has reached the step. */
  lemma LeaderMustRaiseAStepIff(s: Db, a: nat, bidder: Address)
    requires Inv(s) && a < |s.offers| && HasRow(s.bids, Pending(a))
    requires Total(s.bids, Pending(a), bidder) == s.offers[a].price
    ensures (forall amount :: amount >= 0 && AcceptsBid(s, a, bidder, amount) ==> amount >= s.offers[a].priceStep)
        <==> s.offers[a].price >= s.offers[a].priceStep
  {
    if s.offers[a].price < s.offers[a].priceStep {
      assert AcceptsBid(s, a, bidder, 0);
      assert s.offers[a].priceStep > 0;
    }
  }

  function Placements(acts: seq<Action>, a: nat): nat {
    if acts == [] then 0
    else Placements(acts[..|acts| - 1], a) + if acts[|acts| - 1].PlaceBid? && acts[|acts| - 1].a == a then 1 else 0
  }

  ghost predicate FailsBidOf(s: Db, act: Action, a: nat) {
    act.FailBid? && act.bid < |s.bids| && s.bids[act.bid].auctionId == a
  }

  /** Live rows of an auction stay unless one of its bids fails. */
  lemma LiveRowsStay(s: Db, m: Market, act: Action, a: nat)
    requires Enabled(s, act) && !FailsBidOf(s, act, a)
    ensures HasRow(s.bids, Pending(a)) ==> HasRow(Next(s, m, act).bids, Pending(a))
  {
    if HasRow(s.bids, Pending(a)) {
      var w :| Rows(s.bids, Pending(a), w) > 0;
      LiveRowsOfStay(s, m, act, a, w);
    }
  }

  lemma LiveRowsOfStay(s: Db, m: Market, act: Action, a: nat, w: Address)
    requires Enabled(s, act) && !FailsBidOf(s, act, a)
    ensures Rows(Next(s, m, act).bids, Pending(a), w) >= Rows(s.bids, Pending(a), w)
  {
    match act
    case PlaceBid(c, v, x) => AppendTotals(s.bids, Placed(s, c, v, x).bids[|s.bids|]);
    case WithdrawBid(c, v, paid) => AppendTotals(s.bids, Withdrawn(s, c, v, paid).bids[|s.bids|]);
    case FinishBid(bid) => UpdateTotal(s.bids, bid, s.bids[bid].(status := Finished), Pending(a), w);
    case FailBid(bid) => UpdateTotal(s.bids, bid, s.bids[bid].(status := ErrorBid), Pending(a), w);
    case Settle(c, rows, refused, submission, paid) => SettlementRows(s, m, c, rows, refused, submission, paid);
    case _ =>
  }

  /** The growth law for an auction with these terms after `n` accepted bids. */
  ghost predicate Grown(s: Db, a: nat, start: int, step: int, n: nat) {
    && a < |s.offers| && s.offers[a].startPrice == start && s.offers[a].priceStep == step
    && s.offers[a].price >= start
    && (n == 0 ==> s.offers[a].price == start)
    && (n >= 1 ==> HasRow(s.bids, Pending(a)) && s.offers[a].price >= start + (n - 1) * step)
  }

  lemma GrowsByAStep(s: Db, a: nat, bidder: Address, amount: int, start: int, step: int, n: nat)
    requires Inv(s) && Enabled(s, PlaceBid(a, bidder, amount)) && Grown(s, a, start, step, n) && start >= step
    ensures Grown(Placed(s, a, bidder, amount), a, start, step, n + 1)
  {
    var s' := Placed(s, a, bidder, amount);
    PlacedLeads(s, a, bidder, amount);
    PriceBoundsTotals(s, a);
    NoRowsNoTotal(s.bids, Pending(a), bidder);
    assert Rows(s'.bids, Pending(a), bidder) > 0;
    if n >= 1 {
      assert s'.offers[a].price >= s.offers[a].price + step;
      assert (n - 1) * step + step == n * step;
    }
  }

  lemma GrownStep(s: Db, m: Market, act: Action, a: nat, start: int, step: int, n: nat)
    requires Inv(s) && Enabled(s, act) && Grown(s, a, start, step, n) && start >= step && !FailsBidOf(s, act, a)
    ensures Grown(Next(s, m, act), a, start, step, n + if act.PlaceBid? && act.a == a then 1 else 0)
  {
    if act.PlaceBid? && act.a == a {
      GrowsByAStep(s, a, act.bidder, act.amount, start, step, n);
    } else {
      PriceMovesOnlyWithBids(s, m, act, a);
      LiveRowsStay(s, m, act, a);
    }
  }

  lemma PlacementsGrow(acts: seq<Action>, a: nat, k: nat)
    requires k < |acts|
    ensures Placements(acts[..k + 1], a) == Placements(acts[..k], a) + if acts[k].PlaceBid? && acts[k].a == a then 1 else 0
  {
    assert acts[..k + 1][..k] == acts[..k];
  }

  /** The growth law passes from one state to the next. */
  ghost predicate KeepsGrowing(s: Db, act: Action, s': Db, a: nat, start: int, step: int) {
    forall n: nat :: Grown(s, a, start, step, n) ==>
      Grown(s', a, start, step, n + if act.PlaceBid? && act.a == a then 1 else 0)
  }

  lemma {:induction false} GrownAlong(states: seq<Db>, acts: seq<Action>, a: nat, start: int, step: int, k: nat)
    requires k <= |acts| < |states| && Grown(states[0], a, start, step, 0)
    requires forall i :: 0 <= i < |acts| ==> KeepsGrowing(states[i], acts[i], states[i + 1], a, start, step)
    ensures Grown(states[k], a, start, step, Placements(acts[..k], a))
  {
    if k > 0 {
      GrownAlong(states, acts, a, start, step, k - 1);
      PlacementsGrow(acts, a, k - 1);
      assert KeepsGrowing(states[k - 1], acts[k - 1], states[k], a, start, step);
    }
  }

  /**
   * Price growth: from an auction standing at its start price, which is at least one step, as long as none
   * of its bids fails, `n` accepted bids put the price at `startPrice + (n - 1) * priceStep` or more.
   */
  lemma PriceGrowsWithBids(states: seq<Db>, m: Market, acts: seq<Action>, a: nat, start: int, step: int)
    requires Run(states, m, acts) && Inv(states[0]) && Grown(states[0], a, start, step, 0)
    requires start >= step
    requires forall i :: 0 <= i < |acts| ==> !FailsBidOf(states[i], acts[i], a)
    ensures Grown(states[|acts|], a, start, step, Placements(acts, a))
  {
    RunKeeps(states, m, acts);
    forall i | 0 <= i < |acts| ensures KeepsGrowing(states[i], acts[i], states[i + 1], a, start, step) {
      forall n: nat | Grown(states[i], a, start, step, n)
        ensures Grown(states[i + 1], a, start, step, n + if acts[i].PlaceBid? && acts[i].a == a then 1 else 0)
      {
        GrownStep(states[i], m, acts[i], a, start, step, n);
      }
    }
    GrownAlong(states, acts, a, start, step, |acts|);
    assert acts[..|acts|] == acts;
  }

  // ---------- two short runs ----------

  /** The database after one auction was created and one bid of its start price was placed. */
  function OneBid(m: Market, owner: Address, bidder: Address, start: int, step: int): Db {
    EMPTY.(offers := [Offer(1, 1, owner, m.address, AskActive, Active, start, start, step, 0, None, None)],
           bids := [Bid(0, bidder, start, start, Minting)])
  }

  lemma FirstBid(m: Market, owner: Address, bidder: Address, start: int, step: int)
    requires start >= 1 && step >= 1
    ensures var acts := [CreateAuction(1, 1, owner, start, step, 0), PlaceBid(0, bidder, start)];
      var created := OneBid(m, owner, bidder, start, step).(bids := []);
      History([EMPTY, created, OneBid(m, owner, bidder, start, step)], m, acts)
  {
    var created := OneBid(m, owner, bidder, start, step).(bids := []);
    assert ListedForSale(created, 1, 1) by { assert created.offers[0].status == AskActive; }
    assert created.bids + [Bid(0, bidder, start, start, Minting)] == [Bid(0, bidder, start, start, Minting)];
  }

  /** The bidder, already leading, may add any amount that passes the step rule. */
  lemma SecondBid(m: Market, owner: Address, bidder: Address, start: int, step: int, amount: int)
    requires start >= 1 && step >= 1 && amount >= 0 && (start >= step ==> amount >= step)
    ensures var s := OneBid(m, owner, bidder, start, step);
      && Enabled(s, PlaceBid(0, bidder, amount))
      && Placed(s, 0, bidder, amount) == s.(offers := [s.offers[0].(price := start + amount)],
                                            bids := s.bids + [Bid(0, bidder, amount, start + amount, Minting)])
  {
    var s := OneBid(m, owner, bidder, start, step);
    assert ListedForSale(s, 1, 1) by { assert s.offers[0].status == AskActive; }
    AppendTotals([], s.bids[0]);
    assert [] + [s.bids[0]] == s.bids;
    assert Total(s.bids, Pending(0), bidder) == start;
  }

  /**
   * The growth law needs a start price of at least one step: below it, whatever the terms, two accepted bids
   * can leave the price at the start price.
   */
  lemma GrowthNeedsTheStartPrice(m: Market, owner: Address, bidder: Address, start: int, step: int)
      returns (states: seq<Db>, acts: seq<Action>)
    requires 1 <= start < step
    ensures History(states, m, acts) && Placements(acts, 0) == 2
    ensures forall i :: 0 <= i < |acts| ==> !acts[i].FailBid?
    ensures |states[|acts|].offers| == 1 && states[|acts|].offers[0].startPrice == start
    ensures states[|acts|].offers[0].priceStep == step && states[|acts|].offers[0].price < start + (2 - 1) * step
  {
    var s2 := OneBid(m, owner, bidder, start, step);
    FirstBid(m, owner, bidder, start, step);
    SecondBid(m, owner, bidder, start, step, 0);
    acts := [CreateAuction(1, 1, owner, start, step, 0), PlaceBid(0, bidder, start), PlaceBid(0, bidder, 0)];
    states := [EMPTY, s2.(bids := []), s2, Placed(s2, 0, bidder, 0)];
    assert acts[..2][..1] == [acts[0]] && acts[..2][1] == acts[1];
    assert [acts[0]][..0] == [] && Placements([acts[0]], 0) == 0;
    assert Placements(acts[..2], 0) == 1;
  }
}
