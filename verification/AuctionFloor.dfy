/** How far an auction's totals can fall: the finished lead never does, and the price keeps its floor. */
module AuctionFloor {
  import opened Common
  import opened BidTable
  import opened AuctionMachine
  import opened AuctionInvariant
  import opened AuctionLaws

  /** The highest finished total of an auction, 0 when nothing has finished. */
  function Best(s: Db, a: nat): int {
    LeadingTotal(s.bids, Actual(a), 0)
  }

  /** A table in which no bidder of `f` lost rows or money has at least the same lead. */
  lemma LeadGrows(bids: seq<Bid>, bids': seq<Bid>, f: BidsFilter)
    requires forall w :: Rows(bids', f, w) >= Rows(bids, f, w) && Total(bids', f, w) >= Total(bids, f, w)
    requires forall w :: Total(bids', f, w) >= 0
    ensures LeadingTotal(bids', f, 0) >= LeadingTotal(bids, f, 0)
  {
    LeadingTotalIs(bids, f, 0);
    LeadingTotalIs(bids', f, 0);
    if HasRow(bids, f) {
      var w :| IsLeader(bids, f, w);
      assert Rows(bids', f, w) > 0;
      var w' :| IsLeader(bids', f, w');
    } else if HasRow(bids', f) {
      var w' :| IsLeader(bids', f, w');
    }
  }

  /** The actions that write rows of auction `a`. */
  ghost predicate WritesBids(s: Db, act: Action, a: nat)
    requires Enabled(s, act)
  {
    match act
    case PlaceBid(c, _, _) => c == a
    case WithdrawBid(c, _, _) => c == a
    case FinishBid(bid) => s.bids[bid].auctionId == a
    case FailBid(bid) => s.bids[bid].auctionId == a
    case Settle(c, _, _, _, _) => c == a
    case _ => false
  }

  lemma BidsElsewhere(s: Db, m: Market, act: Action, a: nat)
    requires Enabled(s, act) && !WritesBids(s, act, a)
    ensures var bids' := Next(s, m, act).bids;
      forall f: BidsFilter, w :: f.auctionId == a ==>
        Rows(bids', f, w) == Rows(s.bids, f, w) && Total(bids', f, w) == Total(s.bids, f, w)
  {
    match act
    case PlaceBid(c, v, x) => AppendTotals(s.bids, Placed(s, c, v, x).bids[|s.bids|]);
    case WithdrawBid(c, v, paid) => AppendTotals(s.bids, Withdrawn(s, c, v, paid).bids[|s.bids|]);
    case FinishBid(bid) => UpdateTotals(s.bids, bid, s.bids[bid].(status := Finished));
    case FailBid(bid) => UpdateTotals(s.bids, bid, s.bids[bid].(status := ErrorBid));
    case Settle(c, rows, refused, submission, paid) => SettlementRows(s, m, c, rows, refused, submission, paid);
    case _ =>
  }

  /**
   * Only settlement lowers a finished total that leads: no other action, in particular no bidder's
   * withdrawal, brings the highest finished total of an auction down.
   */
  lemma HighestFinishedNeverFalls(s: Db, m: Market, act: Action, a: nat)
    requires Inv(s) && Enabled(s, act) && a < |s.offers| && !(act.Settle? && act.a == a)
    ensures Best(Next(s, m, act), a) >= Best(s, a)
    ensures HasRow(s.bids, Actual(a)) ==> HasRow(Next(s, m, act).bids, Actual(a))
  {
    var f, s' := Actual(a), Next(s, m, act);
    if !WritesBids(s, act, a) {
      BidsElsewhere(s, m, act, a);
      LeadingTotalSame(s.bids, s'.bids, f, 0);
    } else if act.WithdrawBid? {
      AppendTotals(s.bids, s'.bids[|s.bids|]);
      WithdrawalKeepsLeader(s, a, act.bidder, act.paid, f, 0);
    } else if act.FinishBid? {
      UpdateTotals(s.bids, act.bid, s'.bids[act.bid]);
      FinishKeeps(s, act.bid);
      LeadGrows(s.bids, s'.bids, f);
    } else {
      ActualIgnoresUnresolved(s, m, act, a);
      LeadingTotalSame(s.bids, s'.bids, f, 0);
    }
    if HasRow(s.bids, f) {
      var w :| Rows(s.bids, f, w) > 0;
      assert Rows(s'.bids, f, w) > 0;
    }
  }

  /** Over any stretch of any run in which an auction is not settled, its highest finished total never falls. */
  lemma {:induction false} FinishedLeadNeverFalls(states: seq<Db>, m: Market, acts: seq<Action>, i: nat, j: nat, a: nat)
    requires History(states, m, acts) && i <= j <= |acts| && a < |states[i].offers|
    requires forall k :: i <= k < j ==> !(acts[k].Settle? && acts[k].a == a)
    ensures a < |states[j].offers| && Best(states[j], a) >= Best(states[i], a)
    decreases j
  {
    if i < j {
      FinishedLeadNeverFalls(states, m, acts, i, j - 1, a);
      HistoryKeeps(states, m, acts);
      OffersStay(states[j - 1], m, acts[j - 1], a);
      HighestFinishedNeverFalls(states[j - 1], m, acts[j - 1], a);
    }
  }

  lemma OffersStay(s: Db, m: Market, act: Action, a: nat)
    requires Enabled(s, act) && a < |s.offers|
    ensures a < |Next(s, m, act).offers|
  {
    if act.Settle? {
      SettlementFrame(s, m, act.a, act.rows, act.refused, act.submission, act.paid);
    }
  }

  lemma ActualIgnoresUnresolved(s: Db, m: Market, act: Action, a: nat)
    requires Enabled(s, act) && (act.PlaceBid? || act.FailBid?)
    ensures var bids' := Next(s, m, act).bids;
      forall w :: Rows(bids', Actual(a), w) == Rows(s.bids, Actual(a), w)
               && Total(bids', Actual(a), w) == Total(s.bids, Actual(a), w)
  {
    match act
    case PlaceBid(c, v, x) => AppendTotals(s.bids, Placed(s, c, v, x).bids[|s.bids|]);
    case FailBid(bid) => UpdateTotals(s.bids, bid, s.bids[bid].(status := ErrorBid));
  }

  /** A paid withdrawal by the only leader lowers the lead. */
  lemma SoleLeaderLowers(s: Db, a: nat, bidder: Address, f: BidsFilter)
    requires f == Pending(a) || f == Actual(a)
    requires Total(s.bids, Actual(a), bidder) > 0 && !AnotherLeads(s.bids, f, bidder)
    ensures LeadingTotal(Withdrawn(s, a, bidder, true).bids, f, 0) < LeadingTotal(s.bids, f, 0)
    ensures HasRow(s.bids, f) && HasRow(Withdrawn(s, a, bidder, true).bids, f)
  {
    var s' := Withdrawn(s, a, bidder, true);
    AppendTotals(s.bids, s'.bids[|s.bids|]);
    NoRowsNoTotal(s.bids, Actual(a), bidder);
    PendingSplits(s.bids, a, bidder);
    assert Rows(s.bids, f, bidder) > 0 && Rows(s'.bids, f, bidder) > 0;
    LeadingTotalIs(s.bids, f, 0);
    LeadingTotalIs(s'.bids, f, 0);
    var w :| IsLeader(s.bids, f, w);
    assert w == bidder;
    var w' :| IsLeader(s'.bids, f, w');
    if w' != bidder {
      assert !IsLeader(s.bids, f, w');
    }
  }

  /**
   * Both winner checks of a withdrawal are needed: a paid withdrawal keeps the cached price right exactly when
   * another bidder can lead the pending totals, and keeps the finished lead exactly when another bidder can
   * lead the finished totals.
   */
  lemma WithdrawalChecksAreExact(s: Db, a: nat, bidder: Address)
    requires Inv(s) && IsActive(s, a) && Total(s.bids, Actual(a), bidder) > 0
    ensures CachedAt(Withdrawn(s, a, bidder, true), a) <==> AnotherLeads(s.bids, Pending(a), bidder)
    ensures Best(Withdrawn(s, a, bidder, true), a) == Best(s, a) <==> AnotherLeads(s.bids, Actual(a), bidder)
  {
    var s' := Withdrawn(s, a, bidder, true);
    var start := s.offers[a].startPrice;
    assert CachedAt(s, a);
    if AnotherLeads(s.bids, Pending(a), bidder) {
      WithdrawalKeepsLeader(s, a, bidder, true, Pending(a), start);
    } else {
      SoleLeaderLowers(s, a, bidder, Pending(a));
      DefaultUnused(s.bids, Pending(a), start);
      DefaultUnused(s'.bids, Pending(a), start);
    }
    if AnotherLeads(s.bids, Actual(a), bidder) {
      WithdrawalKeepsLeader(s, a, bidder, true, Actual(a), 0);
    } else {
      SoleLeaderLowers(s, a, bidder, Actual(a));
    }
  }

  lemma DefaultUnused(bids: seq<Bid>, f: BidsFilter, default: int)
    requires HasRow(bids, f)
    ensures LeadingTotal(bids, f, default) == LeadingTotal(bids, f, 0)
  {
    LeadingTotalIs(bids, f, default);
    LeadingTotalIs(bids, f, 0);
  }

  // ---------- the price floor ----------

  ghost predicate IsUnresolved(b: Bid, a: nat) {
    b.auctionId == a && b.status == Minting
  }

  /**
   * The finished bids alone hold the start price or, as long as nothing has finished, every unresolved bid would
   * reach it alone.
   */
  ghost predicate FloorSafe(s: Db, a: nat)
    requires a < |s.offers|
  {
    var start := s.offers[a].startPrice;
    if HasRow(s.bids, Actual(a)) then Best(s, a) >= start
    else forall i :: 0 <= i < |s.bids| && IsUnresolved(s.bids[i], a) ==> s.bids[i].amount >= start
  }

  ghost predicate FloorsSafe(s: Db) {
    forall a :: 0 <= a < |s.offers| && Open(s.offers[a]) ==> FloorSafe(s, a)
  }

  /** What to ask of a bid before it is placed: it, or the finished lead, is worth the start price. */
  ghost predicate KeepsFloor(s: Db, act: Action) {
    act.PlaceBid? && act.a < |s.offers| ==>
      act.amount >= s.offers[act.a].startPrice || Best(s, act.a) >= s.offers[act.a].startPrice
  }

  /** A bidder's pending total is their finished total and what is unresolved, neither of which is negative. */
  lemma PendingCoversActual(s: Db, a: nat, w: Address)
    requires Inv(s)
    ensures Total(s.bids, Pending(a), w) >= Total(s.bids, Actual(a), w) >= 0
    ensures Rows(s.bids, Pending(a), w) == Rows(s.bids, Actual(a), w) + Rows(s.bids, Unresolved(a), w)
    ensures Total(s.bids, Pending(a), w) == Total(s.bids, Actual(a), w) + Total(s.bids, Unresolved(a), w)
  {
    PendingSplits(s.bids, a, w);
    UnresolvedTotals(s.bids, a, w);
  }

  lemma {:induction false} RowBoundsTotal(bids: seq<Bid>, a: nat, i: nat)
    requires i < |bids| && IsUnresolved(bids[i], a)
    requires forall j :: 0 <= j < |bids| && bids[j].status == Minting ==> bids[j].amount >= 0
    ensures Total(bids, Unresolved(a), bids[i].bidder) >= bids[i].amount
  {
    var n := |bids| - 1;
    assert forall j :: 0 <= j < n ==> bids[..n][j] == bids[j];
    if i < n {
      RowBoundsTotal(bids[..n], a, i);
    } else {
      UnresolvedTotals(bids[..n], a, bids[i].bidder);
    }
  }

  lemma SafeBoundsPrice(s: Db, a: nat)
    requires Inv(s) && a < |s.offers| && Open(s.offers[a]) && FloorSafe(s, a)
    ensures s.offers[a].price >= s.offers[a].startPrice
  {
    var start := s.offers[a].startPrice;
    assert CachedAt(s, a);
    LeadingTotalIs(s.bids, Pending(a), start);
    if HasRow(s.bids, Actual(a)) {
      LeadingTotalIs(s.bids, Actual(a), 0);
      var w :| IsLeader(s.bids, Actual(a), w);
      PendingCoversActual(s, a, w);
      PriceBoundsTotals(s, a);
    } else if HasRow(s.bids, Pending(a)) {
      var w :| IsLeader(s.bids, Pending(a), w);
      var i := CountedRow(s.bids, Pending(a), w);
      if s.bids[i].status == Finished {
        RowIsCounted(s.bids, Actual(a), w, i);
      }
      RowBoundsTotal(s.bids, a, i);
      PendingCoversActual(s, a, w);
    }
  }

  // ---------- safety is kept ----------

  lemma UnresolvedElsewhere(s: Db, m: Market, act: Action, a: nat)
    requires Enabled(s, act) && !WritesBids(s, act, a)
    ensures var bids' := Next(s, m, act).bids;
      forall i :: 0 <= i < |bids'| && IsUnresolved(bids'[i], a) ==> i < |s.bids| && bids'[i] == s.bids[i]
  {
    if act.Settle? {
      SettlementRows(s, m, act.a, act.rows, act.refused, act.submission, act.paid);
    }
  }

  lemma SafeElsewhere(s: Db, m: Market, act: Action, a: nat)
    requires Enabled(s, act) && a < |s.offers| && FloorSafe(s, a) && !WritesBids(s, act, a)
    ensures a < |Next(s, m, act).offers| && FloorSafe(Next(s, m, act), a)
  {
    var s' := Next(s, m, act);
    BidsElsewhere(s, m, act, a);
    LeadingTotalSame(s.bids, s'.bids, Actual(a), 0);
    UnresolvedElsewhere(s, m, act, a);
    PriceMovesOnlyWithBids(s, m, act, a);
  }

  /** A bid that passes the test keeps a safe auction safe; one that fails it never leaves it safe. */
  lemma PlacedIsSafeIff(s: Db, m: Market, act: Action)
    requires Inv(s) && act.PlaceBid? && Enabled(s, act)
    ensures FloorSafe(s, act.a) && KeepsFloor(s, act) ==> FloorSafe(Next(s, m, act), act.a)
    ensures FloorSafe(Next(s, m, act), act.a) ==> KeepsFloor(s, act)
  {
    var a, s' := act.a, Next(s, m, act);
    ActualIgnoresUnresolved(s, m, act, a);
    LeadingTotalSame(s.bids, s'.bids, Actual(a), 0);
    LeadingTotalIs(s.bids, Actual(a), 0);
    assert IsUnresolved(s'.bids[|s.bids|], a) && s'.bids[|s.bids|].amount == act.amount;
  }

  lemma FinishedIsSafe(s: Db, m: Market, bid: nat, a: nat)
    requires Inv(s) && Enabled(s, FinishBid(bid)) && s.bids[bid].auctionId == a && a < |s.offers| && FloorSafe(s, a)
    ensures FloorSafe(FinishedBid(s, bid), a)
  {
    var s', w := FinishedBid(s, bid), s.bids[bid].bidder;
    UpdateTotals(s.bids, bid, s'.bids[bid]);
    HighestFinishedNeverFalls(s, m, FinishBid(bid), a);
    RowIsCounted(s'.bids, Actual(a), w, bid);
    if !HasRow(s.bids, Actual(a)) {
      assert IsUnresolved(s.bids[bid], a);
      assert Rows(s.bids, Actual(a), w) == 0;
      NoRowsNoTotal(s.bids, Actual(a), w);
      LeadingTotalIs(s'.bids, Actual(a), 0);
      var v :| IsLeader(s'.bids, Actual(a), v);
    }
  }

  lemma FailedIsSafe(s: Db, m: Market, bid: nat, a: nat)
    requires Enabled(s, FailBid(bid)) && s.bids[bid].auctionId == a && FloorSafe(s, a)
    ensures FloorSafe(FailedBid(s, bid), a)
  {
    ActualIgnoresUnresolved(s, m, FailBid(bid), a);
    LeadingTotalSame(s.bids, FailedBid(s, bid).bids, Actual(a), 0);
  }

  lemma SafeStep(s: Db, m: Market, act: Action, a: nat)
    requires Inv(s) && Enabled(s, act) && KeepsFloor(s, act) && a < |s.offers| && FloorSafe(s, a)
    requires !(act.Settle? && act.a == a)
    ensures a < |Next(s, m, act).offers| && FloorSafe(Next(s, m, act), a)
  {
    if !WritesBids(s, act, a) {
      SafeElsewhere(s, m, act, a);
    } else {
      match act
      case PlaceBid(_, _, _) => PlacedIsSafeIff(s, m, act);
      case FinishBid(bid) => FinishedIsSafe(s, m, bid, a);
      case FailBid(bid) => FailedIsSafe(s, m, bid, a);
      case WithdrawBid(_, bidder, _) =>
        NoRowsNoTotal(s.bids, Actual(a), bidder);
        HighestFinishedNeverFalls(s, m, act, a);
    }
  }

  lemma SafesStep(s: Db, m: Market, act: Action)
    requires Inv(s) && Enabled(s, act) && KeepsFloor(s, act) && FloorsSafe(s)
    ensures FloorsSafe(Next(s, m, act))
  {
    var s' := Next(s, m, act);
    forall a | 0 <= a < |s'.offers| && Open(s'.offers[a]) ensures FloorSafe(s', a) {
      if act.CreateAuction? && a == |s.offers| {
        NoRows(s.bids, Actual(a));
      } else {
        StaysOpen(s, m, act, a);
        SafeStep(s, m, act, a);
      }
    }
  }

  lemma StaysOpen(s: Db, m: Market, act: Action, a: nat)
    requires Enabled(s, act) && a < |Next(s, m, act).offers| && Open(Next(s, m, act).offers[a])
    requires !(act.CreateAuction? && a == |s.offers|)
    ensures a < |s.offers| && Open(s.offers[a]) && !(act.Settle? && act.a == a)
  {
    if act.Settle? {
      SettlementFrame(s, m, act.a, act.rows, act.refused, act.submission, act.paid);
    }
  }

  // ---------- without safety the price can sink ----------

  /** A run in which unresolved bids finish or fail, and nothing else happens. */
  ghost predicate Resolution(s: Db, m: Market, states: seq<Db>, acts: seq<Action>) {
    && Run(states, m, acts) && states[0] == s
    && forall i :: 0 <= i < |acts| ==> acts[i].FinishBid? || acts[i].FailBid?
  }

  /** Some outcome of the unresolved bids leaves the auction's price below its start price. */
  ghost predicate CanSink(s: Db, m: Market, a: nat) {
    exists states, acts :: Resolution(s, m, states, acts) && Sunk(states[|acts|], a)
  }

  predicate Sunk(s: Db, a: nat) {
    a < |s.offers| && s.offers[a].price < s.offers[a].startPrice
  }

  /** The unresolved bids of an auction among the first `n` rows fail, all but row `keep`. */
  lemma {:induction false} FailAllBut(s: Db, m: Market, a: nat, keep: nat, n: nat)
      returns (states: seq<Db>, acts: seq<Action>)
    requires a < |s.offers| && n <= |s.bids|
    ensures Resolution(s, m, states, acts)
    ensures var s' := states[|acts|];
      && |s'.offers| == |s.offers| && s'.offers[a].(price := 0) == s.offers[a].(price := 0)
      && |s'.bids| == |s.bids|
      && forall i :: 0 <= i < |s.bids| ==>
           s'.bids[i] == if i < n && i != keep && IsUnresolved(s.bids[i], a)
                           then s.bids[i].(status := ErrorBid) else s.bids[i]
  {
    if n == 0 {
      states, acts := [s], [];
    } else {
      states, acts := FailAllBut(s, m, a, keep, n - 1);
      var last := states[|acts|];
      if n - 1 != keep && IsUnresolved(s.bids[n - 1], a) {
        var act := FailBid(n - 1);
        assert Enabled(last, act);
        states, acts := states + [Next(last, m, act)], acts + [act];
      }
    }
  }

  lemma {:induction false} FailuresKeepActual(bids: seq<Bid>, bids': seq<Bid>, a: nat, w: Address)
    requires |bids| == |bids'|
    requires forall i :: 0 <= i < |bids| ==>
      bids'[i] == bids[i] || (bids[i].status == Minting && bids'[i] == bids[i].(status := ErrorBid))
    ensures Rows(bids', Actual(a), w) == Rows(bids, Actual(a), w) && Total(bids', Actual(a), w) == Total(bids, Actual(a), w)
  {
    if bids != [] {
      var n := |bids| - 1;
      assert forall i :: 0 <= i < n ==> bids[..n][i] == bids[i] && bids'[..n][i] == bids'[i];
      FailuresKeepActual(bids[..n], bids'[..n], a, w);
    }
  }

  lemma {:induction false} OnlyRow(bids: seq<Bid>, f: BidsFilter, k: nat, w: Address)
    requires forall i :: 0 <= i < |bids| && i != k ==> !Matches(bids[i], f)
    requires k < |bids| ==> Matches(bids[k], f)
    ensures Rows(bids, f, w) == if k < |bids| && bids[k].bidder == w then 1 else 0
    ensures Total(bids, f, w) == if k < |bids| && bids[k].bidder == w then bids[k].amount else 0
  {
    if bids != [] {
      var n := |bids| - 1;
      assert forall i :: 0 <= i < n ==> bids[..n][i] == bids[i];
      OnlyRow(bids[..n], f, k, w);
    }
  }

  /** When too little has finished, failing every unresolved bid leaves just that as the price. */
  lemma LowLeadSinks(s: Db, m: Market, a: nat)
    requires Inv(s) && a < |s.offers| && Open(s.offers[a])
    requires HasRow(s.bids, Actual(a)) && Best(s, a) < s.offers[a].startPrice
    ensures CanSink(s, m, a)
  {
    var states, acts := FailAllBut(s, m, a, |s.bids|, |s.bids|);
    var s' := states[|acts|];
    assert CachedAt(s', a) by {
      RunKeeps(states, m, acts);
    }
    assert NoMinting(s'.bids, a);
    NoMintingSameTotals(s'.bids, a);
    forall w
      ensures Rows(s'.bids, Pending(a), w) == Rows(s.bids, Actual(a), w)
      ensures Total(s'.bids, Pending(a), w) == Total(s.bids, Actual(a), w)
    {
      FailuresKeepActual(s.bids, s'.bids, a, w);
    }
    LeadingTotalIs(s.bids, Actual(a), 0);
    var w :| IsLeader(s.bids, Actual(a), w);
    assert IsLeader(s'.bids, Pending(a), w);
    LeadingTotalIs(s'.bids, Pending(a), s.offers[a].startPrice);
  }

  /** When nothing has finished, a low bid that is left alone sets the price. */
  lemma LowBidSinks(s: Db, m: Market, a: nat, k: nat)
    requires Inv(s) && a < |s.offers| && Open(s.offers[a]) && !HasRow(s.bids, Actual(a))
    requires k < |s.bids| && IsUnresolved(s.bids[k], a) && s.bids[k].amount < s.offers[a].startPrice
    ensures CanSink(s, m, a)
  {
    var states, acts := FailAllBut(s, m, a, k, |s.bids|);
    var s' := states[|acts|];
    assert CachedAt(s', a) by {
      RunKeeps(states, m, acts);
    }
    forall i | 0 <= i < |s'.bids| && i != k ensures !Matches(s'.bids[i], Pending(a)) {
      if s.bids[i].auctionId == a && s.bids[i].status == Finished {
        RowIsCounted(s.bids, Actual(a), s.bids[i].bidder, i);
      }
    }
    forall w
      ensures Rows(s'.bids, Pending(a), w) == if s.bids[k].bidder == w then 1 else 0
      ensures Total(s'.bids, Pending(a), w) == if s.bids[k].bidder == w then s.bids[k].amount else 0
    {
      OnlyRow(s'.bids, Pending(a), k, w);
    }
    assert IsLeader(s'.bids, Pending(a), s.bids[k].bidder);
    LeadingTotalIs(s'.bids, Pending(a), s.offers[a].startPrice);
  }

  lemma {:induction false} ResolutionKeepsSafe(s: Db, m: Market, states: seq<Db>, acts: seq<Action>, a: nat, k: nat)
    requires Inv(s) && Resolution(s, m, states, acts) && k <= |acts|
    requires a < |s.offers| && Open(s.offers[a]) && FloorSafe(s, a)
    ensures a < |states[k].offers| && Open(states[k].offers[a]) && FloorSafe(states[k], a)
  {
    if k > 0 {
      ResolutionKeepsSafe(s, m, states, acts, a, k - 1);
      assert Inv(states[k - 1]) by {
        RunKeeps(states, m, acts);
      }
      SafeStep(states[k - 1], m, acts[k - 1], a);
    }
  }

  /** Some outcome of the unresolved bids sinks the price of an open auction if and only if it is not safe. */
  lemma SinksIffUnsafe(s: Db, m: Market, a: nat)
    requires Inv(s) && a < |s.offers| && Open(s.offers[a])
    ensures CanSink(s, m, a) <==> !FloorSafe(s, a)
  {
    if FloorSafe(s, a) {
      forall states, acts | Resolution(s, m, states, acts) ensures !Sunk(states[|acts|], a) {
        ResolutionKeepsSafe(s, m, states, acts, a, |acts|);
        RunKeeps(states, m, acts);
        SafeBoundsPrice(states[|acts|], a);
      }
    } else if HasRow(s.bids, Actual(a)) {
      LowLeadSinks(s, m, a);
    } else {
      var k :| 0 <= k < |s.bids| && IsUnresolved(s.bids[k], a) && s.bids[k].amount < s.offers[a].startPrice;
      LowBidSinks(s, m, a, k);
    }
  }

  // ---------- over whole runs ----------

  lemma {:induction false} SafeAlong(states: seq<Db>, m: Market, acts: seq<Action>, k: nat)
    requires History(states, m, acts) && k <= |acts|
    requires forall i :: 0 <= i < k ==> KeepsFloor(states[i], acts[i])
    ensures Inv(states[k]) && FloorsSafe(states[k])
  {
    HistoryKeeps(states, m, acts);
    if k > 0 {
      SafeAlong(states, m, acts, k - 1);
      SafesStep(states[k - 1], m, acts[k - 1]);
    }
  }

  /** No open auction can sink, here or through any outcome of its unresolved bids. */
  ghost predicate Unsinkable(s: Db, m: Market) {
    forall a :: 0 <= a < |s.offers| && Open(s.offers[a]) ==> !CanSink(s, m, a)
  }

  /**
   * Over every run, no outcome of the unresolved bids can ever bring an open auction below its start price if and
   * only if each bid, when it was placed, was worth the start price or the finished lead was.
   */
  lemma PriceFloorIff(states: seq<Db>, m: Market, acts: seq<Action>)
    requires History(states, m, acts)
    ensures (forall i :: 0 <= i < |states| ==> Unsinkable(states[i], m))
       <==> forall i :: 0 <= i < |acts| ==> KeepsFloor(states[i], acts[i])
  {
    HistoryKeeps(states, m, acts);
    if forall i :: 0 <= i < |acts| ==> KeepsFloor(states[i], acts[i]) {
      forall i | 0 <= i < |states| ensures Unsinkable(states[i], m) {
        SafeAlong(states, m, acts, i);
        forall a | 0 <= a < |states[i].offers| && Open(states[i].offers[a]) ensures !CanSink(states[i], m, a) {
          SinksIffUnsafe(states[i], m, a);
        }
      }
    } else {
      var i :| 0 <= i < |acts| && !KeepsFloor(states[i], acts[i]);
      FailedTestSinks(states[i], m, acts[i]);
      assert states[i + 1] == Next(states[i], m, acts[i]);
    }
  }

  lemma FailedTestSinks(s: Db, m: Market, act: Action)
    requires Inv(s) && Enabled(s, act) && !KeepsFloor(s, act)
    ensures !Unsinkable(Next(s, m, act), m)
  {
    PlacedIsSafeIff(s, m, act);
    StepKeeps(s, m, act);
    SinksIffUnsafe(Next(s, m, act), m, act.a);
  }

  /** If every bid passes the test, an open auction's price never drops below its start price, however bids fail. */
  lemma PriceKeepsItsFloor(states: seq<Db>, m: Market, acts: seq<Action>, k: nat, a: nat)
    requires History(states, m, acts) && k <= |acts|
    requires forall i :: 0 <= i < k ==> KeepsFloor(states[i], acts[i])
    requires a < |states[k].offers| && Open(states[k].offers[a])
    ensures states[k].offers[a].price >= states[k].offers[a].startPrice
  {
    SafeAlong(states, m, acts, k);
    SafeBoundsPrice(states[k], a);
  }

  /** No bidder places a bid while an earlier one of theirs on the same auction is unresolved. */
  ghost predicate OneUnresolvedEach(s: Db, act: Action) {
    act.PlaceBid? ==> Rows(s.bids, Unresolved(act.a), act.bidder) == 0
  }

  /** In a safe auction the bid of a bidder with nothing unresolved passes the test. */
  lemma SingleBidKeepsFloor(s: Db, act: Action)
    requires Inv(s) && FloorsSafe(s) && Enabled(s, act) && OneUnresolvedEach(s, act)
    ensures KeepsFloor(s, act)
  {
    if act.PlaceBid? && Best(s, act.a) < s.offers[act.a].startPrice {
      var a, w := act.a, act.bidder;
      assert FloorSafe(s, a) && !HasRow(s.bids, Actual(a));
      SafeBoundsPrice(s, a);
      PendingCoversActual(s, a, w);
      assert Rows(s.bids, Actual(a), w) == 0;
      NoRowsNoTotal(s.bids, Actual(a), w);
      NoRowsNoTotal(s.bids, Unresolved(a), w);
    }
  }

  /** So does, from the start price up, every bid on an auction whose step is its start price. */
  lemma StepOfStartKeepsFloor(s: Db, act: Action)
    requires Inv(s) && FloorsSafe(s) && Enabled(s, act)
    requires act.PlaceBid? ==> s.offers[act.a].priceStep == s.offers[act.a].startPrice
    ensures KeepsFloor(s, act)
  {
    if act.PlaceBid? {
      SafeBoundsPrice(s, act.a);
    }
  }

  /** One unresolved bid per bidder and auction is therefore enough, though it is not necessary. */
  lemma {:induction false} OneUnresolvedEachSuffices(states: seq<Db>, m: Market, acts: seq<Action>, k: nat)
    requires History(states, m, acts) && k <= |acts|
    requires forall i :: 0 <= i < k ==> OneUnresolvedEach(states[i], acts[i])
    ensures forall i :: 0 <= i < k ==> KeepsFloor(states[i], acts[i])
  {
    if k > 0 {
      OneUnresolvedEachSuffices(states, m, acts, k - 1);
      SafeAlong(states, m, acts, k - 1);
      SingleBidKeepsFloor(states[k - 1], acts[k - 1]);
    }
  }

  /** A run that sinks: the first of two unresolved bids of one bidder fails, and the second alone is too low. */
  lemma TwoUnresolvedBidsCanSinkThePrice(m: Market, owner: Address, bidder: Address)
    returns (states: seq<Db>, acts: seq<Action>)
    ensures History(states, m, acts)
    ensures |states[|acts|].offers| == 1 && states[|acts|].offers[0].statusAuction == Active
    ensures states[|acts|].offers[0].price == 10 < states[|acts|].offers[0].startPrice == 100
  {
    acts := [CreateAuction(1, 1, owner, 100, 10, 0), PlaceBid(0, bidder, 100), PlaceBid(0, bidder, 10), FailBid(0)];
    var s2 := OneBid(m, owner, bidder, 100, 10);
    FirstBid(m, owner, bidder, 100, 10);
    SecondBid(m, owner, bidder, 100, 10, 10);
    var s3 := Placed(s2, 0, bidder, 10);
    var s4 := Next(s3, m, acts[3]);
    states := [EMPTY, s2.(bids := []), s2, s3, s4];
    assert s4.bids == [Bid(0, bidder, 100, 100, ErrorBid), Bid(0, bidder, 10, 110, Minting)];
    SecondBidAlone(s4.bids, bidder);
  }

  lemma SecondBidAlone(bids: seq<Bid>, bidder: Address)
    requires bids == [Bid(0, bidder, 100, 100, ErrorBid), Bid(0, bidder, 10, 110, Minting)]
    ensures LeadingTotal(bids, Pending(0), 100) == 10
  {
    AppendTotals([], bids[0]);
    AppendTotals([bids[0]], bids[1]);
    assert [] + [bids[0]] == [bids[0]] && [bids[0]] + [bids[1]] == bids;
    assert IsLeader(bids, Pending(0), bidder);
    LeadingTotalIs(bids, Pending(0), 100);
  }
}
