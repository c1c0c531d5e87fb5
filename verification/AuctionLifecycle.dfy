/** The one-way life of an auction, over every run. */
module AuctionLifecycle {
  import opened Common
  import opened BidTable
  import opened AuctionMachine
  import opened AuctionInvariant
  import opened AuctionLaws

  function Rank(o: Offer): nat {
    match o.statusAuction
    case Created => 0
    case Active => 1
    case Stopped => 2
    case Withdrawing => 3
    case Ended => 4
  }

  lemma RankStep(s: Db, m: Market, act: Action, a: nat)
    requires Enabled(s, act) && a < |s.offers|
    ensures var s' := Next(s, m, act);
      && a < |s'.offers| && Rank(s'.offers[a]) >= Rank(s.offers[a])
      && (act.Settle? && act.a == a ==> Rank(s.offers[a]) == 2 && Rank(s'.offers[a]) >= 3)
      && s'.offers[a].addressFrom == s.offers[a].addressFrom
  {
    if act.Settle? {
      SettlementFrame(s, m, act.a, act.rows, act.refused, act.submission, act.paid);
    }
  }

  /** An auction's status never goes back, over any stretch of any run. */
  lemma {:induction false} RankNeverFalls(states: seq<Db>, m: Market, acts: seq<Action>, i: nat, j: nat, a: nat)
    requires Run(states, m, acts) && i <= j <= |acts| && a < |states[i].offers|
    ensures a < |states[j].offers| && Rank(states[j].offers[a]) >= Rank(states[i].offers[a])
    ensures states[j].offers[a].addressFrom == states[i].offers[a].addressFrom
    decreases j
  {
    if i < j {
      RankNeverFalls(states, m, acts, i, j - 1, a);
      RankStep(states[j - 1], m, acts[j - 1], a);
    }
  }

  /** After an auction has left the active state no bid is placed on it, nothing is withdrawn, nobody cancels it. */
  lemma NoBiddingAfterClosing(states: seq<Db>, m: Market, acts: seq<Action>, i: nat, j: nat, a: nat)
    requires Run(states, m, acts) && i <= j < |acts| && a < |states[i].offers| && Rank(states[i].offers[a]) >= 2
    ensures !((acts[j].PlaceBid? || acts[j].WithdrawBid? || acts[j].CancelAuction?) && acts[j].a == a)
  {
    RankNeverFalls(states, m, acts, i, j, a);
  }

  /** An auction is settled at most once. */
  lemma SettledOnce(states: seq<Db>, m: Market, acts: seq<Action>, i: nat, j: nat)
    requires Run(states, m, acts) && i < j < |acts| && acts[i].Settle? && acts[j].Settle?
    ensures acts[i].a != acts[j].a
  {
    RankStep(states[i], m, acts[i], acts[i].a);
    RankNeverFalls(states, m, acts, i + 1, j, acts[i].a);
  }

  /** Ended, with no live row: nothing can happen to its bids any more. */
  ghost predicate Dead(s: Db, a: nat) {
    && a < |s.offers| && s.offers[a].statusAuction == Ended
    && forall i :: 0 <= i < |s.bids| && s.bids[i].auctionId == a ==> s.bids[i].status == ErrorBid
  }

  lemma DeadStep(s: Db, m: Market, act: Action, a: nat)
    requires Enabled(s, act) && Dead(s, a)
    ensures Dead(Next(s, m, act), a)
  {
    if act.Settle? {
      SettlementRows(s, m, act.a, act.rows, act.refused, act.submission, act.paid);
    }
    RankStep(s, m, act, a);
  }

  /** A cancelled auction never has a live bid again and is never settled. */
  lemma {:induction false} CancelledStaysDead(states: seq<Db>, m: Market, acts: seq<Action>, i: nat, j: nat)
    requires Run(states, m, acts) && i < j <= |acts| && acts[i].CancelAuction?
    ensures Dead(states[j], acts[i].a)
    ensures j < |acts| ==> !(acts[j].Settle? && acts[j].a == acts[i].a)
    decreases j
  {
    if i + 1 < j {
      CancelledStaysDead(states, m, acts, i, j - 1);
      DeadStep(states[j - 1], m, acts[j - 1], acts[i].a);
    }
  }

  lemma {:induction false} IssuedTwice(releases: seq<Release>, x: nat, y: nat, a: nat)
    requires x < y < |releases| && releases[x].auctionId == releases[y].auctionId == a
    ensures Issued(releases, a) >= 2
  {
    var n := |releases| - 1;
    if y < n {
      IssuedTwice(releases[..n], x, y, a);
    } else {
      IssuedOnce(releases[..n], x, a);
    }
  }

  lemma {:induction false} IssuedOnce(releases: seq<Release>, x: nat, a: nat)
    requires x < |releases| && releases[x].auctionId == a
    ensures Issued(releases, a) >= 1
  {
    if x < |releases| - 1 {
      IssuedOnce(releases[..|releases| - 1], x, a);
    }
  }

  lemma {:induction false} IssuedSomewhere(releases: seq<Release>, a: nat) returns (x: nat)
    requires Issued(releases, a) > 0
    ensures x < |releases| && releases[x].auctionId == a
  {
    x := |releases| - 1;
    if releases[x].auctionId != a {
      x := IssuedSomewhere(releases[..x], a);
    }
  }

  ghost predicate SentOut(releases: seq<Release>, a: nat) {
    exists x :: 0 <= x < |releases| && releases[x].auctionId == a
  }

  /** In every reachable database an auction's token has been sent out if and only if the auction closed, and then once. */
  lemma TokenLeavesOnce(states: seq<Db>, m: Market, acts: seq<Action>, i: nat)
    requires History(states, m, acts) && i < |states|
    ensures var s := states[i];
      && (forall x, y :: 0 <= x < y < |s.releases| ==> s.releases[x].auctionId != s.releases[y].auctionId)
      && (forall a: nat :: SentOut(s.releases, a) <==> a < |s.offers| && !Open(s.offers[a]))
  {
    HistoryKeeps(states, m, acts);
    var s := states[i];
    forall a: nat ensures SentOut(s.releases, a) <==> Issued(s.releases, a) > 0 {
      if Issued(s.releases, a) > 0 {
        var x := IssuedSomewhere(s.releases, a);
      }
      if x :| 0 <= x < |s.releases| && s.releases[x].auctionId == a {
        IssuedOnce(s.releases, x, a);
      }
    }
    forall x, y | 0 <= x < y < |s.releases| ensures s.releases[x].auctionId != s.releases[y].auctionId {
      if s.releases[x].auctionId == s.releases[y].auctionId {
        IssuedTwice(s.releases, x, y, s.releases[x].auctionId);
      }
    }
  }

  // ---------- where the token went ----------

  /** A bought auction's token went to its buyer; one recorded as returned did go back to the owner. */
  predicate WentRight(r: Release, o: Offer) {
    && (o.status == Bought ==> r.recipient == o.addressTo)
    && (o.blockNumberCancel.Some? ==> r.recipient == o.addressFrom && r.moved)
  }

  ghost predicate TokensWentRight(s: Db) {
    && (forall x :: 0 <= x < |s.releases| ==>
          s.releases[x].auctionId < |s.offers| && !Open(s.offers[s.releases[x].auctionId])
          && WentRight(s.releases[x], s.offers[s.releases[x].auctionId]))
    && (forall a :: 0 <= a < |s.offers| && Open(s.offers[a]) ==>
          s.offers[a].status != Bought && s.offers[a].blockNumberCancel.None?)
  }

  lemma ClosingWentRight(s: Db, s': Db, a: nat, r: Release)
    requires TokensWentRight(s) && a < |s.offers| == |s'.offers| && Open(s.offers[a]) && !Open(s'.offers[a])
    requires forall c :: 0 <= c < |s.offers| && c != a ==> s'.offers[c] == s.offers[c]
    requires s'.releases == s.releases + [r] && r.auctionId == a && WentRight(r, s'.offers[a])
    ensures TokensWentRight(s')
  {}

  lemma SettlementWentRight(s: Db, m: Market, a: nat, rows: seq<AggregatedBid>, refused: set<Address>,
                            submission: Option<Included>, paid: bool)
    requires TokensWentRight(s) && Enabled(s, Settle(a, rows, refused, submission, paid))
    ensures TokensWentRight(Settled(s, m, a, rows, refused, submission, paid))
  {
    var s' := Settled(s, m, a, rows, refused, submission, paid);
    SettlementSends(s, m, a, rows, refused, submission, paid);
    if rows != [] {
      RefundsFrame(Closing(s, a, rows), a, rows[1..], refused, |rows| - 1);
    }
    ClosingWentRight(s, s', a, s'.releases[|s.releases|]);
  }

  lemma StepWentRight(s: Db, m: Market, act: Action)
    requires TokensWentRight(s) && Enabled(s, act)
    ensures TokensWentRight(Next(s, m, act))
  {
    match act
    case CancelAuction(a, owner, now, returned) =>
      ClosingWentRight(s, CancelledByOwner(s, a, now, returned), a, Release(a, owner, TookEffect(returned)));
    case Settle(a, rows, refused, submission, paid) => SettlementWentRight(s, m, a, rows, refused, submission, paid);
    case _ =>
  }

  /** Over every run the token of a bought auction went to the buyer, and that of one recorded as returned to its owner. */
  lemma {:induction false} TokenWentRight(states: seq<Db>, m: Market, acts: seq<Action>, i: nat)
    requires History(states, m, acts) && i < |states|
    ensures TokensWentRight(states[i])
  {
    if i > 0 {
      TokenWentRight(states, m, acts, i - 1);
      StepWentRight(states[i - 1], m, acts[i - 1]);
    }
  }
}
