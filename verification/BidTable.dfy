/** The `auction_bids` table and the grouped queries the auction services run over it. */
module BidTable {
  import opened Common

  datatype BidStatus = ErrorBid | CreatedBid | Minting | Finished

  /** One row; its position in the table is its id. A withdrawal is a row with a negative amount. */
  datatype Bid = Bid(auctionId: nat, bidder: Address, amount: int, balance: int, status: BidStatus)

  datatype BidsFilter = BidsFilter(auctionId: nat, bidStatuses: Option<set<BidStatus>>, bidderAddress: Option<Address>)

  datatype AggregatedBid = AggregatedBid(bidderAddress: Address, totalAmount: int)

  predicate Matches(b: Bid, f: BidsFilter) {
    && b.auctionId == f.auctionId
    && (f.bidStatuses.Some? ==> b.status in f.bidStatuses.value)
    && (f.bidderAddress.Some? ==> b.bidder == f.bidderAddress.value)
  }

  /** Rows that count toward a bidder's pending total. */
  function Pending(auctionId: nat): BidsFilter {
    BidsFilter(auctionId, Some({Finished, Minting}), None)
  }

  /** Rows whose money has arrived. */
  function Actual(auctionId: nat): BidsFilter {
    BidsFilter(auctionId, Some({Finished}), None)
  }

  function Share(b: Bid, f: BidsFilter): int {
    if Matches(b, f) then b.amount else 0
  }

  predicate Counts(b: Bid, f: BidsFilter, w: Address) {
    Matches(b, f) && b.bidder == w
  }

  function ShareOf(b: Bid, f: BidsFilter, w: Address): int {
    if Counts(b, f, w) then b.amount else 0
  }

  /** The sum of all matching amounts. */
  function Sum(bids: seq<Bid>, f: BidsFilter): int {
    if bids == [] then 0 else Sum(bids[..|bids| - 1], f) + Share(bids[|bids| - 1], f)
  }

  /** The sum of one bidder's matching amounts. */
  function Total(bids: seq<Bid>, f: BidsFilter, w: Address): int {
    if bids == [] then 0 else Total(bids[..|bids| - 1], f, w) + ShareOf(bids[|bids| - 1], f, w)
  }

  /** The number of one bidder's matching rows. */
  function Rows(bids: seq<Bid>, f: BidsFilter, w: Address): nat {
    if bids == [] then 0 else Rows(bids[..|bids| - 1], f, w) + if Counts(bids[|bids| - 1], f, w) then 1 else 0
  }

  ghost predicate HasRow(bids: seq<Bid>, f: BidsFilter) {
    exists w :: Rows(bids, f, w) > 0
  }

  /** `w` holds the highest total among the bidders that have a matching row. */
  ghost predicate IsLeader(bids: seq<Bid>, f: BidsFilter, w: Address) {
    && Rows(bids, f, w) > 0
    && forall v :: Rows(bids, f, v) > 0 ==> Total(bids, f, v) <= Total(bids, f, w)
  }

  // ---------- sums under the two ways the table changes ----------

  lemma AppendTotals(bids: seq<Bid>, b: Bid)
    ensures forall f, w :: Total(bids + [b], f, w) == Total(bids, f, w) + ShareOf(b, f, w)
    ensures forall f, w :: Rows(bids + [b], f, w) == Rows(bids, f, w) + if Counts(b, f, w) then 1 else 0
  {
    assert (bids + [b])[..|bids|] == bids;
  }

  lemma {:induction false} UpdateTotal(bids: seq<Bid>, i: nat, b: Bid, f: BidsFilter, w: Address)
    requires i < |bids|
    ensures Total(bids[i := b], f, w) == Total(bids, f, w) - ShareOf(bids[i], f, w) + ShareOf(b, f, w)
    ensures Rows(bids[i := b], f, w)
         == Rows(bids, f, w) - (if Counts(bids[i], f, w) then 1 else 0) + if Counts(b, f, w) then 1 else 0
  {
    var n := |bids| - 1;
    if i == n {
      assert bids[i := b][..n] == bids[..n];
    } else {
      assert bids[i := b][..n] == bids[..n][i := b];
      UpdateTotal(bids[..n], i, b, f, w);
    }
  }

  lemma UpdateTotals(bids: seq<Bid>, i: nat, b: Bid)
    requires i < |bids|
    ensures forall f, w :: Total(bids[i := b], f, w) == Total(bids, f, w) - ShareOf(bids[i], f, w) + ShareOf(b, f, w)
    ensures forall f, w ::
      (Rows(bids[i := b], f, w)
       == Rows(bids, f, w) - (if Counts(bids[i], f, w) then 1 else 0) + if Counts(b, f, w) then 1 else 0)
  {
    forall f, w
      ensures Total(bids[i := b], f, w) == Total(bids, f, w) - ShareOf(bids[i], f, w) + ShareOf(b, f, w)
      ensures Rows(bids[i := b], f, w)
           == Rows(bids, f, w) - (if Counts(bids[i], f, w) then 1 else 0) + if Counts(b, f, w) then 1 else 0
    {
      UpdateTotal(bids, i, b, f, w);
    }
  }

  lemma {:induction false} NoRowsNoTotal(bids: seq<Bid>, f: BidsFilter, w: Address)
    ensures Rows(bids, f, w) == 0 ==> Total(bids, f, w) == 0
  {
    if bids != [] {
      NoRowsNoTotal(bids[..|bids| - 1], f, w);
    }
  }

  lemma {:induction false} RowIsCounted(bids: seq<Bid>, f: BidsFilter, w: Address, i: nat)
    requires i < |bids| && Counts(bids[i], f, w)
    ensures Rows(bids, f, w) > 0
  {
    if i < |bids| - 1 {
      RowIsCounted(bids[..|bids| - 1], f, w, i);
    }
  }

  lemma {:induction false} CountedRow(bids: seq<Bid>, f: BidsFilter, w: Address) returns (i: nat)
    requires Rows(bids, f, w) > 0
    ensures i < |bids| && Counts(bids[i], f, w)
  {
    i := |bids| - 1;
    if !Counts(bids[i], f, w) {
      i := CountedRow(bids[..i], f, w);
    }
  }

  // ---------- the grouped query ----------

  /**
   * What `SELECT SUM(amount), bidder ... GROUP BY bidder ORDER BY 1 DESC` promises. The order of rows
   * with equal totals is left to the database, so several results can qualify.
   */
  ghost predicate IsGrouping(rows: seq<AggregatedBid>, bids: seq<Bid>, f: BidsFilter) {
    && (forall i, j :: 0 <= i < j < |rows| ==> rows[i].bidderAddress != rows[j].bidderAddress)
    && (forall i, j :: 0 <= i < j < |rows| ==> rows[i].totalAmount >= rows[j].totalAmount)
    && (forall i :: 0 <= i < |rows| ==>
      && Rows(bids, f, rows[i].bidderAddress) > 0
      && rows[i].totalAmount == Total(bids, f, rows[i].bidderAddress))
    && (forall w :: Rows(bids, f, w) > 0 ==> Lists(rows, w))
  }

  ghost predicate Lists(rows: seq<AggregatedBid>, w: Address) {
    exists i :: 0 <= i < |rows| && rows[i].bidderAddress == w
  }

  function SumOfTotals(rows: seq<AggregatedBid>): int {
    if rows == [] then 0 else rows[0].totalAmount + SumOfTotals(rows[1..])
  }

  /** The first row of any grouping is a leader, and every leader's total is that row's. */
  lemma FirstRowLeads(rows: seq<AggregatedBid>, bids: seq<Bid>, f: BidsFilter)
    requires IsGrouping(rows, bids, f)
    ensures rows == [] <==> !HasRow(bids, f)
    ensures rows != [] ==> IsLeader(bids, f, rows[0].bidderAddress)
    ensures forall w :: IsLeader(bids, f, w) ==> rows != [] && Total(bids, f, w) == rows[0].totalAmount
  {
    if HasRow(bids, f) {
      var w :| Rows(bids, f, w) > 0;
      assert Lists(rows, w);
    }
    if rows != [] {
      assert Rows(bids, f, rows[0].bidderAddress) > 0;
      forall v | Rows(bids, f, v) > 0 ensures Total(bids, f, v) <= rows[0].totalAmount {
        assert Lists(rows, v);
      }
    }
  }

  function TotalsOver(bids: seq<Bid>, f: BidsFilter, rows: seq<AggregatedBid>): int {
    if rows == [] then 0 else Total(bids, f, rows[0].bidderAddress) + TotalsOver(bids, f, rows[1..])
  }

  lemma {:induction false} TotalsOverAppend(bids: seq<Bid>, b: Bid, f: BidsFilter, rows: seq<AggregatedBid>)
    requires forall i, j :: 0 <= i < j < |rows| ==> rows[i].bidderAddress != rows[j].bidderAddress
    ensures TotalsOver(bids + [b], f, rows)
         == TotalsOver(bids, f, rows) + if Lists(rows, b.bidder) then Share(b, f) else 0
  {
    AppendTotals(bids, b);
    if rows != [] {
      TotalsOverAppend(bids, b, f, rows[1..]);
      assert Lists(rows, b.bidder) <==> rows[0].bidderAddress == b.bidder || Lists(rows[1..], b.bidder) by {
        if Lists(rows, b.bidder) {
          var i :| 0 <= i < |rows| && rows[i].bidderAddress == b.bidder;
          assert i > 0 ==> rows[1..][i - 1].bidderAddress == b.bidder;
        }
      }
    }
  }

  lemma {:induction false} TotalsOverEmpty(f: BidsFilter, rows: seq<AggregatedBid>)
    ensures TotalsOver([], f, rows) == 0
  {
    if rows != [] {
      TotalsOverEmpty(f, rows[1..]);
    }
  }

  lemma {:induction false} TotalsOverIsSum(bids: seq<Bid>, f: BidsFilter, rows: seq<AggregatedBid>)
    requires forall i, j :: 0 <= i < j < |rows| ==> rows[i].bidderAddress != rows[j].bidderAddress
    requires forall i :: 0 <= i < |bids| && Matches(bids[i], f) ==> Lists(rows, bids[i].bidder)
    ensures TotalsOver(bids, f, rows) == Sum(bids, f)
  {
    if bids == [] {
      TotalsOverEmpty(f, rows);
    } else {
      var n := |bids| - 1;
      TotalsOverIsSum(bids[..n], f, rows);
      TotalsOverAppend(bids[..n], bids[n], f, rows);
      assert bids == bids[..n] + [bids[n]];
    }
  }

  lemma {:induction false} SumOfTotalsOver(rows: seq<AggregatedBid>, bids: seq<Bid>, f: BidsFilter)
    requires forall i :: 0 <= i < |rows| ==> rows[i].totalAmount == Total(bids, f, rows[i].bidderAddress)
    ensures SumOfTotals(rows) == TotalsOver(bids, f, rows)
  {
    if rows != [] {
      SumOfTotalsOver(rows[1..], bids, f);
    }
  }

  /** Grouping loses no money: the totals of the rows add up to the sum of every matching amount. */
  lemma GroupingConserves(rows: seq<AggregatedBid>, bids: seq<Bid>, f: BidsFilter)
    requires IsGrouping(rows, bids, f)
    ensures SumOfTotals(rows) == Sum(bids, f)
  {
    SumOfTotalsOver(rows, bids, f);
    forall i | 0 <= i < |bids| && Matches(bids[i], f) ensures Lists(rows, bids[i].bidder) {
      RowIsCounted(bids, f, bids[i].bidder, i);
    }
    TotalsOverIsSum(bids, f, rows);
  }

  // ---------- computing a grouping ----------

  function InsertRow(rows: seq<AggregatedBid>, r: AggregatedBid): seq<AggregatedBid> {
    if rows == [] then [r]
    else if r.totalAmount > rows[0].totalAmount then [r] + rows
    else [rows[0]] + InsertRow(rows[1..], r)
  }

  function RemoveRow(rows: seq<AggregatedBid>, w: Address): seq<AggregatedBid> {
    if rows == [] then []
    else if rows[0].bidderAddress == w then rows[1..]
    else [rows[0]] + RemoveRow(rows[1..], w)
  }

  /** One way to run the query: keep the groups sorted while reading the table row by row. */
  function Group(bids: seq<Bid>, f: BidsFilter): seq<AggregatedBid> {
    if bids == [] then []
    else
      var n := |bids| - 1;
      var b := bids[n];
      if Matches(b, f) then
        InsertRow(RemoveRow(Group(bids[..n], f), b.bidder), AggregatedBid(b.bidder, Total(bids, f, b.bidder)))
      else Group(bids[..n], f)
  }

  /** Distinct bidders in descending order of total. */
  ghost predicate Ordered(rows: seq<AggregatedBid>) {
    && (forall i, j :: 0 <= i < j < |rows| ==> rows[i].bidderAddress != rows[j].bidderAddress)
    && (forall i, j :: 0 <= i < j < |rows| ==> rows[i].totalAmount >= rows[j].totalAmount)
  }

  lemma {:induction false} RemoveRowRemoves(rows: seq<AggregatedBid>, w: Address)
    requires Ordered(rows)
    ensures Ordered(RemoveRow(rows, w))
    ensures forall r :: r in RemoveRow(rows, w) <==> r in rows && r.bidderAddress != w
  {
    if rows != [] {
      RemoveRowRemoves(rows[1..], w);
      assert rows == [rows[0]] + rows[1..];
      if rows[0].bidderAddress != w {
        assert forall r :: r in RemoveRow(rows, w) <==> r == rows[0] || r in RemoveRow(rows[1..], w);
        OrderedCons(rows[0], RemoveRow(rows[1..], w));
      }
    }
  }

  lemma {:induction false} InsertRowInserts(rows: seq<AggregatedBid>, r: AggregatedBid)
    requires Ordered(rows) && forall x :: x in rows ==> x.bidderAddress != r.bidderAddress
    ensures Ordered(InsertRow(rows, r))
    ensures forall x :: x in InsertRow(rows, r) <==> x == r || x in rows
  {
    if rows != [] {
      assert rows == [rows[0]] + rows[1..];
      if r.totalAmount > rows[0].totalAmount {
        OrderedCons(r, rows);
      } else {
        InsertRowInserts(rows[1..], r);
        assert forall x :: x in InsertRow(rows, r) <==> x == rows[0] || x in InsertRow(rows[1..], r);
        OrderedCons(rows[0], InsertRow(rows[1..], r));
      }
    }
  }

  lemma OrderedCons(r: AggregatedBid, rows: seq<AggregatedBid>)
    requires Ordered(rows)
    requires forall x :: x in rows ==> x.bidderAddress != r.bidderAddress && x.totalAmount <= r.totalAmount
    ensures Ordered([r] + rows)
  {
    assert forall i :: 0 <= i < |rows| ==> rows[i] in rows;
  }

  lemma {:induction false} GroupRows(bids: seq<Bid>, f: BidsFilter)
    ensures Ordered(Group(bids, f))
    ensures forall r :: r in Group(bids, f) <==>
      Rows(bids, f, r.bidderAddress) > 0 && r.totalAmount == Total(bids, f, r.bidderAddress)
  {
    if bids != [] {
      var n := |bids| - 1;
      var b := bids[n];
      GroupRows(bids[..n], f);
      if Matches(b, f) {
        var rest := RemoveRow(Group(bids[..n], f), b.bidder);
        RemoveRowRemoves(Group(bids[..n], f), b.bidder);
        InsertRowInserts(rest, AggregatedBid(b.bidder, Total(bids, f, b.bidder)));
      }
    }
  }

  lemma GroupIsGrouping(bids: seq<Bid>, f: BidsFilter)
    ensures IsGrouping(Group(bids, f), bids, f)
  {
    GroupRows(bids, f);
    var rows := Group(bids, f);
    assert forall i :: 0 <= i < |rows| ==> rows[i] in rows;
    forall w | Rows(bids, f, w) > 0 ensures Lists(rows, w) {
      assert AggregatedBid(w, Total(bids, f, w)) in rows;
    }
  }

  // ---------- the highest total ----------

  /** The highest total among the bidders with a matching row, or `default` when there is none. */
  function LeadingTotal(bids: seq<Bid>, f: BidsFilter, default: int): int {
    var rows := Group(bids, f);
    if rows == [] then default else rows[0].totalAmount
  }

  /** `LeadingTotal` is what its name says, whichever leader is asked. */
  lemma LeadingTotalIs(bids: seq<Bid>, f: BidsFilter, default: int)
    ensures forall w :: IsLeader(bids, f, w) ==> LeadingTotal(bids, f, default) == Total(bids, f, w)
    ensures HasRow(bids, f) ==> exists w :: IsLeader(bids, f, w)
    ensures !HasRow(bids, f) ==> LeadingTotal(bids, f, default) == default
  {
    GroupIsGrouping(bids, f);
    FirstRowLeads(Group(bids, f), bids, f);
  }

  lemma LeadingTotalSame(bids: seq<Bid>, bids': seq<Bid>, f: BidsFilter, default: int)
    requires forall w :: Rows(bids, f, w) == Rows(bids', f, w) && Total(bids, f, w) == Total(bids', f, w)
    ensures LeadingTotal(bids, f, default) == LeadingTotal(bids', f, default)
    ensures HasRow(bids, f) == HasRow(bids', f)
  {
    LeadingTotalIs(bids, f, default);
    LeadingTotalIs(bids', f, default);
    if HasRow(bids, f) {
      var w :| IsLeader(bids, f, w);
      assert Rows(bids', f, w) > 0;
      assert IsLeader(bids', f, w);
    }
  }

  // ---------- the queries the services call ----------

  /** `getAuctionAggregatedBids`. Callers learn only what the query promises, not how ties are ordered. */
  method AggregatedBids(bids: seq<Bid>, f: BidsFilter) returns (rows: seq<AggregatedBid>)
    ensures IsGrouping(rows, bids, f)
  {
    GroupIsGrouping(bids, f);
    rows := Group(bids, f);
  }

  /** `getAggregatedBid`: the first row of the grouped query, if there is one. */
  method FirstAggregatedBid(bids: seq<Bid>, f: BidsFilter) returns (r: Option<AggregatedBid>)
    ensures r.None? <==> !HasRow(bids, f)
    ensures r.Some? ==> IsLeader(bids, f, r.value.bidderAddress)
    ensures r.Some? ==> r.value.totalAmount == Total(bids, f, r.value.bidderAddress)
  {
    var rows := AggregatedBids(bids, f);
    FirstRowLeads(rows, bids, f);
    r := if rows == [] then None else Some(rows[0]);
  }

  /** `getUserPendingSum` and `getUserActualSum`: the single group's total, or zero when there is no row. */
  method UserSum(bids: seq<Bid>, f: BidsFilter, w: Address) returns (sum: int)
    requires f.bidderAddress.None?
    ensures sum == Total(bids, f, w)
  {
    var own := f.(bidderAddress := Some(w));
    var row := FirstAggregatedBid(bids, own);
    sum := match row case Some(r) => r.totalAmount case None => 0;
    OwnFilter(bids, f, w);
    if row.Some? {
      if row.value.bidderAddress != w {
        OwnFilterOthers(bids, f, w, row.value.bidderAddress);
      }
    } else {
      assert Rows(bids, own, w) == 0;
      NoRowsNoTotal(bids, f, w);
    }
  }

  lemma {:induction false} OwnFilter(bids: seq<Bid>, f: BidsFilter, w: Address)
    requires f.bidderAddress.None?
    ensures Total(bids, f.(bidderAddress := Some(w)), w) == Total(bids, f, w)
    ensures Rows(bids, f.(bidderAddress := Some(w)), w) == Rows(bids, f, w)
  {
    if bids != [] {
      OwnFilter(bids[..|bids| - 1], f, w);
    }
  }

  lemma {:induction false} OwnFilterOthers(bids: seq<Bid>, f: BidsFilter, w: Address, v: Address)
    requires v != w
    ensures Rows(bids, f.(bidderAddress := Some(w)), v) == 0
  {
    if bids != [] {
      OwnFilterOthers(bids[..|bids| - 1], f, w, v);
    }
  }
}
