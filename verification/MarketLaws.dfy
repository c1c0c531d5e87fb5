/** When each call of the contract succeeds, what it then does, and how calls undo each other or get in each other's way. */
module MarketLaws {
  import opened Common
  import opened MarketContract

  /** The order that the token's ask points at. */
  function OrderOf(c: Storage, t: Token): Order
    requires Indexed(c)
  {
    c.orders[AskOf(c, t)]
  }

  predicate InCustody(c: Storage, t: Token) {
    t in c.nftOwner && c.nftOwner[t] == MARKET
  }

  // ---------- NFTs in and out ----------

  /** An ask is taken exactly from the NFT's owner, with the market's approval; the NFT and a new active order go in. */
  lemma AddAskExactly(c: Storage, sender: EthAccount, price: nat, currency: EthAccount, t: Token, time: nat, approved: bool)
    requires Indexed(c)
    ensures var r := AddAsk(c, sender, price, currency, t, time, approved);
      && (r.Some? <==> t in c.nftOwner && c.nftOwner[t] == sender && approved)
      && (r.Some? ==>
            && InCustody(r.value, t) && r.value.nftOwner == c.nftOwner[t := MARKET]
            && Indexed(r.value) && OrderOf(r.value, t) == Order(t, currency, price, time, sender, 1)
            && |r.value.orders| == |c.orders| + 1 && r.value.orders[..|c.orders|] == c.orders
            && (forall u :: u != t ==> AskOf(r.value, u) == AskOf(c, u))
            && r.value.balanceKSM == c.balanceKSM && r.value.escrows == c.escrows)
  {
    if c' :| AddAsk(c, sender, price, currency, t, time, approved) == Some(c') {
      forall u ensures AskOf(c', u) == if u == t then |c.orders| else AskOf(c, u) {}
    }
  }

  /**
   * The owner of an active order, and nobody else, can cancel it, and gets the NFT back; in any reachable storage
   * nothing else is needed but that the owner is not the zero address.
   */
  lemma CancelAskExactly(c: Storage, sender: EthAccount, t: Token, time: nat)
    requires Custody(c)
    ensures var r, o := CancelAsk(c, sender, t, time), OrderOf(c, t);
      && (r.Some? <==> o.ownerAddr == sender && o.flagActive != 0 && sender != ZERO)
      && (r.Some? ==>
            && r.value.nftOwner == c.nftOwner[t := sender]
            && r.value.orders == c.orders[AskOf(c, t) := o.(time := time, flagActive := 0)]
            && r.value.asks == c.asks && r.value.balanceKSM == c.balanceKSM && r.value.escrows == c.escrows)
  {
    var o := OrderOf(c, t);
    if o.flagActive != 0 {
      assert o.token == t;
    }
  }

  /** Without the custody invariant, too: a cancellation that succeeds gives the NFT to the sender, who owns the order. */
  lemma CancelledGoesBack(c: Storage, sender: EthAccount, t: Token, time: nat)
    requires Indexed(c) && CancelAsk(c, sender, t, time).Some?
    ensures var c' := CancelAsk(c, sender, t, time).value;
      && OrderOf(c, t).ownerAddr == sender && OrderOf(c, t).flagActive != 0
      && c'.nftOwner == c.nftOwner[t := sender]
      && c'.orders[AskOf(c, t)].flagActive == 0
      && c'.asks == c.asks && c'.balanceKSM == c.balanceKSM && c'.escrows == c.escrows
  {}

  /** Listing and cancelling puts every NFT back where it was, and leaves all balances alone. */
  lemma CancelUndoesAdd(c: Storage, sender: EthAccount, price: nat, currency: EthAccount, t: Token, time: nat, later: nat)
    requires Custody(c) && sender != MARKET && sender != ZERO && t in c.nftOwner && c.nftOwner[t] == sender
    ensures var listed := AddAsk(c, sender, price, currency, t, time, true);
      listed.Some? && Indexed(listed.value) &&
      var back := CancelAsk(listed.value, sender, t, later);
      && back.Some? && back.value.nftOwner == c.nftOwner && back.value.balanceKSM == c.balanceKSM
      && forall k :: 0 <= k < |back.value.orders| && back.value.orders[k].flagActive != 0 ==>
           k < |c.orders| && back.value.orders[k] == c.orders[k]
  {
    AddAskExactly(c, sender, price, currency, t, time, true);
    var listed := AddAsk(c, sender, price, currency, t, time, true).value;
    AddAskKeeps(c, sender, price, currency, t, time, true);
    CancelAskExactly(listed, sender, t, later);
    assert c.nftOwner[t := MARKET][t := sender] == c.nftOwner;
  }

  /**
   * Whether a purchase goes through: the caller may act for the buyer, the buyer can pay, the seller's balance does
   * not overflow, and the market has the NFT. The order's flag plays no part.
   */
  lemma PurchaseExactly(c: Storage, sender: EthAccount, t: Token, buyer: EthAccount, receiver: EthAccount)
    requires Indexed(c)
    ensures var r, o := BuyKSM(c, sender, t, buyer, receiver), OrderOf(c, t);
      && (r.Some? <==>
            && (sender in c.escrows || sender == buyer)
            && Balance(c, buyer) >= o.price
            && Balance(c, o.ownerAddr) + (if buyer == o.ownerAddr then 0 else o.price) <= MAX_UINT256
            && InCustody(c, t) && receiver != ZERO)
      && (r.Some? ==>
            r.value.nftOwner == c.nftOwner[t := receiver] && r.value.escrows == c.escrows && r.value.asks == c.asks)
  {}

  /** Editing keeps the NFT, the order's place and its owner, and a price or currency given as zero. */
  lemma EditAskExactly(c: Storage, sender: EthAccount, price: nat, currency: EthAccount, t: Token, active: nat, time: nat)
    requires Indexed(c)
    ensures var r, o := EditAsk(c, sender, price, currency, t, active, time), OrderOf(c, t);
      && (r.Some? <==> o.ownerAddr == sender && o.flagActive != 0)
      && (r.Some? ==>
            && r.value.(orders := c.orders) == c && |r.value.orders| == |c.orders|
            && (forall k :: 0 <= k < |c.orders| && k != AskOf(c, t) ==> r.value.orders[k] == c.orders[k])
            && var o' := r.value.orders[AskOf(c, t)];
               && o'.token == o.token && o'.ownerAddr == o.ownerAddr
               && (price > 0 ==> o'.price == price) && (price == 0 ==> o'.price == o.price)
               && (currency != ZERO ==> o'.currencyCode == currency)
               && (currency == ZERO ==> o'.currencyCode == o.currencyCode)
               && o'.time == time && o'.flagActive == active)
  {}

  /** Outside the market an NFT moves as its owner likes; one in custody moves by the market's calls alone. */
  lemma OutsideExactly(c: Storage, t: Token, to: EthAccount)
    ensures MovedOutside(c, t, to).Some? <==> !InCustody(c, t)
    ensures MovedOutside(c, t, to).Some? ==> MovedOutside(c, t, to).value == c.(nftOwner := c.nftOwner[t := to])
  {}

  // ---------- balances ----------

  /** A call leaves everything but balances as it was. */
  predicate OnlyBalances(c: Storage, c': Storage) {
    c' == c.(balanceKSM := c'.balanceKSM)
  }

  /** An escrow, and nobody else, adds to one account's balance unless that overflows, and takes from it what is there. */
  lemma EscrowMovesBalance(c: Storage, sender: EthAccount, amount: nat, x: EthAccount)
    ensures var r := DepositKSM(c, sender, amount, x);
      && (r.Some? <==> sender in c.escrows && Balance(c, x) + amount <= MAX_UINT256)
      && (r.Some? ==>
            OnlyBalances(c, r.value) && forall y :: Balance(r.value, y) == Balance(c, y) + if y == x then amount else 0)
    ensures var r := WithdrawKSM(c, sender, amount, x);
      && (r.Some? <==> sender in c.escrows && amount <= Balance(c, x))
      && (r.Some? ==>
            OnlyBalances(c, r.value) && forall y :: Balance(r.value, y) == Balance(c, y) - if y == x then amount else 0)
  {}

  /** A deposit and a withdrawal of the same amount leave every balance as it was. */
  lemma WithdrawUndoesDeposit(c: Storage, sender: EthAccount, amount: nat, x: EthAccount)
    requires DepositKSM(c, sender, amount, x).Some?
    ensures var r := WithdrawKSM(DepositKSM(c, sender, amount, x).value, sender, amount, x);
      r.Some? && OnlyBalances(c, r.value) && forall y :: Balance(r.value, y) == Balance(c, y)
  {
    EscrowMovesBalance(c, sender, amount, x);
    EscrowMovesBalance(DepositKSM(c, sender, amount, x).value, sender, amount, x);
  }

  /** The owner of a balance or an escrow empties it, and no other. */
  lemma WithdrawAllExactly(c: Storage, sender: EthAccount, x: EthAccount)
    ensures var r := WithdrawAllKSM(c, sender, x);
      && (r.Some? <==> sender in c.escrows || sender == x)
      && (r.Some? ==>
            OnlyBalances(c, r.value) && Balance(r.value, x) == 0 &&
            forall y :: y != x ==> Balance(r.value, y) == Balance(c, y))
  {}

  /** Only `setEscrow` changes who is an escrow, and it changes one account and nothing else. */
  lemma EscrowsChangeOneAtATime(c: Storage, call: Call)
    requires Indexed(c)
    ensures !call.SetEscrow? ==> After(c, call).escrows == c.escrows
    ensures call.SetEscrow? ==>
      && After(c, call).(escrows := c.escrows) == c
      && forall x :: x in After(c, call).escrows <==> if x == call.account then call.state else x in c.escrows
  {}

  // ---------- a deactivated order ----------

  /** The market holds the NFT, but its order is switched off. */
  ghost predicate Stranded(c: Storage, t: Token) {
    && Custody(c) && InCustody(c, t) && OrderOf(c, t).token == t && OrderOf(c, t).flagActive == 0
  }

  /** Who deactivates an ask by editing it strands the NFT. */
  lemma EditCanStrand(c: Storage, sender: EthAccount, price: nat, currency: EthAccount, t: Token, time: nat)
    requires Custody(c) && OrderOf(c, t).ownerAddr == sender && OrderOf(c, t).flagActive != 0
    ensures var r := EditAsk(c, sender, price, currency, t, 0, time); r.Some? && Stranded(r.value, t)
  {
    var c' := EditAsk(c, sender, price, currency, t, 0, time).value;
    OrderRewriteKeeps(c, t, c'.orders[AskOf(c, t)]);
    assert OrderOf(c, t).token == t;
    forall u ensures AskOf(c', u) == AskOf(c, u) {}
  }

  /**
   * A stranded NFT leaves the market by a purchase and by no other call: its owner can neither cancel nor reactivate
   * nor list it again.
   */
  lemma StrandedUnlessBought(c: Storage, call: Call, t: Token)
    requires Stranded(c, t) && FromOutside(call)
    ensures Custody(After(c, call))
    ensures Stranded(After(c, call), t) || (call.CallBuy? && call.t == t)
    ensures call.CallBuy? && call.t == t && After(c, call) != c ==> After(c, call).nftOwner[t] == call.receiver
    ensures !(call.CallBuy? && call.t == t) ==> OrderOf(After(c, call), t) == OrderOf(c, t)
  {
    CallKeepsCustody(c, call);
    var c' := After(c, call);
    if !(call.CallBuy? && call.t == t) && c' != c {
      assert AskOf(c', t) == AskOf(c, t);
      assert AskOf(c, t) != 0 ==> OrderOf(c, t).token == t;
      assert c'.orders[AskOf(c, t)] == c.orders[AskOf(c, t)] by {
        OtherCallsKeepOrder(c, call, t);
      }
    }
  }

  /** The owner gets a stranded NFT back by buying it from themselves, exactly when they could pay its price. */
  lemma OwnerBuysBackIff(c: Storage, t: Token)
    requires Stranded(c, t) && OrderOf(c, t).ownerAddr != ZERO && Balance(c, OrderOf(c, t).ownerAddr) <= MAX_UINT256
    ensures var o := OrderOf(c, t);
      var r := BuyKSM(c, o.ownerAddr, t, o.ownerAddr, o.ownerAddr);
      && (r.Some? <==> Balance(c, o.ownerAddr) >= o.price)
      && (r.Some? ==> r.value.nftOwner == c.nftOwner[t := o.ownerAddr]
                      && forall x :: Balance(r.value, x) == Balance(c, x))
  {
    var o := OrderOf(c, t);
    PurchaseExactly(c, o.ownerAddr, t, o.ownerAddr, o.ownerAddr);
    if BuyKSM(c, o.ownerAddr, t, o.ownerAddr, o.ownerAddr).Some? {
      PurchaseMovesPrice(c, o.ownerAddr, t, o.ownerAddr, o.ownerAddr);
    }
  }

  /** No call but one on its own token touches an inactive order. */
  lemma OtherCallsKeepOrder(c: Storage, call: Call, t: Token)
    requires Stranded(c, t) && FromOutside(call) && !(call.CallBuy? && call.t == t)
    ensures var c' := After(c, call);
      && AskOf(c', t) == AskOf(c, t) && AskOf(c, t) < |c'.orders| && c'.orders[AskOf(c, t)] == c.orders[AskOf(c, t)]
      && InCustody(c', t)
  {}

  /** Over every sequence of calls without a purchase of it, a stranded NFT stays where it is. */
  lemma {:induction false} StrandedForGood(c: Storage, calls: seq<Call>, t: Token)
    requires Stranded(c, t)
    requires forall i :: 0 <= i < |calls| ==> FromOutside(calls[i]) && !(calls[i].CallBuy? && calls[i].t == t)
    ensures Stranded(AfterAll(c, calls), t) && OrderOf(AfterAll(c, calls), t) == OrderOf(c, t)
    decreases |calls|
  {
    if calls != [] {
      StrandedUnlessBought(c, calls[0], t);
      StrandedForGood(After(c, calls[0]), calls[1..], t);
    }
  }
}
