/** The market's Solidity contract: orders, KSM balances and custody of the NFTs on sale. */
module MarketContract {
  import opened Common

  /** An EVM account: the mirror of a substrate account (an injective map) or a native one. */
  datatype EthAccount = Mirror(sub: Address) | Native(id: nat)

  const ZERO := Native(0)
  const MARKET := Native(1)

  const MAX_UINT256: nat := 0xffffffff_ffffffff_ffffffff_ffffffff_ffffffff_ffffffff_ffffffff_ffffffff

  datatype Token = Token(collection: nat, id: nat)

  datatype Order = Order(token: Token, currencyCode: EthAccount, price: nat, time: nat, ownerAddr: EthAccount,
      flagActive: nat)

  /** Contract storage, and the owners of the NFTs as their collections report them. */
  datatype Storage = Storage(
    orders: seq<Order>,
    asks: map<Token, nat>,
    balanceKSM: map<EthAccount, nat>,
    escrows: set<EthAccount>,
    nftOwner: map<Token, EthAccount>)

  /** The constructor pushes an inactive order so that a missing ask points at it. */
  const NO_ORDER := Order(Token(0, 0), ZERO, 0, 0, ZERO, 0)

  const DEPLOYED := Storage([NO_ORDER], map[], map[], {}, map[])

  function AskOf(c: Storage, t: Token): nat {
    if t in c.asks then c.asks[t] else 0
  }

  function Get(m: map<EthAccount, nat>, x: EthAccount): nat {
    if x in m then m[x] else 0
  }

  function Balance(c: Storage, x: EthAccount): nat {
    Get(c.balanceKSM, x)
  }

  /** `asks` always points into `orders`, so reading through it cannot fail. */
  ghost predicate Indexed(c: Storage) {
    forall t :: AskOf(c, t) < |c.orders|
  }

  // ---------- the calls; None is a revert ----------

  /** ERC721 `transferFrom` by the market: the NFT must belong to `from` and may not go to the zero address. */
  function Moved(c: Storage, from: EthAccount, to: EthAccount, t: Token): Option<Storage> {
    if t in c.nftOwner && c.nftOwner[t] == from && to != ZERO then Some(c.(nftOwner := c.nftOwner[t := to])) else None
  }

  /** `approved`: the seller has allowed the market to take the NFT. */
  function AddAsk(c: Storage, sender: EthAccount, price: nat, currency: EthAccount, t: Token, time: nat,
                  approved: bool): Option<Storage>
  {
    if t in c.nftOwner && c.nftOwner[t] == sender && approved then
      Moved(c.(orders := c.orders + [Order(t, currency, price, time, sender, 1)], asks := c.asks[t := |c.orders|]),
            sender, MARKET, t)
    else None
  }

  function EditAsk(c: Storage, sender: EthAccount, price: nat, currency: EthAccount, t: Token, active: nat,
                   time: nat): Option<Storage>
    requires AskOf(c, t) < |c.orders|
  {
    var k := AskOf(c, t);
    var o := c.orders[k];
    if o.ownerAddr != sender || o.flagActive == 0 then None
    else Some(c.(orders := c.orders[k := o.(
      price := if price > 0 then price else o.price,
      currencyCode := if currency != ZERO then currency else o.currencyCode,
      time := time,
      flagActive := active)]))
  }

  function CancelAsk(c: Storage, sender: EthAccount, t: Token, time: nat): Option<Storage>
    requires AskOf(c, t) < |c.orders|
  {
    var k := AskOf(c, t);
    var o := c.orders[k];
    if o.ownerAddr != sender || o.flagActive == 0 then None
    else Moved(c.(orders := c.orders[k := o.(time := time, flagActive := 0)]), MARKET, o.ownerAddr, t)
  }

  /** SafeMath `add` and `sub` on one balance. */
  function Credited(c: Storage, x: EthAccount, amount: nat): Option<Storage> {
    if Balance(c, x) + amount > MAX_UINT256 then None
    else Some(c.(balanceKSM := c.balanceKSM[x := Balance(c, x) + amount]))
  }

  function Debited(c: Storage, x: EthAccount, amount: nat): Option<Storage> {
    if Balance(c, x) < amount then None
    else Some(c.(balanceKSM := c.balanceKSM[x := Balance(c, x) - amount]))
  }

  function DepositKSM(c: Storage, sender: EthAccount, amount: nat, x: EthAccount): Option<Storage> {
    if sender in c.escrows then Credited(c, x, amount) else None
  }

  function WithdrawKSM(c: Storage, sender: EthAccount, amount: nat, x: EthAccount): Option<Storage> {
    if sender in c.escrows then Debited(c, x, amount) else None
  }

  function WithdrawAllKSM(c: Storage, sender: EthAccount, x: EthAccount): Option<Storage> {
    if sender in c.escrows || sender == x then Some(c.(balanceKSM := c.balanceKSM[x := 0])) else None
  }

  /** The price leaves the buyer before it reaches the seller, who may be the same account. */
  function PaidOver(c: Storage, buyer: EthAccount, seller: EthAccount, price: nat): Option<Storage> {
    match Debited(c, buyer, price)
    case None => None
    case Some(debited) => Credited(debited, seller, price)
  }

  /** The order is closed and paid whatever its flag; only custody of the NFT decides. */
  function BuyKSM(c: Storage, sender: EthAccount, t: Token, buyer: EthAccount, receiver: EthAccount): Option<Storage>
    requires AskOf(c, t) < |c.orders|
  {
    var k := AskOf(c, t);
    var o := c.orders[k];
    if sender !in c.escrows && sender != buyer then None
    else match PaidOver(c, buyer, o.ownerAddr, o.price)
      case None => None
      case Some(paid) => Moved(paid.(orders := paid.orders[k := o.(flagActive := 0)]), MARKET, receiver, t)
  }

  /** A transfer of an NFT that is not in the market's custody, or a mint. */
  function MovedOutside(c: Storage, t: Token, to: EthAccount): Option<Storage> {
    if t in c.nftOwner && c.nftOwner[t] == MARKET then None else Some(c.(nftOwner := c.nftOwner[t := to]))
  }

  // ---------- every call as one step ----------

  datatype Call =
    | CallAddAsk(sender: EthAccount, price: nat, currency: EthAccount, t: Token, time: nat, approved: bool)
    | CallEditAsk(sender: EthAccount, price: nat, currency: EthAccount, t: Token, active: nat, time: nat)
    | CallCancelAsk(sender: EthAccount, t: Token, time: nat)
    | CallDeposit(sender: EthAccount, amount: nat, x: EthAccount)
    | CallWithdraw(sender: EthAccount, amount: nat, x: EthAccount)
    | CallWithdrawAll(sender: EthAccount, x: EthAccount)
    | CallBuy(sender: EthAccount, t: Token, buyer: EthAccount, receiver: EthAccount)
    | SetEscrow(account: EthAccount, state: bool)
    | NftMovedOutside(t: Token, to: EthAccount)

  /** The storage after a call; a reverted call changes nothing. */
  function After(c: Storage, call: Call): Storage
    requires Indexed(c)
  {
    var r := match call
      case CallAddAsk(sender, price, currency, t, time, approved) => AddAsk(c, sender, price, currency, t, time, approved)
      case CallEditAsk(sender, price, currency, t, active, time) => EditAsk(c, sender, price, currency, t, active, time)
      case CallCancelAsk(sender, t, time) => CancelAsk(c, sender, t, time)
      case CallDeposit(sender, amount, x) => DepositKSM(c, sender, amount, x)
      case CallWithdraw(sender, amount, x) => WithdrawKSM(c, sender, amount, x)
      case CallWithdrawAll(sender, x) => WithdrawAllKSM(c, sender, x)
      case CallBuy(sender, t, buyer, receiver) => BuyKSM(c, sender, t, buyer, receiver)
      case SetEscrow(account, state) =>
        Some(c.(escrows := if state then c.escrows + {account} else c.escrows - {account}))
      case NftMovedOutside(t, to) => MovedOutside(c, t, to);
    match r case Some(c') => c' case None => c
  }

  /**
   * Custody: an order that is active is the one its token's ask points at, and its NFT belongs to the market.
   */
  ghost predicate Custody(c: Storage) {
    && |c.orders| > 0 && c.orders[0].flagActive == 0
    && Indexed(c)
    && (forall t :: AskOf(c, t) != 0 ==> c.orders[AskOf(c, t)].token == t)
    && (forall k :: 0 <= k < |c.orders| && c.orders[k].flagActive != 0 ==>
          && AskOf(c, c.orders[k].token) == k
          && c.orders[k].token in c.nftOwner && c.nftOwner[c.orders[k].token] == MARKET)
  }

  /** The contract never calls itself, so no ask has the market as its sender. */
  predicate FromOutside(call: Call) {
    match call
    case CallAddAsk(sender, _, _, _, _, _) => sender != MARKET
    case _ => true
  }

  /** An NFT outside the market's custody has no active order. */
  lemma NothingOnSale(c: Storage, t: Token)
    requires Custody(c) && !(t in c.nftOwner && c.nftOwner[t] == MARKET)
    ensures forall k :: 0 <= k < |c.orders| && c.orders[k].token == t ==> c.orders[k].flagActive == 0
  {}

  lemma AddAskKeeps(c: Storage, sender: EthAccount, price: nat, currency: EthAccount, t: Token, time: nat, approved: bool)
    requires Custody(c) && sender != MARKET
    requires AddAsk(c, sender, price, currency, t, time, approved).Some?
    ensures Custody(AddAsk(c, sender, price, currency, t, time, approved).value)
  {
    var c' := AddAsk(c, sender, price, currency, t, time, approved).value;
    NothingOnSale(c, t);
    forall u ensures AskOf(c', u) == if u == t then |c.orders| else AskOf(c, u) {}
    forall u | AskOf(c', u) != 0 ensures c'.orders[AskOf(c', u)].token == u {
      assert u != t ==> AskOf(c, u) < |c.orders|;
    }
  }

  /** Closing or editing the order a token's ask points at. */
  lemma OrderRewriteKeeps(c: Storage, t: Token, o: Order)
    requires Custody(c) && o.token == c.orders[AskOf(c, t)].token
    requires o.flagActive != 0 ==> c.orders[AskOf(c, t)].flagActive != 0
    ensures Custody(c.(orders := c.orders[AskOf(c, t) := o]))
  {
    var c' := c.(orders := c.orders[AskOf(c, t) := o]);
    forall u ensures AskOf(c', u) == AskOf(c, u) {}
  }

  /** An NFT with no active order may leave the market. */
  lemma MoveKeeps(c: Storage, from: EthAccount, to: EthAccount, t: Token)
    requires Custody(c) && Moved(c, from, to, t).Some?
    requires forall k :: 0 <= k < |c.orders| && c.orders[k].token == t ==> c.orders[k].flagActive == 0
    ensures Custody(Moved(c, from, to, t).value)
  {
    var c' := Moved(c, from, to, t).value;
    forall u ensures AskOf(c', u) == AskOf(c, u) {}
  }

  lemma CancelAskKeeps(c: Storage, sender: EthAccount, t: Token, time: nat)
    requires Custody(c) && CancelAsk(c, sender, t, time).Some?
    ensures Custody(CancelAsk(c, sender, t, time).value)
  {
    var o := c.orders[AskOf(c, t)].(time := time, flagActive := 0);
    OrderRewriteKeeps(c, t, o);
    MoveKeeps(c.(orders := c.orders[AskOf(c, t) := o]), MARKET, o.ownerAddr, t);
  }

  lemma BalancesKeep(c: Storage, balances: map<EthAccount, nat>)
    requires Custody(c)
    ensures Custody(c.(balanceKSM := balances))
  {
    forall u ensures AskOf(c.(balanceKSM := balances), u) == AskOf(c, u) {}
  }

  lemma BuyKeeps(c: Storage, sender: EthAccount, t: Token, buyer: EthAccount, receiver: EthAccount)
    requires Custody(c) && BuyKSM(c, sender, t, buyer, receiver).Some?
    ensures Custody(BuyKSM(c, sender, t, buyer, receiver).value)
  {
    var k := AskOf(c, t);
    var o := c.orders[k];
    var paid := PaidOver(c, buyer, o.ownerAddr, o.price).value;
    BalancesKeep(c, paid.balanceKSM);
    OrderRewriteKeeps(paid, t, o.(flagActive := 0));
    MoveKeeps(paid.(orders := paid.orders[k := o.(flagActive := 0)]), MARKET, receiver, t);
  }

  lemma CallKeepsCustody(c: Storage, call: Call)
    requires Custody(c) && FromOutside(call)
    ensures Custody(After(c, call))
  {
    if After(c, call) != c {
      match call
      case CallAddAsk(sender, price, currency, t, time, approved) =>
        AddAskKeeps(c, sender, price, currency, t, time, approved);
      case CallEditAsk(sender, price, currency, t, active, time) =>
        OrderRewriteKeeps(c, t, EditAsk(c, sender, price, currency, t, active, time).value.orders[AskOf(c, t)]);
      case CallCancelAsk(sender, t, time) => CancelAskKeeps(c, sender, t, time);
      case CallBuy(sender, t, buyer, receiver) => BuyKeeps(c, sender, t, buyer, receiver);
      case SetEscrow(_, _) => EscrowsKeep(c, After(c, call).escrows);
      case NftMovedOutside(t, to) =>
        OutsideKeeps(c, t, to);
      case _ => BalancesKeep(c, After(c, call).balanceKSM);
    }
  }

  lemma EscrowsKeep(c: Storage, escrows: set<EthAccount>)
    requires Custody(c)
    ensures Custody(c.(escrows := escrows))
  {
    forall u ensures AskOf(c.(escrows := escrows), u) == AskOf(c, u) {}
  }

  lemma OutsideKeeps(c: Storage, t: Token, to: EthAccount)
    requires Custody(c) && MovedOutside(c, t, to).Some?
    ensures Custody(MovedOutside(c, t, to).value)
  {
    NothingOnSale(c, t);
    forall u ensures AskOf(MovedOutside(c, t, to).value, u) == AskOf(c, u) {}
  }

  /** Storage along a sequence of calls. */
  function AfterAll(c: Storage, calls: seq<Call>): Storage
    requires Custody(c) && forall i :: 0 <= i < |calls| ==> FromOutside(calls[i])
    decreases |calls|
  {
    if calls == [] then c else (CallKeepsCustody(c, calls[0]); AfterAll(After(c, calls[0]), calls[1..]))
  }

  /** Over every sequence of calls no NFT has two active orders, and every NFT on sale is in custody. */
  lemma {:induction false} CustodyAlways(c: Storage, calls: seq<Call>)
    requires Custody(c) && forall i :: 0 <= i < |calls| ==> FromOutside(calls[i])
    ensures var c' := AfterAll(c, calls);
      && Custody(c')
      && (forall j, k :: 0 <= j < k < |c'.orders| && c'.orders[j].flagActive != 0 && c'.orders[k].flagActive != 0 ==>
            c'.orders[j].token != c'.orders[k].token)
      && (forall k :: 0 <= k < |c'.orders| && c'.orders[k].flagActive != 0 ==>
            c'.orders[k].token in c'.nftOwner && c'.nftOwner[c'.orders[k].token] == MARKET)
    decreases |calls|
  {
    if calls != [] {
      CallKeepsCustody(c, calls[0]);
      CustodyAlways(After(c, calls[0]), calls[1..]);
    }
  }

  lemma DeployedHasCustody()
    ensures Custody(DEPLOYED)
  {}

  // ---------- sums of balances ----------

  ghost function SumOf(m: map<EthAccount, nat>): nat {
    if m == map[] then 0
    else
      var x :| x in m;
      m[x] + SumOf(m - {x})
  }

  lemma {:induction false} SumWithout(m: map<EthAccount, nat>, x: EthAccount)
    requires x in m
    ensures SumOf(m) == m[x] + SumOf(m - {x})
  {
    var y :| y in m && SumOf(m) == m[y] + SumOf(m - {y});
    if y != x {
      SumWithout(m - {y}, x);
      assert m - {y} - {x} == m - {x} - {y};
      SumWithout(m - {x}, y);
    }
  }

  lemma SumUpdate(m: map<EthAccount, nat>, x: EthAccount, v: nat)
    ensures SumOf(m[x := v]) == SumOf(m) - Get(m, x) + v
  {
    SumWithout(m[x := v], x);
    assert m[x := v] - {x} == m - {x};
    if x in m {
      SumWithout(m, x);
    } else {
      assert m - {x} == m;
    }
  }

  /** What each call does to the total of all balances; in particular a purchase keeps it, even of one's own NFT. */
  lemma BalanceTotals(c: Storage, call: Call)
    requires Indexed(c)
    ensures var total, total' := SumOf(c.balanceKSM), SumOf(After(c, call).balanceKSM);
      match call
      case CallDeposit(sender, amount, x) =>
        total' == total + if DepositKSM(c, sender, amount, x).Some? then amount else 0
      case CallWithdraw(sender, amount, x) =>
        total' == total - if WithdrawKSM(c, sender, amount, x).Some? then amount else 0
      case CallWithdrawAll(sender, x) => total' == total - if WithdrawAllKSM(c, sender, x).Some? then Balance(c, x) else 0
      case _ => total' == total
  {
    match call
    case CallDeposit(_, amount, x) => SumUpdate(c.balanceKSM, x, Balance(c, x) + amount);
    case CallWithdraw(_, amount, x) => if Balance(c, x) >= amount { SumUpdate(c.balanceKSM, x, Balance(c, x) - amount); }
    case CallWithdrawAll(_, x) => SumUpdate(c.balanceKSM, x, 0);
    case CallBuy(sender, t, buyer, receiver) =>
      if BuyKSM(c, sender, t, buyer, receiver).Some? {
        PurchaseMovesPrice(c, sender, t, buyer, receiver);
      }
    case _ =>
  }

  /** A purchase moves exactly the price from buyer to seller, closes the order and hands over the NFT. */
  lemma PurchaseMovesPrice(c: Storage, sender: EthAccount, t: Token, buyer: EthAccount, receiver: EthAccount)
    requires Indexed(c) && BuyKSM(c, sender, t, buyer, receiver).Some?
    ensures var c', o := BuyKSM(c, sender, t, buyer, receiver).value, c.orders[AskOf(c, t)];
      && SumOf(c'.balanceKSM) == SumOf(c.balanceKSM)
      && Balance(c, buyer) >= o.price
      && (forall x :: Balance(c', x) == Balance(c, x)
            - (if x == buyer then o.price else 0) + if x == o.ownerAddr then o.price else 0)
      && c'.asks == c.asks && c'.orders == c.orders[AskOf(c, t) := o.(flagActive := 0)]
      && t in c'.nftOwner && c'.nftOwner[t] == receiver
  {
    var o := c.orders[AskOf(c, t)];
    SumUpdate(c.balanceKSM, buyer, Balance(c, buyer) - o.price);
    var debited := Debited(c, buyer, o.price).value;
    SumUpdate(debited.balanceKSM, o.ownerAddr, Balance(debited, o.ownerAddr) + o.price);
  }
}
