/** The contract as it runs: storage updated in place, and restored when a call reverts. */
module MarketPlace {
  import opened Common
  import opened MarketContract

  class Contract {
    var orders: seq<Order>
    var asks: map<Token, nat>
    var balanceKSM: map<EthAccount, nat>
    var escrows: set<EthAccount>
    var nftOwner: map<Token, EthAccount>

    function View(): Storage
      reads this
    {
      Storage(orders, asks, balanceKSM, escrows, nftOwner)
    }

    constructor ()
      ensures View() == DEPLOYED
    {
      orders, asks, balanceKSM, escrows, nftOwner := [NO_ORDER], map[], map[], {}, map[];
    }

    /** The effect of a call that the specification says reverts or succeeds with `r`. */
    twostate predicate Did(r: Option<Storage>, ok: bool)
      reads this
    {
      (ok <==> r.Some?) && View() == match r case Some(c) => c case None => old(View())
    }

    method Restore(saved: Storage)
      modifies this
      ensures View() == saved
    {
      orders, asks, balanceKSM, escrows, nftOwner := saved.orders, saved.asks, saved.balanceKSM, saved.escrows,
          saved.nftOwner;
    }

    /** ERC721 `transferFrom`, called by the market. */
    method TransferFrom(from: EthAccount, to: EthAccount, t: Token) returns (ok: bool)
      modifies this`nftOwner
      ensures Did(Moved(old(View()), from, to, t), ok)
    {
      ok := t in nftOwner && nftOwner[t] == from && to != ZERO;
      if ok {
        nftOwner := nftOwner[t := to];
      }
    }

    method AddAsk(sender: EthAccount, price: nat, currency: EthAccount, t: Token, time: nat, approved: bool)
      returns (ok: bool)
      modifies this
      ensures Did(MarketContract.AddAsk(old(View()), sender, price, currency, t, time, approved), ok)
    {
      if t !in nftOwner || nftOwner[t] != sender {
        return false;
      }
      var saved := View();
      orders := orders + [Order(t, currency, price, time, sender, 1)];
      asks := asks[t := |orders| - 1];
      if approved {
        ok := TransferFrom(sender, MARKET, t);
      } else {
        ok := false;
      }
      if !ok {
        Restore(saved);
      }
    }

    method EditAsk(sender: EthAccount, price: nat, currency: EthAccount, t: Token, active: nat, time: nat)
      returns (ok: bool)
      requires Indexed(View())
      modifies this`orders
      ensures Did(MarketContract.EditAsk(old(View()), sender, price, currency, t, active, time), ok)
    {
      var orderID := AskOf(View(), t);
      if orders[orderID].ownerAddr != sender || orders[orderID].flagActive == 0 {
        return false;
      }
      if price > 0 {
        orders := orders[orderID := orders[orderID].(price := price)];
      }
      if currency != ZERO {
        orders := orders[orderID := orders[orderID].(currencyCode := currency)];
      }
      orders := orders[orderID := orders[orderID].(time := time)];
      orders := orders[orderID := orders[orderID].(flagActive := active)];
      ok := true;
    }

    method CancelAsk(sender: EthAccount, t: Token, time: nat) returns (ok: bool)
      requires Indexed(View())
      modifies this
      ensures Did(MarketContract.CancelAsk(old(View()), sender, t, time), ok)
    {
      var orderID := AskOf(View(), t);
      if orders[orderID].ownerAddr != sender || orders[orderID].flagActive == 0 {
        return false;
      }
      var saved := View();
      orders := orders[orderID := orders[orderID].(time := time)];
      orders := orders[orderID := orders[orderID].(flagActive := 0)];
      ok := TransferFrom(MARKET, orders[orderID].ownerAddr, t);
      if !ok {
        Restore(saved);
      }
    }

    method DepositKSM(sender: EthAccount, amount: nat, x: EthAccount) returns (ok: bool)
      modifies this`balanceKSM
      ensures Did(MarketContract.DepositKSM(old(View()), sender, amount, x), ok)
    {
      ok := sender in escrows && Get(balanceKSM, x) + amount <= MAX_UINT256;
      if ok {
        balanceKSM := balanceKSM[x := Get(balanceKSM, x) + amount];
      }
    }

    method WithdrawKSM(sender: EthAccount, amount: nat, x: EthAccount) returns (ok: bool)
      modifies this`balanceKSM
      ensures Did(MarketContract.WithdrawKSM(old(View()), sender, amount, x), ok)
    {
      ok := sender in escrows && amount <= Get(balanceKSM, x);
      if ok {
        balanceKSM := balanceKSM[x := Get(balanceKSM, x) - amount];
      }
    }

    method WithdrawAllKSM(sender: EthAccount, x: EthAccount) returns (ok: bool, lastBalance: nat)
      modifies this`balanceKSM
      ensures Did(MarketContract.WithdrawAllKSM(old(View()), sender, x), ok)
      ensures ok ==> lastBalance == Balance(old(View()), x)
    {
      ok := sender in escrows || sender == x;
      lastBalance := Get(balanceKSM, x);
      if ok {
        balanceKSM := balanceKSM[x := 0];
      }
    }

    /** The two balance updates of a purchase. */
    method PayOver(buyer: EthAccount, seller: EthAccount, price: nat) returns (ok: bool)
      modifies this`balanceKSM
      ensures Did(PaidOver(old(View()), buyer, seller, price), ok)
    {
      ok := Get(balanceKSM, buyer) >= price;
      if ok {
        var saved := balanceKSM;
        balanceKSM := balanceKSM[buyer := Get(balanceKSM, buyer) - price];
        ok := Get(balanceKSM, seller) + price <= MAX_UINT256;
        balanceKSM := if ok then balanceKSM[seller := Get(balanceKSM, seller) + price] else saved;
      }
    }

    method BuyKSM(sender: EthAccount, t: Token, buyer: EthAccount, receiver: EthAccount) returns (ok: bool)
      requires Indexed(View())
      modifies this
      ensures Did(MarketContract.BuyKSM(old(View()), sender, t, buyer, receiver), ok)
    {
      var orderID := AskOf(View(), t);
      var order := orders[orderID];
      if sender !in escrows && sender != buyer {
        return false;
      }
      var saved := View();
      ok := PayOver(buyer, order.ownerAddr, order.price);
      if ok {
        orders := orders[orderID := orders[orderID].(flagActive := 0)];
        ok := TransferFrom(MARKET, receiver, t);
        if !ok {
          Restore(saved);
        }
      }
    }
  }
}
