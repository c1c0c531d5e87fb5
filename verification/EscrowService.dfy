/** The escrow over its tables, next to the running contract it replays and credits. */
module EscrowService {
  import opened Common
  import opened MarketContract
  import MarketPlace
  import opened EscrowMachine

  class UniqueEscrow {
    const contract: MarketPlace.Contract
    const cfg: Config
    var offers: seq<AskRow>
    var trades: seq<TradeRow>
    var transfers: seq<MoneyTransfer>
    var pairs: set<Address>

    function Db(): Tables
      reads this
    {
      Tables(offers, trades, transfers, pairs)
    }

    function View(): World
      reads this, contract
    {
      World(contract.View(), Db())
    }

    constructor (contract: MarketPlace.Contract, cfg: Config)
      ensures this.contract == contract && this.cfg == cfg && Db() == Tables([], [], [], {})
    {
      this.contract, this.cfg := contract, cfg;
      offers, trades, transfers, pairs := [], [], [], {};
    }

    /** `getActiveAsk`: any live fixed-price offer on the token. */
    method GetActiveAsk(t: Token) returns (ask: Option<AskRow>)
      ensures FoundAsk(offers, t, ask)
    {
      if i :| 0 <= i < |offers| && LiveOn(offers[i], t) {
        ask := Some(offers[i]);
      } else {
        ask := None;
      }
    }

    /** `cancelAsk`: an update of every live offer on the token. */
    method CancelAsk(t: Token)
      modifies this`offers
      ensures offers == CancelLive(old(offers), t)
    {
      for i := 0 to |offers|
        invariant |offers| == |old(offers)|
        invariant forall j :: 0 <= j < |offers| ==>
          offers[j] == if j < i && LiveOn(old(offers)[j], t) then old(offers)[j].(status := Cancelled) else old(offers)[j]
      {
        if LiveOn(offers[i], t) {
          offers := offers[i := offers[i].(status := Cancelled)];
        }
      }
      assert offers == CancelLive(old(offers), t);
    }

    /** `buyKSM`: an update of the active offers on the token. */
    method MarkBought(t: Token)
      modifies this`offers
      ensures offers == BuyActive(old(offers), t)
    {
      for i := 0 to |offers|
        invariant |offers| == |old(offers)|
        invariant forall j :: 0 <= j < |offers| ==>
          offers[j] == if j < i && Buyable(old(offers)[j], t) then old(offers)[j].(status := Bought) else old(offers)[j]
      {
        if Buyable(offers[i], t) {
          offers := offers[i := offers[i].(status := Bought)];
        }
      }
      assert offers == BuyActive(old(offers), t);
    }

    method ProcessAddAsk(seller: Address, price: nat, t: Token, block: nat)
      modifies this
      ensures Db() == AskReplayed(old(Db()), cfg, seller, price, t, block)
    {
      if t.collection !in cfg.managed {
        return;
      }
      var activeAsk := GetActiveAsk(t);
      if activeAsk.Some? {
        CancelAsk(t);
      } else {
        assert offers == CancelLive(offers, t);
      }
      pairs := pairs + {seller};
      offers := offers + [AskRow(t, seller, price, AskActive, block)];
    }

    method ProcessCancelAsk(t: Token)
      modifies this
      ensures Db() == CancelReplayed(old(Db()), cfg, t)
    {
      if t.collection !in cfg.managed {
        return;
      }
      var activeAsk := GetActiveAsk(t);
      if activeAsk.Some? {
        CancelAsk(t);
      } else {
        assert offers == CancelLive(offers, t);
      }
    }

    /** `modifyBalanceOnContract`: the row's amount goes to the contract as a deposit or, negated, as a withdrawal. */
    method ModifyBalanceOnContract(i: nat, reached: bool)
      requires i < |transfers|
      modifies this, contract`balanceKSM
      ensures View() == BalanceModified(old(View()), i, reached)
    {
      transfers := transfers[i := transfers[i].(status := InProgress)];
      var deposit := transfers[i];
      pairs := pairs + {deposit.address};
      var ok := reached;
      if reached {
        if deposit.amount < 0 {
          ok := contract.WithdrawKSM(ESCROW, -deposit.amount, Mirror(deposit.address));
        } else {
          ok := contract.DepositKSM(ESCROW, deposit.amount, Mirror(deposit.address));
        }
      }
      transfers := transfers[i := transfers[i].(status := if ok then Completed else FailedTransfer)];
    }

    /** `registerTrade`: encoding the buyer's address throws, before anything is written, when there is no pair. */
    method RegisterTrade(pair: Option<Address>, price: int, ask: AskRow) returns (threw: bool)
      modifies this`trades, this`offers
      ensures threw <==> pair.None?
      ensures threw ==> trades == old(trades) && offers == old(offers)
      ensures !threw ==> offers == BuyActive(old(offers), ask.token)
      ensures !threw ==>
        var trade := TradeRow(ask.token, ask.seller, pair.value, price, ask.price, ask.price - price, ask.blockAsk);
        trades == old(trades) + [trade]
    {
      if pair.None? {
        return true;
      }
      trades := trades + [TradeRow(ask.token, ask.seller, pair.value, price, ask.price, ask.price - price, ask.blockAsk)];
      MarkBought(ask.token);
      threw := false;
    }

    /** `processBuyKSM`, run right after the purchase happened on the contract. */
    method ProcessBuyKSM(t: Token, buyer: EthAccount, reached: bool) returns (threw: bool, ghost ask: Option<AskRow>)
      modifies this, contract`balanceKSM
      ensures FoundAsk(old(offers), t, ask)
      ensures threw <==> ask.Some? && PairOf(old(Db()), buyer).None?
      ensures View() == BuyReplayed(old(View()), cfg, ask, t, buyer, reached)
    {
      var activeAsk := GetActiveAsk(t);
      ask := activeAsk;
      if activeAsk.None? {
        return false, ask;
      }
      var o := activeAsk.value;
      var realPrice: int := o.price;
      var origPrice := PriceWithoutCommission(realPrice, cfg.commission);
      threw := RegisterTrade(PairOf(Db(), buyer), origPrice, o);
      if threw {
        return true, ask;
      }
      transfers := transfers + [MoneyTransfer(Deposit, PendingTransfer, -realPrice, o.seller)];
      ModifyBalanceOnContract(|transfers| - 1, reached);
      transfers := transfers + [MoneyTransfer(Withdraw, PendingTransfer, origPrice, o.seller)];
    }

    method ProcessWithdrawAllKSM(balance: nat, x: EthAccount, signer: Address)
      modifies this`transfers
      ensures Db() == WithdrawAllReplayed(old(Db()), balance, x, signer)
    {
      var account := match PairOf(Db(), x) case Some(a) => a case None => signer;
      transfers := transfers + [MoneyTransfer(Withdraw, PendingTransfer, balance, account)];
    }

    /** `getPendingContractBalance`: the earliest pending deposit row. */
    method GetPendingContractBalance() returns (row: Option<nat>)
      ensures row.Some? ==>
        && row.value < |transfers| && IsPendingDeposit(transfers[row.value])
        && forall i :: 0 <= i < row.value ==> !IsPendingDeposit(transfers[i])
      ensures row.None? ==> forall i :: 0 <= i < |transfers| ==> !IsPendingDeposit(transfers[i])
    {
      for i := 0 to |transfers|
        invariant forall j :: 0 <= j < i ==> !IsPendingDeposit(transfers[j])
      {
        if IsPendingDeposit(transfers[i]) {
          return Some(i);
        }
      }
      row := None;
    }

    /**
     * `processContractBalance`: credits pending deposits in creation order until none is left. `reached` gives
     * for each row whether its call gets to the chain.
     */
    method ProcessContractBalance(reached: nat -> bool) returns (ghost worlds: seq<World>, ghost acts: seq<Action>)
      requires Indexed(contract.View())
      modifies this, contract`balanceKSM
      ensures Run(worlds, cfg, acts) && worlds[0] == old(View()) && worlds[|acts|] == View()
      ensures forall k :: 0 <= k < |acts| ==> acts[k].CreditDeposit?
      ensures forall j, k :: 0 <= j < k < |acts| ==> acts[j].row < acts[k].row
      ensures forall i :: 0 <= i < |transfers| ==> !IsPendingDeposit(transfers[i])
      ensures |transfers| == |old(transfers)| && offers == old(offers) && trades == old(trades)
    {
      worlds, acts := [View()], [];
      ghost var next := 0;
      while true
        invariant Run(worlds, cfg, acts) && worlds[0] == old(View()) && worlds[|acts|] == View()
        invariant |transfers| == |old(transfers)| && offers == old(offers) && trades == old(trades)
        invariant Indexed(contract.View())
        invariant forall k :: 0 <= k < |acts| ==> acts[k].CreditDeposit? && acts[k].row < next
        invariant forall j, k :: 0 <= j < k < |acts| ==> acts[j].row < acts[k].row
        invariant next <= |transfers| && forall i :: 0 <= i < next ==> !IsPendingDeposit(transfers[i])
        decreases |transfers| - next
      {
        var row := GetPendingContractBalance();
        if row.None? {
          break;
        }
        ghost var act := CreditDeposit(row.value, reached(row.value));
        ghost var before := View();
        ModifyBalanceOnContract(row.value, reached(row.value));
        BalanceKeepsIndex(before, row.value, reached(row.value));
        ExtendRun(worlds, cfg, acts, act, View());
        worlds, acts, next := worlds + [View()], acts + [act], row.value + 1;
      }
    }
  }

  lemma BalanceKeepsIndex(w: World, i: nat, reached: bool)
    requires i < |w.db.transfers| && Indexed(w.chain)
    ensures Indexed(BalanceModified(w, i, reached).chain)
  {
    forall t ensures AskOf(BalanceModified(w, i, reached).chain, t) == AskOf(w.chain, t) {}
  }

  lemma ExtendRun(worlds: seq<World>, cfg: Config, acts: seq<Action>, act: Action, w': World)
    requires Run(worlds, cfg, acts) && Enabled(worlds[|acts|], act) && w' == Next(worlds[|acts|], cfg, act)
    ensures Run(worlds + [w'], cfg, acts + [act])
  {}
}
