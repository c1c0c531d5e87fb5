/** The books of the escrow, account by account. */
module EscrowAccounts {
  import opened Common
  import opened MarketContract
  import opened EscrowMachine
  import opened EscrowLaws
  import opened EscrowEvents
  import opened EscrowMoney

  // ---------- the rows of a booked purchase ----------

  /** The seller's part of a price: what is left after the commission, rounded down. */
  predicate IsSellerPart(part: int, price: int, commission: Percent) {
    0 <= part && part * 100 <= price * (100 - commission) < part * 100 + 100
  }

  predicate IsFair(t: TradeRow, commission: Percent) {
    IsSellerPart(t.price, t.originPrice, commission) && t.price + t.commission == t.originPrice
  }

  /** The trade row records this sale of the offer to the account behind `buyer`. */
  predicate RecordsSale(t: TradeRow, ask: AskRow, buyer: EthAccount, commission: Percent) {
    && t.token == ask.token && t.seller == ask.seller && Mirror(t.buyer) == buyer && t.blockAsk == ask.blockAsk
    && t.originPrice == ask.price && IsFair(t, commission)
  }

  /**
   * A booked purchase adds one trade and two money rows, both of them the seller's: minus the price, completed exactly
   * when the debit reached the chain, and the seller's part, still to be paid.
   */
  lemma BookedPurchaseRows(w: World, cfg: Config, act: Action)
    requires Simulates(w, cfg) && Enabled(w, act) && IsBooked(w.db, act)
    ensures var w', ask, n := Next(w, cfg, act), act.ask.value, |w.db.transfers|;
      && |w'.db.trades| == |w.db.trades| + 1 && w'.db.trades[..|w.db.trades|] == w.db.trades
      && RecordsSale(w'.db.trades[|w.db.trades|], ask, act.buyer, cfg.commission)
      && |w'.db.transfers| == n + 2 && w'.db.transfers[..n] == w.db.transfers
      && w'.db.transfers[n]
           == MoneyTransfer(Deposit, if act.reached then Completed else FailedTransfer, 0 - ask.price, ask.seller)
      && w'.db.transfers[n + 1]
           == MoneyTransfer(Withdraw, PendingTransfer, w'.db.trades[|w.db.trades|].price, ask.seller)
  {
    DebitNeverReverts(w, cfg, act);
    SellerPartIsFloor(act.ask.value.price, cfg.commission);
    assert Next(w, cfg, act).db.transfers[..|w.db.transfers|] == w.db.transfers;
  }

  // ---------- payouts ----------

  /** All payouts registered for `x`, in any state. */
  function PayoutsTo(ts: seq<MoneyTransfer>, x: Address): int {
    if ts == [] then 0
    else
      var t := ts[|ts| - 1];
      PayoutsTo(ts[..|ts| - 1], x) + if t.kind == Withdraw && t.address == x then t.amount else 0
  }

  /** The seller's parts of all sales by `x`. */
  function EarnedBy(trades: seq<TradeRow>, x: Address): int {
    if trades == [] then 0
    else EarnedBy(trades[..|trades| - 1], x) + if trades[|trades| - 1].seller == x then trades[|trades| - 1].price else 0
  }

  /** What a row has put on `x`'s balance, or taken off it. */
  function CreditOf(t: MoneyTransfer, x: Address): int {
    if t.kind == Deposit && t.status == Completed && t.address == x then t.amount else 0
  }

  /** What completed rows have put on the balance of `x`, debits counting negative. */
  function CreditedTo(ts: seq<MoneyTransfer>, x: Address): int {
    if ts == [] then 0 else CreditedTo(ts[..|ts| - 1], x) + CreditOf(ts[|ts| - 1], x)
  }

  /** What completed debits have taken off the balance of `x`. */
  function DebitsTo(ts: seq<MoneyTransfer>, x: Address): nat {
    if ts == [] then 0 else DebitsTo(ts[..|ts| - 1], x) + Negative(CreditOf(ts[|ts| - 1], x))
  }

  function Negative(v: int): nat {
    if v < 0 then -v else 0
  }

  /** What `x` has paid in: its completed deposits. */
  function PaidIn(ts: seq<MoneyTransfer>, x: Address): nat {
    if ts == [] then 0 else PaidIn(ts[..|ts| - 1], x) + Negative(-CreditOf(ts[|ts| - 1], x))
  }

  lemma {:induction false} CreditsSplit(ts: seq<MoneyTransfer>, x: Address)
    ensures CreditedTo(ts, x) == PaidIn(ts, x) - DebitsTo(ts, x)
  {
    if ts != [] {
      CreditsSplit(ts[..|ts| - 1], x);
    }
  }

  lemma RowsAppend(ts: seq<MoneyTransfer>, t: MoneyTransfer, x: Address)
    ensures PayoutsTo(ts + [t], x) == PayoutsTo(ts, x) + if t.kind == Withdraw && t.address == x then t.amount else 0
    ensures CreditedTo(ts + [t], x) == CreditedTo(ts, x) + CreditOf(t, x)
    ensures DebitsTo(ts + [t], x) == DebitsTo(ts, x) + Negative(CreditOf(t, x))
  {
    assert (ts + [t])[..|ts|] == ts;
  }

  lemma EarnedAppend(trades: seq<TradeRow>, t: TradeRow, x: Address)
    ensures EarnedBy(trades + [t], x) == EarnedBy(trades, x) + if t.seller == x then t.price else 0
  {
    assert (trades + [t])[..|trades|] == trades;
  }

  /** A deposit row that changes its status. */
  lemma {:induction false} StatusUpdate(ts: seq<MoneyTransfer>, i: nat, status: TransferStatus, x: Address)
    requires i < |ts| && IsPendingDeposit(ts[i])
    ensures var t := ts[i].(status := status);
      && PayoutsTo(ts[i := t], x) == PayoutsTo(ts, x)
      && CreditedTo(ts[i := t], x) == CreditedTo(ts, x) + CreditOf(t, x)
      && DebitsTo(ts[i := t], x) == DebitsTo(ts, x) + Negative(CreditOf(t, x))
  {
    var n, t := |ts| - 1, ts[i].(status := status);
    if i == n {
      assert ts[i := t][..n] == ts[..n];
    } else {
      assert ts[i := t][..n] == ts[..n][i := t];
      StatusUpdate(ts[..n], i, status, x);
    }
  }

  /** What a world says of an account. */
  datatype Account = Account(balance: int, payouts: int, earned: int, credited: int, debits: int)

  function AccountOf(w: World, x: Address): Account {
    Account(Balance(w.chain, Mirror(x)), PayoutsTo(w.db.transfers, x), EarnedBy(w.db.trades, x),
            CreditedTo(w.db.transfers, x), DebitsTo(w.db.transfers, x))
  }

  /** Sending a pending row moves the balance and the completed rows of its account alike, and nothing else. */
  lemma ModifiedAccount(w: World, i: nat, reached: bool, x: Address)
    requires i < |w.db.transfers| && IsPendingDeposit(w.db.transfers[i])
    ensures var w', row := BalanceModified(w, i, reached), w.db.transfers[i];
      var moved := if Arrives(w.chain, row.amount, row.address, reached) && row.address == x then row.amount else 0;
      AccountOf(w', x) == AccountOf(w, x).(balance := AccountOf(w, x).balance + moved,
                                           credited := AccountOf(w, x).credited + moved,
                                           debits := AccountOf(w, x).debits + Negative(moved))
  {
    var row := w.db.transfers[i];
    var arrived := Arrives(w.chain, row.amount, row.address, reached);
    StatusUpdate(w.db.transfers, i, if arrived then Completed else FailedTransfer, x);
  }

  lemma RegisteredAccount(w: World, ask: AskRow, t: Token, buyer: Address, payout: int, x: Address)
    ensures var w' := World(w.chain, TradeRegistered(w.db, ask, t, buyer, payout));
      AccountOf(w', x) == AccountOf(w, x).(earned := AccountOf(w, x).earned + if x == ask.seller then payout else 0)
  {
    RowsAppend(w.db.transfers, MoneyTransfer(Deposit, PendingTransfer, 0 - ask.price, ask.seller), x);
    EarnedAppend(w.db.trades,
      TradeRow(ask.token, ask.seller, buyer, payout, ask.price, ask.price - payout, ask.blockAsk), x);
  }

  lemma PayoutAccount(w: World, amount: int, to: Address, x: Address)
    ensures var w' := World(w.chain, WithdrawRegistered(w.db, amount, to));
      AccountOf(w', x) == AccountOf(w, x).(payouts := AccountOf(w, x).payouts + if x == to then amount else 0)
  {
    RowsAppend(w.db.transfers, MoneyTransfer(Withdraw, PendingTransfer, amount, to), x);
  }

  /** What a booked purchase takes off the seller's balance. */
  function DebitedBy(c: Storage, ask: AskRow, reached: bool, x: Address): nat {
    if x == ask.seller && Arrives(c, 0 - ask.price, ask.seller, reached) then ask.price else 0
  }

  /** A booked purchase: the seller has earned a payout, it is registered, and the debit takes the price if it arrives. */
  lemma BookedAccount(w: World, ask: AskRow, t: Token, buyer: Address, payout: int, reached: bool, x: Address)
    ensures var w', a := PurchaseBooked(w, ask, t, buyer, payout, reached), AccountOf(w, x);
      var debited, part := DebitedBy(w.chain, ask, reached, x), if x == ask.seller then payout else 0;
      AccountOf(w', x) == Account(a.balance - debited, a.payouts + part, a.earned + part, a.credited - debited,
                                  a.debits + debited)
  {
    var registered := World(w.chain, TradeRegistered(w.db, ask, t, buyer, payout));
    var debited := BalanceModified(registered, |w.db.transfers|, reached);
    RegisteredAccount(w, ask, t, buyer, payout, x);
    ModifiedAccount(registered, |w.db.transfers|, reached, x);
    PayoutAccount(debited, payout, ask.seller, x);
  }

  // ---------- one event ----------

  /** The order that a purchase on the contract executes. */
  function OrderBought(w: World, e: Event): Option<Order> {
    if !e.Misdirected? && e.act.BuyKSM? && AskOf(w.chain, e.act.t) < |w.chain.orders|
    then Some(w.chain.orders[AskOf(w.chain, e.act.t)]) else None
  }

  /** What an event on the contract pays to `x` as a seller. */
  function SoldIn(w: World, e: Event, x: Address): nat {
    match OrderBought(w, e)
    case Some(o) => if o.ownerAddr == Mirror(x) then o.price else 0
    case None => 0
  }

  /** What it takes from `x` as a buyer. */
  function BoughtIn(w: World, e: Event, x: Address): nat {
    match OrderBought(w, e)
    case Some(o) => if e.act.buyer == Mirror(x) then o.price else 0
    case None => 0
  }

  /** What a withdrawal of the whole balance takes off `x`'s; it is paid out unless the call was missed. */
  function Drawn(w: World, e: Event, x: Address): nat {
    if e.act.WithdrawAllKSM? && e.act.x == Mirror(x) && !e.Misdirected? then Balance(w.chain, Mirror(x)) else 0
  }

  /** What the replay of a purchase takes off the seller's balance. */
  ghost function DebitedIn(w: World, e: Event, x: Address): nat
    requires Possible(w, e)
  {
    if e.Missed? || !IsBooked(w.db, e.act) then 0
    else DebitedBy(if e.InLockstep? then ChainStep(w.chain, e.act).value else w.chain, e.act.ask.value, e.act.reached, x)
  }

  lemma ReplayedAccount(w: World, cfg: Config, act: Action, x: Address)
    requires act.BuyKSM?
    ensures var a, a' := AccountOf(w, x), AccountOf(BuyReplayed(w, cfg, act.ask, act.t, act.buyer, act.reached), x);
      && a'.payouts - a.payouts == a'.earned - a.earned
      && a'.balance - a.balance == a'.credited - a.credited
           == a.debits - a'.debits
      && a'.debits - a.debits == if IsBooked(w.db, act) then DebitedBy(w.chain, act.ask.value, act.reached, x) else 0
  {
    if IsBooked(w.db, act) {
      BookedAccount(w, act.ask.value, act.t, PairOf(w.db, act.buyer).value,
                    PriceWithoutCommission(act.ask.value.price, cfg.commission), act.reached, x);
    }
  }

  /** The purchase itself, on the contract. */
  lemma PurchaseBalances(w: World, act: Action, x: Address)
    requires Indexed(w.chain) && act.BuyKSM? && ChainStep(w.chain, act).Some?
    requires Possible(w, InLockstep(act)) || Possible(w, Missed(act))
    ensures Balance(ChainStep(w.chain, act).value, Mirror(x)) == Balance(w.chain, Mirror(x)) + SoldIn(w, Missed(act), x)
           - BoughtIn(w, Missed(act), x)
    ensures ChainStep(w.chain, act).value.escrows == w.chain.escrows
  {
    PurchaseMovesPrice(w.chain, Mirror(act.signer), act.t, act.buyer, act.receiver);
  }

  ghost predicate OnlyEscrow(w: World) {
    w.chain.escrows == {ESCROW} && forall i :: 0 <= i < |w.db.transfers| && IsPendingDeposit(w.db.transfers[i]) ==>
      w.db.transfers[i].amount >= 0
  }

  /** Nobody but its owner can empty a balance, so the payout goes to the owner. */
  lemma DrawnByOwner(w: World, act: Action)
    requires OnlyEscrow(w) && act.WithdrawAllKSM? && Enabled(w, act)
    ensures act.x == Mirror(act.signer)
  {}

  /** How an event moves the account `x`. */
  predicate AccountMoves(w: World, e: Event, w': World, x: Address) {
    var a, a' := AccountOf(w, x), AccountOf(w', x);
    && a'.payouts - a.payouts == a'.earned - a.earned + (if e.Missed? then 0 else Drawn(w, e, x))
    && a'.balance - a.balance == a'.credited - a.credited + SoldIn(w, e, x) - BoughtIn(w, e, x) - Drawn(w, e, x)
  }

  ghost predicate DebitsMove(w: World, e: Event, w': World, x: Address)
    requires Possible(w, e)
  {
    AccountOf(w', x).debits == AccountOf(w, x).debits + DebitedIn(w, e, x)
  }

  lemma BuyAccount(w: World, cfg: Config, act: Action, x: Address)
    requires Enabled(w, act) && act.BuyKSM?
    ensures AccountMoves(w, InLockstep(act), Next(w, cfg, act), x) && DebitsMove(w, InLockstep(act), Next(w, cfg, act), x)
  {
    PurchaseBalances(w, act, x);
    ReplayedAccount(World(ChainStep(w.chain, act).value, w.db), cfg, act, x);
  }

  /** An account that withdraws its whole balance. */
  lemma EmptiedAccount(w: World, signer: Address, c: Storage, x: Address)
    requires MarketContract.WithdrawAllKSM(w.chain, Mirror(signer), Mirror(signer)) == Some(c)
    ensures var w', a := World(c, WithdrawRegistered(w.db, Balance(w.chain, Mirror(signer)), signer)), AccountOf(w, x);
      AccountOf(w', x) == if x != signer then a else a.(balance := 0, payouts := a.payouts + a.balance)
  {
    PayoutAccount(World(c, w.db), Balance(w.chain, Mirror(signer)), signer, x);
  }

  lemma WithdrawAllAccount(w: World, cfg: Config, act: Action, x: Address)
    requires OnlyEscrow(w) && Enabled(w, act) && act.WithdrawAllKSM?
    ensures AccountMoves(w, InLockstep(act), Next(w, cfg, act), x) && DebitsMove(w, InLockstep(act), Next(w, cfg, act), x)
  {
    DrawnByOwner(w, act);
    EmptiedAccount(w, act.signer, ChainStep(w.chain, act).value, x);
  }

  lemma LockstepAccount(w: World, cfg: Config, act: Action, x: Address)
    requires OnlyEscrow(w) && Enabled(w, act)
    ensures AccountMoves(w, InLockstep(act), Next(w, cfg, act), x) && DebitsMove(w, InLockstep(act), Next(w, cfg, act), x)
  {
    match act
    case KusamaDeposit(amount, address) =>
      RowsAppend(w.db.transfers, MoneyTransfer(Deposit, PendingTransfer, amount, address), x);
    case CreditDeposit(row, reached) => ModifiedAccount(w, row, reached, x);
    case BuyKSM(_, _, _, _, _, _) => BuyAccount(w, cfg, act, x);
    case WithdrawAllKSM(_, _) => WithdrawAllAccount(w, cfg, act, x);
    case _ =>
  }

  lemma MissedAccount(w: World, cfg: Config, act: Action, x: Address)
    requires Possible(w, Missed(act))
    ensures AccountMoves(w, Missed(act), Happened(w, cfg, Missed(act)), x)
  {
    if act.BuyKSM? {
      PurchaseBalances(w, act, x);
    }
  }

  lemma MisreplayedPurchase(w: World, cfg: Config, act: Action, x: Address)
    requires act.BuyKSM?
    ensures AccountMoves(w, Misdirected(act), BuyReplayed(w, cfg, act.ask, act.t, act.buyer, act.reached), x)
  {
    ReplayedAccount(w, cfg, act, x);
  }

  lemma MisreplayedListing(w: World, cfg: Config, act: Action, x: Address)
    requires act.AddAsk? || act.CancelAsk?
    ensures AccountMoves(w, Misdirected(act), Misreplayed(w, cfg, act), x)
  {}

  lemma MisdirectedAccount(w: World, cfg: Config, act: Action, x: Address)
    requires Possible(w, Misdirected(act))
    ensures AccountMoves(w, Misdirected(act), Happened(w, cfg, Misdirected(act)), x)
  {
    if act.BuyKSM? {
      MisreplayedPurchase(w, cfg, act, x);
    } else {
      MisreplayedListing(w, cfg, act, x);
    }
  }

  lemma EventAccount(w: World, cfg: Config, e: Event, x: Address)
    requires OnlyEscrow(w) && Possible(w, e)
    ensures AccountMoves(w, e, Happened(w, cfg, e), x)
  {
    match e
    case InLockstep(act) => LockstepAccount(w, cfg, act, x);
    case Missed(act) => MissedAccount(w, cfg, act, x);
    case Misdirected(act) => MisdirectedAccount(w, cfg, act, x);
  }

  lemma CallKeepsEscrows(c: Storage, act: Action)
    requires Indexed(c) && ChainStep(c, act).Some?
    ensures ChainStep(c, act).value.escrows == c.escrows
  {
    if act.BuyKSM? {
      PurchaseMovesPrice(c, Mirror(act.signer), act.t, act.buyer, act.receiver);
    }
  }

  lemma EventKeepsEscrow(w: World, cfg: Config, e: Event)
    requires OnlyEscrow(w) && Possible(w, e)
    ensures OnlyEscrow(Happened(w, cfg, e))
  {
    assert PendingArePositive(Happened(w, cfg, e)) by {
      EventBooks(w, cfg, e);
    }
    assert Happened(w, cfg, e).chain.escrows == w.chain.escrows by {
      if !e.Misdirected? {
        CallKeepsEscrows(w.chain, e.act);
      }
    }
  }

  lemma {:induction false} AlwaysOneEscrow(worlds: seq<World>, cfg: Config, events: seq<Event>, n: nat)
    requires History(worlds, cfg, events) && worlds[0] == START && n <= |events|
    ensures OnlyEscrow(worlds[n])
  {
    if n > 0 {
      AlwaysOneEscrow(worlds, cfg, events, n - 1);
      EventKeepsEscrow(worlds[n - 1], cfg, events[n - 1]);
    }
  }

  // ---------- every history ----------

  /** What `x` sold on the contract by world `n`; the other sums are alike. */
  function Sold(worlds: seq<World>, events: seq<Event>, x: Address, n: nat): nat
    requires n <= |events| < |worlds|
  {
    if n == 0 then 0 else Sold(worlds, events, x, n - 1) + SoldIn(worlds[n - 1], events[n - 1], x)
  }

  function Spent(worlds: seq<World>, events: seq<Event>, x: Address, n: nat): nat
    requires n <= |events| < |worlds|
  {
    if n == 0 then 0 else Spent(worlds, events, x, n - 1) + BoughtIn(worlds[n - 1], events[n - 1], x)
  }

  /** What `x` withdrew; of that, what the escrow never saw. */
  function Withdrawn(worlds: seq<World>, events: seq<Event>, x: Address, n: nat): nat
    requires n <= |events| < |worlds|
  {
    if n == 0 then 0 else Withdrawn(worlds, events, x, n - 1) + Drawn(worlds[n - 1], events[n - 1], x)
  }

  function Unseen(worlds: seq<World>, events: seq<Event>, x: Address, n: nat): nat
    requires n <= |events| < |worlds|
  {
    if n == 0 then 0
    else Unseen(worlds, events, x, n - 1) + if events[n - 1].Missed? then Drawn(worlds[n - 1], events[n - 1], x) else 0
  }

  lemma {:induction false} AccountSums(worlds: seq<World>, events: seq<Event>, x: Address, n: nat)
    requires n <= |events| < |worlds|
    requires forall i :: 0 <= i < |events| ==> AccountMoves(worlds[i], events[i], worlds[i + 1], x)
    ensures var a, a' := AccountOf(worlds[0], x), AccountOf(worlds[n], x);
      && a'.payouts - a.payouts
           == a'.earned - a.earned + Withdrawn(worlds, events, x, n) - Unseen(worlds, events, x, n)
      && a'.balance - a.balance
           == a'.credited - a.credited + Sold(worlds, events, x, n) - Spent(worlds, events, x, n)
              - Withdrawn(worlds, events, x, n)
  {
    if n > 0 {
      AccountSums(worlds, events, x, n - 1);
    }
  }

  lemma HistoryMoves(worlds: seq<World>, cfg: Config, events: seq<Event>, x: Address)
    requires History(worlds, cfg, events) && worlds[0] == START
    ensures forall i :: 0 <= i < |events| ==> AccountMoves(worlds[i], events[i], worlds[i + 1], x)
  {
    forall i | 0 <= i < |events| ensures AccountMoves(worlds[i], events[i], worlds[i + 1], x) {
      AlwaysOneEscrow(worlds, cfg, events, i);
      EventAccount(worlds[i], cfg, events[i], x);
    }
  }

  /**
   * Payouts account by account. Over every history, whatever is missed or misdirected, the payouts registered for an
   * account are the seller's parts of its own recorded sales and the balances it withdrew under the escrow's eyes.
   */
  lemma PayoutsByAccount(worlds: seq<World>, cfg: Config, events: seq<Event>, x: Address, n: nat)
    requires History(worlds, cfg, events) && worlds[0] == START && n <= |events|
    ensures var w := worlds[n];
      PayoutsTo(w.db.transfers, x)
        == EarnedBy(w.db.trades, x) + Withdrawn(worlds, events, x, n) - Unseen(worlds, events, x, n)
  {
    HistoryMoves(worlds, cfg, events, x);
    AccountSums(worlds, events, x, n);
  }

  /**
   * Balances account by account. Over every history an account's balance on the contract is what its completed rows
   * put there, and what it sold less what it spent and withdrew.
   */
  lemma BalanceByAccount(worlds: seq<World>, cfg: Config, events: seq<Event>, x: Address, n: nat)
    requires History(worlds, cfg, events) && worlds[0] == START && n <= |events|
    ensures var w := worlds[n];
      Balance(w.chain, Mirror(x))
        == CreditedTo(w.db.transfers, x) + Sold(worlds, events, x, n) - Spent(worlds, events, x, n)
           - Withdrawn(worlds, events, x, n)
  {
    HistoryMoves(worlds, cfg, events, x);
    AccountSums(worlds, events, x, n);
  }

  ghost predicate AllFair(trades: seq<TradeRow>, commission: Percent) {
    forall i :: 0 <= i < |trades| ==> IsFair(trades[i], commission)
  }

  lemma ReplayIsFair(w: World, cfg: Config, act: Action)
    requires act.BuyKSM? && AllFair(w.db.trades, cfg.commission)
    ensures AllFair(BuyReplayed(w, cfg, act.ask, act.t, act.buyer, act.reached).db.trades, cfg.commission)
  {
    if act.ask.Some? {
      SellerPartIsFloor(act.ask.value.price, cfg.commission);
    }
  }

  lemma EventIsFair(w: World, cfg: Config, e: Event)
    requires Possible(w, e) && AllFair(w.db.trades, cfg.commission)
    ensures AllFair(Happened(w, cfg, e).db.trades, cfg.commission)
  {
    if e.act.BuyKSM? && !e.Missed? {
      ReplayIsFair(if e.InLockstep? then World(ChainStep(w.chain, e.act).value, w.db) else w, cfg, e.act);
    }
  }

  /** Every trade of every history splits its price exactly, the seller's part rounded down. */
  lemma {:induction false} TradesAreFair(worlds: seq<World>, cfg: Config, events: seq<Event>, n: nat)
    requires History(worlds, cfg, events) && worlds[0] == START && n <= |events|
    ensures AllFair(worlds[n].db.trades, cfg.commission)
  {
    if n > 0 {
      TradesAreFair(worlds, cfg, events, n - 1);
      EventIsFair(worlds[n - 1], cfg, events[n - 1]);
    }
  }

  // ---------- lockstep: what each account is worth ----------

  /** A sale by `x` at a positive price that the escrow did not book, or whose debit did not reach the chain. */
  predicate LeavesPrice(w: World, act: Action, x: Address)
    requires Indexed(w.chain)
  {
    act.BuyKSM? &&
    var o := w.chain.orders[AskOf(w.chain, act.t)];
    o.ownerAddr == Mirror(x) && o.price > 0 && !(IsBooked(w.db, act) && act.reached)
  }

  lemma SaleIsDebitedIff(w: World, cfg: Config, act: Action, x: Address)
    requires Simulates(w, cfg) && Enabled(w, act)
    ensures SoldIn(w, InLockstep(act), x) >= DebitedIn(w, InLockstep(act), x)
    ensures SoldIn(w, InLockstep(act), x) == DebitedIn(w, InLockstep(act), x) <==> !LeavesPrice(w, act, x)
  {
    if IsBooked(w.db, act) {
      DebitNeverReverts(w, cfg, act);
      assert Quotes(w.chain, act.ask.value);
    }
  }

  lemma HistoryIsRun(worlds: seq<World>, cfg: Config, acts: seq<Action>)
    requires History(worlds, cfg, Lockstep(acts))
    ensures Run(worlds, cfg, acts)
  {
    forall i | 0 <= i < |acts| ensures Enabled(worlds[i], acts[i]) && worlds[i + 1] == Next(worlds[i], cfg, acts[i]) {
      assert Lockstep(acts)[i] == InLockstep(acts[i]) && Possible(worlds[i], Lockstep(acts)[i]);
    }
  }

  lemma {:induction false} SalesAreDebitedIff(worlds: seq<World>, cfg: Config, acts: seq<Action>, x: Address, n: nat)
    requires History(worlds, cfg, Lockstep(acts)) && worlds[0] == START && n <= |acts|
    ensures var sold, debits := Sold(worlds, Lockstep(acts), x, n), DebitsTo(worlds[n].db.transfers, x);
      sold >= debits && (sold == debits <==> forall i :: 0 <= i < n ==> !LeavesPrice(worlds[i], acts[i], x))
  {
    if n > 0 {
      SalesAreDebitedIff(worlds, cfg, acts, x, n - 1);
      StartSimulates(cfg);
      HistoryIsRun(worlds, cfg, acts);
      RunSimulates(worlds, cfg, acts);
      AlwaysOneEscrow(worlds, cfg, Lockstep(acts), n - 1);
      LockstepAccount(worlds[n - 1], cfg, acts[n - 1], x);
      SaleIsDebitedIff(worlds[n - 1], cfg, acts[n - 1], x);
    }
  }

  /** All that an account has had out of the market, or can have, and what it may expect of it. */
  function Worth(w: World, x: Address): int {
    Balance(w.chain, Mirror(x)) + PayoutsTo(w.db.transfers, x)
  }

  function Due(w: World, spent: nat, x: Address): int {
    PaidIn(w.db.transfers, x) + EarnedBy(w.db.trades, x) - spent
  }

  lemma WorthSums(worlds: seq<World>, cfg: Config, events: seq<Event>, x: Address, n: nat)
    requires History(worlds, cfg, events) && worlds[0] == START && n <= |events|
    ensures Worth(worlds[n], x) == Due(worlds[n], Spent(worlds, events, x, n), x) - Unseen(worlds, events, x, n)
                                   + Sold(worlds, events, x, n) - DebitsTo(worlds[n].db.transfers, x)
  {
    PayoutsByAccount(worlds, cfg, events, x, n);
    BalanceByAccount(worlds, cfg, events, x, n);
    CreditsSplit(worlds[n].db.transfers, x);
  }

  /**
   * What an account is worth. Over every lockstep run its balance and its payouts together are what it paid in and
   * earned less what it spent, and possibly more but never less; they are exactly that if and only if each of its sales
   * at a positive price was booked and its debit reached the chain.
   */
  lemma WorthByAccount(worlds: seq<World>, cfg: Config, acts: seq<Action>, x: Address)
    requires History(worlds, cfg, Lockstep(acts)) && worlds[0] == START
    ensures var worth, due := Worth(worlds[|acts|], x), Due(worlds[|acts|], Spent(worlds, Lockstep(acts), x, |acts|), x);
      && worth >= due
      && (worth == due <==> forall i :: 0 <= i < |acts| ==> !LeavesPrice(worlds[i], acts[i], x))
  {
    NothingUnseen(worlds, Lockstep(acts), x, |acts|);
    WorthSums(worlds, cfg, Lockstep(acts), x, |acts|);
    SalesAreDebitedIff(worlds, cfg, acts, x, |acts|);
  }

  lemma {:induction false} NothingUnseen(worlds: seq<World>, events: seq<Event>, x: Address, n: nat)
    requires n <= |events| < |worlds| && forall i :: 0 <= i < n ==> !events[i].Missed?
    ensures Unseen(worlds, events, x, n) == 0
  {
    if n > 0 {
      NothingUnseen(worlds, events, x, n - 1);
    }
  }

  // ---------- deposits ----------

  /** All deposits registered for `x`, in any state; debits do not count. */
  function DepositedBy(ts: seq<MoneyTransfer>, x: Address): nat {
    if ts == [] then 0
    else
      var t := ts[|ts| - 1];
      DepositedBy(ts[..|ts| - 1], x) + if t.kind == Deposit && t.address == x && t.amount > 0 then t.amount else 0
  }

  lemma DepositAppend(ts: seq<MoneyTransfer>, t: MoneyTransfer, x: Address)
    ensures DepositedBy(ts + [t], x)
         == DepositedBy(ts, x) + if t.kind == Deposit && t.address == x && t.amount > 0 then t.amount else 0
  {
    assert (ts + [t])[..|ts|] == ts;
  }

  lemma {:induction false} DepositStatus(ts: seq<MoneyTransfer>, i: nat, status: TransferStatus, x: Address)
    requires i < |ts|
    ensures DepositedBy(ts[i := ts[i].(status := status)], x) == DepositedBy(ts, x)
  {
    var n, t := |ts| - 1, ts[i].(status := status);
    if i == n {
      assert ts[i := t][..n] == ts[..n];
    } else {
      assert ts[i := t][..n] == ts[..n][i := t];
      DepositStatus(ts[..n], i, status, x);
    }
  }

  /** A booked purchase registers no deposit. */
  lemma BookingDeposits(w: World, ask: AskRow, t: Token, buyer: Address, payout: int, reached: bool, x: Address)
    ensures DepositedBy(PurchaseBooked(w, ask, t, buyer, payout, reached).db.transfers, x) == DepositedBy(w.db.transfers, x)
  {
    var registered := World(w.chain, TradeRegistered(w.db, ask, t, buyer, payout));
    var n := |w.db.transfers|;
    var debited := BalanceModified(registered, n, reached);
    DepositAppend(w.db.transfers, registered.db.transfers[n], x);
    DepositStatus(registered.db.transfers, n, debited.db.transfers[n].status, x);
    DepositAppend(debited.db.transfers, MoneyTransfer(Withdraw, PendingTransfer, payout, ask.seller), x);
  }

  function SentBy(e: Event, x: Address): nat {
    if e.InLockstep? && e.act.KusamaDeposit? && e.act.address == x then e.act.amount else 0
  }

  lemma ReplayDeposits(w: World, cfg: Config, act: Action, x: Address)
    requires act.BuyKSM?
    ensures DepositedBy(BuyReplayed(w, cfg, act.ask, act.t, act.buyer, act.reached).db.transfers, x)
         == DepositedBy(w.db.transfers, x)
  {
    if IsBooked(w.db, act) {
      BookingDeposits(w, act.ask.value, act.t, PairOf(w.db, act.buyer).value,
                      PriceWithoutCommission(act.ask.value.price, cfg.commission), act.reached, x);
    }
  }

  lemma LockstepDeposits(w: World, cfg: Config, act: Action, x: Address)
    requires Enabled(w, act)
    ensures DepositedBy(Next(w, cfg, act).db.transfers, x) == DepositedBy(w.db.transfers, x) + SentBy(InLockstep(act), x)
  {
    match act
    case KusamaDeposit(amount, address) =>
      DepositAppend(w.db.transfers, MoneyTransfer(Deposit, PendingTransfer, amount, address), x);
    case CreditDeposit(row, _) => DepositStatus(w.db.transfers, row, Next(w, cfg, act).db.transfers[row].status, x);
    case BuyKSM(_, _, _, _, _, _) => ReplayDeposits(World(ChainStep(w.chain, act).value, w.db), cfg, act, x);
    case WithdrawAllKSM(_, _) => DepositAppend(w.db.transfers, Next(w, cfg, act).db.transfers[|w.db.transfers|], x);
    case _ =>
  }

  lemma EventDeposits(w: World, cfg: Config, e: Event, x: Address)
    requires Possible(w, e)
    ensures DepositedBy(Happened(w, cfg, e).db.transfers, x) == DepositedBy(w.db.transfers, x) + SentBy(e, x)
  {
    match e
    case InLockstep(act) => LockstepDeposits(w, cfg, act, x);
    case Missed(_) =>
    case Misdirected(act) =>
      if act.BuyKSM? {
        ReplayDeposits(w, cfg, act, x);
      }
  }

  /** What `x` had sent to the market on Kusama by world `n`. */
  function Sent(events: seq<Event>, x: Address, n: nat): nat
    requires n <= |events|
  {
    if n == 0 then 0 else Sent(events, x, n - 1) + SentBy(events[n - 1], x)
  }

  lemma {:induction false} PaidInBound(ts: seq<MoneyTransfer>, x: Address)
    ensures PaidIn(ts, x) <= DepositedBy(ts, x)
    ensures PaidIn(ts, x) == DepositedBy(ts, x) <==>
      forall i :: 0 <= i < |ts| && ts[i].kind == Deposit && ts[i].address == x && ts[i].amount > 0 ==>
        ts[i].status == Completed
  {
    if ts != [] {
      var n := |ts| - 1;
      PaidInBound(ts[..n], x);
      assert forall i :: 0 <= i < n ==> ts[..n][i] == ts[i];
    }
  }

  /**
   * Deposits account by account. Over every history the deposits registered for an account are what it sent on Kusama,
   * and all of it has been paid in if and only if each of its deposit rows has completed.
   */
  lemma {:induction false} DepositsByAccount(worlds: seq<World>, cfg: Config, events: seq<Event>, x: Address, n: nat)
    requires History(worlds, cfg, events) && worlds[0] == START && n <= |events|
    ensures var ts := worlds[n].db.transfers;
      && DepositedBy(ts, x) == Sent(events, x, n)
      && PaidIn(ts, x) <= Sent(events, x, n)
      && (PaidIn(ts, x) == Sent(events, x, n) <==>
            forall i :: 0 <= i < |ts| && ts[i].kind == Deposit && ts[i].address == x && ts[i].amount > 0 ==>
              ts[i].status == Completed)
  {
    if n > 0 {
      DepositsByAccount(worlds, cfg, events, x, n - 1);
      EventDeposits(worlds[n - 1], cfg, events[n - 1], x);
    }
    PaidInBound(worlds[n].db.transfers, x);
  }

  /** A credit completes its row exactly when it reaches the chain and does not overflow the balance, and else fails it. */
  lemma CreditExactly(w: World, cfg: Config, row: nat, reached: bool)
    requires OnlyEscrow(w) && Enabled(w, CreditDeposit(row, reached))
    ensures var w', t := Next(w, cfg, CreditDeposit(row, reached)), w.db.transfers[row];
      var done := reached && Balance(w.chain, Mirror(t.address)) + t.amount <= MAX_UINT256;
      && w'.db.transfers == w.db.transfers[row := t.(status := if done then Completed else FailedTransfer)]
      && w'.db.pairs == w.db.pairs + {t.address} && w'.db.offers == w.db.offers && w'.db.trades == w.db.trades
      && (!done ==> w'.chain == w.chain)
  {}

  // ---------- account pairs ----------

  /** The event makes the escrow register `x` with its mirror. */
  predicate Registers(w: World, cfg: Config, e: Event, x: Address) {
    && !e.Missed?
    && (|| (e.act.AddAsk? && e.act.t.collection in cfg.managed && e.act.signer == x)
        || (IsBooked(w.db, e.act) && e.act.ask.value.seller == x)
        || (e.InLockstep? && e.act.CreditDeposit? && e.act.row < |w.db.transfers|
            && w.db.transfers[e.act.row].address == x))
  }

  /**
   * Who has a pair, and so may buy without breaking the replay: over every history exactly the accounts that have
   * offered a managed token, sold one, or had a deposit credited.
   */
  lemma {:induction false} PairsAreExact(worlds: seq<World>, cfg: Config, events: seq<Event>, x: Address, n: nat)
    requires History(worlds, cfg, events) && worlds[0] == START && n <= |events|
    ensures x in worlds[n].db.pairs <==> exists i :: 0 <= i < n && Registers(worlds[i], cfg, events[i], x)
  {
    if n > 0 {
      PairsAreExact(worlds, cfg, events, x, n - 1);
      RegistersExactly(worlds[n - 1], cfg, events[n - 1], x);
    }
  }

  lemma RegistersExactly(w: World, cfg: Config, e: Event, x: Address)
    requires Possible(w, e)
    ensures x in Happened(w, cfg, e).db.pairs <==> x in w.db.pairs || Registers(w, cfg, e, x)
  {}
}
