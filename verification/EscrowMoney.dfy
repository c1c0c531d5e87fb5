/** Conservation of KSM between the contract, the payouts and the commissions, whatever is replayed or missed. */
module EscrowMoney {
  import opened Common
  import opened MarketContract
  import opened EscrowMachine
  import opened EscrowLaws
  import opened EscrowEvents

  /** What a `money_transfer` row stands for in the books. */
  datatype Heading = Deposits | LostDebits | Payouts

  /**
   * Deposits are completed and positive; payouts are registered withdrawals in any state; a lost debit is a
   * seller's debit that never reached the contract.
   */
  function Share(t: MoneyTransfer, h: Heading): int {
    match h
    case Deposits => if t.kind == Deposit && t.status == Completed && t.amount >= 0 then t.amount else 0
    case LostDebits => if t.kind == Deposit && t.status == FailedTransfer && t.amount < 0 then -t.amount else 0
    case Payouts => if t.kind == Withdraw then t.amount else 0
  }

  function Booked(ts: seq<MoneyTransfer>, h: Heading): int {
    if ts == [] then 0 else Booked(ts[..|ts| - 1], h) + Share(ts[|ts| - 1], h)
  }

  function Commissions(trades: seq<TradeRow>): int {
    if trades == [] then 0 else Commissions(trades[..|trades| - 1]) + trades[|trades| - 1].commission
  }

  lemma BookedAppend(ts: seq<MoneyTransfer>, t: MoneyTransfer)
    ensures forall h :: Booked(ts + [t], h) == Booked(ts, h) + Share(t, h)
  {
    assert (ts + [t])[..|ts|] == ts;
  }

  lemma CommissionsAppend(trades: seq<TradeRow>, t: TradeRow)
    ensures Commissions(trades + [t]) == Commissions(trades) + t.commission
  {
    assert (trades + [t])[..|trades|] == trades;
  }

  lemma {:induction false} BookedUpdate(ts: seq<MoneyTransfer>, i: nat, t: MoneyTransfer, h: Heading)
    requires i < |ts|
    ensures Booked(ts[i := t], h) == Booked(ts, h) - Share(ts[i], h) + Share(t, h)
  {
    var n := |ts| - 1;
    if i == n {
      assert ts[i := t][..n] == ts[..n];
    } else {
      assert ts[i := t][..n] == ts[..n][i := t];
      BookedUpdate(ts[..n], i, t, h);
    }
  }

  /** What the books hold beyond what came in: balances, payouts and commissions, less deposits and lost debits. */
  ghost function Surplus(w: World): int {
    SumOf(w.chain.balanceKSM) + Booked(w.db.transfers, Payouts) + Commissions(w.db.trades)
      - Booked(w.db.transfers, Deposits) - Booked(w.db.transfers, LostDebits)
  }

  ghost predicate PendingArePositive(w: World) {
    forall i :: 0 <= i < |w.db.transfers| && IsPendingDeposit(w.db.transfers[i]) ==> w.db.transfers[i].amount >= 0
  }

  lemma SumOfCall(c: Storage, amount: int, x: Address)
    requires Indexed(c) && BalanceCall(c, amount, x).Some?
    ensures SumOf(BalanceCall(c, amount, x).value.balanceKSM) == SumOf(c.balanceKSM) + amount
  {
    BalanceTotals(c, if amount < 0 then CallWithdraw(ESCROW, -amount, Mirror(x))
        else CallDeposit(ESCROW, amount, Mirror(x)));
  }

  /** The call for a row gets to the contract and is not reverted there. */
  predicate Arrives(c: Storage, amount: int, x: Address, reached: bool) {
    reached && BalanceCall(c, amount, x).Some?
  }

  /** Sending one pending row to the contract keeps the surplus; a debit that does not arrive is lost. */
  lemma ModifiedBooks(w: World, i: nat, reached: bool)
    requires Indexed(w.chain) && i < |w.db.transfers| && IsPendingDeposit(w.db.transfers[i])
    ensures var w', row := BalanceModified(w, i, reached), w.db.transfers[i];
      var loss := if row.amount < 0 && !Arrives(w.chain, row.amount, row.address, reached) then -row.amount else 0;
      && Surplus(w') == Surplus(w) + (if row.amount < 0 then row.amount else 0)
      && Booked(w'.db.transfers, LostDebits) == Booked(w.db.transfers, LostDebits) + loss
  {
    var row, row' := w.db.transfers[i], BalanceModified(w, i, reached).db.transfers[i];
    BookedUpdate(w.db.transfers, i, row', Deposits);
    BookedUpdate(w.db.transfers, i, row', LostDebits);
    BookedUpdate(w.db.transfers, i, row', Payouts);
    if Arrives(w.chain, row.amount, row.address, reached) {
      SumOfCall(w.chain, row.amount, row.address);
    }
  }

  /** What a booked purchase loses when the seller's debit does not arrive. */
  function DebitLoss(c: Storage, ask: AskRow, reached: bool): nat {
    if Arrives(c, 0 - ask.price, ask.seller, reached) then 0 else ask.price
  }

  /** Registering a trade books its commission and leaves the debit pending. */
  lemma TradeBooks(w: World, ask: AskRow, t: Token, buyer: Address, payout: int)
    ensures var registered := World(w.chain, TradeRegistered(w.db, ask, t, buyer, payout));
      && Surplus(registered) == Surplus(w) + ask.price - payout
      && Booked(registered.db.transfers, LostDebits) == Booked(w.db.transfers, LostDebits)
  {
    var registered := World(w.chain, TradeRegistered(w.db, ask, t, buyer, payout));
    assert forall h :: Booked(registered.db.transfers, h) == Booked(w.db.transfers, h) by {
      var debit: int := 0 - ask.price;
      var row := MoneyTransfer(Deposit, PendingTransfer, debit, ask.seller);
      assert forall h :: Share(row, h) == 0;
      BookedAppend(w.db.transfers, row);
    }
    assert Commissions(registered.db.trades) == Commissions(w.db.trades) + ask.price - payout by {
      CommissionsAppend(w.db.trades,
        TradeRow(ask.token, ask.seller, buyer, payout, ask.price, ask.price - payout, ask.blockAsk));
    }
  }

  lemma PayoutBooks(w: World, payout: int, x: Address)
    ensures var w' := World(w.chain, WithdrawRegistered(w.db, payout, x));
      Surplus(w') == Surplus(w) + payout && Booked(w'.db.transfers, LostDebits) == Booked(w.db.transfers, LostDebits)
  {
    var w' := World(w.chain, WithdrawRegistered(w.db, payout, x));
    assert forall h :: Booked(w'.db.transfers, h) == Booked(w.db.transfers, h) + (if h == Payouts then payout else 0) by {
      var row := MoneyTransfer(Withdraw, PendingTransfer, payout, x);
      assert forall h :: Share(row, h) == if h == Payouts then payout else 0;
      BookedAppend(w.db.transfers, row);
    }
  }

  lemma PurchaseKeepsPending(w: World, ask: AskRow, t: Token, buyer: Address, payout: int, reached: bool)
    requires PendingArePositive(w)
    ensures PendingArePositive(PurchaseBooked(w, ask, t, buyer, payout, reached))
  {}

  /** Booking a purchase: trade, debit and payout cancel out, and what the debit does not bring is lost. */
  lemma PurchaseBooks(w: World, ask: AskRow, t: Token, buyer: Address, payout: int, reached: bool)
    requires Indexed(w.chain)
    ensures var w' := PurchaseBooked(w, ask, t, buyer, payout, reached);
      && Surplus(w') == Surplus(w)
      && Booked(w'.db.transfers, LostDebits) == Booked(w.db.transfers, LostDebits) + DebitLoss(w.chain, ask, reached)
  {
    var registered := World(w.chain, TradeRegistered(w.db, ask, t, buyer, payout));
    var debited := BalanceModified(registered, |w.db.transfers|, reached);
    TradeBooks(w, ask, t, buyer, payout);
    assert && Surplus(debited) == Surplus(registered) - ask.price
           && Booked(debited.db.transfers, LostDebits)
              == Booked(registered.db.transfers, LostDebits) + DebitLoss(w.chain, ask, reached) by {
      ModifiedBooks(registered, |w.db.transfers|, reached);
    }
    PayoutBooks(debited, payout, ask.seller);
  }

  // ---------- one event ----------

  /** What an event loses: the price of a booked purchase whose debit does not arrive. */
  ghost function LostBy(w: World, e: Event): nat
    requires Possible(w, e)
  {
    if e.Missed? || !IsBooked(w.db, e.act) then 0
    else DebitLoss(if e.InLockstep? then ChainStep(w.chain, e.act).value else w.chain, e.act.ask.value, e.act.reached)
  }

  /** What an event takes off a balance without a payout: a missed withdrawal. */
  function EmptiedBy(w: World, e: Event): nat {
    if e.Missed? && e.act.WithdrawAllKSM? then Balance(w.chain, e.act.x) else 0
  }

  lemma BuyBooks(w: World, cfg: Config, act: Action)
    requires PendingArePositive(w) && act.BuyKSM? && Enabled(w, act)
    ensures var w' := Next(w, cfg, act);
      && Surplus(w') == Surplus(w) && PendingArePositive(w')
      && Booked(w'.db.transfers, LostDebits) == Booked(w.db.transfers, LostDebits) + LostBy(w, InLockstep(act))
  {
    var sold := World(ChainStep(w.chain, act).value, w.db);
    assert Indexed(sold.chain) && SumOf(sold.chain.balanceKSM) == SumOf(w.chain.balanceKSM) by {
      PurchaseMovesPrice(w.chain, Mirror(act.signer), act.t, act.buyer, act.receiver);
      forall u ensures AskOf(sold.chain, u) < |sold.chain.orders| { assert AskOf(w.chain, u) < |w.chain.orders|; }
    }
    ReplayBooks(sold, cfg, act);
  }

  /** The replay of a purchase, wherever the call went. */
  lemma ReplayBooks(w: World, cfg: Config, act: Action)
    requires Indexed(w.chain) && PendingArePositive(w) && act.BuyKSM?
    ensures var w' := BuyReplayed(w, cfg, act.ask, act.t, act.buyer, act.reached);
      && Surplus(w') == Surplus(w) && PendingArePositive(w')
      && Booked(w'.db.transfers, LostDebits) == Booked(w.db.transfers, LostDebits)
           + (if IsBooked(w.db, act) then DebitLoss(w.chain, act.ask.value, act.reached) else 0)
  {
    if IsBooked(w.db, act) {
      var payout := PriceWithoutCommission(act.ask.value.price, cfg.commission);
      PurchaseBooks(w, act.ask.value, act.t, PairOf(w.db, act.buyer).value, payout, act.reached);
      PurchaseKeepsPending(w, act.ask.value, act.t, PairOf(w.db, act.buyer).value, payout, act.reached);
    }
  }

  lemma WithdrawAllBooks(w: World, cfg: Config, act: Action)
    requires PendingArePositive(w) && act.WithdrawAllKSM? && Enabled(w, act)
    ensures var w' := Next(w, cfg, act);
      && Surplus(w') == Surplus(w) && PendingArePositive(w')
      && Booked(w'.db.transfers, LostDebits) == Booked(w.db.transfers, LostDebits)
    ensures SumOf(ChainStep(w.chain, act).value.balanceKSM) == SumOf(w.chain.balanceKSM) - Balance(w.chain, act.x)
  {
    BalanceTotals(w.chain, CallWithdrawAll(Mirror(act.signer), act.x));
    BookedAppend(w.db.transfers, Next(w, cfg, act).db.transfers[|w.db.transfers|]);
  }

  lemma StepBooks(w: World, cfg: Config, act: Action)
    requires PendingArePositive(w) && Enabled(w, act)
    ensures var w' := Next(w, cfg, act);
      && Surplus(w') == Surplus(w) && PendingArePositive(w')
      && Booked(w'.db.transfers, LostDebits) == Booked(w.db.transfers, LostDebits) + LostBy(w, InLockstep(act))
  {
    match act
    case KusamaDeposit(amount, address) =>
      BookedAppend(w.db.transfers, MoneyTransfer(Deposit, PendingTransfer, amount, address));
    case CreditDeposit(row, reached) => ModifiedBooks(w, row, reached);
    case BuyKSM(_, _, _, _, _, _) => BuyBooks(w, cfg, act);
    case WithdrawAllKSM(_, _) => WithdrawAllBooks(w, cfg, act);
    case _ =>
  }

  lemma MissedBooks(w: World, cfg: Config, act: Action)
    requires Possible(w, Missed(act))
    ensures var w' := Happened(w, cfg, Missed(act));
      Surplus(w') == Surplus(w) - EmptiedBy(w, Missed(act)) && w'.db == w.db
  {
    match act
    case BuyKSM(signer, t, buyer, receiver, _, _) => PurchaseMovesPrice(w.chain, Mirror(signer), t, buyer, receiver);
    case WithdrawAllKSM(signer, x) => BalanceTotals(w.chain, CallWithdrawAll(Mirror(signer), x));
    case _ =>
  }

  lemma EventBooks(w: World, cfg: Config, e: Event)
    requires PendingArePositive(w) && Possible(w, e)
    ensures var w' := Happened(w, cfg, e);
      && Surplus(w') == Surplus(w) - EmptiedBy(w, e) && PendingArePositive(w')
      && Booked(w'.db.transfers, LostDebits) == Booked(w.db.transfers, LostDebits) + LostBy(w, e)
  {
    match e
    case InLockstep(act) => StepBooks(w, cfg, act);
    case Missed(act) => MissedBooks(w, cfg, act);
    case Misdirected(act) =>
      if act.BuyKSM? {
        ReplayBooks(w, cfg, act);
      }
  }

  // ---------- whole histories ----------

  /** All that missed withdrawals took off balances. */
  ghost function Emptied(worlds: seq<World>, events: seq<Event>, n: nat): nat
    requires n <= |events| < |worlds|
  {
    if n == 0 then 0 else Emptied(worlds, events, n - 1) + EmptiedBy(worlds[n - 1], events[n - 1])
  }

  /** The equation of the books at world `n`. */
  ghost predicate Balanced(worlds: seq<World>, events: seq<Event>, n: nat)
    requires n <= |events| < |worlds|
  {
    var w := worlds[n];
    SumOf(w.chain.balanceKSM) + Booked(w.db.transfers, Payouts) + Commissions(w.db.trades) + Emptied(worlds, events, n)
      == Booked(w.db.transfers, Deposits) + Booked(w.db.transfers, LostDebits)
  }

  /**
   * KSM is conserved over every history, whatever is missed or misdirected: balances on the contract, registered
   * payouts, commissions and what missed withdrawals emptied add up to the completed deposits and the lost debits.
   */
  lemma {:induction false} KsmIsConserved(worlds: seq<World>, cfg: Config, events: seq<Event>, n: nat)
    requires History(worlds, cfg, events) && worlds[0] == START && n <= |events|
    ensures Balanced(worlds, events, n) && PendingArePositive(worlds[n])
  {
    if n > 0 {
      KsmIsConserved(worlds, cfg, events, n - 1);
      EventBooks(worlds[n - 1], cfg, events[n - 1]);
    }
  }

  /** Debits are lost exactly when some booked purchase at a positive price has a debit that does not arrive. */
  lemma {:induction false} DebitsAreLostIff(worlds: seq<World>, cfg: Config, events: seq<Event>, n: nat)
    requires History(worlds, cfg, events) && worlds[0] == START && n <= |events|
    ensures Booked(worlds[n].db.transfers, LostDebits) >= 0
    ensures Booked(worlds[n].db.transfers, LostDebits) == 0
       <==> forall i :: 0 <= i < n ==> LostBy(worlds[i], events[i]) == 0
  {
    if n > 0 {
      DebitsAreLostIff(worlds, cfg, events, n - 1);
      KsmIsConserved(worlds, cfg, events, n - 1);
      EventBooks(worlds[n - 1], cfg, events[n - 1]);
    }
  }

  lemma {:induction false} NothingIsEmptied(worlds: seq<World>, events: seq<Event>, n: nat)
    requires n <= |events| < |worlds| && forall i :: 0 <= i < n ==> !events[i].Missed?
    ensures Emptied(worlds, events, n) == 0
  {
    if n > 0 {
      NothingIsEmptied(worlds, events, n - 1);
    }
  }

  /** In a scanned history without a throw no call is missed, and so nothing is emptied unseen. */
  lemma NothingIsMissedWithoutThrow(worlds: seq<World>, cfg: Config, events: seq<Event>, blocks: seq<nat>)
    requires Scanned(worlds, cfg, events, blocks)
    requires forall i :: 0 <= i < |events| ==> !Throws(worlds[i], events[i])
    ensures forall i :: 0 <= i < |events| ==> !events[i].Missed?
    ensures Emptied(worlds, events, |events|) == 0
  {
    forall i | 0 <= i < |events| ensures !events[i].Missed? {
      assert Possible(worlds[i], events[i]);
      assert !AfterThrow(worlds, events, blocks, i);
    }
    NothingIsEmptied(worlds, events, |events|);
  }

  /** After a replayed purchase the seller's balance covers the price, so the escrow's debit cannot revert. */
  lemma DebitNeverReverts(w: World, cfg: Config, act: Action)
    requires Simulates(w, cfg) && IsBooked(w.db, act) && Enabled(w, act)
    ensures BalanceCall(ChainStep(w.chain, act).value, 0 - act.ask.value.price, act.ask.value.seller).Some?
    ensures LostBy(w, InLockstep(act)) == if act.reached then 0 else act.ask.value.price
  {
    PurchaseMovesPrice(w.chain, Mirror(act.signer), act.t, act.buyer, act.receiver);
    assert Quotes(w.chain, act.ask.value);
  }

  /** A booked purchase at a positive price whose debit does not reach the chain. */
  predicate DropsDebit(w: World, act: Action) {
    IsBooked(w.db, act) && act.ask.value.price > 0 && !act.reached
  }

  /**
   * In lockstep, the completed deposits are accounted for exactly, as balances, payouts and commissions, if and only
   * if no booked purchase at a positive price had a debit that did not reach the chain.
   */
  lemma ExactInLockstepIff(worlds: seq<World>, cfg: Config, acts: seq<Action>)
    requires Run(worlds, cfg, acts) && worlds[0] == START
    ensures var w := worlds[|acts|];
      SumOf(w.chain.balanceKSM) + Booked(w.db.transfers, Payouts) + Commissions(w.db.trades)
        == Booked(w.db.transfers, Deposits)
      <==> forall i :: 0 <= i < |acts| ==> !DropsDebit(worlds[i], acts[i])
  {
    var events, n := Lockstep(acts), |acts|;
    RunIsHistory(worlds, cfg, acts);
    KsmIsConserved(worlds, cfg, events, n);
    NothingIsEmptied(worlds, events, n);
    DebitsAreLostIff(worlds, cfg, events, n);
    StartSimulates(cfg);
    RunSimulates(worlds, cfg, acts);
    forall i | 0 <= i < n ensures LostBy(worlds[i], events[i]) == 0 <==> !DropsDebit(worlds[i], acts[i]) {
      if IsBooked(worlds[i].db, acts[i]) {
        DebitNeverReverts(worlds[i], cfg, acts[i]);
      }
    }
  }

  // ---------- a lost debit ----------

  /** The world in which `buyer` has `price` on the contract and `seller` has offered `t` for it. */
  function PaidOffer(t: Token, seller: Address, buyer: Address, price: nat): World {
    World(START.chain.(orders := [NO_ORDER, Order(t, ZERO, price, 0, Mirror(seller), 1)], asks := map[t := 1],
                       balanceKSM := map[Mirror(buyer) := price], nftOwner := map[t := MARKET]),
          Tables([AskRow(t, seller, price, AskActive, 0)], [],
                 [MoneyTransfer(Deposit, Completed, price, buyer)], {buyer, seller}))
  }

  lemma DepositIsReached(cfg: Config, buyer: Address, price: nat)
    requires price <= MAX_UINT256
    ensures var deposited := START.(db := START.db.(transfers := [MoneyTransfer(Deposit, PendingTransfer, price, buyer)]));
      Run([START, deposited, CreditedBuyer(buyer, price)], cfg, [KusamaDeposit(price, buyer), CreditDeposit(0, true)])
  {
    var deposited := START.(db := START.db.(transfers := [MoneyTransfer(Deposit, PendingTransfer, price, buyer)]));
    var w, acts := CreditedBuyer(buyer, price), [KusamaDeposit(price, buyer), CreditDeposit(0, true)];
    assert Enabled(START, acts[0]) && Next(START, cfg, acts[0]).db == deposited.db;
    assert Enabled(deposited, acts[1]);
    assert Next(deposited, cfg, acts[1]).chain == w.chain && Next(deposited, cfg, acts[1]).db == w.db;
  }

  function CreditedBuyer(buyer: Address, price: nat): World {
    World(START.chain.(balanceKSM := map[Mirror(buyer) := price]),
          START.db.(transfers := [MoneyTransfer(Deposit, Completed, price, buyer)], pairs := {buyer}))
  }

  lemma PaidOfferIsMade(cfg: Config, t: Token, seller: Address, buyer: Address, price: nat)
    requires t.collection in cfg.managed
    ensures var w := CreditedBuyer(buyer, price);
      Run([w, w.(chain := w.chain.(nftOwner := map[t := Mirror(seller)])), PaidOffer(t, seller, buyer, price)], cfg,
          [NftMoved(t, Mirror(seller)), AddAsk(seller, price, ZERO, t, 0, true, 0)])
  {
    var w := CreditedBuyer(buyer, price);
    var minted := w.(chain := w.chain.(nftOwner := map[t := Mirror(seller)]));
    var act := AddAsk(seller, price, ZERO, t, 0, true, 0);
    assert Enabled(w, NftMoved(t, Mirror(seller))) && Next(w, cfg, NftMoved(t, Mirror(seller))) == minted;
    assert Enabled(minted, act);
    assert Next(minted, cfg, act).chain == PaidOffer(t, seller, buyer, price).chain;
    assert Next(minted, cfg, act).db == PaidOffer(t, seller, buyer, price).db;
  }

  /** The purchase whose debit is dropped. */
  function DroppedPurchase(t: Token, seller: Address, buyer: Address, price: nat): Action {
    BuyKSM(buyer, t, Mirror(buyer), Mirror(buyer), Some(AskRow(t, seller, price, AskActive, 0)), false)
  }

  lemma NothingLostYet(t: Token, seller: Address, buyer: Address, price: nat)
    ensures Booked(PaidOffer(t, seller, buyer, price).db.transfers, LostDebits) == 0
  {
    var row := MoneyTransfer(Deposit, Completed, price, buyer);
    assert PaidOffer(t, seller, buyer, price).db.transfers == [] + [row] && Share(row, LostDebits) == 0;
    BookedAppend([], row);
  }

  lemma DroppedPurchaseIsEnabled(t: Token, seller: Address, buyer: Address, price: nat)
    requires buyer != seller && price <= MAX_UINT256
    ensures Enabled(PaidOffer(t, seller, buyer, price), DroppedPurchase(t, seller, buyer, price))
  {
    var w, act := PaidOffer(t, seller, buyer, price), DroppedPurchase(t, seller, buyer, price);
    assert AskOf(w.chain, t) == 1 && w.db.offers[0] == act.ask.value;
  }

  lemma DroppedDebitBooks(cfg: Config, t: Token, seller: Address, buyer: Address, price: nat)
    requires buyer != seller && price <= MAX_UINT256
    ensures var w, act := PaidOffer(t, seller, buyer, price), DroppedPurchase(t, seller, buyer, price);
      Enabled(w, act) && Booked(Next(w, cfg, act).db.transfers, LostDebits) == price
  {
    var w, act := PaidOffer(t, seller, buyer, price), DroppedPurchase(t, seller, buyer, price);
    DroppedPurchaseIsEnabled(t, seller, buyer, price);
    NothingLostYet(t, seller, buyer, price);
    assert PendingArePositive(w) && LostBy(w, InLockstep(act)) == price;
    BuyBooks(w, cfg, act);
  }

  /** Two runs, one after the other. */
  lemma JoinRuns(worlds: seq<World>, worlds': seq<World>, cfg: Config, acts: seq<Action>, acts': seq<Action>)
    requires Run(worlds, cfg, acts) && Run(worlds', cfg, acts') && worlds[|acts|] == worlds'[0]
    ensures Run(worlds + worlds'[1..], cfg, acts + acts')
    ensures (worlds + worlds'[1..])[|acts + acts'|] == worlds'[|acts'|]
  {
    var all, both, n := worlds + worlds'[1..], acts + acts', |acts|;
    forall i | 0 <= i < |both| ensures Enabled(all[i], both[i]) && all[i + 1] == Next(all[i], cfg, both[i]) {
      if i < n {
        assert all[i] == worlds[i] && all[i + 1] == worlds[i + 1] && both[i] == acts[i];
      } else {
        assert all[i] == worlds'[i - n] && all[i + 1] == worlds'[i - n + 1] && both[i] == acts'[i - n];
      }
    }
  }

  lemma DroppedDebitIsReached(cfg: Config, t: Token, seller: Address, buyer: Address, price: nat)
    returns (worlds: seq<World>, acts: seq<Action>)
    requires t.collection in cfg.managed && buyer != seller && price <= MAX_UINT256
    ensures Run(worlds, cfg, acts) && worlds[0] == START
    ensures Booked(worlds[|acts|].db.transfers, LostDebits) == price
  {
    var deposited := START.(db := START.db.(transfers := [MoneyTransfer(Deposit, PendingTransfer, price, buyer)]));
    var w1, w3 := CreditedBuyer(buyer, price), PaidOffer(t, seller, buyer, price);
    var act := DroppedPurchase(t, seller, buyer, price);
    var w2 := w1.(chain := w1.chain.(nftOwner := map[t := Mirror(seller)]));
    DepositIsReached(cfg, buyer, price);
    PaidOfferIsMade(cfg, t, seller, buyer, price);
    DroppedDebitBooks(cfg, t, seller, buyer, price);
    var w4 := Next(w3, cfg, act);
    var acts1 := [KusamaDeposit(price, buyer), CreditDeposit(0, true)];
    var acts2 := [NftMoved(t, Mirror(seller)), AddAsk(seller, price, ZERO, t, 0, true, 0)];
    JoinRuns([START, deposited, w1], [w1, w2, w3], cfg, acts1, acts2);
    worlds, acts := [START, deposited, w1] + [w1, w2, w3][1..], acts1 + acts2;
    JoinRuns(worlds, [w3, w4], cfg, acts, [act]);
    worlds, acts := worlds + [w3, w4][1..], acts + [act];
  }

  /** A run in which the debit of a sale does not reach the chain: the price is on the books twice. */
  lemma DroppedDebitIsOwedTwice(cfg: Config, t: Token, seller: Address, buyer: Address, price: nat)
    returns (worlds: seq<World>, acts: seq<Action>)
    requires t.collection in cfg.managed && buyer != seller && price <= MAX_UINT256
    ensures Run(worlds, cfg, acts) && worlds[0] == START
    ensures var w := worlds[|acts|];
      SumOf(w.chain.balanceKSM) + Booked(w.db.transfers, Payouts) + Commissions(w.db.trades)
        == Booked(w.db.transfers, Deposits) + price
  {
    worlds, acts := DroppedDebitIsReached(cfg, t, seller, buyer, price);
    RunIsHistory(worlds, cfg, acts);
    KsmIsConserved(worlds, cfg, Lockstep(acts), |acts|);
    NothingIsEmptied(worlds, Lockstep(acts), |acts|);
  }
}
