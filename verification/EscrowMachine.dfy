/**
 * The contract and the off-chain escrow in lockstep: each chain call is replayed into the tables before the
 * next one happens. Failed calls leave no trace in either machine, so only successful ones are steps.
 */
module EscrowMachine {
  import opened Common
  import opened MarketContract

  /** A fixed-price row of `offers`. */
  datatype AskRow = AskRow(token: Token, seller: Address, price: nat, status: AskStatus, blockAsk: nat)

  /** A fixed-price row of `market_trade`. */
  datatype TradeRow = TradeRow(token: Token, seller: Address, buyer: Address, price: int, originPrice: nat,
      commission: int, blockAsk: nat)

  /** The escrow's tables; `pairs` are the substrate accounts registered with their mirrors. */
  datatype Tables = Tables(offers: seq<AskRow>, trades: seq<TradeRow>, transfers: seq<MoneyTransfer>, pairs: set<Address>)

  datatype World = World(chain: Storage, db: Tables)

  /** The account with which the escrow calls the contract. */
  const ESCROW := Native(2)

  /** What the configuration fixes: the commission and the managed collections. */
  datatype Config = Config(commission: Percent, managed: set<nat>)

  predicate IsLive(o: AskRow) {
    o.status == AskActive || o.status == RemovedByAdmin
  }

  predicate LiveOn(o: AskRow, t: Token) {
    IsLive(o) && o.token == t
  }

  // ---------- offers ----------

  /** `cancelAsk`: every live offer on the token. */
  function CancelLive(offers: seq<AskRow>, t: Token): (r: seq<AskRow>)
    ensures |r| == |offers|
    ensures forall i :: 0 <= i < |r| ==>
        r[i] == if LiveOn(offers[i], t) then offers[i].(status := Cancelled) else offers[i]
  {
    seq(|offers|, i requires 0 <= i < |offers| =>
      if LiveOn(offers[i], t) then offers[i].(status := Cancelled) else offers[i])
  }

  predicate Buyable(o: AskRow, t: Token) {
    o.status == AskActive && o.token == t
  }

  /** `buyKSM`: only offers that are still active. */
  function BuyActive(offers: seq<AskRow>, t: Token): (r: seq<AskRow>)
    ensures |r| == |offers|
    ensures forall i :: 0 <= i < |r| ==> r[i] == if Buyable(offers[i], t) then offers[i].(status := Bought) else offers[i]
  {
    seq(|offers|, i requires 0 <= i < |offers| =>
      if Buyable(offers[i], t) then offers[i].(status := Bought) else offers[i])
  }

  function FlipByAdmin(o: AskRow): AskRow {
    match o.status
    case AskActive => o.(status := RemovedByAdmin)
    case RemovedByAdmin => o.(status := AskActive)
    case _ => o
  }

  /** `getSubstrateAddress`: the substrate account of a registered pair. */
  function PairOf(db: Tables, x: EthAccount): Option<Address> {
    match x
    case Mirror(sub) => if sub in db.pairs then Some(sub) else None
    case Native(_) => None
  }

  // ---------- balances on the contract ----------

  /** The contract call that `modifyBalanceOnContract` makes for a row. */
  function BalanceCall(c: Storage, amount: int, x: Address): Option<Storage> {
    if amount < 0 then WithdrawKSM(c, ESCROW, -amount, Mirror(x)) else DepositKSM(c, ESCROW, amount, Mirror(x))
  }

  /** `modifyBalanceOnContract` on row `i`; `reached` tells whether the call got to the chain at all. */
  function BalanceModified(w: World, i: nat, reached: bool): World
    requires i < |w.db.transfers|
  {
    var row := w.db.transfers[i];
    var r := if reached then BalanceCall(w.chain, row.amount, row.address) else None;
    World(if r.Some? then r.value else w.chain,
          w.db.(transfers := w.db.transfers[i := row.(status := if r.Some? then Completed else FailedTransfer)],
                pairs := w.db.pairs + {row.address}))
  }

  // ---------- the escrow's reaction to each call ----------

  function AskReplayed(db: Tables, cfg: Config, seller: Address, price: nat, t: Token, block: nat): Tables {
    if t.collection !in cfg.managed then db
    else db.(offers := CancelLive(db.offers, t) + [AskRow(t, seller, price, AskActive, block)],
             pairs := db.pairs + {seller})
  }

  function CancelReplayed(db: Tables, cfg: Config, t: Token): Tables {
    if t.collection !in cfg.managed then db else db.(offers := CancelLive(db.offers, t))
  }

  /** The trade and the seller's debit of a replayed purchase, before the debit is sent to the contract. */
  function TradeRegistered(db: Tables, ask: AskRow, t: Token, buyer: Address, payout: int): Tables {
    var debit: int := 0 - ask.price;
    db.(trades := db.trades + [TradeRow(ask.token, ask.seller, buyer, payout, ask.price, ask.price - payout, ask.blockAsk)],
        offers := BuyActive(db.offers, t),
        transfers := db.transfers + [MoneyTransfer(Deposit, PendingTransfer, debit, ask.seller)])
  }

  function WithdrawRegistered(db: Tables, amount: int, x: Address): Tables {
    db.(transfers := db.transfers + [MoneyTransfer(Withdraw, PendingTransfer, amount, x)])
  }

  /** A purchase with its trade, its debit, sent at once, and the seller's payout. */
  function PurchaseBooked(w: World, ask: AskRow, t: Token, buyer: Address, payout: int, reached: bool): World {
    var registered := World(w.chain, TradeRegistered(w.db, ask, t, buyer, payout));
    var debited := BalanceModified(registered, |w.db.transfers|, reached);
    World(debited.chain, WithdrawRegistered(debited.db, payout, ask.seller))
  }

  /**
   * `processBuyKSM` for the live offer that was found. Without one the purchase is not a market trade. Without a pair
   * for the buyer it is one, but its EVM address cannot be encoded: the replay throws before any row is written.
   */
  function BuyReplayed(w: World, cfg: Config, ask: Option<AskRow>, t: Token, buyer: EthAccount, reached: bool): World {
    var pair := PairOf(w.db, buyer);
    if ask.None? || pair.None? then w
    else PurchaseBooked(w, ask.value, t, pair.value, PriceWithoutCommission(ask.value.price, cfg.commission), reached)
  }

  /** `processWithdrawAllKSM`: the paired account is paid, or the signer when no pair is known. */
  function WithdrawAllReplayed(db: Tables, balance: nat, x: EthAccount, signer: Address): Tables {
    WithdrawRegistered(db, balance, match PairOf(db, x) case Some(a) => a case None => signer)
  }

  // ---------- the machine ----------

  datatype Action =
    | KusamaDeposit(amount: nat, address: Address)
    | CreditDeposit(row: nat, reached: bool)
    | AddAsk(signer: Address, price: nat, currency: EthAccount, t: Token, time: nat, approved: bool, block: nat)
    | CancelAsk(signer: Address, t: Token, time: nat)
    | BuyKSM(signer: Address, t: Token, buyer: EthAccount, receiver: EthAccount, ask: Option<AskRow>, reached: bool)
    | WithdrawAllKSM(signer: Address, x: EthAccount)
    | FlipOffer(offer: nat)
    | NftMoved(t: Token, to: EthAccount)

  predicate IsPendingDeposit(t: MoneyTransfer) {
    t.kind == Deposit && t.status == PendingTransfer
  }

  /** The contract's own part of a step, for the actions that are contract calls. */
  function ChainStep(c: Storage, act: Action): Option<Storage>
    requires act.BuyKSM? ==> AskOf(c, act.t) < |c.orders|
    requires act.CancelAsk? ==> AskOf(c, act.t) < |c.orders|
  {
    match act
    case AddAsk(signer, price, currency, t, time, approved, _) =>
      MarketContract.AddAsk(c, Mirror(signer), price, currency, t, time, approved)
    case CancelAsk(signer, t, time) => MarketContract.CancelAsk(c, Mirror(signer), t, time)
    case BuyKSM(signer, t, buyer, receiver, _, _) => MarketContract.BuyKSM(c, Mirror(signer), t, buyer, receiver)
    case WithdrawAllKSM(signer, x) => MarketContract.WithdrawAllKSM(c, Mirror(signer), x)
    case NftMoved(t, to) => MovedOutside(c, t, to)
    case _ => Some(c)
  }

  /** A purchase that the escrow books: there is a live offer, and the buyer has a pair. */
  predicate IsBooked(db: Tables, act: Action) {
    act.BuyKSM? && act.ask.Some? && PairOf(db, act.buyer).Some?
  }

  ghost predicate FoundAsk(offers: seq<AskRow>, t: Token, ask: Option<AskRow>) {
    match ask
    case Some(o) => LiveOn(o, t) && exists i :: 0 <= i < |offers| && offers[i] == o
    case None => forall i :: 0 <= i < |offers| ==> !LiveOn(offers[i], t)
  }

  ghost predicate Enabled(w: World, act: Action) {
    && Indexed(w.chain)
    && ChainStep(w.chain, act).Some?
    && (match act
        case CreditDeposit(row, _) =>
          && row < |w.db.transfers| && IsPendingDeposit(w.db.transfers[row])
          && forall i :: 0 <= i < row ==> !IsPendingDeposit(w.db.transfers[i])
        case BuyKSM(_, t, _, _, ask, _) => FoundAsk(w.db.offers, t, ask)
        case FlipOffer(offer) => offer < |w.db.offers|
        case _ => true)
  }

  ghost function Next(w: World, cfg: Config, act: Action): World
    requires Enabled(w, act)
  {
    var chain := ChainStep(w.chain, act).value;
    match act
    case KusamaDeposit(amount, address) =>
      World(chain, w.db.(transfers := w.db.transfers + [MoneyTransfer(Deposit, PendingTransfer, amount, address)]))
    case CreditDeposit(row, reached) => BalanceModified(w, row, reached)
    case AddAsk(signer, price, _, t, _, _, block) => World(chain, AskReplayed(w.db, cfg, signer, price, t, block))
    case CancelAsk(_, t, _) => World(chain, CancelReplayed(w.db, cfg, t))
    case BuyKSM(_, t, buyer, _, ask, reached) => BuyReplayed(World(chain, w.db), cfg, ask, t, buyer, reached)
    case WithdrawAllKSM(signer, x) => World(chain, WithdrawAllReplayed(w.db, Balance(w.chain, x), x, signer))
    case FlipOffer(offer) => World(chain, w.db.(offers := w.db.offers[offer := FlipByAdmin(w.db.offers[offer])]))
    case NftMoved(_, _) => World(chain, w.db)
  }

  ghost predicate Run(worlds: seq<World>, cfg: Config, acts: seq<Action>) {
    && |worlds| == |acts| + 1
    && forall i :: 0 <= i < |acts| ==> Enabled(worlds[i], acts[i]) && worlds[i + 1] == Next(worlds[i], cfg, acts[i])
  }

  const START := World(DEPLOYED.(escrows := {ESCROW}), Tables([], [], [], {}))
}
