/** The offers table simulates the contract's orders, over every lockstep run. */
module EscrowLaws {
  import opened Common
  import opened MarketContract
  import opened EscrowMachine

  // ---------- the simulation ----------

  /** The offer quotes the order its token's ask points at, open or closed. */
  ghost predicate Quotes(c: Storage, o: AskRow) {
    var k := AskOf(c, o.token);
    0 < k < |c.orders| && c.orders[k].price == o.price && c.orders[k].ownerAddr == Mirror(o.seller)
  }

  ghost predicate OneLivePerToken(offers: seq<AskRow>) {
    forall i, j :: 0 <= i < j < |offers| && IsLive(offers[i]) && IsLive(offers[j]) ==> offers[i].token != offers[j].token
  }

  ghost predicate HasLive(offers: seq<AskRow>, t: Token) {
    exists i :: 0 <= i < |offers| && LiveOn(offers[i], t)
  }

  predicate ManagedSale(o: Order, cfg: Config) {
    o.flagActive != 0 && o.token.collection in cfg.managed
  }

  ghost predicate Simulates(w: World, cfg: Config) {
    && Custody(w.chain)
    && w.chain.escrows == {ESCROW}
    && OneLivePerToken(w.db.offers)
    && (forall i :: 0 <= i < |w.db.offers| && IsLive(w.db.offers[i]) ==>
          w.db.offers[i].token.collection in cfg.managed && Quotes(w.chain, w.db.offers[i]))
    && (forall k :: 0 <= k < |w.chain.orders| && ManagedSale(w.chain.orders[k], cfg) ==>
          HasLive(w.db.offers, w.chain.orders[k].token))
  }

  lemma {:induction false} StartSimulates(cfg: Config)
    ensures Simulates(START, cfg)
  {
    forall t ensures AskOf(START.chain, t) == 0 {}
  }

  /** Purchases and cancellations keep asks, prices and sellers of all orders. */
  ghost predicate SameQuotes(c: Storage, c': Storage) {
    && c'.asks == c.asks && |c'.orders| == |c.orders|
    && forall k :: 0 <= k < |c.orders| ==>
        && c'.orders[k].price == c.orders[k].price && c'.orders[k].ownerAddr == c.orders[k].ownerAddr
        && c'.orders[k].token == c.orders[k].token
        && (c'.orders[k].flagActive != 0 ==> c.orders[k].flagActive != 0)
  }

  /** A table change that only ends offers, and ends them only on tokens that are no longer on sale. */
  lemma EndingKeepsSimulation(w: World, cfg: Config, w': World)
    requires Simulates(w, cfg) && Custody(w'.chain) && w'.chain.escrows == {ESCROW} && SameQuotes(w.chain, w'.chain)
    requires |w'.db.offers| == |w.db.offers|
    requires forall i :: 0 <= i < |w.db.offers| ==>
        w'.db.offers[i].(status := AskActive) == w.db.offers[i].(status := AskActive)
    requires forall i :: 0 <= i < |w.db.offers| && IsLive(w'.db.offers[i]) ==> IsLive(w.db.offers[i])
    requires forall i :: 0 <= i < |w.db.offers| && IsLive(w.db.offers[i]) && !IsLive(w'.db.offers[i]) ==>
      forall k :: 0 <= k < |w'.chain.orders| && w'.chain.orders[k].token == w.db.offers[i].token ==>
          w'.chain.orders[k].flagActive == 0
    ensures Simulates(w', cfg)
  {
    forall i | 0 <= i < |w.db.offers|
      ensures w'.db.offers[i].token == w.db.offers[i].token && w'.db.offers[i].price == w.db.offers[i].price
      ensures w'.db.offers[i].seller == w.db.offers[i].seller
    {
      assert w'.db.offers[i].(status := AskActive).token == w.db.offers[i].(status := AskActive).token;
    }
    forall i | 0 <= i < |w'.db.offers| && IsLive(w'.db.offers[i]) ensures Quotes(w'.chain, w'.db.offers[i]) {
      assert Quotes(w.chain, w.db.offers[i]);
    }
    forall k | 0 <= k < |w'.chain.orders| && ManagedSale(w'.chain.orders[k], cfg)
      ensures HasLive(w'.db.offers, w'.chain.orders[k].token)
    {
      var i :| 0 <= i < |w.db.offers| && LiveOn(w.db.offers[i], w.chain.orders[k].token);
      assert LiveOn(w'.db.offers[i], w'.chain.orders[k].token);
    }
  }

  /** A new order leaves the quotes of all other tokens alone, and is itself quoted by the new offer. */
  lemma AddedAskQuotes(w: World, cfg: Config, act: Action)
    requires Simulates(w, cfg) && act.AddAsk? && Enabled(w, act)
    ensures var w' := Next(w, cfg, act);
      forall i :: 0 <= i < |w'.db.offers| && IsLive(w'.db.offers[i]) ==>
        w'.db.offers[i].token.collection in cfg.managed && Quotes(w'.chain, w'.db.offers[i])
  {
    var w', t := Next(w, cfg, act), act.t;
    forall u ensures AskOf(w'.chain, u) == if u == t then |w.chain.orders| else AskOf(w.chain, u) {}
    forall i | 0 <= i < |w'.db.offers| && IsLive(w'.db.offers[i])
      ensures w'.db.offers[i].token.collection in cfg.managed && Quotes(w'.chain, w'.db.offers[i])
    {
      if i < |w.db.offers| {
        assert IsLive(w.db.offers[i]) ==> Quotes(w.chain, w.db.offers[i]);
      }
    }
  }

  lemma AddedAskIsOffered(w: World, cfg: Config, act: Action)
    requires Simulates(w, cfg) && act.AddAsk? && Enabled(w, act)
    ensures var w' := Next(w, cfg, act);
      forall k :: 0 <= k < |w'.chain.orders| && ManagedSale(w'.chain.orders[k], cfg) ==>
        HasLive(w'.db.offers, w'.chain.orders[k].token)
  {
    var w', t, n := Next(w, cfg, act), act.t, |w.db.offers|;
    forall k | 0 <= k < |w'.chain.orders| && ManagedSale(w'.chain.orders[k], cfg)
      ensures HasLive(w'.db.offers, w'.chain.orders[k].token)
    {
      var u := w'.chain.orders[k].token;
      if u == t {
        assert LiveOn(w'.db.offers[n], u);
      } else {
        var i :| 0 <= i < n && LiveOn(w.db.offers[i], u);
        assert LiveOn(w'.db.offers[i], u);
      }
    }
  }

  lemma AddAskSimulates(w: World, cfg: Config, act: Action)
    requires Simulates(w, cfg) && act.AddAsk? && Enabled(w, act)
    ensures Simulates(Next(w, cfg, act), cfg)
  {
    AddAskKeeps(w.chain, Mirror(act.signer), act.price, act.currency, act.t, act.time, act.approved);
    AddedAskQuotes(w, cfg, act);
    AddedAskIsOffered(w, cfg, act);
  }

  /** An order that a token's ask points at and that is closed leaves the token without a sale. */
  lemma ClosedMeansNotOnSale(c: Storage, t: Token)
    requires Custody(c) && c.orders[AskOf(c, t)].flagActive == 0
    ensures forall k :: 0 <= k < |c.orders| && c.orders[k].token == t ==> c.orders[k].flagActive == 0
  {}

  lemma CancelAskSimulates(w: World, cfg: Config, act: Action)
    requires Simulates(w, cfg) && act.CancelAsk? && Enabled(w, act)
    ensures Simulates(Next(w, cfg, act), cfg)
  {
    var w' := Next(w, cfg, act);
    CancelAskKeeps(w.chain, Mirror(act.signer), act.t, act.time);
    forall u ensures AskOf(w'.chain, u) == AskOf(w.chain, u) {}
    ClosedMeansNotOnSale(w'.chain, act.t);
    EndingKeepsSimulation(w, cfg, w');
  }

  /** Balance calls of the escrow leave orders and offers alone. */
  lemma BalancesSimulate(w: World, cfg: Config, w': World)
    requires Simulates(w, cfg)
    requires w'.chain == w.chain.(balanceKSM := w'.chain.balanceKSM) && w'.db.offers == w.db.offers
    ensures Simulates(w', cfg)
  {
    BalancesKeep(w.chain, w'.chain.balanceKSM);
    forall u ensures AskOf(w'.chain, u) == AskOf(w.chain, u) {}
    EndingKeepsSimulation(w, cfg, w');
  }

  lemma BuySimulates(w: World, cfg: Config, act: Action)
    requires Simulates(w, cfg) && act.BuyKSM? && Enabled(w, act)
    ensures Simulates(Next(w, cfg, act), cfg)
  {
    var chain := ChainStep(w.chain, act).value;
    var offers' := if IsBooked(w.db, act) then BuyActive(w.db.offers, act.t) else w.db.offers;
    var sold := World(chain, w.db.(offers := offers'));
    BuyKeeps(w.chain, Mirror(act.signer), act.t, act.buyer, act.receiver);
    PurchaseMovesPrice(w.chain, Mirror(act.signer), act.t, act.buyer, act.receiver);
    forall u ensures AskOf(chain, u) == AskOf(w.chain, u) {}
    ClosedMeansNotOnSale(chain, act.t);
    EndingKeepsSimulation(w, cfg, sold);
    ReplayedPurchase(World(chain, w.db), cfg, act);
    BalancesSimulate(sold, cfg, Next(w, cfg, act));
  }

  /** The replay of a purchase changes no more of the contract than balances, and of the offers no more than is sold. */
  lemma ReplayedPurchase(w: World, cfg: Config, act: Action)
    requires act.BuyKSM?
    ensures var w' := BuyReplayed(w, cfg, act.ask, act.t, act.buyer, act.reached);
      && w'.chain == w.chain.(balanceKSM := w'.chain.balanceKSM)
      && w'.db.offers == if IsBooked(w.db, act) then BuyActive(w.db.offers, act.t) else w.db.offers
  {
    if IsBooked(w.db, act) {
      var payout := PriceWithoutCommission(act.ask.value.price, cfg.commission);
      BookedPurchase(w, act.ask.value, act.t, PairOf(w.db, act.buyer).value, payout, act.reached);
    }
  }

  lemma BookedPurchase(w: World, ask: AskRow, t: Token, buyer: Address, payout: int, reached: bool)
    ensures var w' := PurchaseBooked(w, ask, t, buyer, payout, reached);
      && w'.chain == w.chain.(balanceKSM := w'.chain.balanceKSM)
      && w'.db.offers == BuyActive(w.db.offers, t)
      && w'.db.trades == TradeRegistered(w.db, ask, t, buyer, payout).trades
  {}

  lemma FlipSimulates(w: World, cfg: Config, offer: nat)
    requires Simulates(w, cfg) && Enabled(w, FlipOffer(offer))
    ensures Simulates(Next(w, cfg, FlipOffer(offer)), cfg)
  {
    EndingKeepsSimulation(w, cfg, Next(w, cfg, FlipOffer(offer)));
  }

  lemma NftMovedSimulates(w: World, cfg: Config, t: Token, to: EthAccount)
    requires Simulates(w, cfg) && Enabled(w, NftMoved(t, to))
    ensures Simulates(Next(w, cfg, NftMoved(t, to)), cfg)
  {
    var w' := Next(w, cfg, NftMoved(t, to));
    OutsideKeeps(w.chain, t, to);
    forall u ensures AskOf(w'.chain, u) == AskOf(w.chain, u) {}
    EndingKeepsSimulation(w, cfg, w');
  }

  lemma StepSimulates(w: World, cfg: Config, act: Action)
    requires Simulates(w, cfg) && Enabled(w, act)
    ensures Simulates(Next(w, cfg, act), cfg)
  {
    match act
    case AddAsk(_, _, _, _, _, _, _) => AddAskSimulates(w, cfg, act);
    case CancelAsk(_, _, _) => CancelAskSimulates(w, cfg, act);
    case BuyKSM(_, _, _, _, _, _) => BuySimulates(w, cfg, act);
    case FlipOffer(offer) => FlipSimulates(w, cfg, offer);
    case NftMoved(t, to) => NftMovedSimulates(w, cfg, t, to);
    case _ => BalancesSimulate(w, cfg, Next(w, cfg, act));
  }

  lemma {:induction false} RunSimulates(worlds: seq<World>, cfg: Config, acts: seq<Action>)
    requires Run(worlds, cfg, acts) && Simulates(worlds[0], cfg)
    ensures forall i :: 0 <= i < |worlds| ==> Simulates(worlds[i], cfg)
  {
    if acts != [] {
      var n := |acts| - 1;
      RunSimulates(worlds[..n + 1], cfg, acts[..n]);
      assert Simulates(worlds[..n + 1][n], cfg);
      StepSimulates(worlds[n], cfg, acts[n]);
    }
  }
}
