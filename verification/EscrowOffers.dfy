/** What the offers and trades tables say about the contract's orders. */
module EscrowOffers {
  import opened Common
  import opened MarketContract
  import opened EscrowMachine
  import opened EscrowLaws
  import opened EscrowEvents

  /** Row `i` is still the offer it was, and if that was over, it has not changed at all. */
  predicate StillThere(o: AskRow, offers: seq<AskRow>, i: nat) {
    && i < |offers| && offers[i].token == o.token && offers[i].price == o.price && offers[i].seller == o.seller
    && (!IsLive(o) ==> offers[i] == o)
  }

  ghost predicate AllStillThere(offers: seq<AskRow>, offers': seq<AskRow>) {
    forall i :: 0 <= i < |offers| ==> StillThere(offers[i], offers', i)
  }

  lemma EndedOfferStep(w: World, cfg: Config, act: Action, i: nat)
    requires Enabled(w, act) && i < |w.db.offers|
    ensures StillThere(w.db.offers[i], Next(w, cfg, act).db.offers, i)
  {
    if act.BuyKSM? {
      ReplayedPurchase(World(ChainStep(w.chain, act).value, w.db), cfg, act);
    }
  }

  lemma EndedOfferEvent(w: World, cfg: Config, e: Event, i: nat)
    requires Possible(w, e) && i < |w.db.offers|
    ensures StillThere(w.db.offers[i], Happened(w, cfg, e).db.offers, i)
  {
    match e
    case InLockstep(act) => EndedOfferStep(w, cfg, act, i);
    case Missed(_) =>
    case Misdirected(act) =>
      if act.BuyKSM? {
        ReplayedPurchase(w, cfg, act);
      }
  }

  lemma EventKeepsOffers(w: World, cfg: Config, e: Event)
    requires Possible(w, e)
    ensures AllStillThere(w.db.offers, Happened(w, cfg, e).db.offers)
  {
    forall i | 0 <= i < |w.db.offers| ensures StillThere(w.db.offers[i], Happened(w, cfg, e).db.offers, i) {
      EndedOfferEvent(w, cfg, e, i);
    }
  }

  lemma {:induction false} OffersStillThere(tables: seq<seq<AskRow>>, j: nat, k: nat)
    requires j <= k < |tables| && forall n :: 0 <= n < |tables| - 1 ==> AllStillThere(tables[n], tables[n + 1])
    ensures AllStillThere(tables[j], tables[k])
    decreases k
  {
    if j < k {
      OffersStillThere(tables, j, k - 1);
      assert AllStillThere(tables[k - 1], tables[k - 1 + 1]);
    }
  }

  /** Over any stretch of any history, bought and cancelled offers are final and no offer changes token, price or seller. */
  lemma EndedOffersAreFinal(worlds: seq<World>, cfg: Config, events: seq<Event>, j: nat, k: nat)
    requires History(worlds, cfg, events) && j <= k <= |events|
    ensures AllStillThere(worlds[j].db.offers, worlds[k].db.offers)
  {
    var tables := seq(|worlds|, n requires 0 <= n < |worlds| => worlds[n].db.offers);
    forall n | 0 <= n < |tables| - 1 ensures AllStillThere(tables[n], tables[n + 1]) {
      assert worlds[n + 1] == Happened(worlds[n], cfg, events[n]);
      EventKeepsOffers(worlds[n], cfg, events[n]);
    }
    OffersStillThere(tables, j, k);
  }

  /** One sale, as the offer and the trade row both record it. */
  datatype Sale = Sale(token: Token, seller: Address, price: nat, blockAsk: nat)

  predicate Sold(o: AskRow, s: Sale) {
    o.status == Bought && Sale(o.token, o.seller, o.price, o.blockAsk) == s
  }

  predicate Records(t: TradeRow, s: Sale) {
    Sale(t.token, t.seller, t.originPrice, t.blockAsk) == s
  }

  /** How many offers were bought as this sale. */
  function OffersSold(offers: seq<AskRow>, s: Sale): nat {
    if offers == [] then 0 else OffersSold(offers[..|offers| - 1], s) + if Sold(offers[|offers| - 1], s) then 1 else 0
  }

  /** How many trade rows record this sale. */
  function TradesMade(trades: seq<TradeRow>, s: Sale): nat {
    if trades == [] then 0 else TradesMade(trades[..|trades| - 1], s) + if Records(trades[|trades| - 1], s) then 1 else 0
  }

  lemma {:induction false} SoldUpdate(offers: seq<AskRow>, i: nat, o: AskRow, s: Sale)
    requires i < |offers| && offers[i].status != Bought
    ensures OffersSold(offers[i := o], s) == OffersSold(offers, s) + if Sold(o, s) then 1 else 0
  {
    var n := |offers| - 1;
    if i == n {
      assert offers[i := o][..n] == offers[..n];
    } else {
      assert offers[i := o][..n] == offers[..n][i := o];
      SoldUpdate(offers[..n], i, o, s);
    }
  }

  lemma AppendSale(offers: seq<AskRow>, o: AskRow, trades: seq<TradeRow>, t: TradeRow)
    ensures forall s :: OffersSold(offers + [o], s) == OffersSold(offers, s) + if Sold(o, s) then 1 else 0
    ensures forall s :: TradesMade(trades + [t], s) == TradesMade(trades, s) + if Records(t, s) then 1 else 0
  {
    assert (offers + [o])[..|offers|] == offers;
    assert (trades + [t])[..|trades|] == trades;
  }

  /** Ending offers without selling them leaves the sold ones. */
  lemma {:induction false} SoldUnchanged(offers: seq<AskRow>, offers': seq<AskRow>, s: Sale)
    requires |offers| == |offers'|
    requires forall i :: 0 <= i < |offers| ==> Sold(offers[i], s) == Sold(offers'[i], s)
    ensures OffersSold(offers, s) == OffersSold(offers', s)
  {
    if offers != [] {
      var n := |offers| - 1;
      assert forall i :: 0 <= i < n ==> offers[..n][i] == offers[i] && offers'[..n][i] == offers'[i];
      SoldUnchanged(offers[..n], offers'[..n], s);
    }
  }

  /** Every sale has as many bought offers as trade rows. */
  ghost predicate SalesMatch(db: Tables) {
    forall s :: OffersSold(db.offers, s) == TradesMade(db.trades, s)
  }

  /** Live offers are for orders that are still active, and sold offers match trades one to one. */
  ghost predicate Faithful(w: World) {
    && (forall i :: 0 <= i < |w.db.offers| && IsLive(w.db.offers[i]) ==> OnSale(w.chain, w.db.offers[i].token))
    && SalesMatch(w.db)
  }

  /** The order the token's ask points at is active. */
  predicate OnSale(c: Storage, t: Token) {
    AskOf(c, t) < |c.orders| && c.orders[AskOf(c, t)].flagActive != 0
  }

  /** A managed token has a live offer exactly when it is on sale, and sold offers match trades one to one. */
  ghost predicate InStep(w: World, cfg: Config) {
    && (forall t: Token :: t.collection in cfg.managed ==> (HasLive(w.db.offers, t) <==> OnSale(w.chain, t)))
    && SalesMatch(w.db)
  }

  /** What to ask of a purchase of an offered token: the offer was not removed, and the buyer has a pair. */
  predicate SellsCleanly(w: World, act: Action) {
    act.BuyKSM? && act.ask.Some? ==> act.ask.value.status == AskActive && PairOf(w.db, act.buyer).Some?
  }

  /** With one live offer per token, a purchase changes that offer alone. */
  lemma BuyIsOneUpdate(offers: seq<AskRow>, t: Token, i: nat)
    requires OneLivePerToken(offers) && i < |offers| && Buyable(offers[i], t)
    ensures BuyActive(offers, t) == offers[i := offers[i].(status := Bought)]
  {}

  lemma BuyMatches(db: Tables, ask: AskRow, t: Token, buyer: Address, payout: int)
    requires SalesMatch(db) && OneLivePerToken(db.offers) && FoundAsk(db.offers, t, Some(ask)) && ask.status == AskActive
    ensures SalesMatch(TradeRegistered(db, ask, t, buyer, payout))
  {
    var db' := TradeRegistered(db, ask, t, buyer, payout);
    var i :| 0 <= i < |db.offers| && db.offers[i] == ask;
    BuyIsOneUpdate(db.offers, t, i);
    AppendSale([], ask, db.trades, db'.trades[|db.trades|]);
    forall s ensures OffersSold(db'.offers, s) == TradesMade(db'.trades, s) {
      SoldUpdate(db.offers, i, ask.(status := Bought), s);
    }
  }

  lemma BuyFaithful(w: World, cfg: Config, act: Action)
    requires Simulates(w, cfg) && Faithful(w) && act.BuyKSM? && Enabled(w, act) && SellsCleanly(w, act)
    ensures Faithful(Next(w, cfg, act))
  {
    var w', t := Next(w, cfg, act), act.t;
    PurchaseMovesPrice(w.chain, Mirror(act.signer), t, act.buyer, act.receiver);
    forall u ensures AskOf(w'.chain, u) == AskOf(w.chain, u) {}
    if act.ask.Some? {
      var payout := PriceWithoutCommission(act.ask.value.price, cfg.commission);
      BuyMatches(w.db, act.ask.value, t, PairOf(w.db, act.buyer).value, payout);
    }
    forall j | 0 <= j < |w'.db.offers| && IsLive(w'.db.offers[j]) ensures OnSale(w'.chain, w'.db.offers[j].token) {
      assert w'.db.offers[j] == w.db.offers[j] && w.db.offers[j].token != t;
      assert Quotes(w.chain, w.db.offers[j]);
    }
  }

  lemma CancelFaithful(w: World, cfg: Config, act: Action)
    requires Simulates(w, cfg) && Faithful(w) && act.CancelAsk? && Enabled(w, act)
    ensures Faithful(Next(w, cfg, act))
  {
    var w', t := Next(w, cfg, act), act.t;
    forall u ensures AskOf(w'.chain, u) == AskOf(w.chain, u) {}
    forall s ensures OffersSold(w'.db.offers, s) == OffersSold(w.db.offers, s) {
      SoldUnchanged(w.db.offers, w'.db.offers, s);
    }
    forall j | 0 <= j < |w'.db.offers| && IsLive(w'.db.offers[j]) ensures OnSale(w'.chain, w'.db.offers[j].token) {
      assert w'.db.offers[j] == w.db.offers[j] && w.db.offers[j].token != t;
      assert Quotes(w.chain, w.db.offers[j]);
    }
  }

  /** An administrator's flip neither ends nor sells an offer. */
  lemma FlipFaithful(w: World, cfg: Config, act: Action)
    requires Faithful(w) && act.FlipOffer? && Enabled(w, act)
    ensures Faithful(Next(w, cfg, act))
  {
    var offers' := Next(w, cfg, act).db.offers;
    forall s ensures OffersSold(offers', s) == OffersSold(w.db.offers, s) {
      SoldUnchanged(w.db.offers, offers', s);
    }
  }

  lemma AddFaithful(w: World, cfg: Config, act: Action)
    requires Simulates(w, cfg) && Faithful(w) && act.AddAsk? && Enabled(w, act)
    ensures Faithful(Next(w, cfg, act))
  {
    var w', t := Next(w, cfg, act), act.t;
    forall u ensures AskOf(w'.chain, u) == if u == t then |w.chain.orders| else AskOf(w.chain, u) {}
    if t.collection in cfg.managed {
      var ended := CancelLive(w.db.offers, t);
      forall s ensures OffersSold(ended, s) == OffersSold(w.db.offers, s) {
        SoldUnchanged(w.db.offers, ended, s);
      }
      AppendSale(ended, w'.db.offers[|w.db.offers|], [], TradeRow(t, 0, 0, 0, 0, 0, 0));
    }
  }

  lemma StepFaithful(w: World, cfg: Config, act: Action)
    requires Simulates(w, cfg) && Faithful(w) && Enabled(w, act) && SellsCleanly(w, act)
    ensures Faithful(Next(w, cfg, act))
  {
    match act
    case AddAsk(_, _, _, _, _, _, _) => AddFaithful(w, cfg, act);
    case CancelAsk(_, _, _) => CancelFaithful(w, cfg, act);
    case BuyKSM(_, _, _, _, _, _) => BuyFaithful(w, cfg, act);
    case FlipOffer(_) => FlipFaithful(w, cfg, act);
    case _ => forall u ensures AskOf(Next(w, cfg, act).chain, u) == AskOf(w.chain, u) {}
  }

  lemma FaithfulIsInStep(w: World, cfg: Config)
    requires Simulates(w, cfg) && Faithful(w)
    ensures InStep(w, cfg)
  {
    forall t: Token | t.collection in cfg.managed ensures HasLive(w.db.offers, t) <==> OnSale(w.chain, t) {
      if OnSale(w.chain, t) {
        assert ManagedSale(w.chain.orders[AskOf(w.chain, t)], cfg);
      }
      if HasLive(w.db.offers, t) {
        var i :| 0 <= i < |w.db.offers| && LiveOn(w.db.offers[i], t);
      }
    }
  }

  // ---------- an offer's life ----------

  /** Right after an ask on a managed token `getActiveAsk` finds that ask, active and as it was made, and no other. */
  lemma AskIsFound(w: World, cfg: Config, act: Action, ask: Option<AskRow>)
    requires act.AddAsk? && Enabled(w, act) && act.t.collection in cfg.managed
    ensures FoundAsk(Next(w, cfg, act).db.offers, act.t, ask)
       <==> ask == Some(AskRow(act.t, act.signer, act.price, AskActive, act.block))
    ensures forall u :: u != act.t ==> (HasLive(Next(w, cfg, act).db.offers, u) <==> HasLive(w.db.offers, u))
  {
    var offers, was, n := Next(w, cfg, act).db.offers, w.db.offers, |w.db.offers|;
    assert offers[n] == AskRow(act.t, act.signer, act.price, AskActive, act.block);
    forall i | 0 <= i < n ensures !LiveOn(offers[i], act.t) {}
    forall u | u != act.t ensures HasLive(offers, u) <==> HasLive(was, u) {
      if i :| 0 <= i < |was| && LiveOn(was[i], u) {
        assert LiveOn(offers[i], u);
      }
      if i :| 0 <= i < |offers| && LiveOn(offers[i], u) {
        assert LiveOn(was[i], u);
      }
    }
  }

  /** Right after a cancellation on a managed token it finds nothing. */
  lemma CancelledIsNotFound(w: World, cfg: Config, act: Action, ask: Option<AskRow>)
    requires act.CancelAsk? && Enabled(w, act) && act.t.collection in cfg.managed
    ensures FoundAsk(Next(w, cfg, act).db.offers, act.t, ask) <==> ask.None?
  {
    var offers := Next(w, cfg, act).db.offers;
    forall i | 0 <= i < |offers| ensures !LiveOn(offers[i], act.t) {}
  }

  /** The administrator switches a live offer off and on again, and cannot touch an ended one. */
  lemma FlippingTwice(o: AskRow)
    ensures FlipByAdmin(FlipByAdmin(o)) == o
    ensures IsLive(o) <==> FlipByAdmin(o) != o
    ensures IsLive(FlipByAdmin(o)) <==> IsLive(o)
    ensures FlipByAdmin(o).(status := o.status) == o
  {}

  // ---------- missed and misdirected calls ----------

  /** What to ask of an event: nothing that the escrow books or misses may part offers and orders. */
  ghost predicate Clean(w: World, cfg: Config, e: Event) {
    match e
    case InLockstep(act) => SellsCleanly(w, act)
    case Missed(act) =>
      (match act
       case AddAsk(_, _, _, t, _, _, _) => t.collection !in cfg.managed
       case CancelAsk(_, t, _) => t.collection !in cfg.managed
       case BuyKSM(_, _, _, _, ask, _) => ask.None?
       case _ => true)
    case Misdirected(act) =>
      (match act
       case AddAsk(_, _, _, t, _, _, _) => t.collection !in cfg.managed || !HasLive(w.db.offers, t)
       case CancelAsk(_, t, _) => t.collection !in cfg.managed || !HasLive(w.db.offers, t)
       case _ => !IsBooked(w.db, act))
  }

  lemma NothingToCancel(offers: seq<AskRow>, t: Token)
    requires !HasLive(offers, t)
    ensures CancelLive(offers, t) == offers
  {
    forall i | 0 <= i < |offers| ensures !LiveOn(offers[i], t) {}
  }

  /** Without a live offer a missed call, except a withdrawal, is one that the escrow would not have reacted to. */
  lemma CleanMissIsStep(w: World, cfg: Config, act: Action)
    requires Simulates(w, cfg) && Faithful(w) && Possible(w, Missed(act)) && Clean(w, cfg, Missed(act))
    ensures Simulates(Happened(w, cfg, Missed(act)), cfg) && Faithful(Happened(w, cfg, Missed(act)))
  {
    var w' := Happened(w, cfg, Missed(act));
    if act.WithdrawAllKSM? {
      BalancesSimulate(w, cfg, w');
      forall u ensures AskOf(w'.chain, u) == AskOf(w.chain, u) {}
    } else {
      assert w' == Next(w, cfg, act);
      StepSimulates(w, cfg, act);
      StepFaithful(w, cfg, act);
    }
  }

  lemma CleanEvent(w: World, cfg: Config, e: Event)
    requires Simulates(w, cfg) && Faithful(w) && Possible(w, e) && Clean(w, cfg, e)
    ensures Simulates(Happened(w, cfg, e), cfg) && Faithful(Happened(w, cfg, e))
  {
    match e
    case InLockstep(act) =>
      StepSimulates(w, cfg, act);
      StepFaithful(w, cfg, act);
    case Missed(act) => CleanMissIsStep(w, cfg, act);
    case Misdirected(act) =>
      if !act.BuyKSM? && act.t.collection in cfg.managed {
        NothingToCancel(w.db.offers, act.t);
      }
  }

  lemma {:induction false} CleanAlong(worlds: seq<World>, cfg: Config, events: seq<Event>, k: nat)
    requires History(worlds, cfg, events) && worlds[0] == START && k <= |events|
    requires forall i :: 0 <= i < k ==> Clean(worlds[i], cfg, events[i])
    ensures Simulates(worlds[k], cfg) && Faithful(worlds[k])
  {
    if k == 0 {
      StartSimulates(cfg);
    } else {
      CleanAlong(worlds, cfg, events, k - 1);
      CleanEvent(worlds[k - 1], cfg, events[k - 1]);
    }
  }

  /**
   * The offers table simulates the contract. Over every history of clean events a managed token has a live offer
   * exactly when its current order is active, the offer quotes that order's price and seller, no token has two live
   * offers, and the bought offers are the trades, one to one.
   */
  lemma OffersSimulateOrders(worlds: seq<World>, cfg: Config, events: seq<Event>)
    requires History(worlds, cfg, events) && worlds[0] == START
    requires forall i :: 0 <= i < |events| ==> Clean(worlds[i], cfg, events[i])
    ensures var w := worlds[|events|];
      && InStep(w, cfg) && OneLivePerToken(w.db.offers)
      && (forall i :: 0 <= i < |w.db.offers| && IsLive(w.db.offers[i]) ==> Quotes(w.chain, w.db.offers[i]))
  {
    CleanAlong(worlds, cfg, events, |events|);
    FaithfulIsInStep(worlds[|events|], cfg);
  }

  /**
   * A purchase ends the token's live offer exactly when the administrator had not removed that offer and the buyer
   * has a pair. Otherwise the offer stays live although its order is closed; a trade is booked for a removed offer,
   * but none for a buyer without a pair.
   */
  lemma PurchaseEndsOfferIff(w: World, cfg: Config, act: Action)
    requires Simulates(w, cfg) && act.BuyKSM? && Enabled(w, act) && act.ask.Some?
    ensures var w' := Next(w, cfg, act);
      && (!HasLive(w'.db.offers, act.t) <==> SellsCleanly(w, act))
      && !OnSale(w'.chain, act.t) && act.t.collection in cfg.managed
      && |w'.db.trades| == |w.db.trades| + (if PairOf(w.db, act.buyer).Some? then 1 else 0)
      && (PairOf(w.db, act.buyer).None? ==> w'.db == w.db)
  {
    var w' := Next(w, cfg, act);
    PurchaseMovesPrice(w.chain, Mirror(act.signer), act.t, act.buyer, act.receiver);
    assert AskOf(w'.chain, act.t) == AskOf(w.chain, act.t);
    var i :| 0 <= i < |w.db.offers| && w.db.offers[i] == act.ask.value;
    if PairOf(w.db, act.buyer).Some? {
      assert w'.db.offers == BuyActive(w.db.offers, act.t);
    }
    if SellsCleanly(w, act) {
      BuyIsOneUpdate(w.db.offers, act.t, i);
    } else {
      assert LiveOn(w'.db.offers[i], act.t);
    }
  }

  // ---------- every other event parts them ----------

  lemma UncleanMiss(w: World, cfg: Config, act: Action)
    requires Simulates(w, cfg) && InStep(w, cfg) && Possible(w, Missed(act)) && !Clean(w, cfg, Missed(act))
    ensures !InStep(Happened(w, cfg, Missed(act)), cfg)
  {
    var w', t := Happened(w, cfg, Missed(act)), act.t;
    match act
    case AddAsk(_, _, _, _, _, _, _) =>
      NothingOnSale(w.chain, t);
      assert OnSale(w'.chain, t) && !OnSale(w.chain, t);
    case CancelAsk(_, _, _) =>
      assert OnSale(w.chain, t) && !OnSale(w'.chain, t);
    case BuyKSM(signer, _, buyer, receiver, ask, _) =>
      PurchaseMovesPrice(w.chain, Mirror(signer), t, buyer, receiver);
      assert AskOf(w'.chain, t) == AskOf(w.chain, t);
      var i :| 0 <= i < |w.db.offers| && w.db.offers[i] == ask.value;
      assert HasLive(w'.db.offers, t) && !OnSale(w'.chain, t);
  }

  lemma UncleanCancel(w: World, cfg: Config, act: Action)
    requires InStep(w, cfg) && Possible(w, Misdirected(act)) && !Clean(w, cfg, Misdirected(act)) && !act.BuyKSM?
    ensures !InStep(Happened(w, cfg, Misdirected(act)), cfg)
  {
    var w', t := Happened(w, cfg, Misdirected(act)), act.t;
    assert OnSale(w'.chain, t);
    forall i | 0 <= i < |w'.db.offers| ensures !LiveOn(w'.db.offers[i], t) {}
    assert !HasLive(w'.db.offers, t);
  }

  /** A purchase booked for a call that the market never saw: the offer is gone too early, or the trade has no sale. */
  lemma PhantomPurchase(w: World, ask: AskRow, t: Token, buyer: Address, payout: int, reached: bool)
    requires SalesMatch(w.db) && OneLivePerToken(w.db.offers) && FoundAsk(w.db.offers, t, Some(ask))
    ensures var db' := PurchaseBooked(w, ask, t, buyer, payout, reached).db;
      if ask.status == AskActive then !HasLive(db'.offers, t) else !SalesMatch(db')
  {
    BookedPurchase(w, ask, t, buyer, payout, reached);
    var db' := PurchaseBooked(w, ask, t, buyer, payout, reached).db;
    var i :| 0 <= i < |w.db.offers| && w.db.offers[i] == ask;
    if ask.status == AskActive {
      BuyIsOneUpdate(w.db.offers, t, i);
    } else {
      assert db'.offers == w.db.offers;
      var sale := Sale(ask.token, ask.seller, ask.price, ask.blockAsk);
      AppendSale([], ask, w.db.trades, db'.trades[|w.db.trades|]);
      assert OffersSold(db'.offers, sale) != TradesMade(db'.trades, sale);
    }
  }

  lemma UncleanPurchase(w: World, cfg: Config, act: Action)
    requires Simulates(w, cfg) && InStep(w, cfg) && Possible(w, Misdirected(act)) && IsBooked(w.db, act)
    ensures !InStep(Happened(w, cfg, Misdirected(act)), cfg)
  {
    var w', t, ask := Happened(w, cfg, Misdirected(act)), act.t, act.ask.value;
    var payout := PriceWithoutCommission(ask.price, cfg.commission);
    PhantomPurchase(w, ask, t, PairOf(w.db, act.buyer).value, payout, act.reached);
    ReplayedPurchase(w, cfg, act);
    var i :| 0 <= i < |w.db.offers| && w.db.offers[i] == ask;
    assert LiveOn(w.db.offers[i], t) && OnSale(w.chain, t);
    assert AskOf(w'.chain, t) == AskOf(w.chain, t) && OnSale(w'.chain, t);
  }

  /** From a world in step, an event that is not clean leads out of step. */
  lemma UncleanEvent(w: World, cfg: Config, e: Event)
    requires Simulates(w, cfg) && InStep(w, cfg) && Possible(w, e) && !Clean(w, cfg, e)
    ensures !InStep(Happened(w, cfg, e), cfg)
  {
    match e
    case InLockstep(act) => PurchaseEndsOfferIff(w, cfg, act);
    case Missed(act) => UncleanMiss(w, cfg, act);
    case Misdirected(act) =>
      if act.BuyKSM? {
        UncleanPurchase(w, cfg, act);
      } else {
        UncleanCancel(w, cfg, act);
      }
  }

  lemma {:induction false} InStepMeansClean(worlds: seq<World>, cfg: Config, events: seq<Event>, k: nat)
    requires History(worlds, cfg, events) && worlds[0] == START && k <= |events|
    requires forall i :: 0 <= i < |worlds| ==> InStep(worlds[i], cfg)
    ensures forall i :: 0 <= i < k ==> Clean(worlds[i], cfg, events[i])
  {
    if k > 0 {
      InStepMeansClean(worlds, cfg, events, k - 1);
      CleanAlong(worlds, cfg, events, k - 1);
      assert InStep(Happened(worlds[k - 1], cfg, events[k - 1]), cfg) by {
        assert worlds[k - 1 + 1] == Happened(worlds[k - 1], cfg, events[k - 1]);
      }
      if !Clean(worlds[k - 1], cfg, events[k - 1]) {
        UncleanEvent(worlds[k - 1], cfg, events[k - 1]);
      }
    }
  }

  /**
   * Offers and orders are in step all along a history if and only if every event in it was clean: offered tokens are
   * bought from offers that were not removed by buyers with a pair, no call about a managed token is missed, and
   * nothing is replayed for a live offer that the market did not execute.
   */
  lemma InStepIff(worlds: seq<World>, cfg: Config, events: seq<Event>)
    requires History(worlds, cfg, events) && worlds[0] == START
    ensures (forall i :: 0 <= i < |worlds| ==> InStep(worlds[i], cfg))
       <==> forall i :: 0 <= i < |events| ==> Clean(worlds[i], cfg, events[i])
  {
    if forall i :: 0 <= i < |events| ==> Clean(worlds[i], cfg, events[i]) {
      forall k | 0 <= k < |worlds| ensures InStep(worlds[k], cfg) {
        CleanAlong(worlds, cfg, events, k);
        FaithfulIsInStep(worlds[k], cfg);
      }
    }
    if forall i :: 0 <= i < |worlds| ==> InStep(worlds[i], cfg) {
      InStepMeansClean(worlds, cfg, events, |events|);
    }
  }

  /** The world in which `seller` has received `t` and offered it at price zero. */
  function FreeOffer(t: Token, seller: Address): World {
    World(START.chain.(orders := [NO_ORDER, Order(t, ZERO, 0, 0, Mirror(seller), 1)], asks := map[t := 1],
                       nftOwner := map[t := MARKET]),
          START.db.(offers := [AskRow(t, seller, 0, AskActive, 0)], pairs := {seller}))
  }

  lemma FreeOfferIsReached(cfg: Config, t: Token, seller: Address)
    requires t.collection in cfg.managed
    ensures var minted := START.(chain := START.chain.(nftOwner := map[t := Mirror(seller)]));
      Run([START, minted, FreeOffer(t, seller)], cfg,
          [NftMoved(t, Mirror(seller)), AddAsk(seller, 0, ZERO, t, 0, true, 0)])
  {
    var minted := START.(chain := START.chain.(nftOwner := map[t := Mirror(seller)]));
    var act := AddAsk(seller, 0, ZERO, t, 0, true, 0);
    assert Enabled(START, NftMoved(t, Mirror(seller))) && Next(START, cfg, NftMoved(t, Mirror(seller))) == minted;
    assert Enabled(minted, act);
    assert Next(minted, cfg, act).db == FreeOffer(t, seller).db;
    assert Next(minted, cfg, act).chain == FreeOffer(t, seller).chain;
  }

  /** A run out of step: an offer at price zero is taken by an account that the escrow has never seen. */
  lemma UnpairedPurchaseKeepsOffer(cfg: Config, t: Token, seller: Address, buyer: Address)
    returns (worlds: seq<World>, acts: seq<Action>)
    requires t.collection in cfg.managed && buyer != seller
    ensures Run(worlds, cfg, acts) && worlds[0] == START
    ensures var w := worlds[|acts|];
      && HasLive(w.db.offers, t) && !OnSale(w.chain, t)
      && w.chain.nftOwner == map[t := Mirror(buyer)] && w.db.trades == [] && w.db.transfers == []
  {
    var w := FreeOffer(t, seller);
    var act := BuyKSM(buyer, t, Mirror(buyer), Mirror(buyer), Some(w.db.offers[0]), true);
    FreeOfferIsReached(cfg, t, seller);
    assert Enabled(w, act);
    assert LiveOn(Next(w, cfg, act).db.offers[0], t);
    acts := [NftMoved(t, Mirror(seller)), AddAsk(seller, 0, ZERO, t, 0, true, 0), act];
    worlds := [START, START.(chain := START.chain.(nftOwner := map[t := Mirror(seller)])), w, Next(w, cfg, act)];
    assert worlds[..3] == [START, worlds[1], w] && acts[..2] == [acts[0], acts[1]];
    forall i | 0 <= i < 2 ensures Enabled(worlds[i], acts[i]) && worlds[i + 1] == Next(worlds[i], cfg, acts[i]) {
      assert worlds[i] == worlds[..3][i] && worlds[i + 1] == worlds[..3][i + 1] && acts[i] == acts[..2][i];
    }
  }
}
