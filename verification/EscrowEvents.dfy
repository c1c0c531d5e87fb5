/**
 * What can happen besides lockstep. The scanner drops the calls of a block that follow a replay that threw, and it
 * replays calls that were sent to some other address as if the market had executed them.
 */
module EscrowEvents {
  import opened Common
  import opened MarketContract
  import opened EscrowMachine

  datatype Event =
    | InLockstep(act: Action)
    | Missed(act: Action)
    | Misdirected(act: Action)

  /** The contract calls that the escrow knows how to replay. */
  predicate IsCall(act: Action) {
    act.AddAsk? || act.CancelAsk? || act.BuyKSM? || act.WithdrawAllKSM?
  }

  /** `withdrawAllKSM` is the one call whose target is checked before anything is done. */
  ghost predicate Possible(w: World, e: Event) {
    match e
    case InLockstep(act) => Enabled(w, act)
    case Missed(act) => IsCall(act) && Enabled(w, act)
    case Misdirected(act) =>
      && Indexed(w.chain)
      && (act.AddAsk? || act.CancelAsk? || (act.BuyKSM? && FoundAsk(w.db.offers, act.t, act.ask)))
  }

  /**
   * The replay of a call that the market never executed. An ask ends the live offers and registers the pair, and is
   * only then found to be for somebody else; cancellations and purchases are not checked at all.
   */
  function Misreplayed(w: World, cfg: Config, act: Action): World {
    match act
    case AddAsk(signer, _, _, t, _, _, _) =>
      if t.collection !in cfg.managed then w
      else w.(db := w.db.(offers := CancelLive(w.db.offers, t), pairs := w.db.pairs + {signer}))
    case CancelAsk(_, t, _) => w.(db := CancelReplayed(w.db, cfg, t))
    case BuyKSM(_, t, buyer, _, ask, reached) => BuyReplayed(w, cfg, ask, t, buyer, reached)
    case _ => w
  }

  ghost function Happened(w: World, cfg: Config, e: Event): World
    requires Possible(w, e)
  {
    match e
    case InLockstep(act) => Next(w, cfg, act)
    case Missed(act) => World(ChainStep(w.chain, act).value, w.db)
    case Misdirected(act) => Misreplayed(w, cfg, act)
  }

  ghost predicate History(worlds: seq<World>, cfg: Config, events: seq<Event>) {
    && |worlds| == |events| + 1
    && forall i :: 0 <= i < |events| ==>
         Possible(worlds[i], events[i]) && worlds[i + 1] == Happened(worlds[i], cfg, events[i])
  }

  function Lockstep(acts: seq<Action>): (events: seq<Event>)
    ensures |events| == |acts| && forall i :: 0 <= i < |acts| ==> events[i] == InLockstep(acts[i])
  {
    seq(|acts|, i requires 0 <= i < |acts| => InLockstep(acts[i]))
  }

  lemma RunIsHistory(worlds: seq<World>, cfg: Config, acts: seq<Action>)
    requires Run(worlds, cfg, acts)
    ensures History(worlds, cfg, Lockstep(acts))
  {}

  // ---------- blocks ----------

  /** The replay throws: an offered token was bought by an account without a pair. */
  predicate Throws(w: World, e: Event) {
    !e.Missed? && e.act.BuyKSM? && e.act.ask.Some? && PairOf(w.db, e.act.buyer).None?
  }

  /** An earlier event of the same block threw; `blocks[i]` is the block of event `i`. */
  ghost predicate AfterThrow(worlds: seq<World>, events: seq<Event>, blocks: seq<nat>, j: nat)
    requires |worlds| > |events| == |blocks| && j < |events|
  {
    exists i :: 0 <= i < j && blocks[i] == blocks[j] && Throws(worlds[i], events[i])
  }

  /** The scanner's history: exactly the calls after a throw in their block are missed. */
  ghost predicate Scanned(worlds: seq<World>, cfg: Config, events: seq<Event>, blocks: seq<nat>) {
    && History(worlds, cfg, events) && |blocks| == |events|
    && forall j :: 0 <= j < |events| && IsCall(events[j].act) ==>
         (events[j].Missed? <==> AfterThrow(worlds, events, blocks, j))
  }
}
