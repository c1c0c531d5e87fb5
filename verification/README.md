# The NFT market: auctions, escrow and token lists

A Dafny model of the parts of the marketplace that hold other people's money and tokens, with proofs over every
run. Four cores:

- **The auction ledger.** Bids are rows with signed amounts and a status; an auction caches its price; guards decide
  who may bid, withdraw or cancel; settlement refunds the losers and pays the owner. `AuctionMachine` states each
  transaction or interval handler as one action, `AuctionService` contains the services as methods that update tables
  in place and are proved to perform exactly those actions, and `AuctionEffects` says what each action does to every
  total, account and auction, and `AuctionInvariant`, `AuctionLaws`, `AuctionFloor`, `AuctionSettlement`,
  `AuctionLifecycle` and `AuctionClosing` prove what every run keeps, and that no auction gets stuck. `BidTable` is
  the grouped query beneath all of it; ties between equal totals are left open, as SQL leaves them.
- **The contract and the escrow.** `MarketContract` specifies the Solidity calls, `MarketLaws` says exactly when each
  succeeds and what it does, `MarketPlace` is the contract in place, with reverts. `EscrowMachine` runs contract and
  off-chain tables in lockstep, `EscrowEvents` adds what breaks lockstep: calls that are missed because an earlier
  call of their block threw, and calls to other addresses that are replayed all the same. `EscrowService` contains the
  handlers, `EscrowLaws` and `EscrowOffers` prove the simulation, `EscrowMoney` the conservation of KSM,
  `EscrowAccounts` the books of every single account, and `KusamaWithdraw` is the payout queue. `BlockScanner` is the
  loop that feeds the escrow.
- **The allowed-token lists.** `TokenText`, `AllowedTokens` and `TokenService`: the check of an entered list, the two
  independent parsers, and the pass that makes offers follow the list.
- **The collection address codec**, `CollectionAddress`, with JavaScript's signed 32-bit shifts.

The outcome of every chain submission is a parameter, so each theorem covers all outcomes. Addresses are taken in the
encoding the database stores. `Mirror` maps a substrate account to its EVM account and is injective.

## What the proofs show about the code

Where the code does less than one would expect, the exact condition is proved.

- A paid auction whose token submission was rejected ends as bought without a trade row or money rows: the handler
  reads the missing purchase block and throws (`auction-closing.service.ts:184`), which ends the round and leaves the
  other auctions for the next one (`TradeRowIsExact`, `OneTradePerRecordedSale`, `AuctionsWithdrawingIntervalHandler`).
  A submission that resolves to a failed transfer is recorded as a sale although the token never moved. If the owner's
  payment fails, the token has been submitted to the winner all the same, and the auction stays cancelled if there was
  only one bidder and withdrawing otherwise (`UnpaidSaleOutcome`).
- After settlement the two ledgers differ by the owner's two rows: the deposit booked with minus the price stands
  under the seller, not the winner, so the law that holds account by account is deposits less withdrawals = finished
  bids less (original price + price) of the account's own sales (`LedgersAlwaysAgree`).
- Bids that fail can bring the price below the start price. That can happen if and only if some bid was placed that
  was worth less than the start price while the finished lead was, too (`PriceFloorIff`). One unresolved bid per bidder
  rules it out, as does a step equal to the start price (`OneUnresolvedEachSuffices`, `StepOfStartKeepsFloor`). The
  growth bound needs a start price of at least one step, and fails for every smaller one (`PriceGrowsWithBids`,
  `GrowthNeedsTheStartPrice`). A bid that fails this way must still carry a transfer event: without one
  `transferData` is null and the request ends at `bid-placing.service.ts:46` before any row exists.
- An offer stays live although its order was bought if and only if the administrator had removed it, because the
  purchase only updates active offers, or the buyer has no registered pair, because `registerTrade` encodes the
  buyer's address (`service.ts:436`) and a 20-byte EVM address cannot be encoded (`PurchaseEndsOfferIff`,
  `UnpairedPurchaseKeepsOffer`). That exception ends the scan of its block (`unique.ts:398-404`), and the block's later
  calls are missed. Conversely `buyKSM` and `cancelAsk` are replayed without a look at the call's target, and `addAsk`
  looks only after it has cancelled the live offers (`unique.ts:184-264`). `InStepIff` covers all of it: offers and
  orders stay in step if and only if every purchase of an offered token was clean, no missed call listed, cancelled or
  bought an offer, and no call to another address met a live offer that it cancels or books.
- KSM is conserved over every history, up to two leaks: debits that do not arrive leave the price on the seller's
  balance while the payout is registered as well, and missed withdrawals empty a balance without a payout
  (`KsmIsConserved`). In lockstep the balances, payouts and commissions are exactly the deposits if and only if no
  booked purchase at a positive price has a debit that fails to reach the chain (`ExactInLockstepIff`,
  `DroppedDebitIsOwedTwice`); there the contract itself never reverts a debit (`DebitNeverReverts`), while the debit of
  a purchase that was sent elsewhere may well revert.
- The same holds account by account (`WorthByAccount`): over every lockstep run an account's balance and payouts are
  what it paid in and earned less what it spent, or more, and more if and only if one of its sales at a positive price
  was not booked or its debit did not reach the chain.
- `editAsk` can deactivate an order. The NFT is then stranded: its owner can neither cancel, nor edit, nor list it again,
  and it leaves the market by a purchase and no other way (`EditCanStrand`, `StrandedForGood`). `buyKSM` does not look at
  the flag, so the owner gets it back by buying it from themselves, if and only if their balance covers the price
  (`OwnerBuysBackIff`).
- After a restart the scanner repeats the last scanned block, except in mode `latest`, which skips blocks if and only if
  the head has moved on by more than eleven (`RestartSkipsNothingIff`).
- The check accepts `1-3-2`, `7,` and the empty list, on which the two parsers disagree (`ParsersAgreeIff`).
- Started with `latest`, the scanner begins ten blocks behind the head; that is behind the confirmation delay only if
  the delay is at most ten (`LatestStartsBehindDelayIff`), and starting above the limit hands over unconfirmed blocks
  (`MainLoop`).

## Model

| member | source | states |
|---|---|---|
| `Common.SellerPartIsFloor` | src/auction/services/closing/auction-closing.service.ts:122-127 | the seller's part of a non-negative price is the exact floor of price*(100-c)/100 and never more than the price |
| `BidTable.AggregatedBids` | src/auction/services/helpers/database-helper.ts:98-128 | the grouped query: distinct bidders, each with exactly their filtered total, largest first, every bidder with a matching row listed |
| `BidTable.FirstAggregatedBid` | src/auction/services/helpers/database-helper.ts:88-96 | the winner query answers undefined exactly when no row matches, and otherwise some bidder whom nobody exceeds |
| `BidTable.UserSum` | src/auction/services/helpers/database-helper.ts:130-143 | a bidder's pending or actual sum is their filtered total, zero when they have no row |
| `BidTable.FirstRowLeads` | src/auction/services/helpers/database-helper.ts:123-151 | the first row of any result of the query is a leader, and all leaders share its total, however ties are ordered |
| `BidTable.GroupingConserves` | src/auction/services/helpers/database-helper.ts:104-128 | the totals of the rows add up to the sum of all filtered amounts |
| `BidTable.GroupIsGrouping` | src/auction/services/helpers/database-helper.ts:104-128 | a sorted insertion over the table is one of the results the query may give |
| `BidTable.LeadingTotalIs` | src/auction/services/helpers/database-helper.ts:145-151 | the leading total is every leader's total, and the default exactly when no row matches |
| `AuctionEffects.CreatedAuctionIsOpen` | src/auction/services/auction-creation.service.ts:141-162 | a created auction is open and listed on its token at its start price, with the NFT at the market and no live row, and disturbs nothing; with a start price of a step or more it takes exactly the bids that reach it |
| `AuctionService.AuctionMarket.GetAuction` | src/auction/services/helpers/database-helper.ts:35-42 | finds some auction on the token in a wanted status, or there is none |
| `AuctionService.AuctionMarket.CalculationInfo` | src/auction/services/bid-placing.service.ts:142-181 | the bidder's pending total, and the minimum they must add, whose value `MinimumIsExact` gives in totals alone |
| `AuctionService.AuctionMarket.TryPlacePendingBid` | src/auction/services/bid-placing.service.ts:183-233 | a bid is taken exactly when the bidding rule accepts it, which `AcceptsBidExactly` gives in totals alone; then price and row change together, else nothing does |
| `AuctionEffects.AcceptsBidExactly` | src/auction/services/bid-placing.service.ts:159-205 | for every reachable state and bid: accepted if and only if a first bid reaches the start price, a follower comes out a step or more above the price, and a leader adds a full step; steps count only once the price has reached one |
| `AuctionEffects.MinimumIsExact` | src/auction/services/bid-placing.service.ts:159-167 | the quoted minimum is the start price before any live row, price + step - own total for a follower, and nothing for a leader |
| `AuctionEffects.PlacedBidEffect` | src/auction/services/bid-placing.service.ts:207-223 | only the bidder's pending total rises, by the amount, and becomes the price; no money, other total or other auction changes; the new bid can finish or fail |
| `AuctionEffects.FinishedBidEffect` | src/auction/services/bid-placing.service.ts:82-104 | a confirmed bid's row is finished, its bidder's finished total and net deposits rise by exactly the amount, and pending totals, prices and every other account stay |
| `AuctionEffects.FailedBidEffect` | src/auction/services/bid-placing.service.ts:118-140 | the bidder's pending total falls by the amount, the price becomes the remaining leader's total or the start price, and no money moves |
| `AuctionService.AuctionMarket.PlaceBid` | src/auction/services/bid-placing.service.ts:37-80 | the request either is one step of the auction machine or leaves the tables alone, and a refusal has one of the three causes |
| `AuctionService.AuctionMarket.HandleBidTxFail` | src/auction/services/bid-placing.service.ts:118-140 | the bid errs and the price becomes the highest remaining pending total, or the start price when none is left |
| `AuctionService.AuctionMarket.MakeWithdrawalTransfer` | src/auction/services/bid-withdraw.service.ts:83-139 | the row finishes with a completed withdrawal, or errs without a money row and the call throws |
| `AuctionService.AuctionMarket.TryCreateWithdrawingBid` | src/auction/services/bid-withdraw.service.ts:147-203 | a withdrawal is opened only for finished money of a bidder whom another bidder can replace in both rankings; a refusal has one of the three causes |
| `AuctionService.AuctionMarket.WithdrawBidByBidder` | src/auction/services/bid-withdraw.service.ts:46-60 | request and awaited transfer are one step of the machine or nothing changes; it resolves exactly when a withdrawal was opened and its submission resolved |
| `AuctionEffects.WithdrawalEffect` | src/auction/services/bid-withdraw.service.ts:83-203 | a paid withdrawal takes exactly the bidder's finished total out of table and account and leaves what is unresolved; an unpaid one moves nothing; prices, sales and everyone else stay |
| `AuctionService.AuctionMarket.WithdrawBidsByBidder` | src/auction/services/bid-withdraw.service.ts:293-308 | one withdrawal per selected token, each with its own outcome, in order; complete exactly when none threw, and otherwise it ends at the one that did |
| `AuctionService.AuctionMarket.UpdateAuctionsAsStopped` | src/auction/services/helpers/database-helper.ts:44-66 | exactly the active auctions that are due are stopped and reported |
| `AuctionEffects.NothingDueStaysActive` | src/auction/services/helpers/database-helper.ts:44-66 | after a round of stopping the active auctions are exactly the earlier ones not yet due, untouched |
| `AuctionService.AuctionMarket.ForceCloseAuction` | src/auction/services/closing/force-closing.service.ts:11-26 | stops a created or active auction on the token, or there is none |
| `AuctionEffects.ForcedStopIsReady` | src/auction/services/closing/force-closing.service.ts:11-26 | a forced stop changes status and stop time only, and makes the auction ready for settlement if and only if it has no unresolved row |
| `AuctionService.AuctionMarket.MassAuctionCancel` | src/admin/services/mass-canceling.service.ts:103-126 | every active auction of another seller becomes due now, and their number is returned |
| `AuctionEffects.MassCancelStopsOthers` | src/admin/services/mass-canceling.service.ts:103-126 | a mass cancellation and any later round of stopping leave active exactly the undue auctions of the caller, and change no lot |
| `AuctionService.AuctionMarket.TryCancelAuction` | src/auction/services/auction-canceling.service.ts:44-108 | cancels only the caller's active auction without a live row, as one step; a refusal has one of the three causes |
| `AuctionEffects.CancellableIff` | src/auction/services/auction-canceling.service.ts:63-87 | in every reachable state the owner can cancel an active auction if and only if it has no live row, and then its price is the start price |
| `AuctionEffects.CancellationReturnsToken` | src/auction/services/auction-canceling.service.ts:87-171 | a cancellation ends the offer, sends the token to the owner, and stores the cancel block exactly when the return succeeded in a block other than zero; then it also restores the old stop time |
| `AuctionService.AuctionMarket.FindAuctionsReadyForWithdraw` | src/auction/services/helpers/database-helper.ts:68-86 | exactly the stopped auctions without a minting row, each once |
| `AuctionService.AuctionMarket.ProcessAuctionWithdraws` | src/auction/services/closing/auction-closing.service.ts:89-245 | the handler performs exactly one settlement step over some result of the grouped query, and throws exactly for a paid sale without a purchase block |
| `AuctionEffects.EmptyAuctionReturnsToken` | src/auction/services/closing/auction-closing.service.ts:238-242 | an auction without finished bids sends its token back to the owner, ends cancelled, and stores the cancel block exactly when the return succeeded in a block other than zero; no money moves |
| `AuctionEffects.EmptyIffNoFinishedRow` | src/auction/services/closing/auction-closing.service.ts:91-103 | that branch is taken exactly when no row of the auction is finished |
| `AuctionEffects.OneRefundEach` | src/auction/services/closing/auction-closing.service.ts:105-120 | the refund loop writes one row for each loser with a positive total and no other |
| `AuctionEffects.SaleKeepsLot` | src/auction/services/closing/auction-closing.service.ts:101-202 | a settlement with a winner keeps token, owner, price and terms, stores the block of any submission that resolved, and touches no other auction |
| `AuctionService.AuctionMarket.AuctionsWithdrawingIntervalHandler` | src/auction/services/closing/auction-closing.service.ts:74-87 | a round settles the ready auctions in order, each with its own outcomes; it is complete exactly when none threw, else it ends with the one that did and leaves the rest ready |
| `AuctionInvariant.RunKeeps` | src/auction/services/bid-placing.service.ts:37-233 | every action keeps solvency, the cached price, the two ledgers, the trade count, and that exactly the closed auctions have released their token, once; so every run does |
| `AuctionInvariant.WithdrawalKeepsLeader` | src/auction/services/bid-withdraw.service.ts:163-175 | a leader other than the withdrawing bidder keeps the lead and its total |
| `AuctionInvariant.RefundTotals` | src/auction/services/closing/auction-closing.service.ts:105-120 | refunding brings exactly the refunded losers to zero |
| `AuctionLaws.CachedPriceIsHighestTotal` | src/auction/services/bid-placing.service.ts:118-233 | in every reachable state an open auction's price is the highest finished+minting total, or the start price without a live row |
| `AuctionLaws.PriceMovesOnlyWithBids` | src/auction/services/bid-withdraw.service.ts:147-203 | withdrawals, stops, cancellations and settlement never change a price |
| `AuctionLaws.AcceptedBidTakesTheLead` | src/auction/services/bid-placing.service.ts:159-223 | a bid accepted from behind makes its bidder the only leader and raises the price by a step or more |
| `AuctionLaws.LeaderMustRaiseAStepIff` | src/auction/services/bid-placing.service.ts:195-205 | a leader's own raise must be a full step if and only if the price has reached the step |
| `AuctionLaws.PriceGrowsWithBids` | src/auction/services/bid-placing.service.ts:159-223 | with a start price of a step or more and no failed bid, n accepted bids put the price at start+(n-1)*step or more |
| `AuctionLaws.GrowthNeedsTheStartPrice` | src/auction/services/bid-placing.service.ts:195-205 | for every start price below the step there is a run that breaks that bound |
| `AuctionFloor.HighestFinishedNeverFalls` | src/auction/services/bid-withdraw.service.ts:158-187 | no action but settlement lowers an auction's highest finished total |
| `AuctionFloor.FinishedLeadNeverFalls` | src/auction/services/bid-withdraw.service.ts:158-187 | the same over any stretch of any run in which the auction is not settled |
| `AuctionFloor.WithdrawalChecksAreExact` | src/auction/services/bid-withdraw.service.ts:163-175 | the pending check is exactly what keeps the price right, the actual check exactly what keeps the finished lead |
| `AuctionFloor.PriceFloorIff` | src/auction/services/bid-placing.service.ts:118-233 | over every run, no outcome of the unresolved bids can sink an open auction below its start price if and only if each placed bid, or the finished lead at the time, was worth the start price |
| `AuctionFloor.SinksIffUnsafe` | src/auction/services/bid-placing.service.ts:118-140 | some resolution of the unresolved bids sinks the price exactly when the finished lead is too low or, with nothing finished, some unresolved bid is |
| `AuctionFloor.PlacedIsSafeIff` | src/auction/services/bid-placing.service.ts:183-233 | a bid that passes that test keeps a safe auction safe, and one that fails it never leaves it safe |
| `AuctionFloor.PriceKeepsItsFloor` | src/auction/services/bid-placing.service.ts:118-128 | with every bid passing the test the price never falls below the start price, whatever fails |
| `AuctionFloor.OneUnresolvedEachSuffices` | src/auction/services/bid-placing.service.ts:159-205 | bidders with at most one unresolved bid per auction only place bids that pass the test |
| `AuctionFloor.StepOfStartKeepsFloor` | src/auction/services/bid-placing.service.ts:195-197 | so does every bid on a safe auction whose step equals its start price |
| `AuctionFloor.TwoUnresolvedBidsCanSinkThePrice` | src/auction/services/bid-placing.service.ts:118-128 | an example run that fails the test: price 10 under a start price of 100 |
| `AuctionSettlement.RefundsConserve` | src/auction/services/bid-withdraw.service.ts:62-139 | refunds move money from the bid table to the payouts one for one, whichever transfers are refused |
| `AuctionSettlement.SettlementTotals` | src/auction/services/closing/auction-closing.service.ts:93-120 | every loser ends at zero unless refused, and the winner keeps their total |
| `AuctionSettlement.SettlementConserves` | src/auction/services/closing/auction-closing.service.ts:89-237 | in the settled database what was paid out and what is left exceed what had arrived by the recorded owner's payment; with nothing refused, refunds, that payment and the trade row's commission add up to it |
| `AuctionSettlement.SettledPriceIsWinnersTotal` | src/auction/services/closing/auction-closing.service.ts:186-202 | a settled auction's stored price is the winner's finished total, because no minting row is left |
| `AuctionSettlement.TradeRowIsExact` | src/auction/services/closing/auction-closing.service.ts:150-237 | a paid sale gets its trade row and its two money rows if and only if the token submission resolved, whether or not the token moved, and no row at all otherwise; price + commission = original price = winner total |
| `AuctionSettlement.UnpaidSaleOutcome` | src/auction/services/closing/auction-closing.service.ts:101-150 | an unpaid sale is recorded nowhere though the token was released: cancelled and ended when the winner bid alone, else withdrawing for good |
| `AuctionSettlement.OneTradePerRecordedSale` | src/auction/services/closing/auction-closing.service.ts:150-202 | over every run an auction has one trade row if it is bought with a known purchase block, and none otherwise |
| `AuctionSettlement.LedgersAlwaysAgree` | src/auction/services/bid-placing.service.ts:82-104 | account by account, completed deposits less withdrawals are the finished bids less the account's own sales; no finished total is negative |
| `AuctionClosing.SettlementByAccount` | src/auction/services/closing/auction-closing.service.ts:89-237 | account by account: each loser gets back exactly what had arrived unless refused, the winner nothing, and a recorded sale books price and seller's part to the seller |
| `AuctionSettlement.BidderRowsBalance` | src/auction/services/bid-placing.service.ts:207-218 | the stored balance of a bid or withdrawal is the bidder's pending total right after its insertion |
| `AuctionSettlement.RefundRowsBalance` | src/auction/services/bid-withdraw.service.ts:62-72 | the zero stored with a refund is the loser's pending total right after its insertion |
| `AuctionLifecycle.RankNeverFalls` | src/auction/services/helpers/database-helper.ts:44-66 | over any stretch of any run an auction's status never goes back and its owner never changes |
| `AuctionLifecycle.NoBiddingAfterClosing` | src/auction/services/helpers/database-helper.ts:31-42 | once out of the active state an auction gets no bid, no withdrawal and no cancellation |
| `AuctionLifecycle.SettledOnce` | src/auction/services/closing/auction-closing.service.ts:74-91 | no auction is settled twice |
| `AuctionLifecycle.CancelledStaysDead` | src/auction/services/auction-canceling.service.ts:63-108 | a cancelled auction never has a live row again and is never settled |
| `AuctionLifecycle.TokenLeavesOnce` | src/auction/services/closing/auction-closing.service.ts:135-241 | in every reachable state an auction's token has been sent out if and only if the auction has closed, and never twice |
| `AuctionLifecycle.TokenWentRight` | src/auction/services/closing/auction-closing.service.ts:135-241 | over every run the token of a bought auction went to its buyer, and one recorded as returned did move back to its owner |
| `AuctionClosing.EveryAuctionCanClose` | src/auction/services/closing/auction-closing.service.ts:74-245 | no auction is stuck: from every reachable state, however its bids and submissions turn out, an open auction can be stopped, resolved and settled, and its token is then out |
| `MarketContract.CustodyAlways` | market/MarketPlace.sol:161-271 | over every sequence of calls an active order is the one its ask points at, its NFT is the market's, and no NFT has two |
| `MarketContract.DeployedHasCustody` | market/MarketPlace.sol:62-73 | the contract as deployed satisfies the custody invariant |
| `MarketContract.BalanceTotals` | market/MarketPlace.sol:251-318 | what each call does to the sum of balances: deposits add, withdrawals subtract, all others keep it |
| `MarketContract.PurchaseMovesPrice` | market/MarketPlace.sol:257-271 | a purchase moves the price from buyer to seller, also when they are one account, closes the order and hands over the NFT |
| `MarketLaws.PurchaseExactly` | market/MarketPlace.sol:257-271 | a purchase succeeds if and only if the caller may act for the buyer, who can pay, the seller's balance does not overflow, the market has the NFT and the receiver is not zero; the order's flag plays no part |
| `MarketLaws.AddAskExactly` | market/MarketPlace.sol:161-207 | an ask succeeds exactly for the NFT's owner with approval; then the NFT is in custody under a new active order, and nothing else changes |
| `MarketLaws.CancelAskExactly` | market/MarketPlace.sol:235-248 | under custody a cancellation succeeds if and only if the caller owns the active order and is not the zero address; it closes that order, gives the NFT back and changes nothing else |
| `MarketLaws.CancelledGoesBack` | market/MarketPlace.sol:235-248 | in any storage, a cancellation that succeeds closes its sender's active order and gives the NFT to the sender |
| `MarketLaws.CancelUndoesAdd` | market/MarketPlace.sol:161-248 | listing and cancelling puts every NFT back, keeps all balances, and leaves active only what was active before |
| `MarketLaws.EditAskExactly` | market/MarketPlace.sol:209-232 | an edit succeeds exactly for the owner of an active order, and changes that order's price, currency, time and flag only |
| `MarketLaws.EscrowMovesBalance` | market/MarketPlace.sol:251-318 | deposits and withdrawals succeed exactly for an escrow within the bounds, and move one account's balance by the amount |
| `MarketLaws.WithdrawUndoesDeposit` | market/MarketPlace.sol:251-318 | a deposit withdrawn again leaves every balance as it was |
| `MarketLaws.WithdrawAllExactly` | market/MarketPlace.sol:306-312 | an escrow or the owner, and no other, empties exactly one balance |
| `MarketLaws.EditCanStrand` | market/MarketPlace.sol:209-232 | an edit with flag zero leaves the NFT in the market under an inactive order |
| `MarketLaws.StrandedForGood` | market/MarketPlace.sol:161-318 | over every sequence of calls without a purchase of it, such an NFT stays in the market and its order inactive |
| `MarketLaws.OwnerBuysBackIff` | market/MarketPlace.sol:257-271 | its owner gets it back by buying from themselves if and only if their balance covers the price, and keeps that balance |
| `MarketPlace.Contract.AddAsk` | market/MarketPlace.sol:161-207 | the in-place code is the specified call: new order, ask and custody, or no change at all |
| `MarketPlace.Contract.EditAsk` | market/MarketPlace.sol:209-232 | edits only the owner's active order, keeping price and currency when given as zero |
| `MarketPlace.Contract.CancelAsk` | market/MarketPlace.sol:235-248 | closes only the owner's active order and returns the NFT, or changes nothing |
| `MarketPlace.Contract.WithdrawAllKSM` | market/MarketPlace.sol:306-312 | empties a balance for its owner or an escrow and returns what it held |
| `MarketPlace.Contract.BuyKSM` | market/MarketPlace.sol:257-271 | the in-place code is the specified purchase, and a revert leaves no trace |
| `EscrowService.UniqueEscrow.CancelAsk` | src/escrow/service.ts:176-189 | every live offer on the token, and nothing else, becomes cancelled |
| `EscrowService.UniqueEscrow.MarkBought` | src/escrow/service.ts:200-213 | every active offer on the token becomes bought; removed ones are left |
| `EscrowService.UniqueEscrow.ProcessAddAsk` | src/escrow/unique.ts:175-217 | replaces live offers by the new one, for managed collections only |
| `EscrowService.UniqueEscrow.ProcessCancelAsk` | src/escrow/unique.ts:252-264 | ends the token's live offers, for managed collections only |
| `EscrowService.UniqueEscrow.ModifyBalanceOnContract` | src/escrow/unique.ts:355-388 | the row completes exactly when its call succeeded on the contract, else it fails and the contract is unchanged |
| `EscrowService.UniqueEscrow.RegisterTrade` | src/escrow/service.ts:426-450 | throws before any row is written when the buyer has no pair, else writes the trade and marks the active offers bought |
| `EscrowService.UniqueEscrow.ProcessBuyKSM` | src/escrow/unique.ts:219-250 | books trade, debit and payout of a live offer bought by a paired account, sends the debit at once, and otherwise changes nothing; it throws exactly for an offered token and an unpaired buyer |
| `EscrowAccounts.BookedPurchaseRows` | src/escrow/unique.ts:219-250 | a booked purchase adds one trade with an exact split and two money rows, both the seller's: minus the price, completed exactly when the debit reached the chain, and the seller's part, pending |
| `EscrowService.UniqueEscrow.ProcessWithdrawAllKSM` | src/escrow/unique.ts:266-295 | registers the emptied balance for the paired account, or for the signer when no pair is known |
| `EscrowService.UniqueEscrow.GetPendingContractBalance` | src/escrow/service.ts:358-370 | the earliest pending deposit, or there is none |
| `EscrowService.UniqueEscrow.ProcessContractBalance` | src/escrow/unique.ts:390-396 | the loop ends, handles pending rows once each in creation order, and leaves none pending |
| `EscrowLaws.RunSimulates` | src/escrow/unique.ts:175-264 | over every lockstep run each live offer quotes its token's order, no token has two live offers, and every active managed order is on offer |
| `EscrowOffers.OffersSimulateOrders` | src/escrow/unique.ts:175-264 | over every history of clean events, missed and misdirected calls included, a managed token has a live offer if and only if its order is active, that offer is the only one and quotes the order, and bought offers match trades one to one |
| `EscrowOffers.InStepIff` | src/escrow/unique.ts:175-264 | offers and orders are in step all along a history if and only if every event was clean: offered tokens bought from unremoved offers by paired buyers, no missed ask or cancellation of a managed token and no missed purchase of an offered one, no call to another address that cancels or books a live offer |
| `EscrowOffers.PurchaseEndsOfferIff` | src/escrow/service.ts:200-213 | a purchase ends the token's live offer if and only if the offer was not removed and the buyer has a pair; without a pair no table changes |
| `EscrowOffers.UnpairedPurchaseKeepsOffer` | src/escrow/unique.ts:231-239 | an example run: an account without a pair takes an offer at price zero, and the offer stays live with no trade |
| `EscrowOffers.EndedOffersAreFinal` | src/escrow/service.ts:176-213 | over any stretch of any history bought and cancelled offers are final, and no offer changes token, price or seller |
| `EscrowOffers.AskIsFound` | src/escrow/unique.ts:175-217 | after an ask on a managed token the lookup finds exactly that ask, active, with its price, seller and block, and nothing about other tokens changed |
| `EscrowOffers.CancelledIsNotFound` | src/escrow/unique.ts:252-264 | after a cancellation on a managed token the lookup finds nothing |
| `EscrowMoney.KsmIsConserved` | src/escrow/unique.ts:219-295 | over every history, whatever is missed or misdirected, balances, registered payouts, commissions and what missed withdrawals emptied equal the completed deposits plus the lost debits |
| `EscrowMoney.ExactInLockstepIff` | src/escrow/unique.ts:219-250 | over every lockstep run balances, payouts and commissions are exactly the completed deposits if and only if no booked purchase at a positive price has a debit that does not reach the chain |
| `EscrowMoney.DebitsAreLostIff` | src/escrow/unique.ts:355-388 | over every history debits are lost exactly when some booked purchase loses a positive price because its debit does not arrive or is reverted |
| `EscrowMoney.DroppedDebitIsOwedTwice` | src/escrow/unique.ts:241-245 | an example run at any price: the debit of a sale is dropped, and the books hold the price once more than was deposited |
| `EscrowMoney.NothingIsMissedWithoutThrow` | src/escrow/unique.ts:398-406 | when the scanner misses exactly the calls after a throw in their block, a history in which no unpaired account buys an offered token misses and empties nothing |
| `EscrowMoney.DebitNeverReverts` | src/escrow/unique.ts:241-243 | after a replayed purchase the seller's balance covers the debit, which therefore fails only if it does not reach the chain |
| `EscrowAccounts.PayoutsByAccount` | src/escrow/unique.ts:219-295 | over every history the payouts registered for an account are the seller's parts of its own recorded sales plus the balances it withdrew under the escrow's eyes |
| `EscrowAccounts.TradesAreFair` | src/escrow/unique.ts:144-153 | every trade row of every history splits its price into the seller's part, rounded down, and the commission |
| `EscrowAccounts.BalanceByAccount` | src/escrow/unique.ts:219-388 | over every history an account's contract balance is what its completed rows put there, plus what it sold, less what it spent and withdrew |
| `EscrowAccounts.DepositsByAccount` | src/escrow/kusama.ts:78-95 | over every history the deposits registered for an account are what it sent on Kusama, and all of it is paid in if and only if each of its deposit rows completed |
| `EscrowAccounts.WorthByAccount` | src/escrow/unique.ts:219-295 | over every lockstep run balance plus payouts are at least what the account paid in and earned less what it spent, and exactly that if and only if each of its sales at a positive price was booked and its debit reached the chain |
| `EscrowAccounts.CreditExactly` | src/escrow/unique.ts:355-388 | a credit completes its row if and only if it reaches the chain and does not overflow the balance; a failed one leaves the contract alone |
| `EscrowAccounts.PairsAreExact` | src/escrow/service.ts:90-112 | over every history the accounts with a pair are exactly those that offered a managed token, sold one in a booked purchase, or had a deposit sent to the contract |
| `KusamaWithdraw.KusamaEscrow.GetPendingKusamaWithdraw` | src/escrow/service.ts:376-388 | the earliest pending withdrawal, or there is none |
| `KusamaWithdraw.KusamaEscrow.Transfer` | src/escrow/kusama.ts:42-73 | throws without effect on too small a balance or a refused transaction, else moves the amount |
| `KusamaWithdraw.KusamaEscrow.Withdraw` | src/escrow/kusama.ts:101-114 | one turn: the row completes with its payment or fails without one |
| `KusamaWithdraw.KusamaEscrow.ProcessWithdraw` | src/escrow/kusama.ts:97-116 | the loop ends, gives every pending row exactly one turn in creation order, and leaves none pending |
| `KusamaWithdraw.PendingIdsExact` | src/escrow/service.ts:376-388 | the turns list each pending withdrawal exactly once, earlier ones first |
| `KusamaWithdraw.EveryRowSettled` | src/escrow/kusama.ts:97-116 | every pending row completes or fails, and nothing else of any row changes |
| `KusamaWithdraw.EveryPaymentArrives` | src/escrow/kusama.ts:42-116 | every account ends with what it had plus what was paid to it; the market's with what it had less all that was paid |
| `KusamaWithdraw.CoveredQueueIsPaid` | src/escrow/kusama.ts:42-116 | if nothing is refused and the account covers the queue, every pending withdrawal is paid |
| `KusamaWithdraw.PaidIff` | src/escrow/kusama.ts:42-116 | a pending withdrawal is paid if and only if the chain accepts it and the account covers it with what the earlier turns left |
| `BlockScanner.Scanner.MainLoop` | src/escrow/base.ts:143-152 | blocks are handed over consecutively, none twice; none is above the limit of its round if and only if the start is not above the first limit |
| `BlockScanner.LatestStartsBehindDelayIff` | src/escrow/base.ts:134-141 | starting at "latest" stays behind the delay exactly when the delay is at most ten blocks and at most the head |
| `BlockScanner.RestartSkipsNothingIff` | src/escrow/base.ts:134-141 | after the last scanned block a restart skips nothing if and only if it is not in mode latest or the head is at most eleven blocks on; in the other modes it resumes at that very block |
| `BlockScanner.FirstStart` | src/escrow/base.ts:134-141 | in an empty database both named modes start ten blocks behind the head, never below zero, and a number starts there |
| `TokenText.SplitJoin` | src/admin/services/tokens.service.ts:96-99 | splitting joined pieces gives them back |
| `TokenText.JoinSplit` | src/admin/services/tokens.service.ts:97-99 | joining split pieces gives the text back |
| `TokenText.DecimalValue` | src/admin/services/tokens.service.ts:144-150 | reading back a printed number gives the number |
| `AllowedTokens.NoFaultIffGood` | src/admin/services/tokens.service.ts:98-129 | a piece passes the check exactly when it is empty, one token in range, or starts with an ordered range in range |
| `AllowedTokens.CheckoutTokens` | src/admin/services/tokens.service.ts:95-130 | a list passes exactly when every piece does; else the fault of the first bad piece is reported |
| `AllowedTokens.Up` | src/admin/services/mass-canceling.service.ts:151-157 | a range lists exactly the numbers between its ends |
| `AllowedTokens.ParseStringAllowedTokens` | src/admin/services/tokens.service.ts:137-155 | the token service's loop computes the list its text denotes for it, empty text meaning no restriction |
| `AllowedTokens.AllowedTokensInList` | src/admin/services/mass-canceling.service.ts:131-149 | the mass-canceling service's loop computes the list its text denotes for it, and fails when nothing matches |
| `AllowedTokens.LeadingNumber` | src/admin/services/mass-canceling.service.ts:138-145 | parseInt of an accepted piece is its first number |
| `AllowedTokens.ParsersAgreeIff` | src/admin/services/tokens.service.ts:137-155 | on every accepted list the two parsers agree if and only if no piece is empty and a third number follows only a one-token range |
| `AllowedTokens.ThirdNumberIsReadTwice` | src/admin/services/mass-canceling.service.ts:131-149 | "1-3-2" is accepted and read as three tokens by one parser and as one by the other |
| `AllowedTokens.PrintedListsAreRead` | src/admin/services/tokens.service.ts:95-155 | every well-formed list is accepted, and both parsers return exactly its expansion |
| `AllowedTokens.ExpandCovers` | src/admin/services/tokens.service.ts:133-155 | a token is in the expansion exactly when some item covers it |
| `TokenService.CollectionTokens.GetArrayAllowedTokens` | src/admin/services/tokens.service.ts:173-199 | the allowed list is the stored one, or the whole collection when that is empty |
| `TokenService.CollectionTokens.RemoveTokens` | src/admin/services/tokens.service.ts:201-234 | each listing of a token puts one of its wrong rows right, so every row follows the list if and only if no token has more wrong rows than listings; with one live offer per token all follow |
| `TokenService.FollowIffNoneWrong` | src/admin/services/tokens.service.ts:201-234 | every row follows exactly when no listed token has a wrong row left |
| `TokenService.CollectionTokens.AddTokens` | src/admin/services/tokens.service.ts:38-58 | exactly the accepted lists are stored and applied; a rejected one changes nothing |
| `TokenService.OffersFollowTheList` | src/admin/services/tokens.service.ts:201-234 | after a well-formed list a live offer on a collection token is active exactly when an item covers it, the rest is untouched, and repeating changes nothing |
| `TokenService.AllowedMeansCovered` | src/admin/services/tokens.service.ts:163-179 | a well-formed list allows exactly the tokens its items cover |
| `TokenService.EmptyListSwitchesAllOn` | src/admin/services/tokens.service.ts:173-199 | the empty list is accepted, allows the whole collection, and switches on every live offer of a collection token |
| `CollectionAddress.AddressRoundTrip` | src/utils/blockchain/web3.ts:38-63 | extracting the id from a collection's address gives the id back for every id below 0xffffffff, in any case of the digits |
| `CollectionAddress.BareRoundTrip` | src/utils/blockchain/web3.ts:38-63 | the same for the address without its 0x |
| `CollectionAddress.ErrorsExactly` | src/utils/blockchain/util.ts:230-233 | ids outside the range have no address; extraction refuses every length but 40 and 42, and is NaN exactly when the eighth character from the end is no hex digit |
| `CollectionAddress.AddressesAreDistinct` | src/utils/blockchain/util.ts:230-233 | different collections never share an address, not even up to case |
| `CollectionAddress.AddressBeginning` | src/utils/blockchain/web3.ts:38-63 | every collection's address is 42 characters long and begins with 0x17c4e6453cc49aaaaeaca894e6d9683e, up to case |
| `CollectionAddress.ShiftedByte` | src/utils/blockchain/web3.ts:38-63 | a signed shift of an id with the top bit set differs from the plain quotient by a multiple of 256 |
| `CollectionAddress.IdBytes` | src/utils/blockchain/web3.ts:38-63 | the four stored bytes are the id in base 256 |

## Left out

- Substrate and EVM RPC, signing, nonces, signature checks, logging, Sentry, websockets, Nest wiring and DTO validation.
- Exceptions before a submission: an RPC that fails while a withdrawal or a payment is being built leaves a minting row behind or ends the closing round; here every submission has an outcome.
- A finalized but unsuccessful refund: `makeWithdrawalTransfer` ignores `isSucceed`, so `paid` of a refund or withdrawal here means that the submission resolved, and the ledgers count money that did not move. For token transfers both outcomes are modelled.
- Several calls in one block reach the contract before the first of them is replayed: here an offered purchase, its replay and the debit are one step, and so is every other call with its replay.
- What `encodeAddress` does is that of `@polkadot/util-crypto` 9.7.2, which is not part of this model: keys of 20 bytes are refused.
- Isolation anomalies and crashes in the middle of a handler: each transaction or handler is one step.
- A bid's money arrives before the bid is checked; a rejected bid's transfer is not in the ledgers.
- `saveFailedAuction` and the checks of `create`: the machine starts with `createAuctionBroadcast`, which gets a start price and a step of at least one. It writes the status active; `created` is only a column default that force closing accepts as well, and no action of the machine produces it.
- Bids without a transfer event: they throw before a row is written (`bid-placing.service.ts:46`).
- Raw and encoded addresses: the winner checks of a withdrawal compare the raw argument with the stored form; both are one form here.
- Block numbers of bids and asks in auctions, ask and buy times, names, symbols and token URIs.
- `editAsk` is proved in the contract but not mirrored by the escrow machine, because the escrow does not replay it.
- `buy`, `withdraw`, `terminate` and `onERC721Received` of the contract (`buy` is a purchase for the chain's own coin and releases the NFT as `buyKSM` does), and reentrancy through foreign tokens; ERC721 is an ownership map with one approval flag per ask.
- `ethereum.transact`, more than one escrow account, and a set of managed collections that changes during a run.
- Kusama fees and the existential deposit.
- Ties in `created_at`: rows are in insertion order.
- `blockchain_block` rows, `isBlockScanned` and restarts: the scanner claim is about calls of `processBlock` in one run of the loop, watched for any finite number of rounds.
- Blanks, signs and `0x` in `parseInt`: the lists contain digits, dashes and commas only, and the extracted address tail is read up to the first character that is no hex digit.
- `massFixPriceCancel`: its effect on one offer is the administrator's flip in the escrow machine; the bulk form would add nothing.
- The SQL reports of `getBidsForWithdraw`, offers, trades, filters, settings and statistics; card payments in `pay.service.ts`.
- BidTable.AggregatedBids: does not fix the order of equal totals, because the query does not.
- AuctionService.AuctionMarket.PlaceBid: covers the request up to the pending row; its outcome is `HandleBidTxSuccess` or `HandleBidTxFail`, which other bidders' steps may precede.
- AuctionService.AuctionMarket.CreateAuction: requires the positive start price and step that request validation demands; the row it writes is the machine's initial state.
- AllowedTokens.AllowedTokensInList: requires an accepted list, because `addTokens` stores no other.
- AllowedTokens.ParseStringAllowedTokens: requires a text of digits, dashes and commas, for the same reason.
