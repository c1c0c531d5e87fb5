/** The escrow's block scanner: which blocks its main loop hands to `processBlock`. */
module BlockScanner {
  import opened Common

  /** Where scanning starts: near the head, at the last scanned block, or at a fixed number. */
  datatype StartFrom = Latest | Current | Block(number: int)

  function GreaterThenZero(x: int): int {
    if x > 0 then x else 0
  }

  /** `getStartBlock`. */
  function StartBlock(mode: StartFrom, head: int, lastScanned: Option<int>): int {
    if mode == Latest then GreaterThenZero(head - 10)
    else if lastScanned.Some? then lastScanned.value
    else if mode == Current then GreaterThenZero(head - 10)
    else mode.number
  }

  /** Starting near the head stays behind the delay exactly when that is at most ten blocks and at most the head. */
  lemma LatestStartsBehindDelayIff(head: nat, waitBlocks: int, lastScanned: Option<int>)
    ensures StartBlock(Latest, head, lastScanned) <= head - waitBlocks <==> waitBlocks <= 10 && waitBlocks <= head
  {}

  /**
   * A restart leaves out no block after the last scanned one exactly when it does not begin near the head, or the head
   * has moved on by no more than ten blocks; unless it begins near the head, it repeats that one block and no other.
   */
  lemma RestartSkipsNothingIff(mode: StartFrom, head: nat, last: nat)
    ensures StartBlock(mode, head, Some(last)) <= last + 1 <==> mode != Latest || head <= last + 11
    ensures mode != Latest ==> StartBlock(mode, head, Some(last)) == last
  {}

  /** A first start in an empty database: near the head in both named modes, never below zero, or where it is told to. */
  lemma FirstStart(mode: StartFrom, head: nat)
    ensures !mode.Block? ==>
      StartBlock(mode, head, None) == StartBlock(Latest, head, None) && head - 10 <= StartBlock(mode, head, None) <= head
    ensures !mode.Block? && head < 10 ==> StartBlock(mode, head, None) == 0
    ensures !mode.Block? && head >= 10 ==> StartBlock(mode, head, None) == head - 10
    ensures mode.Block? ==> StartBlock(mode, head, None) == mode.number
  {}

  /** The latest processable block when round `k` begins. */
  function LatestAt(initial: int, heads: nat -> int, waitBlocks: int, k: nat): int {
    if k == 0 then initial else heads(k - 1) - waitBlocks
  }

  /** Heads never go back, so neither does the latest processable block. */
  ghost predicate HeadsGrow(initial: int, heads: nat -> int, waitBlocks: int) {
    forall k: nat :: LatestAt(initial, heads, waitBlocks, k) <= LatestAt(initial, heads, waitBlocks, k + 1)
  }

  class Scanner {
    const waitBlocks: int
    var currentBlock: int
    var latestBlock: int

    constructor (waitBlocks: int, mode: StartFrom, head: int, lastScanned: Option<int>)
      ensures this.waitBlocks == waitBlocks
      ensures currentBlock == StartBlock(mode, head, lastScanned) && latestBlock == head - waitBlocks
    {
      this.waitBlocks := waitBlocks;
      currentBlock, latestBlock := StartBlock(mode, head, lastScanned), head - waitBlocks;
    }

    /** The subscription's callback: Kusama stays `waitBlocks` behind the head, Unique follows it (`waitBlocks` 0). */
    method OnNewHead(head: int)
      modifies this`latestBlock
      ensures latestBlock == head - waitBlocks
    {
      latestBlock := head - waitBlocks;
    }

    /**
     * `mainLoop`, watched for a number of rounds. `heads(k)` is the last head delivered by the end of round
     * `k`, the waiting included. The loop is left early only when it would wait with nothing new to scan.
     * `blocks` are the calls of `processBlock` in order.
     */
    method MainLoop(rounds: nat, heads: nat -> int) returns (blocks: seq<int>)
      requires HeadsGrow(latestBlock, heads, waitBlocks)
      modifies this
      ensures |blocks| <= rounds
      ensures forall k :: 0 <= k < |blocks| ==> blocks[k] == old(currentBlock) + k
      ensures currentBlock == old(currentBlock) + |blocks|
      ensures rounds > 0 ==>
        ((forall k :: 0 <= k < |blocks| ==> blocks[k] <= LatestAt(old(latestBlock), heads, waitBlocks, k))
         <==> old(currentBlock) <= old(latestBlock))
      ensures |blocks| < rounds ==> currentBlock > latestBlock || old(currentBlock) > old(latestBlock)
    {
      blocks := [];
      while |blocks| < rounds
        invariant |blocks| <= rounds
        invariant currentBlock == old(currentBlock) + |blocks|
        invariant latestBlock == LatestAt(old(latestBlock), heads, waitBlocks, |blocks|)
        invariant old(currentBlock) <= old(latestBlock) ==> currentBlock <= latestBlock
        invariant forall k :: 0 <= k < |blocks| ==> blocks[k] == old(currentBlock) + k
        invariant old(currentBlock) <= old(latestBlock) ==>
          forall k :: 0 <= k < |blocks| ==> blocks[k] <= LatestAt(old(latestBlock), heads, waitBlocks, k)
        decreases rounds - |blocks|
      {
        var lastLatest := latestBlock;
        blocks := blocks + [currentBlock];
        OnNewHead(heads(|blocks| - 1));
        currentBlock := currentBlock + 1;
        assert lastLatest <= LatestAt(old(latestBlock), heads, waitBlocks, |blocks| - 1 + 1);
        if currentBlock <= lastLatest {
          continue;
        }
        if latestBlock == lastLatest {
          return;
        }
      }
    }
  }
}
