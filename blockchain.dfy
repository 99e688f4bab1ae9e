/** The class `Blockchain` of src/blockchain.ts: an in-memory ledger holding
    the chain of mined blocks, the pool of pending transactions and the list
    of peer URLs. Clock readings (`Date.now()`) arrive as `now` parameters;
    the hash function and the shared proof-of-work expression are given to
    the constructor. */
module Ledger {
  import opened Wrappers
  import opened Difficulty
  import opened Chain

  class Blockchain {
    var chain: seq<Block>
    var pendingTransactions: seq<Transaction>
    var currentNodeURL: string
    var network: seq<string>
    /** `hashBlockData`: SHA-256 over `JSON.stringify`. */
    const hashBlockData: Hasher
    /** The module-level `powTarget`, shared with every other instance. */
    const powTarget: PowTarget

    /** What `mine` keeps, from the empty chain on: the chain is linked and
        every block in it is sealed. */
    ghost predicate Consistent()
      reads this
    {
      Linked(chain) && AllSealed(hashBlockData, chain)
    }

    /** The object invariant once the constructor has mined the genesis block. */
    ghost predicate Valid()
      reads this
    {
      Consistent() && |chain| >= 1
    }

    /** Starts with empty state and mines the genesis block. */
    constructor (hashBlockData: Hasher, powTarget: PowTarget, currentNodeURL: string, now: int)
      requires Minable(hashBlockData, NextBlockData([], [], now), FirstTestableNonce(powTarget.lastIndex))
      modifies powTarget
      ensures Valid()
      ensures this.hashBlockData == hashBlockData && this.powTarget == powTarget
      ensures |chain| == 1
      ensures chain[0].index == 1 && chain[0].previousBlockHash == "0"
      ensures chain[0].transactions == [] && chain[0].timestamp == now
      ensures IsLeastNonce(hashBlockData, NextBlockData([], [], now),
                           FirstTestableNonce(old(powTarget.lastIndex)), chain[0].nonce)
      ensures pendingTransactions == [] && network == []
      ensures this.currentNodeURL == currentNodeURL
      ensures powTarget.lastIndex > 0
    {
      this.chain := [];
      this.pendingTransactions := [];
      this.currentNodeURL := currentNodeURL;
      this.network := [];
      this.hashBlockData := hashBlockData;
      this.powTarget := powTarget;
      new;
      var genesis := Mine(now);
    }

    /** Seals the whole pending pool into a new block at the end of the
        chain and empties the pool. The search for the nonce reads and
        updates the shared `powTarget`. */
    method Mine(now: int) returns (block: Block)
      requires Consistent()
      requires Minable(hashBlockData, NextBlockData(chain, pendingTransactions, now),
                       FirstTestableNonce(powTarget.lastIndex))
      modifies this, powTarget
      ensures Valid()
      ensures chain == old(chain) + [block]
      ensures pendingTransactions == []
      ensures network == old(network) && currentNodeURL == old(currentNodeURL)
      ensures block.transactions == old(pendingTransactions)
      ensures block.timestamp == now
      ensures block.index == |old(chain)| + 1
      ensures block.previousBlockHash == PreviousHash(old(chain))
      ensures block.hash == hashBlockData(HashInput(block)) && Meets(block.hash)
      ensures IsLeastNonce(hashBlockData, NextBlockData(old(chain), old(pendingTransactions), now),
                           FirstTestableNonce(old(powTarget.lastIndex)), block.nonce)
      ensures powTarget.lastIndex > 0
    {
      var previousBlockHash := if |chain| == 0 then "0" else GetLastBlock().value.hash;
      var prematureBlock := PrematureBlock(pendingTransactions, now, |chain| + 1, previousBlockHash);
      var nonce := ProofOfWork(prematureBlock);
      block := Seal(prematureBlock, nonce, hashBlockData(WithNonce(prematureBlock, nonce)));
      AppendKeepsLinked(chain, block);
      chain := chain + [block];
      pendingTransactions := [];
    }

    /** The chain itself. */
    function GetChain(): (c: seq<Block>)
      reads this
      ensures c == chain
      ensures Valid() ==> |c| >= 1 && Linked(c) && AllSealed(hashBlockData, c)
    {
      chain
    }

    /** The last block of the chain; JavaScript's `undefined` (None) when the
        chain is empty, which happens only while the constructor runs. */
    function GetLastBlock(): (r: Option<Block>)
      reads this
      ensures r.Some? <==> |chain| > 0
      ensures r.Some? ==> r.value == chain[|chain| - 1]
      ensures Consistent() && r.Some? ==> r.value.index == |chain| && Sealed(hashBlockData, r.value)
    {
      if |chain| == 0 then None else Some(chain[|chain| - 1])
    }

    /** Queues a transaction and returns the index of the block that the next
        `mine` will create. */
    method CreateNewTransaction(amount: Amount, sender: string, recipient: string, now: int)
      returns (index: int)
      requires Valid()
      modifies this`pendingTransactions
      ensures Valid()
      ensures pendingTransactions == old(pendingTransactions) + [Transaction(amount, sender, recipient, now)]
      ensures chain == old(chain) && network == old(network)
      ensures index == |chain| + 1
      ensures index == NextBlockData(chain, pendingTransactions, now).index
    {
      var newTransaction := Transaction(amount, sender, recipient, now);
      pendingTransactions := pendingTransactions + [newTransaction];
      index := GetLastBlock().value.index + 1;
    }

    /** The search of `proofOfWork`: try nonces 0, 1, 2, ... until
        `powTarget.test` accepts the digest. Each call restarts at 0, and a
        match left over from the previous search makes the first test fail. */
    method ProofOfWork(block: PrematureBlock) returns (nonce: nat)
      requires Minable(hashBlockData, block, FirstTestableNonce(powTarget.lastIndex))
      modifies powTarget
      ensures IsLeastNonce(hashBlockData, block, FirstTestableNonce(old(powTarget.lastIndex)), nonce)
      ensures powTarget.lastIndex == Exec(0, hashBlockData(WithNonce(block, nonce))).1
      ensures powTarget.lastIndex > 0
    {
      ghost var from := FirstTestableNonce(powTarget.lastIndex);
      ghost var bound: nat :| from <= bound && NonceWorks(hashBlockData, block, bound);
      nonce := 0;
      while true
        invariant nonce <= bound
        invariant nonce == 0 ==> powTarget.lastIndex == old(powTarget.lastIndex)
        invariant nonce > 0 ==> powTarget.lastIndex == 0
        invariant forall m: nat :: from <= m < nonce ==> !NonceWorks(hashBlockData, block, m)
        decreases bound - nonce
      {
        var hash := hashBlockData(WithNonce(block, nonce));
        var matched := powTarget.Test(hash);
        if matched {
          return;
        }
        nonce := nonce + 1;
      }
    }

    /** Adds a peer URL at the end of the list, duplicates included, and
        returns the list. */
    method UpdateNetwork(newNodeURL: string) returns (net: seq<string>)
      requires Valid()
      modifies this`network
      ensures Valid()
      ensures network == old(network) + [newNodeURL]
      ensures net == network
      ensures chain == old(chain) && pendingTransactions == old(pendingTransactions)
    {
      network := network + [newNodeURL];
      net := network;
    }
  }

  /** A client of the class: a node starts, two transactions are submitted
      and a block is mined. The only assumption is that every block has an
      accepted nonce of at least 1, so that every search ends. */
  method SubmitTwiceThenMine(h: Hasher, powTarget: PowTarget, a1: Amount, a2: Amount)
    returns (genesis: Block, block: Block, hint1: int, hint2: int, pending: seq<Transaction>)
    requires forall b :: Minable(h, b, 1)
    modifies powTarget
    ensures genesis.index == 1 && genesis.previousBlockHash == "0" && genesis.transactions == []
    ensures hint1 == 2 && hint2 == 2
    ensures block.transactions == [Transaction(a1, "alice", "bob", 11), Transaction(a2, "bob", "carol", 12)]
    ensures block.index == 2 && block.previousBlockHash == genesis.hash
    ensures Meets(block.hash) && block.nonce >= 1
    ensures pending == []
  {
    MinableFromEarlier(h, NextBlockData([], [], 10), FirstTestableNonce(powTarget.lastIndex), 1);
    var node := new Blockchain(h, powTarget, "http://localhost:3001", 10);
    genesis := node.GetLastBlock().value;
    hint1 := node.CreateNewTransaction(a1, "alice", "bob", 11);
    hint2 := node.CreateNewTransaction(a2, "bob", "carol", 12);
    block := node.Mine(13);
    pending := node.pendingTransactions;
  }
}
