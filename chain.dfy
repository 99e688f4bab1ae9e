/** The records of src/blockchain.ts (Transaction, Block and the two partial
    blocks the miner builds) and the properties a chain of blocks, a sealed
    block and a proof-of-work nonce are meant to have. */
module Chain {
  import opened Difficulty

  /** A transaction amount: a JavaScript number that the ledger stores and
      never computes on. */
  type Amount(==)

  datatype Transaction = Transaction(
    amount: Amount,
    sender: string,
    recipient: string,
    timestamp: int)

  datatype Block = Block(
    transactions: seq<Transaction>,
    nonce: nat,
    hash: string,
    previousBlockHash: string,
    timestamp: int,
    index: int)

  /** `Omit<Block, "hash" | "nonce">`: the block before proof of work, its
      fields in the order of the object literal that `mine` builds. */
  datatype PrematureBlock = PrematureBlock(
    transactions: seq<Transaction>,
    timestamp: int,
    index: int,
    previousBlockHash: string)

  /** `{ ...prematureBlock, nonce }`, the value that is hashed. Both places
      that hash a block build it with the same key order, so equal values
      here stand for equal serialisations. */
  datatype UnminedBlock = UnminedBlock(
    transactions: seq<Transaction>,
    timestamp: int,
    index: int,
    previousBlockHash: string,
    nonce: nat)

  /** `hashBlockData`: SHA-256 of the JSON serialisation, left abstract. Any
      total function of the hash input will do; the model holds for all. */
  type Hasher = UnminedBlock -> string

  function WithNonce(b: PrematureBlock, nonce: nat): UnminedBlock {
    UnminedBlock(b.transactions, b.timestamp, b.index, b.previousBlockHash, nonce)
  }

  /** `{ ...prematureBlock, hash, nonce }`: the sealed block. */
  function Seal(b: PrematureBlock, nonce: nat, hash: string): Block {
    Block(b.transactions, nonce, hash, b.previousBlockHash, b.timestamp, b.index)
  }

  /** The hash input a stored block stands for: everything but its hash. */
  function HashInput(b: Block): UnminedBlock {
    UnminedBlock(b.transactions, b.timestamp, b.index, b.previousBlockHash, b.nonce)
  }

  /** Sealing loses nothing: the stored block gives back exactly the data
      that was hashed for it, and the hash it was given. */
  lemma SealRoundTrip(b: PrematureBlock, nonce: nat, hash: string)
    ensures HashInput(Seal(b, nonce, hash)) == WithNonce(b, nonce)
    ensures Seal(b, nonce, hash).hash == hash
  {
  }

  /** The `previousBlockHash` of the next block: "0" for genesis, otherwise
      the hash of the last block. */
  function PreviousHash(chain: seq<Block>): string {
    if |chain| == 0 then "0" else chain[|chain| - 1].hash
  }

  /** The block `mine` builds before proof of work, given the chain, the
      pending pool and the clock reading. */
  function NextBlockData(chain: seq<Block>, pending: seq<Transaction>, now: int): PrematureBlock {
    PrematureBlock(pending, now, |chain| + 1, PreviousHash(chain))
  }

  /** Block b is a correct successor of chain. */
  predicate Follows(chain: seq<Block>, b: Block) {
    b.index == |chain| + 1 && b.previousBlockHash == PreviousHash(chain)
  }

  /** The chain-shape invariant: indices run 1, 2, ..., |chain|, the first
      block links to "0" and every later block to its predecessor's hash. */
  predicate Linked(chain: seq<Block>) {
    (forall i :: 0 <= i < |chain| ==> chain[i].index == i + 1) &&
    (|chain| > 0 ==> chain[0].previousBlockHash == "0") &&
    (forall i :: 0 < i < |chain| ==> chain[i].previousBlockHash == chain[i - 1].hash)
  }

  /** The chains that successive appends of correct successors produce,
      starting from the empty chain. */
  predicate Grown(chain: seq<Block>)
    decreases |chain|
  {
    |chain| == 0 ||
    (Grown(chain[..|chain| - 1]) && Follows(chain[..|chain| - 1], chain[|chain| - 1]))
  }

  /** The invariant is exactly what appending correct successors yields. */
  lemma {:induction false} GrownIffLinked(chain: seq<Block>)
    ensures Grown(chain) <==> Linked(chain)
    decreases |chain|
  {
    if |chain| > 0 {
      var init := chain[..|chain| - 1];
      GrownIffLinked(init);
      assert forall i :: 0 <= i < |init| ==> init[i] == chain[i];
    }
  }

  /** Appending a correct successor keeps the invariant. */
  lemma AppendKeepsLinked(chain: seq<Block>, b: Block)
    requires Linked(chain)
    requires Follows(chain, b)
    ensures Linked(chain + [b])
  {
  }

  /** Under the invariant the last block's index is the chain's length, so
      `getLastBlock().index + 1` is the index of the next block to be mined. */
  lemma LastIndexIsLength(chain: seq<Block>)
    requires Linked(chain)
    requires |chain| > 0
    ensures chain[|chain| - 1].index == |chain|
    ensures forall pending, now :: NextBlockData(chain, pending, now).index == chain[|chain| - 1].index + 1
  {
  }

  /** Block b carries the hash of its own data, and that hash meets the
      proof-of-work target. */
  predicate Sealed(h: Hasher, b: Block) {
    b.hash == h(HashInput(b)) && Meets(b.hash)
  }

  predicate AllSealed(h: Hasher, chain: seq<Block>) {
    forall i :: 0 <= i < |chain| ==> Sealed(h, chain[i])
  }

  /** In a linked chain of sealed blocks every block's `previousBlockHash` is
      the hash of its predecessor's full data, nonce included, and meets the
      target. */
  lemma LinkCommitsToPredecessor(h: Hasher, chain: seq<Block>, i: int)
    requires Linked(chain) && AllSealed(h, chain)
    requires 0 < i < |chain|
    ensures chain[i].previousBlockHash == h(HashInput(chain[i - 1]))
    ensures Meets(chain[i].previousBlockHash)
  {
  }

  /** Nonce n is accepted for block b: the digest of b with n meets the target. */
  predicate NonceWorks(h: Hasher, b: PrematureBlock, n: nat) {
    Meets(h(WithNonce(b, n)))
  }

  /** Some nonce from `from` upward is accepted: without one, the search of
      `proofOfWork` never ends. */
  ghost predicate Minable(h: Hasher, b: PrematureBlock, from: nat) {
    exists n: nat :: from <= n && NonceWorks(h, b, n)
  }

  /** A nonce that is accepted from some start on is accepted from any
      earlier start on. */
  lemma MinableFromEarlier(h: Hasher, b: PrematureBlock, lo: nat, hi: nat)
    requires lo <= hi && Minable(h, b, hi)
    ensures Minable(h, b, lo)
  {
  }

  /** n is the first accepted nonce in from, from + 1, ... */
  ghost predicate IsLeastNonce(h: Hasher, b: PrematureBlock, from: nat, n: nat) {
    from <= n && NonceWorks(h, b, n) &&
    forall m: nat :: from <= m < n ==> !NonceWorks(h, b, m)
  }

  /** The first accepted nonce is determined by the block and the start. */
  lemma LeastNonceUnique(h: Hasher, b: PrematureBlock, from: nat, n1: nat, n2: nat)
    requires IsLeastNonce(h, b, from, n1) && IsLeastNonce(h, b, from, n2)
    ensures n1 == n2
  {
  }

  /** A search that starts at 1 finds the first accepted nonce overall
      exactly when nonce 0 is not accepted. */
  lemma LeastFromOne(h: Hasher, b: PrematureBlock, n: nat)
    requires IsLeastNonce(h, b, 1, n)
    ensures IsLeastNonce(h, b, 0, n) <==> !NonceWorks(h, b, 0)
  {
  }
}
