# Blockchain ledger: a verified model

This project models the `Blockchain` class of `src/blockchain.ts` (repository
wise-introvert/blockchain) and proves properties of the model in Dafny. The
class is a single in-memory ledger node. It has three pieces of state:

- `chain`: the blocks mined so far.
- `pendingTransactions`: transactions waiting for the next block.
- `network`: a list of peer URLs.

Its operations work like this:

- The constructor mines a genesis block.
- `mine` seals the whole pending pool into a new block, which it appends to
  the chain. It then empties the pool.
- `createNewTransaction` queues a transaction.
- `updateNetwork` records a peer URL.
- `getChain` and `getLastBlock` read the state.
- The proof of work (`proofOfWork`) tries the nonces 0, 1, 2, … in turn. It
  stops at the first one whose hash matches the module-level expression
  `powTarget = /^(0000)[^0](.*)/gi`.

Files:

- `wrappers.dfy` (module `Wrappers`): the `Option` type.
- `difficulty.dfy` (module `Difficulty`): the proof-of-work target, with the
  ECMAScript semantics of `RegExp.prototype.test` for this expression. The
  class `PowTarget` holds the expression's `lastIndex`.
- `chain.dfy` (module `Chain`): the datatypes. It also defines the
  chain-shape invariant (`Linked`), the seal of a block (`Sealed`) and "the
  first accepted nonce" (`IsLeastNonce`), with lemmas about them.
- `blockchain.dfy` (module `Ledger`): the class `Blockchain` and one client
  method, `SubmitTwiceThenMine`. Each method is proved against the
  definitions in `Chain` and keeps the object invariant `Valid()`:
  - the chain is non-empty;
  - block `i` has index `i + 1`;
  - the first block links to `"0"`, and every later block links to its
    predecessor's hash;
  - every block's hash is the hash of its own data and meets the target.

Three parts of the code are modelled exactly as written:

- **The stateful target.** `powTarget` has the global flag, so `test`
  stores the end of a successful match in `lastIndex`. The next `test`
  call then starts its search there. The pattern is anchored with `^` and
  has no multiline flag, so that call fails and resets `lastIndex` to 0.
  The expression is created once and shared by every instance. So after
  the first block mined in a process, each search treats nonce 0 as
  rejected. It returns the first accepted nonce from 1 upward. This is
  the `FirstTestableNonce` start in the contracts of `Mine` and
  `ProofOfWork`. `Chain.LeastFromOne` says when this differs from the first
  accepted nonce overall: exactly when nonce 0 would have been accepted.
  This changes only which nonce is found. A returned nonce is always
  accepted.
- **`mine` appends.** The block is pushed onto the chain by `mine` itself.
- **`updateNetwork` pushes.** The URL is added to the list with no check
  for duplicates and no exclusion of the node's own URL.

The hash function (`hashBlockData`, SHA-256 over `JSON.stringify`) is a
constructor parameter of function type, so every proved property holds for
every hash function. Both places that hash a block (lines 92 and 159) build
`{ ...prematureBlock, nonce }` with the same key order. The model therefore
hashes one datatype value, `UnminedBlock`. This is also why the hash stored
in a block is the hash that the search accepted.

## Model

| member | source | states |
|---|---|---|
| `Difficulty.DotStarEnd` | src/blockchain.ts:8 | the greedy `(.*)` stops at the first line terminator at or after its start, or at the end of the string, and matches no line terminator before that |
| `Difficulty.MatchAtStart` | src/blockchain.ts:8 | matching `^(0000)[^0](.*)` at position 0 succeeds iff the digest has four leading '0' and a fifth character that is not '0'; a match ends between 5 and the string's length |
| `Difficulty.ScanFromAnchored` | src/blockchain.ts:8 | because of `^`, a search from any position after 0 finds nothing, and a search from 0 finds exactly the match at 0 |
| `Difficulty.Exec` | src/blockchain.ts:8 | one `powTarget.test(s)` call matches iff `lastIndex` was 0 and s meets the target; it leaves `lastIndex` at the match's end (the end of the greedy `(.*)` from position 5, so at least 5) on success and at 0 on failure |
| `Difficulty.FirstTestableNonce` | src/blockchain.ts:157-160 | the first nonce a search can accept is 0 or 1: when `lastIndex` is non-zero every `test` call fails and resets it (start 1), and when it is 0 `test` accepts exactly the digests that meet the target (start 0) |
| `Difficulty.PowTarget.constructor` | src/blockchain.ts:8 | the module-level expression starts with `lastIndex` 0 |
| `Difficulty.PowTarget.Test` | src/blockchain.ts:160 | `test` returns true iff the old `lastIndex` was 0 and the digest meets the target, and updates `lastIndex` as `Exec` says |
| `Chain.SealRoundTrip` | src/blockchain.ts:90-94 | a sealed block gives back exactly the data that was hashed for it, nonce included, and carries the given hash |
| `Chain.GrownIffLinked` | src/blockchain.ts:77-99 | the chains built by appending correct successors from the empty chain are exactly those with indices 1..n, the first block linked to "0" and every later block linked to its predecessor's hash (both directions) |
| `Chain.AppendKeepsLinked` | src/blockchain.ts:78-96 | appending a block with index `length + 1` and the previous hash (or "0" when empty) keeps the chain-shape invariant |
| `Chain.LastIndexIsLength` | src/blockchain.ts:142 | under the invariant the last block's index equals the chain length, so `getLastBlock().index + 1` is the index of the next block |
| `Chain.LinkCommitsToPredecessor` | src/blockchain.ts:78-96 | in a linked chain of sealed blocks, every block's `previousBlockHash` is the hash of its predecessor's full data and meets the target |
| `Chain.MinableFromEarlier` | src/blockchain.ts:156-164 | if some nonce from a start on is accepted, one is accepted from any earlier start on |
| `Chain.LeastNonceUnique` | src/blockchain.ts:156-164 | the first accepted nonce from a given start is unique |
| `Chain.LeastFromOne` | src/blockchain.ts:156-164 | the first accepted nonce from 1 upward is the first accepted nonce overall iff nonce 0 is not accepted |
| `Ledger.Blockchain.constructor` | src/blockchain.ts:60-68 | after construction the chain is exactly one block (index 1, previous hash "0", no transactions, the given timestamp, a least accepted nonce); the pool and the network are empty; the invariant holds |
| `Ledger.Blockchain.Mine` | src/blockchain.ts:77-99 | the chain becomes the old chain plus one block at the end; the block holds exactly the old pending pool in order, has index old length + 1 and the previous hash (or "0"), carries the hash of its own data with the found nonce, and that hash meets the target; the nonce is the first accepted one from the start the regex state allows; the pool is emptied; the network is unchanged; the invariant holds |
| `Ledger.Blockchain.GetChain` | src/blockchain.ts:107-109 | returns the chain, which under the invariant is non-empty, linked and sealed |
| `Ledger.Blockchain.GetLastBlock` | src/blockchain.ts:116-118 | returns the final block, or undefined (None) exactly when the chain is empty; under the invariant its index is the chain length and it is sealed |
| `Ledger.Blockchain.CreateNewTransaction` | src/blockchain.ts:129-143 | appends exactly one transaction with the given amount, sender, recipient and timestamp to the end of the pool; chain and network unchanged; returns chain length + 1, the index of the next block |
| `Ledger.Blockchain.ProofOfWork` | src/blockchain.ts:156-165 | returns the least nonce, from 0 (or from 1 when `lastIndex` is non-zero), whose hash meets the target; leaves `lastIndex` at the end of that match |
| `Ledger.Blockchain.UpdateNetwork` | src/blockchain.ts:167-170 | appends the URL at the end of `network` without de-duplication and returns the updated list; chain and pool unchanged |
| `Ledger.SubmitTwiceThenMine` | src/blockchain.ts:60-143 | construct, submit two transactions, mine: the new block holds exactly the two transactions in submission order and has index 2, it links to the genesis block (index 1, previous hash "0"), both hints are 2, its nonce is at least 1 and the pool is then empty |

## Left out

- SHA-256 and `JSON.stringify` (src/blockchain.ts:1, 145-147) are library calls. `hashBlockData` is an arbitrary total function given to the constructor.
- `Date.now()` (src/blockchain.ts:83, 138) is a clock read. It becomes the `now` parameter.
- The node URL built from `process.env` and `process.argv` (src/blockchain.ts:3-7) is process configuration. It becomes a constructor parameter.
- `Ledger.Blockchain.ProofOfWork`: requires that some acceptable nonce exists. The source loop runs forever when none does, and the model does not capture that nontermination. `Mine`, the constructor and `SubmitTwiceThenMine` carry the same assumption.
- `Ledger.Blockchain.ProofOfWork`: the nonce is an unbounded `nat`. A JavaScript number stops incrementing above 2^53; this is not modelled.
- `Ledger.Blockchain.CreateNewTransaction`: requires the object invariant, which makes the chain non-empty. With an empty chain the source would push the transaction and then throw on `undefined.index`. The constructor always mines genesis first, so no caller can see an empty chain.
- `Ledger.Blockchain.GetChain`, `Ledger.Blockchain.UpdateNetwork`, `Ledger.Blockchain.Mine` and `Ledger.Blockchain.GetLastBlock` return values. The source returns the internal arrays (`chain`, `network`) and the very block objects stored in `chain` (src/blockchain.ts:99, 108, 117, 169), so a caller could mutate the ledger through them. That aliasing is not modelled.
- Amounts are an opaque type. They are JavaScript numbers that are stored and never computed on, so no floating point is modelled.
- Timestamps are `int`s. The interface also allows `Date`, but the class stores only `Date.now()` numbers.
- JavaScript strings are UTF-16 code units; the model uses Dafny characters. Digests are hexadecimal, so the difference never shows.
- The ignore-case flag of `powTarget` has no effect, because no character case-folds to '0'.
- `src/index.ts` (HTTP server), `src/scripts.ts` (HTTP broadcast) and `src/mock.ts` (instantiation and logging) are I/O. `src/index.spec.ts` tests an unrelated `add` function. None of them is part of this model.
- The class has no check on blocks received from peers, no transaction ids, no de-duplicated peer set and no protocol for peers joining the network, so none of these is modelled. Three behaviours of the code follow from this and are modelled as written:
  - `mine` appends its block to the chain itself.
  - `updateNetwork` is a plain push, duplicates and the node's own URL included.
  - After the first block mined in a process, the nonce search never accepts nonce 0.
- The code is single-threaded JavaScript, and `proofOfWork` never yields. No interleaving is modelled.
