# Book-checkout ledger

A model of the in-memory, hash-linked ledger at the heart of a small Go service that records book checkouts. Each checkout (book id, user, checkout date, genesis flag) goes into a block. A block has a position, a payload, a timestamp, its own hash and the hash of the block before it. The chain starts with a genesis block. `AddBlock` builds a candidate on the current tail, checks it against the tail, and appends it only if the check passes.

The model has two modules:

- `ChainSpec` (`chain_spec.dfy`) describes blocks as values. It holds the digest abstraction, block construction (`Create`, `Genesis`), the three-part validity check (`Check`, which also names the first check that fails), one append step (`Append`), the chain invariant (`ValidChain`) and the start-up-then-writes history (`Replay`). It also holds the lemmas about these.
- `Ledger` (`ledger.dfy`) models the program's pointer-based objects. `Block` is a class whose `hash` field is overwritten in place by `GenerateHash` and `ValidateHash`. `BlockChain` holds a growing `seq<Block>`. The free functions `CreateBlock`, `ValidBlock` and `GenesisBlock` allocate or mutate blocks. Every method is proved against the `ChainSpec` definitions.

The digest is a parameter of type `(int, string, Checkout, string) -> string`. It stands for the SHA-256 of the position, timestamp, JSON payload and previous hash, hex-encoded. Any deterministic function will do, and no proof assumes it is injective. `BlockChain` fixes its digest when it is constructed. The wall-clock reading `time.Now().String()` is a `timeStamp` parameter of every operation that creates a block.

Behaviours of the code that the model keeps:

- **The genesis block sits at position 1.** `genesisBlock` builds on a zero-valued block, so it gets position `0 + 1` and an empty previous hash. Block `i` of the chain therefore has position `i + 1` (`PositionsAreIndices`).
- **`validateHash` writes the recomputed digest into the block's `Hash` field before comparing.** `ValidBlock` therefore leaves its candidate sealed whenever the linkage check passed, even when the hash check failed. Checking the same block a second time no longer reports a hash mismatch (`RecheckForgetsHashMismatch`).
- **A block made by `createBlock` always passes `validBlock` against its predecessor** (`CreatedBlockAccepted`). So the rejection branch of `AddBlock` is unreachable, and every `AddBlock` grows the chain by exactly one block (`AppendAlwaysGrows`, `BlockChain.AddBlock`).
- **`validBlock` tolerates its two arguments being the same block.** `ValidBlock` is specified for that case too: the position check then always fails.

## Model

| member | source | states |
|---|---|---|
| `ChainSpec.Rehash` | main.go:46-57 | After the hash is regenerated, the block is sealed: its hash is the digest of its own fields. No other field changes. The block is unchanged exactly when it was already sealed. |
| `ChainSpec.Create` | main.go:66-77 | The new block's position is the predecessor's position + 1. Its previous hash is the predecessor's hash. It carries the given payload and timestamp, and it is sealed. |
| `ChainSpec.Genesis` | main.go:156-158 | The genesis block has position 1, an empty previous hash, the all-zero payload with the genesis flag set, and the given timestamp. It is sealed. |
| `ChainSpec.Check` | main.go:79-93 | A candidate is accepted iff three things hold: its previous hash equals the predecessor's hash, it is sealed, and its position is the predecessor's + 1. Otherwise the verdict names the first failing check, in the order linkage, hash, position. |
| `ChainSpec.Append` | main.go:95-104 | An append either leaves the chain unchanged or adds one block and keeps every existing block. The added block is linked to the old tail, carries the payload and timestamp, and is sealed. |
| `ChainSpec.CreatedBlockAccepted` | main.go:66-93 | For any predecessor, payload and timestamp, the block created from them passes the validity check against that predecessor. |
| `ChainSpec.AppendAlwaysGrows` | main.go:95-104 | Every append adds exactly the block created on the old tail. |
| `ChainSpec.AppendPreservesValid` | main.go:95-104 | An append keeps the chain invariant. The invariant is: a genesis block first, every block sealed, and every block linked to its predecessor by hash and by consecutive position. |
| `ChainSpec.GenesisChainValid` | main.go:160-162 | The chain holding only the genesis block satisfies the chain invariant. |
| `ChainSpec.PositionAt` | main.go:95-104 | In a valid chain, the block at index i has position i + 1. |
| `ChainSpec.PositionsAreIndices` | main.go:156-162 | In a valid chain, every block's position is its index + 1. This follows from genesis at position 1 and the +1 step of every append. |
| `ChainSpec.PrevHashIsDigest` | main.go:66-77 | In a valid chain, each block's previous hash is the digest of the preceding block's fields. |
| `ChainSpec.Replay` | main.go:160-162 | Start-up followed by any sequence of writes yields a non-empty chain. |
| `ChainSpec.ReplayShape` | main.go:95-104 | After start-up and n writes, the chain is valid and has n + 1 blocks. The first is the genesis block, and block i + 1 carries the payload and timestamp of write i. |
| `ChainSpec.TwoCheckouts` | main.go:95-104 | Two checkouts after start-up give three blocks at positions 1, 2 and 3, each linked to the one before. Blocks 2 and 3 carry the two payloads, in order and field for field. |
| `ChainSpec.RehashIdempotent` | main.go:59-64 | Re-deriving the hash twice has the same effect as doing it once. The second comparison sees the same digest as the first, so repeated `validateHash` calls with the same argument `h` give the same answer, and the second leaves the block unchanged. When the argument is the block's own stored hash, as in main.go:84, the answer can change from false to true: see `RecheckForgetsHashMismatch`. |
| `ChainSpec.RecheckForgetsHashMismatch` | main.go:84 | If a candidate fails the check because of its hash, the check rewrites that hash. Checking the rewritten block again does not report a hash mismatch. |
| `Ledger.Block.constructor` | main.go:67-72 | The new block holds exactly the given field values. |
| `Ledger.Block.GenerateHash` | main.go:46-57 | The block's new value is the old value with its hash overwritten by the digest of its other fields. |
| `Ledger.Block.ValidateHash` | main.go:59-64 | The block's hash is overwritten with the recomputed digest. The answer is true iff that digest equals the given hash. |
| `Ledger.CreateBlock` | main.go:66-77 | Returns a fresh block whose value is `Create` of the predecessor's value, the payload and the timestamp. |
| `Ledger.ValidBlock` | main.go:79-93 | The answer is true iff `Check` accepts the candidate's and predecessor's values from before the call. The candidate's hash is rewritten exactly when the linkage check passed. Nothing else changes. |
| `Ledger.GenesisBlock` | main.go:156-158 | Returns a fresh block whose value is the genesis block. |
| `Ledger.BlockChain.constructor` | main.go:160-162 | A new chain holds only the genesis block and satisfies the chain invariant. |
| `Ledger.BlockChain.AddBlock` | main.go:95-104 | The chain's new contents equal `Append` applied to the old contents, which is the old contents plus the block created on the old tail. The invariant is kept, and the old block references are untouched. |

## Left out

- HTTP handlers and routing (`newBook`, `writeBlock`, `getBlockchain`, `main`, main.go:106-154 and main.go:164-187): they are request decoding, response encoding and server start-up. This includes reading the whole chain for output.
- Position overflow and the empty chain: Go's `Pos` is a 64-bit `int`, so `prevBlock.Pos + 1` (main.go:68) would wrap at the largest 64-bit value, while the model's positions are unbounded. `bc.blocks[len(bc.blocks)-1]` (main.go:97) would panic on an empty slice, while `Append` and `BlockChain.AddBlock` require a non-empty chain. Neither case can arise on a chain made by `NewBlockchain`: it starts with one block and only grows, and its positions equal the index + 1, so they stay far below the wrap-around point.
- The `book` type and the MD5-based book id in `newBook`: neither takes part in the ledger.
- The digest internals: SHA-256, hex encoding, JSON encoding of the payload, and Go's `string(b.Pos)`, which turns the position into a single rune rather than decimal text. They are replaced by the digest parameter. Nothing is claimed that needs the digest to be collision-free, so tamper detection (a changed field is always noticed) is not stated.
- The wall clock: every timestamp is a parameter.
- The package-level `BlockChain` variable and the printing goroutine that races with the server: the code has no locking, so nothing about concurrency is modelled.
- The errors that `json.Marshal` could return: the payload holds only strings and a boolean, so serialisation cannot fail.
