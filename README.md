# A hash-linked block chain, modelled in Dafny

This project models `blockchain.js`, a small in-memory block chain.

- A `Block` holds an index, a timestamp, some JSON data, the hash of the previous block and its own hash.
- The block's hash is SHA-256 of the string `index + previousHash + timestamp + JSON.stringify(data)`.
- A `BlockChain` starts with a genesis block. It grows by `addBlock`, which links the incoming block to the current tail, re-seals it and pushes it.
- `isChainValid` checks every block after the genesis block. Each block's stored hash must match its recomputed hash, and its `previousHash` must match its predecessor's hash.

The model has three modules:

- `Blocks` (`blocks.dfy`): the `Block` value, the JSON data it carries, the decimal formatting of the index, the preimage string, and `NewBlock` for `new Block(...)`.
- `Ledger` (`ledger.dfy`): the `BlockChain` class, whose `chain` field is a `seq<Block>`. It also holds the pure predicate `ChainValid` that `IsChainValid` decides, the pure `Append` that `AddBlock` follows, and the lemmas.
- `Demo` (`demo.dfy`): the script at the end of the file, written as a client method.

SHA-256 (from crypto-js) and `JSON.stringify` are foreign code. They are modelled as the two fields of a `Hashing` value, `sha256: string -> string` and `stringify: Json -> string`. A chain receives this value when it is constructed. Every lemma holds for every choice of the two functions. So the model uses no property of SHA-256 except that it is a function. In particular, nothing assumes that distinct preimages give distinct hashes.

The code is simpler than a production ledger, and the model follows the code:

- No invariant ties a block's `index` to its position. `addBlock` keeps whatever index the caller passed.
- `addBlock` checks nothing about the incoming block. The exceptions that can escape from it are left out below.
- Validation returns a boolean, not a tagged error.
- Validation never checks the genesis block's own hash.

## Model

| member | source | states |
|---|---|---|
| `Blocks.NewBlock` | blockchain.js:7-19 | a constructed block keeps the given index, timestamp, data and previous hash (default `""`); its hash is SHA-256 of the decimal index, previous hash, timestamp and stringified data, concatenated in that order, so the block is sealed |
| `Blocks.Block.CalculateHash` | blockchain.js:16-19 | SHA-256 of the preimage of the block's four content fields; what this means is stated by `NewBlock` (the hash of a new block in field order) and `IsSealed`, and by `CalculateHashIgnoresHash` |
| `Blocks.Preimage` | blockchain.js:18 | the hashed string starts with the decimal index followed directly by the previous hash, and its length is the sum of the four parts' lengths, so no separator is inserted |
| `Blocks.CalculateHashIgnoresHash` | blockchain.js:16-19 | the recomputed hash depends only on the four content fields, not on the stored hash |
| `Blocks.DecimalString` | blockchain.js:18 | the index is written as a non-empty decimal numeral, with a leading `-` exactly when it is negative |
| `Blocks.NatDigitsRoundTrip` | blockchain.js:18 | reading the decimal digits of a natural number back gives that number |
| `Blocks.DecimalStringInjective` | blockchain.js:18 | distinct indices are written as distinct strings |
| `Blocks.PreimageCollision` | blockchain.js:18 | the preimage is not injective in the fields: two different blocks (index 1 with previous hash "23", index 12 with previous hash "3") get the same hash for every hash and stringify function |
| `Ledger.LinkOk` | blockchain.js:53-64 | position i passes both checks of one loop iteration: its stored hash equals its recomputed hash, and its previous hash equals the hash at i - 1 |
| `Ledger.ChainValid` | blockchain.js:52-66 | every position from 1 to the end passes `LinkOk`; a chain of at most one block is always valid, because the loop starts at 1 |
| `Ledger.Linked` | blockchain.js:41-43 | the block `addBlock` pushes keeps the caller's index, timestamp and data, takes the tail's hash as its previous hash, and is sealed |
| `Ledger.Append` | blockchain.js:41-46 | the chain after `addBlock` is one longer, has the old chain as its prefix, and ends with the linked, sealed copy of the new block |
| `Ledger.Replay` | blockchain.js:26-47 | a chain built by `addBlock` calls from a first block has one block per call plus the first, and starts with the first block |
| `Ledger.AppendPreservesValid` | blockchain.js:41-67 | `addBlock` turns a valid chain into a valid chain, whatever block value the caller passes; in the source this holds for a block object not already in the chain and not mutated after it is pushed (see Left out) |
| `Ledger.ReplayValid` | blockchain.js:26-67 | every chain built from a first block by `addBlock` calls passes `isChainValid`; in the source this holds when each added block object is not already in the chain and is not mutated after it is pushed (see Left out) |
| `Ledger.LinkedFixesValidBlock` | blockchain.js:41-43 | re-adding a block that is already linked to the tail and sealed gives back the same block |
| `Ledger.ValidIsReplay` | blockchain.js:41-67 | a valid chain is reproduced exactly by replaying its later blocks through `addBlock` from its first block |
| `Ledger.PrefixValid` | blockchain.js:52-65 | every non-empty prefix of a valid chain is valid, since each position's checks only look at it and its predecessor |
| `Ledger.ValidIffReplay` | blockchain.js:41-67 | a non-empty chain is valid if and only if replaying it through `addBlock` from its first block reproduces it |
| `Ledger.TamperedHashDetected` | blockchain.js:56-59 | overwriting the stored hash of any non-genesis block of a valid chain makes the chain invalid |
| `Ledger.TamperedDataDetected` | blockchain.js:56-59 | changing a non-genesis block's data makes a valid chain invalid if and only if the new data gives a different digest |
| `Ledger.BrokenLinkDetected` | blockchain.js:61-64 | changing a non-genesis block's previous hash to anything other than its predecessor's hash makes a valid chain invalid |
| `Ledger.GenesisContentUnchecked` | blockchain.js:50-67 | the genesis block's content is never checked: replacing it with any block that has the same stored hash keeps a valid chain valid |
| `Ledger.BlockChain.CreateGenesisBlock` | blockchain.js:30-33 | the genesis block has index 0, the given timestamp, data "Genesis Block" and previous hash "0", and it is sealed |
| `Ledger.BlockChain.constructor` | blockchain.js:25-27 | a new chain holds exactly the genesis block, is non-empty and is valid |
| `Ledger.BlockChain.GetLatestBlock` | blockchain.js:36-38 | on a non-empty chain, the latest block is the chain's last element |
| `Ledger.BlockChain.AddBlock` | blockchain.js:41-47 | the chain becomes `Append` of the old chain: one block longer, earlier blocks unchanged; the new tail keeps the caller's index, timestamp and data, links to the old tail's hash and is sealed; a valid chain stays valid, which in the source holds for a block object not already in the chain and not mutated after it is pushed |
| `Ledger.BlockChain.IsChainValid` | blockchain.js:50-67 | the loop returns true exactly when every position i ≥ 1 has a stored hash equal to its recomputed hash and a previous hash equal to the hash at i - 1; it changes nothing |
| `Demo.RunDemo` | blockchain.js:71-82 | after the genesis block and two added blocks, the chain has three blocks, is valid, and each added block links to its predecessor |

## Left out

- SHA-256 and `JSON.stringify` are not modelled. They are arbitrary functions supplied in `Hashing`, because both are foreign code.
- `new Date().toString()` for the genesis timestamp is a clock read. It becomes the constructor parameter `genesisTimestamp`, and `now` in the demo.
- The `console.log` output (lines 45, 73, 77 and 82) is I/O with no effect on state.
- The module exports (lines 85-86) are plumbing.
- JavaScript object aliasing is not modelled. In the source, `addBlock` mutates the caller's `Block` object in place and can push the same object twice; a pushed block can also be mutated later. Here blocks are immutable values, so `AddBlock` pushes a re-sealed copy. Tampering is modelled as replacing an element of the sequence. This choice makes validity preservation true of the model but not of blockchain.js: after `c.addBlock(b); c.addBlock(b)`, or `c.addBlock(c.getLatestBlock())`, line 42 points the shared object's `previousHash` at its own old hash, line 43 re-seals it and line 46 pushes it again. The earlier position then holds an object whose `previousHash` no longer equals its predecessor's hash, so `isChainValid()` returns false at line 62.
- `Ledger.AppendPreservesValid`, `Ledger.ReplayValid` and the last ensures of `Ledger.BlockChain.AddBlock` hold in the source only for block objects that are not already in the chain and are not mutated after they are pushed, because of the aliasing just described.
- JSON numbers are integers.
- `DecimalString`: indices are unbounded integers, so the model matches JavaScript only for integers of magnitude at most 2^53. Above 2^53, a JavaScript number is a double: some integers (such as 2^53 + 1) cannot be an index at all, and a representable one prints as the shortest digits that round-trip (`2**60` prints as `1152921504606847000`, while `DecimalString(2^60)` gives `1152921504606846976`). Fractional indices are not modelled either.
- `data` is restricted to `Json` values. JavaScript also allows `undefined` or a function as data, and then `JSON.stringify` yields `undefined`, which enters the preimage at line 18 as the text `"undefined"`.
- `Blocks.NewBlock` and `Ledger.BlockChain.AddBlock` do not model the exception that `JSON.stringify` throws for cyclic or BigInt data. That `TypeError` escapes from `calculateHash`, so from `new Block` and from `addBlock`, and in `addBlock` it leaves `newBlock.previousHash` already overwritten and the chain unchanged.
- Model strings are sequences of Unicode scalar values, not UTF-16 code units, so a JavaScript string with a lone surrogate cannot be written. crypto-js's SHA-256 encodes its input as UTF-8 through `encodeURIComponent`, which throws `URIError` on a lone surrogate. For example, `new Block(1, "\uDE00", {}, "\uD83D")` builds, because the two halves pair across the join at line 18. After `addBlock` puts a hex digest in front of `"\uDE00"`, the SHA-256 call at line 18, inside `calculateHash`, throws when line 43 calls `calculateHash`. This failure is not modelled.
- Arguments to `addBlock` that are not `Block` objects are not modelled: `addBlock(undefined)` throws a `TypeError` at line 42, and a plain object without `calculateHash` throws one at line 43.
- `index` is a number, and `timestamp` and `previousHash` are strings. Other JavaScript types are not modelled. For example, with a numeric index and a numeric `previousHash`, the `+` at line 18 adds the two numbers instead of concatenating them.
- blockchain.js has no locking for concurrent proposers, no typed errors, no append-time rejection of out-of-order or mislinked blocks, and no index-equals-position check, so none of these are modelled.
