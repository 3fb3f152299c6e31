# DIP identity Merkle-proof verifier, modelled in Dafny

This project models the verifier that KILT's DIP primitives crate uses for
cross-chain identity proofs (`crates/kilt-dip-primitives`). A consumer chain
holds a trusted identity-commitment root. It receives a proof made of opaque
blinded trie nodes plus typed revealed leaves. The verifier encodes each leaf
as a (key, value) byte pair and checks those pairs against the root with a
trie inclusion check. It then folds the leaves, in proof order, into a result
with three parts:

- the revealed DID keys, at most `MAX_REVEALED_KEYS_COUNT`;
- at most one web3name;
- the linked accounts, at most `MAX_REVEALED_ACCOUNTS_COUNT`.

The crate's helpers are modelled too: the blinded-node container and the
relay-chain storage key of a parachain head.

Modules, one per source file plus two small support modules:

- `Wrappers` (`wrappers.dfy`) holds Rust's `Option` and `Result`.
- `Scale` (`scale.dfy`) holds the `u8`/`u32` newtypes and the SCALE encoding
  of a `u32`: four bytes, little-endian. Its inverse is proved.
- `Utils` (`utils.dfy`) models `utils.rs`: `BoundedBlindedValue` with
  `From`, `IntoInner`, `Deref` and `IntoIter`, and `ParachainHeadStorageKey`.
- `Merkle` (`merkle.dfy`) models `merkle.rs`:
  - the key relationships and their conversions;
  - the leaf types and `EncodedKey`/`EncodedValue`;
  - the error type and its numeric codes;
  - the fold specification `Aggregate`, with reference definitions
    `DidKeysOf`, `AccountsOf` and `LastWeb3Name` and the lemmas tying them
    together;
  - the verifier `VerifyDipMerkleProof` and its loop `FoldRevealedLeaves`.

Foreign capabilities are parameters, not hidden definitions:

- The SCALE encoders of the generic types (key id, key details, block number,
  web3name, linked account id) are the fields of a `Codec` record.
- `sp_trie::verify_trie_proof` with `LayoutV1<Hasher>` is the function
  argument `verifyTrieProof(root, nodes, pairs)`. The root type is a type
  parameter, so the model is generic over the hasher.
- `storage_prefix` and `twox_64` are the fields of a `Hashing` record. Their
  results have the fixed widths the source uses: 32 and 8 bytes.

The generic `DidPublicKeyDetails<BlockNumber, AccountId>` is the single type
parameter `D`. `DidVerificationKeyRelationship` comes from the DID pallet,
which is not part of this model. It is modelled with that pallet's four
variants, in order: Authentication, CapabilityDelegation,
CapabilityInvocation, AssertionMethod. The source derives `Encode` on both
relationship enums. Their encoding is therefore the SCALE variant index,
followed by the variant's fields.

The encoded key of a leaf is the encoding of its key struct only, with no tag
for the leaf kind (merkle.rs:172-178). One could want leaf keys to be
injective across kinds, but the code does not provide that.
`EncodedKeyHasNoKindTag` states what the code does: a web3name whose encoding
equals a DID key's id-and-relationship encoding gets the same trie key.
Inside one kind, `DidKeyEncodedKeyInjective` shows the key is determined,
given a width-preserving injective key-id encoder.

## Model

| member | source | states |
|---|---|---|
| `Merkle.FromVerification` | crates/kilt-dip-primitives/src/merkle.rs:58-62 | a verification relationship converts to a relationship that is never `Encryption` |
| `Merkle.TryIntoVerification` | crates/kilt-dip-primitives/src/merkle.rs:64-74 | the conversion succeeds exactly on `Verification(_)` relationships, and its result converts back to the input |
| `Merkle.TryIntoFromVerification` | crates/kilt-dip-primitives/src/merkle.rs:58-74 | `try_from(from(v)) == Ok(v)` for every verification relationship |
| `Merkle.TryIntoEncryptionFails` | crates/kilt-dip-primitives/src/merkle.rs:67-72 | converting `Encryption` yields `Err(())` |
| `Merkle.EncodeVerificationRelationship` | crates/kilt-dip-primitives/src/merkle.rs:52-56 | the derived encoding of a verification relationship is one byte, its variant index, which decodes back to the relationship |
| `Merkle.EncodeRelationship` | crates/kilt-dip-primitives/src/merkle.rs:52-56 | the derived encoding of a key relationship is index 0 for `Encryption`, or index 1 followed by the verification index; it decodes back to the relationship |
| `Merkle.EncodeRelationshipInjective` | crates/kilt-dip-primitives/src/merkle.rs:51-56 | the derived encoding (variant index, then the verification index) separates distinct relationships |
| `Merkle.EncodedKey` | crates/kilt-dip-primitives/src/merkle.rs:172-178 | the encoded key is that of the key part only: for a DID key, the key id's encoding followed by bytes that decode to its relationship; for a web3name or linked account, the encoding of the name or account id |
| `Merkle.EncodedValue` | crates/kilt-dip-primitives/src/merkle.rs:187-193 | the encoded value is that of the value part only: the key details, the claim block number, or no bytes for a linked account |
| `Merkle.EncodedKeyIgnoresValue` | crates/kilt-dip-primitives/src/merkle.rs:172-178 | two leaves of the same kind with the same key part have the same encoded key, whatever their values |
| `Merkle.EncodedValueIgnoresKey` | crates/kilt-dip-primitives/src/merkle.rs:187-193 | two leaves of the same kind with the same value part have the same encoded value, whatever their keys |
| `Merkle.LinkedAccountValueIsEmpty` | crates/kilt-dip-primitives/src/merkle.rs:125-134 | the unit value of a linked-account leaf encodes to no bytes |
| `Merkle.DidKeyEncodedKeyInjective` | crates/kilt-dip-primitives/src/merkle.rs:76-78 | DID-key leaves with equal encoded keys have equal key id and relationship, given an injective key-id encoder of equal width |
| `Merkle.EncodedKeyHasNoKindTag` | crates/kilt-dip-primitives/src/merkle.rs:172-178 | the encoded key of a web3name leaf can coincide with that of a DID-key leaf: no kind tag is encoded |
| `Merkle.ErrorCode` | crates/kilt-dip-primitives/src/merkle.rs:266-280 | `InvalidMerkleProof` is 0, `TooManyRevealedKeys` is 1, `TooManyRevealedAccounts` is 2, each in both directions |
| `Merkle.ErrorCodeInjective` | crates/kilt-dip-primitives/src/merkle.rs:272-280 | distinct errors have distinct codes |
| `Merkle.ProofLeaves` | crates/kilt-dip-primitives/src/merkle.rs:344-348 | one pair per revealed leaf, in order: the leaf's encoded key with `Some` of its encoded value |
| `Merkle.Aggregate` | crates/kilt-dip-primitives/src/merkle.rs:361-409 | the fold in proof order; on success the key and account vectors are within their bounds, and a failure is never `InvalidMerkleProof` |
| `Merkle.AggregateMatchesReference` | crates/kilt-dip-primitives/src/merkle.rs:365-415 | the fold succeeds iff the DID-key and linked-account counts are within the bounds, and then yields exactly the DID keys `{id: key.0, relationship: key.1, details: value.0}` in proof order, the last web3name, and the account ids in proof order |
| `Merkle.AggregateErrorPersists` | crates/kilt-dip-primitives/src/merkle.rs:365-409 | fail-fast: once a prefix of the leaves fails, the whole fold fails with that error and no result escapes |
| `Merkle.AggregateFailsAtFirstOverflow` | crates/kilt-dip-primitives/src/merkle.rs:371-409 | the error is decided by the first leaf that exceeds a bound: `TooManyRevealedKeys` for the (MAX_KEYS+1)-th DID key, `TooManyRevealedAccounts` for the (MAX_ACCOUNTS+1)-th account; a web3name leaf never overflows |
| `Merkle.FirstOverflowExists` | crates/kilt-dip-primitives/src/merkle.rs:371-409 | leaves that exceed a bound have a first leaf where they start to exceed it |
| `Merkle.LastWeb3NameIsLast` | crates/kilt-dip-primitives/src/merkle.rs:388-395 | the kept web3name is that of the last web3name leaf in proof order (last write wins) |
| `Merkle.LastWeb3NameNone` | crates/kilt-dip-primitives/src/merkle.rs:388-395 | no web3name is kept iff no leaf reveals one |
| `Merkle.DidKeysOfConcat` | crates/kilt-dip-primitives/src/merkle.rs:372-377 | the revealed keys of concatenated leaves are those of each part, in order: no reordering or dedup |
| `Merkle.AccountsOfConcat` | crates/kilt-dip-primitives/src/merkle.rs:396-397 | the linked accounts of concatenated leaves are those of each part, in order |
| `Merkle.DidKeyLeafRevealedAt` | crates/kilt-dip-primitives/src/merkle.rs:372-377 | every DID-key leaf is revealed: its `{id, relationship, details}` sits in the key list at the index equal to the number of DID-key leaves before it |
| `Merkle.AccountLeafRevealedAt` | crates/kilt-dip-primitives/src/merkle.rs:396-397 | every linked-account leaf is revealed: its id sits in the account list at the index equal to the number of linked-account leaves before it |
| `Merkle.AggregateEmpty` | crates/kilt-dip-primitives/src/merkle.rs:365-370 | no revealed leaves give no keys, no web3name and no accounts |
| `Merkle.FoldRevealedLeaves` | crates/kilt-dip-primitives/src/merkle.rs:365-409 | the loop that pushes into the two bounded vectors and returns on the first overflow computes the fold `Aggregate` |
| `Merkle.VerifyDipMerkleProof` | crates/kilt-dip-primitives/src/merkle.rs:306-416 | a failing trie check on the encoded pairs gives `InvalidMerkleProof` with no aggregation; otherwise the result is the fold, which succeeds iff both bounds hold and then holds the DID keys and accounts in proof order and the last web3name |
| `Utils.IntoInner` | crates/kilt-dip-primitives/src/utils.rs:33-37 | unwrapping returns the vector that wraps back into the same container |
| `Utils.From` | crates/kilt-dip-primitives/src/utils.rs:39-46 | collecting then unwrapping gives the collected items, in order |
| `Utils.FromIntoInner` | crates/kilt-dip-primitives/src/utils.rs:30-46 | unwrapping then collecting gives back the same container |
| `Utils.Deref` | crates/kilt-dip-primitives/src/utils.rs:48-54 | dereferencing exposes the same sequence `IntoInner` returns |
| `Utils.IntoIter` | crates/kilt-dip-primitives/src/utils.rs:56-63 | iterating yields the wrapped inner vectors, in order and unchanged |
| `Utils.ParachainHeadStorageKey` | crates/kilt-dip-primitives/src/utils.rs:85-94 | the key is `storage_prefix("Paras", "Heads")`, then `twox_64` of the encoded para id, then the encoded para id; its length is 32 + 8 + 4 |
| `Utils.ParaIdFromHeadKey` | crates/kilt-dip-primitives/src/utils.rs:90 | the last four bytes of the key decode to the para id |
| `Utils.ParachainHeadStorageKeyInjective` | crates/kilt-dip-primitives/src/utils.rs:85-94 | distinct para ids give distinct head storage keys |
| `Scale.EncodeU32` | crates/kilt-dip-primitives/src/utils.rs:89-90 | the para id's encoding is four bytes whose little-endian value is the id |
| `Scale.DecodeEncodeU32` | crates/kilt-dip-primitives/src/utils.rs:90 | decoding the four-byte encoding gives back the `u32`, so the encoding is injective |

## Left out

- The internals of `sp_trie::verify_trie_proof` with `LayoutV1`: hash-based node decoding in a foreign library. The model passes it in as an uninterpreted function argument.
- Hash functions (`twox_64`, `storage_prefix`, the proof's hasher) and the SCALE encoding of the generic types: these are caller-supplied functions. Only the `u32` encoding and the derived encodings of the two relationship enums are concrete.
- `calculate_dip_identity_commitment_storage_key_for_runtime` (utils.rs:96-106): a single foreign storage-hashing call.
- The `runtime-benchmarks` code paths (merkle.rs:37-49, 145-163, 350-356, 378-384, 398-404; utils.rs:65-83). They drop errors for benchmarking and never run in production.
- The `Borrow` impl (merkle.rs:242-264): a plain accessor to `did_keys`.
- The one-field `From` impls of the key and value structs (merkle.rs:80-134): they are the Dafny datatype constructors.
- The derived `PartialOrd`/`Ord` and `Decode` of the types: no part of the verifier uses them.
- `BoundedVec` is a sequence, and its `try_push` is an explicit length check against the bound, done in the loop of `FoldRevealedLeaves`. `with_bounded_capacity` only reserves memory, so it has no counterpart.
- Ownership, borrowing and cloning are not modelled. Iterators, such as the argument of `BoundedBlindedValue::from`, are finite sequences of the items they yield.
