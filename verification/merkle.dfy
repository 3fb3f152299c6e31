/**
 * The DIP identity Merkle-proof verifier: the leaves a proof can reveal, the
 * byte encoding of their key and value parts, the errors, and the verifier
 * that checks the leaves against a commitment root and folds them into a
 * bounded result.
 */
module Merkle {
  import opened Wrappers
  import opened Scale
  import opened Utils

  // ---------------------------------------------------------------------------
  // Key relationships

  /** The verification relationships a DID key can have (from the DID pallet). */
  datatype DidVerificationKeyRelationship =
    | Authentication
    | CapabilityDelegation
    | CapabilityInvocation
    | AssertionMethod

  /** Relationship of a key to a DID Document. */
  datatype DidKeyRelationship =
    | Encryption
    | Verification(verification: DidVerificationKeyRelationship)

  /** `From<DidVerificationKeyRelationship> for DidKeyRelationship`. */
  function FromVerification(v: DidVerificationKeyRelationship): (r: DidKeyRelationship)
    ensures r != Encryption
  {
    Verification(v)
  }

  /**
   * `TryFrom<DidKeyRelationship> for DidVerificationKeyRelationship`: succeeds
   * exactly on verification relationships, and then inverts `FromVerification`.
   */
  function TryIntoVerification(rel: DidKeyRelationship): (r: Result<DidVerificationKeyRelationship, ()>)
    ensures r.Ok? <==> rel.Verification?
    ensures r.Ok? ==> FromVerification(r.value) == rel
  {
    if rel.Verification? then Ok(rel.verification) else Err(())
  }

  /** Converting a verification relationship and back gives it back unchanged. */
  lemma TryIntoFromVerification(v: DidVerificationKeyRelationship)
    ensures TryIntoVerification(FromVerification(v)) == Ok(v)
  {
  }

  /** The encryption relationship has no verification counterpart. */
  lemma TryIntoEncryptionFails()
    ensures TryIntoVerification(Encryption) == Err(())
  {
  }

  // ---------------------------------------------------------------------------
  // SCALE encoding of the relationships (derived: variant index, then fields)

  /** The variant whose SCALE index is `b`, if there is one. */
  function DecodeVerificationRelationship(b: u8): Option<DidVerificationKeyRelationship>
  {
    match b
    case 0 => Some(Authentication)
    case 1 => Some(CapabilityDelegation)
    case 2 => Some(CapabilityInvocation)
    case 3 => Some(AssertionMethod)
    case _ => None
  }

  /**
   * The relationship that the bytes `b` encode exactly, with no bytes left
   * over, if there is one.
   */
  function DecodeRelationship(b: Bytes): Option<DidKeyRelationship>
  {
    if |b| == 1 && b[0] == 0 then Some(Encryption)
    else if |b| == 2 && b[0] == 1 && DecodeVerificationRelationship(b[1]).Some? then
      Some(Verification(DecodeVerificationRelationship(b[1]).value))
    else None
  }

  /** Derived SCALE encoding of a verification relationship: its variant index. */
  function EncodeVerificationRelationship(v: DidVerificationKeyRelationship): (r: Bytes)
    ensures |r| == 1 && DecodeVerificationRelationship(r[0]) == Some(v)
  {
    match v
    case Authentication => [0]
    case CapabilityDelegation => [1]
    case CapabilityInvocation => [2]
    case AssertionMethod => [3]
  }

  /**
   * Derived SCALE encoding of a key relationship: the variant index (0 for
   * `Encryption`, 1 for `Verification`), then the encoded verification
   * relationship. Decoding gives the relationship back.
   */
  function EncodeRelationship(rel: DidKeyRelationship): (r: Bytes)
    ensures |r| == if rel.Encryption? then 1 else 2
    ensures r[0] == if rel.Encryption? then 0 else 1
    ensures DecodeRelationship(r) == Some(rel)
  {
    match rel
    case Encryption => [0]
    case Verification(v) => [1] + EncodeVerificationRelationship(v)
  }

  /** Distinct relationships have distinct encodings. */
  lemma EncodeRelationshipInjective(a: DidKeyRelationship, b: DidKeyRelationship)
    ensures EncodeRelationship(a) == EncodeRelationship(b) ==> a == b
  {
    if EncodeRelationship(a) == EncodeRelationship(b) {
      assert DecodeRelationship(EncodeRelationship(a)) == DecodeRelationship(EncodeRelationship(b));
    }
  }

  // ---------------------------------------------------------------------------
  // Leaves

  /** Key of a leaf revealing a DID key: the key id and its relationship. */
  datatype DidKeyMerkleKey<K> = DidKeyMerkleKey(id: K, relationship: DidKeyRelationship)
  /** Value of a leaf revealing a DID key: the key details. */
  datatype DidKeyMerkleValue<D> = DidKeyMerkleValue(details: D)
  /** Key of a leaf revealing the web3name. */
  datatype Web3NameMerkleKey<N> = Web3NameMerkleKey(name: N)
  /** Value of a leaf revealing the web3name: the block it was claimed at. */
  datatype Web3NameMerkleValue<B> = Web3NameMerkleValue(claimedAt: B)
  /** Key of a leaf revealing a linked account. */
  datatype LinkedAccountMerkleKey<L> = LinkedAccountMerkleKey(account: L)
  /** Value of a leaf revealing a linked account: a presence marker. */
  datatype LinkedAccountMerkleValue = LinkedAccountMerkleValue

  /**
   * A leaf revealed by a DIP identity proof. Type parameters: K key id,
   * D key details (`DidPublicKeyDetails<BlockNumber, AccountId>`), B block
   * number, N web3name, L linked account id.
   */
  datatype RevealedDidMerkleProofLeaf<K, D, B, N, L> =
    | DidKey(didKey: DidKeyMerkleKey<K>, didValue: DidKeyMerkleValue<D>)
    | Web3Name(nameKey: Web3NameMerkleKey<N>, nameValue: Web3NameMerkleValue<B>)
    | LinkedAccount(accountKey: LinkedAccountMerkleKey<L>, accountValue: LinkedAccountMerkleValue)

  /** The SCALE encoders of the generic component types, supplied by the caller. */
  datatype Codec<-K, -D, -B, -N, -L> = Codec(
    keyId: K -> Bytes,
    details: D -> Bytes,
    blockNumber: B -> Bytes,
    web3Name: N -> Bytes,
    linkedAccount: L -> Bytes)

  /**
   * The encoding of the leaf's key part only, the trie key it is checked
   * under: for a DID key, the key id's encoding followed by bytes that decode
   * to its relationship; otherwise the encoding of the name or account id.
   */
  function EncodedKey<K, D, B, N, L>(c: Codec<K, D, B, N, L>, leaf: RevealedDidMerkleProofLeaf<K, D, B, N, L>): (r: Bytes)
    ensures leaf.DidKey? ==>
      var id := c.keyId(leaf.didKey.id);
      |id| < |r| && r[..|id|] == id && DecodeRelationship(r[|id|..]) == Some(leaf.didKey.relationship)
    ensures leaf.Web3Name? ==> r == c.web3Name(leaf.nameKey.name)
    ensures leaf.LinkedAccount? ==> r == c.linkedAccount(leaf.accountKey.account)
  {
    match leaf
    case DidKey(key, _) => c.keyId(key.id) + EncodeRelationship(key.relationship)
    case Web3Name(key, _) => c.web3Name(key.name)
    case LinkedAccount(key, _) => c.linkedAccount(key.account)
  }

  /**
   * The encoding of the leaf's value part only, the trie value it is checked
   * against: the key details, the claim block number, or nothing for the unit
   * marker of a linked account.
   */
  function EncodedValue<K, D, B, N, L>(c: Codec<K, D, B, N, L>, leaf: RevealedDidMerkleProofLeaf<K, D, B, N, L>): (r: Bytes)
    ensures leaf.DidKey? ==> r == c.details(leaf.didValue.details)
    ensures leaf.Web3Name? ==> r == c.blockNumber(leaf.nameValue.claimedAt)
    ensures leaf.LinkedAccount? ==> r == []
  {
    match leaf
    case DidKey(_, value) => c.details(value.details)
    case Web3Name(_, value) => c.blockNumber(value.claimedAt)
    case LinkedAccount(_, _) => []
  }

  /** Two leaves of the same kind with equal key parts. */
  ghost predicate SameKey<K, D, B, N, L>(a: RevealedDidMerkleProofLeaf<K, D, B, N, L>, b: RevealedDidMerkleProofLeaf<K, D, B, N, L>)
  {
    match a
    case DidKey(k, _) => b.DidKey? && b.didKey == k
    case Web3Name(k, _) => b.Web3Name? && b.nameKey == k
    case LinkedAccount(k, _) => b.LinkedAccount? && b.accountKey == k
  }

  /** Two leaves of the same kind with equal value parts. */
  ghost predicate SameValue<K, D, B, N, L>(a: RevealedDidMerkleProofLeaf<K, D, B, N, L>, b: RevealedDidMerkleProofLeaf<K, D, B, N, L>)
  {
    match a
    case DidKey(_, v) => b.DidKey? && b.didValue == v
    case Web3Name(_, v) => b.Web3Name? && b.nameValue == v
    case LinkedAccount(_, v) => b.LinkedAccount? && b.accountValue == v
  }

  /** The encoded key depends on the key part only: changing the value never changes it. */
  lemma EncodedKeyIgnoresValue<K, D, B, N, L>(c: Codec<K, D, B, N, L>, a: RevealedDidMerkleProofLeaf<K, D, B, N, L>, b: RevealedDidMerkleProofLeaf<K, D, B, N, L>)
    requires SameKey(a, b)
    ensures EncodedKey(c, a) == EncodedKey(c, b)
  {
  }

  /** The encoded value depends on the value part only. */
  lemma EncodedValueIgnoresKey<K, D, B, N, L>(c: Codec<K, D, B, N, L>, a: RevealedDidMerkleProofLeaf<K, D, B, N, L>, b: RevealedDidMerkleProofLeaf<K, D, B, N, L>)
    requires SameValue(a, b)
    ensures EncodedValue(c, a) == EncodedValue(c, b)
  {
  }

  /** A linked-account leaf's value is the unit marker, which encodes to no bytes. */
  lemma LinkedAccountValueIsEmpty<K, D, B, N, L>(c: Codec<K, D, B, N, L>, leaf: RevealedDidMerkleProofLeaf<K, D, B, N, L>)
    requires leaf.LinkedAccount?
    ensures EncodedValue(c, leaf) == []
  {
  }

  /**
   * Among DID-key leaves the encoded key determines the key part, provided the
   * key-id encoder is injective and both ids encode to the same width.
   */
  lemma {:induction false} DidKeyEncodedKeyInjective<K, D, B, N, L>(
    c: Codec<K, D, B, N, L>, a: RevealedDidMerkleProofLeaf<K, D, B, N, L>, b: RevealedDidMerkleProofLeaf<K, D, B, N, L>)
    requires a.DidKey? && b.DidKey?
    requires |c.keyId(a.didKey.id)| == |c.keyId(b.didKey.id)|
    requires c.keyId(a.didKey.id) == c.keyId(b.didKey.id) ==> a.didKey.id == b.didKey.id
    ensures EncodedKey(c, a) == EncodedKey(c, b) ==> a.didKey == b.didKey
  {
    if EncodedKey(c, a) == EncodedKey(c, b) {
      var ia, ib := c.keyId(a.didKey.id), c.keyId(b.didKey.id);
      var ra, rb := EncodeRelationship(a.didKey.relationship), EncodeRelationship(b.didKey.relationship);
      assert (ia + ra)[..|ia|] == ia && (ib + rb)[..|ib|] == ib;
      assert (ia + ra)[|ia|..] == ra && (ib + rb)[|ib|..] == rb;
      EncodeRelationshipInjective(a.didKey.relationship, b.didKey.relationship);
    }
  }

  /**
   * The encoded key carries no tag for the leaf kind: a web3name whose
   * encoding equals a DID key's id and relationship encoding gets the same
   * trie key as that DID key.
   */
  lemma EncodedKeyHasNoKindTag<K, D, B, N, L>(
    c: Codec<K, D, B, N, L>, k: K, rel: DidKeyRelationship, d: D, n: N, blockNumber: B)
    requires c.web3Name(n) == c.keyId(k) + EncodeRelationship(rel)
    ensures EncodedKey(c, DidKey(DidKeyMerkleKey(k, rel), DidKeyMerkleValue(d)))
         == EncodedKey(c, Web3Name(Web3NameMerkleKey(n), Web3NameMerkleValue(blockNumber)))
  {
  }

  // ---------------------------------------------------------------------------
  // Result and error types

  /** A DID key revealed by a verified proof. */
  datatype RevealedDidKey<K, D> = RevealedDidKey(id: K, relationship: DidKeyRelationship, details: D)

  /** A web3name revealed by a verified proof. */
  datatype RevealedWeb3Name<N, B> = RevealedWeb3Name(web3Name: N, claimedAt: B)

  /**
   * Everything a verified proof reveals. The two bounded vectors are
   * sequences here; their bounds are parameters of the verifier.
   */
  datatype RevealedDidMerkleProofLeaves<K, D, B, N, L> = RevealedDidMerkleProofLeaves(
    didKeys: seq<RevealedDidKey<K, D>>,
    web3Name: Option<RevealedWeb3Name<N, B>>,
    linkedAccounts: seq<L>)

  datatype DidMerkleProofVerifierError =
    | InvalidMerkleProof
    | TooManyRevealedKeys
    | TooManyRevealedAccounts

  /** The stable numeric code of an error. */
  function ErrorCode(e: DidMerkleProofVerifierError): (code: u8)
    ensures code == 0 <==> e == InvalidMerkleProof
    ensures code == 1 <==> e == TooManyRevealedKeys
    ensures code == 2 <==> e == TooManyRevealedAccounts
  {
    match e
    case InvalidMerkleProof => 0
    case TooManyRevealedKeys => 1
    case TooManyRevealedAccounts => 2
  }

  /** Distinct errors have distinct codes. */
  lemma ErrorCodeInjective(a: DidMerkleProofVerifierError, b: DidMerkleProofVerifierError)
    ensures ErrorCode(a) == ErrorCode(b) ==> a == b
  {
  }

  // ---------------------------------------------------------------------------
  // The proof and its trie check

  /** A Merkle proof: the opaque blinded nodes and the revealed leaves. */
  datatype DidMerkleProof<BV, Leaf> = DidMerkleProof(blinded: BV, revealed: seq<Leaf>)

  /** A key/value pair handed to the trie check; `None` would claim absence. */
  type ProofPair = (Bytes, Option<Bytes>)

  /** Every revealed leaf, in order, as its encoded key and (present) encoded value. */
  function ProofLeaves<K, D, B, N, L>(c: Codec<K, D, B, N, L>, revealed: seq<RevealedDidMerkleProofLeaf<K, D, B, N, L>>): (r: seq<ProofPair>)
    ensures |r| == |revealed|
    ensures forall i :: 0 <= i < |revealed| ==> r[i] == (EncodedKey(c, revealed[i]), Some(EncodedValue(c, revealed[i])))
  {
    if revealed == [] then []
    else [(EncodedKey(c, revealed[0]), Some(EncodedValue(c, revealed[0])))] + ProofLeaves(c, revealed[1..])
  }

  // ---------------------------------------------------------------------------
  // Aggregation of the revealed leaves

  /**
   * The fold over the revealed leaves, in proof order, written from the last
   * leaf back: DID keys and linked accounts are pushed into their bounded
   * vectors and fail once the vector is full; a web3name replaces the
   * previous one. The first failure is the result.
   */
  function Aggregate<K, D, B, N, L>(s: seq<RevealedDidMerkleProofLeaf<K, D, B, N, L>>, maxKeys: u32, maxAccounts: u32)
    : (r: Result<RevealedDidMerkleProofLeaves<K, D, B, N, L>, DidMerkleProofVerifierError>)
    ensures r.Ok? ==> |r.value.didKeys| <= maxKeys as int && |r.value.linkedAccounts| <= maxAccounts as int
    ensures r.Err? ==> r.error != InvalidMerkleProof
    decreases |s|
  {
    if s == [] then Ok(RevealedDidMerkleProofLeaves([], None, []))
    else
      match Aggregate(s[..|s| - 1], maxKeys, maxAccounts)
      case Err(e) => Err(e)
      case Ok(acc) =>
        match s[|s| - 1]
        case DidKey(key, value) =>
          if |acc.didKeys| < maxKeys as int
          then Ok(acc.(didKeys := acc.didKeys + [RevealedDidKey(key.id, key.relationship, value.details)]))
          else Err(TooManyRevealedKeys)
        case Web3Name(key, value) =>
          Ok(acc.(web3Name := Some(RevealedWeb3Name(key.name, value.claimedAt))))
        case LinkedAccount(key, _) =>
          if |acc.linkedAccounts| < maxAccounts as int
          then Ok(acc.(linkedAccounts := acc.linkedAccounts + [key.account]))
          else Err(TooManyRevealedAccounts)
  }

  /** Reference: the DID-key leaves, in proof order, as revealed keys. */
  function DidKeysOf<K, D, B, N, L>(s: seq<RevealedDidMerkleProofLeaf<K, D, B, N, L>>): seq<RevealedDidKey<K, D>>
    decreases |s|
  {
    if s == [] then []
    else
      DidKeysOf(s[..|s| - 1]) +
      match s[|s| - 1]
      case DidKey(key, value) => [RevealedDidKey(key.id, key.relationship, value.details)]
      case _ => []
  }

  /** Reference: the linked-account ids, in proof order. */
  function AccountsOf<K, D, B, N, L>(s: seq<RevealedDidMerkleProofLeaf<K, D, B, N, L>>): seq<L>
    decreases |s|
  {
    if s == [] then []
    else
      AccountsOf(s[..|s| - 1]) +
      match s[|s| - 1]
      case LinkedAccount(key, _) => [key.account]
      case _ => []
  }

  /** Reference: the last web3name leaf, if there is one. */
  function LastWeb3Name<K, D, B, N, L>(s: seq<RevealedDidMerkleProofLeaf<K, D, B, N, L>>): Option<RevealedWeb3Name<N, B>>
    decreases |s|
  {
    if s == [] then None
    else
      match s[|s| - 1]
      case Web3Name(key, value) => Some(RevealedWeb3Name(key.name, value.claimedAt))
      case _ => LastWeb3Name(s[..|s| - 1])
  }

  /** The leaves reveal no more DID keys and linked accounts than the bounds allow. */
  predicate WithinBounds<K, D, B, N, L>(s: seq<RevealedDidMerkleProofLeaf<K, D, B, N, L>>, maxKeys: u32, maxAccounts: u32)
  {
    |DidKeysOf(s)| <= maxKeys as int && |AccountsOf(s)| <= maxAccounts as int
  }

  /** The revealed keys of a concatenation are those of each part, in order. */
  lemma {:induction false} DidKeysOfConcat<K, D, B, N, L>(a: seq<RevealedDidMerkleProofLeaf<K, D, B, N, L>>, b: seq<RevealedDidMerkleProofLeaf<K, D, B, N, L>>)
    ensures DidKeysOf(a + b) == DidKeysOf(a) + DidKeysOf(b)
    decreases |b|
  {
    if b == [] {
      assert a + b == a;
    } else {
      assert (a + b)[..|a + b| - 1] == a + b[..|b| - 1];
      DidKeysOfConcat(a, b[..|b| - 1]);
    }
  }

  /** The linked accounts of a concatenation are those of each part, in order. */
  lemma {:induction false} AccountsOfConcat<K, D, B, N, L>(a: seq<RevealedDidMerkleProofLeaf<K, D, B, N, L>>, b: seq<RevealedDidMerkleProofLeaf<K, D, B, N, L>>)
    ensures AccountsOf(a + b) == AccountsOf(a) + AccountsOf(b)
    decreases |b|
  {
    if b == [] {
      assert a + b == a;
    } else {
      assert (a + b)[..|a + b| - 1] == a + b[..|b| - 1];
      AccountsOfConcat(a, b[..|b| - 1]);
    }
  }

  /**
   * Each DID-key leaf is revealed, in place: its key sits in the result at
   * the position given by the number of DID-key leaves before it.
   */
  lemma DidKeyLeafRevealedAt<K, D, B, N, L>(s: seq<RevealedDidMerkleProofLeaf<K, D, B, N, L>>, i: nat)
    requires i < |s| && s[i].DidKey?
    ensures |DidKeysOf(s[..i])| < |DidKeysOf(s)|
    ensures DidKeysOf(s)[|DidKeysOf(s[..i])|] == RevealedDidKey(s[i].didKey.id, s[i].didKey.relationship, s[i].didValue.details)
  {
    assert s == s[..i] + [s[i]] + s[i + 1..];
    DidKeysOfConcat(s[..i], [s[i]]);
    DidKeysOfConcat(s[..i] + [s[i]], s[i + 1..]);
    assert [s[i]][..0] == [];
  }

  /**
   * Each linked-account leaf is revealed, in place: its id sits in the result
   * at the position given by the number of linked-account leaves before it.
   */
  lemma AccountLeafRevealedAt<K, D, B, N, L>(s: seq<RevealedDidMerkleProofLeaf<K, D, B, N, L>>, i: nat)
    requires i < |s| && s[i].LinkedAccount?
    ensures |AccountsOf(s[..i])| < |AccountsOf(s)|
    ensures AccountsOf(s)[|AccountsOf(s[..i])|] == s[i].accountKey.account
  {
    assert s == s[..i] + [s[i]] + s[i + 1..];
    AccountsOfConcat(s[..i], [s[i]]);
    AccountsOfConcat(s[..i] + [s[i]], s[i + 1..]);
    assert [s[i]][..0] == [];
  }

  /** The name kept is the one of the last web3name leaf: later leaves carry none. */
  lemma {:induction false} LastWeb3NameIsLast<K, D, B, N, L>(s: seq<RevealedDidMerkleProofLeaf<K, D, B, N, L>>, j: nat)
    requires j < |s| && s[j].Web3Name?
    requires forall k :: j < k < |s| ==> !s[k].Web3Name?
    ensures LastWeb3Name(s) == Some(RevealedWeb3Name(s[j].nameKey.name, s[j].nameValue.claimedAt))
    decreases |s|
  {
    if j < |s| - 1 {
      var init := s[..|s| - 1];
      assert init[j] == s[j];
      assert !s[|s| - 1].Web3Name?;
      LastWeb3NameIsLast(init, j);
    }
  }

  /** No name is kept exactly when no leaf reveals one. */
  lemma {:induction false} LastWeb3NameNone<K, D, B, N, L>(s: seq<RevealedDidMerkleProofLeaf<K, D, B, N, L>>)
    ensures LastWeb3Name(s) == None <==> forall k :: 0 <= k < |s| ==> !s[k].Web3Name?
    decreases |s|
  {
    if s != [] {
      var init := s[..|s| - 1];
      LastWeb3NameNone(init);
      assert forall k :: 0 <= k < |init| ==> init[k] == s[k];
    }
  }

  /**
   * The fold succeeds exactly when the leaves stay within both bounds, and
   * then reveals the DID keys and linked accounts in proof order and the last
   * web3name.
   */
  lemma {:induction false} AggregateMatchesReference<K, D, B, N, L>(s: seq<RevealedDidMerkleProofLeaf<K, D, B, N, L>>, maxKeys: u32, maxAccounts: u32)
    ensures Aggregate(s, maxKeys, maxAccounts).Ok? <==> WithinBounds(s, maxKeys, maxAccounts)
    ensures Aggregate(s, maxKeys, maxAccounts).Ok? ==>
      Aggregate(s, maxKeys, maxAccounts).value == RevealedDidMerkleProofLeaves(DidKeysOf(s), LastWeb3Name(s), AccountsOf(s))
    decreases |s|
  {
    if s != [] {
      AggregateMatchesReference(s[..|s| - 1], maxKeys, maxAccounts);
    }
  }

  /** Once a prefix of the leaves fails, the whole fold fails with the same error. */
  lemma {:induction false} AggregateErrorPersists<K, D, B, N, L>(s: seq<RevealedDidMerkleProofLeaf<K, D, B, N, L>>, j: nat, maxKeys: u32, maxAccounts: u32)
    requires j <= |s|
    requires Aggregate(s[..j], maxKeys, maxAccounts).Err?
    ensures Aggregate(s, maxKeys, maxAccounts) == Aggregate(s[..j], maxKeys, maxAccounts)
    decreases |s| - j
  {
    if j == |s| {
      assert s[..j] == s;
    } else {
      assert s[..j + 1][..j] == s[..j];
      AggregateErrorPersists(s, j + 1, maxKeys, maxAccounts);
    }
  }

  /**
   * The error is decided by the first leaf that exceeds a bound: the
   * DID key that overfills the key vector or the linked account that
   * overfills the account vector.
   */
  lemma AggregateFailsAtFirstOverflow<K, D, B, N, L>(s: seq<RevealedDidMerkleProofLeaf<K, D, B, N, L>>, i: nat, maxKeys: u32, maxAccounts: u32)
    requires i < |s|
    requires WithinBounds(s[..i], maxKeys, maxAccounts) && !WithinBounds(s[..i + 1], maxKeys, maxAccounts)
    ensures !s[i].Web3Name?
    ensures s[i].DidKey? ==> Aggregate(s, maxKeys, maxAccounts) == Err(TooManyRevealedKeys)
    ensures s[i].LinkedAccount? ==> Aggregate(s, maxKeys, maxAccounts) == Err(TooManyRevealedAccounts)
  {
    assert s[..i + 1][..i] == s[..i];
    AggregateMatchesReference(s[..i], maxKeys, maxAccounts);
    AggregateErrorPersists(s, i + 1, maxKeys, maxAccounts);
  }

  /** Leaves that exceed a bound have a first leaf at which they do so. */
  lemma {:induction false} FirstOverflowExists<K, D, B, N, L>(s: seq<RevealedDidMerkleProofLeaf<K, D, B, N, L>>, maxKeys: u32, maxAccounts: u32)
    requires !WithinBounds(s, maxKeys, maxAccounts)
    ensures exists i :: 0 <= i < |s| && WithinBounds(s[..i], maxKeys, maxAccounts) && !WithinBounds(s[..i + 1], maxKeys, maxAccounts)
    decreases |s|
  {
    var init := s[..|s| - 1];
    assert s[..|s|] == s;
    if WithinBounds(init, maxKeys, maxAccounts) {
      assert WithinBounds(s[..|s| - 1], maxKeys, maxAccounts);
    } else {
      FirstOverflowExists(init, maxKeys, maxAccounts);
      var i :| 0 <= i < |init| && WithinBounds(init[..i], maxKeys, maxAccounts) && !WithinBounds(init[..i + 1], maxKeys, maxAccounts);
      assert init[..i] == s[..i] && init[..i + 1] == s[..i + 1];
    }
  }

  /** With no revealed leaves the fold yields no keys, no name and no accounts. */
  lemma AggregateEmpty<K, D, B, N, L>(maxKeys: u32, maxAccounts: u32)
    ensures Aggregate<K, D, B, N, L>([], maxKeys, maxAccounts)
         == Ok(RevealedDidMerkleProofLeaves([], None, []))
  {
  }

  // ---------------------------------------------------------------------------
  // The verifier

  /**
   * Verifies a DIP identity proof against the commitment root. The trie
   * inclusion check is the caller-supplied `verifyTrieProof(root, nodes, pairs)`;
   * it sees every revealed leaf as its encoded key with its encoded value.
   * A failed check is `InvalidMerkleProof`; otherwise the leaves are folded,
   * in proof order, into the bounded result, failing on the first leaf that
   * overfills a bounded vector.
   */
  method VerifyDipMerkleProof<H, K, D, B, N, L>(
    c: Codec<K, D, B, N, L>,
    verifyTrieProof: (H, seq<Bytes>, seq<ProofPair>) -> bool,
    identityCommitment: H,
    proof: DidMerkleProof<BoundedBlindedValue<u8>, RevealedDidMerkleProofLeaf<K, D, B, N, L>>,
    maxKeys: u32,
    maxAccounts: u32)
    returns (r: Result<RevealedDidMerkleProofLeaves<K, D, B, N, L>, DidMerkleProofVerifierError>)
    ensures !verifyTrieProof(identityCommitment, Deref(proof.blinded), ProofLeaves(c, proof.revealed)) ==>
      r == Err(InvalidMerkleProof)
    ensures verifyTrieProof(identityCommitment, Deref(proof.blinded), ProofLeaves(c, proof.revealed)) ==>
      r == Aggregate(proof.revealed, maxKeys, maxAccounts)
    ensures r.Ok? <==>
      verifyTrieProof(identityCommitment, Deref(proof.blinded), ProofLeaves(c, proof.revealed)) &&
      WithinBounds(proof.revealed, maxKeys, maxAccounts)
    ensures r.Ok? ==>
      r.value == RevealedDidMerkleProofLeaves(DidKeysOf(proof.revealed), LastWeb3Name(proof.revealed), AccountsOf(proof.revealed))
  {
    var proofLeaves := ProofLeaves(c, proof.revealed);
    if !verifyTrieProof(identityCommitment, Deref(proof.blinded), proofLeaves) {
      return Err(InvalidMerkleProof);
    }
    r := FoldRevealedLeaves(proof.revealed, maxKeys, maxAccounts);
    AggregateMatchesReference(proof.revealed, maxKeys, maxAccounts);
  }

  /**
   * The fold of the verifier, over leaves whose inclusion is already checked:
   * the accumulated key vector, name and account vector are updated leaf by
   * leaf, and the first push into a full vector ends the fold with its error.
   */
  method FoldRevealedLeaves<K, D, B, N, L>(revealed: seq<RevealedDidMerkleProofLeaf<K, D, B, N, L>>, maxKeys: u32, maxAccounts: u32)
    returns (r: Result<RevealedDidMerkleProofLeaves<K, D, B, N, L>, DidMerkleProofVerifierError>)
    ensures r == Aggregate(revealed, maxKeys, maxAccounts)
  {
    var keys: seq<RevealedDidKey<K, D>> := [];
    var web3Name: Option<RevealedWeb3Name<N, B>> := None;
    var accounts: seq<L> := [];
    var i := 0;
    while i < |revealed|
      invariant 0 <= i <= |revealed|
      invariant Aggregate(revealed[..i], maxKeys, maxAccounts) == Ok(RevealedDidMerkleProofLeaves(keys, web3Name, accounts))
    {
      assert revealed[..i + 1][..i] == revealed[..i];
      match revealed[i] {
        case DidKey(key, value) =>
          if |keys| < maxKeys as int {
            keys := keys + [RevealedDidKey(key.id, key.relationship, value.details)];
          } else {
            AggregateErrorPersists(revealed, i + 1, maxKeys, maxAccounts);
            return Err(TooManyRevealedKeys);
          }
        case Web3Name(key, value) =>
          web3Name := Some(RevealedWeb3Name(key.name, value.claimedAt));
        case LinkedAccount(key, _) =>
          if |accounts| < maxAccounts as int {
            accounts := accounts + [key.account];
          } else {
            AggregateErrorPersists(revealed, i + 1, maxKeys, maxAccounts);
            return Err(TooManyRevealedAccounts);
          }
      }
      i := i + 1;
    }
    assert revealed[..i] == revealed;
    r := Ok(RevealedDidMerkleProofLeaves(keys, web3Name, accounts));
  }
}
