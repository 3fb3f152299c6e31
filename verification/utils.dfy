/**
 * Helpers of the DIP primitives crate: the blinded-node container carried by
 * a Merkle proof, and the storage key under which the relay chain keeps a
 * parachain's head.
 */
module Utils {
  import opened Scale

  /**
   * A vector of vectors (the opaque trie nodes of a proof). In Rust it is a
   * newtype; here the wrapped vector is the single field `inner`.
   */
  datatype BoundedBlindedValue<T> = BoundedBlindedValue(inner: seq<seq<T>>)

  /** Unwraps the vector of vectors. */
  function IntoInner<T>(b: BoundedBlindedValue<T>): (r: seq<seq<T>>)
    ensures BoundedBlindedValue(r) == b
  {
    b.inner
  }

  /**
   * Builds the container by collecting an iterator of vectors; the iterator
   * is given as the finite sequence of the items it yields.
   */
  function From<T>(items: seq<seq<T>>): (b: BoundedBlindedValue<T>)
    ensures IntoInner(b) == items
  {
    BoundedBlindedValue(items)
  }

  /** Borrows the wrapped vector: the same sequence `IntoInner` returns. */
  function Deref<T>(b: BoundedBlindedValue<T>): (r: seq<seq<T>>)
    ensures r == IntoInner(b)
  {
    b.inner
  }

  /**
   * Consumes the container into an iterator over its inner vectors; the
   * iterator is given as the sequence of the items it yields, in order.
   */
  function IntoIter<T>(b: BoundedBlindedValue<T>): (r: seq<seq<T>>)
    ensures |r| == |IntoInner(b)|
    ensures forall i :: 0 <= i < |r| ==> r[i] == IntoInner(b)[i]
  {
    b.inner
  }

  /** Unwrapping and collecting again gives back the same container. */
  lemma FromIntoInner<T>(b: BoundedBlindedValue<T>)
    ensures From(IntoInner(b)) == b
  {
  }

  /** Output of `twox_64`: eight bytes. */
  type Hash64 = s: Bytes | |s| == 8 witness [0, 0, 0, 0, 0, 0, 0, 0]

  /** Output of `storage_prefix`: the 128-bit hashes of pallet and item names, 32 bytes. */
  type Prefix256 = s: Bytes | |s| == 32 witness seq(32, _ => 0)

  /**
   * The hashing capabilities the storage key is built with, which are foreign
   * to this crate: `storage_prefix(pallet, item)` and `twox_64`.
   */
  datatype Hashing = Hashing(storagePrefix: (Bytes, Bytes) -> Prefix256, twox64: Bytes -> Hash64)

  /** The ASCII bytes of "Paras" and "Heads". */
  const PARAS: Bytes := [0x50, 0x61, 0x72, 0x61, 0x73]
  const HEADS: Bytes := [0x48, 0x65, 0x61, 0x64, 0x73]

  /** A raw storage key. */
  datatype StorageKey = StorageKey(bytes: Bytes)

  /**
   * The storage key of `Paras::Heads(para_id)`: the map's prefix, then the
   * Twox64Concat hasher's output, the 64-bit hash of the encoded id followed
   * by the encoded id itself.
   */
  function ParachainHeadStorageKey(h: Hashing, paraId: u32): (key: StorageKey)
    ensures |key.bytes| == |h.storagePrefix(PARAS, HEADS)| + |h.twox64(EncodeU32(paraId))| + 4 == 44
    ensures key.bytes[..32] == h.storagePrefix(PARAS, HEADS)
    ensures key.bytes[32..40] == h.twox64(EncodeU32(paraId))
    ensures key.bytes[40..] == EncodeU32(paraId)
  {
    var enc := EncodeU32(paraId);
    StorageKey(h.storagePrefix(PARAS, HEADS) + h.twox64(enc) + enc)
  }

  /** The para id can be read back from the last four bytes of its head key. */
  lemma ParaIdFromHeadKey(h: Hashing, paraId: u32)
    ensures var k := ParachainHeadStorageKey(h, paraId).bytes;
      DecodeU32(k[|k| - 4..]) == paraId
  {
    DecodeEncodeU32(paraId);
  }

  /** Distinct para ids give distinct head storage keys. */
  lemma {:induction false} ParachainHeadStorageKeyInjective(h: Hashing, a: u32, b: u32)
    ensures ParachainHeadStorageKey(h, a) == ParachainHeadStorageKey(h, b) ==> a == b
  {
    if ParachainHeadStorageKey(h, a) == ParachainHeadStorageKey(h, b) {
      ParaIdFromHeadKey(h, a);
      ParaIdFromHeadKey(h, b);
    }
  }
}
