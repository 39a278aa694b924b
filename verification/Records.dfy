/** DHT records, their wire form and what makes one authentic (`src/store.rs`). */
module Records {
  import opened Xor
  import opened Peers

  const KIND_IMMUTABLE: nat := 0
  const KIND_MUTABLE: nat := 1
  const KIND_PROVIDER: nat := 2
  const KIND_TOMBSTONE: nat := 3

  const MUTABLE_TTL_SECS: nat := 24 * 3600

  datatype StoredRecord = StoredRecord(
    key: Id,
    value: seq<Byte>,
    sequence: nat,
    ttlSecs: nat,
    notBeforeUnix: nat,
    owner: seq<Byte>,
    signature: seq<Byte>,
    kind: nat,
    namespace: seq<Byte>,
    salt: seq<Byte>,
    storedUnix: nat,
    cache: bool)
  {
    /** Elapsed time is a saturating difference, so a record from the future is not expired. */
    predicate Expired(now: nat)
    {
      storedUnix <= now && now - storedUnix > ttlSecs
    }

    function ToWire(): WireRecord
    {
      WireRecord(key, value, sequence, ttlSecs, notBeforeUnix, owner, signature, kind, namespace, salt)
    }

    /** Equality up to when and where the record was stored. */
    predicate SameContent(other: StoredRecord)
    {
      ToWire() == other.ToWire()
    }
  }

  /** The protobuf `Record`; its key is a byte string of any length. */
  datatype WireRecord = WireRecord(
    key: seq<Byte>,
    value: seq<Byte>,
    sequence: nat,
    ttlSecs: nat,
    notBeforeUnix: nat,
    owner: seq<Byte>,
    signature: seq<Byte>,
    kind: nat,
    namespace: seq<Byte>,
    salt: seq<Byte>)

  /** Hashing and signature checking, as functions the model does not look into. */
  datatype Crypto = Crypto(
    hash: seq<Byte> -> Id,
    mutableKey: (seq<Byte>, seq<Byte>, seq<Byte>) -> Id,
    verify: (seq<Byte>, Id, seq<Byte>, nat, nat, nat, seq<Byte>) -> bool)
  {
    /** `authentic`: content hash, or owner-derived key plus signature. */
    predicate Authentic(r: StoredRecord)
    {
      if r.kind == KIND_IMMUTABLE then hash(r.value) == r.key
      else if r.kind == KIND_MUTABLE || r.kind == KIND_TOMBSTONE then
        && r.owner != []
        && mutableKey(r.owner, r.namespace, r.salt) == r.key
        && verify(r.owner, r.key, r.value, r.sequence, r.ttlSecs, r.notBeforeUnix, r.signature)
      else r.kind == KIND_PROVIDER
    }
  }

  /** `record_from_proto`: a zero TTL is replaced by the default one. */
  function FromWire(w: WireRecord, now: nat): Option<StoredRecord>
  {
    if |w.key| != ID_LEN then None
    else Some(StoredRecord(
                w.key, w.value, w.sequence,
                if w.ttlSecs == 0 then MUTABLE_TTL_SECS else w.ttlSecs,
                w.notBeforeUnix, w.owner, w.signature, w.kind, w.namespace, w.salt, now, false))
  }

  /** A record read back is what was written, stored now and not cached; only a zero time to live is
      replaced, by 24 hours, and a key of the wrong length refused. */
  lemma ReadBackFromWire(w: WireRecord, now: nat)
    ensures FromWire(w, now).Some? <==> |w.key| == 32
    ensures |w.key| == 32 ==>
              var r := FromWire(w, now).value;
              r.storedUnix == now && !r.cache && r.ToWire() == (if w.ttlSecs == 0 then w.(ttlSecs := 86_400) else w)
  {
  }

  /** Nothing is authentic by accident: content is under its hash, owned records are under the key derived
      from owner, namespace and salt, and signed by the owner over key, value, sequence and both times. */
  lemma AuthenticMeans(crypto: Crypto, r: StoredRecord)
    requires crypto.Authentic(r)
    ensures r.kind <= 3
    ensures r.kind == 0 ==> crypto.hash(r.value) == r.key
    ensures r.kind == 1 || r.kind == 3 ==>
              && r.owner != [] && crypto.mutableKey(r.owner, r.namespace, r.salt) == r.key
              && crypto.verify(r.owner, r.key, r.value, r.sequence, r.ttlSecs, r.notBeforeUnix, r.signature)
  {
  }
}
