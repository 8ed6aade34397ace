/** Reading a blob element by element, and reassembling all blobs from a recorded cache. */
module Blobs {
  import opened Prelude
  import opened Oracles

  const FIELD_ELEMENTS: nat := 4096

  const BLOB_SIZE: nat := 131072

  function Zeros(n: nat): (z: Bytes)
    ensures |z| == n && forall i :: 0 <= i < n ==> z[i] == 0
  {
    seq(n, i => 0)
  }

  // Big-endian indices.

  ghost function Pow256(n: nat): nat {
    if n == 0 then 1 else 256 * Pow256(n - 1)
  }

  /** The last `size` base-256 digits of n, most significant first. */
  function ToBigEndian(n: nat, size: nat): (b: Bytes)
    ensures |b| == size
  {
    if size == 0 then [] else ToBigEndian(n / 256, size - 1) + [(n % 256) as Byte]
  }

  function FromBigEndian(b: Bytes): nat {
    if b == [] then 0 else FromBigEndian(b[..|b| - 1]) * 256 + b[|b| - 1] as nat
  }

  lemma {:induction false} BigEndianRoundTrip(n: nat, size: nat)
    requires n < Pow256(size)
    ensures FromBigEndian(ToBigEndian(n, size)) == n
  {
    if size > 0 {
      BigEndianRoundTrip(n / 256, size - 1);
      var b := ToBigEndian(n, size);
      assert b[..size - 1] == ToBigEndian(n / 256, size - 1);
    }
  }

  /** And back: bytes are what their number is written as. */
  lemma {:induction false} BigEndianInverse(b: Bytes)
    ensures ToBigEndian(FromBigEndian(b), |b|) == b
  {
    if b != [] {
      var n := |b| - 1;
      BigEndianInverse(b[..n]);
      assert FromBigEndian(b) / 256 == FromBigEndian(b[..n]) && FromBigEndian(b) % 256 == b[n] as nat;
      assert b == b[..n] + [b[n]];
    }
  }

  lemma IndexRoundTrip(i: nat)
    requires i <= FIELD_ELEMENTS
    ensures FromBigEndian(ToBigEndian(i, 8)) == i
  {
    assert Pow256(2) == 65536;
    Pow256Grows(2, 8);
    BigEndianRoundTrip(i, 8);
  }

  lemma {:induction false} Pow256Grows(a: nat, b: nat)
    requires a <= b
    ensures Pow256(a) <= Pow256(b)
  {
    if a < b {
      Pow256Grows(a, b - 1);
    }
  }

  // Keys.

  /** The 80 bytes that name element i of the blob with a commitment; index 4096 names its KZG proof. */
  function ElementName(commitment: Bytes, i: nat): Bytes {
    commitment + Zeros(24) + ToBigEndian(i, 8)
  }

  function NameKey(commitment: Bytes, i: nat): PreimageKey {
    PreimageKey(Keccak256, Keccak(ElementName(commitment, i)))
  }

  function ElementKey(commitment: Bytes, i: nat): PreimageKey {
    PreimageKey(Blob, Keccak(ElementName(commitment, i)))
  }

  lemma NameParts(commitment: Bytes, i: nat)
    requires |commitment| == 48 && i <= FIELD_ELEMENTS
    ensures |ElementName(commitment, i)| == 80
    ensures ElementName(commitment, i)[..48] == commitment
    ensures FromBigEndian(ElementName(commitment, i)[72..]) == i
  {
    assert ElementName(commitment, i)[72..] == ToBigEndian(i, 8);
    IndexRoundTrip(i);
  }

  /** The key under which `verify` looks for the name of a blob entry. */
  function NameOf(key: PreimageKey): PreimageKey {
    PreimageKey(Keccak256, key.digest)
  }

  /** A name of full length has zero padding and an index that `get_blob` uses. */
  predicate PlainName(name: Bytes) {
    |name| == 80 ==> name[48..72] == Zeros(24) && FromBigEndian(name[72..]) <= FIELD_ELEMENTS
  }

  lemma PlainNameIs(name: Bytes)
    requires |name| == 80 && PlainName(name)
    ensures name == ElementName(name[..48], FromBigEndian(name[72..]))
  {
    BigEndianInverse(name[72..]);
    assert name == name[..48] + name[48..72] + name[72..];
  }

  function ElementSize(i: nat): nat {
    if i == FIELD_ELEMENTS then 48 else 32
  }

  // Slots.

  function Slot(data: Bytes, i: nat): (slot: Bytes)
    requires |data| == BLOB_SIZE && i < FIELD_ELEMENTS
    ensures |slot| == 32
  {
    data[32 * i..32 * (i + 1)]
  }

  function WriteSlot(data: Bytes, i: nat, value: Bytes): (data': Bytes)
    requires |data| == BLOB_SIZE && i < FIELD_ELEMENTS && |value| == 32
    ensures |data'| == BLOB_SIZE
  {
    data[..32 * i] + value + data[32 * (i + 1)..]
  }

  lemma SlotWritten(data: Bytes, i: nat, value: Bytes, j: nat)
    requires |data| == BLOB_SIZE && i < FIELD_ELEMENTS && |value| == 32 && j < FIELD_ELEMENTS
    ensures Slot(WriteSlot(data, i, value), j) == if i == j then value else Slot(data, j)
  {
    var data' := WriteSlot(data, i, value);
    if j < i {
      assert 32 * (j + 1) <= 32 * i;
    } else if i < j {
      assert 32 * (i + 1) <= 32 * j;
      assert forall k :: 32 * (i + 1) <= k < BLOB_SIZE ==> data'[k] == data[k];
    }
  }

  lemma SlotsDetermine(a: Bytes, b: Bytes)
    requires |a| == BLOB_SIZE && |b| == BLOB_SIZE
    requires forall i :: 0 <= i < FIELD_ELEMENTS ==> Slot(a, i) == Slot(b, i)
    ensures a == b
  {
    forall k | 0 <= k < BLOB_SIZE ensures a[k] == b[k] {
      var i := k / 32;
      assert a[k] == Slot(a, i)[k - 32 * i] && b[k] == Slot(b, i)[k - 32 * i];
    }
  }

  // What a cache holds.

  /** Every element of the blob and its KZG proof are cached with their names, in the right sizes. */
  ghost predicate Holds(cache: Cache, commitment: Bytes) {
    forall i :: 0 <= i <= FIELD_ELEMENTS ==> HoldsElement(cache, commitment, i)
  }

  ghost predicate HoldsElement(cache: Cache, commitment: Bytes, i: nat) {
    && NameKey(commitment, i) in cache && |cache[NameKey(commitment, i)]| == 80
    && ElementKey(commitment, i) in cache && |cache[ElementKey(commitment, i)]| == ElementSize(i)
  }

  /** The first n slots of `blob` hold the first n cached elements. */
  ghost predicate FilledTo(cache: Cache, commitment: Bytes, blob: Bytes, n: nat) {
    && n <= FIELD_ELEMENTS && |blob| == BLOB_SIZE
    && forall i :: 0 <= i < n ==>
         HoldsElement(cache, commitment, i) && Slot(blob, i) == cache[ElementKey(commitment, i)]
  }

  /** `blob` is the blob whose elements the cache holds. */
  ghost predicate IsBlob(cache: Cache, commitment: Bytes, blob: Bytes) {
    Holds(cache, commitment) && FilledTo(cache, commitment, blob, FIELD_ELEMENTS)
  }

  lemma FilledNext(cache: Cache, cache': Cache, commitment: Bytes, blob: Bytes, n: nat)
    requires n < FIELD_ELEMENTS && FilledTo(cache, commitment, blob, n) && Keeps(cache, cache')
    requires HoldsElement(cache', commitment, n)
    ensures FilledTo(cache', commitment, WriteSlot(blob, n, cache'[ElementKey(commitment, n)]), n + 1)
  {
    var blob' := WriteSlot(blob, n, cache'[ElementKey(commitment, n)]);
    forall i | 0 <= i < n + 1
      ensures HoldsElement(cache', commitment, i) && Slot(blob', i) == cache'[ElementKey(commitment, i)]
    {
      SlotWritten(blob, n, cache'[ElementKey(commitment, n)], i);
      assert i < n ==> HoldsElement(cache, commitment, i);
    }
  }

  lemma FilledAll(cache: Cache, cache': Cache, commitment: Bytes, blob: Bytes)
    requires FilledTo(cache, commitment, blob, FIELD_ELEMENTS) && Keeps(cache, cache')
    requires HoldsElement(cache', commitment, FIELD_ELEMENTS)
    ensures IsBlob(cache', commitment, blob)
  {
    forall i | 0 <= i < FIELD_ELEMENTS
      ensures HoldsElement(cache', commitment, i) && Slot(blob, i) == cache'[ElementKey(commitment, i)]
    {
      assert HoldsElement(cache, commitment, i);
    }
  }

  // Recording.

  ghost predicate Keeps(cache: Cache, cache': Cache) {
    forall k :: k in cache ==> k in cache' && cache'[k] == cache[k]
  }

  /** A blob entry is an element `get_blob` reads, cached together with its name. */
  ghost predicate Shaped(cache: Cache, k: PreimageKey) {
    exists c: Bytes, i: nat :: |c| == 48 && i <= FIELD_ELEMENTS && k == ElementKey(c, i) && HoldsElement(cache, c, i)
  }

  ghost predicate BlobShaped(cache: Cache) {
    forall k :: k in cache && k.kind == Blob ==> Shaped(cache, k)
  }

  /** Caching anything but a blob element, or caching a blob element after its name, keeps the cache shaped. */
  lemma ShapedExtend(cache: Cache, k: PreimageKey, value: Bytes)
    requires BlobShaped(cache) && (k in cache ==> cache[k] == value)
    requires k.kind == Blob ==> Shaped(cache[k := value], k)
    ensures BlobShaped(cache[k := value])
  {
    var cache' := cache[k := value];
    forall x | x in cache' && x.kind == Blob ensures Shaped(cache', x) {
      if x != k {
        assert Shaped(cache, x);
        var c: Bytes, i: nat :|
          |c| == 48 && i <= FIELD_ELEMENTS && x == ElementKey(c, i) && HoldsElement(cache, c, i);
        assert HoldsElement(cache', c, i);
      }
    }
  }

  /** The reader has a value of this size for the key. */
  predicate HasSized(reader: Reader, key: PreimageKey, size: nat) {
    reader(key).Some? && |reader(key).value| == size
  }

  /** The reader has the name and the value of element i, in the right sizes. */
  predicate HasElement(reader: Reader, commitment: Bytes, i: nat) {
    HasSized(reader, NameKey(commitment, i), 80) && HasSized(reader, ElementKey(commitment, i), ElementSize(i))
  }

  /** The reader has the commitment of a blob, and every element and the KZG proof with their names. */
  ghost predicate HasBlob(reader: Reader, hash: Digest) {
    && HasSized(reader, PreimageKey(Sha256, hash), 48)
    && forall i :: 0 <= i <= FIELD_ELEMENTS ==> HasElement(reader, reader(PreimageKey(Sha256, hash)).value, i)
  }

  /** The slots of `blob` are what the reader answers for the elements. */
  ghost predicate ReaderBlob(reader: Reader, commitment: Bytes, blob: Bytes, n: nat) {
    && |blob| == BLOB_SIZE && n <= FIELD_ELEMENTS
    && forall i :: 0 <= i < n ==> reader(ElementKey(commitment, i)) == Some(Slot(blob, i))
  }

  /** A cache that agrees with the reader holds the reader's blob. */
  lemma FilledIsReaders(reader: Reader, cache: Cache, commitment: Bytes, blob: Bytes, n: nat)
    requires Faithful(cache, reader) && FilledTo(cache, commitment, blob, n)
    ensures ReaderBlob(reader, commitment, blob, n)
  {
    forall i | 0 <= i < n ensures reader(ElementKey(commitment, i)) == Some(Slot(blob, i)) {
      assert HoldsElement(cache, commitment, i);
    }
  }

  /** One element as `get_blob` reads it while recording: its name, then its value. */
  method RecordElement(store: StoreOracle, commitment: Bytes, i: nat) returns (r: Result<Bytes, Failure>)
    requires store.Valid() && BlobShaped(store.cache) && |commitment| == 48 && i <= FIELD_ELEMENTS
    modifies store
    ensures store.Valid() && BlobShaped(store.cache) && Keeps(old(store.cache), store.cache)
    ensures r.Ok? <==> HasElement(store.reader, commitment, i)
    ensures r.Ok? ==> HoldsElement(store.cache, commitment, i) && store.cache[ElementKey(commitment, i)] == r.value
    ensures r.Ok? ==> store.reader(ElementKey(commitment, i)) == Some(r.value)
  {
    var name := store.GetExact(NameKey(commitment, i), 80);
    if name.Err? {
      return name;
    }
    ghost var between := store.cache;
    ShapedExtend(old(store.cache), NameKey(commitment, i), name.value);
    r := store.GetExact(ElementKey(commitment, i), ElementSize(i));
    if r.Ok? {
      assert HoldsElement(store.cache, commitment, i);
      ShapedExtend(between, ElementKey(commitment, i), r.value);
    }
  }

  /**
   `get_blob` while recording succeeds exactly when the reader has everything it asks for, and returns
   the reader's blob. The blob is in the cache afterwards, with its names and its KZG proof, and all
   blob entries stay shaped, whatever the reader answers.
   */
  method RecordBlob(store: StoreOracle, hash: Digest) returns (r: Result<Bytes, Failure>)
    requires store.Valid() && BlobShaped(store.cache)
    modifies store
    ensures store.Valid() && BlobShaped(store.cache)
    ensures r.Ok? <==> HasBlob(store.reader, hash)
    ensures r.Ok? ==>
      ReaderBlob(store.reader, store.reader(PreimageKey(Sha256, hash)).value, r.value, FIELD_ELEMENTS)
    ensures r.Ok? ==> Readable(store.cache, hash) && IsBlob(store.cache, CommitmentOf(store.cache, hash), r.value)
  {
    var key := PreimageKey(Sha256, hash);
    ghost var before := store.cache;
    var c := store.GetExact(key, 48);
    if c.Err? {
      return c;
    }
    ShapedExtend(before, key, c.value);
    var blob := Zeros(BLOB_SIZE);
    for i := 0 to FIELD_ELEMENTS
      invariant store.Valid() && BlobShaped(store.cache)
      invariant key in store.cache && store.cache[key] == c.value
      invariant FilledTo(store.cache, c.value, blob, i)
      invariant forall j :: 0 <= j < i ==> HasElement(store.reader, c.value, j)
    {
      ghost var cache := store.cache;
      var element := RecordElement(store, c.value, i);
      if element.Err? {
        return element;
      }
      FilledNext(cache, store.cache, c.value, blob, i);
      blob := WriteSlot(blob, i, element.value);
    }
    ghost var cache := store.cache;
    var proof := RecordElement(store, c.value, FIELD_ELEMENTS);
    if proof.Err? {
      return proof;
    }
    FilledAll(cache, store.cache, c.value, blob);
    FilledIsReaders(store.reader, store.cache, c.value, blob, FIELD_ELEMENTS);
    return Ok(blob);
  }

  // Replaying.

  /** Everything `get_blob` asks for is in memory, in the sizes it asks for. */
  ghost predicate Readable(cache: Cache, hash: Digest) {
    && PreimageKey(Sha256, hash) in cache && |CommitmentOf(cache, hash)| == 48
    && Holds(cache, CommitmentOf(cache, hash))
  }

  ghost function CommitmentOf(cache: Cache, hash: Digest): Bytes
    requires PreimageKey(Sha256, hash) in cache
  {
    cache[PreimageKey(Sha256, hash)]
  }

  method ReplayElement(memory: InMemoryOracle, commitment: Bytes, i: nat) returns (r: Result<Bytes, Failure>)
    ensures r.Ok? <==> HoldsElement(memory.cache, commitment, i)
    ensures r.Ok? ==> r.value == memory.cache[ElementKey(commitment, i)]
  {
    var name := memory.GetExact(NameKey(commitment, i), 80);
    if name.Err? {
      return name;
    }
    r := memory.GetExact(ElementKey(commitment, i), ElementSize(i));
  }

  /** `get_blob` from memory succeeds exactly on a readable blob, and returns it. */
  method GetBlob(memory: InMemoryOracle, hash: Digest) returns (r: Result<Bytes, Failure>)
    ensures r.Ok? <==> Readable(memory.cache, hash)
    ensures r.Ok? ==> IsBlob(memory.cache, CommitmentOf(memory.cache, hash), r.value)
  {
    var c := memory.GetExact(PreimageKey(Sha256, hash), 48);
    if c.Err? {
      return c;
    }
    var blob := Zeros(BLOB_SIZE);
    for i := 0 to FIELD_ELEMENTS
      invariant FilledTo(memory.cache, c.value, blob, i)
    {
      var element := ReplayElement(memory, c.value, i);
      if element.Err? {
        return element;
      }
      FilledNext(memory.cache, memory.cache, c.value, blob, i);
      blob := WriteSlot(blob, i, element.value);
    }
    var proof := ReplayElement(memory, c.value, FIELD_ELEMENTS);
    if proof.Err? {
      return proof;
    }
    FilledAll(memory.cache, memory.cache, c.value, blob);
    return Ok(blob);
  }

  // Verifying.

  /** What has been gathered for one commitment. */
  datatype Gathered = Gathered(data: Bytes, proof: Bytes)

  type Gathering = map<Bytes, Gathered>

  function EntryOf(blobs: Gathering, commitment: Bytes): Gathered {
    if commitment in blobs then blobs[commitment] else Gathered(Zeros(BLOB_SIZE), Zeros(48))
  }

  ghost predicate Sized(blobs: Gathering) {
    forall c :: c in blobs ==> |blobs[c].data| == BLOB_SIZE
  }

  /** The error of `verify_preimage`, if any; precompile and blob keys make it panic. */
  function VerifyPreimage(key: PreimageKey, value: Bytes): Option<Failure> {
    match key.kind
    case Keccak256 => if key.digest == Keccak(value) then None else Some(InvalidKey)
    case Sha256 => if key.digest == Sha(value) then None else Some(InvalidKey)
    case Precompile => Some(Panic)
    case Blob => Some(Panic)
    case Local => None
    case GlobalGeneric => None
  }

  /** Every Keccak or SHA-256 key among `keys` is the hash of its value, and none is a precompile key. */
  ghost predicate PreimagesHold(cache: Cache, keys: set<PreimageKey>) {
    forall k :: k in keys && k in cache ==>
      && (k.kind == Keccak256 ==> k.digest == Keccak(cache[k]))
      && (k.kind == Sha256 ==> k.digest == Sha(cache[k]))
      && k.kind != Precompile
  }

  /** Adds element i of a blob. A slot that already holds data stays as it is, and a larger index is ignored. */
  function AddElement(g: Gathered, i: nat, value: Bytes): Result<Gathered, Failure>
    requires |g.data| == BLOB_SIZE
  {
    if i == FIELD_ELEMENTS then
      if |value| == 48 then Ok(g.(proof := value)) else Err(Panic)
    else if i < FIELD_ELEMENTS && Slot(g.data, i) == Zeros(32) then
      if |value| == 32 then Ok(g.(data := WriteSlot(g.data, i, value))) else Err(Panic)
    else Ok(g)
  }

  /** One blob entry of the loop over the cache. */
  function GatherEntry(cache: Cache, blobs: Gathering, key: PreimageKey): (r: Result<Gathering, Failure>)
    requires key in cache && Sized(blobs)
    ensures r.Ok? ==> Sized(r.value)
  {
    var nameKey := NameOf(key);
    if nameKey !in cache then Ok(blobs)
    else if |cache[nameKey]| != 80 then Err(Panic)
    else
      var name := cache[nameKey];
      match AddElement(EntryOf(blobs, name[..48]), FromBigEndian(name[72..]), cache[key])
      case Err(e) => Err(e)
      case Ok(g) => Ok(blobs[name[..48] := g])
  }

  /** A blob entry stops the loop exactly when its name has another length or its value misfits. */
  lemma GatherFailsIff(cache: Cache, blobs: Gathering, key: PreimageKey)
    requires key in cache && Sized(blobs)
    ensures GatherEntry(cache, blobs, key).Err? <==>
      NameOf(key) in cache && (|cache[NameOf(key)]| != 80 || Misfits(cache, blobs, key))
  {
  }

  /** The value of a named entry has the wrong size for the KZG proof or for the slot it would fill. */
  ghost predicate Misfits(cache: Cache, blobs: Gathering, key: PreimageKey)
    requires key in cache && NameOf(key) in cache && |cache[NameOf(key)]| == 80 && Sized(blobs)
  {
    var name := cache[NameOf(key)];
    var i := FromBigEndian(name[72..]);
    |cache[key]| != ElementSize(i)
    && i <= FIELD_ELEMENTS
    && (i < FIELD_ELEMENTS ==> Slot(EntryOf(blobs, name[..48]).data, i) == Zeros(32))
  }

  /** Data that has been gathered is never overwritten. */
  lemma NeverOverwritten(cache: Cache, blobs: Gathering, key: PreimageKey, c: Bytes, i: nat)
    requires key in cache && Sized(blobs) && GatherEntry(cache, blobs, key).Ok?
    requires c in blobs && i < FIELD_ELEMENTS && Slot(blobs[c].data, i) != Zeros(32)
    ensures
      var blobs' := GatherEntry(cache, blobs, key).value;
      c in blobs' && Slot(blobs'[c].data, i) == Slot(blobs[c].data, i)
  {
    hide FromBigEndian, Slot, WriteSlot;
    if NameOf(key) in cache && cache[NameOf(key)][..48] == c {
      var j := FromBigEndian(cache[NameOf(key)][72..]);
      if j < FIELD_ELEMENTS && |cache[key]| == 32 {
        SlotWritten(blobs[c].data, j, cache[key], i);
      }
    }
  }

  /** Every cached name of a blob entry is plain: a condition on the cache alone, whoever supplied it. */
  ghost predicate PlainNames(cache: Cache) {
    forall k :: k in cache && k.kind == Blob && NameOf(k) in cache ==> PlainName(cache[NameOf(k)])
  }

  /** Element i has been visited, and its name is there. */
  ghost predicate Visited(cache: Cache, seen: set<PreimageKey>, c: Bytes, i: nat) {
    ElementKey(c, i) in seen && ElementKey(c, i) in cache && NameKey(c, i) in cache
  }

  /** What the visited keys contribute to a slot, and to a KZG proof. */
  ghost function Contribution(cache: Cache, seen: set<PreimageKey>, c: Bytes, i: nat): Bytes {
    if Visited(cache, seen, c, i) then cache[ElementKey(c, i)] else Zeros(ElementSize(i))
  }

  /** What has been gathered for a commitment is what the visited keys contribute. */
  ghost predicate Reflects(cache: Cache, seen: set<PreimageKey>, g: Gathered, c: Bytes) {
    && |g.data| == BLOB_SIZE
    && (forall i :: 0 <= i < FIELD_ELEMENTS ==> Slot(g.data, i) == Contribution(cache, seen, c, i))
    && g.proof == Contribution(cache, seen, c, FIELD_ELEMENTS)
  }

  /** And a commitment is gathered once one of its elements has been visited. */
  ghost predicate AllReflect(cache: Cache, seen: set<PreimageKey>, blobs: Gathering) {
    && (forall c: Bytes :: |c| == 48 ==> Reflects(cache, seen, EntryOf(blobs, c), c))
    && (forall c: Bytes, i: nat :: |c| == 48 && i <= FIELD_ELEMENTS && Visited(cache, seen, c, i) ==> c in blobs)
  }

  lemma ReflectsOther(cache: Cache, seen: set<PreimageKey>, g: Gathered, c: Bytes, d: Bytes, j: nat)
    requires |c| == 48 && |d| == 48 && j <= FIELD_ELEMENTS && c != d && Reflects(cache, seen, g, c)
    ensures Reflects(cache, seen + {ElementKey(d, j)}, g, c)
  {
    forall i: nat | i <= FIELD_ELEMENTS
      ensures Contribution(cache, seen + {ElementKey(d, j)}, c, i) == Contribution(cache, seen, c, i)
    {
      NameParts(c, i);
      NameParts(d, j);
    }
  }

  /** Adding an unvisited element works exactly when it has the right size, and adds just that element. */
  lemma ReflectsAdded(cache: Cache, seen: set<PreimageKey>, g: Gathered, c: Bytes, i: nat)
    requires |c| == 48 && i <= FIELD_ELEMENTS && Reflects(cache, seen, g, c)
    requires ElementKey(c, i) !in seen && ElementKey(c, i) in cache && NameKey(c, i) in cache
    ensures
      var r := AddElement(g, i, cache[ElementKey(c, i)]);
      && (r.Ok? <==> |cache[ElementKey(c, i)]| == ElementSize(i))
      && (r.Ok? ==> Reflects(cache, seen + {ElementKey(c, i)}, r.value, c))
  {
    var value := cache[ElementKey(c, i)];
    assert i < FIELD_ELEMENTS ==> Slot(g.data, i) == Contribution(cache, seen, c, i) == Zeros(32);
    if |value| == ElementSize(i) {
      var g' := AddElement(g, i, value).value;
      forall j: nat | j <= FIELD_ELEMENTS
        ensures Contribution(cache, seen + {ElementKey(c, i)}, c, j)
             == if j == i then value else Contribution(cache, seen, c, j)
        ensures j < FIELD_ELEMENTS ==> Slot(g'.data, j) == if j == i then value else Slot(g.data, j)
      {
        NameParts(c, i);
        NameParts(c, j);
        if i < FIELD_ELEMENTS && j < FIELD_ELEMENTS {
          SlotWritten(g.data, i, value, j);
        }
      }
    }
  }

  lemma NothingSeen(cache: Cache)
    ensures AllReflect(cache, {}, map[])
  {
    assert forall i :: 0 <= i < FIELD_ELEMENTS ==> Slot(Zeros(BLOB_SIZE), i) == Zeros(32);
  }

  /** Visiting a blob entry with a plain name adds exactly the element it names. */
  lemma GatherReflects(cache: Cache, seen: set<PreimageKey>, blobs: Gathering, key: PreimageKey)
    requires Sized(blobs) && AllReflect(cache, seen, blobs) && PreimagesHold(cache, cache.Keys) && PlainNames(cache)
    requires key in cache && key !in seen && key.kind == Blob
    ensures
      var r := GatherEntry(cache, blobs, key);
      && (r.Ok? ==> AllReflect(cache, seen + {key}, r.value))
      && (Shaped(cache, key) ==> r.Ok?)
  {
    hide Reflects, AddElement, FromBigEndian, ToBigEndian, Slot, Shaped, AllReflect;
    if NameOf(key) !in cache {
      ShapedNamed(cache, key);
      UnnamedReflects(cache, seen, blobs, key);
    } else {
      var name := cache[NameOf(key)];
      assert NameOf(key).digest == Keccak(name);
      ShapedNamed(cache, key);
      if |name| == 80 {
        PlainNameIs(name);
        ElementReflects(cache, seen, blobs, name[..48], FromBigEndian(name[72..]));
      }
    }
  }

  /** What a recorded blob entry has: its name, of full length, and a value of the size its index asks for. */
  lemma ShapedNamed(cache: Cache, key: PreimageKey)
    ensures Shaped(cache, key) ==> NameOf(key) in cache && |cache[NameOf(key)]| == 80 && key in cache
    ensures Shaped(cache, key) && key.digest == Keccak(cache[NameOf(key)]) ==>
              |cache[key]| == ElementSize(FromBigEndian(cache[NameOf(key)][72..]))
              && PlainName(cache[NameOf(key)])
  {
    hide ToBigEndian, FromBigEndian;
    if Shaped(cache, key) {
      var c: Bytes, i: nat :|
        |c| == 48 && i <= FIELD_ELEMENTS && key == ElementKey(c, i) && HoldsElement(cache, c, i);
      assert NameOf(key) == NameKey(c, i);
      NameParts(c, i);
      assert ElementName(c, i)[48..72] == Zeros(24);
    }
  }

  /** A cache recorded by `get_blob` whose names pass their check has plain names. */
  lemma ShapedPlain(cache: Cache)
    requires BlobShaped(cache) && PreimagesHold(cache, cache.Keys)
    ensures PlainNames(cache)
  {
    hide PlainName, Shaped;
    forall k | k in cache && k.kind == Blob && NameOf(k) in cache ensures PlainName(cache[NameOf(k)]) {
      assert NameOf(k).digest == Keccak(cache[NameOf(k)]);
      ShapedNamed(cache, k);
    }
  }

  lemma ElementReflects(cache: Cache, seen: set<PreimageKey>, blobs: Gathering, c: Bytes, i: nat)
    requires Sized(blobs) && AllReflect(cache, seen, blobs) && |c| == 48 && i <= FIELD_ELEMENTS
    requires ElementKey(c, i) in cache && ElementKey(c, i) !in seen
    requires NameKey(c, i) in cache && cache[NameKey(c, i)] == ElementName(c, i)
    ensures
      var r := GatherEntry(cache, blobs, ElementKey(c, i));
      && (r.Ok? <==> |cache[ElementKey(c, i)]| == ElementSize(i))
      && (r.Ok? ==> AllReflect(cache, seen + {ElementKey(c, i)}, r.value))
  {
    hide Reflects, AddElement, FromBigEndian, ToBigEndian, Slot;
    var key := ElementKey(c, i);
    NameParts(c, i);
    ReflectsAdded(cache, seen, EntryOf(blobs, c), c, i);
    var r := GatherEntry(cache, blobs, key);
    if r.Ok? {
      forall d: Bytes | |d| == 48 ensures Reflects(cache, seen + {key}, EntryOf(r.value, d), d) {
        if d != c {
          ReflectsOther(cache, seen, EntryOf(blobs, d), d, c, i);
        }
      }
      forall d: Bytes, j: nat | |d| == 48 && j <= FIELD_ELEMENTS && Visited(cache, seen + {key}, d, j)
        ensures d in r.value
      {
        if ElementKey(d, j) == key {
          NameParts(d, j);
        } else {
          assert Visited(cache, seen, d, j);
        }
      }
    }
  }

  /** Visiting a blob entry whose name is missing changes nothing that is gathered. */
  lemma UnnamedReflects(cache: Cache, seen: set<PreimageKey>, blobs: Gathering, key: PreimageKey)
    requires AllReflect(cache, seen, blobs) && key.kind == Blob && NameOf(key) !in cache
    ensures AllReflect(cache, seen + {key}, blobs)
  {
    hide ToBigEndian, Slot;
    forall c: Bytes, i: nat ensures Visited(cache, seen + {key}, c, i) <==> Visited(cache, seen, c, i) {
      assert ElementKey(c, i) == key ==> NameKey(c, i) == NameOf(key);
    }
    forall c: Bytes | |c| == 48 ensures Reflects(cache, seen + {key}, EntryOf(blobs, c), c) {
      assert forall i: nat :: Contribution(cache, seen + {key}, c, i) == Contribution(cache, seen, c, i);
    }
  }

  /** Visiting any other entry changes nothing that is gathered. */
  lemma SkipReflects(cache: Cache, seen: set<PreimageKey>, blobs: Gathering, key: PreimageKey)
    requires AllReflect(cache, seen, blobs) && key.kind != Blob
    ensures AllReflect(cache, seen + {key}, blobs)
  {
    assert forall c: Bytes, i: nat :: Visited(cache, seen + {key}, c, i) <==> Visited(cache, seen, c, i);
    forall c: Bytes | |c| == 48 ensures Reflects(cache, seen + {key}, EntryOf(blobs, c), c) {
      assert forall i: nat :: Contribution(cache, seen + {key}, c, i) == Contribution(cache, seen, c, i);
    }
  }

  /**
   `verify` up to the KZG batch check, visiting the entries in any order. On any cache it succeeds only
   if every entry that is not a blob element passes its hash check, and if the names of the blob
   entries are plain, what it then hands to the batch check is what the cache holds. On a cache that
   `get_blob` recorded the names are plain and those hash checks are all it takes to succeed.
   */
  method Verify(memory: InMemoryOracle) returns (r: Result<Gathering, Failure>)
    ensures r.Ok? ==> PreimagesHold(memory.cache, memory.cache.Keys)
    ensures r.Ok? && PlainNames(memory.cache) ==> AllReflect(memory.cache, memory.cache.Keys, r.value)
    ensures BlobShaped(memory.cache) && PreimagesHold(memory.cache, memory.cache.Keys) ==>
              r.Ok? && PlainNames(memory.cache)
  {
    hide AllReflect, AddElement, EntryOf, Shaped, PlainNames;
    var cache := memory.cache;
    var blobs: Gathering := map[];
    var keys := cache.Keys;
    ghost var seen: set<PreimageKey> := {};
    NothingSeen(cache);
    if BlobShaped(cache) && PreimagesHold(cache, cache.Keys) {
      ShapedPlain(cache);
    }
    while keys != {}
      invariant keys <= cache.Keys && seen == cache.Keys - keys && Sized(blobs)
      invariant PreimagesHold(cache, seen)
      invariant PlainNames(cache) && PreimagesHold(cache, cache.Keys) ==> AllReflect(cache, seen, blobs)
      decreases keys
    {
      var key :| key in keys;
      keys := keys - {key};
      if key.kind == Blob {
        var next := GatherEntry(cache, blobs, key);
        if PlainNames(cache) && PreimagesHold(cache, cache.Keys) {
          GatherReflects(cache, seen, blobs, key);
        }
        if next.Err? {
          return next;
        }
        blobs := next.value;
      } else {
        match VerifyPreimage(key, cache[key]) {
          case Some(e) => return Err(e);
          case None =>
        }
        if PlainNames(cache) && PreimagesHold(cache, cache.Keys) {
          SkipReflects(cache, seen, blobs, key);
        }
      }
      seen := seen + {key};
    }
    assert seen == cache.Keys;
    return Ok(blobs);
  }

  /**
   Any cache with plain names, whoever supplied it: if verification passes, then whatever blob is read
   afterwards is, with its KZG proof, exactly what was handed to the batch check.
   */
  method VerifyThenRead(memory: InMemoryOracle, hash: Digest)
    returns (checked: Result<Gathering, Failure>, read: Result<Bytes, Failure>)
    ensures read.Ok? <==> Readable(memory.cache, hash)
    ensures read.Ok? ==> HoldsElement(memory.cache, CommitmentOf(memory.cache, hash), FIELD_ELEMENTS)
    ensures checked.Ok? && read.Ok? ==> hash == Sha(CommitmentOf(memory.cache, hash))
    ensures checked.Ok? && read.Ok? && PlainNames(memory.cache) ==>
              var c := CommitmentOf(memory.cache, hash);
              c in checked.value
              && checked.value[c] == Gathered(read.value, memory.cache[ElementKey(c, FIELD_ELEMENTS)])
  {
    hide AllReflect, PlainNames, IsBlob, BlobShaped;
    checked := Verify(memory);
    read := GetBlob(memory, hash);
    assert read.Ok? ==> PreimageKey(Sha256, hash) in memory.cache.Keys;
    if checked.Ok? && read.Ok? && PlainNames(memory.cache) {
      GatheredIsBlob(memory.cache, checked.value, CommitmentOf(memory.cache, hash), read.value);
    }
  }

  /** What `verify` gathered for a commitment is the blob and the proof that `get_blob` reads. */
  lemma GatheredIsBlob(cache: Cache, blobs: Gathering, c: Bytes, blob: Bytes)
    requires AllReflect(cache, cache.Keys, blobs) && |c| == 48 && IsBlob(cache, c, blob)
    ensures HoldsElement(cache, c, FIELD_ELEMENTS)
    ensures c in blobs && blobs[c] == Gathered(blob, cache[ElementKey(c, FIELD_ELEMENTS)])
  {
    assert HoldsElement(cache, c, FIELD_ELEMENTS);
    assert c in blobs && Reflects(cache, cache.Keys, EntryOf(blobs, c), c);
    forall i | 0 <= i < FIELD_ELEMENTS ensures Slot(blobs[c].data, i) == Slot(blob, i) {
      assert HoldsElement(cache, c, i);
    }
    SlotsDetermine(blobs[c].data, blob);
  }

  /**
   The whole path of a blob: recorded on the host, copied into memory, verified, and read again.
   Recording succeeds exactly when the reader has the blob, and verification exactly when the
   recorded entries pass their hash checks.
   The second reading gives the recorded blob, and if verification passes, exactly that blob and
   its proof were handed to the batch check.
   */
  method RecordVerifyReplay(store: StoreOracle, hash: Digest)
    returns (recorded: Result<Bytes, Failure>, checked: Result<Gathering, Failure>, replayed: Result<Bytes, Failure>)
    requires store.Valid() && BlobShaped(store.cache)
    modifies store
    ensures store.Valid() && BlobShaped(store.cache)
    ensures recorded.Ok? <==> HasBlob(store.reader, hash)
    ensures checked.Ok? <==> PreimagesHold(store.cache, store.cache.Keys)
    ensures recorded.Ok? ==> replayed == recorded && Readable(store.cache, hash)
    ensures recorded.Ok? ==> HoldsElement(store.cache, CommitmentOf(store.cache, hash), FIELD_ELEMENTS)
    ensures recorded.Ok? && checked.Ok? ==>
              var c := CommitmentOf(store.cache, hash);
              c in checked.value
              && checked.value[c] == Gathered(recorded.value, store.cache[ElementKey(c, FIELD_ELEMENTS)])
  {
    recorded := RecordBlob(store, hash);
    var memory := new InMemoryOracle.PopulateFromStore(store);
    checked := Verify(memory);
    replayed := GetBlob(memory, hash);
    if recorded.Ok? {
      ghost var c := CommitmentOf(store.cache, hash);
      SlotsAgree(store.cache, c, recorded.value, replayed.value);
      if checked.Ok? {
        GatheredIsBlob(store.cache, checked.value, c, recorded.value);
      }
    }
  }

  lemma SlotsAgree(cache: Cache, c: Bytes, a: Bytes, b: Bytes)
    requires IsBlob(cache, c, a) && IsBlob(cache, c, b)
    ensures a == b
  {
    SlotsDetermine(a, b);
  }
}
