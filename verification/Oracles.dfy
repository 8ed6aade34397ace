/** Recording a witness from a live preimage reader and replaying it from memory. */
module Oracles {
  import opened Prelude
  import Requests

  type Byte = Requests.Byte

  type Bytes = seq<Byte>

  /** The digest part of a key. Hashes are modelled symbolically, so hashing is injective. */
  datatype Digest = Keccak(preimage: Bytes) | Sha(preimage: Bytes) | Named(tag: Bytes)

  datatype KeyKind = Local | Keccak256 | GlobalGeneric | Sha256 | Blob | Precompile

  datatype PreimageKey = PreimageKey(kind: KeyKind, digest: Digest)

  type Cache = map<PreimageKey, Bytes>

  datatype Failure = ReaderError | KeyNotFound | InvalidKey | Panic

  /** A deterministic reader: the value of a key, or an error. */
  type Reader = PreimageKey -> Option<Bytes>

  datatype Query = Get(key: PreimageKey) | GetExact(key: PreimageKey, size: nat)

  /** The live reader's own answer. An exact read fails when the value has another length. */
  function Live(reader: Reader, q: Query): Result<Bytes, Failure> {
    match reader(q.key)
    case None => Err(ReaderError)
    case Some(value) => if q.GetExact? && |value| != q.size then Err(ReaderError) else Ok(value)
  }

  /** The in-memory oracle's answer. */
  function Replay(cache: Cache, q: Query): Result<Bytes, Failure> {
    if q.key !in cache then Err(KeyNotFound)
    else if q.GetExact? && |cache[q.key]| != q.size then Err(Panic)
    else Ok(cache[q.key])
  }

  /** The recording oracle's answer: from its cache if it can, else from the reader. */
  function Store(reader: Reader, cache: Cache, q: Query): Result<Bytes, Failure> {
    if q.key in cache then Replay(cache, q) else Live(reader, q)
  }

  function Extend(cache: Cache, key: PreimageKey, r: Result<Bytes, Failure>): Cache {
    match r
    case Ok(value) => cache[key := value]
    case Err(_) => cache
  }

  /** Everything cached is what the reader says. */
  ghost predicate Faithful(cache: Cache, reader: Reader) {
    forall k :: k in cache ==> reader(k) == Some(cache[k])
  }

  class StoreOracle {
    var cache: Cache
    const reader: Reader

    ghost predicate Valid()
      reads this
    {
      Faithful(cache, reader)
    }

    constructor (reader: Reader)
      ensures Valid() && cache == map[] && this.reader == reader
    {
      this.reader := reader;
      this.cache := map[];
    }

    /** A read answers as the live reader does, and what it answers is cached. */
    method Get(key: PreimageKey) returns (r: Result<Bytes, Failure>)
      requires Valid()
      modifies this
      ensures Valid() && cache == Extend(old(cache), key, r)
      ensures r == Live(reader, Query.Get(key))
    {
      if key in cache {
        return Ok(cache[key]);
      }
      match reader(key) {
        case None => return Err(ReaderError);
        case Some(value) =>
          cache := cache[key := value];
          return Ok(value);
      }
    }

    /**
     An exact read answers as the live reader does, except that a cached value of another length
     than the buffer makes the copy panic.
     */
    method GetExact(key: PreimageKey, size: nat) returns (r: Result<Bytes, Failure>)
      requires Valid()
      modifies this
      ensures Valid() && cache == Extend(old(cache), key, r)
      ensures r == Err(Panic) <==> key in old(cache) && |old(cache)[key]| != size
      ensures r != Err(Panic) ==> r == Live(reader, Query.GetExact(key, size))
    {
      if key in cache {
        if |cache[key]| != size {
          return Err(Panic);
        }
        return Ok(cache[key]);
      }
      match reader(key) {
        case None => return Err(ReaderError);
        case Some(value) =>
          if |value| != size {
            return Err(ReaderError);
          }
          cache := cache[key := value];
          return Ok(value);
      }
    }

    method Flush()
      modifies this
      ensures Valid() && cache == map[]
    {
      cache := map[];
    }
  }

  class InMemoryOracle {
    var cache: Cache

    /** Copies a recorded cache entry by entry. */
    constructor PopulateFromStore(store: StoreOracle)
      ensures cache == store.cache
    {
      var copy: Cache := map[];
      var keys := store.cache.Keys;
      while keys != {}
        invariant keys <= store.cache.Keys
        invariant copy == map k | k in store.cache && k !in keys :: store.cache[k]
        decreases keys
      {
        var key :| key in keys;
        copy := copy[key := store.cache[key]];
        keys := keys - {key};
      }
      cache := copy;
    }

    method Get(key: PreimageKey) returns (r: Result<Bytes, Failure>)
      ensures r == Replay(cache, Query.Get(key))
    {
      return if key in cache then Ok(cache[key]) else Err(KeyNotFound);
    }

    method GetExact(key: PreimageKey, size: nat) returns (r: Result<Bytes, Failure>)
      ensures r == Replay(cache, Query.GetExact(key, size))
    {
      var value := Get(key);
      if value.Err? {
        return value;
      }
      return if |value.value| == size then value else Err(Panic);
    }
  }

  // Whole recordings.

  /** The cache after a sequence of queries. */
  ghost function Recorded(reader: Reader, cache: Cache, queries: seq<Query>): Cache {
    if queries == [] then cache
    else
      var before := Recorded(reader, cache, queries[..|queries| - 1]);
      var q := queries[|queries| - 1];
      Extend(before, q.key, Store(reader, before, q))
  }

  /** The answer the i-th query got while recording. */
  ghost function AnswerAt(reader: Reader, queries: seq<Query>, i: nat): Result<Bytes, Failure>
    requires i < |queries|
  {
    Store(reader, Recorded(reader, map[], queries[..i]), queries[i])
  }

  lemma {:induction false} RecordedFaithful(reader: Reader, queries: seq<Query>)
    ensures Faithful(Recorded(reader, map[], queries), reader)
  {
    if queries != [] {
      RecordedFaithful(reader, queries[..|queries| - 1]);
    }
  }

  /** A recording only grows. */
  lemma {:induction false} RecordedGrows(reader: Reader, queries: seq<Query>, i: nat)
    requires i <= |queries|
    ensures
      var early, late := Recorded(reader, map[], queries[..i]), Recorded(reader, map[], queries);
      forall k :: k in early ==> k in late && late[k] == early[k]
    decreases |queries|
  {
    if i == |queries| {
      assert queries[..i] == queries;
    } else {
      var init := queries[..|queries| - 1];
      RecordedGrows(reader, init, i);
      assert init[..i] == queries[..i];
      RecordedFaithful(reader, init);
    }
  }

  /**
   In a recording without flushes against a deterministic reader, every query that was answered
   is answered from memory exactly as it was, which is as the reader itself answers; and a plain
   read that failed fails again.
   */
  lemma ReplayExact(reader: Reader, queries: seq<Query>, i: nat)
    requires i < |queries|
    ensures
      var q, answer := queries[i], AnswerAt(reader, queries, i);
      var memory := Recorded(reader, map[], queries);
      && (answer.Ok? ==> Replay(memory, q) == answer == Live(reader, q))
      && (q.Get? && answer.Err? ==> Replay(memory, q) == Err(KeyNotFound) && Live(reader, q).Err?)
  {
    RecordedFaithful(reader, queries[..i]);
    RecordedFaithful(reader, queries);
    RecordedGrows(reader, queries, i + 1);
    assert queries[..i + 1][..i] == queries[..i];
  }

  method AskStore(store: StoreOracle, q: Query) returns (r: Result<Bytes, Failure>)
    requires store.Valid()
    modifies store
    ensures store.Valid() && r == Store(store.reader, old(store.cache), q)
    ensures store.cache == Extend(old(store.cache), q.key, r)
  {
    match q {
      case Get(key) => r := store.Get(key);
      case GetExact(key, size) => r := store.GetExact(key, size);
    }
  }

  method AskMemory(memory: InMemoryOracle, q: Query) returns (r: Result<Bytes, Failure>)
    ensures r == Replay(memory.cache, q)
  {
    match q {
      case Get(key) => r := memory.Get(key);
      case GetExact(key, size) => r := memory.GetExact(key, size);
    }
  }

  /**
   Puts queries to a recording oracle, copies what it recorded, and puts the same queries to the copy.
   Whatever was asked before the last flush makes no difference.
   */
  method RecordThenReplay(reader: Reader, earlier: seq<Query>, queries: seq<Query>)
    returns (recorded: seq<Result<Bytes, Failure>>, replayed: seq<Result<Bytes, Failure>>)
    ensures |recorded| == |replayed| == |queries|
    ensures forall i :: 0 <= i < |queries| && recorded[i].Ok? ==> replayed[i] == recorded[i] == Live(reader, queries[i])
    ensures forall i :: 0 <= i < |queries| && queries[i].Get? ==> (replayed[i].Ok? <==> Live(reader, queries[i]).Ok?)
  {
    hide Live, Replay, Store, Extend;
    var store := new StoreOracle(reader);
    for k := 0 to |earlier|
      invariant store.Valid() && store.reader == reader
    {
      var r := AskStore(store, earlier[k]);
    }
    store.Flush();
    recorded := [];
    for k := 0 to |queries|
      invariant store.Valid() && store.reader == reader && store.cache == Recorded(reader, map[], queries[..k])
      invariant |recorded| == k && forall i :: 0 <= i < k ==> recorded[i] == AnswerAt(reader, queries, i)
    {
      assert queries[..k + 1][..k] == queries[..k];
      var r := AskStore(store, queries[k]);
      recorded := recorded + [r];
    }
    assert queries[..|queries|] == queries;
    var memory := new InMemoryOracle.PopulateFromStore(store);
    replayed := [];
    for k := 0 to |queries|
      invariant memory.cache == Recorded(reader, map[], queries)
      invariant |replayed| == k && forall i :: 0 <= i < k ==> replayed[i] == Replay(memory.cache, queries[i])
    {
      var r := AskMemory(memory, queries[k]);
      replayed := replayed + [r];
    }
    forall i | 0 <= i < |queries|
      ensures recorded[i].Ok? ==> replayed[i] == recorded[i] == Live(reader, queries[i])
      ensures queries[i].Get? ==> (replayed[i].Ok? <==> Live(reader, queries[i]).Ok?)
    {
      ReplayExact(reader, queries, i);
    }
  }
}
