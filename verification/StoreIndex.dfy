/** The record store: the writer that fills it, and the reader with its key filter and its cache of
    decoded records (src/dict/store.cpp). */
module StoreIndex {
  import opened Basics
  import opened KeyFilter

  type Payload = seq<int>

  /** How records become payloads and back, and the digest that tells payloads apart. */
  datatype Codec<!R> = Codec(encode: R -> Payload, decode: Payload -> Option<R>, digest: Payload -> int)

  /** Decoding undoes encoding, no payload is empty, and digests do not collide. */
  ghost predicate CodecOk<R(!new)>(codec: Codec<R>) {
    && (forall r :: codec.decode(codec.encode(r)) == Some(r))
    && (forall r :: codec.encode(r) != [])
    && (forall p, q :: codec.digest(p) == codec.digest(q) ==> p == q)
  }

  /** The tables of a finished store with its meta rows, and the sidecar beside it when there is one. */
  datatype StoreFile = StoreFile(records: map<nat, Payload>, searchKeys: set<(Text, nat)>, sidecar: Option<Sidecar>,
                                 recordCount: nat, keyCount: nat, maxKeyLength: nat)

  /** The tables hold exactly the registered pairs of a key and a record, one row per distinct record. */
  ghost predicate TablesHold<R(!new)>(codec: Codec<R>, records: map<nat, Payload>, searchKeys: set<(Text, nat)>,
                                      registered: iset<(Text, R)>)
  {
    && (forall id, other :: id in records && other in records && records[id] == records[other] ==> id == other)
    && (forall id :: id in records ==> exists r :: records[id] == codec.encode(r))
    && (forall row :: row in searchKeys ==> row.0 != [] && row.1 in records)
    && (forall key, r :: (key, r) in registered <==>
          exists id :: id in records && records[id] == codec.encode(r) && (key, id) in searchKeys)
  }

  /** The key filter passes every key of the table. */
  ghost predicate FilterCovers(keyHash: KeyHash, sidecar: Sidecar, searchKeys: set<(Text, nat)>) {
    && Increasing(sidecar.hashes)
    && forall row :: row in searchKeys ==> keyHash(row.0) in sidecar.hashes && |row.0| <= sidecar.maxKeyLength
  }

  ghost predicate FileHolds<R(!new)>(codec: Codec<R>, keyHash: KeyHash, file: StoreFile, registered: iset<(Text, R)>) {
    && TablesHold(codec, file.records, file.searchKeys, registered)
    && (file.sidecar.Some? ==> FilterCovers(keyHash, file.sidecar.value, file.searchKeys))
  }

  /** The hashes of the keys of a table. */
  ghost function KeyHashes(keyHash: KeyHash, searchKeys: set<(Text, nat)>): set<Hash> {
    set row | row in searchKeys :: keyHash(row.0)
  }

  /** The longest key of a table has this length. */
  ghost predicate IsLongestKey(length: nat, searchKeys: set<(Text, nat)>) {
    && (forall row :: row in searchKeys ==> |row.0| <= length)
    && (length > 0 ==> exists row :: row in searchKeys && |row.0| == length)
  }

  /** The meta rows tell how many records and how many different key hashes there are and how long the longest
      key is, and the sidecar has the hashes of the keys and no others. */
  ghost predicate MetaHolds(keyHash: KeyHash, file: StoreFile) {
    && file.recordCount == |file.records|
    && file.keyCount == |KeyHashes(keyHash, file.searchKeys)|
    && IsLongestKey(file.maxKeyLength, file.searchKeys)
    && (file.sidecar.Some? ==>
          forall h :: h in file.sidecar.value.hashes <==> h in KeyHashes(keyHash, file.searchKeys))
  }

  lemma {:induction false} CountIncreasing(s: seq<Hash>, hashes: set<Hash>)
    requires Increasing(s) && forall h :: h in s <==> h in hashes
    ensures |hashes| == |s|
  {
    if s == [] {
      assert hashes == {};
    } else {
      var front, last := Front(s), Last(s);
      assert s == front + [last];
      assert forall h :: h in front <==> h in hashes - {last};
      CountIncreasing(front, hashes - {last});
    }
  }

  // ---------------------------------------------------------------- writing

  /** The digest index and the table name the same rows. */
  ghost predicate RowsIndexed<R>(codec: Codec<R>, records: map<nat, Payload>, payloadIds: map<int, nat>, nextId: nat) {
    && (forall id :: id in records ==>
          id < nextId && codec.digest(records[id]) in payloadIds && payloadIds[codec.digest(records[id])] == id)
    && (forall d :: d in payloadIds ==> payloadIds[d] in records && codec.digest(records[payloadIds[d]]) == d)
  }

  ghost predicate FilterCollects(keyHash: KeyHash, hashes: seq<Hash>, maxKeyLength: nat, searchKeys: set<(Text, nat)>) {
    && (forall h :: h in hashes <==> h in KeyHashes(keyHash, searchKeys))
    && IsLongestKey(maxKeyLength, searchKeys)
  }

  lemma Collected(keyHash: KeyHash, hashes: seq<Hash>, maxKeyLength: nat, searchKeys: set<(Text, nat)>)
    requires FilterCollects(keyHash, hashes, maxKeyLength, searchKeys)
    ensures forall row :: row in searchKeys ==> keyHash(row.0) in hashes && |row.0| <= maxKeyLength
  {
    forall row | row in searchKeys
      ensures keyHash(row.0) in hashes
    {
      assert keyHash(row.0) in KeyHashes(keyHash, searchKeys);
    }
  }

  /** One more key, with its hash and its length. */
  lemma CollectedKey(keyHash: KeyHash, hashes: seq<Hash>, maxKeyLength: nat, searchKeys: set<(Text, nat)>, key: Text,
                     id: nat)
    requires FilterCollects(keyHash, hashes, maxKeyLength, searchKeys)
    ensures FilterCollects(keyHash, hashes + [keyHash(key)], if |key| > maxKeyLength then |key| else maxKeyLength,
                           searchKeys + {(key, id)})
  {
    var more := searchKeys + {(key, id)};
    assert (key, id) in more;
    assert KeyHashes(keyHash, more) == KeyHashes(keyHash, searchKeys) + {keyHash(key)};
    if |key| <= maxKeyLength && maxKeyLength > 0 {
      var row :| row in searchKeys && |row.0| == maxKeyLength;
      assert row in more;
    }
  }

  /** The pairs registering a record under its keys adds: the empty key is not one. */
  ghost function Pairs<R(!new)>(keys: seq<Text>, record: R): iset<(Text, R)> {
    iset key | key in keys && key != [] :: (key, record)
  }

  /** Whether the insertion that fails is one of a key that is inserted. */
  predicate KeyFails(keys: seq<Text>, failsAt: Option<nat>) {
    failsAt.Some? && failsAt.value < |keys| && keys[failsAt.value] != []
  }

  lemma SameDigest<R(!new)>(codec: Codec<R>, p: Payload, q: Payload)
    requires CodecOk(codec) && codec.digest(p) == codec.digest(q)
    ensures p == q
  {
  }

  /** The import path. registered is the plain table the import builds up. */
  class StoreWriter<R(!new)> {
    const codec: Codec<R>
    const keyHash: KeyHash
    const filter: KeyFilterWriter

    var records: map<nat, Payload>
    var searchKeys: set<(Text, nat)>
    var payloadIds: map<int, nat>
    var nextId: nat
    var recordCount: nat
    var keyCount: nat
    var failed: bool

    ghost var registered: iset<(Text, R)>

    ghost predicate Valid()
      reads this, filter
    {
      && CodecOk(codec)
      && (!failed ==>
            && TablesHold(codec, records, searchKeys, registered)
            && RowsIndexed(codec, records, payloadIds, nextId)
            && recordCount == |records|
            && FilterCollects(keyHash, filter.hashes, filter.maxKeyLength, searchKeys))
    }

    constructor (codec: Codec<R>, keyHash: KeyHash)
      requires CodecOk(codec)
      ensures Valid() && !failed && registered == iset{} && fresh(filter)
      ensures this.codec == codec && this.keyHash == keyHash
    {
      this.codec, this.keyHash := codec, keyHash;
      filter := new KeyFilterWriter();
      records, searchKeys, payloadIds := map[], {}, map[];
      nextId, recordCount, keyCount, failed := 1, 0, 0, false;
      registered := iset{};
    }

    /** addRecord(): a record whose payload is stored already shares its row. None on a write failure. */
    method AddRecord(record: R, keys: seq<Text>, insertFails: bool, failsAt: Option<nat>) returns (id: Option<nat>)
      requires Valid()
      modifies this, filter
      ensures Valid()
      ensures old(failed) ==> failed && id.None?
      ensures !old(failed) && !insertFails && !KeyFails(keys, failsAt) ==> !failed
      ensures KeyFails(keys, failsAt) ==> failed
      ensures !failed ==> id.Some? && id.value in records && records[id.value] == codec.encode(record)
      ensures !failed ==> registered == old(registered) + Pairs(keys, record)
    {
      hide TablesHold;
      hide FilterCollects;
      hide Pairs;
      hide CodecOk;
      if failed {
        return None;
      }
      var digest := codec.digest(codec.encode(record));
      if digest in payloadIds {
        SameDigest(codec, records[payloadIds[digest]], codec.encode(record));
        id := Some(payloadIds[digest]);
      } else {
        id := InsertRow(record, insertFails);
        if failed {
          return None;
        }
      }
      AddKeys(id.value, keys, failsAt, record);
    }

    /** Stores a new payload under the next id. */
    method InsertRow(record: R, insertFails: bool) returns (id: Option<nat>)
      requires Valid() && !failed && codec.digest(codec.encode(record)) !in payloadIds
      modifies this`records, this`payloadIds, this`nextId, this`recordCount, this`failed
      ensures Valid() && failed == insertFails
      ensures !failed ==> id.Some? && id.value in records && records[id.value] == codec.encode(record)
      ensures !failed ==> records == old(records)[old(nextId) := codec.encode(record)] && old(nextId) !in old(records)
    {
      hide TablesHold;
      hide FilterCollects;
      var payload := codec.encode(record);
      var fresh_ := nextId;
      nextId := nextId + 1;
      if insertFails {
        failed := true;
        return None;
      }
      NewRow(codec, records, searchKeys, registered, fresh_, record);
      records := records[fresh_ := payload];
      payloadIds := payloadIds[codec.digest(payload) := fresh_];
      recordCount := recordCount + 1;
      id := Some(fresh_);
    }

    /** addKeys() for a record that has a row: registers the non-empty keys, up to the one at failsAt, whose
        insertion fails. */
    method AddKeys(id: nat, keys: seq<Text>, failsAt: Option<nat>, ghost record: R)
      requires Valid()
      requires !failed ==> id in records && records[id] == codec.encode(record)
      modifies this`searchKeys, this`keyCount, this`failed, this`registered, filter
      ensures Valid()
      ensures old(failed) ==> failed && registered == old(registered)
      ensures !old(failed) ==> (failed <==> KeyFails(keys, failsAt))
      ensures !old(failed) ==>
        registered == old(registered) + Pairs(if failed then keys[..failsAt.value] else keys, record)
    {
      hide TablesHold;
      hide RowsIndexed;
      hide FilterCollects;
      hide CodecOk;
      if failed {
        return;
      }
      for n := 0 to |keys|
        invariant Valid() && !failed
        invariant registered == old(registered) + Pairs(keys[..n], record)
        invariant KeyFails(keys, failsAt) ==> n <= failsAt.value
      {
        assert keys[..n + 1] == keys[..n] + [keys[n]];
        if keys[n] != [] {
          if failsAt == Some(n) {
            failed := true;
            return;
          }
          AddKey(id, keys[n], record);
        }
      }
      assert keys[..|keys|] == keys;
    }

    /** One row of the key table, its hash and its length. */
    method AddKey(id: nat, key: Text, ghost record: R)
      requires Valid() && !failed && key != [] && id in records && records[id] == codec.encode(record)
      modifies this`searchKeys, this`keyCount, this`registered, filter
      ensures Valid() && registered == old(registered) + iset{(key, record)}
      ensures searchKeys == old(searchKeys) + {(key, id)}
    {
      hide TablesHold;
      hide RowsIndexed;
      hide CodecOk;
      hide FilterCollects;
      NewKey(codec, records, searchKeys, registered, key, id, record);
      CollectedKey(keyHash, filter.hashes, filter.maxKeyLength, searchKeys, key, id);
      searchKeys := searchKeys + {(key, id)};
      registered := registered + iset{(key, record)};
      filter.AddHash(keyHash(key), |key|);
      keyCount := keyCount + 1;
    }

    /** finish(): the tables as they are, with the sidecar when it could be moved into place. None after
        a write failure, and when the last commits, the sidecar or the meta rows cannot be written. */
    method Finish(closes: bool, sidecarKept: bool) returns (file: Option<StoreFile>)
      requires Valid()
      modifies this, filter
      ensures file.Some? <==> !old(failed) && closes
      ensures file.Some? ==> FileHolds(codec, keyHash, file.value, old(registered))
      ensures file.Some? ==> (file.value.sidecar.Some? <==> sidecarKept) && MetaHolds(keyHash, file.value)
    {
      if failed || !closes {
        return None;
      }
      Collected(keyHash, filter.hashes, filter.maxKeyLength, searchKeys);
      var sidecar := filter.Write();
      CountIncreasing(sidecar.hashes, KeyHashes(keyHash, searchKeys));
      payloadIds := map[];
      file := Some(StoreFile(records, searchKeys, if sidecarKept then Some(sidecar) else None, recordCount,
                             filter.distinctCount, filter.maxKeyLength));
    }
  }

  lemma NewRow<R(!new)>(codec: Codec<R>, records: map<nat, Payload>, searchKeys: set<(Text, nat)>,
                        registered: iset<(Text, R)>, id: nat, record: R)
    requires CodecOk(codec) && TablesHold(codec, records, searchKeys, registered) && id !in records
    requires forall other :: other in records ==> records[other] != codec.encode(record)
    ensures TablesHold(codec, records[id := codec.encode(record)], searchKeys, registered)
  {
    var after := records[id := codec.encode(record)];
    forall key, r
      ensures (key, r) in registered <==>
        exists other :: other in after && after[other] == codec.encode(r) && (key, other) in searchKeys
    {
      if (key, r) in registered {
        var other :| other in records && records[other] == codec.encode(r) && (key, other) in searchKeys;
        assert other in after && after[other] == codec.encode(r);
      }
      if other :| other in after && after[other] == codec.encode(r) && (key, other) in searchKeys {
        assert (key, other).1 in records;
      }
    }
  }

  lemma NewKey<R(!new)>(codec: Codec<R>, records: map<nat, Payload>, searchKeys: set<(Text, nat)>,
                        registered: iset<(Text, R)>, key: Text, id: nat, record: R)
    requires CodecOk(codec) && TablesHold(codec, records, searchKeys, registered)
    requires id in records && records[id] == codec.encode(record) && key != []
    ensures TablesHold(codec, records, searchKeys + {(key, id)}, registered + iset{(key, record)})
  {
    var rows, more := searchKeys + {(key, id)}, registered + iset{(key, record)};
    forall k, r
      ensures (k, r) in more <==>
        exists other :: other in records && records[other] == codec.encode(r) && (k, other) in rows
    {
      if (k, r) in more {
        if (k, r) in registered {
          var other :| other in records && records[other] == codec.encode(r) && (k, other) in searchKeys;
          assert (k, other) in rows;
        } else {
          assert (k, id) in rows;
        }
      }
      if other :| other in records && records[other] == codec.encode(r) && (k, other) in rows {
        if (k, other) !in searchKeys {
          assert Some(r) == codec.decode(codec.encode(r)) == codec.decode(codec.encode(record)) == Some(record);
        }
      }
    }
  }

  // ---------------------------------------------------------------- reading

  /** The entry of an id is at the front, and the others are in their order. */
  ghost predicate MovedToFront<R>(before: seq<CacheEntry<R>>, id: nat, after: seq<CacheEntry<R>>) {
    exists p :: 0 <= p < |before| && before[p].id == id && after == [before[p]] + before[..p] + before[p + 1..]
  }

  /** How many of the cached entries stay behind a new one: all there is room for. */
  function Kept(size: nat, capacity: nat): (kept: nat)
    ensures kept <= size
  {
    if capacity == 0 then size else if size < capacity then size else capacity - 1
  }

  /** One list node of the record cache: its identity, the record id and the record. */
  datatype CacheEntry<+R> = CacheEntry(node: nat, id: nat, record: R)

  /** Every entry is indexed under its id, and every indexed id is an entry. */
  ghost predicate CacheIndexed<R>(lru: seq<CacheEntry<R>>, lruIndex: map<nat, nat>) {
    && (forall p :: 0 <= p < |lru| ==> lru[p].id in lruIndex && lruIndex[lru[p].id] == lru[p].node)
    && (forall id :: id in lruIndex ==> exists p :: 0 <= p < |lru| && lru[p].id == id)
  }

  ghost predicate CacheDistinct<R>(lru: seq<CacheEntry<R>>) {
    forall p, q :: 0 <= p < q < |lru| ==> lru[p].id != lru[q].id && lru[p].node != lru[q].node
  }

  /** Every entry holds the record its row decodes to. */
  ghost predicate CacheSound<R>(codec: Codec<R>, records: map<nat, Payload>, lru: seq<CacheEntry<R>>, nextNode: nat) {
    forall p :: 0 <= p < |lru| ==>
      lru[p].node < nextNode && lru[p].id in records && records[lru[p].id] == codec.encode(lru[p].record)
  }

  /** The cache list and its index are in bijection, within capacity, and hold what the table holds. */
  ghost predicate CacheOk<R(!new)>(codec: Codec<R>, records: map<nat, Payload>, lru: seq<CacheEntry<R>>,
                                   lruIndex: map<nat, nat>, capacity: nat, nextNode: nat)
  {
    |lru| <= capacity && CacheIndexed(lru, lruIndex) && CacheDistinct(lru) && CacheSound(codec, records, lru, nextNode)
  }

  /** The row ids of a key. */
  function RowIds(searchKeys: set<(Text, nat)>, key: Text): set<nat> {
    set row | row in searchKeys && row.0 == key :: row.1
  }

  lemma {:induction false} LeastExists(ids: set<nat>) returns (least: nat)
    requires ids != {}
    ensures least in ids && forall id :: id in ids ==> least <= id
    decreases |ids|
  {
    var some :| some in ids;
    var rest := ids - {some};
    if rest == {} {
      least := some;
      assert forall id :: id in ids ==> id == some || id in rest;
    } else {
      var other := LeastExists(rest);
      least := if some < other then some else other;
      assert forall id :: id in ids ==> id == some || id in rest;
    }
  }

  method PickLeast(ids: set<nat>) returns (least: nat)
    requires ids != {}
    ensures least in ids && forall id :: id in ids ==> least <= id
  {
    ghost var some := LeastExists(ids);
    least :| least in ids && forall id :: id in ids ==> least <= id;
  }

  /** A list of answered records: ids in increasing order, with the record of each row. */
  ghost predicate Answers<R>(codec: Codec<R>, records: map<nat, Payload>, found: seq<(nat, R)>, ids: set<nat>) {
    && (forall i, j :: 0 <= i < j < |found| ==> found[i].0 < found[j].0)
    && (forall i :: 0 <= i < |found| ==>
          found[i].0 in ids && found[i].0 in records && records[found[i].0] == codec.encode(found[i].1))
    && (forall id :: id in ids ==> exists i :: 0 <= i < |found| && found[i].0 == id)
  }

  /** The read path over one finished store. */
  class Store<R(!new)> {
    const codec: Codec<R>
    const keyHash: KeyHash
    const file: StoreFile
    ghost const registered: iset<(Text, R)>

    var cacheCapacity: nat
    var lru: seq<CacheEntry<R>>
    var lruIndex: map<nat, nat>
    var nextNode: nat

    ghost predicate Valid()
      reads this
    {
      && CodecOk(codec)
      && FileHolds(codec, keyHash, file, registered)
      && CacheOk(codec, file.records, lru, lruIndex, cacheCapacity, nextNode)
    }

    constructor (codec: Codec<R>, keyHash: KeyHash, file: StoreFile, ghost registered: iset<(Text, R)>)
      requires CodecOk(codec) && FileHolds(codec, keyHash, file, registered)
      ensures Valid() && this.registered == registered && this.codec == codec && this.file == file
    {
      this.codec, this.keyHash, this.file, this.registered := codec, keyHash, file, registered;
      cacheCapacity, lru, lruIndex, nextNode := 4096, [], map[], 0;
    }

    /** setRecordCacheCapacity(): drops the least recently used entries above the new capacity. */
    method SetRecordCacheCapacity(capacity: int)
      requires Valid()
      modifies this
      ensures Valid()
      ensures cacheCapacity == if capacity < 0 then 0 else capacity
      ensures lru == old(lru)[..if |old(lru)| < cacheCapacity then |old(lru)| else cacheCapacity]
    {
      cacheCapacity := if capacity < 0 then 0 else capacity;
      EvictTo();
    }

    /** Pops entries from the back until the list fits the capacity. */
    method EvictTo()
      requires CacheOk(codec, file.records, lru, lruIndex, |lru|, nextNode)
      modifies this`lru, this`lruIndex
      ensures CacheOk(codec, file.records, lru, lruIndex, cacheCapacity, nextNode)
      ensures lru == old(lru)[..if |old(lru)| < cacheCapacity then |old(lru)| else cacheCapacity]
    {
      hide CacheOk;
      while |lru| > cacheCapacity
        invariant CacheOk(codec, file.records, lru, lruIndex, |lru|, nextNode)
        invariant |lru| <= |old(lru)| && lru == old(lru)[..|lru|]
        invariant |old(lru)| >= cacheCapacity ==> |lru| >= cacheCapacity
        invariant |old(lru)| < cacheCapacity ==> lru == old(lru)
      {
        EvictLast(codec, file.records, lru, lruIndex, nextNode);
        lruIndex := lruIndex - {Last(lru).id};
        lru := Front(lru);
      }
      MoreCapacity(codec, file.records, lru, lruIndex, |lru|, cacheCapacity, nextNode);
    }

    /** decodeCached(): the cached record, moved to the front, or the decoded one, cached when the cache
        has any room. */
    method DecodeCached(id: nat, payload: Payload) returns (record: Option<R>)
      requires Valid() && id in file.records && file.records[id] == payload
      modifies this`lru, this`lruIndex, this`nextNode
      ensures Valid()
      ensures record.Some? && payload == codec.encode(record.value)
      ensures cacheCapacity > 0 ==> lru != [] && lru[0].id == id && lru[0].record == record.value
      ensures id in old(lruIndex) ==> MovedToFront(old(lru), id, lru)
      ensures id !in old(lruIndex) ==>
        (if lru == [] then [] else lru[1..]) == old(lru)[..Kept(|old(lru)|, cacheCapacity)]
    {
      hide FileHolds;
      hide CodecOk;
      if id in lruIndex {
        var cached := Touch(id);
        return Some(cached);
      }
      record := Decoded(payload);
      if cacheCapacity > 0 {
        Remember(id, record.value);
      }
    }

    /** Splices the node the index names to the front of the list. */
    method Touch(id: nat) returns (record: R)
      requires CacheOk(codec, file.records, lru, lruIndex, cacheCapacity, nextNode) && id in lruIndex
      modifies this`lru
      ensures CacheOk(codec, file.records, lru, lruIndex, cacheCapacity, nextNode)
      ensures lru != [] && lru[0].id == id && lru[0].record == record && multiset(lru) == multiset(old(lru))
      ensures MovedToFront(old(lru), id, lru)
    {
      hide CacheOk;
      var p := NodeOf(id);
      MoveToFront(codec, file.records, lru, lruIndex, cacheCapacity, nextNode, p);
      lru := [lru[p]] + lru[..p] + lru[p + 1..];
      record := lru[0].record;
    }

    /** The position of the node the index names. */
    method NodeOf(id: nat) returns (p: nat)
      requires CacheOk(codec, file.records, lru, lruIndex, cacheCapacity, nextNode) && id in lruIndex
      ensures p < |lru| && lru[p].id == id
    {
      ghost var at :| 0 <= at < |lru| && lru[at].id == id;
      p := 0;
      while lru[p].node != lruIndex[id]
        invariant p <= at
        decreases at - p
      {
        p := p + 1;
      }
      assert p == at;
    }

    /** Puts a new node in front and evicts what no longer fits. */
    method Remember(id: nat, record: R)
      requires CacheOk(codec, file.records, lru, lruIndex, cacheCapacity, nextNode)
      requires id !in lruIndex && cacheCapacity > 0
      requires id in file.records && file.records[id] == codec.encode(record)
      modifies this`lru, this`lruIndex, this`nextNode
      ensures CacheOk(codec, file.records, lru, lruIndex, cacheCapacity, nextNode)
      ensures lru != [] && lru[0].id == id && lru[0].record == record
      ensures lru[1..] == old(lru)[..Kept(|old(lru)|, cacheCapacity)]
    {
      hide CacheOk;
      var entry := CacheEntry(nextNode, id, record);
      ExactCapacity(codec, file.records, lru, lruIndex, cacheCapacity, nextNode);
      PushFront(codec, file.records, lru, lruIndex, nextNode, entry);
      lru := [entry] + lru;
      lruIndex := lruIndex[id := nextNode];
      nextNode := nextNode + 1;
      EvictTo();
    }

    method Decoded(payload: Payload) returns (record: Option<R>)
      requires CodecOk(codec) && FileHolds(codec, keyHash, file, registered) && payload in file.records.Values
      ensures record.Some? && payload == codec.encode(record.value)
    {
      record := codec.decode(payload);
    }

    /** find(): exactly the distinct records registered under a non-empty key, in row order, whatever
        the key hash, the cache and its history. */
    method Find(key: Text) returns (found: seq<(nat, R)>)
      requires Valid()
      modifies this`lru, this`lruIndex, this`nextNode
      ensures Valid() && cacheCapacity == old(cacheCapacity)
      ensures key == [] ==> found == []
      ensures forall i, j :: 0 <= i < j < |found| ==> found[i].0 < found[j].0 && found[i].1 != found[j].1
      ensures key != [] ==> forall r :: (exists i :: 0 <= i < |found| && found[i].1 == r) <==> (key, r) in registered
    {
      hide CacheOk;
      found := [];
      if key == [] {
        return;
      }
      if file.sidecar.Some? {
        var passes := Contains(keyHash, file.sidecar.value, key);
        if !passes {
          NoRowsWithoutHash(codec, keyHash, file, registered, key);
          return;
        }
      }
      found := Query(key);
      AnswersAreRegistered(codec, file, registered, key, found);
    }

    /** One row of the answer: decoded, and appended when it decodes. */
    method QueryRow(key: Text, id: nat, found: seq<(nat, R)>, ghost done: set<nat>) returns (more: seq<(nat, R)>)
      requires Valid() && id in RowIds(file.searchKeys, key)
      requires Answers(codec, file.records, found, done) && forall i :: 0 <= i < |found| ==> found[i].0 < id
      modifies this`lru, this`lruIndex, this`nextNode
      ensures Valid() && Answers(codec, file.records, more, done + {id})
      ensures forall i :: 0 <= i < |more| ==> more[i].0 <= id
    {
      hide CacheOk;
      hide CodecOk;
      hide RowIds;
      hide Answers;
      hide FileHolds;
      RowHasRecord(codec, keyHash, file, registered, key, id);
      more := found;
      var payload := file.records[id];
      if payload != [] {
        var record := DecodeCached(id, payload);
        if record.Some? {
          AnswersPush(codec, file.records, found, done, id, record.value);
          more := found + [(id, record.value)];
        }
      }
    }

    /** The rows of a key, in id order, through the cache. */
    method Query(key: Text) returns (found: seq<(nat, R)>)
      requires Valid()
      modifies this`lru, this`lruIndex, this`nextNode
      ensures Valid()
      ensures Answers(codec, file.records, found, RowIds(file.searchKeys, key))
    {
      hide CacheOk;
      hide CodecOk;
      hide TablesHold;
      hide FilterCovers;
      hide RowIds;
      hide Answers;
      hide FileHolds;
      var rows := RowIds(file.searchKeys, key);
      found := [];
      var todo, done := rows, {};
      NoAnswers(codec, file.records);
      while todo != {}
        invariant Valid()
        invariant rows == done + todo
        invariant Answers(codec, file.records, found, done)
        invariant forall i, id :: 0 <= i < |found| && id in todo ==> found[i].0 < id
        decreases |todo|
      {
        var id := PickLeast(todo);
        found := QueryRow(key, id, found, done);
        todo, done := todo - {id}, done + {id};
      }
      assert rows == done;
    }
  }

  lemma NoAnswers<R>(codec: Codec<R>, records: map<nat, Payload>)
    ensures Answers(codec, records, [], {})
  {
  }

  lemma AnswersPush<R>(codec: Codec<R>, records: map<nat, Payload>, found: seq<(nat, R)>, ids: set<nat>, id: nat, r: R)
    requires Answers(codec, records, found, ids) && id in records && records[id] == codec.encode(r)
    requires forall i :: 0 <= i < |found| ==> found[i].0 < id
    ensures Answers(codec, records, found + [(id, r)], ids + {id})
  {
    var more := found + [(id, r)];
    forall x | x in ids + {id}
      ensures exists i :: 0 <= i < |more| && more[i].0 == x
    {
      if x in ids {
        var i :| 0 <= i < |found| && found[i].0 == x;
        assert more[i].0 == x;
      } else {
        assert more[|found|].0 == x;
      }
    }
  }

  lemma RowHasRecord<R(!new)>(codec: Codec<R>, keyHash: KeyHash, file: StoreFile, registered: iset<(Text, R)>,
                              key: Text, id: nat)
    requires FileHolds(codec, keyHash, file, registered) && id in RowIds(file.searchKeys, key)
    requires CodecOk(codec)
    ensures id in file.records && (key, id) in file.searchKeys && file.records[id] != []
  {
    assert (key, id) in file.searchKeys;
    assert (key, id).1 in file.records;
  }

  lemma NoRowsWithoutHash<R(!new)>(codec: Codec<R>, keyHash: KeyHash, file: StoreFile, registered: iset<(Text, R)>,
                                   key: Text)
    requires FileHolds(codec, keyHash, file, registered) && file.sidecar.Some?
    requires var s := file.sidecar.value;
      s.hashes == [] || (s.maxKeyLength > 0 && |key| > s.maxKeyLength) || keyHash(key) !in s.hashes
    ensures forall r :: (key, r) !in registered
  {
    assert forall row :: row in file.searchKeys ==> row.0 != key;
  }

  lemma AnswersAreRegistered<R(!new)>(codec: Codec<R>, file: StoreFile, registered: iset<(Text, R)>, key: Text,
                                      found: seq<(nat, R)>)
    requires CodecOk(codec) && TablesHold(codec, file.records, file.searchKeys, registered)
    requires Answers(codec, file.records, found, RowIds(file.searchKeys, key))
    ensures forall i, j :: 0 <= i < j < |found| ==> found[i].0 < found[j].0 && found[i].1 != found[j].1
    ensures forall r :: (exists i :: 0 <= i < |found| && found[i].1 == r) <==> (key, r) in registered
  {
    forall i, j | 0 <= i < j < |found|
      ensures found[i].1 != found[j].1
    {
      assert found[i].0 != found[j].0;
    }
    forall r
      ensures (exists i :: 0 <= i < |found| && found[i].1 == r) <==> (key, r) in registered
    {
      if i :| 0 <= i < |found| && found[i].1 == r {
        assert (key, found[i].0) in file.searchKeys;
      }
      if (key, r) in registered {
        var id :| id in file.records && file.records[id] == codec.encode(r) && (key, id) in file.searchKeys;
        assert (key, id).1 in RowIds(file.searchKeys, key);
        var i :| 0 <= i < |found| && found[i].0 == id;
        assert Some(r) == codec.decode(codec.encode(r)) == codec.decode(codec.encode(found[i].1)) == Some(found[i].1);
      }
    }
  }

  // ---------------------------------------------------------------- the cache

  lemma EvictLast<R(!new)>(codec: Codec<R>, records: map<nat, Payload>, lru: seq<CacheEntry<R>>,
                           lruIndex: map<nat, nat>, nextNode: nat)
    requires CacheOk(codec, records, lru, lruIndex, |lru|, nextNode) && lru != []
    ensures CacheOk(codec, records, Front(lru), lruIndex - {Last(lru).id}, |lru| - 1, nextNode)
  {
    var index := lruIndex - {Last(lru).id};
    forall id | id in index
      ensures exists p :: 0 <= p < |Front(lru)| && Front(lru)[p].id == id
    {
      var p :| 0 <= p < |lru| && lru[p].id == id;
      assert Front(lru)[p].id == id;
    }
  }

  lemma MoreCapacity<R(!new)>(codec: Codec<R>, records: map<nat, Payload>, lru: seq<CacheEntry<R>>,
                              lruIndex: map<nat, nat>, capacity: nat, more: nat, nextNode: nat)
    requires CacheOk(codec, records, lru, lruIndex, capacity, nextNode) && capacity <= more
    ensures CacheOk(codec, records, lru, lruIndex, more, nextNode)
  {
  }

  lemma ExactCapacity<R(!new)>(codec: Codec<R>, records: map<nat, Payload>, lru: seq<CacheEntry<R>>,
                               lruIndex: map<nat, nat>, capacity: nat, nextNode: nat)
    requires CacheOk(codec, records, lru, lruIndex, capacity, nextNode)
    ensures CacheOk(codec, records, lru, lruIndex, |lru|, nextNode)
  {
  }

  lemma MovedAt<T>(s: seq<T>, p: nat, q: nat)
    requires p < |s| && q < |s|
    ensures |[s[p]] + s[..p] + s[p + 1..]| == |s| && MovedFrom(p, q) < |s|
    ensures ([s[p]] + s[..p] + s[p + 1..])[q] == s[MovedFrom(p, q)]
  {
  }

  lemma MoveToFront<R(!new)>(codec: Codec<R>, records: map<nat, Payload>, lru: seq<CacheEntry<R>>,
                             lruIndex: map<nat, nat>, capacity: nat, nextNode: nat, p: nat)
    requires CacheOk(codec, records, lru, lruIndex, capacity, nextNode) && p < |lru|
    ensures var moved := [lru[p]] + lru[..p] + lru[p + 1..];
      CacheOk(codec, records, moved, lruIndex, capacity, nextNode) && multiset(moved) == multiset(lru)
  {
    hide CacheIndexed;
    hide CacheDistinct;
    hide CacheSound;
    var moved := [lru[p]] + lru[..p] + lru[p + 1..];
    assert lru == lru[..p] + [lru[p]] + lru[p + 1..];
    forall q | 0 <= q < |lru|
      ensures |moved| == |lru| && MovedFrom(p, q) < |lru| && moved[q] == lru[MovedFrom(p, q)]
    {
      MovedAt(lru, p, q);
    }
    MovedDistinct(lru, moved, p);
    MovedSound(codec, records, lru, moved, nextNode, p);
    MovedIndexed(lru, moved, lruIndex, p);
  }

  ghost predicate IsMoved<T>(s: seq<T>, moved: seq<T>, p: nat) {
    |moved| == |s| && forall q :: 0 <= q < |s| ==> MovedFrom(p, q) < |s| && moved[q] == s[MovedFrom(p, q)]
  }

  lemma MovedDistinct<R>(lru: seq<CacheEntry<R>>, moved: seq<CacheEntry<R>>, p: nat)
    requires IsMoved(lru, moved, p) && CacheDistinct(lru)
    ensures CacheDistinct(moved)
  {
    forall q, r | 0 <= q < r < |moved|
      ensures moved[q].id != moved[r].id && moved[q].node != moved[r].node
    {
      var a, b := MovedFrom(p, q), MovedFrom(p, r);
      assert a < b || b < a;
    }
  }

  lemma MovedSound<R>(codec: Codec<R>, records: map<nat, Payload>, lru: seq<CacheEntry<R>>, moved: seq<CacheEntry<R>>,
                      nextNode: nat, p: nat)
    requires IsMoved(lru, moved, p) && CacheSound(codec, records, lru, nextNode)
    ensures CacheSound(codec, records, moved, nextNode)
  {
  }

  lemma MovedIndexed<R>(lru: seq<CacheEntry<R>>, moved: seq<CacheEntry<R>>, lruIndex: map<nat, nat>, p: nat)
    requires IsMoved(lru, moved, p) && CacheIndexed(lru, lruIndex) && p < |lru|
    ensures CacheIndexed(moved, lruIndex)
  {
    forall id | id in lruIndex
      ensures exists q :: 0 <= q < |moved| && moved[q].id == id
    {
      var k :| 0 <= k < |lru| && lru[k].id == id;
      var q := if k == p then 0 else if k < p then k + 1 else k;
      assert MovedFrom(p, q) == k;
      assert moved[q].id == id;
    }
  }

  /** Where the entry at position q was before position p moved to the front. */
  function MovedFrom(p: nat, q: nat): nat {
    if q == 0 then p else if q <= p then q - 1 else q
  }

  lemma PushFront<R(!new)>(codec: Codec<R>, records: map<nat, Payload>, lru: seq<CacheEntry<R>>,
                           lruIndex: map<nat, nat>, nextNode: nat, entry: CacheEntry<R>)
    requires CacheOk(codec, records, lru, lruIndex, |lru|, nextNode) && entry.node == nextNode
    requires entry.id !in lruIndex && entry.id in records && records[entry.id] == codec.encode(entry.record)
    ensures CacheOk(codec, records, [entry] + lru, lruIndex[entry.id := nextNode], |lru| + 1, nextNode + 1)
  {
    var more, index := [entry] + lru, lruIndex[entry.id := nextNode];
    forall id | id in index
      ensures exists p :: 0 <= p < |more| && more[p].id == id
    {
      if id == entry.id {
        assert more[0].id == id;
      } else {
        var p :| 0 <= p < |lru| && lru[p].id == id;
        assert more[p + 1].id == id;
      }
    }
  }
}
