/**
 * The embedded key-value store (a RocksDB handle together with its Options),
 * reduced to what the executor observes: a location, an open mode, an optional
 * max-open-files setting, and a map from keys to values. Puts are durable
 * immediately, so a store's entries are also what its directory holds.
 */
module KeyValueStore {
  import opened Wrappers
  import opened Variants

  /**
   * What the indexes store under a key: the whitelisted INFO attributes of a
   * custom-file variant, or the whole record of a population-frequency variant.
   */
  datatype IndexValue = InfoFields(fields: map<string, string>) | FullRecord(record: Variant)

  type Entries = map<string, IndexValue>

  /** The index directories present on disk, by location, with their contents. */
  type Disk = map<string, Entries>

  class Store {
    const location: string
    const readOnly: bool
    const maxOpenFiles: Option<int>
    var entries: Entries
    var isOpen: bool

    /** RocksDB.open / RocksDB.openReadOnly: an existing directory is opened with its contents. */
    constructor Open(location: string, readOnly: bool, maxOpenFiles: Option<int>, onDisk: Entries)
      ensures this.location == location && this.readOnly == readOnly && this.maxOpenFiles == maxOpenFiles
      ensures entries == onDisk && isOpen
    {
      this.location := location;
      this.readOnly := readOnly;
      this.maxOpenFiles := maxOpenFiles;
      entries := onDisk;
      isOpen := true;
    }

    /** A later put under the same key replaces the earlier value. */
    method Put(key: string, value: IndexValue)
      requires isOpen && !readOnly
      modifies this
      ensures entries == old(entries)[key := value] && isOpen
    {
      entries := entries[key := value];
    }

    method Close()
      modifies this
      ensures !isOpen && entries == old(entries)
    {
      isOpen := false;
    }
  }

  /** The map after putting `puts` in order, starting from `m`. */
  function PutAll<V>(m: map<string, V>, puts: seq<(string, V)>): map<string, V>
  {
    if puts == [] then m
    else PutAll(m, puts[..|puts| - 1])[puts[|puts| - 1].0 := puts[|puts| - 1].1]
  }

  /** Some put in `puts` is under `key`. */
  predicate Mentions<V>(puts: seq<(string, V)>, key: string)
  {
    exists k :: 0 <= k < |puts| && puts[k].0 == key
  }

  /** After the puts, the keys are the old keys and the keys put. */
  lemma {:induction false} PutAllKeys<V>(m: map<string, V>, puts: seq<(string, V)>, key: string)
    ensures key in PutAll(m, puts) <==> key in m || Mentions(puts, key)
  {
    if puts != [] {
      var init := puts[..|puts| - 1];
      PutAllKeys(m, init, key);
      if Mentions(puts, key) && puts[|puts| - 1].0 != key {
        var k :| 0 <= k < |puts| && puts[k].0 == key;
        assert init[k].0 == key;
      }
      if Mentions(init, key) {
        var k :| 0 <= k < |init| && init[k].0 == key;
        assert puts[k].0 == key;
      }
    }
  }

  lemma PutAllSnoc<V>(m: map<string, V>, puts: seq<(string, V)>, put: (string, V))
    ensures PutAll(m, puts + [put]) == PutAll(m, puts)[put.0 := put.1]
  {
    assert (puts + [put])[..|puts|] == puts;
  }

  /** Putting one more element of a batch. */
  lemma PutAllPrefixSnoc<V>(m: map<string, V>, puts: seq<(string, V)>, i: nat)
    requires i < |puts|
    ensures PutAll(m, puts[..i + 1]) == PutAll(m, puts[..i])[puts[i].0 := puts[i].1]
  {
    assert puts[..i + 1] == puts[..i] + [puts[i]];
    PutAllSnoc(m, puts[..i], puts[i]);
  }

  /** Putting two batches one after the other is putting their concatenation. */
  lemma {:induction false} PutAllAppend<V>(m: map<string, V>, a: seq<(string, V)>, b: seq<(string, V)>)
    ensures PutAll(m, a + b) == PutAll(PutAll(m, a), b)
    decreases |b|
  {
    if b == [] {
      assert a + b == a;
    } else {
      assert (a + b)[..|a + b| - 1] == a + b[..|b| - 1];
      assert (a + b)[|a + b| - 1] == b[|b| - 1];
      PutAllAppend(m, a, b[..|b| - 1]);
    }
  }

  /**
   * The value under a key is the value of the last put with that key; a key
   * no put mentions keeps its old value.
   */
  lemma {:induction false} LastPutWins<V>(m: map<string, V>, puts: seq<(string, V)>, j: nat)
    requires j < |puts|
    requires forall k :: j < k < |puts| ==> puts[k].0 != puts[j].0
    ensures puts[j].0 in PutAll(m, puts) && PutAll(m, puts)[puts[j].0] == puts[j].1
  {
    if j < |puts| - 1 {
      LastPutWins(m, puts[..|puts| - 1], j);
    }
  }

  lemma {:induction false} UntouchedKeyKept<V>(m: map<string, V>, puts: seq<(string, V)>, key: string)
    requires key in m
    requires forall k :: 0 <= k < |puts| ==> puts[k].0 != key
    ensures key in PutAll(m, puts) && PutAll(m, puts)[key] == m[key]
  {
    if puts != [] {
      UntouchedKeyKept(m, puts[..|puts| - 1], key);
    }
  }
}
