/** The persistent memory store (`MemoryManager`): one JSON document per key
    holding the key, the stored value and the time of writing. The directory
    of documents is modelled as a map from key to (value, timestamp). */
module Memory {
  import opened Common
  import opened Strings

  /** The stored document of one key: `{'key', 'value', 'timestamp'}`. */
  datatype Entry = Entry(value: Json, timestamp: string)

  /** One element of `list_memories`: `{'key', 'timestamp'}`. */
  datatype MemoryInfo = MemoryInfo(key: string, timestamp: string)

  type Store = map<string, Entry>

  /** The store after `write_memory(key, value)` at time `now`. */
  function Written(store: Store, key: string, value: Json, now: string): (r: Store)
    ensures r.Keys == store.Keys + {key}
  {
    store[key := Entry(value, now)]
  }

  /** The store after `delete_memory(key)`. */
  function Deleted(store: Store, key: string): (r: Store)
    ensures r.Keys == store.Keys - {key}
  {
    store - {key}
  }

  /** `read_memory(key)`: the stored value, or `None` when no document exists. */
  function Read(store: Store, key: string): Json
  {
    if key in store then store[key].value else JNull
  }

  /** A write followed by a read of the same key gives the written value. */
  lemma ReadAfterWrite(store: Store, key: string, value: Json, now: string)
    ensures Read(Written(store, key, value, now), key) == value
  {
  }

  /** A write leaves every other key as it was. */
  lemma WriteLeavesOthers(store: Store, key: string, value: Json, now: string, other: string)
    requires other != key
    ensures Read(Written(store, key, value, now), other) == Read(store, other)
    ensures other in store ==> Written(store, key, value, now)[other] == store[other]
  {
  }

  /** After a delete the key reads as missing; other keys are unaffected. */
  lemma ReadAfterDelete(store: Store, key: string, other: string)
    ensures Read(Deleted(store, key), key) == JNull
    ensures other != key ==> Read(Deleted(store, key), other) == Read(store, other)
  {
  }

  /** A stored `None` reads exactly like a missing key. */
  lemma StoredNoneReadsAsMissing(store: Store, key: string, now: string)
    ensures Read(Written(store, key, JNull, now), key) == Read(Deleted(store, key), key)
  {
  }

  /** Newest first: no later element has a later timestamp. */
  predicate NewestFirst(xs: seq<MemoryInfo>)
  {
    forall i, j :: 0 <= i < j < |xs| ==> !Less(xs[i].timestamp, xs[j].timestamp)
  }

  /** The elements match the store: keys drawn from it, each once, each with its
      stored timestamp. */
  predicate Describes(xs: seq<MemoryInfo>, store: Store)
  {
    (forall i :: 0 <= i < |xs| ==> xs[i].key in store && xs[i].timestamp == store[xs[i].key].timestamp) &&
    (forall i, j :: 0 <= i < j < |xs| ==> xs[i].key != xs[j].key)
  }

  /** The keys an element list names. */
  function KeysOf(xs: seq<MemoryInfo>): set<string>
  {
    set i | 0 <= i < |xs| :: xs[i].key
  }

  lemma InsertKeepsDescription(xs: seq<MemoryInfo>, i: nat, m: MemoryInfo, store: Store)
    requires i <= |xs|
    requires Describes(xs, store)
    requires m.key in store && m.timestamp == store[m.key].timestamp
    requires m.key !in KeysOf(xs)
    ensures Describes(xs[..i] + [m] + xs[i..], store)
  {
    var ys := xs[..i] + [m] + xs[i..];
    assert |ys| == |xs| + 1;
    forall x | 0 <= x < |ys|
      ensures ys[x] == if x < i then xs[x] else if x == i then m else xs[x - 1]
    {
    }
    forall x | 0 <= x < |ys| ensures ys[x].key in store && ys[x].timestamp == store[ys[x].key].timestamp {
    }
    forall p, q | 0 <= p < q < |ys| ensures ys[p].key != ys[q].key {
      if p == i { assert ys[q] == xs[q - 1]; }
      else if q == i { assert ys[p] == xs[p]; }
    }
  }

  lemma InsertKeys(xs: seq<MemoryInfo>, i: nat, m: MemoryInfo)
    requires i <= |xs|
    ensures KeysOf(xs[..i] + [m] + xs[i..]) == KeysOf(xs) + {m.key}
  {
    var ys := xs[..i] + [m] + xs[i..];
    forall k | k in KeysOf(ys) ensures k in KeysOf(xs) + {m.key} {
      var x :| 0 <= x < |ys| && ys[x].key == k;
      if x < i { assert ys[x] == xs[x]; }
      else if x > i { assert ys[x] == xs[x - 1]; }
    }
    forall k | k in KeysOf(xs) ensures k in KeysOf(ys) {
      var x :| 0 <= x < |xs| && xs[x].key == k;
      if x < i { assert ys[x] == xs[x]; } else { assert ys[x + 1] == xs[x]; }
    }
    assert ys[i] == m;
  }

  /** Moving key `k` from the keys still to list to the listed ones keeps the
      two disjoint, with the same union, and leaves one key fewer to list. */
  lemma MoveKey(done: set<string>, rest: set<string>, k: string)
    requires k in rest && done !! rest
    ensures (done + {k}) !! (rest - {k}) && (done + {k}) + (rest - {k}) == done + rest
    ensures |rest - {k}| == |rest| - 1
  {
  }

  /** One step of `list_memories`: the element for a key not listed yet
      goes to its place in newest-first order. */
  method AddListed(xs: seq<MemoryInfo>, store: Store, k: string) returns (ys: seq<MemoryInfo>)
    requires NewestFirst(xs) && Describes(xs, store)
    requires k in store && k !in KeysOf(xs)
    ensures NewestFirst(ys) && Describes(ys, store)
    ensures KeysOf(ys) == KeysOf(xs) + {k}
    ensures |ys| == |xs| + 1
  {
    var m := MemoryInfo(k, store[k].timestamp);
    ys := InsertNewestFirst(xs, m);
    var i :| 0 <= i <= |xs| && ys == xs[..i] + [m] + xs[i..];
    InsertKeepsDescription(xs, i, m, store);
    InsertKeys(xs, i, m);
  }

  method InsertNewestFirst(xs: seq<MemoryInfo>, m: MemoryInfo) returns (ys: seq<MemoryInfo>)
    requires NewestFirst(xs)
    ensures NewestFirst(ys)
    ensures exists i :: 0 <= i <= |xs| && ys == xs[..i] + [m] + xs[i..]
  {
    var i := 0;
    while i < |xs| && !Less(xs[i].timestamp, m.timestamp)
      invariant 0 <= i <= |xs|
      invariant forall j :: 0 <= j < i ==> !Less(xs[j].timestamp, m.timestamp)
    {
      i := i + 1;
    }
    ys := xs[..i] + [m] + xs[i..];
    forall p, q | 0 <= p < q < |ys| ensures !Less(ys[p].timestamp, ys[q].timestamp) {
      if p < i && q == i {
      } else if p < i && q > i {
        assert ys[q] == xs[q - 1];
      } else if p == i {
        assert ys[q] == xs[q - 1];
        assert Less(xs[i].timestamp, m.timestamp);
        if i < q - 1 {
          AtMostLessTransitive(xs[i].timestamp, xs[q - 1].timestamp, m.timestamp);
        }
        LessAsymmetric(xs[q - 1].timestamp, m.timestamp);
      } else if p > i {
        assert ys[p] == xs[p - 1] && ys[q] == xs[q - 1];
      }
    }
  }

  /** The storage directory of a `MemoryManager`. */
  class MemoryManager {
    var store: Store

    /** A manager over a directory that already holds `existing`. */
    constructor (existing: Store)
      ensures store == existing
    {
      store := existing;
    }

    /** `write_memory`: replaces the document of `key` and reports true when
        the file system accepts the write (`writable`); otherwise the `open`
        raises, nothing is stored and it reports false. */
    method WriteMemory(key: string, value: Json, now: string, writable: bool) returns (ok: bool)
      modifies this
      ensures ok == writable
      ensures ok ==> store == Written(old(store), key, value, now)
      ensures !ok ==> store == old(store)
    {
      if !writable {
        return false;
      }
      store := store[key := Entry(value, now)];
      ok := true;
    }

    /** `read_memory`. */
    method ReadMemory(key: string) returns (r: Json)
      ensures key in store ==> r == store[key].value
      ensures key !in store ==> r == JNull
      ensures r == Read(store, key)
    {
      if key in store {
        r := store[key].value;
      } else {
        r := JNull;
      }
    }

    /** `delete_memory`: true exactly when the key had a document. */
    method DeleteMemory(key: string) returns (existed: bool)
      modifies this
      ensures existed <==> key in old(store)
      ensures store == Deleted(old(store), key)
    {
      existed := key in store;
      if existed {
        store := store - {key};
      }
    }

    /** `list_memories`: one element per stored key, newest first. */
    method ListMemories() returns (r: seq<MemoryInfo>)
      ensures NewestFirst(r)
      ensures Describes(r, store)
      ensures KeysOf(r) == store.Keys
      ensures |r| == |store|
    {
      var s := store;
      r := [];
      var rest := s.Keys;
      while rest != {}
        invariant rest <= s.Keys
        invariant NewestFirst(r)
        invariant Describes(r, s)
        invariant KeysOf(r) !! rest && KeysOf(r) + rest == s.Keys
        invariant |r| + |rest| == |s|
        decreases |rest|
      {
        var k :| k in rest;
        MoveKey(KeysOf(r), rest, k);
        r := AddListed(r, s, k);
        rest := rest - {k};
      }
      assert |s.Keys| == |s|;
    }
  }
}
