/** Raw listing records as the storage adapters return them (one dictionary
    per file), and the name-keyed views the sync and compare code build
    from them: the set of names, the first record with a name, and the
    dictionary comprehension `{f.get('name'): f for f in files}`. */
module Records {
  import opened Common

  /** One raw record of an adapter's `list_files`. */
  type RawFile = map<string, Json>

  /** `f.get('name')`: `None` when the record has no name. */
  function NameOf(f: RawFile): Json
  {
    Get(f, "name")
  }

  /** `{f.get('name') for f in files}`. */
  function Names(files: seq<RawFile>): (r: set<Json>)
    ensures forall i :: 0 <= i < |files| ==> NameOf(files[i]) in r
    ensures forall n :: n in r ==> exists i :: 0 <= i < |files| && NameOf(files[i]) == n
  {
    set i | 0 <= i < |files| :: NameOf(files[i])
  }

  lemma {:induction false} NamesAppend(files: seq<RawFile>, f: RawFile)
    ensures Names(files + [f]) == Names(files) + {NameOf(f)}
  {
    var ext := files + [f];
    forall n | n in Names(ext) ensures n in Names(files) + {NameOf(f)} {
      var i :| 0 <= i < |ext| && NameOf(ext[i]) == n;
      if i < |files| { assert ext[i] == files[i]; }
    }
    forall n | n in Names(files) + {NameOf(f)} ensures n in Names(ext) {
      if n in Names(files) {
        var i :| 0 <= i < |files| && NameOf(files[i]) == n;
        assert ext[i] == files[i];
      } else {
        assert ext[|files|] == f;
      }
    }
  }

  /** An iteration order of a set: each element exactly once. */
  ghost predicate Enumerates(xs: seq<Json>, s: set<Json>)
  {
    (forall i, j :: 0 <= i < j < |xs| ==> xs[i] != xs[j]) &&
    (forall x :: x in xs <==> x in s)
  }

  /** Python's iteration over a set, in some order. */
  method EnumerateSet(s: set<Json>) returns (xs: seq<Json>)
    ensures Enumerates(xs, s) && |xs| == |s|
  {
    xs := [];
    var rest := s;
    while rest != {}
      invariant rest <= s
      invariant forall i, j :: 0 <= i < j < |xs| ==> xs[i] != xs[j]
      invariant forall x :: x in s <==> x in xs || x in rest
      invariant forall x :: x in xs ==> x !in rest
      invariant |xs| + |rest| == |s|
      decreases |rest|
    {
      var x :| x in rest;
      xs := xs + [x];
      rest := rest - {x};
    }
  }

  /** Index of the first record named `n`: the record that
      `next(f for f in files if f.get('name') == n)` yields. */
  function FirstIndexWithName(files: seq<RawFile>, n: Json): (i: nat)
    requires n in Names(files)
    ensures i < |files| && NameOf(files[i]) == n
    ensures forall j :: 0 <= j < i ==> NameOf(files[j]) != n
    decreases |files|
  {
    if NameOf(files[0]) == n then 0
    else
      assert n in Names(files[1..]) by {
        var k :| 0 <= k < |files| && NameOf(files[k]) == n;
        assert files[1..][k - 1] == files[k];
      }
      1 + FirstIndexWithName(files[1..], n)
  }

  /** Index of the last record named `n`. */
  function LastIndexWithName(files: seq<RawFile>, n: Json): (i: nat)
    requires n in Names(files)
    ensures i < |files| && NameOf(files[i]) == n
    ensures forall j :: i < j < |files| ==> NameOf(files[j]) != n
    decreases |files|
  {
    var last := |files| - 1;
    if NameOf(files[last]) == n then last
    else
      assert n in Names(files[..last]) by {
        var k :| 0 <= k < |files| && NameOf(files[k]) == n;
        assert files[..last][k] == files[k];
      }
      LastIndexWithName(files[..last], n)
  }

  lemma FirstIndexAppend(files: seq<RawFile>, f: RawFile, n: Json)
    requires n in Names(files)
    ensures n in Names(files + [f])
    ensures FirstIndexWithName(files + [f], n) == FirstIndexWithName(files, n)
  {
    var ext := files + [f];
    var i := FirstIndexWithName(files, n);
    assert ext[i] == files[i];
  }

  lemma LastIndexAppendOther(files: seq<RawFile>, f: RawFile, n: Json)
    requires n in Names(files) && NameOf(f) != n
    ensures n in Names(files + [f])
    ensures LastIndexWithName(files + [f], n) == LastIndexWithName(files, n)
  {
    assert (files + [f])[..|files|] == files;
  }

  /** A Python dictionary keyed by names: its keys in insertion order and
      the value under each key. */
  datatype NameDict = NameDict(keys: seq<Json>, values: map<Json, RawFile>)
  {
    ghost predicate Valid()
    {
      (forall p, q :: 0 <= p < q < |keys| ==> keys[p] != keys[q]) &&
      values.Keys == set k | k in keys
    }
  }

  /** `d[k] = v`: a new key goes to the end, an existing key keeps its place. */
  function Put(d: NameDict, k: Json, v: RawFile): (r: NameDict)
    requires d.Valid()
    ensures r.Valid()
    ensures r.values == d.values[k := v]
    ensures k in d.values ==> r.keys == d.keys
    ensures k !in d.values ==> r.keys == d.keys + [k]
  {
    if k in d.values then NameDict(d.keys, d.values[k := v])
    else NameDict(d.keys + [k], d.values[k := v])
  }

  /** `{f.get('name'): f for f in files}`. */
  function ByName(files: seq<RawFile>): (r: NameDict)
    ensures r.Valid()
    decreases |files|
  {
    if files == [] then NameDict([], map[])
    else
      var last := files[|files| - 1];
      Put(ByName(files[..|files| - 1]), NameOf(last), last)
  }

  /** The dictionary holds exactly one key per distinct name. */
  lemma {:induction false} ByNameKeys(files: seq<RawFile>)
    ensures forall k :: k in ByName(files).values <==> k in Names(files)
    decreases |files|
  {
    if files != [] {
      var init := files[..|files| - 1];
      var last := files[|files| - 1];
      assert files == init + [last];
      ByNameKeys(init);
      NamesAppend(init, last);
    }
  }

  /** The value under a name is the last record with that name. */
  lemma {:induction false} ByNameLastWins(files: seq<RawFile>)
    ensures forall k :: k in ByName(files).values ==>
              k in Names(files) && ByName(files).values[k] == files[LastIndexWithName(files, k)]
    decreases |files|
  {
    if files != [] {
      var init := files[..|files| - 1];
      var last := files[|files| - 1];
      var n := NameOf(last);
      assert files == init + [last];
      ByNameLastWins(init);
      ByNameKeys(files);
      var d0 := ByName(init);
      var d := ByName(files);
      forall k | k in d.values
        ensures k in Names(files) && d.values[k] == files[LastIndexWithName(files, k)]
      {
        if k != n {
          assert k in d0.values;
          LastIndexAppendOther(init, last, k);
          assert files[LastIndexWithName(init, k)] == init[LastIndexWithName(init, k)];
        }
      }
    }
  }

  /** `keys` lists names of `files` in the order of each name's first record. */
  ghost predicate InFirstOccurrenceOrder(files: seq<RawFile>, keys: seq<Json>)
  {
    (forall k :: k in keys ==> k in Names(files)) &&
    forall p, q :: 0 <= p < q < |keys| ==>
      FirstIndexWithName(files, keys[p]) < FirstIndexWithName(files, keys[q])
  }

  lemma OrderAppendRecord(init: seq<RawFile>, last: RawFile, keys: seq<Json>)
    requires InFirstOccurrenceOrder(init, keys)
    ensures InFirstOccurrenceOrder(init + [last], keys)
    ensures NameOf(last) !in Names(init) ==> InFirstOccurrenceOrder(init + [last], keys + [NameOf(last)])
  {
    var files := init + [last];
    var n := NameOf(last);
    NamesAppend(init, last);
    forall k | k in keys ensures FirstIndexWithName(files, k) == FirstIndexWithName(init, k) {
      FirstIndexAppend(init, last, k);
    }
    if n !in Names(init) {
      OrderAppendNewName(init, last, keys);
    }
  }

  lemma OrderAppendNewName(init: seq<RawFile>, last: RawFile, keys: seq<Json>)
    requires InFirstOccurrenceOrder(init + [last], keys)
    requires forall k :: k in keys ==> k in Names(init)
    requires NameOf(last) !in Names(init)
    ensures InFirstOccurrenceOrder(init + [last], keys + [NameOf(last)])
  {
    var files, n := init + [last], NameOf(last);
    var ext := keys + [n];
    assert files[|init|] == last;
    assert FirstIndexWithName(files, n) == |init|;
    forall p, q | 0 <= p < q < |ext|
      ensures FirstIndexWithName(files, ext[p]) < FirstIndexWithName(files, ext[q])
    {
      assert ext[p] == keys[p];
      if q < |keys| { assert ext[q] == keys[q]; }
    }
  }

  /** The keys appear in the order of each name's first record. */
  lemma {:induction false} ByNameFirstOccurrenceOrder(files: seq<RawFile>)
    ensures InFirstOccurrenceOrder(files, ByName(files).keys)
    decreases |files|
  {
    if files != [] {
      var init := files[..|files| - 1];
      var last := files[|files| - 1];
      assert files == init + [last];
      ByNameFirstOccurrenceOrder(init);
      ByNameKeys(init);
      OrderAppendRecord(init, last, ByName(init).keys);
    }
  }

  /** The first record of each name in `names`, in that order. */
  function FirstRecords(files: seq<RawFile>, names: seq<Json>): (r: seq<RawFile>)
    requires forall i :: 0 <= i < |names| ==> names[i] in Names(files)
    ensures |r| == |names|
    ensures forall i :: 0 <= i < |names| ==> r[i] == files[FirstIndexWithName(files, names[i])]
  {
    seq(|names|, i requires 0 <= i < |names| => files[FirstIndexWithName(files, names[i])])
  }

  /** The first records of an enumeration of `names` carry exactly those
      names, each once. */
  lemma FirstRecordsNames(files: seq<RawFile>, order: seq<Json>, names: set<Json>)
    requires Enumerates(order, names) && names <= Names(files)
    ensures Names(FirstRecords(files, order)) == names
    ensures var rs := FirstRecords(files, order);
            forall p, q :: 0 <= p < q < |rs| ==> NameOf(rs[p]) != NameOf(rs[q])
  {
    var rs := FirstRecords(files, order);
    forall n | n in names ensures n in Names(rs) {
      var k :| 0 <= k < |order| && order[k] == n;
      assert NameOf(rs[k]) == n;
    }
  }

  /** The first records are records of the listing. */
  lemma FirstRecordsFromFiles(files: seq<RawFile>, order: seq<Json>)
    requires forall i :: 0 <= i < |order| ==> order[i] in Names(files)
    ensures forall r :: r in FirstRecords(files, order) ==> r in files
  {
    var rs := FirstRecords(files, order);
    forall r | r in rs ensures r in files {
      var k :| 0 <= k < |rs| && rs[k] == r;
      assert rs[k] == files[FirstIndexWithName(files, order[k])];
    }
  }

  /** The sync plan: names of the source that the target lacks. */
  function SyncPlan(src: seq<RawFile>, tgt: seq<RawFile>): (plan: set<Json>)
    ensures plan <= Names(src)
    ensures forall i :: 0 <= i < |src| && NameOf(src[i]) !in Names(tgt) ==> NameOf(src[i]) in plan
    ensures forall n :: n in plan ==> n !in Names(tgt)
  {
    Names(src) - Names(tgt)
  }

  /** Records with the same name are planned once. */
  lemma SyncPlanCollapsesNames(src: seq<RawFile>, tgt: seq<RawFile>, i: nat, j: nat)
    requires i < j < |src| && NameOf(src[i]) == NameOf(src[j]) && NameOf(src[i]) !in Names(tgt)
    ensures NameOf(src[i]) in SyncPlan(src, tgt)
    ensures SyncPlan(src, tgt) == SyncPlan(src[..j] + src[j + 1..], tgt)
  {
    NamesDropDuplicate(src, i, j);
  }

  /** Dropping a record whose name an earlier record carries keeps the names. */
  lemma NamesDropDuplicate(src: seq<RawFile>, i: nat, j: nat)
    requires i < j < |src| && NameOf(src[i]) == NameOf(src[j])
    ensures Names(src) == Names(src[..j] + src[j + 1..])
  {
    var rest := src[..j] + src[j + 1..];
    forall n | n in Names(src) ensures n in Names(rest) {
      var k :| 0 <= k < |src| && NameOf(src[k]) == n;
      if k < j { assert rest[k] == src[k]; }
      else if k == j { assert rest[i] == src[i]; }
      else { assert rest[k - 1] == src[k]; }
    }
    NamesDropSub(src, j);
  }

  lemma NamesDropSub(src: seq<RawFile>, j: nat)
    requires j < |src|
    ensures Names(src[..j] + src[j + 1..]) <= Names(src)
  {
    var rest := src[..j] + src[j + 1..];
    forall n | n in Names(rest) ensures n in Names(src) {
      var k :| 0 <= k < |rest| && NameOf(rest[k]) == n;
      if k < j { assert rest[k] == src[k]; } else { assert rest[k] == src[k + 1]; }
    }
  }
}
