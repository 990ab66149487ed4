/** The sync routes of the web API: comparing two services, starting a sync
    (a preview, or a job run in the background), the background job itself
    and the job status lookup. Jobs live in an in-memory store keyed by job
    id. */
module WebSync {
  import opened Common
  import opened Strings
  import opened Records
  import opened ServicesBase
  import opened WebFiles
  import WebRequests

  /** What an adapter's `list_files(limit=request.limit)` returns. */
  type Lister = CloudService -> Result<seq<RawFile>, Exception>

  /** Both adapters are chosen, then both list; the first exception stops
      the route. */
  function BothListings(a: string, b: string, auth: AuthStatus, list: Lister): (r: Result<(seq<RawFile>, seq<RawFile>), WebException>)
    ensures r.Ok? <==> GetService(a, auth).Ok? && GetService(b, auth).Ok? &&
                       list(GetService(a, auth).value).Ok? && list(GetService(b, auth).value).Ok?
    ensures r.Ok? ==> r.value == (list(GetService(a, auth).value).value, list(GetService(b, auth).value).value)
    ensures GetService(a, auth).Err? ==> r == Err(GetService(a, auth).error)
  {
    var s1 := GetService(a, auth);
    if s1.Err? then Err(s1.error)
    else
      var s2 := GetService(b, auth);
      if s2.Err? then Err(s2.error)
      else
        var f1 := list(s1.value);
        if f1.Err? then Err(Raised(f1.error))
        else
          var f2 := list(s2.value);
          if f2.Err? then Err(Raised(f2.error))
          else Ok((f1.value, f2.value))
  }

  /** A list of names as a response model's `List[str]` field: refused
      unless every name is a string. */
  function NameStrings(xs: seq<Json>): (r: Option<seq<string>>)
    ensures r.Some? <==> forall i :: 0 <= i < |xs| ==> xs[i].JStr?
    ensures r.Some? ==> |r.value| == |xs| && forall i :: 0 <= i < |xs| ==> xs[i] == JStr(r.value[i])
  {
    if forall i :: 0 <= i < |xs| ==> xs[i].JStr? then Some(seq(|xs|, i requires 0 <= i < |xs| => xs[i].s))
    else None
  }

  /** `list(s)`, converted to strings: each name of the set once. */
  ghost predicate ListsAll(xs: seq<string>, s: set<Json>)
  {
    |xs| == |s| &&
    (forall i, j :: 0 <= i < j < |xs| ==> xs[i] != xs[j]) &&
    (forall i :: 0 <= i < |xs| ==> JStr(xs[i]) in s) &&
    (forall n :: n in s ==> n.JStr? && n.s in xs)
  }

  /** `list(s)[:20]`, converted to strings: at most twenty names of the set,
      each once, and all of them when there are no more than twenty. */
  ghost predicate ListsUpTo20(xs: seq<string>, s: set<Json>)
  {
    |xs| == Min(20, |s|) &&
    (forall i, j :: 0 <= i < j < |xs| ==> xs[i] != xs[j]) &&
    (forall i :: 0 <= i < |xs| ==> JStr(xs[i]) in s) &&
    (|s| <= 20 ==> forall n :: n in s ==> n.JStr? && n.s in xs)
  }

  /** The string names of a prefix of an iteration order of `s`. */
  lemma CutNames(xs: seq<Json>, s: set<Json>, n: nat, strs: seq<string>)
    requires Enumerates(xs, s) && |xs| == |s| && n <= |xs|
    requires |strs| == n && forall i :: 0 <= i < n ==> xs[i] == JStr(strs[i])
    ensures forall i, j :: 0 <= i < j < |strs| ==> strs[i] != strs[j]
    ensures forall i :: 0 <= i < |strs| ==> JStr(strs[i]) in s
    ensures n == |xs| ==> forall m :: m in s ==> m.JStr? && m.s in strs
  {
    forall i, j | 0 <= i < j < |strs| ensures strs[i] != strs[j] {
      assert xs[i] != xs[j];
    }
    if n == |xs| {
      forall m | m in s ensures m.JStr? && m.s in strs {
        assert m in xs;
        var i :| 0 <= i < |xs| && xs[i] == m;
        assert strs[i] == m.s;
      }
    }
  }

  // ---------------------------------------------------------------- compare

  /** `CompareResponse`. */
  datatype CompareResponse = CompareResponse(
    service1: string, service2: string, totalInService1: nat, totalInService2: nat,
    commonFiles: nat, onlyInService1: seq<string>, onlyInService2: seq<string>)

  /** The `HTTPException` the comparison raises for any exception inside it. */
  function ComparisonFailed(e: WebException): WebException
  {
    Http(500, "Comparison failed: " + e.Str())
  }

  /** The twenty-name cut of an iteration order of `s`, as strings. */
  method FirstTwentyNames(s: set<Json>) returns (r: Option<seq<string>>)
    ensures (forall n :: n in s ==> n.JStr?) ==> r.Some?
    ensures r.None? ==> exists n :: n in s && !n.JStr?
    ensures r.Some? ==> ListsUpTo20(r.value, s)
  {
    var order := EnumerateSet(s);
    var cut := order[..Min(20, |order|)];
    r := NameStrings(cut);
    if r.Some? {
      CutNames(order, s, |cut|, r.value);
    } else {
      var i :| 0 <= i < |cut| && !cut[i].JStr?;
      assert cut[i] in s;
    }
  }

  /** `POST /sync/compare`: the totals count records, the others count
      distinct names; every failure, including the refusal of identical
      services, is reported as a 500. */
  method CompareServices(req: WebRequests.CompareRequest, auth: AuthStatus, list: Lister)
    returns (r: Result<CompareResponse, WebException>)
    ensures req.service1 == req.service2 ==> r == Err(ComparisonFailed(Http(400, "Services must be different")))
    ensures req.service1 != req.service2 && BothListings(req.service1, req.service2, auth, list).Err? ==>
              r == Err(ComparisonFailed(BothListings(req.service1, req.service2, auth, list).error))
    ensures req.service1 != req.service2 && BothListings(req.service1, req.service2, auth, list).Ok? ==>
              var (files1, files2) := BothListings(req.service1, req.service2, auth, list).value;
              var names1, names2 := Names(files1), Names(files2);
              ((forall n :: n in names1 - names2 ==> n.JStr?) && (forall n :: n in names2 - names1 ==> n.JStr?) ==> r.Ok?) &&
              (r.Err? ==> r.error == ComparisonFailed(Invalid("CompareResponse"))) &&
              (r.Ok? ==> r.value.service1 == req.service1 && r.value.service2 == req.service2 &&
                         r.value.totalInService1 == |files1| && r.value.totalInService2 == |files2| &&
                         r.value.commonFiles == |names1 * names2| &&
                         ListsUpTo20(r.value.onlyInService1, names1 - names2) &&
                         ListsUpTo20(r.value.onlyInService2, names2 - names1))
  {
    if req.service1 == req.service2 {
      return Err(ComparisonFailed(Http(400, "Services must be different")));
    }
    var both := BothListings(req.service1, req.service2, auth, list);
    if both.Err? {
      return Err(ComparisonFailed(both.error));
    }
    var (files1, files2) := both.value;
    var names1, names2 := Names(files1), Names(files2);
    var only1 := FirstTwentyNames(names1 - names2);
    var only2 := FirstTwentyNames(names2 - names1);
    if only1.None? || only2.None? {
      return Err(ComparisonFailed(Invalid("CompareResponse")));
    }
    r := Ok(CompareResponse(req.service1, req.service2, |files1|, |files2|, |names1 * names2|, only1.value, only2.value));
  }

  /** A listing has at most as many distinct names as records. */
  lemma {:induction false} NamesCard(files: seq<RawFile>)
    ensures |Names(files)| <= |files|
    decreases |files|
  {
    if files != [] {
      var init := files[..|files| - 1];
      assert files == init + [files[|files| - 1]];
      NamesAppend(init, files[|files| - 1]);
      NamesCard(init);
    }
  }

  /** The counts of a comparison fit together: each side's names split into
      the common ones and its own, and no count exceeds a total. */
  lemma CompareCountsAddUp(files1: seq<RawFile>, files2: seq<RawFile>)
    ensures |Names(files1) - Names(files2)| + |Names(files1) * Names(files2)| == |Names(files1)|
    ensures |Names(files1) * Names(files2)| <= |files1| && |Names(files1) * Names(files2)| <= |files2|
  {
    var n1, n2 := Names(files1), Names(files2);
    assert n1 == (n1 - n2) + (n1 * n2);
    assert (n1 - n2) * (n1 * n2) == {};
    NamesCard(files1);
    NamesCard(files2);
    assert n1 * n2 <= n2;
  }

  // ---------------------------------------------------------------- jobs

  datatype JobStatus = Pending | Running | Completed | Failed
  {
    /** The status as the job record stores it. */
    function Name(): string
    {
      match this
      case Pending => "pending"
      case Running => "running"
      case Completed => "completed"
      case Failed => "failed"
    }
  }

  /** One entry of the job store (`SyncJobResponse`). Timestamps are the
      ISO texts the job records. */
  datatype Job = Job(
    jobId: string, status: JobStatus, source: string, target: string,
    filesToSync: nat, filesSynced: nat,
    startedAt: Option<string>, completedAt: Option<string>, error: Option<string>)

  /** The job `sync_services` stores for a live sync. */
  function NewJob(jobId: string, source: string, target: string, count: nat): (j: Job)
    ensures j.status == Pending && j.filesSynced == 0 && j.filesToSync == count
    ensures j.startedAt == None && j.completedAt == None && j.error == None
    ensures j.jobId == jobId && j.source == source && j.target == target
  {
    Job(jobId, Pending, source, target, count, 0, None, None, None)
  }

  /** `SyncResponse`. */
  datatype SyncResponse = SyncResponse(jobId: string, message: string, dryRun: bool, filesToSync: seq<string>)

  /** The `HTTPException` the sync route raises for any exception inside it. */
  function SyncFailed(e: WebException): WebException
  {
    Http(500, "Sync failed: " + e.Str())
  }

  function DryRunMessage(count: nat): string
  {
    "Dry run: " + NatToString(count) + " files would be synced"
  }

  function StartedMessage(count: nat): string
  {
    "Sync started: " + NatToString(count) + " files to sync"
  }

  /** What `sync_services` does once both listings are in: the preview
      lists each missing name once; a live sync stores a pending job before
      building its response, so the job stays stored even when the
      response is refused. */
  ghost predicate StartsSync(before: map<string, Job>, after: map<string, Job>, req: WebRequests.SyncRequest,
                             src: seq<RawFile>, tgt: seq<RawFile>, newJobId: string, r: Result<SyncResponse, WebException>)
  {
    var plan := SyncPlan(src, tgt);
    (r.Ok? <==> forall n :: n in plan ==> n.JStr?) &&
    (r.Err? ==> r.error == SyncFailed(Invalid("SyncResponse"))) &&
    (r.Ok? ==> r.value.dryRun == req.dryRun && ListsAll(r.value.filesToSync, plan)) &&
    (r.Ok? && req.dryRun ==> r.value.jobId == "dry-run" && r.value.message == DryRunMessage(|plan|)) &&
    (r.Ok? && !req.dryRun ==> r.value.jobId == newJobId && r.value.message == StartedMessage(|plan|)) &&
    (req.dryRun ==> after == before) &&
    (!req.dryRun ==> after == before[newJobId := NewJob(newJobId, req.source, req.target, |plan|)])
  }

  // ---------------------------------------------------------------- job plan

  /** The keys of `d` whose name is not in `excluded`, in dictionary order. */
  function Filtered(keys: seq<Json>, excluded: set<Json>): (r: seq<Json>)
    ensures forall x :: x in r <==> x in keys && x !in excluded
    ensures |r| <= |keys|
  {
    if keys == [] then []
    else (if keys[0] in excluded then [] else [keys[0]]) + Filtered(keys[1..], excluded)
  }

  lemma {:induction false} FilteredDistinct(keys: seq<Json>, excluded: set<Json>)
    requires forall p, q :: 0 <= p < q < |keys| ==> keys[p] != keys[q]
    ensures forall p, q :: 0 <= p < q < |Filtered(keys, excluded)| ==> Filtered(keys, excluded)[p] != Filtered(keys, excluded)[q]
  {
    if keys != [] {
      var rest := keys[1..];
      forall p, q | 0 <= p < q < |rest| ensures rest[p] != rest[q] {
        assert rest[p] == keys[p + 1] && rest[q] == keys[q + 1];
      }
      FilteredDistinct(rest, excluded);
      assert keys[0] !in rest;
      assert keys[0] !in Filtered(rest, excluded);
      assert Filtered(keys, excluded) == (if keys[0] in excluded then [] else [keys[0]]) + Filtered(rest, excluded);
    }
  }

  /** `files_to_sync` of the background job: the source dictionary keyed by
      name (the last record of a name wins) without the target's names, as
      its records in dictionary order. */
  function JobPlan(src: seq<RawFile>, tgt: seq<RawFile>): seq<RawFile>
  {
    var d := ByName(src);
    var ks := Filtered(d.keys, Names(tgt));
    seq(|ks|, i requires 0 <= i < |ks| => d.values[ks[i]])
  }

  /** The names the job plans: the source's dictionary keys not on the target. */
  function JobPlanNames(src: seq<RawFile>, tgt: seq<RawFile>): seq<Json>
  {
    Filtered(ByName(src).keys, Names(tgt))
  }

  /** Each planned record is the last source record with its planned name. */
  lemma JobPlanEntries(src: seq<RawFile>, tgt: seq<RawFile>)
    ensures var plan, ks := JobPlan(src, tgt), JobPlanNames(src, tgt);
            |plan| == |ks| &&
            forall i :: 0 <= i < |ks| ==> ks[i] in Names(src) && NameOf(plan[i]) == ks[i] &&
                                          plan[i] == src[LastIndexWithName(src, ks[i])]
  {
    var d := ByName(src);
    var ks := JobPlanNames(src, tgt);
    ByNameLastWins(src);
    forall i | 0 <= i < |ks|
      ensures ks[i] in Names(src) && JobPlan(src, tgt)[i] == src[LastIndexWithName(src, ks[i])]
    {
      assert ks[i] in d.keys;
      assert ks[i] in d.values;
    }
  }

  /** The planned names are exactly the preview's plan, each once. */
  lemma JobPlanNamesAreSyncPlan(src: seq<RawFile>, tgt: seq<RawFile>)
    ensures var ks := JobPlanNames(src, tgt);
            (set k | k in ks) == SyncPlan(src, tgt) &&
            (forall p, q :: 0 <= p < q < |ks| ==> ks[p] != ks[q]) &&
            |ks| == |SyncPlan(src, tgt)|
  {
    var ks := JobPlanNames(src, tgt);
    JobPlanNameSet(src, tgt);
    JobPlanNamesDistinct(src, tgt);
    DistinctCard(ks);
  }

  lemma JobPlanNamesDistinct(src: seq<RawFile>, tgt: seq<RawFile>)
    ensures var ks := JobPlanNames(src, tgt); forall p, q :: 0 <= p < q < |ks| ==> ks[p] != ks[q]
  {
    var d := ByName(src);
    assert d.Valid();
    FilteredDistinct(d.keys, Names(tgt));
  }

  lemma JobPlanNameSet(src: seq<RawFile>, tgt: seq<RawFile>)
    ensures (set k | k in JobPlanNames(src, tgt)) == SyncPlan(src, tgt)
  {
    var d := ByName(src);
    ByNameKeys(src);
    assert forall k :: k in d.keys <==> k in Names(src);
  }

  /** The job transfers one record per missing name, so it plans as many
      files as the preview. */
  lemma JobPlanCoversSyncPlan(src: seq<RawFile>, tgt: seq<RawFile>)
    ensures |JobPlan(src, tgt)| == |SyncPlan(src, tgt)| && Names(JobPlan(src, tgt)) == SyncPlan(src, tgt)
  {
    var ks := JobPlanNames(src, tgt);
    var plan := JobPlan(src, tgt);
    JobPlanEntries(src, tgt);
    JobPlanNamesAreSyncPlan(src, tgt);
    NamesOfKeys(plan, ks);
  }

  lemma NamesOfKeys(files: seq<RawFile>, ks: seq<Json>)
    requires |files| == |ks| && forall i :: 0 <= i < |ks| ==> NameOf(files[i]) == ks[i]
    ensures Names(files) == set k | k in ks
  {
    forall n | n in Names(files) ensures n in ks {
      var i :| 0 <= i < |files| && NameOf(files[i]) == n;
    }
  }

  /** Unlike the command line, which copies the first record of a name, the
      job copies the last one, and each name once. */
  lemma JobPlanLastWins(src: seq<RawFile>, tgt: seq<RawFile>)
    ensures var plan := JobPlan(src, tgt);
            (forall p, q :: 0 <= p < q < |plan| ==> NameOf(plan[p]) != NameOf(plan[q])) &&
            (forall i :: 0 <= i < |plan| ==> NameOf(plan[i]) in Names(src) &&
                                             plan[i] == src[LastIndexWithName(src, NameOf(plan[i]))])
  {
    var ks := JobPlanNames(src, tgt);
    JobPlanEntries(src, tgt);
    JobPlanNamesAreSyncPlan(src, tgt);
  }

  /** A job after its planned transfers: failed with the text of the first
      exception, or completed at `completedAt`; each transferred file adds
      one to `filesSynced`. */
  function JobAfterTransfers(counted: Job, plan: seq<RawFile>, transfer: RawFile -> Option<Exception>, completedAt: string): (j: Job)
    ensures j.filesToSync == counted.filesToSync && j.startedAt == counted.startedAt
    ensures j.status == Completed || j.status == Failed
    ensures j.status == Completed <==> forall i :: 0 <= i < |plan| ==> TransferOutcome(plan[i], transfer).None?
    ensures j.status == Completed ==> j.filesSynced == counted.filesSynced + |plan| && j.completedAt == Some(completedAt) && j.error == counted.error
    ensures j.status == Failed ==> j.filesSynced < counted.filesSynced + |plan| && j.error.Some? && j.completedAt == counted.completedAt
    ensures j.status == Failed ==>
              FirstFailure(plan, transfer).Some? &&
              j.filesSynced == counted.filesSynced + FirstFailure(plan, transfer).value &&
              j.error == Some(TransferOutcome(plan[FirstFailure(plan, transfer).value], transfer).value.Str())
  {
    var k := FirstFailure(plan, transfer);
    if k.Some? then
      counted.(filesSynced := counted.filesSynced + k.value, status := Failed,
               error := Some(TransferOutcome(plan[k.value], transfer).value.Str()))
    else
      counted.(filesSynced := counted.filesSynced + |plan|, status := Completed, completedAt := Some(completedAt))
  }

  /** A running job once the listings are in: failed with the text of a
      listing exception, or its plan counted and transferred. */
  function JobAfterListing(running: Job, both: Result<(seq<RawFile>, seq<RawFile>), WebException>,
                           transfer: RawFile -> Option<Exception>, completedAt: string): (j: Job)
    ensures both.Err? ==> j == running.(status := Failed, error := Some(both.error.Str()))
    ensures both.Ok? ==> j == JobAfterTransfers(running.(filesToSync := |JobPlan(both.value.0, both.value.1)|),
                                                JobPlan(both.value.0, both.value.1), transfer, completedAt)
  {
    if both.Err? then running.(status := Failed, error := Some(both.error.Str()))
    else
      var plan := JobPlan(both.value.0, both.value.1);
      JobAfterTransfers(running.(filesToSync := |plan|), plan, transfer, completedAt)
  }

  /** What the background job leaves in a job record: it is running from
      `startedAt`, then lists both services and copies the planned files. */
  function JobAfterRun(job: Job, source: string, target: string, auth: AuthStatus, list: Lister,
                       transfer: RawFile -> Option<Exception>, startedAt: string, completedAt: string): Job
  {
    JobAfterListing(job.(status := Running, startedAt := Some(startedAt)), BothListings(source, target, auth, list),
                    transfer, completedAt)
  }

  /** A run ends completed or failed and never loses its start time; it
      completes exactly when both listings succeed and every planned file
      transfers, and then it has synced all of them and holds its end time. */
  lemma JobRunFinishes(job: Job, source: string, target: string, auth: AuthStatus, list: Lister,
                       transfer: RawFile -> Option<Exception>, startedAt: string, completedAt: string)
    ensures var j := JobAfterRun(job, source, target, auth, list, transfer, startedAt, completedAt);
            var both := BothListings(source, target, auth, list);
            (j.status == Completed || j.status == Failed) &&
            j.startedAt == Some(startedAt) &&
            j.filesSynced <= job.filesSynced + j.filesToSync &&
            (j.status == Completed <==>
               both.Ok? && forall i :: 0 <= i < |JobPlan(both.value.0, both.value.1)| ==>
                             TransferOutcome(JobPlan(both.value.0, both.value.1)[i], transfer).None?) &&
            (j.status == Completed ==> j.filesSynced == job.filesSynced + j.filesToSync && j.completedAt == Some(completedAt))
  {
    var running := job.(status := Running, startedAt := Some(startedAt));
    var both := BothListings(source, target, auth, list);
    assert JobAfterRun(job, source, target, auth, list, transfer, startedAt, completedAt) == JobAfterListing(running, both, transfer, completedAt);
  }

  /** The text the job records when `datetime` is not in scope. */
  const DatetimeMissing := "name 'datetime' is not defined"

  /** The in-memory job store `sync_jobs`. */
  class JobStore {
    var jobs: map<string, Job>

    constructor ()
      ensures jobs == map[]
    {
      jobs := map[];
    }

    /** `POST /sync/`: refuses identical services; otherwise lists both
        services and either previews the plan or stores a pending job under
        `newJobId` (a fresh UUID) for the background run. */
    method SyncServices(req: WebRequests.SyncRequest, auth: AuthStatus, list: Lister, newJobId: string)
      returns (r: Result<SyncResponse, WebException>)
      modifies this
      ensures req.source == req.target ==>
                r == Err(SyncFailed(Http(400, "Source and target must be different"))) && jobs == old(jobs)
      ensures req.source != req.target && BothListings(req.source, req.target, auth, list).Err? ==>
                r == Err(SyncFailed(BothListings(req.source, req.target, auth, list).error)) && jobs == old(jobs)
      ensures req.source != req.target && BothListings(req.source, req.target, auth, list).Ok? ==>
                var (src, tgt) := BothListings(req.source, req.target, auth, list).value;
                StartsSync(old(jobs), jobs, req, src, tgt, newJobId, r)
    {
      if req.source == req.target {
        return Err(SyncFailed(Http(400, "Source and target must be different")));
      }
      var both := BothListings(req.source, req.target, auth, list);
      if both.Err? {
        return Err(SyncFailed(both.error));
      }
      var (src, tgt) := both.value;
      var plan := SyncPlan(src, tgt);
      var order := EnumerateSet(plan);
      var names := NameStrings(order);
      if names.Some? {
        CutNames(order, plan, |order|, names.value);
      } else {
        var i :| 0 <= i < |order| && !order[i].JStr?;
        assert order[i] in plan;
      }
      if req.dryRun {
        if names.None? {
          return Err(SyncFailed(Invalid("SyncResponse")));
        }
        return Ok(SyncResponse("dry-run", DryRunMessage(|order|), true, names.value));
      }
      jobs := jobs[newJobId := NewJob(newJobId, req.source, req.target, |order|)];
      if names.None? {
        return Err(SyncFailed(Invalid("SyncResponse")));
      }
      r := Ok(SyncResponse(newJobId, StartedMessage(|order|), false, names.value));
    }

    /** `run_sync_job` as written: its first timestamp refers to `datetime`,
        which the module never imports (only `sync_services` imports it, into
        its own scope), so every run stops there and fails, after marking the
        job running and before listing anything. A job id missing from the
        store raises again inside the handler, and nothing changes. */
    method RunSyncJobAsWritten(jobId: string, source: string, target: string)
      modifies this
      ensures jobId !in old(jobs) ==> jobs == old(jobs)
      ensures jobId in old(jobs) ==>
                jobs == old(jobs)[jobId := old(jobs)[jobId].(status := Failed, error := Some(DatetimeMissing))]
    {
      if jobId !in jobs {
        return;
      }
      jobs := jobs[jobId := jobs[jobId].(status := Running)];
      // datetime.now() raises NameError here
      jobs := jobs[jobId := jobs[jobId].(status := Failed, error := Some(DatetimeMissing))];
    }

    /** `run_sync_job` with `datetime` in scope: marks the job running, lists
        both services, plans the missing files and transfers them one by one,
        counting each; the first exception fails the job with its text. */
    method RunSyncJob(jobId: string, source: string, target: string, auth: AuthStatus, list: Lister,
                      transfer: RawFile -> Option<Exception>, startedAt: string, completedAt: string)
      modifies this
      ensures jobId !in old(jobs) ==> jobs == old(jobs)
      ensures jobId in old(jobs) ==>
                jobs == old(jobs)[jobId := JobAfterRun(old(jobs)[jobId], source, target, auth, list, transfer, startedAt, completedAt)]
    {
      if jobId !in jobs {
        return;
      }
      var running := jobs[jobId].(status := Running, startedAt := Some(startedAt));
      jobs := jobs[jobId := running];
      var both := BothListings(source, target, auth, list);
      RunListed(jobId, running, both, transfer, completedAt);
    }

    /** `run_sync_job` after the job is marked running and both listings are in. */
    method RunListed(jobId: string, running: Job, both: Result<(seq<RawFile>, seq<RawFile>), WebException>,
                     transfer: RawFile -> Option<Exception>, completedAt: string)
      requires jobId in jobs && jobs[jobId] == running
      modifies this
      ensures jobs == old(jobs)[jobId := JobAfterListing(running, both, transfer, completedAt)]
    {
      if both.Err? {
        jobs := jobs[jobId := running.(status := Failed, error := Some(both.error.Str()))];
        return;
      }
      var plan := JobPlan(both.value.0, both.value.1);
      var counted := running.(filesToSync := |plan|);
      assert JobAfterListing(running, both, transfer, completedAt) == JobAfterTransfers(counted, plan, transfer, completedAt);
      jobs := jobs[jobId := counted];
      TransferPlan(jobId, counted, plan, transfer, completedAt);
      assert jobs == old(jobs)[jobId := counted][jobId := JobAfterTransfers(counted, plan, transfer, completedAt)];
    }

    /** The transfer loop of `run_sync_job`, on a job already counted. */
    method TransferPlan(jobId: string, counted: Job, plan: seq<RawFile>, transfer: RawFile -> Option<Exception>, completedAt: string)
      requires jobId in jobs && jobs[jobId] == counted
      modifies this
      ensures jobs == old(jobs)[jobId := JobAfterTransfers(counted, plan, transfer, completedAt)]
    {
      var i := 0;
      while i < |plan|
        invariant 0 <= i <= |plan|
        invariant jobs == old(jobs)[jobId := counted.(filesSynced := counted.filesSynced + i)]
        invariant forall j :: 0 <= j < i ==> TransferOutcome(plan[j], transfer).None?
      {
        var e := TransferOutcome(plan[i], transfer);
        if e.Some? {
          FirstFailureAt(plan, transfer, i);
          jobs := jobs[jobId := counted.(filesSynced := counted.filesSynced + i, status := Failed, error := Some(e.value.Str()))];
          return;
        }
        jobs := jobs[jobId := jobs[jobId].(filesSynced := jobs[jobId].filesSynced + 1)];
        i := i + 1;
      }
      FirstFailureNone(plan, transfer);
      jobs := jobs[jobId := counted.(filesSynced := counted.filesSynced + |plan|, status := Completed, completedAt := Some(completedAt))];
    }

    /** `GET /sync/status/{job_id}`. */
    method GetSyncStatus(jobId: string) returns (r: Result<Job, WebException>)
      ensures jobId in jobs ==> r == Ok(jobs[jobId])
      ensures jobId !in jobs ==> r == Err(Http(404, "Job not found"))
    {
      if jobId !in jobs {
        return Err(Http(404, "Job not found"));
      }
      return Ok(jobs[jobId]);
    }
  }
}
