/** The workflow graphs: the smart-sync pipeline (detect, validate, a
    conditional edge, sync), the Obsidian ingestion nodes (wiki-link
    extraction and vault indexing) and the workflow engine's catalogue and
    guard. Each node is a transformation of the state record; a graph is
    the explicit sequencing of its nodes along its edges. */
module Graphs {
  import opened Common
  import opened Strings
  import opened Records
  import opened Paths

  // ================================================================ smart-sync

  /** `SyncState`. `errors` and `should_continue` are `None` when the key is
      absent from the state dictionary. */
  datatype SyncState = SyncState(
    sourceService: string,
    targetService: string,
    dryRun: bool,
    filesDetected: seq<RawFile>,
    filesValidated: seq<RawFile>,
    filesSynced: seq<RawFile>,
    errors: Option<seq<string>>,
    logs: seq<string>,
    shouldContinue: Option<bool>,
    currentStep: string,
    startedAt: string,
    completedAt: Option<string>)

  /** The exception text of calling `ServiceFactory.get_service`, which the
      factory does not define. */
  const GetServiceMissing: string := "type object 'ServiceFactory' has no attribute 'get_service'"

  /** `detect_files_node`, given what listing the source service returns or
      the text of the exception it raises. */
  function DetectFiles(s: SyncState, listing: Result<seq<RawFile>, string>): (r: SyncState)
    ensures r.currentStep == "detect"
    ensures listing.Ok? ==> r.filesDetected == listing.value && r.shouldContinue == Some(|listing.value| > 0)
    ensures listing.Ok? ==> r.errors == s.errors
    ensures listing.Err? ==> r.errors == Some(["Detection failed: " + listing.error]) && r.shouldContinue == Some(false)
    ensures listing.Err? ==> r.filesDetected == s.filesDetected
    ensures r.(currentStep := s.currentStep, logs := s.logs, filesDetected := s.filesDetected,
               errors := s.errors, shouldContinue := s.shouldContinue) == s
  {
    var s1 := s.(currentStep := "detect", logs := ["Detecting files in " + s.sourceService + "..."]);
    if listing.Ok? then
      var files := listing.value;
      s1.(filesDetected := files, logs := ["Found " + NatToString(|files|) + " files"], shouldContinue := Some(|files| > 0))
    else
      s1.(errors := Some(["Detection failed: " + listing.error]), shouldContinue := Some(false))
  }

  /** `detect_files_node` as written: its lookup of the source service
      always raises, so detection always fails. */
  function DetectFilesAsWritten(s: SyncState): (r: SyncState)
    ensures r.errors == Some(["Detection failed: " + GetServiceMissing]) && r.shouldContinue == Some(false)
  {
    DetectFiles(s, Err(GetServiceMissing))
  }

  /** `validate_space_node`: every detected file is accepted, and
      `should_continue` is set whatever detection decided. */
  function ValidateSpace(s: SyncState): (r: SyncState)
    ensures r.currentStep == "validate"
    ensures r.filesValidated == s.filesDetected && r.shouldContinue == Some(true)
    ensures r.(currentStep := s.currentStep, logs := s.logs, filesValidated := s.filesValidated,
               shouldContinue := s.shouldContinue) == s
  {
    s.(currentStep := "validate",
       filesValidated := s.filesDetected,
       logs := ["Validated " + NatToString(|s.filesDetected|) + " files for sync"],
       shouldContinue := Some(true))
  }

  /** `sync_files_node` at time `now`: a dry run syncs nothing, a live run
      records every validated file as synced; both complete. */
  function SyncFiles(s: SyncState, now: string): (r: SyncState)
    ensures r.currentStep == "sync" && r.completedAt == Some(now)
    ensures s.dryRun ==> r.filesSynced == []
    ensures !s.dryRun ==> r.filesSynced == s.filesValidated
    ensures r.(currentStep := s.currentStep, logs := s.logs, filesSynced := s.filesSynced,
               completedAt := s.completedAt) == s
  {
    var n := NatToString(|s.filesValidated|);
    var s1 := s.(currentStep := "sync");
    var s2 :=
      if s.dryRun then s1.(logs := ["DRY RUN: Would sync " + n + " files"], filesSynced := [])
      else s1.(filesSynced := s.filesValidated, logs := ["Synced " + n + " files"]);
    s2.(completedAt := Some(now))
  }

  /** `should_continue_sync`: "sync" exactly when `should_continue` is true
      (false when absent) and `errors` is absent or empty. */
  function ShouldContinueSync(s: SyncState): (r: string)
    ensures r == "sync" || r == "end"
    ensures r == "sync" <==> s.shouldContinue == Some(true) && (s.errors.None? || s.errors.value == [])
  {
    if s.shouldContinue == Some(true) && (s.errors.None? || s.errors.value == []) then "sync" else "end"
  }

  /** After validation the route depends only on the errors: validation
      overrides detection's `should_continue`, so an empty listing is still
      routed to sync. */
  lemma RouteAfterValidate(s: SyncState)
    ensures ShouldContinueSync(ValidateSpace(s)) == "sync" <==> s.errors.None? || s.errors.value == []
  {
  }

  /** A failed detection always ends the run at the conditional edge. */
  lemma FailedDetectionEnds(s: SyncState, e: string)
    ensures ShouldContinueSync(ValidateSpace(DetectFiles(s, Err(e)))) == "end"
  {
  }

  /** The nodes of the sync graph. */
  datatype Node = Detect | Validate | Sync

  /** The graph's entry point. */
  const SyncEntry: Node := Detect

  /** The edges of `build_sync_graph`: detect → validate, validate → sync or
      END by `should_continue_sync`, sync → END (`None` is END). */
  function Successor(n: Node, s: SyncState): Option<Node>
  {
    match n
    case Detect => Some(Validate)
    case Validate => if ShouldContinueSync(s) == "sync" then Some(Sync) else None
    case Sync => None
  }

  /** A node's action on the state; `listing` and `now` are the inputs the
      nodes read from outside. */
  function Apply(n: Node, s: SyncState, listing: Result<seq<RawFile>, string>, now: string): SyncState
  {
    match n
    case Detect => DetectFiles(s, listing)
    case Validate => ValidateSpace(s)
    case Sync => SyncFiles(s, now)
  }

  function Rank(n: Node): nat
  {
    match n
    case Detect => 2
    case Validate => 1
    case Sync => 0
  }

  /** The run of the graph from node `n`: the nodes visited and the final state. */
  datatype Run = Run(trace: seq<Node>, final: SyncState)

  function RunFrom(n: Node, s: SyncState, listing: Result<seq<RawFile>, string>, now: string): Run
    decreases Rank(n)
  {
    var s' := Apply(n, s, listing, now);
    var next := Successor(n, s');
    if next.None? then Run([n], s')
    else
      assert Rank(next.value) < Rank(n);
      var rest := RunFrom(next.value, s', listing, now);
      Run([n] + rest.trace, rest.final)
  }

  /** The sync graph always runs detect then validate; it runs sync exactly
      when the route after validation says so, and ends straight after it. */
  lemma SyncGraphRuns(s: SyncState, listing: Result<seq<RawFile>, string>, now: string)
    ensures var run := RunFrom(SyncEntry, s, listing, now);
            var validated := ValidateSpace(DetectFiles(s, listing));
            run.trace[..2] == [Detect, Validate] &&
            (ShouldContinueSync(validated) == "sync" ==> run.trace == [Detect, Validate, Sync] && run.final == SyncFiles(validated, now)) &&
            (ShouldContinueSync(validated) == "end" ==> run.trace == [Detect, Validate] && run.final == validated)
  {
  }

  /** With a listing of the source, a live run over a state without errors
      records every listed file as synced. */
  lemma SmartSyncSyncsListing(s: SyncState, files: seq<RawFile>, now: string)
    requires !s.dryRun && (s.errors.None? || s.errors.value == [])
    ensures RunFrom(SyncEntry, s, Ok(files), now).final.filesSynced == files
    ensures RunFrom(SyncEntry, s, Ok(files), now).final.completedAt == Some(now)
  {
    SyncGraphRuns(s, Ok(files), now);
  }

  /** As written, detection fails, so the sync node never runs: nothing is
      synced and the run never completes. */
  lemma SmartSyncAsWrittenNeverSyncs(s: SyncState, now: string)
    ensures var run := RunFrom(SyncEntry, s, Err(GetServiceMissing), now);
            run.trace == [Detect, Validate] && run.final == ValidateSpace(DetectFilesAsWritten(s)) &&
            run.final.filesSynced == s.filesSynced && run.final.completedAt == s.completedAt
  {
    SyncGraphRuns(s, Err(GetServiceMissing), now);
  }

  // ================================================================ wiki links

  /** End of the run of characters from `i` that are neither ']' nor '|'. */
  function TargetEnd(s: string, i: nat): (j: nat)
    requires i <= |s|
    ensures i <= j <= |s|
    ensures forall k :: i <= k < j ==> s[k] != ']' && s[k] != '|'
    ensures j < |s| ==> s[j] == ']' || s[j] == '|'
    decreases |s| - i
  {
    if i == |s| || s[i] == ']' || s[i] == '|' then i else TargetEnd(s, i + 1)
  }

  /** End of the run of characters from `i` that are not ']'. */
  function AliasEnd(s: string, i: nat): (j: nat)
    requires i <= |s|
    ensures i <= j <= |s|
    ensures forall k :: i <= k < j ==> s[k] != ']'
    ensures j < |s| ==> s[j] == ']'
    decreases |s| - i
  {
    if i == |s| || s[i] == ']' then i else AliasEnd(s, i + 1)
  }

  /** A link target the pattern accepts: non-empty, without ']' or '|'. */
  predicate ValidTarget(t: string)
  {
    t != [] && ']' !in t && '|' !in t
  }

  /** An alias the pattern accepts: non-empty, without ']'. */
  predicate ValidAlias(a: string)
  {
    a != [] && ']' !in a
  }

  /** The pattern `\[\[([^\]|]+)(?:\|[^\]]+)?\]\]` as a language: `w` is
      `[[t]]` or `[[t|a]]`, and `t` is the captured target. */
  ghost predicate IsLink(w: string, t: string)
  {
    ValidTarget(t) &&
    (w == "[[" + t + "]]" || exists a :: ValidAlias(a) && w == "[[" + t + "|" + a + "]]")
  }

  /** A match of the pattern: its captured target and where it ends. */
  datatype LinkMatch = LinkMatch(target: string, end: nat)

  /** The pattern's match starting at `i`, if any. Greedy backtracking
      cannot find another: shortening either run leaves a character that
      neither '|' nor "]]" can follow. */
  function MatchAt(s: string, i: nat): (r: Option<LinkMatch>)
    requires i <= |s|
    ensures r.Some? ==> i + 4 + |r.value.target| <= r.value.end <= |s|
    ensures r.Some? ==> ValidTarget(r.value.target)
  {
    if i + 2 <= |s| && s[i] == '[' && s[i + 1] == '[' then
      var j := TargetEnd(s, i + 2);
      if j == i + 2 then None
      else if j + 1 < |s| && s[j] == ']' && s[j + 1] == ']' then Some(LinkMatch(s[i + 2..j], j + 2))
      else if j < |s| && s[j] == '|' then
        var k := AliasEnd(s, j + 1);
        if k > j + 1 && k + 1 < |s| && s[k + 1] == ']' then Some(LinkMatch(s[i + 2..j], k + 2))
        else None
      else None
    else None
  }

  /** Every match is a link of the pattern's language. */
  lemma MatchAtSound(s: string, i: nat)
    requires i <= |s| && MatchAt(s, i).Some?
    ensures IsLink(s[i..MatchAt(s, i).value.end], MatchAt(s, i).value.target)
  {
    var j := TargetEnd(s, i + 2);
    if j + 1 < |s| && s[j] == ']' && s[j + 1] == ']' {
      PlainSpelling(s, i, j);
    } else {
      AliasedSpelling(s, i, j, AliasEnd(s, j + 1));
    }
  }

  lemma PlainSpelling(s: string, i: nat, j: nat)
    requires i + 2 <= j && j + 1 < |s| && s[i] == '[' && s[i + 1] == '[' && s[j] == ']' && s[j + 1] == ']'
    ensures s[i..j + 2] == "[[" + s[i + 2..j] + "]]"
  {
  }

  lemma AliasedSpelling(s: string, i: nat, j: nat, k: nat)
    requires i + 2 <= j && j + 1 < k && k + 1 < |s| && s[i] == '[' && s[i + 1] == '[' && s[j] == '|' && s[k] == ']' && s[k + 1] == ']'
    requires forall x :: j + 1 <= x < k ==> s[x] != ']'
    ensures ValidAlias(s[j + 1..k])
    ensures s[i..k + 2] == "[[" + s[i + 2..j] + "|" + s[j + 1..k] + "]]"
  {
    var a := s[j + 1..k];
    forall x | 0 <= x < |a| ensures a[x] != ']' {
      assert a[x] == s[j + 1 + x];
    }
  }

  /** Every link of the pattern's language starting at `i` is the match
      found there. */
  lemma MatchAtComplete(s: string, i: nat, e: nat, t: string)
    requires i <= e <= |s| && IsLink(s[i..e], t)
    ensures MatchAt(s, i) == Some(LinkMatch(t, e))
  {
    var w := s[i..e];
    if w == "[[" + t + "]]" {
      PlainLinkMatches(s, i, e, t);
    } else {
      var a :| ValidAlias(a) && w == "[[" + t + "|" + a + "]]";
      AliasedLinkMatches(s, i, e, t, a);
    }
  }

  /** The characters of `s` from `i` on spell `w`. */
  lemma Spelled(s: string, i: nat, e: nat, w: string, x: nat)
    requires i <= e <= |s| && s[i..e] == w && x < |w|
    ensures i + x < |s| && s[i + x] == w[x]
  {
  }

  lemma TargetRun(s: string, i: nat, e: nat, t: string, tail: string)
    requires i <= e <= |s| && s[i..e] == "[[" + t + tail && ValidTarget(t) && tail != []
    requires tail[0] == ']' || tail[0] == '|'
    ensures s[i] == '[' && s[i + 1] == '[' && e >= i + 3 + |t|
    ensures TargetEnd(s, i + 2) == i + 2 + |t| && s[i + 2..i + 2 + |t|] == t
    ensures s[i + 2 + |t|] == tail[0]
  {
    var w := "[[" + t + tail;
    Spelled(s, i, e, w, 0);
    Spelled(s, i, e, w, 1);
    forall x | 0 <= x < |t| ensures s[i + 2 + x] == t[x] {
      Spelled(s, i, e, w, 2 + x);
    }
    Spelled(s, i, e, w, 2 + |t|);
    TargetEndAt(s, i + 2, i + 2 + |t|);
  }

  lemma PlainLinkMatches(s: string, i: nat, e: nat, t: string)
    requires i <= e <= |s| && ValidTarget(t) && s[i..e] == "[[" + t + "]]"
    ensures MatchAt(s, i) == Some(LinkMatch(t, e))
  {
    TargetRun(s, i, e, t, "]]");
    Spelled(s, i, e, "[[" + t + "]]", 3 + |t|);
  }

  lemma AliasedLinkMatches(s: string, i: nat, e: nat, t: string, a: string)
    requires i <= e <= |s| && ValidTarget(t) && ValidAlias(a) && s[i..e] == "[[" + t + "|" + a + "]]"
    ensures MatchAt(s, i) == Some(LinkMatch(t, e))
  {
    var p := "[[" + t + "|";
    assert "[[" + t + "|" + a + "]]" == "[[" + t + ("|" + a + "]]") == p + (a + "]]");
    TargetRun(s, i, e, t, "|" + a + "]]");
    SuffixPart(s, i, e, p, a + "]]");
    AliasedLinkTail(s, i + |p|, e, a, "]]");
    AliasedMatchAt(s, i, t, i + 3 + |t| + |a|, e);
  }

  lemma SuffixPart(s: string, i: nat, e: nat, p: string, r: string)
    requires i <= e <= |s| && s[i..e] == p + r
    ensures i + |p| <= e && s[i + |p|..e] == r
  {
    assert s[i + |p|..e] == s[i..e][|p|..];
  }

  /** The alias and the closing brackets of an aliased link. */
  lemma AliasedLinkTail(s: string, b: nat, e: nat, a: string, close: string)
    requires b <= e <= |s| && ValidAlias(a) && s[b..e] == a + close
    requires |close| == 2 && close[0] == ']' && close[1] == ']'
    ensures e == b + |a| + 2
    ensures AliasEnd(s, b) == b + |a| && s[b + |a| + 1] == ']'
  {
    var c := b + |a|;
    assert s[b..c] == s[b..e][..|a|] == a;
    assert s[c] == s[b..e][|a|] && s[c + 1] == s[b..e][|a| + 1];
    AliasRun(s, b, a);
  }

  /** The alias branch of the pattern, from the positions of '|' and of the
      closing brackets. */
  lemma AliasedMatchAt(s: string, i: nat, t: string, k: nat, e: nat)
    requires t != [] && i + 3 + |t| < k && e == k + 2 <= |s|
    requires s[i] == '[' && s[i + 1] == '[' && TargetEnd(s, i + 2) == i + 2 + |t| && s[i + 2..i + 2 + |t|] == t
    requires s[i + 2 + |t|] == '|' && AliasEnd(s, i + 3 + |t|) == k && s[k + 1] == ']'
    ensures MatchAt(s, i) == Some(LinkMatch(t, e))
  {
  }

  /** An alias spelled from `b` on and closed by ']' ends the alias run. */
  lemma AliasRun(s: string, b: nat, a: string)
    requires b + |a| < |s| && ValidAlias(a) && s[b + |a|] == ']'
    requires s[b..b + |a|] == a
    ensures AliasEnd(s, b) == b + |a|
  {
    forall k | b <= k < b + |a| ensures s[k] != ']' {
      assert s[k] == s[b..b + |a|][k - b];
      assert a[k - b] in a;
    }
    AliasEndAt(s, b, b + |a|);
  }

  lemma {:induction false} TargetEndAt(s: string, i: nat, j: nat)
    requires i <= j < |s| && (s[j] == ']' || s[j] == '|')
    requires forall k :: i <= k < j ==> s[k] != ']' && s[k] != '|'
    ensures TargetEnd(s, i) == j
    decreases j - i
  {
    if i < j {
      TargetEndAt(s, i + 1, j);
    }
  }

  lemma {:induction false} AliasEndAt(s: string, i: nat, j: nat)
    requires i <= j < |s| && s[j] == ']'
    requires forall k :: i <= k < j ==> s[k] != ']'
    ensures AliasEnd(s, i) == j
    decreases j - i
  {
    if i < j {
      AliasEndAt(s, i + 1, j);
    }
  }

  /** A match found by the scan: where it starts, its target, where it ends. */
  datatype Found = Found(start: nat, target: string, end: nat)

  /** `findall` from position `i`: left to right, resuming after each match. */
  function FindMatches(s: string, i: nat): (r: seq<Found>)
    requires i <= |s|
    ensures forall k :: 0 <= k < |r| ==> i <= r[k].start < r[k].end <= |s| && ValidTarget(r[k].target)
    decreases |s| - i
  {
    if i == |s| then []
    else
      var m := MatchAt(s, i);
      if m.Some? then [Found(i, m.value.target, m.value.end)] + FindMatches(s, m.value.end)
      else FindMatches(s, i + 1)
  }

  /** Each found match is the pattern's match at its start. */
  lemma {:induction false} FoundAreMatches(s: string, i: nat, k: nat)
    requires i <= |s| && k < |FindMatches(s, i)|
    ensures MatchAt(s, FindMatches(s, i)[k].start) ==
            Some(LinkMatch(FindMatches(s, i)[k].target, FindMatches(s, i)[k].end))
    decreases |s| - i
  {
    var m := MatchAt(s, i);
    if m.Some? {
      if k > 0 {
        FoundAreMatches(s, m.value.end, k - 1);
      }
    } else {
      FoundAreMatches(s, i + 1, k);
    }
  }

  /** The matches are found left to right and do not overlap. */
  lemma {:induction false} FoundInOrder(s: string, i: nat, k: nat, l: nat)
    requires i <= |s| && k < l < |FindMatches(s, i)|
    ensures FindMatches(s, i)[k].end <= FindMatches(s, i)[l].start
    decreases |s| - i
  {
    var r := FindMatches(s, i);
    assert i < |s|;
    FindMatchesUnfold(s, i);
    var m := MatchAt(s, i);
    if m.Some? {
      var e := m.value.end;
      var rest := FindMatches(s, e);
      assert r[l] == rest[l - 1];
      if k > 0 {
        FoundInOrder(s, e, k - 1, l - 1);
        assert r[k] == rest[k - 1];
      } else {
        assert r[0].end == e <= rest[l - 1].start;
      }
    } else {
      assert r == FindMatches(s, i + 1);
      FoundInOrder(s, i + 1, k, l);
    }
  }

  /** One step of the scan: a match at `i` is taken and the scan resumes at
      its end; otherwise the scan moves one character on. */
  lemma FindMatchesUnfold(s: string, i: nat)
    requires i < |s|
    ensures MatchAt(s, i).Some? ==>
              FindMatches(s, i) == [Found(i, MatchAt(s, i).value.target, MatchAt(s, i).value.end)] + FindMatches(s, MatchAt(s, i).value.end)
    ensures MatchAt(s, i).None? ==> FindMatches(s, i) == FindMatches(s, i + 1)
  {
  }

  /** No link is skipped: every position where the pattern matches is the
      start of a found match or lies inside one. */
  lemma {:induction false} NoLinkSkipped(s: string, i: nat, p: nat) returns (k: nat)
    requires i <= p < |s| && MatchAt(s, p).Some?
    ensures k < |FindMatches(s, i)| && FindMatches(s, i)[k].start <= p < FindMatches(s, i)[k].end
    decreases |s| - i
  {
    FindMatchesUnfold(s, i);
    if MatchAt(s, i).Some? {
      k := NoLinkSkippedAfterMatch(s, i, p);
    } else {
      assert p != i;
      k := NoLinkSkipped(s, i + 1, p);
    }
  }

  lemma {:induction false} NoLinkSkippedAfterMatch(s: string, i: nat, p: nat) returns (k: nat)
    requires i <= p < |s| && MatchAt(s, p).Some? && MatchAt(s, i).Some?
    ensures k < |FindMatches(s, i)| && FindMatches(s, i)[k].start <= p < FindMatches(s, i)[k].end
    decreases |s| - i, 0
  {
    var e := MatchAt(s, i).value.end;
    FindMatchesUnfold(s, i);
    if p < e {
      k := 0;
    } else {
      var k' := NoLinkSkipped(s, e, p);
      k := k' + 1;
      FoundAfterMatch(s, i, k');
    }
  }

  /** After a match at `i`, the scan's later matches are those from its end. */
  lemma FoundAfterMatch(s: string, i: nat, k: nat)
    requires i < |s| && MatchAt(s, i).Some? && k < |FindMatches(s, MatchAt(s, i).value.end)|
    ensures k + 1 < |FindMatches(s, i)| && FindMatches(s, i)[k + 1] == FindMatches(s, MatchAt(s, i).value.end)[k]
  {
    FindMatchesUnfold(s, i);
  }

  /** `wiki_link_pattern.findall(content)`: the captured targets. */
  function Links(content: string): (r: seq<string>)
    ensures forall k :: 0 <= k < |r| ==> ValidTarget(r[k])
  {
    var found := FindMatches(content, 0);
    seq(|found|, k requires 0 <= k < |found| => found[k].target)
  }

  /** `[[Note]]` and `[[Other|shown]]` give the targets Note and Other. */
  lemma LinksExample(c: string)
    requires c == "[[Note]] [[Other|shown]]"
    ensures Links(c) == ["Note", "Other"]
  {
    assert c[0..8] == "[[" + "Note" + "]]";
    PlainLinkMatches(c, 0, 8, "Note");
    assert c[9..24] == "[[" + "Other" + "|" + "shown" + "]]";
    AliasedLinkMatches(c, 9, 24, "Other", "shown");
    assert FindMatches(c, 9) == [Found(9, "Other", 24)] + FindMatches(c, 24);
    assert FindMatches(c, 8) == FindMatches(c, 9);
    assert FindMatches(c, 0) == [Found(0, "Note", 8), Found(9, "Other", 24)];
  }


  // ================================================================ obsidian

  /** `ObsidianState` without its log lines. */
  datatype ObsidianState = ObsidianState(
    vaultPath: string,
    filesFound: seq<string>,
    filesIndexed: seq<string>,
    backlinksGraph: map<string, seq<string>>,
    errors: seq<string>,
    currentStep: string)

  /** A dictionary filled by a loop that, for each element in order that
      passes `keep`, stores `val` under `key`, overwriting earlier entries. */
  function LastValues<X, K, V>(xs: seq<X>, keep: X -> bool, key: X -> K, val: X -> V): map<K, V>
    decreases |xs|
  {
    if xs == [] then map[]
    else
      var x := xs[|xs| - 1];
      var m := LastValues(xs[..|xs| - 1], keep, key, val);
      if keep(x) then m[key(x) := val(x)] else m
  }

  /** The backlinks dictionary after reading `files` in order: each readable
      file sets the entry of its stem to its links. `read` gives a file's
      content or the text of the exception reading it raises. */
  function Backlinks(files: seq<string>, read: string -> Result<string, string>): map<string, seq<string>>
  {
    LastValues(files, (f: string) => read(f).Ok?, (f: string) => Stem(f),
               (f: string) => if read(f).Ok? then Links(read(f).value) else [])
  }

  /** The message of the last file that could not be read, if any. */
  function LastReadError(files: seq<string>, read: string -> Result<string, string>): Option<string>
    decreases |files|
  {
    if files == [] then None
    else
      var f := files[|files| - 1];
      if read(f).Err? then Some("Error reading " + f + ": " + read(f).error)
      else LastReadError(files[..|files| - 1], read)
  }

  /** A key is stored exactly when some kept element has it. */
  lemma {:induction false} LastValuesKeys<X, K, V>(xs: seq<X>, keep: X -> bool, key: X -> K, val: X -> V, k: K)
    ensures k in LastValues(xs, keep, key, val) <==> exists i :: 0 <= i < |xs| && keep(xs[i]) && key(xs[i]) == k
    decreases |xs|
  {
    if xs != [] {
      var init := xs[..|xs| - 1];
      LastValuesKeys(init, keep, key, val, k);
      if exists i :: 0 <= i < |init| && keep(init[i]) && key(init[i]) == k {
        var i :| 0 <= i < |init| && keep(init[i]) && key(init[i]) == k;
        assert xs[i] == init[i];
      }
      if exists i :: 0 <= i < |xs| && keep(xs[i]) && key(xs[i]) == k {
        var i :| 0 <= i < |xs| && keep(xs[i]) && key(xs[i]) == k;
        if i < |init| {
          assert init[i] == xs[i];
        }
      }
    }
  }

  /** A key holds the value of the last kept element with that key. */
  lemma {:induction false} LastValuesLastWins<X, K, V>(xs: seq<X>, keep: X -> bool, key: X -> K, val: X -> V, i: nat)
    requires i < |xs| && keep(xs[i])
    requires forall j :: i < j < |xs| && keep(xs[j]) ==> key(xs[j]) != key(xs[i])
    ensures key(xs[i]) in LastValues(xs, keep, key, val)
    ensures LastValues(xs, keep, key, val)[key(xs[i])] == val(xs[i])
    decreases |xs|
  {
    var init := xs[..|xs| - 1];
    if i < |xs| - 1 {
      assert init[i] == xs[i];
      forall j | i < j < |init| && keep(init[j]) ensures key(init[j]) != key(init[i]) {
        assert init[j] == xs[j];
      }
      LastValuesLastWins(init, keep, key, val, i);
    }
  }

  /** The dictionary has an entry for a stem exactly when some readable file
      has that stem. */
  lemma BacklinksKeys(files: seq<string>, read: string -> Result<string, string>, k: string)
    ensures k in Backlinks(files, read) <==> exists i :: 0 <= i < |files| && read(files[i]).Ok? && Stem(files[i]) == k
  {
    LastValuesKeys(files, (f: string) => read(f).Ok?, (f: string) => Stem(f),
                   (f: string) => if read(f).Ok? then Links(read(f).value) else [], k);
  }

  /** The entry of a stem holds the links of the last readable file with
      that stem: a later file with the same stem overwrites an earlier one. */
  lemma BacklinksLastWins(files: seq<string>, read: string -> Result<string, string>, i: nat)
    requires i < |files| && read(files[i]).Ok?
    requires forall j :: i < j < |files| && read(files[j]).Ok? ==> Stem(files[j]) != Stem(files[i])
    ensures Stem(files[i]) in Backlinks(files, read)
    ensures Backlinks(files, read)[Stem(files[i])] == Links(read(files[i]).value)
  {
    LastValuesLastWins(files, (f: string) => read(f).Ok?, (f: string) => Stem(f),
                       (f: string) => if read(f).Ok? then Links(read(f).value) else [], i);
  }

  /** Reading one more file updates the dictionary and the last error. */
  lemma BacklinksStep(files: seq<string>, read: string -> Result<string, string>, i: nat)
    requires i < |files|
    ensures var f := files[i];
            Backlinks(files[..i + 1], read) ==
              if read(f).Ok? then Backlinks(files[..i], read)[Stem(f) := Links(read(f).value)] else Backlinks(files[..i], read)
    ensures var f := files[i];
            LastReadError(files[..i + 1], read) ==
              if read(f).Err? then Some("Error reading " + f + ": " + read(f).error) else LastReadError(files[..i], read)
  {
    assert files[..i + 1][..i] == files[..i];
  }

  /** `extract_backlinks_node`: reads every found file in order, keeping the
      links of each readable one under its stem; a failed read replaces the
      errors with its message. */
  method ExtractBacklinks(s: ObsidianState, read: string -> Result<string, string>) returns (r: ObsidianState)
    ensures r.backlinksGraph == Backlinks(s.filesFound, read)
    ensures LastReadError(s.filesFound, read).Some? ==> r.errors == [LastReadError(s.filesFound, read).value]
    ensures LastReadError(s.filesFound, read).None? ==> r.errors == s.errors
    ensures r == s.(currentStep := "backlinks", backlinksGraph := r.backlinksGraph, errors := r.errors)
  {
    var backlinks, errors := ReadBacklinks(s.filesFound, read, s.errors);
    r := s.(currentStep := "backlinks", backlinksGraph := backlinks, errors := errors);
  }

  /** The loop of `extract_backlinks_node` over the found files. */
  method ReadBacklinks(files: seq<string>, read: string -> Result<string, string>, errors0: seq<string>)
    returns (backlinks: map<string, seq<string>>, errors: seq<string>)
    ensures backlinks == Backlinks(files, read)
    ensures LastReadError(files, read).Some? ==> errors == [LastReadError(files, read).value]
    ensures LastReadError(files, read).None? ==> errors == errors0
  {
    backlinks, errors := map[], errors0;
    var i := 0;
    while i < |files|
      invariant 0 <= i <= |files|
      invariant backlinks == Backlinks(files[..i], read)
      invariant LastReadError(files[..i], read).Some? ==> errors == [LastReadError(files[..i], read).value]
      invariant LastReadError(files[..i], read).None? ==> errors == errors0
    {
      backlinks, errors := ReadOneBacklink(files, read, i, backlinks, errors, errors0);
      i := i + 1;
    }
    assert files[..i] == files;
  }

  /** One iteration: the file's links go under its stem, or its read error
      replaces the errors. */
  method ReadOneBacklink(files: seq<string>, read: string -> Result<string, string>, i: nat,
                         backlinks: map<string, seq<string>>, errors: seq<string>, errors0: seq<string>)
    returns (backlinks': map<string, seq<string>>, errors': seq<string>)
    requires i < |files|
    requires backlinks == Backlinks(files[..i], read)
    requires LastReadError(files[..i], read).Some? ==> errors == [LastReadError(files[..i], read).value]
    requires LastReadError(files[..i], read).None? ==> errors == errors0
    ensures backlinks' == Backlinks(files[..i + 1], read)
    ensures LastReadError(files[..i + 1], read).Some? ==> errors' == [LastReadError(files[..i + 1], read).value]
    ensures LastReadError(files[..i + 1], read).None? ==> errors' == errors0
  {
    var f := files[i];
    BacklinksStep(files, read, i);
    var content := read(f);
    backlinks', errors' := backlinks, errors;
    if content.Ok? {
      backlinks' := backlinks[Stem(f) := Links(content.value)];
    } else {
      errors' := ["Error reading " + f + ": " + content.error];
    }
  }

  /** `index_vault_node` tries at most this many found files. */
  const IndexLimit: nat := 50

  /** One call of `index_file` from the vault node. */
  datatype IndexRequest = IndexRequest(filePath: string, fileId: string, backlinks: seq<string>)

  /** The request for a found file: id "obsidian:" + stem, with the file's
      backlinks as metadata (none when its stem has no entry). */
  function RequestFor(s: ObsidianState, path: string): (q: IndexRequest)
    ensures q.filePath == path && q.fileId == "obsidian:" + Stem(path)
    ensures Stem(path) in s.backlinksGraph ==> q.backlinks == s.backlinksGraph[Stem(path)]
    ensures Stem(path) !in s.backlinksGraph ==> q.backlinks == []
  {
    var stem := Stem(path);
    IndexRequest(path, "obsidian:" + stem, if stem in s.backlinksGraph then s.backlinksGraph[stem] else [])
  }

  /** The requests for the files tried, in order. */
  function Requests(s: ObsidianState, paths: seq<string>): (qs: seq<IndexRequest>)
    ensures |qs| == |paths| && forall k :: 0 <= k < |paths| ==> qs[k] == RequestFor(s, paths[k])
  {
    seq(|paths|, k requires 0 <= k < |paths| => RequestFor(s, paths[k]))
  }

  /** The files whose requests succeeded, in order. `index` gives
      `index_file`'s result or the text of the exception it raises. */
  function Indexed(qs: seq<IndexRequest>, index: IndexRequest -> Result<bool, string>): seq<string>
    decreases |qs|
  {
    if qs == [] then []
    else
      var q := qs[|qs| - 1];
      var done := Indexed(qs[..|qs| - 1], index);
      if index(q) == Ok(true) then done + [q.filePath] else done
  }

  /** The message of the last request that raised, if any. */
  function LastIndexError(qs: seq<IndexRequest>, index: IndexRequest -> Result<bool, string>): Option<string>
    decreases |qs|
  {
    if qs == [] then None
    else
      var q := qs[|qs| - 1];
      if index(q).Err? then Some("Failed to index " + q.filePath + ": " + index(q).error)
      else LastIndexError(qs[..|qs| - 1], index)
  }

  /** `a` is `b` with some elements left out, order kept. */
  predicate IsSubsequence(a: seq<string>, b: seq<string>)
    decreases |b|
  {
    if a == [] then true
    else if b == [] then false
    else (a[|a| - 1] == b[|b| - 1] && IsSubsequence(a[..|a| - 1], b[..|b| - 1])) || IsSubsequence(a, b[..|b| - 1])
  }

  /** The paths of the requests. */
  function PathsOf(qs: seq<IndexRequest>): (ps: seq<string>)
    ensures |ps| == |qs| && forall k :: 0 <= k < |qs| ==> ps[k] == qs[k].filePath
  {
    seq(|qs|, k requires 0 <= k < |qs| => qs[k].filePath)
  }

  /** Each indexed file comes from a request that was indexed successfully. */
  lemma {:induction false} IndexedSucceeded(qs: seq<IndexRequest>, index: IndexRequest -> Result<bool, string>)
    ensures forall x :: x in Indexed(qs, index) ==> exists k :: 0 <= k < |qs| && qs[k].filePath == x && index(qs[k]) == Ok(true)
    decreases |qs|
  {
    if qs != [] {
      var init := qs[..|qs| - 1];
      IndexedSucceeded(init, index);
      forall x | x in Indexed(init, index) ensures exists k :: 0 <= k < |qs| && qs[k].filePath == x && index(qs[k]) == Ok(true) {
        var k :| 0 <= k < |init| && init[k].filePath == x && index(init[k]) == Ok(true);
        assert qs[k] == init[k];
      }
    }
  }

  /** The indexed files are a subsequence of those tried, and each of them
      was indexed successfully. */
  lemma {:induction false} IndexedSubsequence(qs: seq<IndexRequest>, index: IndexRequest -> Result<bool, string>)
    ensures IsSubsequence(Indexed(qs, index), PathsOf(qs))
    ensures |Indexed(qs, index)| <= |qs|
    ensures forall x :: x in Indexed(qs, index) ==> exists k :: 0 <= k < |qs| && qs[k].filePath == x && index(qs[k]) == Ok(true)
    decreases |qs|
  {
    IndexedSucceeded(qs, index);
    if qs != [] {
      var init := qs[..|qs| - 1];
      var q := qs[|qs| - 1];
      IndexedSubsequence(init, index);
      var done := Indexed(init, index);
      assert PathsOf(qs)[..|qs| - 1] == PathsOf(init);
      if index(q) == Ok(true) {
        assert (done + [q.filePath])[..|done|] == done;
      }
    }
  }

  /** `index_vault_node`. `setupError` is the text of the exception creating
      the indexer raises, if it does. */
  method IndexVault(s: ObsidianState, setupError: Option<string>, index: IndexRequest -> Result<bool, string>)
    returns (r: ObsidianState)
    ensures setupError.Some? ==>
              r == s.(currentStep := "index", errors := ["Indexing failed: " + setupError.value], filesIndexed := [])
    ensures setupError.None? ==>
              var qs := Requests(s, s.filesFound[..Min(IndexLimit, |s.filesFound|)]);
              var e := LastIndexError(qs, index);
              r.filesIndexed == Indexed(qs, index) &&
              (e.Some? ==> r.errors == [e.value]) && (e.None? ==> r.errors == s.errors) &&
              r == s.(currentStep := "index", filesIndexed := r.filesIndexed, errors := r.errors)
  {
    if setupError.Some? {
      return s.(currentStep := "index", errors := ["Indexing failed: " + setupError.value], filesIndexed := []);
    }
    var qs := Requests(s, s.filesFound[..Min(IndexLimit, |s.filesFound|)]);
    var indexed, lastError := IndexAll(qs, index);
    var errors := if lastError.Some? then [lastError.value] else s.errors;
    r := s.(currentStep := "index", filesIndexed := indexed, errors := errors);
  }

  /** The loop of `index_vault_node`: one `index_file` call per request. */
  method IndexAll(qs: seq<IndexRequest>, index: IndexRequest -> Result<bool, string>)
    returns (indexed: seq<string>, lastError: Option<string>)
    ensures indexed == Indexed(qs, index) && lastError == LastIndexError(qs, index)
  {
    indexed, lastError := [], None;
    var i := 0;
    while i < |qs|
      invariant 0 <= i <= |qs|
      invariant indexed == Indexed(qs[..i], index)
      invariant lastError == LastIndexError(qs[..i], index)
    {
      var q := qs[i];
      assert qs[..i + 1][..i] == qs[..i];
      var outcome := index(q);
      if outcome.Err? {
        lastError := Some("Failed to index " + q.filePath + ": " + outcome.error);
      } else if outcome.value {
        indexed := indexed + [q.filePath];
      }
      i := i + 1;
    }
    assert qs[..i] == qs;
  }

  /** At most the first fifty found files are tried, in order, each with id
      "obsidian:" + its stem; those indexed are a subsequence of them. */
  lemma IndexVaultLimit(s: ObsidianState, index: IndexRequest -> Result<bool, string>)
    ensures var tried := s.filesFound[..Min(IndexLimit, |s.filesFound|)];
            var qs := Requests(s, tried);
            PathsOf(qs) == tried && |Indexed(qs, index)| <= IndexLimit && IsSubsequence(Indexed(qs, index), tried) &&
            forall k :: 0 <= k < |qs| ==> qs[k].fileId == "obsidian:" + Stem(tried[k])
  {
    var tried := s.filesFound[..Min(IndexLimit, |s.filesFound|)];
    var qs := Requests(s, tried);
    assert PathsOf(qs) == tried;
    IndexedSubsequence(qs, index);
  }

  // ================================================================ engine

  /** The workflow engine: the names of the graphs it could build. */
  datatype WorkflowEngine = WorkflowEngine(graphs: set<string>)

  /** `WorkflowEngine()`: all three graphs when LangGraph is installed, none
      otherwise. */
  function NewWorkflowEngine(langGraphAvailable: bool): (e: WorkflowEngine)
    ensures langGraphAvailable ==> e.graphs == {"smart-sync", "rag-search", "obsidian-ingest"}
    ensures !langGraphAvailable ==> e.graphs == {}
  {
    if langGraphAvailable then WorkflowEngine({"smart-sync", "rag-search", "obsidian-ingest"})
    else WorkflowEngine({})
  }

  datatype WorkflowInfo = WorkflowInfo(name: string, description: string, nodes: string)

  /** `list_workflows`: the fixed catalogue, whichever graphs were built. */
  function ListWorkflows(e: WorkflowEngine): (r: seq<WorkflowInfo>)
    ensures |r| == 3
    ensures r[0].name == "smart-sync" && r[1].name == "rag-search" && r[2].name == "obsidian-ingest"
    ensures r[0].description == "Sync files between cloud services with validation" && r[0].nodes == "detect → validate → sync"
    ensures r[1].description == "Semantic search with RAG (retrieve → reason)" && r[1].nodes == "embed → retrieve → reason"
    ensures r[2].description == "Ingest Obsidian vault with backlinks graph" && r[2].nodes == "scan → backlinks → index"
  {
    [WorkflowInfo("smart-sync", "Sync files between cloud services with validation", "detect → validate → sync"),
     WorkflowInfo("rag-search", "Semantic search with RAG (retrieve → reason)", "embed → retrieve → reason"),
     WorkflowInfo("obsidian-ingest", "Ingest Obsidian vault with backlinks graph", "scan → backlinks → index")]
  }

  /** The catalogue names exactly the graphs an engine with LangGraph builds,
      each once. */
  lemma ListedWorkflowsAreBuilt(e: WorkflowEngine)
    ensures (set w | w in ListWorkflows(e) :: w.name) == NewWorkflowEngine(true).graphs
    ensures forall i, j :: 0 <= i < j < |ListWorkflows(e)| ==> ListWorkflows(e)[i].name != ListWorkflows(e)[j].name
  {
    var r := ListWorkflows(e);
    assert r[0] in r && r[1] in r && r[2] in r;
    assert forall w :: w in r ==> w == r[0] || w == r[1] || w == r[2];
  }

  /** The state `execute_sync` starts the graph from. */
  function InitialSyncState(source: string, target: string, dryRun: bool, startedAt: string): (s: SyncState)
    ensures s.sourceService == source && s.targetService == target && s.dryRun == dryRun
    ensures s.shouldContinue == Some(true) && s.currentStep == "init" && s.errors == Some([])
    ensures s.filesDetected == [] && s.filesValidated == [] && s.filesSynced == [] && s.completedAt == None
  {
    SyncState(source, target, dryRun, [], [], [], Some([]), [], Some(true), "init", startedAt, None)
  }

  /** What `execute_sync` returns: the error dictionary or the final state. */
  datatype EngineResult = EngineError(error: string) | Finished(state: SyncState)

  /** `execute_sync`: refused when the sync graph is not registered,
      otherwise the run of the sync graph from the initial state. */
  function ExecuteSync(e: WorkflowEngine, source: string, target: string, dryRun: bool, startedAt: string,
                       listing: Result<seq<RawFile>, string>, now: string): (r: EngineResult)
    ensures "smart-sync" !in e.graphs <==> r == EngineError("LangGraph not available")
    ensures r.Finished? ==> r.state.sourceService == source && r.state.targetService == target
    ensures r.Finished? && listing.Ok? ==> r.state.completedAt == Some(now) && r.state.filesDetected == listing.value
    ensures r.Finished? && listing.Ok? && !dryRun ==> r.state.filesSynced == listing.value
    ensures r.Finished? && dryRun ==> r.state.filesSynced == []
    ensures r.Finished? && listing.Err? ==>
              r.state.completedAt == None && r.state.errors == Some(["Detection failed: " + listing.error])
  {
    if "smart-sync" !in e.graphs then EngineError("LangGraph not available")
    else
      var s := InitialSyncState(source, target, dryRun, startedAt);
      SyncGraphRuns(s, listing, now);
      Finished(RunFrom(SyncEntry, s, listing, now).final)
  }
}
