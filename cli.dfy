/** The command-line front end: the icon and size helpers, the session
    commands over the memory store, and the `sync` and `compare` commands
    over two drives. A drive is given by its registered adapter class, the
    token its stored credentials hold and what its `list_files` returns or
    raises; downloads and uploads are an abstract `transfer` outcome. */
module Cli {
  import opened Common
  import opened Strings
  import opened Records
  import opened ServicesBase
  import opened Memory

  // ---------------------------------------------------------------- icons

  datatype Icon =
    | FolderIcon | PdfIcon | DocumentIcon | SpreadsheetIcon | PresentationIcon
    | ImageIcon | VideoIcon | AudioIcon | DefaultIcon

  /** The order in which `_get_file_icon` tests the icons. */
  const IconOrder: seq<Icon> :=
    [FolderIcon, PdfIcon, DocumentIcon, SpreadsheetIcon, PresentationIcon, ImageIcon, VideoIcon, AudioIcon]

  /** The words whose presence selects an icon. */
  function Keywords(i: Icon): seq<string>
  {
    match i
    case FolderIcon => ["folder"]
    case PdfIcon => ["pdf"]
    case DocumentIcon => ["document", "word"]
    case SpreadsheetIcon => ["spreadsheet", "excel"]
    case PresentationIcon => ["presentation", "powerpoint"]
    case ImageIcon => ["image"]
    case VideoIcon => ["video"]
    case AudioIcon => ["audio"]
    case DefaultIcon => []
  }

  /** Values on which Python's `kw in value` is defined. */
  predicate Iterable(v: Json)
  {
    v.JStr? || v.JList? || v.JObj?
  }

  /** Python's `kw in value`: substring, list element or dictionary key. */
  predicate Member(kw: string, v: Json)
    requires Iterable(v)
  {
    match v
    case JStr(s) => Contains(s, kw)
    case JList(xs) => JStr(kw) in xs
    case JObj(m) => kw in m
  }

  /** Some word of `kws` is in `v`. */
  predicate AnyMember(kws: seq<string>, v: Json)
    requires Iterable(v)
    decreases |kws|
  {
    kws != [] && (Member(kws[0], v) || AnyMember(kws[1..], v))
  }

  /** Some keyword of `icon` is in `v`. */
  predicate Matches(v: Json, icon: Icon)
    requires Iterable(v)
  {
    AnyMember(Keywords(icon), v)
  }

  function IconIndex(i: Icon): nat
  {
    match i
    case FolderIcon => 0
    case PdfIcon => 1
    case DocumentIcon => 2
    case SpreadsheetIcon => 3
    case PresentationIcon => 4
    case ImageIcon => 5
    case VideoIcon => 6
    case AudioIcon => 7
    case DefaultIcon => 8
  }

  /** The icons with one keyword match exactly that keyword, in the order
      `_get_file_icon` tests them. */
  lemma MatchesUnfold(v: Json)
    requires Iterable(v)
    ensures IconOrder[0] == FolderIcon && IconOrder[1] == PdfIcon && IconOrder[2] == DocumentIcon
    ensures IconOrder[3] == SpreadsheetIcon && IconOrder[4] == PresentationIcon
    ensures IconOrder[5] == ImageIcon && IconOrder[6] == VideoIcon && IconOrder[7] == AudioIcon
    ensures Matches(v, FolderIcon) == Member("folder", v)
    ensures Matches(v, PdfIcon) == Member("pdf", v)
    ensures Matches(v, ImageIcon) == Member("image", v)
    ensures Matches(v, VideoIcon) == Member("video", v)
    ensures Matches(v, AudioIcon) == Member("audio", v)
  {
    AnyMemberSingle("folder", v);
    AnyMemberSingle("pdf", v);
    AnyMemberSingle("image", v);
    AnyMemberSingle("video", v);
    AnyMemberSingle("audio", v);
  }

  /** The icons with two keywords match either of them. */
  lemma MatchesUnfoldPairs(v: Json)
    requires Iterable(v)
    ensures Matches(v, DocumentIcon) == (Member("document", v) || Member("word", v))
    ensures Matches(v, SpreadsheetIcon) == (Member("spreadsheet", v) || Member("excel", v))
    ensures Matches(v, PresentationIcon) == (Member("presentation", v) || Member("powerpoint", v))
  {
    AnyMemberPair("document", "word", v);
    AnyMemberPair("spreadsheet", "excel", v);
    AnyMemberPair("presentation", "powerpoint", v);
  }

  lemma AnyMemberSingle(k: string, v: Json)
    requires Iterable(v)
    ensures AnyMember([k], v) == Member(k, v)
  {
    assert [k][1..] == [];
  }

  lemma AnyMemberPair(k1: string, k2: string, v: Json)
    requires Iterable(v)
    ensures AnyMember([k1, k2], v) == (Member(k1, v) || Member(k2, v))
  {
    assert [k1, k2][1..] == [k2];
    AnyMemberSingle(k2, v);
  }

  /** `_get_file_icon(mime_type)`. A falsy value gets the default icon; an
      integer or boolean one makes `in` raise `TypeError`. Otherwise the
      result is the first icon in `IconOrder` one of whose keywords is in the
      value, or the default icon when there is none. */
  function GetFileIcon(mime: Json): (r: Result<Icon, Exception>)
    ensures !Truthy(mime) ==> r == Ok(DefaultIcon)
    ensures Truthy(mime) && !Iterable(mime) ==> r.Err?
    ensures r.Ok? && r.value != DefaultIcon ==>
              Iterable(mime) && Matches(mime, r.value) &&
              IconIndex(r.value) < |IconOrder| && IconOrder[IconIndex(r.value)] == r.value &&
              forall p :: 0 <= p < IconIndex(r.value) ==> !Matches(mime, IconOrder[p])
    ensures r == Ok(DefaultIcon) && Truthy(mime) ==>
              Iterable(mime) && forall p :: 0 <= p < |IconOrder| ==> !Matches(mime, IconOrder[p])
  {
    if !Truthy(mime) then Ok(DefaultIcon)
    else if !Iterable(mime) then Err(Other("argument of type '" + (if mime.JInt? then "int" else "bool") + "' is not iterable"))
    else Ok(IconFor(mime))
  }

  /** The keyword tests of `_get_file_icon` on a value `in` can search. */
  function IconFor(mime: Json): (r: Icon)
    requires Iterable(mime)
    ensures r != DefaultIcon ==>
              Matches(mime, r) && IconIndex(r) < |IconOrder| && IconOrder[IconIndex(r)] == r &&
              forall p :: 0 <= p < IconIndex(r) ==> !Matches(mime, IconOrder[p])
    ensures r == DefaultIcon ==> forall p :: 0 <= p < |IconOrder| ==> !Matches(mime, IconOrder[p])
  {
    MatchesUnfold(mime);
    MatchesUnfoldPairs(mime);
    if Member("folder", mime) then FolderIcon
    else if Member("pdf", mime) then PdfIcon
    else if Member("document", mime) || Member("word", mime) then DocumentIcon
    else if Member("spreadsheet", mime) || Member("excel", mime) then SpreadsheetIcon
    else if Member("presentation", mime) || Member("powerpoint", mime) then PresentationIcon
    else if Member("image", mime) then ImageIcon
    else if Member("video", mime) then VideoIcon
    else if Member("audio", mime) then AudioIcon
    else DefaultIcon
  }

  /** The icon the listing commands pick for a raw record: from 'mimeType',
      falling back to 'type' when that is missing or empty. */
  function RecordIcon(f: RawFile): Result<Icon, Exception>
  {
    GetFileIcon(Or(Get(f, "mimeType"), Get(f, "type")))
  }

  // ---------------------------------------------------------------- sizes

  datatype Unit = B | KB | MB | GB | TB

  /** `_format_size` before rendering: no text, or a scaled value and its unit. */
  datatype SizeText = NoSize | Sized(value: real, unit: Unit)

  const SmallUnits: seq<Unit> := [B, KB, MB, GB]

  function Scale(k: nat): (r: nat)
    ensures r >= 1
  {
    if k == 0 then 1 else 1024 * Scale(k - 1)
  }

  /** `Scale(k)` is 1024 multiplied by itself k times: powers add. */
  lemma {:induction false} ScaleAdd(a: nat, b: nat)
    ensures Scale(a + b) == Scale(a) * Scale(b)
    decreases a
  {
    if a > 0 {
      ScaleAdd(a - 1, b);
      assert Scale(a + b) == 1024 * Scale(a - 1 + b);
    }
  }

  /** The bounds `_format_size` compares against, as numbers. */
  lemma ScaleBounds()
    ensures Scale(1) == 1024 && Scale(2) == 1048576 && Scale(3) == 1073741824 && Scale(4) == 1099511627776
  {
    assert Scale(2) == 1024 * Scale(1);
    assert Scale(3) == 1024 * Scale(2);
    assert Scale(4) == 1024 * Scale(3);
  }

  function UnitIndex(u: Unit): nat
  {
    match u
    case B => 0
    case KB => 1
    case MB => 2
    case GB => 3
    case TB => 4
  }

  /** The unit an integer byte count is shown in: the first of B, KB, MB, GB
      whose next power of 1024 exceeds the count, and TB beyond. */
  function UnitOf(n: int): Unit
  {
    if n < Scale(1) then B
    else if n < Scale(2) then KB
    else if n < Scale(3) then MB
    else if n < Scale(4) then GB
    else TB
  }

  lemma PositiveProduct(a: real, s: real)
    requires a > 0.0 && s > 0.0
    ensures a * s > 0.0
  {
  }

  lemma ProductMonotone(a: real, b: real, s: real)
    requires s > 0.0
    ensures a < b <==> a * s < b * s
  {
    if a < b {
      PositiveProduct(b - a, s);
      assert b * s - a * s == (b - a) * s;
    } else if a > b {
      PositiveProduct(a - b, s);
      assert a * s - b * s == (a - b) * s;
    }
  }

  /** With `v` the count scaled down `k` times, `v < 1024` exactly when the
      count is below 1024 to the power `k + 1`. */
  lemma ScaledBelowBound(v: real, n: int, k: nat)
    requires v * (Scale(k) as real) == n as real
    ensures v < 1024.0 <==> n < Scale(k + 1)
  {
    var s := Scale(k) as real;
    assert Scale(k + 1) as real == 1024.0 * s;
    BelowBound(v, n as real, s);
  }

  lemma BelowBound(v: real, nr: real, s: real)
    requires s > 0.0 && v * s == nr
    ensures v < 1024.0 <==> nr < 1024.0 * s
  {
    ProductMonotone(v, 1024.0, s);
  }

  lemma ScaleStep(v: real, k: nat)
    ensures (v / 1024.0) * (Scale(k + 1) as real) == v * (Scale(k) as real)
  {
    var s := Scale(k) as real;
    assert Scale(k + 1) as real == 1024.0 * s;
    assert (v / 1024.0) * (1024.0 * s) == ((v / 1024.0) * 1024.0) * s;
  }

  /** Python's `type(v).__name__` for a JSON value. */
  function TypeName(v: Json): (t: string)
    ensures v.JStr? ==> t == "str"
    ensures v.JList? ==> t == "list"
    ensures v.JObj? ==> t == "dict"
  {
    match v
    case JNull => "NoneType"
    case JBool(_) => "bool"
    case JInt(_) => "int"
    case JStr(_) => "str"
    case JList(_) => "list"
    case JObj(_) => "dict"
  }

  /** What `size < 1024.0` raises for a size that is not a number. */
  function SizeTypeError(size: Json): (e: Exception)
    ensures size.JStr? ==> e == Other("'<' not supported between instances of 'str' and 'float'")
    ensures size.JList? ==> e == Other("'<' not supported between instances of 'list' and 'float'")
    ensures size.JObj? ==> e == Other("'<' not supported between instances of 'dict' and 'float'")
  {
    var pre, post := "'<' not supported between instances of '", "' and 'float'";
    assert pre + "str" + post == "'<' not supported between instances of 'str' and 'float'";
    assert pre + "list" + post == "'<' not supported between instances of 'list' and 'float'";
    assert pre + "dict" + post == "'<' not supported between instances of 'dict' and 'float'";
    Other(pre + TypeName(size) + post)
  }

  /** `_format_size(size_bytes)`: `None` gives no text; a number keeps being
      divided by 1024 until it is below 1024, at most four times; any other
      value makes the comparison raise `TypeError`. The scaled value times
      1024 to the unit's power is the original count. */
  method FormatSize(size: Json) returns (r: Result<SizeText, Exception>)
    ensures size == JNull ==> r == Ok(NoSize)
    ensures (size.JInt? || size.JBool?) ==>
              var n := if size.JInt? then size.i else if size.b then 1 else 0;
              r.Ok? && r.value.Sized? && r.value.unit == UnitOf(n) &&
              r.value.value * (Scale(UnitIndex(r.value.unit)) as real) == n as real
    ensures (size.JStr? || size.JList? || size.JObj?) ==> r.Err?
    ensures r.Err? ==> r.error == SizeTypeError(size)
  {
    if size == JNull {
      return Ok(NoSize);
    }
    if !(size.JInt? || size.JBool?) {
      return Err(SizeTypeError(size));
    }
    var n := if size.JInt? then size.i else if size.b then 1 else 0;
    var v, u := ScaleDown(n);
    r := Ok(Sized(v, u));
  }

  /** The division loop of `_format_size` on a number. */
  method ScaleDown(n: int) returns (v: real, u: Unit)
    ensures u == UnitOf(n) && v * (Scale(UnitIndex(u)) as real) == n as real
  {
    v := n as real;
    var k := 0;
    while k < 4
      invariant 0 <= k <= 4
      invariant v * (Scale(k) as real) == n as real
      invariant forall j :: 0 < j <= k ==> n >= Scale(j)
    {
      ScaledBelowBound(v, n, k);
      if v < 1024.0 {
        UnitBelow(n, k);
        return v, SmallUnits[k];
      }
      ScaleStep(v, k);
      v := v / 1024.0;
      k := k + 1;
    }
    UnitBelow(n, 4);
    u := TB;
  }

  /** A count at least 1024^j for every j up to k, and below 1024^(k+1)
      unless k is 4, has the k-th unit. */
  lemma UnitBelow(n: int, k: nat)
    requires k <= 4 && (forall j :: 0 < j <= k ==> n >= Scale(j)) && (k < 4 ==> n < Scale(k + 1))
    ensures UnitOf(n) == (if k < 4 then SmallUnits[k] else TB)
    ensures UnitIndex(if k < 4 then SmallUnits[k] else TB) == k
  {
    if k > 0 { assert n >= Scale(k); }
    if k > 1 { assert n >= Scale(k - 1); }
    if k > 2 { assert n >= Scale(k - 2); }
    if k > 3 { assert n >= Scale(k - 3); }
  }

  /** The size the listing commands show for a raw record: 'size', falling
      back to 'file_size' when that is missing or zero. */
  method RecordSize(f: RawFile) returns (r: Result<SizeText, Exception>)
    ensures !Truthy(Get(f, "size")) && Get(f, "file_size") == JNull ==> r == Ok(NoSize)
    ensures r.Ok? <==> SizeFormattable(RawSize(f))
    ensures r.Err? ==> r.error == SizeTypeError(RawSize(f))
  {
    r := FormatSize(RawSize(f));
  }

  /** `f.get('size') or f.get('file_size')`. */
  function RawSize(f: RawFile): Json
  {
    Or(Get(f, "size"), Get(f, "file_size"))
  }

  /** The sizes `_format_size` accepts: none, or a number. */
  predicate SizeFormattable(v: Json)
  {
    v.JNull? || v.JInt? || v.JBool?
  }

  /** A record the listing table can show. */
  predicate Showable(f: RawFile)
  {
    RecordIcon(f).Ok? && SizeFormattable(RawSize(f))
  }

  // ---------------------------------------------------------------- sessions

  const SessionPrefix: string := "session_"

  /** The memory key `session save NAME` writes. */
  function SessionKey(name: string): (k: string)
    ensures StartsWith(k, SessionPrefix) && k[|SessionPrefix|..] == name
  {
    SessionPrefix + name
  }

  /** The name `session list` shows for a key, as written: every occurrence
      of "session_" is removed (`key.replace('session_', '')`). */
  function SessionNameAsWritten(key: string): string
  {
    RemoveAll(key, SessionPrefix)
  }

  /** A saved name containing "session_" is shown differently from how it was
      saved: `session save xsession_` is listed as "x". */
  lemma SessionNameAsWrittenLosesName()
    ensures SessionNameAsWritten(SessionKey("xsession_")) == "x"
    ensures SessionNameAsWritten(SessionKey("xsession_")) != "xsession_"
  {
    var k := SessionKey("xsession_");
    assert k == "session_xsession_";
    assert StartsWith(k, SessionPrefix);
    var t := k[8..];
    assert t == "xsession_";
    assert t[0] == 'x' && t[..8][0] == 'x';
    assert !StartsWith(t, SessionPrefix);
    assert t[1..] == "session_";
    assert StartsWith(t[1..], SessionPrefix);
    assert t[1..][8..] == [];
  }

  /** For names without "session_" the written display agrees with the name. */
  lemma SessionNameAsWrittenAgrees(name: string)
    requires !Contains(name, SessionPrefix)
    ensures SessionNameAsWritten(SessionKey(name)) == name
  {
    var k := SessionKey(name);
    assert k[|SessionPrefix|..] == name;
    RemoveAllAbsent(name, SessionPrefix);
  }

  /** The name of a session key with the one leading prefix removed. */
  function SessionName(key: string): (name: string)
    requires StartsWith(key, SessionPrefix)
    ensures SessionKey(name) == key
  {
    key[|SessionPrefix|..]
  }

  /** Listing shows every saved name exactly as it was saved. */
  lemma SessionNameRoundTrip(name: string)
    ensures SessionName(SessionKey(name)) == name
  {
  }

  /** The state `session save` stores. */
  function SessionState(timestamp: string, googleAuthenticated: bool, folderfortAuthenticated: bool): Json
  {
    JObj(map[
      "timestamp" := JStr(timestamp),
      "google_authenticated" := JBool(googleAuthenticated),
      "folderfort_authenticated" := JBool(folderfortAuthenticated)])
  }

  datatype ResumeOutcome =
    | SessionNotFound
    | Resumed(savedAt: Json, googleAuthenticated: Json, folderfortAuthenticated: Json)
    | ResumeFailed

  /** `dict.get(k, default)`. */
  function GetOr(m: map<string, Json>, k: string, default: Json): Json
  {
    if k in m then m[k] else default
  }

  /** What `session resume` reports for the stored state: "not found" for a
      falsy state (missing, `None` or empty), the three fields with their
      defaults for an object, and an error for any other value (`.get` is
      not defined on it). */
  function ResumeOf(state: Json): (r: ResumeOutcome)
    ensures r == SessionNotFound <==> !Truthy(state)
    ensures r.Resumed? <==> Truthy(state) && state.JObj?
  {
    if !Truthy(state) then SessionNotFound
    else if state.JObj? then
      Resumed(GetOr(state.fields, "timestamp", JStr("Unknown")),
              GetOr(state.fields, "google_authenticated", JBool(false)),
              GetOr(state.fields, "folderfort_authenticated", JBool(false)))
    else ResumeFailed
  }

  /** A saved session resumes with the saved time and flags. */
  lemma SaveThenResume(store: Store, name: string, t: string, g: bool, f: bool, now: string)
    ensures ResumeOf(Read(Written(store, SessionKey(name), SessionState(t, g, f), now), SessionKey(name)))
            == Resumed(JStr(t), JBool(g), JBool(f))
  {
    var st := SessionState(t, g, f);
    assert Truthy(st) by { assert "timestamp" in st.fields; }
  }

  /** A save whose write fails leaves a new session unknown, although
      "Session saved" was printed: resuming it reports "not found". */
  lemma FailedSaveNotFound(store: Store, name: string)
    requires SessionKey(name) !in store
    ensures ResumeOf(Read(store, SessionKey(name))) == SessionNotFound
  {
  }

  /** `session save NAME`; `writable` says whether the file system accepts
      the write. The result of `write_memory` is ignored, so the
      "Session saved" line is printed either way. */
  method SaveSession(memory: MemoryManager, name: string, timestamp: string, googleAuthenticated: bool,
                     folderfortAuthenticated: bool, now: string, writable: bool)
    modifies memory
    ensures writable ==>
              memory.store == Written(old(memory.store), SessionKey(name),
                                      SessionState(timestamp, googleAuthenticated, folderfortAuthenticated), now)
    ensures !writable ==> memory.store == old(memory.store)
  {
    var _ := memory.WriteMemory(SessionKey(name), SessionState(timestamp, googleAuthenticated, folderfortAuthenticated), now, writable);
  }

  /** `session resume NAME`. */
  method ResumeSession(memory: MemoryManager, name: string) returns (r: ResumeOutcome)
    ensures r == ResumeOf(Read(memory.store, SessionKey(name)))
    ensures SessionKey(name) !in memory.store ==> r == SessionNotFound
  {
    var state := memory.ReadMemory(SessionKey(name));
    r := ResumeOf(state);
  }

  /** One line of `session list`: the shown name and the saved time. */
  datatype SessionLine = SessionLine(name: string, savedAt: string)

  /** `[m for m in memories if m['key'].startswith('session_')]`, each with
      the name it is shown under. */
  function SessionLines(all: seq<MemoryInfo>): (lines: seq<SessionLine>)
    ensures |lines| <= |all|
    decreases |all|
  {
    if all == [] then []
    else
      var rest := SessionLines(all[1..]);
      if StartsWith(all[0].key, SessionPrefix) then [SessionLine(SessionName(all[0].key), all[0].timestamp)] + rest
      else rest
  }

  /** Each line comes from a session memory, and each session memory gives a line. */
  lemma {:induction false} SessionLinesSpec(all: seq<MemoryInfo>)
    ensures forall l :: l in SessionLines(all) ==> MemoryInfo(SessionKey(l.name), l.savedAt) in all
    ensures forall m :: m in all && StartsWith(m.key, SessionPrefix) ==>
              SessionLine(SessionName(m.key), m.timestamp) in SessionLines(all)
    decreases |all|
  {
    if all != [] {
      SessionLinesSpec(all[1..]);
      forall m | m in all && m != all[0] ensures m in all[1..] {
        var y :| 0 <= y < |all| && all[y] == m;
        assert all[1..][y - 1] == m;
      }
    }
  }

  /** Filtering keeps the newest-first order. */
  lemma {:induction false} SessionLinesNewestFirst(all: seq<MemoryInfo>)
    requires NewestFirst(all)
    ensures forall i, j :: 0 <= i < j < |SessionLines(all)| ==>
              !Less(SessionLines(all)[i].savedAt, SessionLines(all)[j].savedAt)
    decreases |all|
  {
    if all != [] {
      var tail := all[1..];
      assert NewestFirst(tail) by {
        forall i, j | 0 <= i < j < |tail| ensures !Less(tail[i].timestamp, tail[j].timestamp) {
          assert tail[i] == all[i + 1] && tail[j] == all[j + 1];
        }
      }
      SessionLinesNewestFirst(tail);
      SessionLinesSpec(tail);
      var rest := SessionLines(tail);
      forall l | l in rest ensures !Less(all[0].timestamp, l.savedAt) {
        var y :| 0 <= y < |tail| && tail[y] == MemoryInfo(SessionKey(l.name), l.savedAt);
        assert all[y + 1] == tail[y];
      }
      if StartsWith(all[0].key, SessionPrefix) {
        var lines := SessionLines(all);
        forall i, j | 0 <= i < j < |lines| ensures !Less(lines[i].savedAt, lines[j].savedAt) {
          assert lines[j] == rest[j - 1];
          assert rest[j - 1] in rest;
          if i > 0 { assert lines[i] == rest[i - 1]; }
        }
      }
    }
  }

  /** No later session memory is shown under the first one's name, when
      the keys are distinct. */
  lemma SessionHeadNameFresh(all: seq<MemoryInfo>)
    requires all != [] && StartsWith(all[0].key, SessionPrefix)
    requires forall j :: 0 < j < |all| ==> all[0].key != all[j].key
    ensures forall l :: l in SessionLines(all[1..]) ==> l.name != SessionName(all[0].key)
  {
    var tail := all[1..];
    SessionLinesSpec(tail);
    forall l | l in SessionLines(tail) ensures l.name != SessionName(all[0].key) {
      var y :| 0 <= y < |tail| && tail[y] == MemoryInfo(SessionKey(l.name), l.savedAt);
      assert all[y + 1] == tail[y];
    }
  }

  /** Memories with distinct keys give lines with distinct names. */
  lemma {:induction false} SessionLinesDistinct(all: seq<MemoryInfo>)
    requires forall i, j :: 0 <= i < j < |all| ==> all[i].key != all[j].key
    ensures forall i, j :: 0 <= i < j < |SessionLines(all)| ==> SessionLines(all)[i].name != SessionLines(all)[j].name
    decreases |all|
  {
    if all != [] {
      var tail := all[1..];
      assert forall i, j :: 0 <= i < j < |tail| ==> tail[i].key != tail[j].key by {
        forall i, j | 0 <= i < j < |tail| ensures tail[i].key != tail[j].key {
          assert tail[i] == all[i + 1] && tail[j] == all[j + 1];
        }
      }
      SessionLinesDistinct(tail);
      if StartsWith(all[0].key, SessionPrefix) {
        SessionHeadNameFresh(all);
        var rest := SessionLines(tail);
        var lines := SessionLines(all);
        assert lines == [SessionLine(SessionName(all[0].key), all[0].timestamp)] + rest;
        forall i, j | 0 <= i < j < |lines| ensures lines[i].name != lines[j].name {
          assert lines[j] == rest[j - 1] && rest[j - 1] in rest;
          if i > 0 { assert lines[i] == rest[i - 1]; }
        }
      }
    }
  }

  /** `session list`: the sessions among the memories, newest first, each shown
      by its name. An empty result is the "No saved sessions found." case. */
  method ListSessions(memory: MemoryManager) returns (lines: seq<SessionLine>)
    ensures forall l :: l in lines ==>
              SessionKey(l.name) in memory.store && memory.store[SessionKey(l.name)].timestamp == l.savedAt
    ensures forall k :: k in memory.store && StartsWith(k, SessionPrefix) ==>
              SessionLine(SessionName(k), memory.store[k].timestamp) in lines
    ensures forall i, j :: 0 <= i < j < |lines| ==> !Less(lines[i].savedAt, lines[j].savedAt)
    ensures forall i, j :: 0 <= i < j < |lines| ==> lines[i].name != lines[j].name
  {
    var all := memory.ListMemories();
    lines := SessionLines(all);
    SessionLinesSpec(all);
    SessionLinesNewestFirst(all);
    SessionLinesDistinct(all);
    forall l | l in lines
      ensures SessionKey(l.name) in memory.store && memory.store[SessionKey(l.name)].timestamp == l.savedAt
    {
      var y :| 0 <= y < |all| && all[y] == MemoryInfo(SessionKey(l.name), l.savedAt);
    }
    forall k | k in memory.store && StartsWith(k, SessionPrefix)
      ensures SessionLine(SessionName(k), memory.store[k].timestamp) in lines
    {
      assert k in KeysOf(all);
      var y :| 0 <= y < |all| && all[y].key == k;
      assert all[y] in all;
    }
  }

  // ---------------------------------------------------------------- drives

  /** One drive as the commands see it: the adapter class registered for it,
      the token its stored credentials hold, and what its `list_files`
      returns or raises. */
  datatype Drive = Drive(className: string, storedToken: Option<string>, listing: Result<seq<RawFile>, Exception>)

  /** The `ClickException` text for an unauthenticated drive. */
  function NotAuthenticatedText(service: string): string
  {
    "Not authenticated with " + Capitalize(service) + ". Run 'omnidrive auth " + service + "'"
  }

  /** `_get_files_from_service` as written: the instance comes from
      `create_service(service, auto_authenticate=False)`, which never gives it
      a token, so the authentication check always fails. */
  function GetFilesAsWritten(d: Drive, service: string): Result<seq<RawFile>, Exception>
  {
    var instance := NewCloudService(d.className, None);
    if !instance.IsAuthenticated() then Err(Other(NotAuthenticatedText(service))) else d.listing
  }

  /** As written, no drive is ever listed, whatever credentials are stored. */
  lemma GetFilesAsWrittenNeverLists(d: Drive, service: string)
    ensures GetFilesAsWritten(d, service) == Err(Other(NotAuthenticatedText(service)))
  {
  }

  /** `_get_files_from_service` with the instance built from the stored
      token: a drive with stored credentials is listed, one without raises
      "Not authenticated". */
  function GetFiles(d: Drive, service: string): (r: Result<seq<RawFile>, Exception>)
    ensures d.storedToken.Some? ==> r == d.listing
    ensures d.storedToken.None? ==> r == Err(Other(NotAuthenticatedText(service)))
  {
    var instance := NewCloudService(d.className, d.storedToken);
    if !instance.IsAuthenticated() then Err(Other(NotAuthenticatedText(service))) else d.listing
  }

  /** The three `except` clauses of the drive commands, tested in order:
      `AuthenticationError`, then `ServiceError`, then any exception. */
  datatype Report = AuthErrorReport(text: string) | ServiceErrorReport(text: string) | ErrorReport(text: string)

  /** Because the authentication clause comes first, an authentication error
      is reported as such and only other service errors reach the service
      clause. */
  function ReportOf(e: Exception): (r: Report)
    ensures r.AuthErrorReport? <==> e.IsAuthenticationError()
    ensures r.ServiceErrorReport? <==> e.IsServiceError() && !e.IsAuthenticationError()
    ensures r.ErrorReport? <==> !e.IsServiceError()
    ensures r.text == e.Str()
  {
    if e.IsAuthenticationError() then AuthErrorReport(e.Str())
    else if e.IsServiceError() then ServiceErrorReport(e.Str())
    else ErrorReport(e.Str())
  }

  // ---------------------------------------------------------------- compare sets

  /** The three name sets of `compare`. */
  datatype Comparison = Comparison(onlyIn1: set<Json>, onlyIn2: set<Json>, common: set<Json>)

  function CompareNames(names1: set<Json>, names2: set<Json>): Comparison
  {
    Comparison(names1 - names2, names2 - names1, names1 * names2)
  }

  /** The three sets are pairwise disjoint and together hold every name of
      either drive. */
  lemma CompareNamesPartition(names1: set<Json>, names2: set<Json>)
    ensures var c := CompareNames(names1, names2);
            c.onlyIn1 !! c.onlyIn2 && c.onlyIn1 !! c.common && c.onlyIn2 !! c.common &&
            c.onlyIn1 + c.onlyIn2 + c.common == names1 + names2
  {
  }

  /** Swapping the drives swaps the two only-in sets. */
  lemma CompareNamesSwap(names1: set<Json>, names2: set<Json>)
    ensures CompareNames(names2, names1) ==
            Comparison(CompareNames(names1, names2).onlyIn2, CompareNames(names1, names2).onlyIn1, CompareNames(names1, names2).common)
  {
  }

  // ---------------------------------------------------------------- sync

  datatype SyncOutcome =
    | MustDiffer               // "Source and target must be different."
    | AllInSync                // "All files already in sync!"
    | DryRunDone(planned: set<Json>)
    | Cancelled                // the confirmation was declined
    | Synced(count: nat)
    | SyncFailed(report: Report)

  /** Both listings, when both drives list successfully. */
  function Listings(drives: map<string, Drive>, a: string, b: string): Option<(seq<RawFile>, seq<RawFile>)>
    requires a in drives && b in drives
  {
    var r1 := GetFiles(drives[a], a);
    var r2 := GetFiles(drives[b], b);
    if r1.Ok? && r2.Ok? then Some((r1.value, r2.value)) else None
  }

  /** The records a sync transfers for an iteration order of the plan. */
  function PlannedRecords(src: seq<RawFile>, tgt: seq<RawFile>, order: seq<Json>): seq<RawFile>
    requires Enumerates(order, SyncPlan(src, tgt))
  {
    FirstRecords(src, order)
  }

  /** A complete transfer carries each missing name exactly once, each in a
      record of the source, so afterwards every source name is on the target. */
  lemma PlannedRecordsCoverPlan(src: seq<RawFile>, tgt: seq<RawFile>, order: seq<Json>)
    requires Enumerates(order, SyncPlan(src, tgt))
    ensures var rs := PlannedRecords(src, tgt, order);
            Names(rs) == SyncPlan(src, tgt) &&
            (forall p, q :: 0 <= p < q < |rs| ==> NameOf(rs[p]) != NameOf(rs[q])) &&
            (forall r :: r in rs ==> r in src) &&
            Names(src) <= Names(tgt) + Names(rs)
  {
    FirstRecordsNames(src, order, SyncPlan(src, tgt));
    FirstRecordsFromFiles(src, order);
  }

  /** What showing one row of the plan table raises: the icon lookup comes
      first, then the size formatting. */
  function ShowFailure(f: RawFile): (e: Option<Exception>)
    ensures e.None? <==> Showable(f)
  {
    if RecordIcon(f).Err? then Some(RecordIcon(f).error)
    else if !SizeFormattable(RawSize(f)) then Some(SizeTypeError(RawSize(f)))
    else None
  }

  /** The index of the first record the plan table cannot show. */
  function FirstUnshowable(records: seq<RawFile>): (k: Option<nat>)
    ensures k.Some? ==> k.value < |records| && !Showable(records[k.value])
    ensures k.Some? ==> forall j :: 0 <= j < k.value ==> Showable(records[j])
    ensures k.None? <==> forall j :: 0 <= j < |records| ==> Showable(records[j])
    decreases |records|
  {
    if records == [] then None
    else if !Showable(records[0]) then Some(0)
    else
      var k := FirstUnshowable(records[1..]);
      if k.None? then None else Some(k.value + 1)
  }

  lemma {:induction false} FirstUnshowableAt(records: seq<RawFile>, i: nat)
    requires i < |records| && !Showable(records[i])
    requires forall j :: 0 <= j < i ==> Showable(records[j])
    ensures FirstUnshowable(records) == Some(i)
    decreases i
  {
    if i > 0 {
      FirstUnshowableAt(records[1..], i - 1);
    }
  }

  /** The table `sync` prints before transferring: icon and size of each
      planned record. It raises at the first record whose icon or size
      cannot be computed. */
  method ShowPlan(records: seq<RawFile>) returns (err: Option<Exception>)
    ensures FirstUnshowable(records).None? ==> err.None?
    ensures FirstUnshowable(records).Some? ==> err == ShowFailure(records[FirstUnshowable(records).value])
  {
    var i := 0;
    while i < |records|
      invariant 0 <= i <= |records|
      invariant forall j :: 0 <= j < i ==> Showable(records[j])
    {
      var icon := RecordIcon(records[i]);
      if icon.Err? {
        FirstUnshowableAt(records, i);
        return Some(icon.error);
      }
      var size := RecordSize(records[i]);
      if size.Err? {
        FirstUnshowableAt(records, i);
        return Some(size.error);
      }
      i := i + 1;
    }
    err := None;
  }

  /** The transfer loop of `sync`: `_sync_file` on each record in turn,
      stopping at the first that raises, which has been attempted. */
  method TransferAll(records: seq<RawFile>, transfer: RawFile -> Option<Exception>)
    returns (transferred: seq<RawFile>, err: Option<Exception>)
    ensures FirstFailure(records, transfer).None? ==> transferred == records && err.None?
    ensures FirstFailure(records, transfer).Some? ==>
              transferred == records[..FirstFailure(records, transfer).value + 1] &&
              err == TransferOutcome(records[FirstFailure(records, transfer).value], transfer)
  {
    transferred := [];
    var i := 0;
    while i < |records|
      invariant 0 <= i <= |records|
      invariant transferred == records[..i]
      invariant forall j :: 0 <= j < i ==> TransferOutcome(records[j], transfer).None?
    {
      transferred := transferred + [records[i]];
      var e := TransferOutcome(records[i], transfer);
      if e.Some? {
        FirstFailureAt(records, transfer, i);
        return transferred, e;
      }
      i := i + 1;
    }
    assert records[..|records|] == records;
    FirstFailureNone(records, transfer);
    err := None;
  }

  /** What `sync` does once both listings are in hand: nothing when the
      plan is empty; otherwise the first record of each planned name, in the
      plan's iteration order `order`, goes through `ShowsThenTransfers`. */
  ghost predicate SyncsListed(src: seq<RawFile>, tgt: seq<RawFile>, dryRun: bool, confirmed: bool,
                              transfer: RawFile -> Option<Exception>,
                              outcome: SyncOutcome, order: seq<Json>, transferred: seq<RawFile>)
  {
    var plan := SyncPlan(src, tgt);
    if plan == {} then outcome == AllInSync && transferred == []
    else
      Enumerates(order, plan) && |order| == |plan| &&
      ShowsThenTransfers(PlannedRecords(src, tgt, order), plan, dryRun, confirmed, transfer, outcome, transferred)
  }

  /** The planned `records` of a non-empty `plan` are shown, raising at the
      first that cannot be; a dry run stops there and a declined prompt
      cancels; otherwise the same records are transferred in the same order,
      stopping at the first failure, and success reports the plan's size. */
  ghost predicate ShowsThenTransfers(records: seq<RawFile>, plan: set<Json>, dryRun: bool, confirmed: bool,
                                     transfer: RawFile -> Option<Exception>,
                                     outcome: SyncOutcome, transferred: seq<RawFile>)
  {
    if FirstUnshowable(records).Some? then
      outcome == SyncFailed(ReportOf(ShowFailure(records[FirstUnshowable(records).value]).value)) &&
      transferred == []
    else if dryRun then outcome == DryRunDone(plan) && transferred == []
    else if !confirmed then outcome == Cancelled && transferred == []
    else if FirstFailure(records, transfer).Some? then
      outcome == SyncFailed(ReportOf(TransferOutcome(records[FirstFailure(records, transfer).value], transfer).value)) &&
      transferred == records[..FirstFailure(records, transfer).value + 1]
    else outcome == Synced(|plan|) && transferred == records
  }

  /** What the show-then-transfer phase copies: nothing on a dry run or a
      declined prompt, otherwise a prefix of the records, all of them on
      success, and up to the one whose transfer raised on failure. */
  lemma TransfersPrefix(records: seq<RawFile>, plan: set<Json>, dryRun: bool, confirmed: bool,
                        transfer: RawFile -> Option<Exception>, outcome: SyncOutcome, transferred: seq<RawFile>)
    requires ShowsThenTransfers(records, plan, dryRun, confirmed, transfer, outcome, transferred)
    ensures dryRun || !confirmed ==> transferred == []
    ensures transferred != [] ==> !dryRun && confirmed && |transferred| <= |records| && transferred == records[..|transferred|]
    ensures outcome.Synced? ==> outcome.count == |plan| && transferred == records
    ensures outcome.SyncFailed? && transferred != [] ==>
              TransferOutcome(transferred[|transferred| - 1], transfer).Some? &&
              forall j :: 0 <= j < |transferred| - 1 ==> TransferOutcome(transferred[j], transfer).None?
  {
    if FirstUnshowable(records).None? && !dryRun && confirmed && FirstFailure(records, transfer).Some? {
      var k := FirstFailure(records, transfer).value;
      assert transferred[|transferred| - 1] == records[k];
      forall j | 0 <= j < |transferred| - 1 ensures TransferOutcome(transferred[j], transfer).None? {
        assert transferred[j] == records[j];
      }
    }
  }

  /** `sync` once both listings are in hand. */
  method SyncListed(src: seq<RawFile>, tgt: seq<RawFile>, dryRun: bool, confirmed: bool, transfer: RawFile -> Option<Exception>)
    returns (outcome: SyncOutcome, order: seq<Json>, transferred: seq<RawFile>)
    ensures SyncsListed(src, tgt, dryRun, confirmed, transfer, outcome, order, transferred)
  {
    order, transferred := [], [];
    var plan := SyncPlan(src, tgt);
    if plan == {} {
      return AllInSync, order, transferred;
    }
    order := EnumerateSet(plan);
    var records := PlannedRecords(src, tgt, order);
    var shown := ShowPlan(records);
    if shown.Some? {
      return SyncFailed(ReportOf(shown.value)), order, transferred;
    }
    if dryRun {
      return DryRunDone(plan), order, transferred;
    }
    if !confirmed {
      return Cancelled, order, transferred;
    }
    outcome, transferred := TransferPlanned(records, plan, transfer);
  }

  /** The confirmed transfers of the shown records of a plan. */
  method TransferPlanned(records: seq<RawFile>, plan: set<Json>, transfer: RawFile -> Option<Exception>)
    returns (outcome: SyncOutcome, transferred: seq<RawFile>)
    requires FirstUnshowable(records).None?
    ensures ShowsThenTransfers(records, plan, false, true, transfer, outcome, transferred)
  {
    var err;
    transferred, err := TransferAll(records, transfer);
    if err.Some? {
      return SyncFailed(ReportOf(err.value)), transferred;
    }
    outcome := Synced(|plan|);
  }

  /** A sync that reports success has copied every missing name exactly
      once, each from a record of the source, so the target then holds every
      source name; a dry run or a declined prompt copies nothing. */
  lemma SyncedCompletesTarget(src: seq<RawFile>, tgt: seq<RawFile>, dryRun: bool, confirmed: bool,
                              transfer: RawFile -> Option<Exception>,
                              outcome: SyncOutcome, order: seq<Json>, transferred: seq<RawFile>)
    requires SyncsListed(src, tgt, dryRun, confirmed, transfer, outcome, order, transferred)
    ensures outcome.Synced? ==>
              outcome.count == |SyncPlan(src, tgt)| && Names(transferred) == SyncPlan(src, tgt) &&
              (forall p, q :: 0 <= p < q < |transferred| ==> NameOf(transferred[p]) != NameOf(transferred[q])) &&
              (forall r :: r in transferred ==> r in src) &&
              Names(src) <= Names(tgt) + Names(transferred)
    ensures dryRun || !confirmed ==> transferred == []
  {
    var plan := SyncPlan(src, tgt);
    if plan != {} {
      TransfersPrefix(PlannedRecords(src, tgt, order), plan, dryRun, confirmed, transfer, outcome, transferred);
      PlannedRecordsCoverPlan(src, tgt, order);
    }
  }

  /** `omnidrive sync SOURCE TARGET`. `listed` are the drives whose
      `list_files` was called, `order` the iteration order of the plan and
      `transferred` the records passed to `_sync_file`; `confirmed` is the
      answer to the confirmation prompt. Both drives are listed through the
      corrected `GetFiles`. */
  method SyncCommand(drives: map<string, Drive>, source: string, target: string, dryRun: bool, confirmed: bool,
                     transfer: RawFile -> Option<Exception>)
    returns (outcome: SyncOutcome, listed: seq<string>, order: seq<Json>, transferred: seq<RawFile>)
    requires source in drives && target in drives
    ensures source == target ==> outcome == MustDiffer && listed == [] && transferred == []
    ensures source != target && GetFiles(drives[source], source).Err? ==>
              outcome == SyncFailed(ReportOf(GetFiles(drives[source], source).error)) && transferred == []
    ensures source != target && GetFiles(drives[source], source).Ok? && GetFiles(drives[target], target).Err? ==>
              outcome == SyncFailed(ReportOf(GetFiles(drives[target], target).error)) && transferred == []
    ensures source != target && Listings(drives, source, target).Some? ==>
              SyncsListed(Listings(drives, source, target).value.0, Listings(drives, source, target).value.1,
                          dryRun, confirmed, transfer, outcome, order, transferred)
    ensures forall s :: s in listed ==> s in drives && drives[s].storedToken.Some?
  {
    listed, order, transferred := [], [], [];
    if source == target {
      return MustDiffer, listed, order, transferred;
    }
    var d1, d2 := drives[source], drives[target];
    if d1.storedToken.Some? {
      listed := listed + [source];
    }
    var r1 := GetFiles(d1, source);
    if r1.Err? {
      return SyncFailed(ReportOf(r1.error)), listed, order, transferred;
    }
    if d2.storedToken.Some? {
      listed := listed + [target];
    }
    var r2 := GetFiles(d2, target);
    if r2.Err? {
      return SyncFailed(ReportOf(r2.error)), listed, order, transferred;
    }
    assert Listings(drives, source, target) == Some((r1.value, r2.value));
    outcome, order, transferred := SyncListed(r1.value, r2.value, dryRun, confirmed, transfer);
  }

  // ---------------------------------------------------------------- compare

  /** Names in increasing string order. */
  predicate SortedNames(xs: seq<Json>)
  {
    forall i, j :: 0 <= i < j < |xs| ==> xs[i].JStr? && xs[j].JStr? && Less(xs[i].s, xs[j].s)
  }

  /** What `sorted` raises when two names cannot be compared. */
  const UnorderableNames: Exception := Other("'<' not supported between instances of the name types")

  /** Strings as names. */
  function StrNames(xs: seq<string>): (r: seq<Json>)
    ensures |r| == |xs| && forall i :: 0 <= i < |xs| ==> r[i] == JStr(xs[i])
  {
    seq(|xs|, i requires 0 <= i < |xs| => JStr(xs[i]))
  }

  /** `sorted(list(names))`: strings sort by code point; a single name needs
      no comparison; two or more names that are not all strings are refused
      with `TypeError`. */
  function SortNames(names: set<Json>): (r: Result<seq<Json>, Exception>)
    ensures r.Ok? ==> Enumerates(r.value, names) && |r.value| == |names|
    ensures (forall n :: n in names ==> n.JStr?) ==> r.Ok? && SortedNames(r.value)
    ensures r.Err? <==> |names| >= 2 && exists n :: n in names && !n.JStr?
    ensures r.Err? ==> r.error == UnorderableNames
  {
    if forall n :: n in names ==> n.JStr? then
      var strs := set n | n in names :: n.s;
      StringNamesSorted(names, strs);
      Ok(StrNames(SortedStrings(strs)))
    else if |names| == 1 then
      SingletonNames(names);
      var n :| n in names;
      Ok([n])
    else Err(UnorderableNames)
  }

  /** The names of a one-element set are that element. */
  lemma SingletonNames(names: set<Json>)
    requires |names| == 1
    ensures forall a, b :: a in names && b in names ==> a == b
    ensures forall n :: n in names ==> Enumerates([n], names)
  {
    var m :| m in names;
    assert |names - {m}| == 0;
    assert names == {m};
  }

  /** The sorted strings of a set of string names, as names, enumerate it
      in increasing order. */
  lemma StringNamesSorted(names: set<Json>, strs: set<string>)
    requires forall n :: n in names ==> n.JStr?
    requires strs == set n | n in names :: n.s
    ensures var ys := StrNames(SortedStrings(strs));
            Enumerates(ys, names) && |ys| == |names| && SortedNames(ys)
  {
    var xs := SortedStrings(strs);
    var ys := StrNames(xs);
    forall n | n in names ensures n in ys {
      assert n.s in strs;
      var k :| 0 <= k < |xs| && xs[k] == n.s;
      assert ys[k] == n;
    }
    forall i, j | 0 <= i < j < |ys| ensures ys[i] != ys[j] {
      LessIrreflexive(xs[i]);
    }
    forall i | 0 <= i < |ys| ensures ys[i] in names {
      assert xs[i] in strs;
    }
    StringNamesCard(names, strs);
  }

  lemma StringNamesCard(names: set<Json>, strs: set<string>)
    requires forall n :: n in names ==> n.JStr?
    requires strs == set n | n in names :: n.s
    ensures |strs| == |names|
    decreases |names|
  {
    if names != {} {
      var n :| n in names;
      var rest := names - {n};
      StringNamesCard(rest, set m | m in rest :: m.s);
      assert strs == (set m | m in rest :: m.s) + {n.s};
      assert n.s !in (set m | m in rest :: m.s);
    }
  }

  /** The icon lookup of each of `names`, on the name's first record. */
  function IconLookups(files: seq<RawFile>, names: seq<Json>): (r: seq<Result<Icon, Exception>>)
    requires forall i :: 0 <= i < |names| ==> names[i] in Names(files)
    ensures |r| == |names| && forall i :: 0 <= i < |names| ==> r[i] == RecordIcon(files[FirstIndexWithName(files, names[i])])
  {
    seq(|names|, i requires 0 <= i < |names| => RecordIcon(files[FirstIndexWithName(files, names[i])]))
  }

  /** One "Only in" block of `compare`: how many names, all of them in the
      order `sorted` gives, the icons of the first ten, and how many more
      there are ("... and N more"). */
  datatype Section = Section(count: nat, sorted: seq<Json>, shownIcons: seq<Icon>, more: nat)

  ghost predicate DescribesSection(sec: Section, only: set<Json>, files: seq<RawFile>)
    requires only <= Names(files)
  {
    sec.count == |only| && Enumerates(sec.sorted, only) && |sec.sorted| == |only| &&
    |sec.shownIcons| == Min(10, |only|) &&
    (forall i :: 0 <= i < |sec.shownIcons| ==>
       RecordIcon(files[FirstIndexWithName(files, sec.sorted[i])]) == Ok(sec.shownIcons[i])) &&
    sec.more == (if |only| > 10 then |only| - 10 else 0) &&
    ((forall n :: n in only ==> n.JStr?) ==> SortedNames(sec.sorted))
  }

  /** The first `Min(10, |xs|)` of the sorted names `xs`: the ones `compare` shows. */
  function Shown(xs: seq<Json>): seq<Json>
  {
    xs[..Min(10, |xs|)]
  }

  /** The "Only in" block for `only`: it is shown exactly when the names can
      be sorted and each of the first ten has an icon; otherwise the error is
      the sort's or that of the first icon lookup that raises. */
  function SectionOf(only: set<Json>, files: seq<RawFile>): (r: Result<Section, Exception>)
    requires only <= Names(files)
    ensures r.Ok? ==> DescribesSection(r.value, only, files)
    ensures r.Ok? <==> SortNames(only).Ok? &&
                       forall j :: 0 <= j < Min(10, |only|) ==>
                         RecordIcon(files[FirstIndexWithName(files, SortNames(only).value[j])]).Ok?
    ensures |only| >= 2 && (exists n :: n in only && !n.JStr?) ==> r == Err(UnorderableNames)
  {
    var sorted := SortNames(only);
    if sorted.Err? then Err(sorted.error)
    else
      var xs := sorted.value;
      assert forall i :: 0 <= i < |xs| ==> xs[i] in Names(files) by {
        forall i | 0 <= i < |xs| ensures xs[i] in Names(files) {
          assert xs[i] in only;
        }
      }
      ShownIcons(files, xs);
      var icons := Collect(IconLookups(files, Shown(xs)));
      if icons.Err? then Err(icons.error)
      else Ok(Section(|only|, xs, icons.value, if |only| > 10 then |only| - 10 else 0))
  }

  /** The icon lookups of the shown names succeed exactly when each of the
      first ten names has an icon, and then they are those icons. */
  lemma ShownIcons(files: seq<RawFile>, xs: seq<Json>)
    requires forall i :: 0 <= i < |xs| ==> xs[i] in Names(files)
    ensures |Shown(xs)| == Min(10, |xs|)
    ensures forall i :: 0 <= i < |Shown(xs)| ==> Shown(xs)[i] in Names(files)
    ensures Collect(IconLookups(files, Shown(xs))).Ok? <==>
              forall j :: 0 <= j < Min(10, |xs|) ==> RecordIcon(files[FirstIndexWithName(files, xs[j])]).Ok?
    ensures Collect(IconLookups(files, Shown(xs))).Ok? ==>
              var icons := Collect(IconLookups(files, Shown(xs))).value;
              |icons| == Min(10, |xs|) &&
              forall j :: 0 <= j < Min(10, |xs|) ==> RecordIcon(files[FirstIndexWithName(files, xs[j])]) == Ok(icons[j])
  {
    forall i | 0 <= i < |Shown(xs)| ensures Shown(xs)[i] in Names(files) && Shown(xs)[i] == xs[i] {
    }
  }

  /** The icon lookups of the shown names fail with the error of the first
      of them that raises. */
  lemma ShownFirstIconError(files: seq<RawFile>, xs: seq<Json>, k: nat)
    requires forall i :: 0 <= i < |xs| ==> xs[i] in Names(files)
    requires k < Min(10, |xs|) && RecordIcon(files[FirstIndexWithName(files, xs[k])]).Err?
    requires forall j :: 0 <= j < k ==> RecordIcon(files[FirstIndexWithName(files, xs[j])]).Ok?
    ensures Collect(IconLookups(files, Shown(xs))) == Err(RecordIcon(files[FirstIndexWithName(files, xs[k])]).error)
  {
    ShownIcons(files, xs);
    var lookups := IconLookups(files, Shown(xs));
    forall j | 0 <= j < k ensures lookups[j].Ok? {
      assert Shown(xs)[j] == xs[j];
    }
    assert Shown(xs)[k] == xs[k];
    CollectFirstError(lookups, k);
  }

  /** When the names sort, a block that cannot be shown fails with the
      error of the first of the first ten names whose icon lookup raises. */
  lemma SectionFirstIconError(only: set<Json>, files: seq<RawFile>, k: nat)
    requires only <= Names(files) && SortNames(only).Ok? && k < Min(10, |only|)
    requires RecordIcon(files[FirstIndexWithName(files, SortNames(only).value[k])]).Err?
    requires forall j :: 0 <= j < k ==> RecordIcon(files[FirstIndexWithName(files, SortNames(only).value[j])]).Ok?
    ensures SectionOf(only, files) == Err(RecordIcon(files[FirstIndexWithName(files, SortNames(only).value[k])]).error)
  {
    var xs := SortNames(only).value;
    forall i | 0 <= i < |xs| ensures xs[i] in Names(files) {
      assert xs[i] in only;
    }
    ShownFirstIconError(files, xs, k);
  }

  /** The block for a non-empty only-in set. */
  method ShowSection(only: set<Json>, files: seq<RawFile>) returns (r: Result<Section, Exception>)
    requires only <= Names(files)
    ensures r == SectionOf(only, files)
  {
    var sorted := SortNames(only);
    if sorted.Err? {
      return Err(sorted.error);
    }
    var xs := sorted.value;
    var icons := SectionIcons(xs, files, Min(10, |xs|));
    if icons.Err? {
      return Err(icons.error);
    }
    r := Ok(Section(|only|, xs, icons.value, if |only| > 10 then |only| - 10 else 0));
  }

  /** The icons of the first `shown` names, each taken from the name's first
      record; the first icon lookup that raises stops the block. */
  method SectionIcons(xs: seq<Json>, files: seq<RawFile>, shown: nat) returns (r: Result<seq<Icon>, Exception>)
    requires shown <= |xs| && forall i :: 0 <= i < |xs| ==> xs[i] in Names(files)
    ensures r == Collect(IconLookups(files, xs[..shown]))
  {
    var icons: seq<Icon> := [];
    var i := 0;
    while i < shown
      invariant 0 <= i <= shown && |icons| == i
      invariant forall j :: 0 <= j < i ==> RecordIcon(files[FirstIndexWithName(files, xs[j])]) == Ok(icons[j])
    {
      var icon := RecordIcon(files[FirstIndexWithName(files, xs[i])]);
      if icon.Err? {
        CollectFirstError(IconLookups(files, xs[..shown]), i);
        return Err(icon.error);
      }
      icons := icons + [icon.value];
      i := i + 1;
    }
    CollectValue(IconLookups(files, xs[..shown]), icons);
    r := Ok(icons);
  }

  datatype CompareOutcome =
    | ServicesMustDiffer      // "Services must be different."
    | Compared(total1: nat, total2: nat, common: nat, only1: Option<Section>, only2: Option<Section>)
    | CompareFailed(text: string)   // "Error: ..."

  /** What `compare` shows once both listings are in hand: the record
      totals, the number of common names, then the "Only in" block of each
      non-empty difference, the first drive's first; the first block that
      raises turns the whole output into its error. */
  function CompareListed(files1: seq<RawFile>, files2: seq<RawFile>): (r: CompareOutcome)
    ensures var c := CompareNames(Names(files1), Names(files2));
            (r.Compared? || r.CompareFailed?) &&
            (r.Compared? <==> (c.onlyIn1 != {} ==> SectionOf(c.onlyIn1, files1).Ok?) &&
                              (c.onlyIn2 != {} ==> SectionOf(c.onlyIn2, files2).Ok?)) &&
            (c.onlyIn1 != {} && SectionOf(c.onlyIn1, files1).Err? ==>
               r == CompareFailed(SectionOf(c.onlyIn1, files1).error.Str())) &&
            ((c.onlyIn1 == {} || SectionOf(c.onlyIn1, files1).Ok?) && c.onlyIn2 != {} && SectionOf(c.onlyIn2, files2).Err? ==>
               r == CompareFailed(SectionOf(c.onlyIn2, files2).error.Str())) &&
            (r.Compared? ==>
               r.total1 == |files1| && r.total2 == |files2| && r.common == |c.common| &&
               (r.only1.Some? <==> c.onlyIn1 != {}) && (r.only2.Some? <==> c.onlyIn2 != {}) &&
               (r.only1.Some? ==> DescribesSection(r.only1.value, c.onlyIn1, files1)) &&
               (r.only2.Some? ==> DescribesSection(r.only2.value, c.onlyIn2, files2)))
  {
    var c := CompareNames(Names(files1), Names(files2));
    var s1 := if c.onlyIn1 != {} then SectionOf(c.onlyIn1, files1) else Ok(Section(0, [], [], 0));
    var s2 := if c.onlyIn2 != {} then SectionOf(c.onlyIn2, files2) else Ok(Section(0, [], [], 0));
    if s1.Err? then CompareFailed(s1.error.Str())
    else if s2.Err? then CompareFailed(s2.error.Str())
    else Compared(|files1|, |files2|, |c.common|,
                  if c.onlyIn1 != {} then Some(s1.value) else None,
                  if c.onlyIn2 != {} then Some(s2.value) else None)
  }

  /** In the statistics `compare` shows, the common count and the two
      "Only in" counts add up to the number of distinct names on either drive. */
  lemma ComparedCountsAddUp(files1: seq<RawFile>, files2: seq<RawFile>)
    requires CompareListed(files1, files2).Compared?
    ensures var r := CompareListed(files1, files2);
            r.common + (if r.only1.Some? then r.only1.value.count else 0) + (if r.only2.Some? then r.only2.value.count else 0)
            == |Names(files1) + Names(files2)|
  {
    var c := CompareNames(Names(files1), Names(files2));
    CompareNamesPartition(Names(files1), Names(files2));
    assert |c.onlyIn1 + c.onlyIn2 + c.common| == |c.onlyIn1| + |c.onlyIn2| + |c.common|;
  }

  /** `omnidrive compare SERVICE1 SERVICE2`. The totals are record counts,
      not name counts. Both drives are listed through the corrected
      `GetFiles`. */
  method CompareCommand(drives: map<string, Drive>, service1: string, service2: string)
    returns (outcome: CompareOutcome, listed: seq<string>)
    requires service1 in drives && service2 in drives
    ensures service1 == service2 ==> outcome == ServicesMustDiffer && listed == []
    ensures service1 != service2 && GetFiles(drives[service1], service1).Err? ==>
              outcome == CompareFailed(GetFiles(drives[service1], service1).error.Str())
    ensures service1 != service2 && GetFiles(drives[service1], service1).Ok? && GetFiles(drives[service2], service2).Err? ==>
              outcome == CompareFailed(GetFiles(drives[service2], service2).error.Str())
    ensures service1 != service2 && Listings(drives, service1, service2).Some? ==>
              outcome == CompareListed(Listings(drives, service1, service2).value.0, Listings(drives, service1, service2).value.1)
    ensures forall s :: s in listed ==> s in drives && drives[s].storedToken.Some?
  {
    listed := [];
    if service1 == service2 {
      return ServicesMustDiffer, listed;
    }
    var d1, d2 := drives[service1], drives[service2];
    if d1.storedToken.Some? {
      listed := listed + [service1];
    }
    var r1 := GetFiles(d1, service1);
    if r1.Err? {
      return CompareFailed(r1.error.Str()), listed;
    }
    if d2.storedToken.Some? {
      listed := listed + [service2];
    }
    var r2 := GetFiles(d2, service2);
    if r2.Err? {
      return CompareFailed(r2.error.Str()), listed;
    }
    var files1, files2 := r1.value, r2.value;
    assert Listings(drives, service1, service2) == Some((files1, files2));
    var c := CompareNames(Names(files1), Names(files2));
    var only1: Option<Section> := None;
    if c.onlyIn1 != {} {
      var sec := ShowSection(c.onlyIn1, files1);
      if sec.Err? {
        return CompareFailed(sec.error.Str()), listed;
      }
      only1 := Some(sec.value);
    }
    var only2: Option<Section> := None;
    if c.onlyIn2 != {} {
      var sec := ShowSection(c.onlyIn2, files2);
      if sec.Err? {
        return CompareFailed(sec.error.Str()), listed;
      }
      only2 := Some(sec.value);
    }
    outcome := Compared(|files1|, |files2|, |c.common|, only1, only2);
  }
}
