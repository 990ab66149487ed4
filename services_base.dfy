/** The common base of every storage adapter (`CloudService`) and the
    service error types. */
module ServicesBase {
  import opened Common
  import opened Strings
  import opened Records

  predicate EndsWith(s: string, suffix: string)
  {
    |suffix| <= |s| && s[|s| - |suffix|..] == suffix
  }

  /** `class_name[:-7]` when the class name ends with "Service". */
  function StripServiceSuffix(className: string): (r: string)
    ensures EndsWith(className, "Service") ==> r + "Service" == className
    ensures !EndsWith(className, "Service") ==> r == className
  {
    if EndsWith(className, "Service") then className[..|className| - 7] else className
  }

  /** `re.sub(r'(?<!^)(?=[A-Z])', '_', s)`: an underscore before every
      upper-case ASCII letter except one at position 0. */
  function InsertUnderscores(s: string): (r: string)
    ensures s == [] ==> r == []
    ensures s != [] ==> r != [] && r[0] == s[0]
  {
    if s == [] then [] else [s[0]] + UnderscoreBeforeUpper(s[1..])
  }

  function UnderscoreBeforeUpper(t: string): string
    decreases |t|
  {
    if t == [] then []
    else (if IsUpper(t[0]) then "_" + [t[0]] else [t[0]]) + UnderscoreBeforeUpper(t[1..])
  }

  /** Every upper-case letter gains exactly one underscore. */
  lemma {:induction false} UnderscoreBeforeUpperLength(t: string)
    ensures |UnderscoreBeforeUpper(t)| == |t| + CountUpper(t)
    decreases |t|
  {
    if t != [] {
      UnderscoreBeforeUpperLength(t[1..]);
    }
  }

  /** The adapter name derived from its class name in `CloudService.__init__`:
      strip "Service", snake-case the rest, lower-case it. */
  function DeriveServiceName(className: string): (r: string)
    ensures NoUpper(r)
    ensures var stripped := StripServiceSuffix(className);
            |r| == |stripped| + (if stripped == [] then 0 else CountUpper(stripped[1..]))
  {
    var stripped := StripServiceSuffix(className);
    if stripped != [] then UnderscoreBeforeUpperLength(stripped[1..]); Lower(InsertUnderscores(stripped))
    else Lower(InsertUnderscores(stripped))
  }

  /** Concatenation of a sequence of words. */
  function Concat(ws: seq<string>): string
    decreases |ws|
  {
    if ws == [] then "" else ws[0] + Concat(ws[1..])
  }

  /** A CamelCase word: an upper-case first letter, no upper-case letter after it. */
  predicate CamelWord(w: string)
  {
    w != [] && IsUpper(w[0]) && NoUpper(w[1..])
  }

  lemma {:induction false} UnderscoreNoUpper(t: string)
    requires NoUpper(t)
    ensures UnderscoreBeforeUpper(t) == t
    decreases |t|
  {
    if t != [] {
      assert NoUpper(t[1..]);
      UnderscoreNoUpper(t[1..]);
      assert [t[0]] + t[1..] == t;
    }
  }

  lemma {:induction false} UnderscoreAppend(a: string, b: string)
    ensures UnderscoreBeforeUpper(a + b) == UnderscoreBeforeUpper(a) + UnderscoreBeforeUpper(b)
    decreases |a|
  {
    if a == [] {
      assert a + b == b;
    } else {
      assert (a + b)[0] == a[0] && (a + b)[1..] == a[1..] + b;
      UnderscoreAppend(a[1..], b);
    }
  }

  /** The words of a CamelCase name, joined by underscores. */
  lemma {:induction false} UnderscoreCamelWords(ws: seq<string>)
    requires forall i :: 0 <= i < |ws| ==> CamelWord(ws[i])
    ensures UnderscoreBeforeUpper(Concat(ws)) == Concat(seq(|ws|, i requires 0 <= i < |ws| => "_" + ws[i]))
    decreases |ws|
  {
    if ws != [] {
      var w := ws[0];
      UnderscoreAppend(w, Concat(ws[1..]));
      UnderscoreCamelWords(ws[1..]);
      UnderscoreNoUpper(w[1..]);
      assert UnderscoreBeforeUpper(w) == "_" + [w[0]] + UnderscoreBeforeUpper(w[1..]);
      assert [w[0]] + w[1..] == w;
      var us := seq(|ws|, i requires 0 <= i < |ws| => "_" + ws[i]);
      assert us[1..] == seq(|ws| - 1, i requires 0 <= i < |ws| - 1 => "_" + ws[1..][i]);
    }
  }

  lemma {:induction false} ConcatUnderscoreJoin(ws: seq<string>)
    requires ws != []
    ensures Concat(seq(|ws|, i requires 0 <= i < |ws| => "_" + ws[i])) == "_" + Join(ws, "_")
    decreases |ws|
  {
    var us := seq(|ws|, i requires 0 <= i < |ws| => "_" + ws[i]);
    if |ws| > 1 {
      ConcatUnderscoreJoin(ws[1..]);
      assert us[1..] == seq(|ws| - 1, i requires 0 <= i < |ws| - 1 => "_" + ws[1..][i]);
    }
  }

  /** Snake-casing a CamelCase name puts one underscore between consecutive
      words: `DeriveServiceName(w1 w2 ... wn + "Service")` is the lower-cased
      words joined by '_'. For instance MockCloudService gives mock_cloud. */
  lemma {:induction false} DeriveServiceNameOfCamelWords(ws: seq<string>)
    requires ws != []
    requires forall i :: 0 <= i < |ws| ==> CamelWord(ws[i])
    ensures DeriveServiceName(Concat(ws) + "Service") == Lower(Join(ws, "_"))
  {
    var c := Concat(ws);
    assert EndsWith(c + "Service", "Service");
    assert StripServiceSuffix(c + "Service") == c;
    InsertUnderscoresCamelWords(ws);
  }

  lemma {:induction false} InsertUnderscoresCamelWords(ws: seq<string>)
    requires ws != []
    requires forall i :: 0 <= i < |ws| ==> CamelWord(ws[i])
    ensures InsertUnderscores(Concat(ws)) == Join(ws, "_")
  {
    var w, rest := ws[0], Concat(ws[1..]);
    assert Concat(ws) == w + rest;
    InsertUnderscoresCamelHead(w, rest);
    if |ws| == 1 {
      assert rest == "";
      assert w + "" == w;
    } else {
      UnderscoreCamelWords(ws[1..]);
      ConcatUnderscoreJoin(ws[1..]);
      assert Join(ws, "_") == w + "_" + Join(ws[1..], "_");
    }
  }

  /** A leading CamelCase word gets no underscore of its own. */
  lemma InsertUnderscoresCamelHead(w: string, rest: string)
    requires CamelWord(w)
    ensures InsertUnderscores(w + rest) == w + UnderscoreBeforeUpper(rest)
  {
    var tail, u := w[1..], UnderscoreBeforeUpper(rest);
    InsertUnderscoresCons(w, rest);
    UnderscoreAppend(tail, rest);
    UnderscoreNoUpper(tail);
    assert [w[0]] + (tail + u) == ([w[0]] + tail) + u;
    assert [w[0]] + tail == w;
  }

  lemma InsertUnderscoresCons(w: string, rest: string)
    requires w != []
    ensures InsertUnderscores(w + rest) == [w[0]] + UnderscoreBeforeUpper(w[1..] + rest)
  {
    var c := w + rest;
    assert c[0] == w[0] && c[1..] == w[1..] + rest;
  }

  lemma ConcatOne(w: string)
    ensures Concat([w]) == w
  {
    assert [w][1..] == [];
    assert w + "" == w;
  }

  /** Two CamelCase words: one underscore between them. */
  lemma DeriveServiceNameOfTwoWords(a: string, b: string)
    requires CamelWord(a) && CamelWord(b)
    ensures DeriveServiceName(a + b + "Service") == Lower(a + "_" + b)
  {
    var ws := [a, b];
    ConcatOne(b);
    assert ws[1..] == [b];
    assert Concat(ws) == a + b;
    DeriveServiceNameOfCamelWords(ws);
    assert Join(ws, "_") == a + "_" + b;
  }

  /** The adapter names of the test suite's mock class and of the two real adapters. */
  lemma MockCloudServiceName(c: string)
    requires c == "MockCloudService"
    ensures DeriveServiceName(c) == "mock_cloud"
  {
    MockCloudWords();
    DeriveServiceNameOfTwoWords("Mock", "Cloud");
  }

  lemma MockCloudWords()
    ensures "MockCloudService" == "Mock" + "Cloud" + "Service"
    ensures CamelWord("Mock") && CamelWord("Cloud")
    ensures Lower("Mock" + "_" + "Cloud") == "mock_cloud"
  {
  }

  lemma FolderfortServiceName(c: string)
    requires c == "FolderfortService"
    ensures DeriveServiceName(c) == "folderfort"
  {
    FolderfortWords();
    ConcatOne("Folderfort");
    DeriveServiceNameOfCamelWords(["Folderfort"]);
  }

  lemma FolderfortWords()
    ensures "FolderfortService" == "Folderfort" + "Service"
    ensures CamelWord("Folderfort")
    ensures Join(["Folderfort"], "_") == "Folderfort"
    ensures Lower("Folderfort") == "folderfort"
  {
  }

  lemma GoogleDriveServiceName(c: string)
    requires c == "GoogleDriveService"
    ensures DeriveServiceName(c) == "google_drive"
  {
    GoogleDriveWords();
    DeriveServiceNameOfTwoWords("Google", "Drive");
  }

  lemma GoogleDriveWords()
    ensures "GoogleDriveService" == "Google" + "Drive" + "Service"
    ensures CamelWord("Google") && CamelWord("Drive")
    ensures Lower("Google" + "_" + "Drive") == "google_drive"
  {
  }

  /** An adapter instance as `CloudService.__init__` leaves it: the class it
      was built from, its access token and the derived service name. */
  datatype CloudService = CloudService(className: string, accessToken: Option<string>, serviceName: string)
  {
    /** `is_authenticated`: a token is present. */
    predicate IsAuthenticated()
    {
      accessToken.Some?
    }

    /** `get_service_name`. */
    function GetServiceName(): string
    {
      serviceName
    }
  }

  /** `CloudService.__init__(access_token)` for an instance of class `className`. */
  function NewCloudService(className: string, accessToken: Option<string>): (s: CloudService)
    ensures s.className == className && s.accessToken == accessToken
    ensures s.GetServiceName() == DeriveServiceName(className)
    ensures s.IsAuthenticated() <==> accessToken != None
  {
    CloudService(className, accessToken, DeriveServiceName(className))
  }

  /** `ServiceError` and its subclass `AuthenticationError`. */
  datatype ErrorKind = PlainServiceError | AuthenticationError

  datatype ServiceError = ServiceError(kind: ErrorKind, message: string, serviceName: string)
  {
    /** `str(e)`: "service_name: message", or the message alone when no service is named. */
    function Text(): (r: string)
      ensures serviceName != "" ==> r == serviceName + ": " + message
      ensures serviceName == "" ==> r == message
    {
      if serviceName != "" then serviceName + ": " + message else message
    }
  }

  /** The exceptions the core meets: a service error, or any other exception
      (carrying its `str`). */
  datatype Exception = Service(err: ServiceError) | Other(text: string)
  {
    /** `isinstance(e, ServiceError)`: true for both service error classes. */
    predicate IsServiceError()
    {
      Service?
    }

    /** `isinstance(e, AuthenticationError)`. */
    predicate IsAuthenticationError()
    {
      Service? && err.kind == AuthenticationError
    }

    function Str(): string
    {
      match this
      case Service(e) => e.Text()
      case Other(t) => t
    }
  }

  /** Every authentication error is also a service error, so an `except
      ServiceError` clause placed first would catch it. */
  lemma AuthenticationErrorIsServiceError(e: Exception)
    ensures e.IsAuthenticationError() ==> e.IsServiceError()
  {
  }

  /** What copying a record between two adapters does (`_sync_file` in the
      command line, the loop body of the web sync job): a record without 'id' raises
      `KeyError('id')`; otherwise the download and upload succeed or raise as
      `transfer` says. */
  function TransferOutcome(f: RawFile, transfer: RawFile -> Option<Exception>): Option<Exception>
  {
    if "id" !in f then Some(Other("'id'")) else transfer(f)
  }

  /** The index of the first record whose transfer fails. */
  function FirstFailure(plan: seq<RawFile>, transfer: RawFile -> Option<Exception>): (k: Option<nat>)
    ensures k.Some? ==> k.value < |plan| && TransferOutcome(plan[k.value], transfer).Some?
    ensures k.Some? ==> forall j :: 0 <= j < k.value ==> TransferOutcome(plan[j], transfer).None?
    ensures k.None? ==> forall j :: 0 <= j < |plan| ==> TransferOutcome(plan[j], transfer).None?
    decreases |plan|
  {
    if plan == [] then None
    else if TransferOutcome(plan[0], transfer).Some? then Some(0)
    else
      var k := FirstFailure(plan[1..], transfer);
      if k.None? then None else Some(k.value + 1)
  }

  lemma {:induction false} FirstFailureAt(plan: seq<RawFile>, transfer: RawFile -> Option<Exception>, i: nat)
    requires i < |plan| && TransferOutcome(plan[i], transfer).Some?
    requires forall j :: 0 <= j < i ==> TransferOutcome(plan[j], transfer).None?
    ensures FirstFailure(plan, transfer) == Some(i)
    decreases i
  {
    if i > 0 {
      FirstFailureAt(plan[1..], transfer, i - 1);
    }
  }

  lemma FirstFailureNone(plan: seq<RawFile>, transfer: RawFile -> Option<Exception>)
    requires forall j :: 0 <= j < |plan| ==> TransferOutcome(plan[j], transfer).None?
    ensures FirstFailure(plan, transfer) == None
  {
  }
}
