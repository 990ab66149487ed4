/** The file routes of the web API: choosing the adapter for a service name
    (the `get_service` helper, identical in the file and sync routes) and
    listing a service's files as `FileMetadata` responses. */
module WebFiles {
  import opened Common
  import opened Strings
  import opened Records
  import opened ServicesBase
  import WebRequests

  /** What the authentication helpers report: whether Google credentials and
      a Folderfort token are configured, and that token. */
  datatype AuthStatus = AuthStatus(google: bool, folderfort: bool, folderfortToken: Option<string>)

  /** The exceptions a route handler meets: an `HTTPException`, an exception
      raised by an adapter, or a response model refusing its fields. */
  datatype WebException =
    | Http(status: nat, detail: string)
    | Raised(err: Exception)
    | Invalid(model: string)
  {
    /** `str(e)`. For an `HTTPException` it is "status: detail". The text of
        a validation error is stood in for by the model's name. */
    function Str(): string
    {
      match this
      case Http(status, detail) => NatToString(status) + ": " + detail
      case Raised(e) => e.Str()
      case Invalid(m) => "validation error for " + m
    }
  }

  /** `get_service(service_name)`: the adapter for a known, authenticated
      service; 401 when it is not authenticated, 400 for an unknown name. */
  function GetService(name: string, auth: AuthStatus): (r: Result<CloudService, WebException>)
    ensures r.Ok? <==> (name == "google" && auth.google) || (name == "folderfort" && auth.folderfort)
    ensures name == "google" && !auth.google ==> r == Err(Http(401, "Not authenticated with Google Drive"))
    ensures name == "folderfort" && !auth.folderfort ==> r == Err(Http(401, "Not authenticated with Folderfort"))
    ensures name != "google" && name != "folderfort" ==> r == Err(Http(400, "Unknown service: " + name))
    ensures r.Ok? && name == "google" ==> r.value == NewCloudService("GoogleDriveService", None)
    ensures r.Ok? && name == "folderfort" ==> r.value == NewCloudService("FolderfortService", auth.folderfortToken)
  {
    if name == "google" then
      if !auth.google then Err(Http(401, "Not authenticated with Google Drive"))
      else Ok(NewCloudService("GoogleDriveService", None))
    else if name == "folderfort" then
      if !auth.folderfort then Err(Http(401, "Not authenticated with Folderfort"))
      else Ok(NewCloudService("FolderfortService", auth.folderfortToken))
    else Err(Http(400, "Unknown service: " + name))
  }

  /** `get_service` refuses with 400 exactly the names the request models
      refuse, so a validated request never meets that error. */
  lemma GetServiceAgreesWithRequests(name: string, auth: AuthStatus)
    ensures GetService(name, auth) == Err(Http(400, "Unknown service: " + name)) <==> !WebRequests.ValidServiceName(name)
    ensures GetService(name, auth).Ok? ==> WebRequests.ValidServiceName(name)
  {
  }

  /** A pydantic `Optional[str]` field: `None` or a string; anything else is
      refused (the outer `None` of the result). */
  function OptionalStr(v: Json): (r: Option<Option<string>>)
    ensures r == Some(None) <==> v == JNull
    ensures forall s :: r == Some(Some(s)) <==> v == JStr(s)
  {
    match v
    case JNull => Some(None)
    case JStr(s) => Some(Some(s))
    case _ => None
  }

  /** A pydantic `Optional[int]` field in lax mode: `None`, an integer, a
      boolean (as 0 or 1) or a string of decimal digits. */
  function OptionalInt(v: Json): (r: Option<Option<int>>)
    ensures r == Some(None) <==> v == JNull
    ensures v.JInt? ==> r == Some(Some(v.i))
    ensures v.JStr? ==> (r.Some? <==> v.s != [] && forall k :: 0 <= k < |v.s| ==> IsDigit(v.s[k]))
    ensures r.Some? && r.value.Some? ==> v.JInt? || v.JBool? || v.JStr?
  {
    match v
    case JNull => Some(None)
    case JInt(i) => Some(Some(i))
    case JBool(b) => Some(Some(if b then 1 else 0))
    case JStr(s) =>
      if s != [] && forall k :: 0 <= k < |s| ==> IsDigit(s[k]) then Some(Some(DigitsValue(s))) else None
    case _ => None
  }

  /** A size sent as a decimal string (as the Drive API does) is read back as
      the number it spells. */
  lemma DecimalSizeRead(n: nat)
    ensures OptionalInt(JStr(NatToString(n))) == Some(Some(n))
  {
    NatToStringRoundTrip(n);
  }

  /** `FileMetadata`. */
  datatype FileMetadata = FileMetadata(
    id: string, name: string, size: Option<int>, mimeType: Option<string>,
    createdTime: Option<string>, modifiedTime: Option<string>, parentId: Option<string>,
    service: string)

  /** `file_data.get('size') or file_data.get('file_size')`. */
  function SizeField(f: RawFile): Json
  {
    Or(Get(f, "size"), Get(f, "file_size"))
  }

  /** `file_data.get('mimeType') or file_data.get('type')`. */
  function MimeField(f: RawFile): Json
  {
    Or(Get(f, "mimeType"), Get(f, "type"))
  }

  /** The fields a record must carry for `FileMetadata` to accept it. */
  predicate Convertible(f: RawFile)
  {
    Get(f, "id").JStr? && Get(f, "name").JStr? &&
    OptionalInt(SizeField(f)).Some? && OptionalStr(MimeField(f)).Some? &&
    OptionalStr(Get(f, "createdTime")).Some? && OptionalStr(Get(f, "modifiedTime")).Some? &&
    OptionalStr(Get(f, "parentId")).Some?
  }

  /** The `FileMetadata` built from one listing record, or `None` when the
      model refuses the record's fields. */
  function ToMetadata(f: RawFile, service: string): (r: Option<FileMetadata>)
    ensures r.Some? <==> Convertible(f)
    ensures r.Some? ==> JStr(r.value.id) == f["id"] && JStr(r.value.name) == f["name"] && r.value.service == service
    ensures r.Some? ==> OptionalInt(SizeField(f)) == Some(r.value.size) && OptionalStr(MimeField(f)) == Some(r.value.mimeType)
    ensures r.Some? ==> OptionalStr(Get(f, "createdTime")) == Some(r.value.createdTime) &&
                        OptionalStr(Get(f, "modifiedTime")) == Some(r.value.modifiedTime)
    ensures r.Some? ==> OptionalStr(Get(f, "parentId")) == Some(r.value.parentId)
  {
    if Convertible(f) then
      Some(FileMetadata(
        Get(f, "id").s, Get(f, "name").s,
        OptionalInt(SizeField(f)).value, OptionalStr(MimeField(f)).value,
        OptionalStr(Get(f, "createdTime")).value, OptionalStr(Get(f, "modifiedTime")).value,
        OptionalStr(Get(f, "parentId")).value, service))
    else None
  }

  /** `size` falls back to `file_size` when it is absent or falsy, so a
      zero-byte file without `file_size` is reported with no size. */
  lemma SizeFallsBack(f: RawFile, n: int, service: string)
    requires Convertible(f)
    requires "size" !in f || f["size"] == JInt(0)
    ensures "file_size" in f && f["file_size"] == JInt(n) ==> ToMetadata(f, service).value.size == Some(n)
    ensures "file_size" !in f ==> ToMetadata(f, service).value.size == None
  {
  }

  /** A record in the Drive API's shape converts with its own values. */
  lemma DriveRecordConverts(id: string, name: string, size: nat, mime: string, service: string)
    requires mime != ""
    ensures var f := map["id" := JStr(id), "name" := JStr(name), "size" := JStr(NatToString(size)), "mimeType" := JStr(mime)];
            ToMetadata(f, service) == Some(FileMetadata(id, name, Some(size), Some(mime), None, None, None, service))
  {
    var f := map["id" := JStr(id), "name" := JStr(name), "size" := JStr(NatToString(size)), "mimeType" := JStr(mime)];
    DecimalSizeRead(size);
    assert Truthy(JStr(NatToString(size)));
    assert SizeField(f) == JStr(NatToString(size));
    assert MimeField(f) == JStr(mime);
  }

  /** `FileListResponse`. */
  datatype FileListResponse = FileListResponse(service: string, files: seq<FileMetadata>, total: nat)

  /** The `HTTPException` the file listing raises for any exception inside it. */
  function FailedToList(e: WebException): WebException
  {
    Http(500, "Failed to list files: " + e.Str())
  }

  /** The exception that interrupts a listing: the adapter choice, the
      listing itself, then the first record the model refuses. */
  function ListFailure(name: string, auth: AuthStatus, list: CloudService -> Result<seq<RawFile>, Exception>): Option<WebException>
  {
    var svc := GetService(name, auth);
    if svc.Err? then Some(svc.error)
    else
      var files := list(svc.value);
      if files.Err? then Some(Raised(files.error))
      else if AllConvertible(files.value) then None
      else Some(Invalid("FileMetadata"))
  }

  predicate AllConvertible(files: seq<RawFile>)
  {
    forall i :: 0 <= i < |files| ==> Convertible(files[i])
  }

  /** The loop building the response entries, one per record in order;
      `None` as soon as a record is refused. */
  method ConvertAll(files: seq<RawFile>, name: string) returns (r: Option<seq<FileMetadata>>)
    ensures r.Some? <==> AllConvertible(files)
    ensures r.Some? ==> |r.value| == |files| && forall i :: 0 <= i < |files| ==> Some(r.value[i]) == ToMetadata(files[i], name)
  {
    var metadata: seq<FileMetadata> := [];
    var i := 0;
    while i < |files|
      invariant 0 <= i <= |files| && |metadata| == i
      invariant forall j :: 0 <= j < i ==> Some(metadata[j]) == ToMetadata(files[j], name)
    {
      var m := ToMetadata(files[i], name);
      if m.None? {
        return None;
      }
      metadata := metadata + [m.value];
      i := i + 1;
    }
    return Some(metadata);
  }

  /** `GET /files/`: the service's records converted one by one, in listing
      order; any failure, including a 401 or 400 from `get_service`,
      becomes a 500 whose detail carries the original text. `list` is what
      the adapter's `list_files(folder_id, limit)` returns. */
  method ListFiles(name: string, auth: AuthStatus, list: CloudService -> Result<seq<RawFile>, Exception>)
    returns (r: Result<FileListResponse, WebException>)
    ensures r.Ok? <==> ListFailure(name, auth, list).None?
    ensures r.Err? ==> r.error == FailedToList(ListFailure(name, auth, list).value)
    ensures r.Ok? ==> var files := list(GetService(name, auth).value).value;
      r.value.service == name && r.value.total == |files| == |r.value.files| &&
      forall i :: 0 <= i < |files| ==> Some(r.value.files[i]) == ToMetadata(files[i], name)
  {
    var svc := GetService(name, auth);
    if svc.Err? {
      return Err(FailedToList(svc.error));
    }
    var listing := list(svc.value);
    if listing.Err? {
      return Err(FailedToList(Raised(listing.error)));
    }
    var metadata := ConvertAll(listing.value, name);
    if metadata.None? {
      return Err(FailedToList(Invalid("FileMetadata")));
    }
    return Ok(FileListResponse(name, metadata.value, |metadata.value|));
  }

  /** An unauthenticated service is reported as a server error whose
      detail quotes the 401 (`NatToString(401)` is "401", as
      `StatusCodeTexts` shows). */
  lemma UnauthenticatedListIsServerError(name: string, auth: AuthStatus, list: CloudService -> Result<seq<RawFile>, Exception>)
    requires name == "google" && !auth.google
    ensures ListFailure(name, auth, list) == Some(Http(401, "Not authenticated with Google Drive"))
    ensures FailedToList(ListFailure(name, auth, list).value)
            == Http(500, "Failed to list files: " + NatToString(401) + ": " + "Not authenticated with Google Drive")
  {
    var e := Http(401, "Not authenticated with Google Drive");
    assert GetService(name, auth) == Err(e);
  }

  /** The decimal texts of the status codes the routes raise. */
  lemma StatusCodeTexts()
    ensures NatToString(400) == "400" && NatToString(401) == "401"
    ensures NatToString(404) == "404" && NatToString(500) == "500"
  {
    assert DigitChar(0) == '0' && DigitChar(1) == '1' && DigitChar(4) == '4' && DigitChar(5) == '5';
    assert NatToString(4) == "4" && NatToString(5) == "5";
    assert NatToString(40) == NatToString(4) + [DigitChar(0)];
    assert NatToString(50) == NatToString(5) + [DigitChar(0)];
    assert NatToString(400) == NatToString(40) + [DigitChar(0)];
    assert NatToString(401) == NatToString(40) + [DigitChar(1)];
    assert NatToString(404) == NatToString(40) + [DigitChar(4)];
    assert NatToString(500) == NatToString(50) + [DigitChar(0)];
  }
}
