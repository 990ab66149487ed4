/** The request bodies of the web API and their field constraints. A
    constraint `pattern="^(google|folderfort)$"` accepts exactly the two
    names (the pattern is anchored at both ends); `ge`/`le` bound a number
    and `min_length` a string. A field with a default is optional: a
    `Make...` function takes it as `None` when the body omits it. */
module WebRequests {
  import opened Common

  /** The services a request may name. */
  predicate ValidServiceName(s: string)
  {
    s == "google" || s == "folderfort"
  }

  const DefaultLimit: int := 100

  /** `Field(100, ge=1, le=1000)`. */
  predicate ValidLimit(n: int)
  {
    1 <= n <= 1000
  }

  const DefaultTopK: int := 5

  /** `Field(5, ge=1, le=20)`. */
  predicate ValidTopK(n: int)
  {
    1 <= n <= 20
  }

  /** An optional field's value: the given one or the default. */
  function OrDefault<T>(v: Option<T>, default: T): T
  {
    if v.Some? then v.value else default
  }

  datatype GoogleAuthRequest = GoogleAuthRequest(serviceAccountJson: string)

  /** `email` is checked as an address by the request model; that syntax is
      not part of this model. */
  datatype FolderfortAuthRequest = FolderfortAuthRequest(email: string, password: string)
  {
    predicate Valid() { |password| >= 1 }
  }

  datatype FileListRequest = FileListRequest(service: string, folderId: Option<string>, limit: int)
  {
    predicate Valid() { ValidServiceName(service) && ValidLimit(limit) }
  }

  datatype FileUploadRequest = FileUploadRequest(service: string, parentId: Option<string>)
  {
    predicate Valid() { ValidServiceName(service) }
  }

  datatype FileDownloadRequest = FileDownloadRequest(service: string, fileId: string)
  {
    predicate Valid() { ValidServiceName(service) }
  }

  datatype FileDeleteRequest = FileDeleteRequest(service: string, fileId: string, permanent: bool)
  {
    predicate Valid() { ValidServiceName(service) }
  }

  /** `SyncRequest`: nothing here requires the two services to differ. */
  datatype SyncRequest = SyncRequest(source: string, target: string, dryRun: bool, limit: int)
  {
    predicate Valid() { ValidServiceName(source) && ValidServiceName(target) && ValidLimit(limit) }
  }

  /** `CompareRequest`: nothing here requires the two services to differ. */
  datatype CompareRequest = CompareRequest(service1: string, service2: string, limit: int)
  {
    predicate Valid() { ValidServiceName(service1) && ValidServiceName(service2) && ValidLimit(limit) }
  }

  datatype SearchRequest = SearchRequest(query: string, service: Option<string>, topK: int)
  {
    predicate Valid() { |query| >= 1 && (service.Some? ==> ValidServiceName(service.value)) && ValidTopK(topK) }
  }

  datatype IndexRequest = IndexRequest(service: string, limit: int)
  {
    predicate Valid() { ValidServiceName(service) && ValidLimit(limit) }
  }

  datatype WorkflowRunRequest = WorkflowRunRequest(name: string, parameters: Option<map<string, Json>>)
  {
    predicate Valid() { name == "smart-sync" || name == "backup" }
  }

  /** A `FolderfortAuthRequest` body: accepted iff the password is non-empty. */
  function MakeFolderfortAuthRequest(email: string, password: string): (r: Option<FolderfortAuthRequest>)
    ensures r.Some? <==> password != []
    ensures r.Some? ==> r.value.Valid() && r.value.email == email && r.value.password == password
  {
    var q := FolderfortAuthRequest(email, password);
    if q.Valid() then Some(q) else None
  }

  /** A `FileListRequest` body; `limit` defaults to 100. */
  function MakeFileListRequest(service: string, folderId: Option<string>, limit: Option<int>): (r: Option<FileListRequest>)
    ensures r.Some? <==> ValidServiceName(service) && (limit.None? || ValidLimit(limit.value))
    ensures r.Some? ==> r.value.Valid() && r.value.service == service && r.value.folderId == folderId &&
                        r.value.limit == OrDefault(limit, DefaultLimit)
  {
    var q := FileListRequest(service, folderId, OrDefault(limit, DefaultLimit));
    if q.Valid() then Some(q) else None
  }

  /** A `FileDeleteRequest` body; `permanent` defaults to false. */
  function MakeFileDeleteRequest(service: string, fileId: string, permanent: Option<bool>): (r: Option<FileDeleteRequest>)
    ensures r.Some? <==> ValidServiceName(service)
    ensures r.Some? ==> r.value.Valid() && r.value.service == service && r.value.fileId == fileId &&
                        r.value.permanent == OrDefault(permanent, false)
  {
    var q := FileDeleteRequest(service, fileId, OrDefault(permanent, false));
    if q.Valid() then Some(q) else None
  }

  /** A `SyncRequest` body; `dry_run` defaults to false and `limit` to 100. */
  function MakeSyncRequest(source: string, target: string, dryRun: Option<bool>, limit: Option<int>): (r: Option<SyncRequest>)
    ensures r.Some? <==> ValidServiceName(source) && ValidServiceName(target) && (limit.None? || ValidLimit(limit.value))
    ensures r.Some? ==> r.value.Valid() && r.value.source == source && r.value.target == target &&
                        r.value.dryRun == OrDefault(dryRun, false) && r.value.limit == OrDefault(limit, DefaultLimit)
  {
    var q := SyncRequest(source, target, OrDefault(dryRun, false), OrDefault(limit, DefaultLimit));
    if q.Valid() then Some(q) else None
  }

  /** A `CompareRequest` body; `limit` defaults to 100. */
  function MakeCompareRequest(service1: string, service2: string, limit: Option<int>): (r: Option<CompareRequest>)
    ensures r.Some? <==> ValidServiceName(service1) && ValidServiceName(service2) && (limit.None? || ValidLimit(limit.value))
    ensures r.Some? ==> r.value.Valid() && r.value.service1 == service1 && r.value.service2 == service2 &&
                        r.value.limit == OrDefault(limit, DefaultLimit)
  {
    var q := CompareRequest(service1, service2, OrDefault(limit, DefaultLimit));
    if q.Valid() then Some(q) else None
  }

  /** A `SearchRequest` body; `service` is optional and `top_k` defaults to 5. */
  function MakeSearchRequest(query: string, service: Option<string>, topK: Option<int>): (r: Option<SearchRequest>)
    ensures r.Some? <==> query != [] && (service.Some? ==> ValidServiceName(service.value)) && (topK.None? || ValidTopK(topK.value))
    ensures r.Some? ==> r.value.Valid() && r.value.query == query && r.value.service == service &&
                        r.value.topK == OrDefault(topK, DefaultTopK)
  {
    var q := SearchRequest(query, service, OrDefault(topK, DefaultTopK));
    if q.Valid() then Some(q) else None
  }

  /** An `IndexRequest` body; `limit` defaults to 100. */
  function MakeIndexRequest(service: string, limit: Option<int>): (r: Option<IndexRequest>)
    ensures r.Some? <==> ValidServiceName(service) && (limit.None? || ValidLimit(limit.value))
    ensures r.Some? ==> r.value.Valid() && r.value.service == service && r.value.limit == OrDefault(limit, DefaultLimit)
  {
    var q := IndexRequest(service, OrDefault(limit, DefaultLimit));
    if q.Valid() then Some(q) else None
  }

  /** A `WorkflowRunRequest` body; `parameters` is optional. */
  function MakeWorkflowRunRequest(name: string, parameters: Option<map<string, Json>>): (r: Option<WorkflowRunRequest>)
    ensures r.Some? <==> name == "smart-sync" || name == "backup"
    ensures r.Some? ==> r.value.Valid() && r.value.name == name && r.value.parameters == parameters
  {
    var q := WorkflowRunRequest(name, parameters);
    if q.Valid() then Some(q) else None
  }

  /** Omitting every defaulted field gives a valid request whenever the
      required fields are valid: the defaults satisfy their own bounds. */
  lemma DefaultsAccepted(s1: string, s2: string, query: string)
    requires ValidServiceName(s1) && ValidServiceName(s2) && query != []
    ensures MakeSyncRequest(s1, s2, None, None) == Some(SyncRequest(s1, s2, false, 100))
    ensures MakeCompareRequest(s1, s2, None) == Some(CompareRequest(s1, s2, 100))
    ensures MakeFileListRequest(s1, None, None) == Some(FileListRequest(s1, None, 100))
    ensures MakeIndexRequest(s1, None) == Some(IndexRequest(s1, 100))
    ensures MakeSearchRequest(query, None, None) == Some(SearchRequest(query, None, 5))
    ensures MakeFileDeleteRequest(s1, "", None).value.permanent == false
  {
  }

  /** The request models accept the same service twice; only the route
      handlers refuse it. */
  lemma SameServiceAccepted(s: string)
    requires ValidServiceName(s)
    ensures MakeSyncRequest(s, s, None, None).Some? && MakeCompareRequest(s, s, None).Some?
  {
  }

  /** A limit outside 1..1000 and a `top_k` outside 1..20 are refused, as is
      any other service name. */
  lemma OutOfRangeRefused(service: string, limit: int, topK: int)
    requires !ValidLimit(limit) && !ValidTopK(topK)
    ensures MakeSyncRequest("google", "folderfort", None, Some(limit)).None?
    ensures MakeSearchRequest("q", None, Some(topK)).None?
    ensures !ValidServiceName(service) ==> MakeIndexRequest(service, None).None? && MakeFileListRequest(service, None, None).None?
  {
  }
}
