# OmniDrive core in Dafny

OmniDrive has three parts that this model covers. The first is a command-line client that lists, syncs and compares files between Google Drive and Folderfort. The second is a set of LangGraph workflows: smart sync, and the ingestion of an Obsidian vault. The third is a small web API over the same adapters.

The model has one Dafny module per source file of the core:

- `Cli`: `sync`, `compare`, the file icon, the size formatting and the session commands of `omnidrive/cli.py`.
- `Graphs`: the workflow nodes, the sync graph, the wiki-link extraction, the vault indexing and the workflow engine.
- `Config`: the dotted-key configuration file.
- `Memory`: the JSON memory store.
- `ServicesBase` and `ServicesFactory`: the adapter base class, its derived service name, the error types and the adapter registry.
- `WebRequests`: the request models of the web API and their field constraints.
- `WebFiles` and `WebSync`: the `files` and `sync` routes of the web API.
- `Indexer`: text extraction, the file indexer and the search filter.

Four helper modules hold the pieces of Python that several modules need:

- `Common`: `Option`, `Result`, JSON-like values, truthiness, `or` and `dict.get`.
- `Strings`: `split`, `join`, `replace`, `lower`, `capitalize`, ordering, sorting and the rendering of integers.
- `Paths`: pathlib's `name`, `suffix` and `stem`, and `os.path.basename`.
- `Records`: raw listing records as dictionaries, their name sets, and name-keyed dictionaries that keep insertion order.

Some things are passed in as parameters: the adapters' listings and transfers, file contents, embeddings, the vector store, clocks and identifiers. Each one is a function value or a plain value, so every result is stated in terms of those inputs.

State that the source keeps and updates is modelled as a class:

- the configuration file;
- the memory directory;
- the adapter registry;
- the web API's in-memory job table;
- the calls the indexer makes to its vector store.

## Model

| member | source | states |
|---|---|---|
| Common.Or | omnidrive/cli.py:283-284 | `a or b` yields `a` exactly when `a` is truthy, otherwise `b` |
| Common.Get | omnidrive/cli.py:270-271 | `d.get(k)` is the stored value when the key is present and `None` otherwise |
| Common.Collect | omnidrive/cli.py:345-348 | a run of lookups succeeds iff each lookup does, and then gives their values in order |
| Common.CollectFirstError | omnidrive/cli.py:345-348 | a failing run of lookups fails with the error of the first lookup that fails |
| Common.CollectValue | omnidrive/cli.py:345-348 | lookups that all succeed give exactly their values |
| Strings.ContainsAt | omnidrive/cli.py:651 | an occurrence at any index makes `sub in s` true |
| Strings.ContainsAppend | omnidrive/services/factory.py:65 | a substring of a suffix is a substring of the whole string |
| Strings.RemoveAll | omnidrive/cli.py:587 | `str.replace(pat, '')` never lengthens the string |
| Strings.RemoveAllAbsent | omnidrive/cli.py:587 | removing a pattern that does not occur leaves the string unchanged |
| Strings.RemoveAllLeading | omnidrive/cli.py:587 | an occurrence at the start is removed and the scan resumes after it |
| Strings.RemoveAllKeepsHead | omnidrive/cli.py:587 | a character at which no occurrence starts is kept, and the scan resumes at the next one |
| Strings.Split | omnidrive/config.py:53 | `str.split('.')` gives at least one part, and no part contains the separator |
| Strings.JoinSplit | omnidrive/config.py:53 | joining the parts of a split with the separator gives back the original key |
| Strings.SplitNoSeparator | omnidrive/config.py:53 | a key without a dot splits into itself alone |
| Strings.SplitJoin | omnidrive/config.py:53 | splitting a join of separator-free parts gives back the parts |
| Strings.SplitPrefix | omnidrive/config.py:53 | a leading separator-free segment becomes the first part |
| Strings.LowerChar | omnidrive/services/base.py:32 | the lowered character is never upper-case, and other characters are unchanged |
| Strings.Lower | omnidrive/services/base.py:32 | `lower()` keeps the length and lowers each character |
| Strings.UpperChar | omnidrive/cli.py:375 | the raised character is never a lower-case letter, and other characters are unchanged |
| Strings.Capitalize | omnidrive/cli.py:375 | `capitalize()` keeps the length, raises the first character and lowers the rest |
| Strings.LessIrreflexive | omnidrive/cli.py:345 | string order: no string precedes itself |
| Strings.LessTransitive | omnidrive/cli.py:345 | string order is transitive |
| Strings.LessTotal | omnidrive/cli.py:345 | of two different strings, one precedes the other |
| Strings.LessAsymmetric | omnidrive/cli.py:345 | string order is asymmetric |
| Strings.AtMostLessTransitive | omnidrive/cli.py:345 | `b <= a < c` implies `b < c` |
| Strings.LeastExists | omnidrive/cli.py:345 | every non-empty set of strings has a least element |
| Strings.LeastUnique | omnidrive/cli.py:345 | a set of strings has at most one least element |
| Strings.SortedStrings | omnidrive/cli.py:345 | `sorted(set)` is strictly increasing, holds exactly the set's elements, and is as long as the set |
| Strings.SortedStringsLeastFirst | omnidrive/cli.py:345 | `sorted(set)` starts with the least string, followed by the rest of the set sorted |
| Strings.SortedHeadLeast | omnidrive/cli.py:345 | the first of a strictly increasing sequence is the least of its strings |
| Strings.SortedTail | omnidrive/cli.py:345 | the rest of a strictly increasing sequence is strictly increasing and holds the other strings |
| Strings.SortedStringsCons | omnidrive/cli.py:345 | a strictly increasing sequence whose rest is the rest of the set sorted is the set sorted |
| Strings.SortedStringsUnique | omnidrive/cli.py:345 | any strictly increasing sequence of exactly the set's strings is `sorted(set)`, so the sorted order is determined |
| Strings.DigitChar | omnidrive-web/api/app/api/routes/files.py:81 | each decimal digit is rendered as the character with that value |
| Strings.NatToString | omnidrive-web/api/app/api/routes/files.py:81 | `str(n)` is a non-empty run of digits with no leading zero |
| Strings.NatToStringRoundTrip | omnidrive-web/api/app/api/routes/files.py:81 | reading the digits of `str(n)` gives back `n` |
| Paths.RFind | omnidrive/rag/indexer.py:77 | the last index of a character, or -1 when it does not occur |
| Paths.BaseName | omnidrive/rag/indexer.py:77 | `os.path.basename` is a slash-free suffix of the path |
| Paths.Components | omnidrive/workflows/graphs.py:340 | the path components are non-empty, are not `.`, and all come from the path |
| Paths.PathName | omnidrive/workflows/graphs.py:340 | the final component contains no slash |
| Paths.SuffixDot | omnidrive/rag/indexer.py:137 | the suffix dot is neither the first nor the last character of the name |
| Paths.StemSuffixSplitName | omnidrive/workflows/graphs.py:340 | stem followed by suffix is the name, and the suffix is empty or a single `.ext` |
| Records.Names | omnidrive/cli.py:270-271 | the name set holds exactly the names of the records |
| Records.NamesAppend | omnidrive/cli.py:270-271 | appending a record adds exactly its name |
| Records.EnumerateSet | omnidrive/cli.py:281 | iterating a set visits each element once |
| Records.FirstIndexWithName | omnidrive/cli.py:282 | `next(f for f in files if name matches)` is the first record with that name |
| Records.LastIndexWithName | omnidrive-web/api/app/api/routes/sync.py:100 | the last record with a name, which a dict comprehension keeps |
| Records.FirstIndexAppend | omnidrive/cli.py:282 | appending a record does not change the first record with a name already present |
| Records.Put | omnidrive-web/api/app/api/routes/sync.py:100 | a dict store keeps insertion order and does not move a key it overwrites |
| Records.ByName | omnidrive-web/api/app/api/routes/sync.py:100 | the name-keyed dict is well formed |
| Records.ByNameKeys | omnidrive-web/api/app/api/routes/sync.py:100 | the dict's keys are exactly the record names |
| Records.ByNameLastWins | omnidrive-web/api/app/api/routes/sync.py:100 | each key maps to the last record with that name |
| Records.LastIndexAppendOther | omnidrive-web/api/app/api/routes/sync.py:100 | appending a record with another name keeps the last record of a name |
| Records.OrderAppendRecord | omnidrive-web/api/app/api/routes/sync.py:100 | first-occurrence key order is preserved when a record is appended |
| Records.OrderAppendNewName | omnidrive-web/api/app/api/routes/sync.py:100 | a name first seen in the appended record goes after the existing keys, keeping first-occurrence order |
| Records.ByNameFirstOccurrenceOrder | omnidrive-web/api/app/api/routes/sync.py:100 | the keys are ordered by the first occurrence of each name |
| Records.FirstRecords | omnidrive/cli.py:297 | one record per planned name, each the first source record with that name |
| Records.FirstRecordsNames | omnidrive/cli.py:281-297 | the first records of an enumeration of names carry exactly those names, each once |
| Records.FirstRecordsFromFiles | omnidrive/cli.py:282-297 | each first record is a record of the listing |
| Records.SyncPlan | omnidrive/cli.py:270-273 | the plan holds exactly the source names that no target record has |
| Records.SyncPlanCollapsesNames | omnidrive/cli.py:270-273 | a repeated source name is planned once, and dropping the duplicate record leaves the plan unchanged |
| Records.NamesDropDuplicate | omnidrive/cli.py:270-273 | dropping a record whose name an earlier record carries keeps the set of names |
| Records.NamesDropSub | omnidrive/cli.py:270-273 | dropping a record never adds a name |
| Cli.MatchesUnfold | omnidrive/cli.py:651-666 | the fixed order of the icon tests, and the single-keyword tests |
| Cli.MatchesUnfoldPairs | omnidrive/cli.py:655-660 | each two-keyword icon matches when either of its keywords occurs |
| Cli.AnyMemberSingle | omnidrive/cli.py:651 | a one-keyword test is a single `in` |
| Cli.AnyMemberPair | omnidrive/cli.py:655 | a two-keyword test is the `or` of two `in`s |
| Cli.GetFileIcon | omnidrive/cli.py:646-668 | a falsy MIME value gives the default icon; an icon other than the default means its test matched and no earlier test did; a truthy value that cannot be searched raises |
| Cli.IconFor | omnidrive/cli.py:651-668 | the icon is the first in the test order whose keyword occurs; the default icon only when no keyword occurs |
| Cli.Scale | omnidrive/cli.py:676-679 | 1024 to the power k, at least 1 (powers add: `ScaleAdd`) |
| Cli.ScaleAdd | omnidrive/cli.py:676-679 | 1024 to the power a+b is the product of the powers a and b |
| Cli.ScaleBounds | omnidrive/cli.py:676-679 | the bounds of KB, MB, GB and TB are 1024, 1048576, 1073741824 and 1099511627776 |
| Cli.PositiveProduct | omnidrive/cli.py:677 | a product of positive reals is positive |
| Cli.ProductMonotone | omnidrive/cli.py:677 | multiplying by a positive scale preserves order in both directions |
| Cli.ScaledBelowBound | omnidrive/cli.py:677-679 | after k divisions the value is below 1024 iff the size is below 1024 to the power k+1 |
| Cli.BelowBound | omnidrive/cli.py:677 | when v times a positive scale s is n, v is below 1024 iff n is below 1024 times s |
| Cli.ScaleStep | omnidrive/cli.py:679 | one division by 1024 moves the value one unit along the scale |
| Cli.SizeTypeError | omnidrive/cli.py:677 | `size_bytes < 1024.0` on a string, list or dict raises "'<' not supported between instances of 'str' ('list', 'dict') and 'float'" |
| Cli.FormatSize | omnidrive/cli.py:671-680 | `None` gives no size text; an integer gets the first of B, KB, MB and GB whose bound exceeds it, else TB, and the value is the integer divided by that unit's power of 1024; a string, list or dict raises the comparison `TypeError`, whose text names the value's type (`'str'`, `'list'` or `'dict'`) and `'float'` |
| Cli.ScaleDown | omnidrive/cli.py:676-680 | the loop stops at the unit of the number, and the value times that unit's power of 1024 is the number |
| Cli.UnitBelow | omnidrive/cli.py:676-680 | a number at least 1024^j for every j up to k, and below 1024^(k+1) when k < 4, gets the k-th unit |
| Cli.RecordSize | omnidrive/cli.py:284 | `size or file_size`: nothing is shown when both are absent, and the call succeeds iff the chosen value can be formatted; its error is that `TypeError` for the chosen value |
| Cli.SessionKey | omnidrive/cli.py:545 | the memory key is `session_` followed by the session name |
| Cli.SessionNameAsWrittenLosesName | omnidrive/cli.py:587 | the session saved as `xsession_` is listed as `x` |
| Cli.SessionNameAsWrittenAgrees | omnidrive/cli.py:587 | a name without `session_` inside is listed unchanged |
| Cli.SessionName | omnidrive/cli.py:578-587 | stripping the leading prefix of a session key gives the name that builds that key |
| Cli.SessionNameRoundTrip | omnidrive/cli.py:545-587 | the listed name of a saved session is the name it was saved under |
| Cli.ResumeOf | omnidrive/cli.py:560-567 | a falsy stored state reports "not found"; a dict is resumed |
| Cli.SaveThenResume | omnidrive/cli.py:539-567 | a `save` whose write succeeds, then `resume`, reports the saved timestamp and the two authentication flags |
| Cli.SaveSession | omnidrive/cli.py:532-546 | when the write succeeds the store afterwards holds the state under the session key; when it fails the store is unchanged, though the saved message is printed either way |
| Cli.FailedSaveNotFound | omnidrive/cli.py:544-567 | a new session whose save failed is reported as not found by `resume` |
| Cli.ResumeSession | omnidrive/cli.py:554-567 | resume reads the session key, and an absent key reports "not found" |
| Cli.SessionLines | omnidrive/cli.py:578 | the listed sessions are never more than the stored memories (under the corrected session name, see Findings) |
| Cli.SessionLinesSpec | omnidrive/cli.py:578-589 | each listed line comes from a `session_` memory, and each such memory is listed under its name (under the corrected session name, see Findings) |
| Cli.SessionLinesNewestFirst | omnidrive/cli.py:578 | the filter keeps the newest-first order |
| Cli.SessionHeadNameFresh | omnidrive/cli.py:578-589 | with distinct keys, no later session memory is listed under the first one's name |
| Cli.SessionLinesDistinct | omnidrive/cli.py:578-589 | memories with distinct keys give lines with distinct names |
| Cli.ListSessions | omnidrive/cli.py:574-589 | the lines are exactly the stored `session_` keys with their timestamps, one line per key with no name twice, newest first (under the corrected session name, see Findings) |
| Cli.GetFilesAsWrittenNeverLists | omnidrive/cli.py:369-379 | the helper as written always raises "Not authenticated", whatever the drive holds |
| Cli.GetFiles | omnidrive/cli.py:369-379 | with a stored token the listing is returned; without one, "Not authenticated with ..." is raised |
| Cli.ReportOf | omnidrive/cli.py:303-308 | an authentication error is caught first, then a service error, then any other; the text is `str(e)` |
| Cli.CompareNamesPartition | omnidrive/cli.py:328-336 | the only-in-1, only-in-2 and common sets are pairwise disjoint and their union is all names |
| Cli.CompareNamesSwap | omnidrive/cli.py:328-336 | swapping the two services swaps the two only-in sets and keeps the common set |
| Cli.PlannedRecordsCoverPlan | omnidrive/cli.py:281-299 | the planned records have distinct names, come from the source, and cover the plan |
| Cli.ShowFailure | omnidrive/cli.py:283-284 | a record's row raises iff its icon or its size cannot be produced |
| Cli.FirstUnshowable | omnidrive/cli.py:281-285 | the first planned record that cannot be shown, every earlier one being showable; none iff all are showable |
| Cli.FirstUnshowableAt | omnidrive/cli.py:281-285 | an unshowable record after only showable ones is the first found |
| Cli.ShowPlan | omnidrive/cli.py:281-285 | showing the plan raises exactly at the first planned record whose icon or size cannot be produced, with that record's error |
| Cli.TransferAll | omnidrive/cli.py:295-299 | the records are transferred in order up to and including the first whose transfer raises, which is the error; with no failure all are transferred |
| Cli.SyncListed | omnidrive/cli.py:270-301 | an empty plan reports "all in sync"; otherwise the first record of each planned name is shown and the first that cannot be shown is reported; then a dry run reports the plan and a declined prompt cancels, both transferring nothing; a confirmed run transfers the same records in the same order and reports the first transfer error, or the plan's size |
| Cli.TransferPlanned | omnidrive/cli.py:295-301 | a confirmed run of shown records transfers them in order up to the first failure, whose error is reported, and otherwise reports the plan's size |
| Cli.TransfersPrefix | omnidrive/cli.py:287-301 | a dry run or a declined prompt copies nothing; otherwise a prefix of the planned records is copied, all of them on success, ending at the record whose transfer raised on failure |
| Cli.SyncedCompletesTarget | omnidrive/cli.py:273-301 | a successful sync copied each missing name exactly once, from a record of the source, so the target then has every source name |
| Cli.SyncCommand | omnidrive/cli.py:255-308 | the same drive twice returns before any listing; a failed listing of the source, then of the target, is reported with its error class and nothing is transferred; otherwise it behaves as `SyncListed` (drives listed through the corrected `GetFiles`, see Findings) |
| Cli.SortNames | omnidrive/cli.py:345-354 | all-string names give the sorted list; a single name is returned as it is; two or more names that are not all strings raise `TypeError`; any result enumerates the set |
| Cli.SingletonNames | omnidrive/cli.py:345 | a one-name set is enumerated by that name alone |
| Cli.StringNamesSorted | omnidrive/cli.py:345 | the sorted strings of string names enumerate the names in increasing order |
| Cli.StringNamesCard | omnidrive/cli.py:345 | the set of name strings is as large as the name set |
| Cli.SectionOf | omnidrive/cli.py:343-359 | the block is shown iff the names sort and each of the first ten has an icon, and then holds the count, all names sorted, the ten icons and the N of "... and N more"; two or more names that are not all strings raise `TypeError` |
| Cli.ShownIcons | omnidrive/cli.py:345-348 | the icon lookups of the shown names succeed iff each of the first ten names has an icon, and give those icons |
| Cli.ShownFirstIconError | omnidrive/cli.py:345-348 | the icon lookups of the ten shown names fail with the error of the first lookup that raises |
| Cli.SectionFirstIconError | omnidrive/cli.py:345-348 | a block whose names sort fails with the error of the first of the ten shown names whose icon lookup raises |
| Cli.ShowSection | omnidrive/cli.py:343-359 | the block the method builds with its loop is `SectionOf`: the block when it can be shown, or the error raised |
| Cli.IconLookups | omnidrive/cli.py:346-347 | one icon lookup per name, on the first record with that name |
| Cli.SectionIcons | omnidrive/cli.py:345-356 | the loop gives the collected icon lookups of the first `shown` names: their icons, or the first error |
| Cli.CompareListed | omnidrive/cli.py:328-364 | with both listings in hand the statistics are shown iff every non-empty only-in block can be shown, with the record totals, the common count and each block as described; otherwise the first failing block's error text |
| Cli.ComparedCountsAddUp | omnidrive/cli.py:336-353 | the common count and the two only-in counts add up to the number of distinct names |
| Cli.CompareCommand | omnidrive/cli.py:315-364 | the same service twice returns before listing; a failed listing of the first, then of the second, drive gives its error text; otherwise the outcome is `CompareListed` (drives listed through the corrected `GetFiles`, see Findings) |
| ServicesBase.StripServiceSuffix | omnidrive/services/base.py:28-29 | a trailing `Service` is removed, and other names are unchanged |
| ServicesBase.InsertUnderscores | omnidrive/services/base.py:32 | a non-empty name keeps its first character, which never gets an underscore |
| ServicesBase.UnderscoreBeforeUpperLength | omnidrive/services/base.py:32 | the length grows by one per upper-case letter |
| ServicesBase.DeriveServiceName | omnidrive/services/base.py:26-32 | the derived name has no upper-case letter, and its length is the stripped length plus the upper-case letters after index 0 |
| ServicesBase.UnderscoreNoUpper | omnidrive/services/base.py:32 | a string without capitals is unchanged |
| ServicesBase.UnderscoreAppend | omnidrive/services/base.py:32 | the underscore insertion distributes over concatenation |
| ServicesBase.UnderscoreCamelWords | omnidrive/services/base.py:32 | each CamelCase word gets one leading underscore |
| ServicesBase.ConcatUnderscoreJoin | omnidrive/services/base.py:32 | underscore-prefixed words concatenate to an underscore join |
| ServicesBase.DeriveServiceNameOfCamelWords | omnidrive/services/base.py:26-32 | for `W1...WnService` the name is the lower-cased underscore join of the words |
| ServicesBase.InsertUnderscoresCamelWords | omnidrive/services/base.py:32 | CamelCase words run together get one underscore between consecutive words |
| ServicesBase.InsertUnderscoresCamelHead | omnidrive/services/base.py:32 | the first word of a CamelCase name gets no underscore |
| ServicesBase.DeriveServiceNameOfTwoWords | omnidrive/services/base.py:26-32 | two CamelCase words and `Service` give the lower-cased words joined by one underscore |
| ServicesBase.MockCloudServiceName | omnidrive/services/base.py:26-32 | `MockCloudService` is named `mock_cloud` |
| ServicesBase.FolderfortServiceName | omnidrive/services/base.py:26-32 | `FolderfortService` is named `folderfort` |
| ServicesBase.GoogleDriveServiceName | omnidrive/services/base.py:26-32 | `GoogleDriveService` is named `google_drive` |
| ServicesBase.NewCloudService | omnidrive/services/base.py:18-32 | the instance keeps its token; its name is the derived one; it is authenticated iff the token is not `None` |
| ServicesBase.ServiceError.Text | omnidrive/services/base.py:171-177 | the text is `service_name: message` when there is a service name, otherwise the message |
| ServicesBase.AuthenticationErrorIsServiceError | omnidrive/services/base.py:180-183 | every authentication error is a service error |
| ServicesFactory.NotAvailableMessage | omnidrive/services/factory.py:65-68 | the message begins "Service '<name>' not available. Available: " |
| ServicesFactory.NotAvailableListsNames | omnidrive/services/factory.py:65-68 | the message mentions every available service |
| ServicesFactory.JoinContainsPart | omnidrive/services/factory.py:65 | `', '.join(parts)` contains each part |
| ServicesFactory.NotAvailable | omnidrive/services/factory.py:66-70 | a plain service error carrying the requested name and the not-available message |
| ServicesFactory.ServiceFactory.constructor | omnidrive/services/factory.py:15-20 | the registry starts with `google` and then `folderfort` |
| ServicesFactory.ServiceFactory.RegisterService | omnidrive/services/factory.py:25-28 | exactly one entry is added or replaced; a new name goes last and an existing one keeps its place |
| ServicesFactory.ServiceFactory.GetAvailableServices | omnidrive/services/factory.py:30-33 | the registry keys in insertion order |
| ServicesFactory.ServiceFactory.IsServiceAvailable | omnidrive/services/factory.py:35-38 | true iff the name is registered |
| ServicesFactory.ServiceFactory.CreateService | omnidrive/services/factory.py:64-100 | an unregistered name raises the not-available error; otherwise an unauthenticated instance of the registered class |
| ServicesFactory.ServiceFactory.CreateServiceWithToken | omnidrive/services/factory.py:120-129 | an unregistered name raises the not-available error; otherwise a new service of the registered class holding the given token, so authenticated, with its service name derived from the class name |
| Config.GetAfterSet | omnidrive/config.py:52-84 | after a successful set, getting the same key gives the value |
| Config.SetLeavesDivergingPaths | omnidrive/config.py:77-84 | every path that diverges from the set key, siblings included, reads as before |
| Config.EmptyHasNothing | omnidrive/config.py:23-60 | no key is found in the empty configuration |
| Config.SetCreatesMissing | omnidrive/config.py:78-81 | a missing first segment becomes a chain of new nested dicts |
| Config.SetFailsOnlyOnNonObject | omnidrive/config.py:78-84 | setting fails iff some prefix of the path holds a value that is not a dict |
| Config.SetPathFailsBelow | omnidrive/config.py:78-81 | a non-dict value on the way down makes the set fail |
| Config.TopLevelKey | omnidrive/config.py:53-84 | a key without a dot reads and writes a top-level entry |
| Config.ConfigFile.constructor | omnidrive/config.py:12-13 | the file starts as given, either absent or holding a configuration |
| Config.ConfigFile.LoadConfig | omnidrive/config.py:16-26 | a missing file loads as the empty map; otherwise the saved map |
| Config.ConfigFile.SaveConfig | omnidrive/config.py:29-38 | after saving, loading gives the saved map |
| Config.ConfigFile.GetConfigValue | omnidrive/config.py:41-62 | the value at the dotted path, or the default as soon as a segment is missing or not a dict |
| Config.ConfigFile.SetConfigValue | omnidrive/config.py:65-86 | the file is rewritten with the value at the dotted path; when a segment is not a dict it raises and nothing is saved |
| Memory.Written | omnidrive/memory/serena_client.py:37-48 | writing adds the key to the store and keeps the others |
| Memory.Deleted | omnidrive/memory/serena_client.py:114-119 | deleting removes exactly the key |
| Memory.ReadAfterWrite | omnidrive/memory/serena_client.py:26-73 | reading a written key gives the written value |
| Memory.WriteLeavesOthers | omnidrive/memory/serena_client.py:38-48 | writing one key leaves every other key's entry and value unchanged |
| Memory.ReadAfterDelete | omnidrive/memory/serena_client.py:104-119 | a deleted key reads as `None`, and other keys read as before |
| Memory.StoredNoneReadsAsMissing | omnidrive/memory/serena_client.py:67-73 | a stored `None` reads exactly like a missing key |
| Memory.InsertKeepsDescription | omnidrive/memory/serena_client.py:93-98 | inserting a fresh entry keeps the listing a faithful, duplicate-free description of the store |
| Memory.InsertKeys | omnidrive/memory/serena_client.py:93-98 | inserting adds exactly the entry's key |
| Memory.AddListed | omnidrive/memory/serena_client.py:87-98 | adding an unlisted key keeps newest-first order and the match with the store, and adds exactly that key |
| Memory.MoveKey | omnidrive/memory/serena_client.py:87-98 | moving one key from the unlisted to the listed keys keeps the two disjoint with the same union, and shrinks the rest by one |
| Memory.InsertNewestFirst | omnidrive/memory/serena_client.py:98 | inserting at the right place keeps newest-first order |
| Memory.MemoryManager.constructor | omnidrive/memory/serena_client.py:13-24 | the manager starts from the existing directory contents |
| Memory.MemoryManager.WriteMemory | omnidrive/memory/serena_client.py:26-50 | returns true and stores the value with the given timestamp exactly when the file system takes the write; otherwise returns false and stores nothing |
| Memory.MemoryManager.ReadMemory | omnidrive/memory/serena_client.py:54-73 | the stored value, or `None` for an absent key |
| Memory.MemoryManager.DeleteMemory | omnidrive/memory/serena_client.py:104-119 | true iff the key was present; afterwards it is gone |
| Memory.MemoryManager.ListMemories | omnidrive/memory/serena_client.py:79-98 | one entry per stored key with its timestamp, newest first |
| Graphs.DetectFiles | omnidrive/workflows/graphs.py:139-159 | a listing of n files is detected and continues iff n > 0; a failure records one error and stops; the step is `detect` either way |
| Graphs.DetectFilesAsWritten | omnidrive/workflows/graphs.py:139-159 | calling the missing `get_service` always records the detection error and stops |
| Graphs.ValidateSpace | omnidrive/workflows/graphs.py:162-178 | the detected files are copied to validated and the run continues |
| Graphs.SyncFiles | omnidrive/workflows/graphs.py:181-195 | a dry run syncs nothing, otherwise the validated files; the completion time is always set |
| Graphs.ShouldContinueSync | omnidrive/workflows/graphs.py:198-202 | `sync` iff `should_continue` is true and there are no errors, otherwise `end` |
| Graphs.RouteAfterValidate | omnidrive/workflows/graphs.py:162-202 | after validation the route is `sync` iff there are no errors |
| Graphs.FailedDetectionEnds | omnidrive/workflows/graphs.py:139-202 | a failed detection ends the run |
| Graphs.SyncGraphRuns | omnidrive/workflows/graphs.py:403-428 | the graph runs detect then validate, and sync only when routed there, ending after it |
| Graphs.SmartSyncSyncsListing | omnidrive/workflows/graphs.py:403-428 | without errors, a live run syncs exactly the listed files and sets the completion time |
| Graphs.SmartSyncAsWrittenNeverSyncs | omnidrive/workflows/graphs.py:403-428 | as written, smart sync always stops after validation and syncs nothing |
| Graphs.TargetEnd | omnidrive/workflows/graphs.py:332 | `[^\]\|]+` scans to the first `]` or `\|` |
| Graphs.AliasEnd | omnidrive/workflows/graphs.py:332 | `[^\]]+` scans to the first `]` |
| Graphs.MatchAt | omnidrive/workflows/graphs.py:332 | a match at a position has a non-empty target without `]` or `\|` |
| Graphs.MatchAtSound | omnidrive/workflows/graphs.py:332 | a match spells a wiki link with that target |
| Graphs.PlainSpelling | omnidrive/workflows/graphs.py:332 | a plain match spells `[[t]]` |
| Graphs.AliasedSpelling | omnidrive/workflows/graphs.py:332 | an aliased match spells `[[t\|a]]` with an alias the pattern accepts |
| Graphs.MatchAtComplete | omnidrive/workflows/graphs.py:332 | every wiki link starting at a position is found there |
| Graphs.Spelled | omnidrive/workflows/graphs.py:332 | a slice equal to a word has that word's characters |
| Graphs.TargetRun | omnidrive/workflows/graphs.py:332 | the target scan of a link stops exactly at its end |
| Graphs.SuffixPart | omnidrive/workflows/graphs.py:332 | the text of a spelled link after a known prefix is the rest of the spelling |
| Graphs.PlainLinkMatches | omnidrive/workflows/graphs.py:332 | `[[t]]` matches with target t |
| Graphs.AliasedLinkMatches | omnidrive/workflows/graphs.py:332 | `[[t\|a]]` matches with target t |
| Graphs.AliasedLinkTail | omnidrive/workflows/graphs.py:332 | after the `\|` of an aliased link, the alias scan stops just before the closing brackets |
| Graphs.AliasRun | omnidrive/workflows/graphs.py:332 | an alias followed by `]` ends the alias scan |
| Graphs.AliasedMatchAt | omnidrive/workflows/graphs.py:332 | the positions of `[[`, `\|` and `]]` give the aliased match and its end |
| Graphs.TargetEndAt | omnidrive/workflows/graphs.py:332 | the target scan stops at the first delimiter |
| Graphs.AliasEndAt | omnidrive/workflows/graphs.py:332 | the alias scan stops at the first `]` |
| Graphs.FindMatches | omnidrive/workflows/graphs.py:341 | `findall` results lie in the text and have valid targets |
| Graphs.FoundAreMatches | omnidrive/workflows/graphs.py:341 | each found link is a match at its start |
| Graphs.FindMatchesUnfold | omnidrive/workflows/graphs.py:341 | a match is taken and the scan resumes at its end; otherwise the scan moves one character on |
| Graphs.FoundInOrder | omnidrive/workflows/graphs.py:341 | the found links are left to right and do not overlap |
| Graphs.NoLinkSkipped | omnidrive/workflows/graphs.py:341 | every position where a link starts lies inside some found link |
| Graphs.NoLinkSkippedAfterMatch | omnidrive/workflows/graphs.py:341 | the same holds when the scan starts on a match |
| Graphs.FoundAfterMatch | omnidrive/workflows/graphs.py:341 | after a match, the later found links are those the scan finds from its end |
| Graphs.Links | omnidrive/workflows/graphs.py:341 | every extracted target is non-empty and free of `]` and `\|` |
| Graphs.LinksExample | omnidrive/workflows/graphs.py:332-341 | a plain and an aliased link give their two targets in order |
| Graphs.BacklinksKeys | omnidrive/workflows/graphs.py:335-342 | the keys are exactly the stems of the files that could be read |
| Graphs.LastValuesKeys | omnidrive/workflows/graphs.py:335-342 | a key is stored iff some kept element has that key |
| Graphs.LastValuesLastWins | omnidrive/workflows/graphs.py:340-342 | the last kept element with a key gives the value under it |
| Graphs.BacklinksStep | omnidrive/workflows/graphs.py:335-345 | reading one more file stores its links under its stem, or makes its error the last one |
| Graphs.BacklinksLastWins | omnidrive/workflows/graphs.py:340-342 | a stem maps to the links of the last readable file with that stem |
| Graphs.ExtractBacklinks | omnidrive/workflows/graphs.py:323-355 | the backlinks graph, and the error of the last file that could not be read |
| Graphs.ReadBacklinks | omnidrive/workflows/graphs.py:335-345 | the loop leaves the backlinks graph and the error of the last unreadable file |
| Graphs.ReadOneBacklink | omnidrive/workflows/graphs.py:336-345 | one iteration extends the graph or replaces the errors, as the loop description says |
| Graphs.RequestFor | omnidrive/workflows/graphs.py:372-381 | id `obsidian:` + stem, with that stem's backlinks or none |
| Graphs.Requests | omnidrive/workflows/graphs.py:369-381 | one request per tried file, in order |
| Graphs.PathsOf | omnidrive/workflows/graphs.py:369 | the tried paths, in order |
| Graphs.IndexedSucceeded | omnidrive/workflows/graphs.py:383-389 | every indexed file comes from a request whose indexing succeeded |
| Graphs.IndexedSubsequence | omnidrive/workflows/graphs.py:383-389 | the indexed files are an in-order subsequence of the tried files, each one indexed successfully |
| Graphs.IndexVault | omnidrive/workflows/graphs.py:358-396 | a setup failure indexes nothing and records the error; otherwise the successes of the first 50 files and the last error |
| Graphs.IndexAll | omnidrive/workflows/graphs.py:369-387 | the loop computes the successful files and the last error |
| Graphs.IndexVaultLimit | omnidrive/workflows/graphs.py:369 | at most the first 50 files are tried |
| Graphs.NewWorkflowEngine | omnidrive/workflows/graphs.py:480-496 | all three graphs are registered when LangGraph is available, none otherwise |
| Graphs.ListWorkflows | omnidrive/workflows/graphs.py:498-517 | exactly smart-sync, rag-search and obsidian-ingest in that order, each with its description and node string |
| Graphs.ListedWorkflowsAreBuilt | omnidrive/workflows/graphs.py:478-517 | the catalogue names each graph an engine with LangGraph builds, once, and no other |
| Graphs.InitialSyncState | omnidrive/workflows/graphs.py:532-545 | the initial state continues, is at `init`, and has nothing detected, synced or completed |
| Graphs.ExecuteSync | omnidrive/workflows/graphs.py:519-551 | "LangGraph not available" iff the graph is missing; otherwise the run from the initial state |
| WebRequests.MakeFolderfortAuthRequest | omnidrive-web/api/app/models/requests.py:15-17 | accepted iff the password is non-empty |
| WebRequests.MakeFileListRequest | omnidrive-web/api/app/models/requests.py:21-25 | accepted iff the service is google or folderfort and the limit is within 1..1000; the limit defaults to 100; the accepted record carries the given `service` and `folder_id` unchanged |
| WebRequests.MakeFileDeleteRequest | omnidrive-web/api/app/models/requests.py:40-44 | accepted iff the service is valid; `permanent` defaults to false; the accepted record carries the given `service` and `file_id` unchanged |
| WebRequests.MakeSyncRequest | omnidrive-web/api/app/models/requests.py:48-53 | accepted iff both services are valid and the limit is within range; `dry_run` defaults to false and `limit` to 100; the accepted record carries the given `source` and `target` unchanged |
| WebRequests.MakeCompareRequest | omnidrive-web/api/app/models/requests.py:56-60 | accepted iff both services are valid and the limit is within range; the limit defaults to 100; the accepted record carries the given `service1` and `service2` unchanged |
| WebRequests.MakeSearchRequest | omnidrive-web/api/app/models/requests.py:64-68 | accepted iff the query is non-empty, a given service is valid and `top_k` is within 1..20; `top_k` defaults to 5; the accepted record carries the given `query` and `service` unchanged |
| WebRequests.MakeIndexRequest | omnidrive-web/api/app/models/requests.py:71-74 | accepted iff the service is valid and the limit is within range; the limit defaults to 100; the accepted record carries the given `service` unchanged |
| WebRequests.MakeWorkflowRunRequest | omnidrive-web/api/app/models/requests.py:78-81 | accepted iff the name is `smart-sync` or `backup`; the accepted record carries the given name and the optional parameters unchanged |
| WebRequests.DefaultsAccepted | omnidrive-web/api/app/models/requests.py:25-74 | the defaults satisfy their own bounds |
| WebRequests.SameServiceAccepted | omnidrive-web/api/app/models/requests.py:48-60 | the models accept the same service twice |
| WebRequests.OutOfRangeRefused | omnidrive-web/api/app/models/requests.py:23-74 | out-of-range limits and `top_k` values, and unknown services, are refused |
| WebFiles.GetService | omnidrive-web/api/app/api/routes/files.py:34-48 | 401 for a known but unauthenticated service, 400 "Unknown service: ..." for any other name, and the adapter otherwise |
| WebFiles.GetServiceAgreesWithRequests | omnidrive-web/api/app/api/routes/files.py:34-48 | the route's 400 is raised exactly for names the request models refuse |
| WebFiles.OptionalStr | omnidrive-web/api/app/models/responses.py:27-36 | an optional string field accepts `None` or a string, and nothing else |
| WebFiles.OptionalInt | omnidrive-web/api/app/models/responses.py:27-36 | an optional integer field accepts `None`, an integer, a boolean or a digit string |
| WebFiles.DecimalSizeRead | omnidrive-web/api/app/api/routes/files.py:64 | a decimal size string is read as its number |
| WebFiles.ToMetadata | omnidrive-web/api/app/api/routes/files.py:58-76 | a record converts iff its fields validate; the id, name, `size or file_size`, `mimeType or type`, `createdTime`, `modifiedTime`, `parentId` and the service are carried over |
| WebFiles.SizeFallsBack | omnidrive-web/api/app/api/routes/files.py:64 | a missing or zero size falls back to `file_size` |
| WebFiles.DriveRecordConverts | omnidrive-web/api/app/api/routes/files.py:58-76 | a Drive-style record with a decimal size converts |
| WebFiles.ConvertAll | omnidrive-web/api/app/api/routes/files.py:58-72 | one metadata entry per record, in listing order, or a failure when any record does not validate |
| WebFiles.ListFiles | omnidrive-web/api/app/api/routes/files.py:51-82 | the converted listing with its count as total, or a 500 "Failed to list files: ..." wrapping the cause |
| WebFiles.UnauthenticatedListIsServerError | omnidrive-web/api/app/api/routes/files.py:54-82 | an unauthenticated 401 reaches the client as a 500 |
| WebFiles.StatusCodeTexts | omnidrive-web/api/app/api/routes/files.py:81 | the status codes render as their digits |
| WebSync.BothListings | omnidrive-web/api/app/api/routes/sync.py:52-56 | both adapters are obtained and listed, and the first failure is the result |
| WebSync.NameStrings | omnidrive-web/api/app/models/responses.py:82-90 | the names validate as strings iff every name is a string |
| WebSync.CutNames | omnidrive-web/api/app/api/routes/sync.py:63-74 | the first 20 names are distinct members of the set |
| WebSync.FirstTwentyNames | omnidrive-web/api/app/api/routes/sync.py:63-74 | `list(set)[:20]`: up to 20 distinct names of the set |
| WebSync.CompareServices | omnidrive-web/api/app/api/routes/sync.py:44-81 | the same service twice gives 500 "Comparison failed: 400: ..."; otherwise the raw totals, the common count and the only-in lists |
| WebSync.NamesCard | omnidrive-web/api/app/api/routes/sync.py:59-72 | there are never more names than records |
| WebSync.CompareCountsAddUp | omnidrive-web/api/app/api/routes/sync.py:59-72 | the only-in-1 and common counts add up to the number of names in service 1; the common count is at most each total |
| WebSync.NewJob | omnidrive-web/api/app/api/routes/sync.py:156-167 | a new job is pending with no files synced and no timestamps or error |
| WebSync.Filtered | omnidrive-web/api/app/api/routes/sync.py:103 | the keys not in the excluded set, in order |
| WebSync.FilteredDistinct | omnidrive-web/api/app/api/routes/sync.py:103 | filtering distinct keys keeps them distinct |
| WebSync.JobPlanEntries | omnidrive-web/api/app/api/routes/sync.py:100-103 | each planned record is the last source record with its name |
| WebSync.JobPlanNamesAreSyncPlan | omnidrive-web/api/app/api/routes/sync.py:100-103 | the planned names are distinct and are the name difference |
| WebSync.JobPlanNameSet | omnidrive-web/api/app/api/routes/sync.py:100-103 | the planned names are the source names missing from the target |
| WebSync.JobPlanNamesDistinct | omnidrive-web/api/app/api/routes/sync.py:100-103 | no name is planned twice |
| WebSync.JobPlanCoversSyncPlan | omnidrive-web/api/app/api/routes/sync.py:100-105 | one planned record per name in the difference |
| WebSync.NamesOfKeys | omnidrive-web/api/app/api/routes/sync.py:100-103 | records listed by key have exactly those names |
| WebSync.JobPlanLastWins | omnidrive-web/api/app/api/routes/sync.py:100-103 | for a name, the plan holds the source record that appears last |
| ServicesBase.FirstFailure | omnidrive-web/api/app/api/routes/sync.py:108-116 | the index of the first transfer that raises, if any |
| WebSync.JobAfterTransfers | omnidrive-web/api/app/api/routes/sync.py:105-123 | completed exactly when every transfer succeeds, with one count per file; otherwise failed with a count of the files transferred before the first raising one and that exception's text |
| WebSync.JobAfterListing | omnidrive-web/api/app/api/routes/sync.py:92-123 | a listing failure fails the job; otherwise the plan size is recorded and the transfers run |
| WebSync.JobRunFinishes | omnidrive-web/api/app/api/routes/sync.py:84-123 | a run always ends completed or failed, with the start time set |
| WebSync.JobStore.constructor | omnidrive-web/api/app/api/routes/sync.py:23-24 | the job table starts empty |
| WebSync.JobStore.SyncServices | omnidrive-web/api/app/api/routes/sync.py:126-189 | the same service twice gives 500 "Sync failed: 400: ..."; a dry run returns `dry-run` and the name difference without creating a job; a live request stores a pending job first |
| WebSync.JobStore.RunSyncJobAsWritten | omnidrive-web/api/app/api/routes/sync.py:84-129 | as written, every job becomes failed with the `datetime` error right after running starts |
| WebSync.JobStore.RunSyncJob | omnidrive-web/api/app/api/routes/sync.py:84-123 | the job becomes the run's outcome, and no other job changes |
| WebSync.JobStore.RunListed | omnidrive-web/api/app/api/routes/sync.py:92-123 | the job becomes its outcome after the listing |
| WebSync.JobStore.TransferPlan | omnidrive-web/api/app/api/routes/sync.py:105-123 | the transfer loop yields the job the specification computes |
| WebSync.JobStore.GetSyncStatus | omnidrive-web/api/app/api/routes/sync.py:192-200 | the stored job, or 404 "Job not found" |
| ServicesBase.FirstFailureAt | omnidrive-web/api/app/api/routes/sync.py:108-116 | the first raising transfer is found |
| ServicesBase.FirstFailureNone | omnidrive-web/api/app/api/routes/sync.py:108-119 | no failure is found when every transfer succeeds |
| Indexer.NonEmpty | omnidrive/rag/indexer.py:150-155 | the non-empty page texts, in page order |
| Indexer.ExtractedText | omnidrive/rag/indexer.py:126-172 | text suffixes are read; `.pdf` joins the non-empty page texts and `.docx` the paragraphs with newlines; a missing library or a read failure gives `None`, as does any other suffix |
| Indexer.PdfText | omnidrive/rag/indexer.py:150-156 | the page loop joins the non-empty page texts |
| Indexer.ExtractText | omnidrive/rag/indexer.py:126-172 | the method computes the extraction function |
| Indexer.PdfEmptyPagesDropped | omnidrive/rag/indexer.py:150-156 | empty pages add nothing to a PDF's text |
| Indexer.NonEmptyAllEmpty | omnidrive/rag/indexer.py:153 | all-empty pages give no text |
| Indexer.NonEmptySingle | omnidrive/rag/indexer.py:153 | one non-empty page gives its text alone |
| Indexer.FileMetadataMap | omnidrive/rag/indexer.py:73-81 | the five base fields, and the caller's metadata overriding equal keys |
| Indexer.SearchFilter | omnidrive/rag/indexer.py:215 | `{'service': service}` only for a non-empty service |
| Indexer.SearchRequestFilters | omnidrive/rag/indexer.py:215 | a validated request naming a service filters on it |
| Indexer.Search | omnidrive/rag/indexer.py:193-227 | the store's results for the given filter, or "Search failed: ..." |
| Indexer.FileIndexer.constructor | omnidrive/rag/indexer.py:28-41 | the store starts with no additions |
| Indexer.FileIndexer.IndexFile | omnidrive/rag/indexer.py:43-95 | true iff the text is non-empty and the embedding, the file size and the store all succeed; then exactly one entry of one-element lists is added, and otherwise nothing |
| Indexer.FileIndexer.IndexFiles | omnidrive/rag/indexer.py:97-124 | 0 successes, 0 failures and every file skipped |

## Left out

- Click's I/O is left out: prompts, colours, progress bars and the emoji text of each message. Outcomes are datatypes instead.
- The `list`, `download`, `upload`, `delete`, `create-folder`, `auth`, `index`, `search` and `workflow` commands of `omnidrive/cli.py` are not part of this model; only `sync`, `compare`, the icon, the size and the session commands are core.
- The adapters' HTTP and Google API calls are inputs. Listing and transfers are modelled as function parameters that succeed or raise.
- The file-system steps of `_sync_file` (the temporary file, the download, the upload and the unlink) are one transfer function.
- Decimal rendering is left out: `_format_size` yields the unit and the real value, not the `:.1f` text.
- Cli.FormatSize: a Python `float` size is not modelled, because JSON values here carry no floats.
- Floating-point values in general are left out; embeddings are opaque `seq<real>`.
- Cli.SortNames: any two or more names that are not all strings are refused with `TypeError`. Its text here is the fixed `UnorderableNames`; Python's names the two types of the first pair it compared, which depends on the set's iteration order, and that order is not modelled. Python sorts all-integer and all-boolean name sets, and mixed integer and boolean ones, without raising; that order is not modelled, since listings name files with strings.
- Records.Names: names are a `set<Json>`, so `True` and `1` (and `False` and `0`) are different names here, whereas Python's set merges them because they are equal and hash alike. A `name` that is a list or an object is an ordinary name here too, whereas Python's set and dict comprehensions over names raise `TypeError: unhashable type` for it, so `sync`, `compare` and the web routes would report that error instead.
- Cli.ListSessions: lists under the corrected session name (see Findings), not under the name `key.replace('session_', '')` gives as written; `Cli.SessionNameAsWritten` models that name and `Cli.SessionNameAsWrittenLosesName` shows where the two differ.
- Cli.SyncCommand: lists both drives through the corrected `GetFiles` (see Findings); as written the listing always raises "Not authenticated", which `Cli.GetFilesAsWrittenNeverLists` states.
- Cli.CompareCommand: lists both drives through the corrected `GetFiles` (see Findings), as `Cli.SyncCommand` does. The statistics lines Python prints before a block raises are not kept in `CompareFailed`.
- `datetime.now()`, `uuid4()` and the memory file timestamps are parameters. Timestamps are compared as strings, as the ISO format makes them comparable.
- Lower-casing and capitalisation are ASCII only. Unicode case mapping is left out.
- `scan_vault_node`, the RAG nodes (embed, retrieve, reason), `execute_search`, `execute_obsidian_ingest` and `GraphLogger` are not part of this model.
- The log lists of the workflow nodes are left out, and so are LangGraph's state reducers. Each node is a record update, and the graph is explicit sequencing.
- Graphs.ExecuteSync: `errors` is declared with the `operator.add` reducer, and each node returns the whole state, so LangGraph appends the returned list to the stored one. After a failed detection, `validate_space_node` thus adds the detection message a second time, and the final state holds it twice; the model states it once. The routing is unaffected, since it asks only whether `errors` is empty. `Graphs.ExtractBacklinks` and `Graphs.IndexVault` write `errors` the same way, so with the reducer an earlier error list would be repeated too.
- The `auto_authenticate=True` branch of `create_service` is left out. It depends on the CLI's auth modules and reads `get_token_fn` on a path that never assigns it. Only `auto_authenticate=False` is modelled.
- The JSON encoding of the configuration and memory files is left out; the files hold values directly.
- Whether the file system accepts a memory write (a missing directory, a key with "/" in it) is the parameter `writable` of `Memory.MemoryManager.WriteMemory` and `Cli.SaveSession`; the reason a write fails is not modelled.
- Pydantic's validation messages are left out. A rejected response field is `Invalid(<model>)`, rendered as "validation error for <model>".
- Pydantic integer parsing of signs, surrounding whitespace and underscores is left out; only digit strings are read.
- The syntax of e-mail addresses checked by `EmailStr` is left out.
- FastAPI's background-task scheduling is left out. The job run is a separate method on the job table.
- The upload, download and delete routes of `files.py`, and the `auth`, `search` and `workflows` routes, are not part of this model.
- The WebSocket handler and the web application setup are not part of this model.
- Reading files, parsing PDF and DOCX, embedding and the vector store are inputs of the indexer. `errors='ignore'` decoding is left out. A page whose `extract_text()` is `None` is taken as the empty string.
- The `limit` and `folder_id` arguments of the adapters' `list_files` are folded into the listing function.
- WebSync.CompareServices: it states which outcome each input gives only up to the order in which Python iterates a set, which is left abstract; for the only-in lists it promises up to 20 distinct names of each difference, not which 20.

## Findings

| source | as written | input that shows it | evidently intended | confidence | as-written member | corrected member |
|---|---|---|---|---|---|---|
| omnidrive/cli.py:369-379 | `create_service(service, auto_authenticate=False)` builds the adapter with `access_token=None` (omnidrive/services/factory.py:76, 100), so `is_authenticated()` is always false | `omnidrive sync google folderfort` with either drive authenticated | use the stored token, so an authenticated drive is listed | high, not executed | Cli.GetFilesAsWrittenNeverLists | Cli.GetFiles |
| omnidrive/workflows/graphs.py:148 | `ServiceFactory.get_service(...)` is called, but the factory defines no such method, so detection always raises | any smart-sync run | build the adapter with an existing factory method, so the listing is detected | high, not executed | Graphs.SmartSyncAsWrittenNeverSyncs | Graphs.SmartSyncSyncsListing |
| omnidrive/cli.py:587 | `key.replace('session_', '')` removes every occurrence of the prefix | a session saved as `xsession_` is listed as `x` | strip only the leading prefix | medium, not executed | Cli.SessionNameAsWrittenLosesName | Cli.SessionNameRoundTrip |
| omnidrive-web/api/app/api/routes/sync.py:90 | `datetime.now()` is called, but `datetime` is imported only locally in `sync_services` (line 129), so the call raises `NameError` | any live sync job | import `datetime` at module level, so the job runs its transfers | high, not executed | WebSync.JobStore.RunSyncJobAsWritten | WebSync.JobRunFinishes |
