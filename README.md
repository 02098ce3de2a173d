# pinda file server: the file-storage strategy layer

A Dafny model of how the pinda file server stores and deletes uploaded files.
The template `AbstractFileStrategy` validates the submitted name, builds the
`File` record, hands it to the configured backend, and runs the best-effort
batch delete. The three backends are the local disk (`LocalServiceImpl`),
Aliyun OSS (`AliServiceImpl`) and FastDFS (`FastDfsServiceImpl`). Each one
composes a generated name (UUID + "." + extension), a date-partitioned relative
path and a URL, fills in the record's locator fields, and maps a delete locator
to a key in its store.

Modules:

- `Text`: the string operations the code relies on:
  - `String.contains` and `replaceFirst` with a literal pattern;
  - hutool's `StrUtil.replace`;
  - the two-pass backslash-to-"/" normalisation applied to every URL.
- `Layout`: the date directories (`yyyy/MM/dd` and `yyyy/MM`) as `Paths.get`
  writes them with the platform separator, the generated file name, and the
  extension of a name.
- `Files`: the shared entities:
  - the `File` record, a class whose fields the setters assign (`None` stands for null);
  - the delete locator `FileDeleteDO`, the configuration blocks and the uploaded part;
  - `Env`: what one call takes from outside (clock, UUID, whether the physical
    write throws, the FastDFS store path, the OSS ETag and request id).
- `LocalStorage`, `AliOss`, `FastDfs`: per-backend composition of paths, keys and
  URLs, and each store as a map (disk path to bytes, bucket to key to object,
  store path to entry).
- `FileStrategy`: the class `FileStrategy` with the `properties` field and the
  backend store, and the upload, delete and batch-delete methods. Each method
  is proved against a specification function on `State` (`UploadState`,
  `DeleteStep`, `BatchRun`, `BatchDelete`), and the lemmas prove the
  source's promises about those functions.

Java inheritance becomes one class whose store is a sum type (`Disk`, `Oss`,
`Dfs`): the backend is chosen once, when the strategy is made, and each
abstract method dispatches on it. Exceptions become an `Outcome` per backend
step and a `Result` for `upload`. Whether a remote call throws is a parameter
(`Env.fault` for uploads, one flag per item for a batch delete).

## Behaviour of the code worth knowing

The model follows the code as written in each case below.

- `upload` refuses every name that **contains** "." (`pd-apps/pd-file/pd-file-server/src/main/java/com/itheima/pinda/file/strategy/impl/AbstractFileStrategy.java:47`), although the
  comment beside the check (`pd-apps/pd-file/pd-file-server/src/main/java/com/itheima/pinda/file/strategy/impl/AbstractFileStrategy.java:48`) calls a name *without* "." illegal. Every
  accepted upload therefore has the extension "" (`FileStrategy.AcceptedNameHasNoExtension`),
  and its generated name ends in ".". A name like "report.pdf" is refused.
- That refusal is thrown inside the `try`, so it comes out as the same
  "文件上传失败" error as a backend failure (`pd-apps/pd-file/pd-file-server/src/main/java/com/itheima/pinda/file/strategy/impl/AbstractFileStrategy.java:73-76`).
- The OSS variant calls `shutdown` only after a successful put or delete; there
  is no `finally` (`pd-apps/pd-file/pd-file-server/src/main/java/com/itheima/pinda/file/storage/AliOssAutoConfigure.java:116`, `pd-apps/pd-file/pd-file-server/src/main/java/com/itheima/pinda/file/storage/AliOssAutoConfigure.java:133`). The model counts open clients, and
  `FileStrategy.OssBatchLeaksOnePerFailure` and `FileStrategy.OssUploadLeaksOnFailure`
  show one client left open per failure.
- The OSS object key is never normalised. The comment at `pd-apps/pd-file/pd-file-server/src/main/java/com/itheima/pinda/file/storage/AliOssAutoConfigure.java:93` announces a
  replacement of "\" by "/", but the two `StringUtils.replace` results are
  discarded (`pd-apps/pd-file/pd-file-server/src/main/java/com/itheima/pinda/file/storage/AliOssAutoConfigure.java:94-95`). On a platform whose separator is "\" the stored key
  keeps the backslash while the URL uses "/" (`AliOss.UrlUsesSlashFormOfKey`).
- `relativePath` in the record is the `Paths.get` form, with the platform
  separator (`pd-apps/pd-file/pd-file-server/src/main/java/com/itheima/pinda/file/storage/LocalAutoConfigure.java:60`, `pd-apps/pd-file/pd-file-server/src/main/java/com/itheima/pinda/file/storage/AliOssAutoConfigure.java:90`). Only the URL is normalised.
- The local `delete` reads `properties` without building it (`pd-apps/pd-file/pd-file-server/src/main/java/com/itheima/pinda/file/storage/LocalAutoConfigure.java:92`). Before
  the first upload every local delete throws and a batch answers false
  (`FileStrategy.LocalDeleteBeforeUploadIsFalse`); afterwards a repeated delete
  changes nothing more (`FileStrategy.LocalDeleteIsIdempotent`).
- The extension is taken as `getExtension` returns it, without changing case (`pd-apps/pd-file/pd-file-server/src/main/java/com/itheima/pinda/file/strategy/impl/AbstractFileStrategy.java:58`).
- The FastDFS URL is the top-level prefix immediately followed by `group/path`,
  with no "/" inserted (`pd-apps/pd-file/pd-file-server/src/main/java/com/itheima/pinda/file/storage/FastDfsAutoConfigure.java:49`).

## Model

| member | source | states |
|---|---|---|
| Text.IndexOf | pd-apps/pd-file/pd-file-server/src/main/java/com/itheima/pinda/file/storage/AliOssAutoConfigure.java:66-67 | the result is the first position where the pattern occurs, or -1 exactly when it occurs nowhere |
| Text.ContainsChar | pd-apps/pd-file/pd-file-server/src/main/java/com/itheima/pinda/file/strategy/impl/AbstractFileStrategy.java:47 | `contains(".")` holds exactly when the character "." occurs in the name |
| Text.ReplaceAllSkipsPrefix | pd-apps/pd-file/pd-file-server/src/main/java/com/itheima/pinda/file/storage/LocalAutoConfigure.java:77-78 | the replacement copies unchanged a prefix in which the pattern's first character does not occur |
| Text.ReplaceAllKeepsSuffix | pd-apps/pd-file/pd-file-server/src/main/java/com/itheima/pinda/file/storage/LocalAutoConfigure.java:77-78 | the replacement copies unchanged a suffix that holds no character of the pattern |
| Text.ReplaceAllWithoutOccurrence | pd-apps/pd-file/pd-file-server/src/main/java/com/itheima/pinda/file/storage/LocalAutoConfigure.java:77-78 | the replacement leaves a string without the pattern unchanged |
| Text.ReplaceCharIsMapChar | pd-apps/pd-file/pd-file-server/src/main/java/com/itheima/pinda/file/storage/LocalAutoConfigure.java:78 | replacing one character by one character maps each position independently |
| Text.NormaliseSeparators | pd-apps/pd-file/pd-file-server/src/main/java/com/itheima/pinda/file/storage/LocalAutoConfigure.java:77-78 | no backslash is left after the double-backslash and backslash passes |
| Text.NormaliseKeepsPlainText | pd-apps/pd-file/pd-file-server/src/main/java/com/itheima/pinda/file/storage/LocalAutoConfigure.java:77-78 | a URL without backslashes passes through unchanged |
| Text.NormaliseKeepsPlainPrefix | pd-apps/pd-file/pd-file-server/src/main/java/com/itheima/pinda/file/storage/AliOssAutoConfigure.java:106-108 | a backslash-free prefix of the URL passes through unchanged |
| Text.NormaliseCollapsesDoubleBackslash | pd-apps/pd-file/pd-file-server/src/main/java/com/itheima/pinda/file/storage/LocalAutoConfigure.java:77 | a double backslash becomes a single "/" |
| Text.NormalisePlatformPath | pd-apps/pd-file/pd-file-server/src/main/java/com/itheima/pinda/file/storage/LocalAutoConfigure.java:60 | a path written with "\" separators (no empty segment) normalises back to its "/" form |
| Layout.Pad | pd-apps/pd-file/pd-file-server/src/main/java/com/itheima/pinda/file/storage/LocalAutoConfigure.java:60 | a date field has exactly its pattern's width and only digits |
| Layout.PadValue | pd-apps/pd-file/pd-file-server/src/main/java/com/itheima/pinda/file/storage/LocalAutoConfigure.java:60 | reading a padded field back gives the number when it fits in the width |
| Layout.DayDirectoryShape | pd-apps/pd-file/pd-file-server/src/main/java/com/itheima/pinda/file/storage/LocalAutoConfigure.java:60 | the day directory is ten characters, the separator at 4 and 7, digits elsewhere |
| Layout.DayDirectoryRoundTrip | pd-apps/pd-file/pd-file-server/src/main/java/com/itheima/pinda/file/storage/LocalAutoConfigure.java:60 | the day directory determines its date: distinct days get distinct directories |
| Layout.MonthDirectoryIsPrefixOfDay | pd-apps/pd-file/pd-file-server/src/main/java/com/itheima/pinda/file/storage/AliOssAutoConfigure.java:90 | the OSS month directory is the first seven characters of the local day directory |
| Layout.DateTextsArePlain | pd-apps/pd-file/pd-file-server/src/main/java/com/itheima/pinda/file/storage/LocalAutoConfigure.java:60 | the date patterns produce no backslash and no empty segment |
| Layout.GeneratedNamesDiffer | pd-apps/pd-file/pd-file-server/src/main/java/com/itheima/pinda/file/storage/LocalAutoConfigure.java:57 | two uploads with distinct UUIDs of equal length get distinct generated names |
| Layout.Extension | pd-apps/pd-file/pd-file-server/src/main/java/com/itheima/pinda/file/strategy/impl/AbstractFileStrategy.java:58 | the extension is what follows the last "."; it is "" when there is no "." |
| LocalStorage.Url | pd-apps/pd-file/pd-file-server/src/main/java/com/itheima/pinda/file/storage/LocalAutoConfigure.java:68-78 | the local URL holds no backslash |
| LocalStorage.Write | pd-apps/pd-file/pd-file-server/src/main/java/com/itheima/pinda/file/storage/LocalAutoConfigure.java:66 | after the write the path holds exactly the payload and every other file is as it was |
| LocalStorage.DeleteQuietly | pd-apps/pd-file/pd-file-server/src/main/java/com/itheima/pinda/file/storage/LocalAutoConfigure.java:96 | after the delete the path is gone, other files are as they were, and a missing file is no error |
| LocalStorage.WriteThenDeleteRestores | pd-apps/pd-file/pd-file-server/src/main/java/com/itheima/pinda/file/storage/LocalAutoConfigure.java:66 | writing a new file and deleting it restores the disk |
| LocalStorage.RecordLocatesStoredFile | pd-apps/pd-file/pd-file-server/src/main/java/com/itheima/pinda/file/storage/LocalAutoConfigure.java:92-93 | the locator saved in the record names exactly the file the upload wrote |
| LocalStorage.UrlIsPlatformIndependent | pd-apps/pd-file/pd-file-server/src/main/java/com/itheima/pinda/file/storage/LocalAutoConfigure.java:68-78 | the URL is the same with "/" or "\" as the platform separator |
| AliOss.UriPrefix | pd-apps/pd-file/pd-file-server/src/main/java/com/itheima/pinda/file/storage/AliOssAutoConfigure.java:62-69 | a configured prefix is returned as is; otherwise the result starts with the scheme taken from the endpoint |
| AliOss.UriPrefixCutsFirstScheme | pd-apps/pd-file/pd-file-server/src/main/java/com/itheima/pinda/file/storage/AliOssAutoConfigure.java:66-67 | without an override, the value for every endpoint is scheme + bucket + "." + the endpoint with its first occurrence of the scheme cut out |
| AliOss.UriPrefixSchemeFollowsEndpoint | pd-apps/pd-file/pd-file-server/src/main/java/com/itheima/pinda/file/storage/AliOssAutoConfigure.java:66 | without an override, the prefix is https exactly when the endpoint contains "https://" |
| AliOss.UriPrefixForSchemedEndpoint | pd-apps/pd-file/pd-file-server/src/main/java/com/itheima/pinda/file/storage/AliOssAutoConfigure.java:67 | an endpoint written as scheme + host gives scheme + bucket + "." + host |
| AliOss.UriPrefixForBareEndpoint | pd-apps/pd-file/pd-file-server/src/main/java/com/itheima/pinda/file/storage/AliOssAutoConfigure.java:66-67 | an endpoint with no scheme gets "http://" + bucket + "." in front |
| AliOss.Url | pd-apps/pd-file/pd-file-server/src/main/java/com/itheima/pinda/file/storage/AliOssAutoConfigure.java:106-108 | the OSS URL holds no backslash |
| AliOss.EnsureBucket | pd-apps/pd-file/pd-file-server/src/main/java/com/itheima/pinda/file/storage/AliOssAutoConfigure.java:83-86 | afterwards the bucket exists; it is created empty exactly when it was missing; existing buckets are unchanged |
| AliOss.PutObject | pd-apps/pd-file/pd-file-server/src/main/java/com/itheima/pinda/file/storage/AliOssAutoConfigure.java:101-103 | the object is stored under its key and nothing else changes |
| AliOss.DeleteObject | pd-apps/pd-file/pd-file-server/src/main/java/com/itheima/pinda/file/storage/AliOssAutoConfigure.java:131 | the key is gone from the bucket and nothing else changes |
| AliOss.KeyKeepsPlatformSeparator | pd-apps/pd-file/pd-file-server/src/main/java/com/itheima/pinda/file/storage/AliOssAutoConfigure.java:92-95 | the object key keeps the platform separator of the relative path |
| AliOss.UrlUsesSlashFormOfKey | pd-apps/pd-file/pd-file-server/src/main/java/com/itheima/pinda/file/storage/AliOssAutoConfigure.java:106-108 | with "\" as separator the URL names the "/" form of the key, not the stored key |
| AliOss.KeyAndUrlAgreeOnSlashPlatform | pd-apps/pd-file/pd-file-server/src/main/java/com/itheima/pinda/file/storage/AliOssAutoConfigure.java:106-108 | with "/" as separator the URL is prefix + "/" + key |
| FastDfs.Url | pd-apps/pd-file/pd-file-server/src/main/java/com/itheima/pinda/file/storage/FastDfsAutoConfigure.java:49 | the URL is the top-level prefix immediately followed by group + "/" + path |
| FastDfs.Upload | pd-apps/pd-file/pd-file-server/src/main/java/com/itheima/pinda/file/storage/FastDfsAutoConfigure.java:47 | the store holds the payload, its size and the extension under the assigned path; nothing else changes |
| FastDfs.Delete | pd-apps/pd-file/pd-file-server/src/main/java/com/itheima/pinda/file/storage/FastDfsAutoConfigure.java:62 | the delete succeeds exactly when the path is stored, and removes only it |
| FastDfs.DeleteFindsUploadedEntry | pd-apps/pd-file/pd-file-server/src/main/java/com/itheima/pinda/file/storage/FastDfsAutoConfigure.java:62 | deleting the uploaded path leaves the store as before the upload, minus that path |
| FastDfs.SecondDeleteIsRefused | pd-apps/pd-file/pd-file-server/src/main/java/com/itheima/pinda/file/storage/FastDfsAutoConfigure.java:62 | a path deleted once is refused the second time |
| FileStrategy.UriPrefixChoice | pd-apps/pd-file/pd-file-server/src/main/java/com/itheima/pinda/file/strategy/impl/AbstractFileStrategy.java:125-131 | a configured prefix wins in both `getUriPrefix` versions; without one the template returns the endpoint and the OSS version a longer host |
| FileStrategy.UrlStartsWithUriPrefix | pd-apps/pd-file/pd-file-server/src/main/java/com/itheima/pinda/file/storage/LocalAutoConfigure.java:68-75 | each backend's URL begins with the prefix it consults ("/" follows for local and OSS; nothing for FastDFS) |
| FileStrategy.AcceptedNameHasNoDot | pd-apps/pd-file/pd-file-server/src/main/java/com/itheima/pinda/file/strategy/impl/AbstractFileStrategy.java:47-50 | `upload` goes on exactly for names that contain no "." |
| FileStrategy.AcceptedNameHasNoExtension | pd-apps/pd-file/pd-file-server/src/main/java/com/itheima/pinda/file/strategy/impl/AbstractFileStrategy.java:58 | every name `upload` accepts has the extension "" |
| FileStrategy.UploadKeepsConsistent | pd-apps/pd-file/pd-file-server/src/main/java/com/itheima/pinda/file/strategy/impl/AbstractFileStrategy.java:34 | `properties` only ever holds the backend's own block, and the backend never changes |
| FileStrategy.DeleteKeepsConsistent | pd-apps/pd-file/pd-file-server/src/main/java/com/itheima/pinda/file/strategy/impl/AbstractFileStrategy.java:34 | a single delete keeps `properties` consistent and the backend fixed |
| FileStrategy.ConsistentLocalDeleteUsesConfiguration | pd-apps/pd-file/pd-file-server/src/main/java/com/itheima/pinda/file/storage/LocalAutoConfigure.java:90-97 | under the invariant, a local delete with `properties` set removes the file that the configured local block and the locator name |
| FileStrategy.BatchKeepsConsistent | pd-apps/pd-file/pd-file-server/src/main/java/com/itheima/pinda/file/strategy/impl/AbstractFileStrategy.java:101-110 | a whole batch keeps `properties` consistent and the backend fixed |
| FileStrategy.BatchRun | pd-apps/pd-file/pd-file-server/src/main/java/com/itheima/pinda/file/strategy/impl/AbstractFileStrategy.java:101-110 | the loop gives one answer per item and keeps the backend |
| FileStrategy.BatchRunComposes | pd-apps/pd-file/pd-file-server/src/main/java/com/itheima/pinda/file/strategy/impl/AbstractFileStrategy.java:102-109 | a batch is its first part followed by the rest from the state left behind: a throwing item does not stop the loop |
| FileStrategy.BatchRecordsEachItem | pd-apps/pd-file/pd-file-server/src/main/java/com/itheima/pinda/file/strategy/impl/AbstractFileStrategy.java:102-109 | each item's answer is whether its own delete returned normally, in list order |
| FileStrategy.BatchAnswer | pd-apps/pd-file/pd-file-server/src/main/java/com/itheima/pinda/file/strategy/impl/AbstractFileStrategy.java:97-110 | a null or empty list gives true and changes nothing; otherwise the answer is true exactly when some item's delete returned normally |
| FileStrategy.DeleteReadsOnlyItsLocatorFields | pd-apps/pd-file/pd-file-server/src/main/java/com/itheima/pinda/file/storage/FastDfsAutoConfigure.java:60-63 | FastDFS uses only group and path; local and OSS use only relativePath and fileName |
| FileStrategy.UploadStoresPayload | pd-apps/pd-file/pd-file-server/src/main/java/com/itheima/pinda/file/storage/LocalAutoConfigure.java:62-66 | after an accepted upload the payload is stored where the record says, on every backend |
| FileStrategy.OssUploadLeaksOnFailure | pd-apps/pd-file/pd-file-server/src/main/java/com/itheima/pinda/file/storage/AliOssAutoConfigure.java:80-116 | a failed OSS upload leaves one more client open; a successful or refused one leaves the count unchanged |
| FileStrategy.LocalBatchBeforeUploadFails | pd-apps/pd-file/pd-file-server/src/main/java/com/itheima/pinda/file/storage/LocalAutoConfigure.java:90-97 | while `properties` is null every local item throws and nothing changes |
| FileStrategy.LocalDeleteBeforeUploadIsFalse | pd-apps/pd-file/pd-file-server/src/main/java/com/itheima/pinda/file/storage/LocalAutoConfigure.java:92-93 | a non-empty batch on a fresh local strategy answers false |
| FileStrategy.LocalBatchRemovesListed | pd-apps/pd-file/pd-file-server/src/main/java/com/itheima/pinda/file/storage/LocalAutoConfigure.java:90-97 | once `properties` is set, every local item succeeds and the disk map loses exactly the listed file paths (directory locators: see Left out) |
| FileStrategy.LocalDeleteIsIdempotent | pd-apps/pd-file/pd-file-server/src/main/java/com/itheima/pinda/file/storage/LocalAutoConfigure.java:96 | repeating a local delete changes nothing more and returns the same way |
| FileStrategy.DfsBatchRemovesListed | pd-apps/pd-file/pd-file-server/src/main/java/com/itheima/pinda/file/storage/FastDfsAutoConfigure.java:60-63 | a fault-free FastDFS batch removes exactly the listed paths and answers true exactly when one of them was stored |
| FileStrategy.DfsSecondDeleteFails | pd-apps/pd-file/pd-file-server/src/main/java/com/itheima/pinda/file/storage/FastDfsAutoConfigure.java:62 | a FastDFS locator deleted once throws the second time |
| FileStrategy.OssBatchLeaksOnePerFailure | pd-apps/pd-file/pd-file-server/src/main/java/com/itheima/pinda/file/storage/AliOssAutoConfigure.java:125-134 | the open-client count grows by exactly the number of failed items |
| FileStrategy.OssBatchWithoutBucketFails | pd-apps/pd-file/pd-file-server/src/main/java/com/itheima/pinda/file/storage/AliOssAutoConfigure.java:129-131 | with the bucket missing every OSS item throws and leaks its client |
| FileStrategy.LocalUploadThenDelete | pd-apps/pd-file/pd-file-server/src/main/java/com/itheima/pinda/file/storage/LocalAutoConfigure.java:62-66 | deleting with the record's locator removes the uploaded file and restores the disk |
| FileStrategy.DfsUploadThenDelete | pd-apps/pd-file/pd-file-server/src/main/java/com/itheima/pinda/file/storage/FastDfsAutoConfigure.java:47-51 | deleting with the record's group and path removes the uploaded entry and restores the store |
| FileStrategy.OssUploadThenDelete | pd-apps/pd-file/pd-file-server/src/main/java/com/itheima/pinda/file/storage/AliOssAutoConfigure.java:92-101 | the record's relativePath and filename name the key that was put; deleting removes it and closes the client |
| Files.File.Build | pd-apps/pd-file/pd-file-server/src/main/java/com/itheima/pinda/file/strategy/impl/AbstractFileStrategy.java:52-59 | the builder sets the six given fields and leaves every other field null |
| Text.ReplaceFirst | pd-apps/pd-file/pd-file-server/src/main/java/com/itheima/pinda/file/storage/AliOssAutoConfigure.java:67 | a string without the pattern is unchanged; otherwise the text before the first match is kept, the replacement follows it, and then the rest of the string after the match |
| Text.ReplaceAll | pd-apps/pd-file/pd-file-server/src/main/java/com/itheima/pinda/file/storage/LocalAutoConfigure.java:77-78 | an empty pattern changes nothing; a pattern and replacement of equal length keep the length |
| LocalStorage.FilePath | pd-apps/pd-file/pd-file-server/src/main/java/com/itheima/pinda/file/storage/LocalAutoConfigure.java:62-64 | the path is endpoint, bucket, relativePath and file name in that order, each followed by the platform separator except the last |
| AliOss.ObjectKey | pd-apps/pd-file/pd-file-server/src/main/java/com/itheima/pinda/file/storage/AliOssAutoConfigure.java:92 | the key is relativePath, "/", fileName, and each part can be read back at its position |
| AliOss.ObjectFor | pd-apps/pd-file/pd-file-server/src/main/java/com/itheima/pinda/file/storage/AliOssAutoConfigure.java:97-99 | the object holds the payload and the content type, and its content disposition is "attachment;fileName=" followed by the submitted name |
| FileStrategy.BaseUriPrefix | pd-apps/pd-file/pd-file-server/src/main/java/com/itheima/pinda/file/strategy/impl/AbstractFileStrategy.java:125-131 | a non-empty configured prefix wins, otherwise the endpoint |
| FileStrategy.AfterUpload | pd-apps/pd-file/pd-file-server/src/main/java/com/itheima/pinda/file/strategy/impl/AbstractFileStrategy.java:71-72 | the backend's `uploadFile` keeps the backend; local and OSS set `properties` to their own block, FastDFS leaves it; a failed local or FastDFS write leaves the store as it was; a failed OSS put leaves the bucket ensured, no object put and one more client open |
| FileStrategy.DeleteStep | pd-apps/pd-file/pd-file-server/src/main/java/com/itheima/pinda/file/strategy/impl/AbstractFileStrategy.java:118 | the backend's `delete` keeps the backend: local returns exactly when `properties` is set and then removes the locator's file; OSS returns exactly when the call does not throw and the bucket exists, then removes relativePath + "/" + fileName from the configured bucket, and otherwise leaves one more client open; FastDFS returns exactly when the entry exists and no fault occurs, then removes only that entry; local and FastDFS failures change nothing |
| FileStrategy.BatchDelete | pd-apps/pd-file/pd-file-server/src/main/java/com/itheima/pinda/file/strategy/impl/AbstractFileStrategy.java:95-111 | the answer is false only for a non-empty list, and the backend stays the same |
| FileStrategy.FileStrategy.constructor | pd-apps/pd-file/pd-file-server/src/main/java/com/itheima/pinda/file/strategy/impl/AbstractFileStrategy.java:34 | a fresh strategy has `properties` null |
| FileStrategy.FileStrategy.SetLocator | pd-apps/pd-file/pd-file-server/src/main/java/com/itheima/pinda/file/storage/LocalAutoConfigure.java:79-81 | the setters assign `url` and each locator field present; the fields `upload` set are untouched |
| FileStrategy.FileStrategy.LocalUploadFile | pd-apps/pd-file/pd-file-server/src/main/java/com/itheima/pinda/file/storage/LocalAutoConfigure.java:51-82 | sets `properties`, writes the payload, then sets url, filename and relativePath; a failed write sets no field |
| FileStrategy.FileStrategy.BuildOssClient | pd-apps/pd-file/pd-file-server/src/main/java/com/itheima/pinda/file/storage/AliOssAutoConfigure.java:51-54 | sets `properties` to the OSS block and opens a client |
| FileStrategy.FileStrategy.CreateBucketIfMissing | pd-apps/pd-file/pd-file-server/src/main/java/com/itheima/pinda/file/storage/AliOssAutoConfigure.java:83-86 | afterwards the bucket exists, created empty only when missing |
| FileStrategy.FileStrategy.ShutdownOssClient | pd-apps/pd-file/pd-file-server/src/main/java/com/itheima/pinda/file/storage/AliOssAutoConfigure.java:116 | closes one client |
| FileStrategy.FileStrategy.AliUploadFile | pd-apps/pd-file/pd-file-server/src/main/java/com/itheima/pinda/file/storage/AliOssAutoConfigure.java:79-117 | ensures the bucket, puts the object with its metadata, sets url, filename, relativePath, ETag and request id, then shuts the client down; a failed put skips all of that after the bucket |
| FileStrategy.FileStrategy.FastDfsUploadFile | pd-apps/pd-file/pd-file-server/src/main/java/com/itheima/pinda/file/storage/FastDfsAutoConfigure.java:45-52 | stores the payload, then sets url, group and path; filename and relativePath stay unset |
| FileStrategy.FileStrategy.UploadFile | pd-apps/pd-file/pd-file-server/src/main/java/com/itheima/pinda/file/strategy/impl/AbstractFileStrategy.java:86 | the backend's `uploadFile`: fails exactly on a fault, and leaves the record untouched when it fails |
| FileStrategy.FileStrategy.NewRecord | pd-apps/pd-file/pd-file-server/src/main/java/com/itheima/pinda/file/strategy/impl/AbstractFileStrategy.java:52-70 | the skeleton: not deleted, size, content type, data type, submitted name, extension, icon and creation partitions; no locator field |
| FileStrategy.FileStrategy.Upload | pd-apps/pd-file/pd-file-server/src/main/java/com/itheima/pinda/file/strategy/impl/AbstractFileStrategy.java:43-77 | returns a fresh record exactly for a present, dot-free name whose store succeeds, with ext ""; otherwise the one "upload failed" error; the state follows `UploadState` |
| FileStrategy.FileStrategy.LocalDelete | pd-apps/pd-file/pd-file-server/src/main/java/com/itheima/pinda/file/storage/LocalAutoConfigure.java:90-97 | throws while `properties` is null; otherwise removes the path quietly |
| FileStrategy.FileStrategy.AliDelete | pd-apps/pd-file/pd-file-server/src/main/java/com/itheima/pinda/file/storage/AliOssAutoConfigure.java:125-134 | opens a client, deletes the key from the configured bucket and closes the client; a failure leaves the client open |
| FileStrategy.FileStrategy.FastDfsDelete | pd-apps/pd-file/pd-file-server/src/main/java/com/itheima/pinda/file/storage/FastDfsAutoConfigure.java:60-63 | removes the entry named by group and path; a missing entry or a fault throws |
| FileStrategy.FileStrategy.DeleteOne | pd-apps/pd-file/pd-file-server/src/main/java/com/itheima/pinda/file/strategy/impl/AbstractFileStrategy.java:118 | the backend's single delete, as `DeleteStep` says |
| FileStrategy.FileStrategy.Delete | pd-apps/pd-file/pd-file-server/src/main/java/com/itheima/pinda/file/strategy/impl/AbstractFileStrategy.java:95-111 | the answer and new state are `BatchDelete` of the old state: every item tried in order, true when any succeeded |

## Left out

- Spring wiring (`@Configuration`, `@ConditionalOnProperty`, `@Autowired`, `@Service`) is framework configuration. The choice of backend is the `Store` constructor given to the constructor.
- FileServerApplication.java and TestDateDirectory.java are not part of this model. They are process bootstrap and a test that only prints a date.
- Real I/O and SDK internals are not modelled. The disk, the OSS buckets and the FastDFS store are maps, and the OSS client is only a count of open clients.
- Only the physical write, put, upload and delete calls can fail. Failures of `getBytes`, `getInputStream`, client construction, `doesBucketExist` and `createBucket` are not modelled. Neither is `Paths.get`'s `InvalidPathException` for a path holding a NUL character (or `<>:"|?*` on Windows), which in the program makes a local upload or delete item throw; `FileStrategy.LocalBatchRemovesListed` assumes every local item returns. A failed local write leaves no partial file.
- `UUID.randomUUID`, `LocalDate.now` and `LocalDateTime.now` are fields of `Env`. The two clock readings are separate values, as in the code. What FastDFS assigns and what the OSS put returns (ETag, request id) are `Env` fields too.
- The platform separator that `Paths.get` uses is the constant `separator` of the strategy.
- `LocalStorage.FilePath` is a plain join. `Paths.get`'s collapsing of empty or repeated segments and its handling of absolute parts are not modelled.
- `FileDataTypeUtil.getDataType`, `IconType.getIcon` and the `DateUtils` formatters for createMonth, createWeek and createDay are uninterpreted functions in `Lookups`.
- Layout.Extension: does not model `FilenameUtils.getExtension`'s handling of directory separators inside the name. This does not matter for accepted names, which contain no ".".
- Layout.Pad: years above 9999 are not modelled. `Pad` keeps the low digits, and the date lemmas require a valid date.
- Null configuration values and null locator fields are not modelled. Only the original filename and the `properties` field can be null.
- Credentials (access key id and secret) are not modelled. They only reach the OSS client constructor.
- Logging and the JSON serialisation of the put result are not modelled. They have no effect on results.
- Concurrent calls sharing the `properties` field are not modelled. Every call runs to completion before the next.
- Record persistence and record identity are not modelled. The model only says that the returned record is a fresh object.
- LocalStorage.DeleteQuietly: the disk is a flat map from file path to contents, with no directories. A locator whose `fileName` (or also `relativePath`) is "" names a directory once `Paths.get` drops the empty segment, and `deleteQuietly` then removes everything under it (`pd-apps/pd-file/pd-file-server/src/main/java/com/itheima/pinda/file/storage/LocalAutoConfigure.java:92-96`). In the model such a locator removes at most one key. `FileStrategy.LocalBatchRemovesListed` speaks of these keys only.
- The FastDFS client's own checks on its arguments are not modelled. An accepted upload always hands it the extension "". Whether the client refuses that is part of the client, which is not part of this model; such a refusal is covered by `Env.fault`.
