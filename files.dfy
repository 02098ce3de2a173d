/** The entities the storage strategies share: the `File` record that an upload
    fills in, the delete locator, the configuration blocks, the uploaded part,
    and the per-call environment (clock, UUID, faults, what a remote store
    answers) that the model takes as parameters. */
module Files {
  import opened Layout

  newtype byte = x: int | 0 <= x < 256

  datatype Option<T> = None | Some(value: T)

  /** `Or(given, before)`: the value after a setter that ran only when `given` is present. */
  function Or<T>(given: Option<T>, before: Option<T>): Option<T> {
    if given.Some? then given else before
  }

  /** What `upload` hands back: the record, or the one business exception it throws. */
  datatype Result<T> = Ok(value: T) | Err(message: string)

  /** The kind of exception a backend step raises. */
  datatype Failure =
    | NullReference   // a field or argument read while still null
    | IoFailure       // the local write failed
    | OssFailure      // the cloud object store refused or was unreachable
    | DfsFailure      // the FastDFS tracker/storage refused or was unreachable

  datatype Outcome = Pass | Fail(cause: Failure)

  /** `LocalDateTime.now()`: only ever passed to the date formatters. */
  datatype DateTime = DateTime(date: Date, secondOfDay: nat)

  /** One backend's configuration block (`FileServerProperties.Properties`);
      an absent or empty `uriPrefix` is written "". */
  datatype StorageProperties = StorageProperties(endpoint: string, bucketName: string, uriPrefix: string)

  /** The whole `pinda.file` configuration: the top-level `uriPrefix` (used by
      FastDFS) and the local and Aliyun OSS blocks. */
  datatype FileServerProperties = FileServerProperties(
    uriPrefix: string, local: StorageProperties, ali: StorageProperties)

  /** `FileDeleteDO`: the locator of one file to delete. */
  datatype FileDeleteDO = FileDeleteDO(relativePath: string, fileName: string, group: string, path: string)

  /** The uploaded part (`MultipartFile`); a missing original name is `None`. */
  datatype MultipartFile = MultipartFile(originalFilename: Option<string>, contentType: string, bytes: seq<byte>)

  /** FastDFS's `StorePath`: the group and path it assigned to a stored file. */
  datatype StorePath = StorePath(group: string, path: string) {
    /** `getFullPath()`: group + "/" + path. */
    function FullPath(): string {
      group + "/" + path
    }
  }

  /** Everything one call takes from outside the model: the two clock readings
      (`LocalDateTime.now()` in `upload`, `LocalDate.now()` in the backend), the
      random UUID, whether the backend's physical write throws, the path FastDFS
      assigns, and the ETag and request id of the cloud store's put result. */
  datatype Env = Env(
    now: DateTime, today: Date, uuid: string, fault: bool,
    storePath: StorePath, eTag: string, requestId: string)

  /** Helpers whose code lies outside the model: `FileDataTypeUtil.getDataType`,
      `IconType.getIcon(..).getIcon()` and the `DateUtils` formatters used for
      the creation partitions. */
  datatype Lookups = Lookups(
    dataTypeOf: string -> string,
    iconOf: string -> string,
    yearMonth: DateTime -> string,
    yearWeek: DateTime -> string,
    monthDay: DateTime -> string)

  /** The locator fields one backend's `uploadFile` assigns; `None` means that
      backend does not call that setter. */
  datatype Placement = Placement(
    url: string, filename: Option<string>, relativePath: Option<string>,
    group: Option<string>, path: Option<string>)

  /** The file record saved after an upload. Fields the builder does not set
      start out null (`None`). */
  class File {
    var isDelete: bool
    var size: nat
    var contextType: string
    var dataType: string
    var submittedFileName: string
    var ext: string
    var icon: Option<string>
    var createMonth: Option<string>
    var createWeek: Option<string>
    var createDay: Option<string>
    var url: Option<string>
    var filename: Option<string>
    var relativePath: Option<string>
    var group: Option<string>
    var path: Option<string>

    /** `File.builder()...build()` with the six fields `upload` gives it. */
    constructor Build(isDelete: bool, size: nat, contextType: string, dataType: string,
                      submittedFileName: string, ext: string)
      ensures this.isDelete == isDelete && this.size == size && this.contextType == contextType
      ensures this.dataType == dataType && this.submittedFileName == submittedFileName && this.ext == ext
      ensures icon.None? && createMonth.None? && createWeek.None? && createDay.None?
      ensures url.None? && filename.None? && relativePath.None? && group.None? && path.None?
    {
      this.isDelete := isDelete;
      this.size := size;
      this.contextType := contextType;
      this.dataType := dataType;
      this.submittedFileName := submittedFileName;
      this.ext := ext;
      icon, createMonth, createWeek, createDay := None, None, None, None;
      url, filename, relativePath, group, path := None, None, None, None, None;
    }
  }
}
