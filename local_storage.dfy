/** The local-disk backend (`LocalServiceImpl`): where a payload is written,
    which URL it is published under, and the disk as a map from absolute path
    to file contents. */
module LocalStorage {
  import opened Text
  import opened Layout
  import opened Files

  /** `Paths.get(endpoint, bucket, relativePath, fileName).toString()`: the parts
      joined with the platform separator. */
  function FilePath(sep: char, endpoint: string, bucket: string, relativePath: string, fileName: string): (r: string)
    ensures |r| == |endpoint| + |bucket| + |relativePath| + |fileName| + 3
    ensures r[..|endpoint|] == endpoint && r[|endpoint|] == sep
    ensures r[|r| - |fileName|..] == fileName && r[|r| - |fileName| - 1] == sep
    ensures r[|endpoint| + 1..|endpoint| + 1 + |bucket|] == bucket && r[|endpoint| + 1 + |bucket|] == sep
    ensures r[|endpoint| + |bucket| + 2..|r| - |fileName| - 1] == relativePath
  {
    endpoint + [sep] + bucket + [sep] + relativePath + [sep] + fileName
  }

  /** The absolute path `uploadFile` writes to. */
  function StoredAt(p: StorageProperties, sep: char, ext: string, env: Env): string {
    FilePath(sep, p.endpoint, p.bucketName, DayDirectory(env.today, sep), GeneratedName(env.uuid, ext))
  }

  /** The absolute path `delete` removes for a locator. */
  function DeletedAt(p: StorageProperties, sep: char, loc: FileDeleteDO): string {
    FilePath(sep, p.endpoint, p.bucketName, loc.relativePath, loc.fileName)
  }

  /** The published URL: prefix/bucket/relativePath/fileName, then every double
      backslash and every backslash replaced by "/". */
  function Url(prefix: string, bucket: string, relativePath: string, fileName: string): (r: string)
    ensures '\\' !in r
  {
    NormaliseSeparators(prefix + "/" + bucket + "/" + relativePath + "/" + fileName)
  }

  /** The record fields `uploadFile` sets: url, filename and relativePath (the
      relative path keeps the platform separator); group and path are not set. */
  function Place(prefix: string, p: StorageProperties, sep: char, ext: string, env: Env): Placement {
    var name := GeneratedName(env.uuid, ext);
    var rel := DayDirectory(env.today, sep);
    Placement(Url(prefix, p.bucketName, rel, name), Some(name), Some(rel), None, None)
  }

  /** `FileUtils.writeByteArrayToFile`: the file at `at` holds exactly `bytes`,
      every other file is as it was. */
  function Write(files: map<string, seq<byte>>, at: string, bytes: seq<byte>): (r: map<string, seq<byte>>)
    ensures at in r && r[at] == bytes
    ensures forall k :: k != at ==> (k in r <==> k in files)
    ensures forall k :: k in r && k != at ==> r[k] == files[k]
  {
    files[at := bytes]
  }

  /** `FileUtils.deleteQuietly`: the file at `at` is gone, a missing file is not an
      error, every other file is as it was. */
  function DeleteQuietly(files: map<string, seq<byte>>, at: string): (r: map<string, seq<byte>>)
    ensures at !in r
    ensures forall k :: k != at ==> (k in r <==> k in files)
    ensures forall k :: k in r ==> r[k] == files[k]
  {
    files - {at}
  }

  /** Writing a new file and deleting it again leaves the disk as it was. */
  lemma WriteThenDeleteRestores(files: map<string, seq<byte>>, at: string, bytes: seq<byte>)
    requires at !in files
    ensures DeleteQuietly(Write(files, at, bytes), at) == files
  {
    var r := DeleteQuietly(Write(files, at, bytes), at);
    assert r.Keys == files.Keys;
  }

  /** The locator stored in the record (relativePath, filename) names the very
      file the upload wrote. */
  lemma RecordLocatesStoredFile(prefix: string, p: StorageProperties, sep: char, ext: string, env: Env,
                                group: string, path: string)
    ensures var pl := Place(prefix, p, sep, ext, env);
      pl.relativePath.Some? && pl.filename.Some? &&
      DeletedAt(p, sep, FileDeleteDO(pl.relativePath.value, pl.filename.value, group, path)) == StoredAt(p, sep, ext, env)
  {
  }

  /** The URL does not depend on the platform: with "\" as separator the relative
      path is written "yyyy\MM\dd", yet the URL comes out the same as with "/". */
  lemma UrlIsPlatformIndependent(prefix: string, bucket: string, d: Date, name: string, sep: char)
    requires sep == '/' || sep == '\\'
    requires '\\' !in prefix && '\\' !in bucket && '\\' !in name
    ensures Url(prefix, bucket, DayDirectory(d, sep), name) == prefix + "/" + bucket + "/" + DayText(d) + "/" + name
  {
    var p := prefix + "/" + bucket + "/";
    var q := "/" + name;
    DateTextsArePlain(d);
    assert prefix + "/" + bucket + "/" + DayDirectory(d, sep) + "/" + name == p + DayDirectory(d, sep) + q;
    if sep == '\\' {
      NormalisePlatformPath(p, DayText(d), q);
    } else {
      assert DayDirectory(d, sep) == DayText(d);
      NormaliseKeepsPlainText(p + DayText(d) + q);
      assert p + DayText(d) + q == prefix + "/" + bucket + "/" + DayText(d) + "/" + name;
    }
  }
}
