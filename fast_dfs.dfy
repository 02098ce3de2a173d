/** The FastDFS backend (`FastDfsServiceImpl`): the URL of an upload and the
    remote group/path store as a map from `StorePath` to what was stored. */
module FastDfs {
  import opened Files

  /** What `uploadFile(stream, size, ext, null)` hands the storage server. */
  datatype DfsEntry = DfsEntry(content: seq<byte>, size: nat, ext: string)

  /** The URL: the top-level configured prefix immediately followed by the full
      path; no "/" is put between them. */
  function Url(uriPrefix: string, sp: StorePath): (r: string)
    ensures |r| == |uriPrefix| + |sp.group| + 1 + |sp.path|
    ensures r[..|uriPrefix|] == uriPrefix && r[|uriPrefix|..] == sp.FullPath()
  {
    uriPrefix + sp.FullPath()
  }

  /** The record fields `uploadFile` sets: url, group and path; filename and
      relativePath are not set. */
  function Place(uriPrefix: string, sp: StorePath): Placement {
    Placement(Url(uriPrefix, sp), None, None, Some(sp.group), Some(sp.path))
  }

  /** The store after an upload assigned `sp`: the payload, its size and the extension. */
  function Upload(entries: map<StorePath, DfsEntry>, sp: StorePath, bytes: seq<byte>, ext: string)
    : (r: map<StorePath, DfsEntry>)
    ensures sp in r && r[sp] == DfsEntry(bytes, |bytes|, ext)
    ensures forall k :: k != sp ==> (k in r <==> k in entries)
    ensures forall k :: k in r && k != sp ==> r[k] == entries[k]
  {
    entries[sp := DfsEntry(bytes, |bytes|, ext)]
  }

  /** `deleteFile(group, path)`: the entry is removed; a locator that names
      nothing is refused by the storage server (`None`). */
  function Delete(entries: map<StorePath, DfsEntry>, sp: StorePath): (r: Option<map<StorePath, DfsEntry>>)
    ensures r.Some? <==> sp in entries
    ensures r.Some? ==> sp !in r.value && forall k :: k != sp ==> (k in r.value <==> k in entries)
    ensures r.Some? ==> forall k :: k in r.value ==> r.value[k] == entries[k]
  {
    if sp in entries then Some(entries - {sp}) else None
  }

  /** Deleting with the group and path an upload recorded removes exactly that
      entry: the store is as it was before the upload, minus that path. */
  lemma DeleteFindsUploadedEntry(entries: map<StorePath, DfsEntry>, sp: StorePath, bytes: seq<byte>, ext: string)
    ensures Delete(Upload(entries, sp, bytes, ext), sp) == Some(entries - {sp})
  {
    var u := Upload(entries, sp, bytes, ext);
    var r := u - {sp};
    assert r.Keys == (entries - {sp}).Keys;
    assert forall k :: k in r ==> r[k] == u[k] == entries[k];
    assert r == entries - {sp};
  }

  /** Unlike the local disk, a second delete of the same locator is refused. */
  lemma SecondDeleteIsRefused(entries: map<StorePath, DfsEntry>, sp: StorePath)
    requires Delete(entries, sp).Some?
    ensures Delete(Delete(entries, sp).value, sp).None?
  {
  }
}
