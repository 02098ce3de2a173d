/** The upload/delete template (`AbstractFileStrategy`) and its three variants
    (local disk, Aliyun OSS, FastDFS). The variant is fixed when the strategy is
    made (the `pinda.file.type` switch) and is the constructor of the `Store` it
    works on; `upload` and the batch `delete` are written once, as in the
    template, and dispatch to the variant's `uploadFile` and `delete`. */
module FileStrategy {
  import opened Text
  import opened Layout
  import opened Files
  import LocalStorage
  import AliOss
  import FastDfs

  /** The character whose presence in the submitted name `upload` tests. */
  const FILE_SPLIT: string := "."

  /** The message of the one exception `upload` lets out, whatever went wrong. */
  const UPLOAD_FAILED: string := "文件上传失败"

  /** The backend and what it holds. `openClients` counts OSS clients built and
      never shut down. */
  datatype Store =
    | Disk(files: map<string, seq<byte>>)
    | Oss(buckets: map<string, map<string, AliOss.OssObject>>, openClients: nat)
    | Dfs(entries: map<StorePath, FastDfs.DfsEntry>)

  /** The mutable part of a strategy: the `properties` field and the backend. */
  datatype State = State(properties: Option<StorageProperties>, store: Store)

  /** The template's `getUriPrefix`: the configured prefix when non-empty,
      otherwise the endpoint. */
  function BaseUriPrefix(p: StorageProperties): (r: string)
    ensures p.uriPrefix != "" ==> r == p.uriPrefix
    ensures p.uriPrefix == "" ==> r == p.endpoint
  {
    if p.uriPrefix != "" then p.uriPrefix else p.endpoint
  }

  /** A configured prefix is used as is by both `getUriPrefix` versions. Without
      one, the template falls back to the endpoint, while the OSS version never
      does: it always builds a longer, bucket-qualified host. */
  lemma UriPrefixChoice(p: StorageProperties)
    ensures p.uriPrefix != "" ==> BaseUriPrefix(p) == AliOss.UriPrefix(p) == p.uriPrefix
    ensures p.uriPrefix == "" ==> BaseUriPrefix(p) == p.endpoint
    ensures p.uriPrefix == "" ==> |AliOss.UriPrefix(p)| > |p.endpoint|
  {
    if p.uriPrefix == "" {
      var scheme := AliOss.Scheme(p.endpoint);
      var i := IndexOf(p.endpoint, scheme);
      if i >= 0 {
        assert |ReplaceFirst(p.endpoint, scheme, "")| == |p.endpoint| - |scheme|;
      }
    }
  }

  /** Every URL begins with the prefix its variant consults: the local one with
      the template's prefix and "/", the OSS one with its own prefix and "/"
      (when these hold no backslash for the normalisation to rewrite), and the
      FastDFS one with the top-level prefix and nothing in between. */
  lemma UrlStartsWithUriPrefix(cfg: FileServerProperties, sep: char, store: Store, ext: string, env: Env)
    ensures var url := Placed(cfg, sep, store, ext, env).url;
      match store
      case Disk(_) => '\\' !in BaseUriPrefix(cfg.local) ==> StartsWith(url, BaseUriPrefix(cfg.local) + "/")
      case Oss(_, _) => '\\' !in AliOss.UriPrefix(cfg.ali) ==> StartsWith(url, AliOss.UriPrefix(cfg.ali) + "/")
      case Dfs(_) => StartsWith(url, cfg.uriPrefix)
  {
    match store {
      case Disk(_) =>
        var prefix := BaseUriPrefix(cfg.local);
        if '\\' !in prefix {
          var rest := cfg.local.bucketName + "/" + DayDirectory(env.today, sep) + "/" + GeneratedName(env.uuid, ext);
          assert prefix + "/" + cfg.local.bucketName + "/" + DayDirectory(env.today, sep) + "/" + GeneratedName(env.uuid, ext)
              == prefix + ("/" + rest);
          NormaliseKeepsPlainPrefix(prefix, "/" + rest);
          NormaliseKeepsPlainPrefix("/", rest);
          assert (prefix + ("/" + NormaliseSeparators(rest)))[..|prefix + "/"|] == prefix + "/";
        }
      case Oss(_, _) =>
        var prefix := AliOss.UriPrefix(cfg.ali);
        if '\\' !in prefix {
          var key := AliOss.ObjectKey(MonthDirectory(env.today, sep), GeneratedName(env.uuid, ext));
          NormaliseKeepsPlainPrefix(prefix + "/", key);
          assert (prefix + "/" + NormaliseSeparators(key))[..|prefix + "/"|] == prefix + "/";
        }
      case Dfs(_) =>
    }
  }

  /** `upload` goes on only with a name that is present and does NOT contain ".". */
  predicate AcceptedName(name: Option<string>) {
    name.Some? && !Contains(name.value, FILE_SPLIT)
  }

  /** A name is accepted exactly when it has no dot at all. */
  lemma AcceptedNameHasNoDot(name: string)
    ensures AcceptedName(Some(name)) <==> '.' !in name
  {
    ContainsChar(name, '.');
  }

  /** Consequently every accepted upload has the empty extension. */
  lemma AcceptedNameHasNoExtension(name: string)
    requires AcceptedName(Some(name))
    ensures Extension(name) == ""
  {
    AcceptedNameHasNoDot(name);
  }

  /** The `properties` field only ever holds the backend's own block: the local
      and OSS variants set it on first use, FastDFS never does. */
  predicate Consistent(cfg: FileServerProperties, s: State) {
    match s.store
    case Disk(_) => s.properties.None? || s.properties == Some(cfg.local)
    case Oss(_, _) => s.properties.None? || s.properties == Some(cfg.ali)
    case Dfs(_) => s.properties.None?
  }

  /** Both states run on the same backend. */
  predicate SameBackend(s: State, t: State) {
    (s.store.Disk? <==> t.store.Disk?) && (s.store.Oss? <==> t.store.Oss?) && (s.store.Dfs? <==> t.store.Dfs?)
  }

  /** The state after the variant's `uploadFile`, given the record's submitted
      name, content type and extension, whether the physical write/put throws. */
  function AfterUpload(cfg: FileServerProperties, sep: char, s: State, bytes: seq<byte>,
                       submitted: string, contentType: string, ext: string, env: Env): (r: State)
    ensures SameBackend(s, r)
    ensures !s.store.Dfs? ==> r.properties == Some(if s.store.Disk? then cfg.local else cfg.ali)
    ensures s.store.Dfs? ==> r.properties == s.properties
    ensures env.fault && !s.store.Oss? ==> r.store == s.store
    ensures env.fault && s.store.Oss? ==>
      r.store == Oss(AliOss.EnsureBucket(s.store.buckets, cfg.ali.bucketName), s.store.openClients + 1)
  {
    match s.store
    case Disk(files) =>
      var at := LocalStorage.StoredAt(cfg.local, sep, ext, env);
      State(Some(cfg.local), if env.fault then s.store else Disk(LocalStorage.Write(files, at, bytes)))
    case Oss(buckets, n) =>
      var bucket := cfg.ali.bucketName;
      var withBucket := AliOss.EnsureBucket(buckets, bucket);
      var key := AliOss.ObjectKey(MonthDirectory(env.today, sep), GeneratedName(env.uuid, ext));
      if env.fault then State(Some(cfg.ali), Oss(withBucket, n + 1))
      else State(Some(cfg.ali), Oss(AliOss.PutObject(withBucket, bucket, key, AliOss.ObjectFor(bytes, submitted, contentType)), n))
    case Dfs(entries) =>
      State(s.properties, if env.fault then s.store else Dfs(FastDfs.Upload(entries, env.storePath, bytes, ext)))
  }

  /** The locator fields a successful `uploadFile` of this backend sets. */
  function Placed(cfg: FileServerProperties, sep: char, store: Store, ext: string, env: Env): Placement {
    match store
    case Disk(_) => LocalStorage.Place(BaseUriPrefix(cfg.local), cfg.local, sep, ext, env)
    case Oss(_, _) => AliOss.Place(AliOss.UriPrefix(cfg.ali), sep, ext, env)
    case Dfs(_) => FastDfs.Place(cfg.uriPrefix, env.storePath)
  }

  /** The state after `upload`: a refused name changes nothing. */
  function UploadState(cfg: FileServerProperties, sep: char, s: State, mf: MultipartFile, env: Env): State {
    if AcceptedName(mf.originalFilename) then
      var name := mf.originalFilename.value;
      AfterUpload(cfg, sep, s, mf.bytes, name, mf.contentType, Extension(name), env)
    else s
  }

  /** The delete locator read back from a saved record (a field never set reads as ""). */
  function LocatorOf(pl: Placement): FileDeleteDO {
    FileDeleteDO(Or(pl.relativePath, Some("")).value, Or(pl.filename, Some("")).value,
                 Or(pl.group, Some("")).value, Or(pl.path, Some("")).value)
  }

  /** One variant's `delete(FileDeleteDO)`: whether it returns or throws, and the
      state after it. `fault` says whether the remote call throws. */
  function DeleteStep(cfg: FileServerProperties, sep: char, s: State, loc: FileDeleteDO, fault: bool): (r: (Outcome, State))
    ensures SameBackend(s, r.1)
    ensures r.0.Fail? && !s.store.Oss? ==> r.1 == s
    ensures s.store.Disk? ==> (r.0.Pass? <==> s.properties.Some?)
    ensures s.store.Dfs? ==> (r.0.Pass? <==> !fault && StorePath(loc.group, loc.path) in s.store.entries)
    ensures s.store.Oss? ==> (r.0.Pass? <==> !fault && cfg.ali.bucketName in s.store.buckets)
    ensures s.store.Disk? && r.0.Pass? ==>
      r.1 == State(s.properties, Disk(LocalStorage.DeleteQuietly(s.store.files, LocalStorage.DeletedAt(s.properties.value, sep, loc))))
    ensures s.store.Oss? && r.0.Pass? ==> r.1.properties == Some(cfg.ali)
    ensures s.store.Oss? && r.0.Pass? ==>
      r.1.store == Oss(AliOss.DeleteObject(s.store.buckets, cfg.ali.bucketName, AliOss.ObjectKey(loc.relativePath, loc.fileName)),
                       s.store.openClients)
    ensures s.store.Oss? && r.0.Fail? ==> r.1 == State(Some(cfg.ali), Oss(s.store.buckets, s.store.openClients + 1))
    ensures s.store.Dfs? && r.0.Pass? ==>
      r.1 == State(s.properties, Dfs(s.store.entries - {StorePath(loc.group, loc.path)}))
  {
    match s.store
    case Disk(files) =>
      if s.properties.None? then (Fail(NullReference), s)
      else
        var at := LocalStorage.DeletedAt(s.properties.value, sep, loc);
        (Pass, State(s.properties, Disk(LocalStorage.DeleteQuietly(files, at))))
    case Oss(buckets, n) =>
      var bucket := cfg.ali.bucketName;
      if fault || bucket !in buckets then (Fail(OssFailure), State(Some(cfg.ali), Oss(buckets, n + 1)))
      else
        var key := AliOss.ObjectKey(loc.relativePath, loc.fileName);
        (Pass, State(Some(cfg.ali), Oss(AliOss.DeleteObject(buckets, bucket, key), n)))
    case Dfs(entries) =>
      var r := FastDfs.Delete(entries, StorePath(loc.group, loc.path));
      if fault || r.None? then (Fail(DfsFailure), s) else (Pass, State(s.properties, Dfs(r.value)))
  }

  /** The loop of the batch `delete` over `items`, run in order: which items
      returned normally and the state after the last one. */
  function BatchRun(cfg: FileServerProperties, sep: char, s: State, items: seq<FileDeleteDO>, faults: seq<bool>)
    : (res: (seq<bool>, State))
    requires |faults| == |items|
    ensures |res.0| == |items|
    ensures SameBackend(s, res.1)
  {
    if items == [] then ([], s)
    else
      var k := |items| - 1;
      var (outs, mid) := BatchRun(cfg, sep, s, items[..k], faults[..k]);
      var (o, next) := DeleteStep(cfg, sep, mid, items[k], faults[k]);
      (outs + [o.Pass?], next)
  }

  /** The batch `delete`: true for a null or empty list, otherwise whether at
      least one item was deleted without an exception. */
  function BatchDelete(cfg: FileServerProperties, sep: char, s: State, list: Option<seq<FileDeleteDO>>, faults: seq<bool>)
    : (r: (bool, State))
    requires list.Some? ==> |faults| == |list.value|
    ensures !r.0 ==> list.Some? && list.value != []
    ensures SameBackend(s, r.1)
  {
    if list.None? || list.value == [] then (true, s)
    else
      var (outs, t) := BatchRun(cfg, sep, s, list.value, faults);
      (true in outs, t)
  }

  /** `upload` keeps `properties` consistent and the backend fixed. */
  lemma UploadKeepsConsistent(cfg: FileServerProperties, sep: char, s: State, mf: MultipartFile, env: Env)
    requires Consistent(cfg, s)
    ensures Consistent(cfg, UploadState(cfg, sep, s, mf, env)) && SameBackend(s, UploadState(cfg, sep, s, mf, env))
  {
  }

  /** So does a single `delete`. */
  lemma DeleteKeepsConsistent(cfg: FileServerProperties, sep: char, s: State, loc: FileDeleteDO, fault: bool)
    requires Consistent(cfg, s)
    ensures Consistent(cfg, DeleteStep(cfg, sep, s, loc, fault).1) && SameBackend(s, DeleteStep(cfg, sep, s, loc, fault).1)
  {
  }

  /** What consistency buys a local delete: once `properties` is set it is the
      configured local block, so the file removed is the one the configuration
      and the locator name. */
  lemma ConsistentLocalDeleteUsesConfiguration(cfg: FileServerProperties, sep: char, s: State,
                                               loc: FileDeleteDO, fault: bool)
    requires Consistent(cfg, s) && s.store.Disk? && s.properties.Some?
    ensures DeleteStep(cfg, sep, s, loc, fault)
         == (Pass, State(Some(cfg.local), Disk(LocalStorage.DeleteQuietly(s.store.files, LocalStorage.DeletedAt(cfg.local, sep, loc)))))
  {
  }

  /** A whole batch keeps `properties` consistent and the backend fixed. */
  lemma {:induction false} BatchKeepsConsistent(cfg: FileServerProperties, sep: char, s: State,
                                                items: seq<FileDeleteDO>, faults: seq<bool>)
    requires Consistent(cfg, s) && |faults| == |items|
    ensures Consistent(cfg, BatchRun(cfg, sep, s, items, faults).1)
    ensures SameBackend(s, BatchRun(cfg, sep, s, items, faults).1)
  {
    if items != [] {
      var k := |items| - 1;
      BatchKeepsConsistent(cfg, sep, s, items[..k], faults[..k]);
      var mid := BatchRun(cfg, sep, s, items[..k], faults[..k]).1;
      DeleteKeepsConsistent(cfg, sep, mid, items[k], faults[k]);
    }
  }

  /** Running a batch is running its first part, then the rest from the state
      the first part left: an item that throws does not stop the loop. */
  lemma {:induction false} BatchRunComposes(cfg: FileServerProperties, sep: char, s: State,
                                            a: seq<FileDeleteDO>, fa: seq<bool>, b: seq<FileDeleteDO>, fb: seq<bool>)
    requires |fa| == |a| && |fb| == |b|
    ensures var (outsA, mid) := BatchRun(cfg, sep, s, a, fa);
      var (outsB, t) := BatchRun(cfg, sep, mid, b, fb);
      BatchRun(cfg, sep, s, a + b, fa + fb) == (outsA + outsB, t)
  {
    if b == [] {
      assert fb == [];
      assert a + b == a && fa + fb == fa;
      var (outsA, mid) := BatchRun(cfg, sep, s, a, fa);
      assert BatchRun(cfg, sep, mid, b, fb) == ([], mid);
      assert outsA + [] == outsA;
    } else {
      var k := |b| - 1;
      BatchRunComposes(cfg, sep, s, a, fa, b[..k], fb[..k]);
      var ab, fab := a + b, fa + fb;
      var n := |ab| - 1;
      assert ab[..n] == a + b[..k] && fab[..n] == fa + fb[..k];
      assert ab[n] == b[k] && fab[n] == fb[k];
      var (outsA, mid) := BatchRun(cfg, sep, s, a, fa);
      var (outsB, u) := BatchRun(cfg, sep, mid, b[..k], fb[..k]);
      assert BatchRun(cfg, sep, s, ab[..n], fab[..n]) == (outsA + outsB, u);
      var (o, t) := DeleteStep(cfg, sep, u, b[k], fb[k]);
      assert BatchRun(cfg, sep, mid, b, fb) == (outsB + [o.Pass?], t);
      assert BatchRun(cfg, sep, s, ab, fab) == ((outsA + outsB) + [o.Pass?], t);
      assert (outsA + outsB) + [o.Pass?] == outsA + (outsB + [o.Pass?]);
    }
  }

  /** Each item's answer is whether its own `delete` returned normally, run on
      the state the items before it left. */
  lemma {:induction false} BatchRecordsEachItem(cfg: FileServerProperties, sep: char, s: State,
                                                items: seq<FileDeleteDO>, faults: seq<bool>, i: nat)
    requires |faults| == |items| && i < |items|
    ensures BatchRun(cfg, sep, s, items, faults).0[i]
         == DeleteStep(cfg, sep, BatchRun(cfg, sep, s, items[..i], faults[..i]).1, items[i], faults[i]).0.Pass?
  {
    var k := |items| - 1;
    if i < k {
      BatchRecordsEachItem(cfg, sep, s, items[..k], faults[..k], i);
      assert items[..k][..i] == items[..i] && faults[..k][..i] == faults[..i];
    }
  }

  /** Hence the batch answer: true for a null or empty list, otherwise true
      exactly when some item's own `delete` returned normally. */
  lemma BatchAnswer(cfg: FileServerProperties, sep: char, s: State, list: Option<seq<FileDeleteDO>>, faults: seq<bool>)
    requires list.Some? ==> |faults| == |list.value|
    ensures list.None? || list.value == [] ==> BatchDelete(cfg, sep, s, list, faults) == (true, s)
    ensures list.Some? && list.value != [] ==>
      (BatchDelete(cfg, sep, s, list, faults).0 <==>
        exists i :: 0 <= i < |list.value| &&
          DeleteStep(cfg, sep, BatchRun(cfg, sep, s, list.value[..i], faults[..i]).1, list.value[i], faults[i]).0.Pass?)
  {
    if list.Some? && list.value != [] {
      var items := list.value;
      var outs := BatchRun(cfg, sep, s, items, faults).0;
      forall i | 0 <= i < |items|
        ensures outs[i] == DeleteStep(cfg, sep, BatchRun(cfg, sep, s, items[..i], faults[..i]).1, items[i], faults[i]).0.Pass?
      {
        BatchRecordsEachItem(cfg, sep, s, items, faults, i);
      }
    }
  }

  /** Each variant reads only its own part of a locator: the local disk and
      OSS use relativePath and fileName, FastDFS uses group and path. */
  lemma DeleteReadsOnlyItsLocatorFields(cfg: FileServerProperties, sep: char, s: State,
                                        l1: FileDeleteDO, l2: FileDeleteDO, fault: bool)
    requires s.store.Dfs? ==> l1.group == l2.group && l1.path == l2.path
    requires !s.store.Dfs? ==> l1.relativePath == l2.relativePath && l1.fileName == l2.fileName
    ensures DeleteStep(cfg, sep, s, l1, fault) == DeleteStep(cfg, sep, s, l2, fault)
  {
  }

  /** After an accepted upload that did not fail, the store holds the payload
      where the record says: under the local path, under the OSS key with the
      upload's metadata, or under the FastDFS store path with size and extension. */
  lemma UploadStoresPayload(cfg: FileServerProperties, sep: char, s: State, mf: MultipartFile, env: Env)
    requires AcceptedName(mf.originalFilename) && !env.fault
    ensures var t := UploadState(cfg, sep, s, mf, env);
      var name := GeneratedName(env.uuid, "");
      match s.store
      case Disk(_) =>
        var at := LocalStorage.StoredAt(cfg.local, sep, "", env);
        t.store.Disk? && at in t.store.files && t.store.files[at] == mf.bytes
      case Oss(_, _) =>
        var bucket := cfg.ali.bucketName;
        var key := AliOss.ObjectKey(MonthDirectory(env.today, sep), name);
        t.store.Oss? && bucket in t.store.buckets && key in t.store.buckets[bucket] &&
        t.store.buckets[bucket][key] == AliOss.OssObject(mf.bytes, "attachment;fileName=" + mf.originalFilename.value, mf.contentType)
      case Dfs(_) =>
        t.store.Dfs? && env.storePath in t.store.entries &&
        t.store.entries[env.storePath] == FastDfs.DfsEntry(mf.bytes, |mf.bytes|, "")
  {
    AcceptedNameHasNoExtension(mf.originalFilename.value);
  }

  /** An OSS upload that fails after the client is built leaves it open; one
      that succeeds, or is refused before, leaves the count as it was. */
  lemma OssUploadLeaksOnFailure(cfg: FileServerProperties, sep: char, s: State, mf: MultipartFile, env: Env)
    requires s.store.Oss?
    ensures UploadState(cfg, sep, s, mf, env).store.Oss?
    ensures UploadState(cfg, sep, s, mf, env).store.openClients
         == s.store.openClients + (if AcceptedName(mf.originalFilename) && env.fault then 1 else 0)
  {
  }

  /** Before any upload the local variant's `properties` is still null, so every
      item of a batch throws and the batch answers false, changing nothing. */
  lemma {:induction false} LocalBatchBeforeUploadFails(cfg: FileServerProperties, sep: char, s: State,
                                                       items: seq<FileDeleteDO>, faults: seq<bool>)
    requires s.store.Disk? && s.properties.None? && |faults| == |items|
    ensures BatchRun(cfg, sep, s, items, faults).1 == s
    ensures true !in BatchRun(cfg, sep, s, items, faults).0
  {
    if items != [] {
      var k := |items| - 1;
      LocalBatchBeforeUploadFails(cfg, sep, s, items[..k], faults[..k]);
    }
  }

  /** Hence a non-empty batch on a fresh local strategy returns false. */
  lemma LocalDeleteBeforeUploadIsFalse(cfg: FileServerProperties, sep: char, s: State,
                                       items: seq<FileDeleteDO>, faults: seq<bool>)
    requires s.store.Disk? && s.properties.None? && |faults| == |items| && items != []
    ensures BatchDelete(cfg, sep, s, Some(items), faults) == (false, s)
  {
    LocalBatchBeforeUploadFails(cfg, sep, s, items, faults);
  }

  /** The files a batch's locators name under the local block `p`. */
  function LocalListed(p: StorageProperties, sep: char, items: seq<FileDeleteDO>): set<string> {
    set loc | loc in items :: LocalStorage.DeletedAt(p, sep, loc)
  }

  lemma LocalListedSnoc(p: StorageProperties, sep: char, items: seq<FileDeleteDO>)
    requires items != []
    ensures LocalListed(p, sep, items)
         == LocalListed(p, sep, items[..|items| - 1]) + {LocalStorage.DeletedAt(p, sep, items[|items| - 1])}
  {
    assert items == items[..|items| - 1] + [items[|items| - 1]];
  }

  /** Once `properties` is set, every local item returns normally whatever
      happens (`deleteQuietly` swallows errors): the batch answers true and the
      disk loses exactly the listed paths. */
  lemma {:induction false} LocalBatchRemovesListed(cfg: FileServerProperties, sep: char, s: State,
                                                   items: seq<FileDeleteDO>, faults: seq<bool>)
    requires s.store.Disk? && s.properties.Some? && |faults| == |items|
    ensures var (outs, t) := BatchRun(cfg, sep, s, items, faults);
      t.properties == s.properties && t.store.Disk? &&
      (forall i :: 0 <= i < |outs| ==> outs[i]) &&
      t.store.files.Keys == s.store.files.Keys - LocalListed(s.properties.value, sep, items)
  {
    if items != [] {
      var k := |items| - 1;
      LocalBatchRemovesListed(cfg, sep, s, items[..k], faults[..k]);
      var p := s.properties.value;
      var (outs0, mid) := BatchRun(cfg, sep, s, items[..k], faults[..k]);
      var at := LocalStorage.DeletedAt(p, sep, items[k]);
      var (o, t) := DeleteStep(cfg, sep, mid, items[k], faults[k]);
      assert BatchRun(cfg, sep, s, items, faults) == (outs0 + [o.Pass?], t);
      assert o.Pass? && t == State(s.properties, Disk(LocalStorage.DeleteQuietly(mid.store.files, at)));
      assert t.store.files.Keys == mid.store.files.Keys - {at};
      LocalListedSnoc(p, sep, items);
    }
  }

  /** A local delete repeated with the same locator changes nothing more and
      returns the same way. */
  lemma LocalDeleteIsIdempotent(cfg: FileServerProperties, sep: char, s: State, loc: FileDeleteDO, f1: bool, f2: bool)
    requires s.store.Disk?
    ensures var (o1, t1) := DeleteStep(cfg, sep, s, loc, f1);
      DeleteStep(cfg, sep, t1, loc, f2) == (o1, t1)
  {
    var (o1, t1) := DeleteStep(cfg, sep, s, loc, f1);
    if s.properties.Some? {
      var at := LocalStorage.DeletedAt(s.properties.value, sep, loc);
      assert t1.store.files - {at} == t1.store.files;
    }
  }

  /** The key of the FastDFS entry a locator names. */
  function DfsTarget(loc: FileDeleteDO): StorePath {
    StorePath(loc.group, loc.path)
  }

  /** The entries a batch's locators name. */
  function DfsListed(items: seq<FileDeleteDO>): set<StorePath> {
    set loc | loc in items :: DfsTarget(loc)
  }

  lemma DfsListedSnoc(items: seq<FileDeleteDO>)
    requires items != []
    ensures DfsListed(items) == DfsListed(items[..|items| - 1]) + {DfsTarget(items[|items| - 1])}
  {
    assert items == items[..|items| - 1] + [items[|items| - 1]];
  }

  /** A FastDFS batch without transport faults removes exactly the listed
      entries, and answers true exactly when at least one of them existed. */
  lemma {:induction false} DfsBatchRemovesListed(cfg: FileServerProperties, sep: char, s: State,
                                                 items: seq<FileDeleteDO>, faults: seq<bool>)
    requires s.store.Dfs? && |faults| == |items| && forall i :: 0 <= i < |faults| ==> !faults[i]
    ensures BatchRun(cfg, sep, s, items, faults).1.properties == s.properties
    ensures BatchRun(cfg, sep, s, items, faults).1.store.Dfs?
    ensures BatchRun(cfg, sep, s, items, faults).1.store.entries.Keys == s.store.entries.Keys - DfsListed(items)
    ensures (true in BatchRun(cfg, sep, s, items, faults).0) <==> DfsListed(items) * s.store.entries.Keys != {}
  {
    if items == [] {
      assert DfsListed(items) == {};
    } else {
      var k := |items| - 1;
      DfsBatchRemovesListed(cfg, sep, s, items[..k], faults[..k]);
      var before := DfsListed(items[..k]);
      var target := DfsTarget(items[k]);
      DfsListedSnoc(items);
      var keys := s.store.entries.Keys;
      var (outs0, mid) := BatchRun(cfg, sep, s, items[..k], faults[..k]);
      var (o, t) := DeleteStep(cfg, sep, mid, items[k], faults[k]);
      assert BatchRun(cfg, sep, s, items, faults) == (outs0 + [o.Pass?], t);
      assert o.Pass? <==> target in mid.store.entries;
      assert t.store.entries.Keys == mid.store.entries.Keys - {target};
      assert (true in outs0 + [o.Pass?]) <==> (true in outs0 || o.Pass?);
      if o.Pass? {
        assert target in DfsListed(items) * keys;
      } else if true in outs0 {
        var x :| x in before * keys;
        assert x in DfsListed(items) * keys;
      } else {
        assert before * keys == {};
        assert target !in keys || target in before;
        assert DfsListed(items) * keys == {};
      }
    }
  }

  /** A FastDFS locator deleted once is refused the second time. */
  lemma DfsSecondDeleteFails(cfg: FileServerProperties, sep: char, s: State, loc: FileDeleteDO, f2: bool)
    requires s.store.Dfs? && DeleteStep(cfg, sep, s, loc, false).0.Pass?
    ensures DeleteStep(cfg, sep, DeleteStep(cfg, sep, s, loc, false).1, loc, f2).0.Fail?
  {
  }

  /** How many items of a batch threw. */
  function Failures(outs: seq<bool>): (r: nat)
    ensures r <= |outs|
    ensures r == 0 <==> forall i :: 0 <= i < |outs| ==> outs[i]
  {
    if outs == [] then 0
    else Failures(outs[..|outs| - 1]) + (if outs[|outs| - 1] then 0 else 1)
  }

  /** Every OSS item that throws leaves its client open (`shutdown` is skipped),
      every item that returns closes its own: the open-client count grows by
      exactly the number of failed items. */
  lemma {:induction false} OssBatchLeaksOnePerFailure(cfg: FileServerProperties, sep: char, s: State,
                                                      items: seq<FileDeleteDO>, faults: seq<bool>)
    requires s.store.Oss? && |faults| == |items|
    ensures var (outs, t) := BatchRun(cfg, sep, s, items, faults);
      t.store.Oss? && t.store.openClients == s.store.openClients + Failures(outs)
  {
    if items != [] {
      var k := |items| - 1;
      OssBatchLeaksOnePerFailure(cfg, sep, s, items[..k], faults[..k]);
      var outs := BatchRun(cfg, sep, s, items, faults).0;
      assert outs[..k] == BatchRun(cfg, sep, s, items[..k], faults[..k]).0;
    }
  }

  /** With no configured bucket every OSS item throws: the batch answers false
      and leaks one client per item. */
  lemma {:induction false} OssBatchWithoutBucketFails(cfg: FileServerProperties, sep: char, s: State,
                                                      items: seq<FileDeleteDO>, faults: seq<bool>)
    requires s.store.Oss? && cfg.ali.bucketName !in s.store.buckets && |faults| == |items|
    ensures var (outs, t) := BatchRun(cfg, sep, s, items, faults);
      true !in outs && t.store == Oss(s.store.buckets, s.store.openClients + |items|)
  {
    if items != [] {
      var k := |items| - 1;
      OssBatchWithoutBucketFails(cfg, sep, s, items[..k], faults[..k]);
    }
  }

  /** Local round trip: deleting with the locator of the record an upload saved
      removes the file it wrote, leaving the disk as before the upload. */
  lemma LocalUploadThenDelete(cfg: FileServerProperties, sep: char, s: State, mf: MultipartFile, env: Env, fault: bool)
    requires s.store.Disk? && AcceptedName(mf.originalFilename) && !env.fault
    requires LocalStorage.StoredAt(cfg.local, sep, "", env) !in s.store.files
    ensures var s1 := UploadState(cfg, sep, s, mf, env);
      DeleteStep(cfg, sep, s1, LocatorOf(Placed(cfg, sep, s.store, "", env)), fault) == (Pass, State(Some(cfg.local), s.store))
  {
    var name := mf.originalFilename.value;
    AcceptedNameHasNoExtension(name);
    var at := LocalStorage.StoredAt(cfg.local, sep, "", env);
    LocalStorage.WriteThenDeleteRestores(s.store.files, at, mf.bytes);
  }

  /** FastDFS round trip: the group and path the record keeps delete the entry
      the upload stored, leaving the store as before the upload. */
  lemma DfsUploadThenDelete(cfg: FileServerProperties, sep: char, s: State, mf: MultipartFile, env: Env)
    requires s.store.Dfs? && AcceptedName(mf.originalFilename) && !env.fault
    requires env.storePath !in s.store.entries
    ensures var s1 := UploadState(cfg, sep, s, mf, env);
      DeleteStep(cfg, sep, s1, LocatorOf(Placed(cfg, sep, s.store, "", env)), false) == (Pass, s)
  {
    var name := mf.originalFilename.value;
    AcceptedNameHasNoExtension(name);
    FastDfs.DeleteFindsUploadedEntry(s.store.entries, env.storePath, mf.bytes, "");
    assert s.store.entries - {env.storePath} == s.store.entries;
  }

  /** OSS round trip: the relativePath and filename the record keeps name the
      object key the upload put; deleting with them removes that object and
      closes the client it opened. */
  lemma OssUploadThenDelete(cfg: FileServerProperties, sep: char, s: State, mf: MultipartFile, env: Env)
    requires s.store.Oss? && AcceptedName(mf.originalFilename) && !env.fault
    ensures var s1 := UploadState(cfg, sep, s, mf, env);
      var bucket := cfg.ali.bucketName;
      var key := AliOss.ObjectKey(MonthDirectory(env.today, sep), GeneratedName(env.uuid, ""));
      var (o, s2) := DeleteStep(cfg, sep, s1, LocatorOf(Placed(cfg, sep, s.store, "", env)), false);
      var withBucket := AliOss.EnsureBucket(s.store.buckets, bucket);
      o == Pass && s2.store.Oss? && s2.store.openClients == s.store.openClients &&
      s2.store.buckets == withBucket[bucket := withBucket[bucket] - {key}]
  {
    AcceptedNameHasNoExtension(mf.originalFilename.value);
    var bucket := cfg.ali.bucketName;
    var key := AliOss.ObjectKey(MonthDirectory(env.today, sep), GeneratedName(env.uuid, ""));
    var withBucket := AliOss.EnsureBucket(s.store.buckets, bucket);
    var put := withBucket[bucket][key := AliOss.ObjectFor(mf.bytes, mf.originalFilename.value, mf.contentType)];
    assert put - {key} == withBucket[bucket] - {key};
  }

  /** A twostate frame for `uploadFile`: the locator fields are assigned as the
      placement says (a setter the backend does not call leaves its field), the
      fields `upload` set are untouched. */
  twostate predicate Placing(file: File, pl: Placement)
    reads file
  {
    && file.isDelete == old(file.isDelete) && file.size == old(file.size)
    && file.contextType == old(file.contextType) && file.dataType == old(file.dataType)
    && file.submittedFileName == old(file.submittedFileName) && file.ext == old(file.ext)
    && file.icon == old(file.icon) && file.createMonth == old(file.createMonth)
    && file.createWeek == old(file.createWeek) && file.createDay == old(file.createDay)
    && file.url == Some(pl.url)
    && file.filename == Or(pl.filename, old(file.filename))
    && file.relativePath == Or(pl.relativePath, old(file.relativePath))
    && file.group == Or(pl.group, old(file.group))
    && file.path == Or(pl.path, old(file.path))
  }

  /** The fields `upload` gives the record for the part `mf` with submitted name
      `name`, before the variant stores it. */
  predicate Built(f: File, lookups: Lookups, mf: MultipartFile, name: string, ext: string, now: DateTime)
    reads f
  {
    && !f.isDelete && f.size == |mf.bytes| && f.contextType == mf.contentType
    && f.dataType == lookups.dataTypeOf(mf.contentType)
    && f.submittedFileName == name && f.ext == ext
    && f.icon == Some(lookups.iconOf(ext))
    && f.createMonth == Some(lookups.yearMonth(now))
    && f.createWeek == Some(lookups.yearWeek(now))
    && f.createDay == Some(lookups.monthDay(now))
  }

  /** The record `upload` hands back: the built fields and the locator fields
      of the placement. */
  predicate Records(f: File, lookups: Lookups, mf: MultipartFile, name: string, ext: string, now: DateTime, pl: Placement)
    reads f
  {
    && Built(f, lookups, mf, name, ext, now)
    && f.url == Some(pl.url) && f.filename == pl.filename && f.relativePath == pl.relativePath
    && f.group == pl.group && f.path == pl.path
  }

  /** A file storage strategy bean: the injected configuration and helpers, the
      platform separator, and the mutable `properties` field and backend. */
  class FileStrategy {
    const fileProperties: FileServerProperties
    const lookups: Lookups
    const separator: char
    var properties: Option<StorageProperties>
    var store: Store

    /** The mutable state as a value. */
    function Snapshot(): State
      reads this
    {
      State(properties, store)
    }

    /** The invariant `Upload` and `Delete` preserve: `properties` is null or the
        backend's own configuration block (see `ConsistentLocalDeleteUsesConfiguration`). */
    predicate Valid()
      reads this
    {
      Consistent(fileProperties, Snapshot())
    }

    /** A fresh bean: `properties` is still null. */
    constructor (fileProperties: FileServerProperties, lookups: Lookups, separator: char, store: Store)
      ensures this.fileProperties == fileProperties && this.lookups == lookups && this.separator == separator
      ensures properties.None? && this.store == store
      ensures Valid()
    {
      this.fileProperties := fileProperties;
      this.lookups := lookups;
      this.separator := separator;
      properties := None;
      this.store := store;
    }

    /** The setters a backend calls on the record once the payload is stored:
        `url` always, the others where the placement has a value. */
    static method SetLocator(file: File, pl: Placement)
      modifies file
      ensures Placing(file, pl)
    {
      file.url := Some(pl.url);
      if pl.filename.Some? {
        file.filename := pl.filename;
      }
      if pl.relativePath.Some? {
        file.relativePath := pl.relativePath;
      }
      if pl.group.Some? {
        file.group := pl.group;
      }
      if pl.path.Some? {
        file.path := pl.path;
      }
    }

    /** `LocalServiceImpl.uploadFile`. */
    method LocalUploadFile(file: File, mf: MultipartFile, env: Env) returns (o: Outcome)
      requires store.Disk?
      modifies this, file
      ensures Snapshot() == AfterUpload(fileProperties, separator, old(Snapshot()), mf.bytes,
                                        old(file.submittedFileName), old(file.contextType), old(file.ext), env)
      ensures o == (if env.fault then Fail(IoFailure) else Pass)
      ensures o.Fail? ==> unchanged(file)
      ensures o.Pass? ==> Placing(file, Placed(fileProperties, separator, old(store), old(file.ext), env))
    {
      properties := Some(fileProperties.local);
      var p := properties.value;
      var fileName := GeneratedName(env.uuid, file.ext);
      var relativePath := DayDirectory(env.today, separator);
      var outFile := LocalStorage.FilePath(separator, p.endpoint, p.bucketName, relativePath, fileName);
      if env.fault {
        return Fail(IoFailure);
      }
      store := Disk(LocalStorage.Write(store.files, outFile, mf.bytes));
      var url := LocalStorage.Url(BaseUriPrefix(p), p.bucketName, relativePath, fileName);
      SetLocator(file, Placement(url, Some(fileName), Some(relativePath), None, None));
      return Pass;
    }

    /** `AliServiceImpl.buildClient`: sets `properties` to the OSS block and
        opens a client. */
    method BuildOssClient()
      requires store.Oss?
      modifies this
      ensures properties == Some(fileProperties.ali)
      ensures store == Oss(old(store.buckets), old(store.openClients) + 1)
    {
      properties := Some(fileProperties.ali);
      store := Oss(store.buckets, store.openClients + 1);
    }

    /** `doesBucketExist` then `createBucket` when it does not. */
    method CreateBucketIfMissing(bucketName: string)
      requires store.Oss?
      modifies this
      ensures properties == old(properties)
      ensures store == Oss(AliOss.EnsureBucket(old(store.buckets), bucketName), old(store.openClients))
    {
      if bucketName !in store.buckets {
        store := Oss(store.buckets[bucketName := map[]], store.openClients);
      }
    }

    /** `client.shutdown()`. */
    method ShutdownOssClient()
      requires store.Oss? && store.openClients > 0
      modifies this
      ensures properties == old(properties)
      ensures store == Oss(old(store.buckets), old(store.openClients) - 1)
    {
      store := Oss(store.buckets, store.openClients - 1);
    }

    /** `AliServiceImpl.uploadFile`: builds a client, creates the bucket when
        missing, puts the object, fills the record and shuts the client down. */
    method AliUploadFile(file: File, mf: MultipartFile, env: Env) returns (o: Outcome)
      requires store.Oss?
      modifies this, file
      ensures Snapshot() == AfterUpload(fileProperties, separator, old(Snapshot()), mf.bytes,
                                        old(file.submittedFileName), old(file.contextType), old(file.ext), env)
      ensures o == (if env.fault then Fail(OssFailure) else Pass)
      ensures o.Fail? ==> unchanged(file)
      ensures o.Pass? ==> Placing(file, Placed(fileProperties, separator, old(store), old(file.ext), env))
    {
      ghost var after := AfterUpload(fileProperties, separator, Snapshot(), mf.bytes,
                                     file.submittedFileName, file.contextType, file.ext, env);
      BuildOssClient();
      var bucketName := properties.value.bucketName;
      CreateBucketIfMissing(bucketName);
      var fileName := GeneratedName(env.uuid, file.ext);
      var relativePath := MonthDirectory(env.today, separator);
      var relativeFileName := AliOss.ObjectKey(relativePath, fileName);
      var metadata := AliOss.ObjectFor(mf.bytes, file.submittedFileName, file.contextType);
      if env.fault {
        assert Snapshot() == after;
        return Fail(OssFailure);
      }
      store := Oss(AliOss.PutObject(store.buckets, bucketName, relativeFileName, metadata), store.openClients);
      var url := AliOss.Url(AliOss.UriPrefix(properties.value), relativeFileName);
      SetLocator(file, Placement(url, Some(fileName), Some(relativePath), Some(env.eTag), Some(env.requestId)));
      ShutdownOssClient();
      assert Snapshot() == after;
      return Pass;
    }

    /** `FastDfsServiceImpl.uploadFile`. */
    method FastDfsUploadFile(file: File, mf: MultipartFile, env: Env) returns (o: Outcome)
      requires store.Dfs?
      modifies this, file
      ensures Snapshot() == AfterUpload(fileProperties, separator, old(Snapshot()), mf.bytes,
                                        old(file.submittedFileName), old(file.contextType), old(file.ext), env)
      ensures o == (if env.fault then Fail(DfsFailure) else Pass)
      ensures o.Fail? ==> unchanged(file)
      ensures o.Pass? ==> Placing(file, Placed(fileProperties, separator, old(store), old(file.ext), env))
    {
      if env.fault {
        return Fail(DfsFailure);
      }
      var storePath := env.storePath;
      store := Dfs(FastDfs.Upload(store.entries, storePath, mf.bytes, file.ext));
      SetLocator(file, Placement(FastDfs.Url(fileProperties.uriPrefix, storePath), None, None,
                                 Some(storePath.group), Some(storePath.path)));
      return Pass;
    }

    /** The abstract `uploadFile`, dispatched to the variant. */
    method UploadFile(file: File, mf: MultipartFile, env: Env) returns (o: Outcome)
      modifies this, file
      ensures Snapshot() == AfterUpload(fileProperties, separator, old(Snapshot()), mf.bytes,
                                        old(file.submittedFileName), old(file.contextType), old(file.ext), env)
      ensures o.Pass? <==> !env.fault
      ensures o.Fail? ==> unchanged(file)
      ensures o.Pass? ==> Placing(file, Placed(fileProperties, separator, old(store), old(file.ext), env))
    {
      match store {
        case Disk(_) => o := LocalUploadFile(file, mf, env);
        case Oss(_, _) => o := AliUploadFile(file, mf, env);
        case Dfs(_) => o := FastDfsUploadFile(file, mf, env);
      }
    }

    /** The record `upload` builds before handing it to the variant: the builder
        fields, the icon and the creation partitions; no locator field is set. */
    method NewRecord(mf: MultipartFile, originalFilename: string, now: DateTime) returns (file: File)
      ensures fresh(file)
      ensures Built(file, lookups, mf, originalFilename, Extension(originalFilename), now)
      ensures file.url.None? && file.filename.None? && file.relativePath.None? && file.group.None? && file.path.None?
    {
      file := new File.Build(false, |mf.bytes|, mf.contentType, lookups.dataTypeOf(mf.contentType),
                             originalFilename, Extension(originalFilename));
      file.icon := Some(lookups.iconOf(file.ext));
      file.createMonth := Some(lookups.yearMonth(now));
      file.createWeek := Some(lookups.yearWeek(now));
      file.createDay := Some(lookups.monthDay(now));
    }

    /** `upload`: refuses a missing name or one that contains ".", builds the
        record, stamps icon and creation partitions, and hands it to the
        variant; any exception becomes the single "upload failed" error. */
    method Upload(mf: MultipartFile, env: Env) returns (r: Result<File>)
      requires Valid()
      modifies this
      ensures Valid()
      ensures Snapshot() == UploadState(fileProperties, separator, old(Snapshot()), mf, env)
      ensures r.Ok? <==> AcceptedName(mf.originalFilename) && !env.fault
      ensures r.Err? ==> r.message == UPLOAD_FAILED
      ensures r.Ok? ==> fresh(r.value) && r.value.ext == ""
      ensures r.Ok? ==> Records(r.value, lookups, mf, mf.originalFilename.value, "", env.now,
                                Placed(fileProperties, separator, old(store), "", env))
    {
      if mf.originalFilename.None? || Contains(mf.originalFilename.value, FILE_SPLIT) {
        return Err(UPLOAD_FAILED);
      }
      var originalFilename := mf.originalFilename.value;
      AcceptedNameHasNoExtension(originalFilename);
      var file := NewRecord(mf, originalFilename, env.now);
      ghost var before := Snapshot();
      var o := UploadFile(file, mf, env);
      UploadKeepsConsistent(fileProperties, separator, before, mf, env);
      if o.Fail? {
        return Err(UPLOAD_FAILED);
      }
      return Ok(file);
    }

    /** `LocalServiceImpl.delete`: reads `properties` without building it. */
    method LocalDelete(loc: FileDeleteDO, fault: bool) returns (o: Outcome)
      requires store.Disk?
      modifies this
      ensures (o, Snapshot()) == DeleteStep(fileProperties, separator, old(Snapshot()), loc, fault)
    {
      if properties.None? {
        return Fail(NullReference);
      }
      var p := properties.value;
      var filePath := LocalStorage.FilePath(separator, p.endpoint, p.bucketName, loc.relativePath, loc.fileName);
      store := Disk(LocalStorage.DeleteQuietly(store.files, filePath));
      return Pass;
    }

    /** `AliServiceImpl.delete`: builds a client, deletes the object and shuts
        the client down; an exception skips the shutdown. */
    method AliDelete(loc: FileDeleteDO, fault: bool) returns (o: Outcome)
      requires store.Oss?
      modifies this
      ensures (o, Snapshot()) == DeleteStep(fileProperties, separator, old(Snapshot()), loc, fault)
    {
      BuildOssClient();
      var bucketName := properties.value.bucketName;
      if fault || bucketName !in store.buckets {
        return Fail(OssFailure);
      }
      store := Oss(AliOss.DeleteObject(store.buckets, bucketName, AliOss.ObjectKey(loc.relativePath, loc.fileName)),
                   store.openClients);
      ShutdownOssClient();
      return Pass;
    }

    /** `FastDfsServiceImpl.delete`. */
    method FastDfsDelete(loc: FileDeleteDO, fault: bool) returns (o: Outcome)
      requires store.Dfs?
      modifies this
      ensures (o, Snapshot()) == DeleteStep(fileProperties, separator, old(Snapshot()), loc, fault)
    {
      var remaining := FastDfs.Delete(store.entries, StorePath(loc.group, loc.path));
      if fault || remaining.None? {
        return Fail(DfsFailure);
      }
      store := Dfs(remaining.value);
      return Pass;
    }

    /** The abstract `delete(FileDeleteDO)`, dispatched to the variant. */
    method DeleteOne(loc: FileDeleteDO, fault: bool) returns (o: Outcome)
      modifies this
      ensures (o, Snapshot()) == DeleteStep(fileProperties, separator, old(Snapshot()), loc, fault)
    {
      match store {
        case Disk(_) => o := LocalDelete(loc, fault);
        case Oss(_, _) => o := AliDelete(loc, fault);
        case Dfs(_) => o := FastDfsDelete(loc, fault);
      }
    }

    /** The batch `delete`: true for a null or empty list; otherwise every item
        is tried in turn, an exception is logged and the loop goes on, and the
        answer is whether any item returned normally. */
    method Delete(list: Option<seq<FileDeleteDO>>, faults: seq<bool>) returns (flag: bool)
      requires Valid()
      requires list.Some? ==> |faults| == |list.value|
      modifies this
      ensures Valid()
      ensures (flag, Snapshot()) == BatchDelete(fileProperties, separator, old(Snapshot()), list, faults)
    {
      if list.None? || list.value == [] {
        return true;
      }
      var items := list.value;
      ghost var start := Snapshot();
      flag := false;
      ghost var outs: seq<bool> := [];
      var i := 0;
      while i < |items|
        invariant 0 <= i <= |items|
        invariant BatchRun(fileProperties, separator, start, items[..i], faults[..i]) == (outs, Snapshot())
        invariant flag == (true in outs)
      {
        assert items[..i + 1][..i] == items[..i] && faults[..i + 1][..i] == faults[..i];
        var o := DeleteOne(items[i], faults[i]);
        if o.Pass? {
          flag := true;
        }
        outs := outs + [o.Pass?];
        i := i + 1;
      }
      assert items[..i] == items && faults[..i] == faults;
      BatchKeepsConsistent(fileProperties, separator, start, items, faults);
    }
  }
}
