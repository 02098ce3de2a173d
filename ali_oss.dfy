/** The Aliyun OSS backend (`AliServiceImpl`): the URL prefix it derives from the
    endpoint, the object key and URL of an upload, and the object store as a map
    from bucket name to the objects in it. */
module AliOss {
  import opened Text
  import opened Layout
  import opened Files

  /** A stored object with the metadata the upload attaches. */
  datatype OssObject = OssObject(content: seq<byte>, contentDisposition: string, contentType: string)

  const HTTPS: string := "https://"
  const HTTP: string := "http://"
  const CONTENT_DISPOSITION: string := "attachment;fileName="

  /** "https://" when the endpoint mentions it anywhere, otherwise "http://". */
  function Scheme(endpoint: string): string {
    if Contains(endpoint, HTTPS) then HTTPS else HTTP
  }

  /** The overridden `getUriPrefix`: a configured prefix as is, otherwise
      scheme + bucket + "." + the endpoint with its first occurrence of the
      scheme removed. */
  function UriPrefix(p: StorageProperties): (r: string)
    ensures p.uriPrefix != "" ==> r == p.uriPrefix
    ensures p.uriPrefix == "" ==> StartsWith(r, Scheme(p.endpoint))
  {
    if p.uriPrefix != "" then p.uriPrefix
    else
      var scheme := Scheme(p.endpoint);
      var r := scheme + p.bucketName + "." + ReplaceFirst(p.endpoint, scheme, "");
      assert r[..|scheme|] == scheme;
      r
  }

  /** Without a configured prefix the value, for every endpoint: scheme, bucket,
      ".", then the endpoint with the first occurrence of the scheme cut out. */
  lemma UriPrefixCutsFirstScheme(p: StorageProperties)
    requires p.uriPrefix == ""
    ensures var scheme := Scheme(p.endpoint);
      var i := IndexOf(p.endpoint, scheme);
      UriPrefix(p) == scheme + p.bucketName + "." +
        (if i < 0 then p.endpoint else p.endpoint[..i] + p.endpoint[i + |scheme|..])
  {
    var scheme := Scheme(p.endpoint);
    var i := IndexOf(p.endpoint, scheme);
    if i >= 0 {
      var cut := ReplaceFirst(p.endpoint, scheme, "");
      assert cut == cut[..i] + cut[i..];
      assert cut == p.endpoint[..i] + p.endpoint[i + |scheme|..];
    }
  }

  /** Without a configured prefix, the URL is https exactly when the endpoint
      mentions "https://". */
  lemma UriPrefixSchemeFollowsEndpoint(p: StorageProperties)
    requires p.uriPrefix == ""
    ensures StartsWith(UriPrefix(p), HTTPS) <==> Contains(p.endpoint, HTTPS)
  {
    var r := UriPrefix(p);
    if !Contains(p.endpoint, HTTPS) {
      assert r[4] == HTTP[4] == ':';
      assert HTTPS[4] == 's';
    }
  }

  /** An endpoint written as scheme + host gives scheme + bucket + "." + host. */
  lemma UriPrefixForSchemedEndpoint(p: StorageProperties, host: string)
    requires p.uriPrefix == "" && p.endpoint == Scheme(p.endpoint) + host
    ensures UriPrefix(p) == Scheme(p.endpoint) + p.bucketName + "." + host
  {
    var scheme := Scheme(p.endpoint);
    assert p.endpoint[..|scheme|] == scheme;
    assert OccursAt(p.endpoint, scheme, 0);
    assert IndexOf(p.endpoint, scheme) == 0;
    assert p.endpoint[|scheme|..] == host;
  }

  /** An endpoint without any scheme gets "http://" + bucket + "." in front. */
  lemma UriPrefixForBareEndpoint(p: StorageProperties)
    requires p.uriPrefix == "" && !Contains(p.endpoint, HTTPS) && !Contains(p.endpoint, HTTP)
    ensures UriPrefix(p) == HTTP + p.bucketName + "." + p.endpoint
  {
  }

  /** The object key: relativePath + "/" + fileName. The two `StringUtils.replace`
      calls that follow discard their results, so the key keeps the platform
      separator of the relative path. */
  function ObjectKey(relativePath: string, fileName: string): (r: string)
    ensures |r| == |relativePath| + 1 + |fileName|
    ensures r[..|relativePath|] == relativePath && r[|relativePath|] == '/'
    ensures r[|relativePath| + 1..] == fileName
  {
    relativePath + "/" + fileName
  }

  /** The published URL: prefix + "/" + key with backslashes turned to "/". */
  function Url(prefix: string, key: string): (r: string)
    ensures '\\' !in r
  {
    NormaliseSeparators(prefix + "/" + key)
  }

  /** The record fields `uploadFile` sets: url, filename, relativePath, and the
      put result's ETag as group and request id as path. */
  function Place(prefix: string, sep: char, ext: string, env: Env): Placement {
    var name := GeneratedName(env.uuid, ext);
    var rel := MonthDirectory(env.today, sep);
    Placement(Url(prefix, ObjectKey(rel, name)), Some(name), Some(rel), Some(env.eTag), Some(env.requestId))
  }

  /** The object put for an upload, with its content-disposition and content-type metadata. */
  function ObjectFor(bytes: seq<byte>, submittedFileName: string, contentType: string): (r: OssObject)
    ensures r.content == bytes && r.contentType == contentType
    ensures StartsWith(r.contentDisposition, CONTENT_DISPOSITION)
    ensures r.contentDisposition[|CONTENT_DISPOSITION|..] == submittedFileName
  {
    OssObject(bytes, CONTENT_DISPOSITION + submittedFileName, contentType)
  }

  /** `doesBucketExist` / `createBucket`: afterwards the bucket exists; it is
      created empty exactly when it was missing, and no existing bucket changes. */
  function EnsureBucket(buckets: map<string, map<string, OssObject>>, name: string): (r: map<string, map<string, OssObject>>)
    ensures name in r
    ensures forall b :: b in buckets ==> b in r && r[b] == buckets[b]
    ensures forall b :: b in r ==> b in buckets || b == name
    ensures name !in buckets ==> r[name] == map[]
  {
    if name in buckets then buckets else buckets[name := map[]]
  }

  /** `putObject`: the object is stored under `key` in `bucket`, nothing else changes. */
  function PutObject(buckets: map<string, map<string, OssObject>>, bucket: string, key: string, obj: OssObject)
    : (r: map<string, map<string, OssObject>>)
    requires bucket in buckets
    ensures r.Keys == buckets.Keys
    ensures key in r[bucket] && r[bucket][key] == obj
    ensures forall k :: k != key ==> (k in r[bucket] <==> k in buckets[bucket])
    ensures forall k :: k in r[bucket] && k != key ==> r[bucket][k] == buckets[bucket][k]
    ensures forall b :: b in buckets && b != bucket ==> r[b] == buckets[b]
  {
    buckets[bucket := buckets[bucket][key := obj]]
  }

  /** `deleteObject`: the key is gone from the bucket (a missing key is no error). */
  function DeleteObject(buckets: map<string, map<string, OssObject>>, bucket: string, key: string)
    : (r: map<string, map<string, OssObject>>)
    requires bucket in buckets
    ensures r.Keys == buckets.Keys
    ensures key !in r[bucket]
    ensures forall k :: k != key ==> (k in r[bucket] <==> k in buckets[bucket])
    ensures forall k :: k in r[bucket] ==> r[bucket][k] == buckets[bucket][k]
    ensures forall b :: b in buckets && b != bucket ==> r[b] == buckets[b]
  {
    buckets[bucket := buckets[bucket] - {key}]
  }

  /** The object key keeps the platform separator of the month directory (at
      index 4): with "\" as separator the key holds a backslash. */
  lemma KeyKeepsPlatformSeparator(d: Date, name: string, sep: char)
    ensures |ObjectKey(MonthDirectory(d, sep), name)| > 4 && ObjectKey(MonthDirectory(d, sep), name)[4] == sep
  {
    assert MonthText(d)[4] == '/';
  }

  /** With "\" as separator the URL names the "/" form of the key, so the URL's
      path is not the key the object was stored under. */
  lemma UrlUsesSlashFormOfKey(prefix: string, d: Date, name: string)
    requires '\\' !in prefix && '\\' !in name
    ensures Url(prefix, ObjectKey(MonthDirectory(d, '\\'), name)) == prefix + "/" + ObjectKey(MonthText(d), name)
  {
    DateTextsArePlain(d);
    assert prefix + "/" + ObjectKey(MonthDirectory(d, '\\'), name) == (prefix + "/") + MonthDirectory(d, '\\') + ("/" + name);
    NormalisePlatformPath(prefix + "/", MonthText(d), "/" + name);
  }

  /** With "/" as separator the key is already clean and the URL is prefix + "/" + key. */
  lemma KeyAndUrlAgreeOnSlashPlatform(prefix: string, d: Date, name: string)
    requires '\\' !in prefix && '\\' !in name
    ensures Url(prefix, ObjectKey(MonthDirectory(d, '/'), name)) == prefix + "/" + ObjectKey(MonthText(d), name)
  {
    DateTextsArePlain(d);
    assert MonthDirectory(d, '/') == MonthText(d);
    NormaliseKeepsPlainText(prefix + "/" + ObjectKey(MonthText(d), name));
  }
}
