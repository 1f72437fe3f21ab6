/**
 * File storage: the object path an upload chooses, the public URL it returns, and the
 * path recovered from such a URL by delete and download. The bucket is a map from object
 * path to content.
 */
module Storage {
  import opened Outcomes
  import opened Text

  const BucketName: string := "documents"

  /** The piece every public URL carries before the bucket name. */
  const Marker: string := "/storage/v1/object/public/"

  type Blob = seq<bv8>

  class Bucket {
    var objects: map<string, Blob>

    constructor ()
      ensures objects == map[]
    {
      objects := map[];
    }
  }

  // ---------------------------------------------------------------- the object path

  predicate Allowed(ch: char) { 'a' <= ch <= 'z' || 'A' <= ch <= 'Z' || '0' <= ch <= '9' || ch == '.' || ch == '-' }

  /** `name.replace(/[^a-zA-Z0-9.-]/g, '_')`. */
  function Sanitize(name: string): (r: string)
    ensures |r| == |name|
    ensures forall i :: 0 <= i < |r| ==> r[i] == if Allowed(name[i]) then name[i] else '_'
  {
    if name == [] then [] else [if Allowed(name[0]) then name[0] else '_'] + Sanitize(name[1..])
  }

  /** A sanitized name holds only letters, digits, '.', '-' and '_', and sanitizing again changes nothing. */
  lemma SanitizeIsClean(name: string)
    ensures forall i :: 0 <= i < |Sanitize(name)| ==> Allowed(Sanitize(name)[i]) || Sanitize(name)[i] == '_'
    ensures '/' !in Sanitize(name)
    ensures Sanitize(Sanitize(name)) == Sanitize(name)
    ensures (forall i :: 0 <= i < |name| ==> Allowed(name[i])) ==> Sanitize(name) == name
  {
  }

  /**
   * uploadFile's path, `<user>/<name>`: with a non-empty `fileName` the name is
   * `<fileName>.<extension of the file's name>`, otherwise `<now>_<sanitized file name>`,
   * where `now` is `Date.now()`.
   */
  function ObjectPath(userId: string, fileName: Option<string>, originalName: string, now: nat): (p: string)
    ensures |userId| + 1 <= |p| && p[..|userId| + 1] == userId + "/"
    ensures p[|userId| + 1..] == ObjectName(fileName, originalName, now)
  {
    userId + "/" + ObjectName(fileName, originalName, now)
  }

  /**
   * With a chosen name: that name, a '.', and the file's extension (a dot-free tail of the
   * file's name). Without one: the timestamp's digits, '_', and the sanitized file name.
   */
  function ObjectName(fileName: Option<string>, originalName: string, now: nat): (n: string)
    ensures fileName.Some? && fileName.value != "" ==>
      var f := fileName.value;
      && |f| < |n| && n[..|f|] == f && n[|f|] == '.'
      && '.' !in n[|f| + 1..]
      && |n| - |f| - 1 <= |originalName| && n[|f| + 1..] == originalName[|originalName| - (|n| - |f| - 1)..]
    ensures !(fileName.Some? && fileName.value != "") ==>
      var t := Decimal(now);
      && |n| == |t| + 1 + |originalName| && n[..|t|] == t && n[|t|] == '_'
      && n[|t| + 1..] == Sanitize(originalName)
  {
    if fileName.Some? && fileName.value != ""
    then fileName.value + "." + AfterLast(originalName, '.')
    else Decimal(now) + "_" + Sanitize(originalName)
  }

  /** The object's name holds no '/' when neither the chosen name nor the file's name does. */
  lemma ObjectNameHasNoSlash(fileName: Option<string>, originalName: string, now: nat)
    requires '/' !in originalName
    requires fileName.Some? ==> '/' !in fileName.value
    ensures '/' !in ObjectName(fileName, originalName, now)
  {
    if fileName.Some? && fileName.value != "" {
      var ext := AfterLast(originalName, '.');
      assert forall i :: 0 <= i < |ext| ==> ext[i] == originalName[|originalName| - |ext| + i];
    } else {
      SanitizeIsClean(originalName);
      assert forall i :: 0 <= i < |Decimal(now)| ==> IsDigit(Decimal(now)[i]);
    }
  }

  /**
   * Every path lies in its user's own folder: it starts with `<user>/`, and two users whose
   * ids contain no '/' never write to the same path.
   */
  lemma UserFoldersDisjoint(u1: string, u2: string, f1: Option<string>, f2: Option<string>,
                            n1: string, n2: string, t1: nat, t2: nat)
    requires '/' !in u1 && '/' !in u2 && u1 != u2
    ensures ObjectPath(u1, f1, n1, t1)[..|u1| + 1] == u1 + "/"
    ensures ObjectPath(u1, f1, n1, t1) != ObjectPath(u2, f2, n2, t2)
  {
    var p1, p2 := ObjectPath(u1, f1, n1, t1), ObjectPath(u2, f2, n2, t2);
    assert p1[..|u1| + 1] == u1 + "/";
    assert p2[..|u2| + 1] == u2 + "/";
    if |u1| < |u2| {
      assert p1[|u1|] == '/' && p2[|u1|] == u2[|u1|];
    } else if |u2| < |u1| {
      assert p2[|u2|] == '/' && p1[|u2|] == u1[|u2|];
    } else {
      assert p1[..|u1|] == u1 && p2[..|u1|] == u2;
    }
  }

  /** `getPublicUrl(path)` for a project whose base URL is `projectUrl`. */
  function PublicUrl(projectUrl: string, path: string): (url: string)
    ensures |projectUrl| + |Marker| <= |url| && url[..|projectUrl|] == projectUrl && OccursAt(url, Marker, |projectUrl|)
    ensures url[|projectUrl| + |Marker|..] == BucketName + "/" + path
  {
    projectUrl + Marker + BucketName + "/" + path
  }

  // ---------------------------------------------------------------- recovering the path

  /** `url.split(sep)[1]`, or None when `url.split(sep)` has fewer than two parts. */
  function SecondPart(url: string, sep: string): (r: Option<string>)
    requires sep != []
    ensures r.None? <==> IndexFrom(url, sep, 0).None?
  {
    match IndexFrom(url, sep, 0)
    case None => None
    case Some(i) =>
      var start := i + |sep|;
      match IndexFrom(url, sep, start)
      case None => Some(url[start..])
      case Some(j) => Some(url[start..j])
  }

  /** `s.replace(pat, by)` with a string pattern: only the first occurrence is replaced. */
  function ReplaceFirst(s: string, pat: string, replacement: string): (r: string)
    ensures !Contains(s, pat) ==> r == s
    ensures Contains(s, pat) ==> |r| == |s| - |pat| + |replacement|
  {
    match IndexFrom(s, pat, 0)
    case None => s
    case Some(i) => s[..i] + replacement + s[i + |pat|..]
  }

  /** The path deleteFile and downloadFile derive from a public URL. */
  function ExtractPath(fileUrl: string): (r: Result<string>)
    ensures r.Err? <==> !Contains(fileUrl, Marker)
    ensures r.Err? ==> r.error == InvalidFileUrl
  {
    match SecondPart(fileUrl, Marker)
    case None =>
      assert !Contains(fileUrl, Marker) by {
        assert forall k: nat :: k <= |fileUrl| ==> !OccursAt(fileUrl, Marker, k);
      }
      Err(InvalidFileUrl)
    case Some(pathPart) =>
      Ok(ReplaceFirst(pathPart, BucketName + "/", ""))
  }

  lemma MarkerLetters()
    ensures |Marker| == 26
    ensures Marker[0] == '/' && Marker[1] == 's' && Marker[8] == '/' && Marker[11] == '/'
    ensures forall i :: 2 <= i < 26 ==> Marker[i] != 's'
  {
  }

  /**
   * The marker cannot begin inside the project URL unless the project URL already holds all
   * of the marker but its final '/': an 's' appears in the marker only at index 1.
   */
  lemma {:induction false} NoMarkerBefore(base: string, rest: string, k: nat)
    requires !Contains(base, Marker[..25])
    requires k < |base|
    ensures !OccursAt(base + Marker + rest, Marker, k)
  {
    var url := base + Marker + rest;
    MarkerLetters();
    if k + 25 <= |base| {
      assert !OccursAt(base, Marker[..25], k);
      assert url[k..k + 25] == base[k..k + 25];
    } else {
      var j := |base| - k;
      assert url[|base| + 1] == 's';
      assert Marker[j + 1] != 's';
    }
  }

  /** A string whose only '/' are at positions 0 and `a` holds no marker: the marker has three. */
  lemma TwoSlashesNoMarker(s: string, a: nat)
    requires forall i :: 0 <= i < |s| && s[i] == '/' ==> i == 0 || i == a
    ensures !Contains(s, Marker)
  {
    MarkerLetters();
    forall k: nat | k <= |s| ensures !OccursAt(s, Marker, k) {
      if k + 26 <= |s| && s[k] == '/' && s[k + 8] == '/' {
        assert s[k + 11] != '/';
      }
    }
  }

  /** Searching `Marker` in the tail `documents/<path>` behaves as in `/<path>`. */
  lemma {:induction false} NoMarkerInTail(path: string, k: nat)
    requires !Contains("/" + path, Marker)
    ensures !OccursAt(BucketName + "/" + path, Marker, k)
  {
    var tail := BucketName + "/" + path;
    MarkerLetters();
    if k < 9 {
      assert tail[k] != '/';
    } else if k + 26 <= |tail| {
      var s := "/" + path;
      assert !OccursAt(s, Marker, k - 9);
      assert tail[k..k + 26] == s[k - 9..k - 9 + 26];
    }
  }

  /** The bucket prefix at the head of the tail is the one `replace` removes. */
  lemma StripBucket(path: string)
    ensures ReplaceFirst(BucketName + "/" + path, BucketName + "/", "") == path
  {
    var tail := BucketName + "/" + path;
    assert OccursAt(tail, BucketName + "/", 0);
    assert IndexFrom(tail, BucketName + "/", 0) == Some(0);
    assert tail[..0] + "" + tail[10..] == path;
  }

  /** Splitting a public URL at the marker gives `documents/<path>` as its second part. */
  lemma SplitPublicUrl(projectUrl: string, path: string)
    requires !Contains(projectUrl, Marker[..25])
    requires !Contains("/" + path, Marker)
    ensures SecondPart(PublicUrl(projectUrl, path), Marker) == Some(BucketName + "/" + path)
  {
    var tail := BucketName + "/" + path;
    var url := projectUrl + Marker + tail;
    assert url == PublicUrl(projectUrl, path);
    forall k: nat | k < |projectUrl| ensures !OccursAt(url, Marker, k) {
      NoMarkerBefore(projectUrl, tail, k);
    }
    assert OccursAt(url, Marker, |projectUrl|);
    var start := |projectUrl| + |Marker|;
    assert IndexFrom(url, Marker, 0) == Some(|projectUrl|);
    forall k: nat | start <= k ensures !OccursAt(url, Marker, k) {
      NoMarkerInTail(path, k - start);
      if k + 26 <= |url| {
        assert url[k..k + 26] == tail[k - start..k - start + 26];
      }
    }
    assert IndexFrom(url, Marker, start) == None;
    assert url[start..] == tail;
  }

  /**
   * The public URL of an object gives back its path: under a project URL that does not
   * already hold the marker, and for a path that holds no marker after a leading '/'.
   */
  lemma ExtractPathInvertsPublicUrl(projectUrl: string, path: string)
    requires !Contains(projectUrl, Marker[..25])
    requires !Contains("/" + path, Marker)
    ensures ExtractPath(PublicUrl(projectUrl, path)) == Ok(path)
  {
    SplitPublicUrl(projectUrl, path);
    StripBucket(path);
  }

  /** In `/<user>/<name>` with no '/' inside user or name, the only '/' are the two separators. */
  lemma SlashesOfPath(userId: string, name: string)
    requires '/' !in userId && '/' !in name
    ensures var s := "/" + (userId + "/" + name);
      forall i :: 0 <= i < |s| && s[i] == '/' ==> i == 0 || i == |userId| + 1
  {
    var s := "/" + (userId + "/" + name);
    assert forall i :: 0 < i < |userId| + 1 ==> s[i] == userId[i - 1];
    assert forall i :: |userId| + 1 < i < |s| ==> s[i] == name[i - |userId| - 2];
  }

  /**
   * Every URL an upload returns leads back to the object it wrote, as long as the project URL
   * does not hold the marker and the user id and the chosen name contain no '/'.
   */
  lemma UploadedUrlLeadsBack(projectUrl: string, userId: string, fileName: Option<string>, originalName: string, now: nat)
    requires !Contains(projectUrl, Marker[..25])
    requires '/' !in userId && '/' !in originalName
    requires fileName.Some? ==> '/' !in fileName.value
    ensures ExtractPath(PublicUrl(projectUrl, ObjectPath(userId, fileName, originalName, now)))
         == Ok(ObjectPath(userId, fileName, originalName, now))
  {
    var name := ObjectName(fileName, originalName, now);
    ObjectNameHasNoSlash(fileName, originalName, now);
    SlashesOfPath(userId, name);
    TwoSlashesNoMarker("/" + (userId + "/" + name), |userId| + 1);
    ExtractPathInvertsPublicUrl(projectUrl, userId + "/" + name);
  }

  // ---------------------------------------------------------------- the operations

  /** uploadFile: writes (or overwrites, `upsert`) the object and returns its public URL. */
  method UploadFile(bucket: Bucket, user: Option<string>, originalName: string, content: Blob,
                    fileName: Option<string>, now: nat, projectUrl: string, uploadFails: bool)
    returns (result: Result<string>)
    modifies bucket
    ensures user.None? ==> result == Err(NotAuthenticated)
    ensures result.Ok? <==> user.Some? && !uploadFails
    ensures result.Err? ==> bucket.objects == old(bucket.objects)
    ensures result.Ok? ==>
      var path := ObjectPath(user.value, fileName, originalName, now);
      && bucket.objects == old(bucket.objects)[path := content]
      && result.value == PublicUrl(projectUrl, path)
  {
    if user.None? {
      return Err(NotAuthenticated);
    }
    var filePath := ObjectPath(user.value, fileName, originalName, now);
    if uploadFails {
      return Err(BackendError);
    }
    bucket.objects := bucket.objects[filePath := content];
    return Ok(PublicUrl(projectUrl, filePath));
  }

  /** deleteFile: removes the object the URL names; a URL without the marker is refused. */
  method DeleteFile(bucket: Bucket, user: Option<string>, fileUrl: string, removeFails: bool)
    returns (result: Result<()>)
    modifies bucket
    ensures user.None? ==> result == Err(NotAuthenticated)
    ensures user.Some? && !Contains(fileUrl, Marker) ==> result == Err(InvalidFileUrl)
    ensures result.Ok? <==> user.Some? && Contains(fileUrl, Marker) && !removeFails
    ensures result.Err? ==> bucket.objects == old(bucket.objects)
    ensures result.Ok? ==> bucket.objects == old(bucket.objects) - {ExtractPath(fileUrl).value}
  {
    if user.None? {
      return Err(NotAuthenticated);
    }
    var filePath := ExtractPath(fileUrl);
    if filePath.Err? {
      return Err(InvalidFileUrl);
    }
    if removeFails {
      return Err(BackendError);
    }
    bucket.objects := bucket.objects - {filePath.value};
    return Ok(());
  }

  /** downloadFile: the content of the object the URL names; a missing object is an error. */
  method DownloadFile(bucket: Bucket, user: Option<string>, fileUrl: string, downloadFails: bool)
    returns (result: Result<Blob>)
    ensures user.None? ==> result == Err(NotAuthenticated)
    ensures user.Some? && !Contains(fileUrl, Marker) ==> result == Err(InvalidFileUrl)
    ensures result.Ok? <==>
      user.Some? && ExtractPath(fileUrl).Ok? && !downloadFails && ExtractPath(fileUrl).value in bucket.objects
    ensures result.Ok? ==> result.value == bucket.objects[ExtractPath(fileUrl).value]
  {
    if user.None? {
      return Err(NotAuthenticated);
    }
    var filePath := ExtractPath(fileUrl);
    if filePath.Err? {
      return Err(InvalidFileUrl);
    }
    if downloadFails || filePath.value !in bucket.objects {
      return Err(BackendError);
    }
    return Ok(bucket.objects[filePath.value]);
  }
}
