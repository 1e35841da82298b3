/**
 * The video handlers (lambda/handlers/video.ts): starting a render and reporting its status.
 * The token check, the renderer, the clock and URL signing are parameters: the user the
 * token yields, the render id the renderer returns (None when it throws), the current
 * instant in milliseconds, and a signing function from (bucket, key) to a URL.
 */
module VideoService {
  import opened Wrappers
  import opened Text
  import opened Types

  const StatusPathMarker: string := "/video/status/"
  const S3Scheme: string := "s3://"

  /** `${user.sub}/${Date.now()}.mp4`, the file a render writes. */
  function OutName(sub: string, nowMs: nat): (name: string)
    ensures StartsWith(name, sub + "/")
  {
    var name := sub + "/" + NatToString(nowMs) + ".mp4";
    assert name[..|sub + "/"|] == sub + "/";
    name
  }

  /** Renders one user starts at different instants write different files. */
  lemma OutNameInjective(sub: string, t1: nat, t2: nat)
    requires OutName(sub, t1) == OutName(sub, t2)
    ensures t1 == t2
  {
    var n := |sub| + 1;
    var a, b := NatToString(t1), NatToString(t2);
    assert OutName(sub, t1)[n..|OutName(sub, t1)| - 4] == a;
    assert OutName(sub, t2)[n..|OutName(sub, t2)| - 4] == b;
    NatToStringInjective(t1, t2);
  }

  datatype RenderReply =
    | RenderUnauthorized
    | NoImages
    | RenderStarted(renderId: string, bucketName: string, outName: string)
    | RenderFailed

  /**
   * `renderVideo`: 401 without a user, 400 without images, otherwise the renderer is started
   * on `{sub}/{now}.mp4` in the videos bucket; `launched` is the id it returns, None if it throws.
   */
  function RenderVideo(user: Option<User>, images: Option<seq<DailyImage>>, videosBucket: string,
                       nowMs: nat, launched: Option<string>): (reply: RenderReply)
    ensures user.None? <==> reply == RenderUnauthorized
    ensures reply == NoImages <==> user.Some? && (images.None? || images.value == [])
    ensures reply.RenderStarted? <==> user.Some? && images.Some? && images.value != [] && launched.Some?
    ensures reply.RenderStarted? ==>
              reply.renderId == launched.value && reply.bucketName == videosBucket &&
              StartsWith(reply.outName, user.value.sub + "/")
    ensures reply.RenderStarted? ==> reply.outName == OutName(user.value.sub, nowMs)
  {
    if user.None? then RenderUnauthorized
    else if images.None? || |images.value| == 0 then NoImages
    else
      var outName := OutName(user.value.sub, nowMs);
      match launched
      case None => RenderFailed
      case Some(renderId) => RenderStarted(renderId, videosBucket, outName)
  }

  /**
   * `path.split('/video/status/')[1]`: the text after the first marker, up to the next one;
   * None when the marker does not occur.
   */
  function SegmentAfter(path: string, marker: string): Option<string>
    requires |marker| > 0
  {
    match IndexOf(path, marker)
    case None => None
    case Some(i) =>
      var rest := path[i + |marker|..];
      match IndexOf(rest, marker)
      case None => Some(rest)
      case Some(j) => Some(rest[..j])
  }

  /** `pathParameters?.renderId || path?.split('/video/status/')[1]`; empty counts as missing. */
  function RenderIdOf(pathRenderId: Option<string>, path: Option<string>): (id: Option<string>)
    ensures id.Some? ==> id.value != ""
    ensures pathRenderId.Some? && pathRenderId.value != "" ==> id == pathRenderId
  {
    if pathRenderId.Some? && pathRenderId.value != "" then pathRenderId
    else if path.None? then None
    else
      match SegmentAfter(path.value, StatusPathMarker)
      case Some(s) => if s != "" then Some(s) else None
      case None => None
  }

  /** Without a path parameter, the id is read from a status path `/video/status/{id}`. */
  lemma RenderIdFromPath(id: string)
    requires id != "" && '/' !in id
    ensures RenderIdOf(None, Some(StatusPathMarker + id)) == Some(id)
  {
    var path := StatusPathMarker + id;
    assert path[..|StatusPathMarker|] == StatusPathMarker;
    IndexOfAtStart(path, StatusPathMarker);
    assert path[|StatusPathMarker|..] == id;
    IndexOfAbsent(id, StatusPathMarker);
  }

  /** A render's progress as the renderer reports it. */
  datatype Progress = Progress(done: bool, overallProgress: real, outputFile: Option<string>)

  /** A value spliced into a template: an absent one is written `undefined`. */
  function Spliced(value: Option<string>): string {
    value.GetOr("undefined")
  }

  /** `renders/{renderId}/{outName}` */
  function RenderKey(renderId: string, outName: string): string {
    "renders/" + renderId + "/" + outName
  }

  /** The progress assumed when the progress query throws: finished, at the expected place. */
  function Stub(videosBucket: string, renderId: string, outName: Option<string>): (p: Progress)
    ensures p.done && p.overallProgress == 1.0
    ensures p.outputFile == Some(S3Scheme + videosBucket + "/" + RenderKey(renderId, Spliced(outName)))
  {
    Progress(true, 1.0, Some(S3Scheme + videosBucket + "/" + RenderKey(renderId, Spliced(outName))))
  }

  /** Length of the longest leading run of `s` free of `/` (the regex `[^/]+`, taken greedily). */
  function NonSlashRun(s: string): (n: nat)
    ensures n <= |s| && (n < |s| ==> s[n] == '/')
    ensures forall i :: 0 <= i < n ==> s[i] != '/'
  {
    if s == [] || s[0] == '/' then 0 else 1 + NonSlashRun(s[1..])
  }

  /** `url.match(/s3:\/\/([^/]+)/)?.[1]`: the bucket after the leftmost `s3://` that has one. */
  function BucketOfUrl(url: string): (bucket: Option<string>)
    ensures bucket.Some? ==> bucket.value != "" && '/' !in bucket.value
    decreases |url|
  {
    if StartsWith(url, S3Scheme) && NonSlashRun(url[5..]) >= 1 then
      var b := url[5..5 + NonSlashRun(url[5..])];
      assert forall i :: 0 <= i < |b| ==> b[i] == url[5..][i];
      Some(b)
    else if url == [] then None
    else BucketOfUrl(url[1..])
  }

  /** `url.replace(/s3:\/\/[^/]+\//, '')`: deletes the leftmost `s3://bucket/`, if any. */
  function KeyOfUrl(url: string): (key: string)
    ensures |key| <= |url|
    ensures BucketOfUrl(url).None? ==> key == url
    decreases |url|
  {
    if StartsWith(url, S3Scheme) && 1 <= NonSlashRun(url[5..]) < |url[5..]| then
      url[5 + NonSlashRun(url[5..]) + 1..]
    else if url == [] then url
    else [url[0]] + KeyOfUrl(url[1..])
  }

  lemma {:induction false} RunStopsAtSlash(b: string, rest: string)
    requires '/' !in b
    ensures NonSlashRun(b + "/" + rest) == |b|
    decreases |b|
  {
    if b != [] {
      assert (b + "/" + rest)[1..] == b[1..] + "/" + rest;
      RunStopsAtSlash(b[1..], rest);
    }
  }

  /** `s3://B/K`, with `B` non-empty and free of `/`, parses back to bucket `B` and key `K`. */
  lemma ParseS3Url(bucket: string, key: string)
    requires bucket != "" && '/' !in bucket
    ensures BucketOfUrl(S3Scheme + bucket + "/" + key) == Some(bucket)
    ensures KeyOfUrl(S3Scheme + bucket + "/" + key) == key
  {
    var url := S3Scheme + bucket + "/" + key;
    assert url[..5] == S3Scheme;
    assert url[5..] == bucket + "/" + key;
    RunStopsAtSlash(bucket, key);
    assert url[5..5 + |bucket|] == bucket;
    assert url[5 + |bucket| + 1..] == key;
  }

  /** The signed URL in a status reply, given the progress the handler ended up with. */
  function OutputFileOf(progress: Progress, renderId: string, outName: Option<string>,
                        videosBucket: string, sign: (string, string) -> string): (url: Option<string>)
    ensures url.Some? ==> progress.done
    ensures progress.done && outName.Some? && outName.value != "" ==>
              url == Some(sign(videosBucket, RenderKey(renderId, outName.value)))
    ensures (outName.None? || outName.value == "") && (progress.outputFile.None? || progress.outputFile.value == "") ==>
              url.None?
    ensures (outName.None? || outName.value == "") && progress.outputFile.Some? &&
              BucketOfUrl(progress.outputFile.value).None? ==>
              url.None?
    ensures progress.done && (outName.None? || outName.value == "") && progress.outputFile.Some? &&
              BucketOfUrl(progress.outputFile.value).Some? && KeyOfUrl(progress.outputFile.value) != "" ==>
              url == Some(sign(BucketOfUrl(progress.outputFile.value).value, KeyOfUrl(progress.outputFile.value)))
    ensures (outName.None? || outName.value == "") && progress.outputFile.Some? &&
              KeyOfUrl(progress.outputFile.value) == "" ==>
              url.None?
  {
    if !progress.done then None
    else if outName.Some? && outName.value != "" then Some(sign(videosBucket, RenderKey(renderId, outName.value)))
    else if progress.outputFile.Some? && progress.outputFile.value != "" then
      var bucket := BucketOfUrl(progress.outputFile.value);
      var key := KeyOfUrl(progress.outputFile.value);
      if bucket.Some? && key != "" then Some(sign(bucket.value, key)) else None
    else None
  }

  datatype StatusReply =
    | StatusUnauthorized
    | RenderIdRequired
    | Status(done: bool, overallProgress: real, outputFile: Option<string>)

  /**
   * `getRenderStatus`. `reported` is what the progress query returns, None when it throws.
   */
  method GetRenderStatus(user: Option<User>, pathRenderId: Option<string>, path: Option<string>,
                         outName: Option<string>, reported: Option<Progress>, videosBucket: string,
                         sign: (string, string) -> string)
    returns (reply: StatusReply)
    ensures user.None? ==> reply == StatusUnauthorized
    ensures user.Some? && RenderIdOf(pathRenderId, path).None? ==> reply == RenderIdRequired
    ensures user.Some? && RenderIdOf(pathRenderId, path).Some? ==>
              var renderId := RenderIdOf(pathRenderId, path).value;
              var progress := reported.GetOr(Stub(videosBucket, renderId, outName));
              reply == Status(progress.done, progress.overallProgress,
                              OutputFileOf(progress, renderId, outName, videosBucket, sign))
    ensures reply.Status? && !reply.done ==> reply.outputFile.None?
  {
    if user.None? {
      return StatusUnauthorized;
    }
    var renderId := RenderIdOf(pathRenderId, path);
    if renderId.None? {
      return RenderIdRequired;
    }
    var progress;
    if reported.Some? {
      progress := reported.value;
    } else {
      progress := Stub(videosBucket, renderId.value, outName);
    }
    var outputFile: Option<string> := None;
    if progress.done {
      if outName.Some? && outName.value != "" {
        outputFile := Some(sign(videosBucket, RenderKey(renderId.value, outName.value)));
      } else if progress.outputFile.Some? && progress.outputFile.value != "" {
        var s3Url := progress.outputFile.value;
        var bucketName := BucketOfUrl(s3Url);
        var key := KeyOfUrl(s3Url);
        if bucketName.Some? && key != "" {
          outputFile := Some(sign(bucketName.value, key));
        }
      }
    }
    reply := Status(progress.done, progress.overallProgress, outputFile);
  }

  /**
   * A finished render with no stored file name is served from the bucket and key of the
   * `s3://B/K` URL the progress reports.
   */
  lemma S3FallbackSigned(progress: Progress, renderId: string, outName: Option<string>, videosBucket: string,
                         sign: (string, string) -> string, bucket: string, key: string)
    requires progress.done && (outName.None? || outName.value == "")
    requires progress.outputFile == Some(S3Scheme + bucket + "/" + key)
    requires bucket != "" && '/' !in bucket && key != ""
    ensures OutputFileOf(progress, renderId, outName, videosBucket, sign) == Some(sign(bucket, key))
  {
    ParseS3Url(bucket, key);
  }

  /** A finished render whose file name is known is served from `renders/{id}/{outName}`. */
  lemma DoneWithOutName(progress: Progress, renderId: string, name: string, videosBucket: string,
                        sign: (string, string) -> string)
    requires progress.done && name != ""
    ensures OutputFileOf(progress, renderId, Some(name), videosBucket, sign) ==
            Some(sign(videosBucket, RenderKey(renderId, name)))
  {
  }

  /**
   * When the progress query fails and no file name was passed, the stub's URL still parses,
   * and a URL is signed for the key `renders/{id}/undefined` in the videos bucket.
   */
  lemma StubWithoutOutName(renderId: string, videosBucket: string, sign: (string, string) -> string)
    requires videosBucket != "" && '/' !in videosBucket
    ensures OutputFileOf(Stub(videosBucket, renderId, None), renderId, None, videosBucket, sign) ==
            Some(sign(videosBucket, RenderKey(renderId, "undefined")))
  {
    ParseS3Url(videosBucket, RenderKey(renderId, "undefined"));
  }

  /** A URL with an empty key (`s3://B/`) yields no output file. */
  lemma EmptyKeyNoOutput(bucket: string, renderId: string, videosBucket: string, sign: (string, string) -> string)
    requires bucket != "" && '/' !in bucket
    ensures OutputFileOf(Progress(true, 1.0, Some(S3Scheme + bucket + "/")), renderId, None, videosBucket, sign).None?
  {
    ParseS3Url(bucket, "");
    assert S3Scheme + bucket + "/" + "" == S3Scheme + bucket + "/";
  }
}
