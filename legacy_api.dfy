/**
 * The older single-file API (lambda/api/index.ts). Its gate, CORS headers and routing are the
 * ones of `Cors` and `Gateway`; what differs is how `uploadImage` and `getImages` resolve the
 * caller and treat a missing image, which this module models on the same bucket.
 */
module LegacyApi {
  import opened Wrappers
  import opened Text
  import opened Types
  import opened ImageStore

  /**
   * The caller's email, resolved inline: `shared` without a `Bearer` header, otherwise the
   * email attribute (or `shared`). A token the provider rejects makes the lookup throw, which
   * here ends in the 500 branch: None.
   */
  function LegacyUserEmail(authHeader: Option<string>, idp: Directory): (email: Option<string>)
    ensures authHeader.None? || !StartsWith(authHeader.value, Bearer) ==> email == Some(Shared)
    ensures authHeader.Some? && StartsWith(authHeader.value, Bearer) ==>
              (email.None? <==> Token(authHeader.value) !in idp)
    ensures email.Some? ==> email.value != ""
    ensures authHeader.Some? && StartsWith(authHeader.value, Bearer) && Token(authHeader.value) in idp ==>
              var attribute := EmailAttribute(idp[Token(authHeader.value)]);
              (attribute.Some? && attribute.value != "" ==> email == Some(attribute.value)) &&
              (attribute.None? || attribute.value == "" ==> email == Some(Shared))
  {
    if authHeader.None? || authHeader.value == "" || !StartsWith(authHeader.value, Bearer) then Some(Shared)
    else
      var token := Token(authHeader.value);
      if token !in idp then None
      else
        match EmailAttribute(idp[token])
        case Some(e) => if e != "" then Some(e) else Some(Shared)
        case None => Some(Shared)
  }

  /**
   * Where the two resolutions agree and where they part: whenever the legacy lookup does not
   * throw it finds the same email as `ImageStore.GetUserEmail`; a rejected token that the
   * newer handler files under `shared` is a failure here.
   */
  lemma LegacyEmailAgrees(authHeader: Option<string>, idp: Directory)
    ensures LegacyUserEmail(authHeader, idp).Some? ==>
              LegacyUserEmail(authHeader, idp) == Some(GetUserEmail(authHeader, idp))
    ensures LegacyUserEmail(authHeader, idp).None? ==> GetUserEmail(authHeader, idp) == Shared
  {
  }

  datatype LegacyUploadReply = LegacyUploaded(date: string) | LegacyUploadFailed

  /**
   * `uploadImage` of the older API. There is no check for missing image data: decoding an
   * absent value throws (500), and an empty string is stored as an empty image.
   */
  method LegacyUploadImage(b: Bucket, imageData: Option<string>, authHeader: Option<string>, idp: Directory,
                           today: string, decode: string -> Bytes, putSucceeds: bool)
    returns (reply: LegacyUploadReply)
    modifies b
    ensures LegacyUserEmail(authHeader, idp).None? || imageData.None? || !putSucceeds ==>
              reply == LegacyUploadFailed && b.objects == old(b.objects)
    ensures LegacyUserEmail(authHeader, idp).Some? && imageData.Some? && putSucceeds ==>
              reply == LegacyUploaded(today) &&
              b.objects == old(b.objects)[KeyFor(LegacyUserEmail(authHeader, idp).value, today) := decode(imageData.value)]
  {
    var email := LegacyUserEmail(authHeader, idp);
    if email.None? {
      return LegacyUploadFailed;
    }
    var key := KeyFor(email.value, today);
    if imageData.None? {
      return LegacyUploadFailed;
    }
    var buffer := decode(imageData.value);
    if !putSucceeds {
      return LegacyUploadFailed;
    }
    b.objects := b.objects[key := buffer];
    reply := LegacyUploaded(today);
  }

  /** `getImages` of the older API: the same listing, or None (500) when the lookup throws. */
  method LegacyGetImages(b: Bucket, authHeader: Option<string>, idp: Directory, presign: string -> string)
    returns (images: Option<seq<DailyImage>>)
    ensures images.None? <==> LegacyUserEmail(authHeader, idp).None?
    ensures images.Some? ==>
              (forall x :: x in images.value <==>
                 x in b.Listing(Prefix(LegacyUserEmail(authHeader, idp).value), presign)) &&
              (forall i, j :: 0 <= i < j < |images.value| ==> LexLe(images.value[j].date, images.value[i].date))
    ensures images.Some? ==>
              |images.value| == |b.ListedKeys(Prefix(LegacyUserEmail(authHeader, idp).value))| &&
              forall x :: multiset(images.value)[x] ==
                            |b.KeysShowing(Prefix(LegacyUserEmail(authHeader, idp).value), presign, x)|
  {
    var email := LegacyUserEmail(authHeader, idp);
    if email.None? {
      return None;
    }
    var listed := b.ListImagesFor(email.value, presign);
    images := Some(listed);
  }
}
