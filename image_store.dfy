/**
 * The daily-image handlers (lambda/handlers/images.ts): who the caller is, where their image
 * of the day is stored, and how their images are listed back. The bucket is a map from
 * object keys to bytes; the identity provider, base64 decoding and URL signing are parameters.
 */
module ImageStore {
  import opened Wrappers
  import opened Text
  import opened Types
  import opened Lists

  type Bytes = seq<bv8>

  /** A user attribute as the identity provider reports it. */
  datatype Attribute = Attribute(name: string, value: Option<string>)

  /** What the identity provider answers for a valid access token. */
  datatype IdpUser = IdpUser(attributes: Option<seq<Attribute>>)

  /** The identity provider: the tokens it accepts. A lookup of any other token throws. */
  type Directory = map<string, IdpUser>

  const Shared: string := "shared"
  const Bearer: string := "Bearer "
  const KeyRoot: string := "daily-images/"
  const Extension: string := ".jpg"

  /** `attrs.find(a => a.Name === name)` */
  function FindAttribute(attrs: seq<Attribute>, name: string): (r: Option<Attribute>)
    ensures r.None? <==> forall i :: 0 <= i < |attrs| ==> attrs[i].name != name
    ensures r.Some? ==> exists i :: 0 <= i < |attrs| && attrs[i] == r.value &&
                          forall j :: 0 <= j < i ==> attrs[j].name != name
  {
    if attrs == [] then None
    else if attrs[0].name == name then Some(attrs[0])
    else
      var r := FindAttribute(attrs[1..], name);
      assert forall i :: 1 <= i < |attrs| ==> attrs[i] == attrs[1..][i - 1];
      r
  }

  /** `UserAttributes?.find(a => a.Name === 'email')?.Value`, absent when any step is. */
  function EmailAttribute(user: IdpUser): Option<string> {
    match user.attributes
    case None => None
    case Some(attrs) =>
      match FindAttribute(attrs, "email")
      case None => None
      case Some(a) => a.value
  }

  /** The access token inside a `Bearer` header: `authHeader.substring(7)`. */
  function Token(authHeader: string): (token: string)
    requires StartsWith(authHeader, Bearer)
    ensures authHeader == Bearer + token
  {
    authHeader[|Bearer|..]
  }

  /**
   * The caller's email, or `shared` whenever there is no usable one: no header, a header
   * that is not a `Bearer` token, a token the provider rejects, or no non-empty email.
   */
  function GetUserEmail(authHeader: Option<string>, idp: Directory): (email: string)
    ensures email != ""
    ensures authHeader.None? || !StartsWith(authHeader.value, Bearer) ==> email == Shared
    ensures authHeader.Some? && StartsWith(authHeader.value, Bearer) && Token(authHeader.value) !in idp ==>
              email == Shared
    ensures email != Shared ==>
              authHeader.Some? && StartsWith(authHeader.value, Bearer) && Token(authHeader.value) in idp &&
              EmailAttribute(idp[Token(authHeader.value)]) == Some(email)
    ensures authHeader.Some? && StartsWith(authHeader.value, Bearer) && Token(authHeader.value) in idp ==>
              var attribute := EmailAttribute(idp[Token(authHeader.value)]);
              (attribute.Some? && attribute.value != "" ==> email == attribute.value) &&
              (attribute.None? || attribute.value == "" ==> email == Shared)
  {
    if authHeader.None? || authHeader.value == "" || !StartsWith(authHeader.value, Bearer) then Shared
    else
      var token := Token(authHeader.value);
      if token !in idp then Shared
      else
        match EmailAttribute(idp[token])
        case Some(e) => if e != "" then e else Shared
        case None => Shared
  }

  /** `daily-images/{email}/`, the folder of one user. */
  function Prefix(email: string): string {
    KeyRoot + email + "/"
  }

  /** `daily-images/{email}/{date}.jpg`, the key of one user's image of one day. */
  function KeyFor(email: string, date: string): (key: string)
    ensures StartsWith(key, Prefix(email)) && key != Prefix(email)
  {
    var key := Prefix(email) + date + Extension;
    assert key[..|Prefix(email)|] == Prefix(email);
    key
  }

  /** The date a listed key stands for: the key with the folder and `.jpg` removed (first occurrences). */
  function DateOfKey(key: string, prefix: string): string {
    RemoveFirst(RemoveFirst(key, prefix), Extension)
  }

  /** Reading the date back from the key written for it gives that date, for dot-free dates. */
  lemma KeyRoundTrip(email: string, date: string)
    requires '.' !in date
    ensures DateOfKey(KeyFor(email, date), Prefix(email)) == date
  {
    var key := KeyFor(email, date);
    var prefix := Prefix(email);
    var file := date + Extension;
    assert key == prefix + file;
    RemoveLeading(key, prefix);
    assert key[|prefix|..] == file;
    assert Extension[0] == '.';
    RemoveTrailing(date, Extension);
  }

  /** Distinct (user, day) pairs get distinct keys, so there is one object per user per day. */
  lemma KeyInjective(e1: string, d1: string, e2: string, d2: string)
    requires '/' !in e1 && '/' !in e2
    requires KeyFor(e1, d1) == KeyFor(e2, d2)
    ensures e1 == e2 && d1 == d2
  {
    if e1 != e2 {
      OtherFolder(e1, e2, d2);
    }
    var n := |Prefix(e1)|;
    assert KeyFor(e1, d1)[n..] == d1 + Extension;
    assert KeyFor(e2, d2)[n..] == d2 + Extension;
    assert d1 == (d1 + Extension)[..|d1|];
  }

  /** No key of another user lies in a user's folder (emails contain no `/`). */
  lemma OtherFolder(e1: string, e2: string, d: string)
    requires '/' !in e1 && '/' !in e2 && e1 != e2
    ensures !StartsWith(KeyFor(e2, d), Prefix(e1))
  {
    var key := KeyFor(e2, d);
    var p := Prefix(e1);
    var r := |KeyRoot|;
    assert key == KeyRoot + e2 + "/" + d + Extension;
    if |e1| < |e2| {
      assert key[r + |e1|] == e2[|e1|] && p[r + |e1|] == '/';
      NotPrefixAt(key, p, r + |e1|);
    } else if |e2| < |e1| {
      assert key[r + |e2|] == '/' && p[r + |e2|] == e1[|e2|];
      NotPrefixAt(key, p, r + |e2|);
    } else {
      var j :| 0 <= j < |e1| && e1[j] != e2[j];
      assert key[r + j] == e2[j] && p[r + j] == e1[j];
      NotPrefixAt(key, p, r + j);
    }
  }

  /** One listed object as the client sees it. */
  function ImageOf(key: string, prefix: string, presign: string -> string): DailyImage {
    DailyImage(DateOfKey(key, prefix), presign(key))
  }

  /** What the listing loop pushes for `keys`, in order: every key but the bare folder key. */
  function Collect(keys: seq<string>, prefix: string, presign: string -> string): seq<DailyImage> {
    if keys == [] then []
    else
      var last := keys[|keys| - 1];
      Collect(keys[..|keys| - 1], prefix, presign) + (if last != prefix then [ImageOf(last, prefix, presign)] else [])
  }

  /** The collected images are exactly the images of the keys other than the folder key. */
  lemma {:induction false} CollectMembers(keys: seq<string>, prefix: string, presign: string -> string)
    ensures forall x :: x in Collect(keys, prefix, presign) <==>
              exists k :: k in keys && k != prefix && x == ImageOf(k, prefix, presign)
  {
    if keys != [] {
      var init := keys[..|keys| - 1];
      var last := keys[|keys| - 1];
      CollectMembers(init, prefix, presign);
      assert keys == init + [last];
      assert forall k :: k in keys <==> k in init || k == last;
    }
  }

  /** No key occurs twice. */
  predicate Distinct(keys: seq<string>) {
    forall i, j :: 0 <= i < j < |keys| ==> keys[i] != keys[j]
  }

  /** Key `k` is listed as image `x`. */
  predicate Shows(k: string, prefix: string, presign: string -> string, x: DailyImage) {
    k != prefix && ImageOf(k, prefix, presign) == x
  }

  /** Over distinct keys, each image is collected once for every non-folder key that shows it. */
  lemma {:induction false} CollectCount(keys: seq<string>, prefix: string, presign: string -> string, x: DailyImage)
    requires Distinct(keys)
    ensures multiset(Collect(keys, prefix, presign))[x] == |set k | k in keys && Shows(k, prefix, presign, x)|
  {
    if keys != [] {
      var init := keys[..|keys| - 1];
      var last := keys[|keys| - 1];
      assert keys == init + [last];
      LastNotEarlier(init, last);
      CollectCount(init, prefix, presign, x);
      CollectCountStep(init, last, prefix, presign, x);
      ShowingStep(init, last, prefix, presign, x);
    }
  }

  lemma CollectCountStep(init: seq<string>, last: string, prefix: string, presign: string -> string, x: DailyImage)
    ensures multiset(Collect(init + [last], prefix, presign))[x] ==
            multiset(Collect(init, prefix, presign))[x] + (if Shows(last, prefix, presign, x) then 1 else 0)
  {
    CollectOneMore(init, last, prefix, presign);
  }

  /** Over distinct keys, one image is collected per non-folder key. */
  lemma {:induction false} CollectLength(keys: seq<string>, prefix: string, presign: string -> string)
    requires Distinct(keys)
    ensures |Collect(keys, prefix, presign)| == |set k | k in keys && k != prefix|
  {
    if keys != [] {
      var init := keys[..|keys| - 1];
      var last := keys[|keys| - 1];
      assert keys == init + [last];
      LastNotEarlier(init, last);
      CollectLength(init, prefix, presign);
      CollectOneMore(init, last, prefix, presign);
      ListedStep(init, last, prefix);
    }
  }

  /** In a list without repeats, the last key does not occur before it, and the rest has no repeats. */
  lemma LastNotEarlier(init: seq<string>, last: string)
    requires Distinct(init + [last])
    ensures last !in init && Distinct(init)
  {
    var keys := init + [last];
    forall i | 0 <= i < |init|
      ensures init[i] != last
    {
      assert init[i] == keys[i] && last == keys[|init|];
    }
    forall i, j | 0 <= i < j < |init|
      ensures init[i] != init[j]
    {
      assert init[i] == keys[i] && init[j] == keys[j];
    }
  }

  lemma ShowingStep(init: seq<string>, last: string, prefix: string, presign: string -> string, x: DailyImage)
    requires last !in init
    ensures |set k | k in init + [last] && Shows(k, prefix, presign, x)| ==
            |set k | k in init && Shows(k, prefix, presign, x)| + (if Shows(last, prefix, presign, x) then 1 else 0)
  {
    var a := set k | k in init && Shows(k, prefix, presign, x);
    var b := set k | k in init + [last] && Shows(k, prefix, presign, x);
    if Shows(last, prefix, presign, x) {
      assert b == a + {last};
    } else {
      assert b == a;
    }
  }

  lemma ListedStep(init: seq<string>, last: string, prefix: string)
    requires last !in init
    ensures |set k | k in init + [last] && k != prefix| ==
            |set k | k in init && k != prefix| + (if last != prefix then 1 else 0)
  {
    var a := set k | k in init && k != prefix;
    var b := set k | k in init + [last] && k != prefix;
    if last != prefix {
      assert b == a + {last};
    } else {
      assert b == a;
    }
  }

  lemma CollectOneMore(keys: seq<string>, k: string, prefix: string, presign: string -> string)
    ensures Collect(keys + [k], prefix, presign) ==
            Collect(keys, prefix, presign) + (if k != prefix then [ImageOf(k, prefix, presign)] else [])
  {
    assert (keys + [k])[..|keys|] == keys;
  }

  /** The comparator of the listing: `b.date.localeCompare(a.date)`, newest first. */
  function NewestFirst(): (DailyImage, DailyImage) -> bool {
    (a: DailyImage, b: DailyImage) => LexLe(b.date, a.date)
  }

  lemma NewestFirstIsTotalPreorder()
    ensures TotalPreorder(NewestFirst())
  {
    var le := NewestFirst();
    forall a, b
      ensures le(a, b) || le(b, a)
    {
      LexLeTotal(a.date, b.date);
    }
    forall a, b, c | le(a, b) && le(b, c)
      ensures le(a, c)
    {
      LexLeTransitive(c.date, b.date, a.date);
    }
  }

  datatype UploadReply = NoImageData | Uploaded(date: string) | UploadFailed

  class Bucket {
    var objects: map<string, Bytes>

    constructor ()
      ensures objects == map[]
    {
      objects := map[];
    }

    /** The images a listing of `prefix` returns, as a set. */
    function Listing(prefix: string, presign: string -> string): set<DailyImage>
      reads this
    {
      set k | k in objects && StartsWith(k, prefix) && k != prefix :: ImageOf(k, prefix, presign)
    }

    /** The keys a listing of `prefix` turns into images: every key under it but the folder key. */
    function ListedKeys(prefix: string): set<string>
      reads this
    {
      set k | k in objects && StartsWith(k, prefix) && k != prefix
    }

    /** The listed keys whose image is `x`. */
    function KeysShowing(prefix: string, presign: string -> string, x: DailyImage): set<string>
      reads this
    {
      set k | k in ListedKeys(prefix) && ImageOf(k, prefix, presign) == x
    }

    /**
     * `uploadImage`: stores the decoded image under today's key of the caller, replacing
     * any image the caller stored earlier that day. `putSucceeds` is the storage service's
     * answer, and `putInTime` whether that answer came before the handler's 25-second timer:
     * a write that lands later is still stored, but the caller is told it failed.
     */
    method UploadImage(imageData: Option<string>, authHeader: Option<string>, idp: Directory,
                       today: string, decode: string -> Bytes, putSucceeds: bool, putInTime: bool)
      returns (reply: UploadReply)
      modifies this
      ensures imageData in {None, Some("")} ==> reply == NoImageData && objects == old(objects)
      ensures imageData.Some? && imageData.value != "" && putSucceeds ==>
                objects == old(objects)[KeyFor(GetUserEmail(authHeader, idp), today) := decode(imageData.value)]
      ensures imageData.Some? && imageData.value != "" && putSucceeds && putInTime ==> reply == Uploaded(today)
      ensures imageData.Some? && imageData.value != "" && !(putSucceeds && putInTime) ==> reply == UploadFailed
      ensures imageData.Some? && imageData.value != "" && !putSucceeds ==> objects == old(objects)
    {
      if imageData.None? || imageData.value == "" {
        return NoImageData;
      }
      var email := GetUserEmail(authHeader, idp);
      var key := KeyFor(email, today);
      var buffer := decode(imageData.value);
      if putSucceeds {
        objects := objects[key := buffer];
      }
      reply := if putSucceeds && putInTime then Uploaded(today) else UploadFailed;
    }

    /** The keys under `prefix`, each once, in some order (the listing call). */
    method ListKeys(prefix: string) returns (keys: seq<string>)
      ensures forall k :: k in keys <==> k in objects && StartsWith(k, prefix)
      ensures forall i, j :: 0 <= i < j < |keys| ==> keys[i] != keys[j]
    {
      var pending := set k | k in objects && StartsWith(k, prefix);
      keys := [];
      while pending != {}
        invariant forall k :: k in keys || k in pending <==> k in objects && StartsWith(k, prefix)
        invariant forall k :: k in keys ==> k !in pending
        invariant forall i, j :: 0 <= i < j < |keys| ==> keys[i] != keys[j]
        decreases |pending|
      {
        var k :| k in pending;
        keys := keys + [k];
        pending := pending - {k};
      }
    }

    /** The listing loop of `getImages`: every listed key but the folder key, as an image. */
    method CollectKeys(keys: seq<string>, prefix: string, presign: string -> string)
      returns (collected: seq<DailyImage>)
      ensures collected == Collect(keys, prefix, presign)
    {
      collected := [];
      for i := 0 to |keys|
        invariant collected == Collect(keys[..i], prefix, presign)
      {
        assert keys[..i + 1] == keys[..i] + [keys[i]];
        CollectOneMore(keys[..i], keys[i], prefix, presign);
        if keys[i] != prefix {
          collected := collected + [ImageOf(keys[i], prefix, presign)];
        }
      }
      assert keys[..|keys|] == keys;
    }

    /** The listing of one user's folder, then the newest-first sort. */
    method ListImagesFor(email: string, presign: string -> string) returns (images: seq<DailyImage>)
      ensures forall x :: x in images <==> x in Listing(Prefix(email), presign)
      ensures forall i, j :: 0 <= i < j < |images| ==> LexLe(images[j].date, images[i].date)
      ensures |images| == |ListedKeys(Prefix(email))|
      ensures forall x :: multiset(images)[x] == |KeysShowing(Prefix(email), presign, x)|
    {
      var prefix := Prefix(email);
      var keys := ListKeys(prefix);
      var collected := CollectKeys(keys, prefix, presign);
      CollectedIsListing(this, keys, prefix, presign);
      CollectedCounts(this, keys, prefix, presign);
      images := Sort(collected, NewestFirst());
      NewestFirstSorted(collected);
    }

    /** `getImages`: the caller's images, newest first. */
    method GetImages(authHeader: Option<string>, idp: Directory, presign: string -> string)
      returns (images: seq<DailyImage>)
      ensures forall x :: x in images <==> x in Listing(Prefix(GetUserEmail(authHeader, idp)), presign)
      ensures forall i, j :: 0 <= i < j < |images| ==> LexLe(images[j].date, images[i].date)
      ensures |images| == |ListedKeys(Prefix(GetUserEmail(authHeader, idp)))|
      ensures forall x :: multiset(images)[x] == |KeysShowing(Prefix(GetUserEmail(authHeader, idp)), presign, x)|
    {
      var email := GetUserEmail(authHeader, idp);
      images := ListImagesFor(email, presign);
    }
  }

  /** Sorting newest first keeps the images and puts later dates before earlier ones. */
  lemma NewestFirstSorted(images: seq<DailyImage>)
    ensures forall x :: x in Sort(images, NewestFirst()) <==> x in images
    ensures forall i, j :: 0 <= i < j < |Sort(images, NewestFirst())| ==>
              LexLe(Sort(images, NewestFirst())[j].date, Sort(images, NewestFirst())[i].date)
  {
    SortSameElements(images, NewestFirst());
    NewestFirstIsTotalPreorder();
    SortSorted(images, NewestFirst());
  }

  lemma CollectedIsListing(b: Bucket, keys: seq<string>, prefix: string, presign: string -> string)
    requires forall k :: k in keys <==> k in b.objects && StartsWith(k, prefix)
    ensures forall x :: x in Collect(keys, prefix, presign) <==> x in b.Listing(prefix, presign)
  {
    CollectMembers(keys, prefix, presign);
    forall x | x in b.Listing(prefix, presign)
      ensures x in Collect(keys, prefix, presign)
    {
      var k :| k in b.objects && StartsWith(k, prefix) && k != prefix && x == ImageOf(k, prefix, presign);
      assert k in keys;
    }
  }

  /** Collecting the distinct listed keys gives one image per listed object. */
  lemma CollectedCounts(b: Bucket, keys: seq<string>, prefix: string, presign: string -> string)
    requires forall k :: k in keys <==> k in b.objects && StartsWith(k, prefix)
    requires Distinct(keys)
    ensures |Collect(keys, prefix, presign)| == |b.ListedKeys(prefix)|
    ensures forall x :: multiset(Collect(keys, prefix, presign))[x] == |b.KeysShowing(prefix, presign, x)|
  {
    CollectLength(keys, prefix, presign);
    assert (set k | k in keys && k != prefix) == b.ListedKeys(prefix);
    forall x
      ensures multiset(Collect(keys, prefix, presign))[x] == |b.KeysShowing(prefix, presign, x)|
    {
      CollectCount(keys, prefix, presign, x);
      assert (set k | k in keys && Shows(k, prefix, presign, x)) == b.KeysShowing(prefix, presign, x);
    }
  }

  /** An image stored for a day is listed back for that day, under its own key's signed URL. */
  lemma UploadedImageListed(b: Bucket, email: string, date: string, presign: string -> string)
    requires KeyFor(email, date) in b.objects && '.' !in date
    ensures DailyImage(date, presign(KeyFor(email, date))) in b.Listing(Prefix(email), presign)
  {
    KeyRoundTrip(email, date);
    var k := KeyFor(email, date);
    assert ImageOf(k, Prefix(email), presign) == DailyImage(date, presign(k));
  }

  /**
   * A listing shows only images stored in the caller's own folder: every listed image is shown
   * by a stored key under the caller's prefix, and with slash-free emails no key of another
   * user, for any date, is such a key.
   */
  lemma OwnImagesOnly(b: Bucket, email: string, other: string, presign: string -> string, x: DailyImage)
    requires '/' !in email && '/' !in other && email != other
    requires x in b.Listing(Prefix(email), presign)
    ensures exists k :: k in b.objects && StartsWith(k, Prefix(email)) && x == ImageOf(k, Prefix(email), presign) &&
                        forall d :: k != KeyFor(other, d)
  {
    var k :| k in b.objects && StartsWith(k, Prefix(email)) && k != Prefix(email) &&
             x == ImageOf(k, Prefix(email), presign);
    forall d
      ensures k != KeyFor(other, d)
    {
      OtherFolder(email, other, d);
    }
  }
}
