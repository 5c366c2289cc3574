/**
 * The API's route handlers over a store of three collections. Request bodies
 * are explicit records whose fields may be absent; the persistence layer is
 * the `Store` class, whose `save` appends and whose `$inc` updates one video
 * in place. Every handler takes a flag saying whether the store call fails,
 * and the handlers' random number and clock are parameters too.
 */
module Server {
  import opened Wrappers
  import opened Text
  import opened Schema
  import Ordering
  import Pagination

  datatype UploadBody = UploadBody(
    title: Option<string>,
    videoUrl: Option<string>,
    cloudinaryId: Option<string>,
    duration: Option<int>,
    fileSize: Option<int>,
    format: Option<string>)

  datatype RemovalBody = RemovalBody(email: Option<string>, msg: Option<string>)

  datatype AdBody = AdBody(title: Option<string>, imageUrl: Option<string>, url: Option<string>)

  /** Why a request was answered with 400. */
  datatype Rejection =
    | MissingVideoFields
    | TitleTooShort
    | MissingRemovalFields
    | InvalidEmail
    | MessageTooShort
    | MissingAdFields
    | SchemaInvalid(violations: seq<Violation>)

  /** The `_id` of an ad in a response: a stored one, or one of the two built-in answers. */
  datatype AdId = StoredAd(n: nat) | DefaultAdId | FallbackAdId

  datatype AdView = AdView(id: AdId, title: string, imageUrl: string, url: string)

  const PlaceholderImage: string := "https://via.placeholder.com/300x150/800080/FFFFFF?text=Flixx+Video"
  const DefaultAd: AdView := AdView(DefaultAdId, "Welcome to Flixx", PlaceholderImage, "#")
  const FallbackAd: AdView := AdView(FallbackAdId, "Flixx Video Platform", PlaceholderImage, "#")

  function View(a: Ad): AdView {
    AdView(StoredAd(a.id), a.title, a.imageUrl, a.url)
  }

  datatype Body =
    | Uploaded(id: nat, title: string, videoUrl: string, duration: int, uploadedAt: int)
    | VideoPage(videos: seq<Video>, pagination: Pagination.Meta)
    | VideoDoc(video: Video)
    | LikeCount(likes: nat)
    | RemovalReceipt(requestId: nat, status: Status)
    | RemovalList(requests: seq<Removal>)
    | AdDoc(ad: AdView)

  datatype Response =
    | Ok(body: Body)
    | Created(body: Body)
    | BadRequest(why: Rejection)
    | NotFound
    | ServerError(error: string)

  function StatusCode(r: Response): int {
    match r
    case Ok(_) => 200
    case Created(_) => 201
    case BadRequest(_) => 400
    case NotFound => 404
    case ServerError(_) => 500
  }

  const SaveVideoError: string := "Error saving video information"
  const FetchVideosError: string := "Error fetching videos"
  const FetchVideoError: string := "Error fetching video"
  const LikeError: string := "Error updating likes"
  const SaveRemovalError: string := "Error processing removal request"
  const FetchRemovalsError: string := "Error fetching removal requests"
  const CreateAdError: string := "Error creating ad"

  /** JavaScript truthiness of a string field: present and not the empty string. */
  predicate Truthy(f: Option<string>) {
    f.Some? && f.value != ""
  }

  /** `n || d` for a numeric field: absent or 0 gives d. */
  function NumberOr(f: Option<int>, d: int): int {
    if f.Some? && f.value != 0 then f.value else d
  }

  /** `s || d` for a string field: absent or empty gives d. */
  function StringOr(f: Option<string>, d: string): string {
    if Truthy(f) then f.value else d
  }

  predicate HasVideoFields(b: UploadBody) {
    Truthy(b.title) && Truthy(b.videoUrl) && Truthy(b.cloudinaryId)
  }

  /** The fields of a new video before the store gives it an id and a timestamp. */
  datatype VideoDraft = VideoDraft(
    title: string, videoUrl: string, cloudinaryId: string, duration: int, fileSize: int, format: string)

  /**
   * The upload route's checks followed by the schema's: presence of the three
   * required fields, the length of the untrimmed title, then the trimmed
   * title against `required` and `maxlength`. Lengths are JavaScript's, in
   * UTF-16 code units.
   */
  function AdmitVideo(b: UploadBody): (r: Result<VideoDraft, Rejection>)
    ensures !HasVideoFields(b) ==> r == Failure(MissingVideoFields)
    ensures HasVideoFields(b) && JsLength(b.title.value) < 3 ==> r == Failure(TitleTooShort)
    ensures HasVideoFields(b) && JsLength(b.title.value) >= 3 ==>
              (r.Success? <==> Trim(b.title.value) != "" && JsLength(Trim(b.title.value)) <= TitleMaxLength)
    ensures HasVideoFields(b) && JsLength(b.title.value) >= 3 && r.Failure? ==>
              r.error == SchemaInvalid(VideoViolations(Trim(b.title.value), b.videoUrl.value, b.cloudinaryId.value))
    ensures r.Success? ==> StoredTitle(r.value.title)
    ensures r.Success? ==>
              r.value == VideoDraft(Trim(b.title.value), b.videoUrl.value, b.cloudinaryId.value,
                                    NumberOr(b.duration, 0), NumberOr(b.fileSize, 0), StringOr(b.format, "mp4"))
    ensures r.Failure? && r.error.SchemaInvalid? ==> r.error.violations != []
  {
    if !HasVideoFields(b) then Failure(MissingVideoFields)
    else if JsLength(b.title.value) < 3 then Failure(TitleTooShort)
    else
      var title := TrimSetter(b.title.value);
      var violations := VideoViolations(title, b.videoUrl.value, b.cloudinaryId.value);
      if violations != [] then Failure(SchemaInvalid(violations))
      else Success(VideoDraft(title, b.videoUrl.value, b.cloudinaryId.value,
                              NumberOr(b.duration, 0), NumberOr(b.fileSize, 0), StringOr(b.format, "mp4")))
  }

  /** The spacing of a title is not checked before trimming: "ab " is admitted and stored as "ab". */
  lemma ShortTrimmedTitleAdmitted()
    ensures var b := UploadBody(Some("ab "), Some("u"), Some("c"), None, None, None);
            AdmitVideo(b).Success? && AdmitVideo(b).value.title == "ab"
  {
    var t := "ab ";
    assert LeadingSpaces(t) == 0;
    assert t[0..] == t && t[..2] == "ab" && t[..3][..2] == "ab";
    assert TrailingSpaces("ab") == 0;
    assert TrailingSpaces(t) == 1;
    assert Trim(t) == "ab";
    assert JsLength(t) == 3;
  }

  /**
   * The length check counts UTF-16 code units: two emoji outside the Basic
   * Multilingual Plane make a title of length 4, which is admitted.
   */
  lemma WideTitleAdmitted()
    ensures var b := UploadBody(Some("\U{1F600}\U{1F600}"), Some("u"), Some("c"), None, None, None);
            AdmitVideo(b).Success? && AdmitVideo(b).value.title == "\U{1F600}\U{1F600}"
  {
    var t := "\U{1F600}\U{1F600}";
    assert JsLength(t) == 4;
    assert NoSpace(t);
    TrimNoSpace(t);
  }

  /** A title of spaces passes the route's checks and fails the schema's `required`. */
  lemma BlankTitleRejectedBySchema()
    ensures var b := UploadBody(Some("   "), Some("u"), Some("c"), None, None, None);
            AdmitVideo(b) == Failure(SchemaInvalid([Required("title")]))
  {
    var t := "   ";
    assert forall i | 0 <= i < |t| :: t[i] == ' ';
    TrimEmpty(t);
    assert Trim(t) == "";
    var b := UploadBody(Some(t), Some("u"), Some("c"), None, None, None);
    assert HasVideoFields(b) && JsLength(b.title.value) == 3;
    assert TrimSetter(t) == "";
    assert VideoViolations("", "u", "c") == [Required("title")];
  }

  predicate HasRemovalFields(b: RemovalBody) {
    Truthy(b.email) && Truthy(b.msg)
  }

  datatype RemovalDraft = RemovalDraft(email: string, msg: string)

  /**
   * The removal route's checks in order (presence, the e-mail pattern, the
   * untrimmed message length), then the schema's on the trimmed message.
   */
  function AdmitRemoval(b: RemovalBody): (r: Result<RemovalDraft, Rejection>)
    ensures !HasRemovalFields(b) ==> r == Failure(MissingRemovalFields)
    ensures HasRemovalFields(b) && !IsEmail(b.email.value) ==> r == Failure(InvalidEmail)
    ensures HasRemovalFields(b) && IsEmail(b.email.value) && JsLength(b.msg.value) < MsgMinLength ==>
              r == Failure(MessageTooShort)
    ensures r.Success? <==>
              HasRemovalFields(b) && IsEmail(b.email.value) && JsLength(b.msg.value) >= MsgMinLength
              && MsgMinLength <= JsLength(Trim(b.msg.value)) <= MsgMaxLength
    ensures HasRemovalFields(b) && IsEmail(b.email.value) && JsLength(b.msg.value) >= MsgMinLength && r.Failure? ==>
              r.error == SchemaInvalid(RemovalViolations(Lower(b.email.value), Trim(b.msg.value)))
    ensures r.Success? ==> r.value == RemovalDraft(Lower(b.email.value), Trim(b.msg.value))
    ensures r.Success? ==> MsgMinLength <= JsLength(r.value.msg) <= MsgMaxLength && Trimmed(r.value.msg)
  {
    if !HasRemovalFields(b) then Failure(MissingRemovalFields)
    else if !IsEmail(b.email.value) then Failure(InvalidEmail)
    else if JsLength(b.msg.value) < MsgMinLength then Failure(MessageTooShort)
    else
      var email := EmailSetter(b.email.value);
      var msg := TrimSetter(b.msg.value);
      AcceptedEmailSetter(b.email.value);
      var violations := RemovalViolations(email, msg);
      assert violations == [] <==> MsgMinLength <= JsLength(msg) <= MsgMaxLength;
      if violations != [] then Failure(SchemaInvalid(violations))
      else Success(RemovalDraft(email, msg))
  }

  /** An address the pattern accepts has no white space, so the setters only lower-case it. */
  lemma AcceptedEmailSetter(e: string)
    requires IsEmail(e)
    ensures EmailSetter(e) == Lower(e) && EmailSetter(e) != ""
  {
    EmailHasNoSpace(e);
  }

  /** The e-mail check of the removal route is the route's regular expression. */
  lemma AdmitRemovalUsesPattern(b: RemovalBody)
    requires HasRemovalFields(b)
    ensures AdmitRemoval(b) == Failure(InvalidEmail) <==> !MatchesEmailPattern(b.email.value)
  {
    EmailPatternIff(b.email.value);
  }

  predicate HasAdFields(b: AdBody) {
    Truthy(b.title) && Truthy(b.imageUrl) && Truthy(b.url)
  }

  function UploadedAt(v: Video): int {
    v.uploadedAt
  }

  function SubmittedAt(r: Removal): int {
    r.submittedAt
  }

  /** The position of the video with the given id, if any. */
  function FindVideo(vs: seq<Video>, id: nat): (r: Option<nat>)
    ensures r.Some? ==> r.value < |vs| && vs[r.value].id == id
    ensures r.None? ==> forall i | 0 <= i < |vs| :: vs[i].id != id
  {
    if vs == [] then None
    else if vs[0].id == id then Some(0)
    else match FindVideo(vs[1..], id)
      case Some(k) => Some(k + 1)
      case None => None
  }

  /** The store's view of `$inc: { likes: 1 }` on the video at position i. */
  function Liked(vs: seq<Video>, i: nat): (r: seq<Video>)
    requires i < |vs|
    ensures |r| == |vs| && r[i].likes == vs[i].likes + 1
    ensures r[i] == vs[i].(likes := r[i].likes)
    ensures forall j | 0 <= j < |vs| && j != i :: r[j] == vs[j]
  {
    vs[i := vs[i].(likes := vs[i].likes + 1)]
  }

  /** k successive likes of the video at position i. */
  function LikedTimes(vs: seq<Video>, i: nat, k: nat): (r: seq<Video>)
    requires i < |vs|
    ensures |r| == |vs|
  {
    if k == 0 then vs else Liked(LikedTimes(vs, i, k - 1), i)
  }

  /** k likes raise that video's count by exactly k and change nothing else. */
  lemma {:induction false} LikesAccumulate(vs: seq<Video>, i: nat, k: nat)
    requires i < |vs|
    ensures LikedTimes(vs, i, k)[i] == vs[i].(likes := vs[i].likes + k)
    ensures forall j | 0 <= j < |vs| && j != i :: LikedTimes(vs, i, k)[j] == vs[j]
  {
    if k > 0 {
      LikesAccumulate(vs, i, k - 1);
    }
  }

  function TotalLikes(vs: seq<Video>): nat {
    if vs == [] then 0 else vs[0].likes + TotalLikes(vs[1..])
  }

  /** A like adds exactly one to the likes of the whole catalog. */
  lemma {:induction false} LikeAddsOne(vs: seq<Video>, i: nat)
    requires i < |vs|
    ensures TotalLikes(Liked(vs, i)) == TotalLikes(vs) + 1
  {
    if i > 0 {
      assert Liked(vs, i)[1..] == Liked(vs[1..], i - 1);
      LikeAddsOne(vs[1..], i - 1);
    } else {
      assert Liked(vs, i)[1..] == vs[1..];
    }
  }

  /** A video as `save` creates it: the store's id and clock, and no likes yet. */
  function NewVideo(d: VideoDraft, id: nat, now: int): (v: Video)
    ensures v.id == id && v.uploadedAt == now && v.likes == 0
    ensures v.title == d.title && v.videoUrl == d.videoUrl && v.cloudinaryId == d.cloudinaryId
    ensures v.duration == d.duration && v.fileSize == d.fileSize && v.format == d.format
  {
    Video(id, d.title, d.videoUrl, d.cloudinaryId, d.duration, d.fileSize, d.format, now, 0)
  }

  class Store {
    var videos: seq<Video>
    var removals: seq<Removal>
    var ads: seq<Ad>
    /** The id the store gives its next document; ids are unique across collections. */
    var nextId: nat

    ghost predicate Valid()
      reads this
    {
      && (forall i | 0 <= i < |videos| :: videos[i].id < nextId && StoredTitle(videos[i].title))
      && (forall i, j | 0 <= i < j < |videos| :: videos[i].id != videos[j].id)
      && (forall i | 0 <= i < |removals| ::
            && removals[i].id < nextId
            && MsgMinLength <= JsLength(removals[i].msg) <= MsgMaxLength
            && Trimmed(removals[i].msg))
      && (forall i | 0 <= i < |ads| :: ads[i].id < nextId)
    }

    constructor ()
      ensures Valid()
      ensures videos == [] && removals == [] && ads == [] && nextId == 0
    {
      videos, removals, ads, nextId := [], [], [], 0;
    }

    /** POST /api/videos/upload */
    method UploadVideo(b: UploadBody, now: int, storeFails: bool) returns (resp: Response)
      requires Valid()
      modifies this
      ensures Valid()
      ensures AdmitVideo(b).Failure? ==> resp == BadRequest(AdmitVideo(b).error) && unchanged(this)
      ensures AdmitVideo(b).Success? && storeFails ==> resp == ServerError(SaveVideoError) && unchanged(this)
      ensures AdmitVideo(b).Success? && !storeFails ==>
                var v := NewVideo(AdmitVideo(b).value, old(nextId), now);
                && videos == old(videos) + [v]
                && removals == old(removals) && ads == old(ads) && nextId == old(nextId) + 1
                && resp == Created(Uploaded(v.id, v.title, v.videoUrl, v.duration, v.uploadedAt))
    {
      var admitted := AdmitVideo(b);
      if admitted.Failure? {
        return BadRequest(admitted.error);
      }
      if storeFails {
        return ServerError(SaveVideoError);
      }
      var v := NewVideo(admitted.value, nextId, now);
      videos := videos + [v];
      nextId := nextId + 1;
      resp := Created(Uploaded(v.id, v.title, v.videoUrl, v.duration, v.uploadedAt));
    }

    /** GET /api/videos: newest first, one page of it, and the pagination block. */
    method ListVideos(pageQ: Option<int>, limitQ: Option<int>, storeFails: bool) returns (resp: Response)
      ensures storeFails ==> resp == ServerError(FetchVideosError)
      ensures !storeFails ==>
                match Pagination.List(Ordering.SortDesc(videos, UploadedAt), pageQ, limitQ)
                case None => resp == ServerError(FetchVideosError)
                case Some(l) => resp == Ok(VideoPage(l.items, l.meta))
      ensures resp.Ok? ==> |resp.body.videos| <= |videos| && forall v | v in resp.body.videos :: v in videos
      ensures resp.Ok? ==> Ordering.SortedDesc(resp.body.videos, UploadedAt)
      ensures resp.Ok? ==> resp.body.pagination.total == |videos|
    {
      if storeFails {
        return ServerError(FetchVideosError);
      }
      var sorted := Ordering.SortDesc(videos, UploadedAt);
      var listing := Pagination.List(sorted, pageQ, limitQ);
      if listing.None? {
        return ServerError(FetchVideosError);
      }
      var items := listing.value.items;
      ListingFacts(sorted, pageQ, limitQ);
      forall v | v in items ensures v in videos {
        assert v in multiset(sorted);
      }
      resp := Ok(VideoPage(items, listing.value.meta));
    }

    /** GET /api/videos/:id; None stands for an id the store cannot parse, which makes findById throw. */
    method GetVideo(id: Option<nat>, storeFails: bool) returns (resp: Response)
      ensures id.None? || storeFails ==> resp == ServerError(FetchVideoError)
      ensures id.Some? && !storeFails ==>
                match FindVideo(videos, id.value)
                case None => resp == NotFound
                case Some(i) => resp == Ok(VideoDoc(videos[i]))
      ensures id.Some? && !storeFails ==>
                (resp == NotFound <==> forall i | 0 <= i < |videos| :: videos[i].id != id.value)
      ensures resp.Ok? ==> resp.body.VideoDoc? && resp.body.video in videos && resp.body.video.id == id.value
    {
      if id.None? || storeFails {
        return ServerError(FetchVideoError);
      }
      var found := FindVideo(videos, id.value);
      if found.None? {
        return NotFound;
      }
      resp := Ok(VideoDoc(videos[found.value]));
    }

    /** PATCH /api/videos/:id/like: `findByIdAndUpdate` with `$inc` and `new: true`. */
    method Like(id: Option<nat>, storeFails: bool) returns (resp: Response)
      requires Valid()
      modifies this
      ensures Valid()
      ensures id.None? || storeFails ==> resp == ServerError(LikeError) && unchanged(this)
      ensures id.Some? && !storeFails ==>
                match FindVideo(old(videos), id.value)
                case None => resp == NotFound && unchanged(this)
                case Some(i) =>
                  && videos == Liked(old(videos), i)
                  && resp == Ok(LikeCount(old(videos)[i].likes + 1))
                  && removals == old(removals) && ads == old(ads) && nextId == old(nextId)
    {
      if id.None? || storeFails {
        return ServerError(LikeError);
      }
      var found := FindVideo(videos, id.value);
      if found.None? {
        return NotFound;
      }
      var i := found.value;
      videos := Liked(videos, i);
      resp := Ok(LikeCount(videos[i].likes));
    }

    /** POST /api/contentremove */
    method SubmitRemoval(b: RemovalBody, now: int, storeFails: bool) returns (resp: Response)
      requires Valid()
      modifies this
      ensures Valid()
      ensures AdmitRemoval(b).Failure? ==> resp == BadRequest(AdmitRemoval(b).error) && unchanged(this)
      ensures AdmitRemoval(b).Success? && storeFails ==> resp == ServerError(SaveRemovalError) && unchanged(this)
      ensures AdmitRemoval(b).Success? && !storeFails ==>
                var d := AdmitRemoval(b).value;
                && removals == old(removals) + [Removal(old(nextId), d.email, d.msg, Pending, now)]
                && videos == old(videos) && ads == old(ads) && nextId == old(nextId) + 1
                && resp == Created(RemovalReceipt(old(nextId), Pending))
    {
      var admitted := AdmitRemoval(b);
      if admitted.Failure? {
        return BadRequest(admitted.error);
      }
      if storeFails {
        return ServerError(SaveRemovalError);
      }
      resp := StoreRemoval(admitted.value, now);
    }

    /** `save` of an admitted removal request: appended as pending under a fresh id. */
    method StoreRemoval(d: RemovalDraft, now: int) returns (resp: Response)
      requires Valid()
      requires MsgMinLength <= JsLength(d.msg) <= MsgMaxLength && Trimmed(d.msg)
      modifies this
      ensures Valid()
      ensures removals == old(removals) + [Removal(old(nextId), d.email, d.msg, Pending, now)]
      ensures videos == old(videos) && ads == old(ads) && nextId == old(nextId) + 1
      ensures resp == Created(RemovalReceipt(old(nextId), Pending))
    {
      removals := removals + [Removal(nextId, d.email, d.msg, Pending, now)];
      resp := Created(RemovalReceipt(nextId, Pending));
      nextId := nextId + 1;
    }

    /** GET /api/contentremove: every request, newest first. */
    method ListRemovals(storeFails: bool) returns (resp: Response)
      ensures storeFails ==> resp == ServerError(FetchRemovalsError)
      ensures !storeFails ==>
                && resp.Ok? && resp.body.RemovalList?
                && multiset(resp.body.requests) == multiset(removals)
                && Ordering.SortedDesc(resp.body.requests, SubmittedAt)
    {
      if storeFails {
        return ServerError(FetchRemovalsError);
      }
      resp := Ok(RemovalList(Ordering.SortDesc(removals, SubmittedAt)));
    }

    /**
     * GET /api/ads/random with `r` the value of Math.random(). Always 200:
     * the built-in ad when there are none, another when the store fails.
     */
    method RandomAd(r: real, storeFails: bool) returns (resp: Response)
      requires 0.0 <= r < 1.0
      ensures StatusCode(resp) == 200 && resp.body.AdDoc?
      ensures storeFails ==> resp.body.ad == FallbackAd
      ensures !storeFails && ads == [] ==> resp.body.ad == DefaultAd
      ensures !storeFails && ads != [] ==> resp.body.ad == View(ads[PickIndex(r, |ads|)])
      ensures !storeFails && ads != [] ==> exists a | a in ads :: resp.body.ad == View(a)
    {
      if storeFails {
        return Ok(AdDoc(FallbackAd));
      }
      if |ads| == 0 {
        return Ok(AdDoc(DefaultAd));
      }
      var a := ads[PickIndex(r, |ads|)];
      assert a in ads;
      resp := Ok(AdDoc(View(a)));
    }

    /** POST /api/ads */
    method CreateAd(b: AdBody, storeFails: bool) returns (resp: Response)
      requires Valid()
      modifies this
      ensures Valid()
      ensures !HasAdFields(b) ==> resp == BadRequest(MissingAdFields) && unchanged(this)
      ensures HasAdFields(b) && storeFails ==> resp == ServerError(CreateAdError) && unchanged(this)
      ensures HasAdFields(b) && !storeFails ==>
                var a := Ad(old(nextId), b.title.value, b.imageUrl.value, b.url.value);
                && ads == old(ads) + [a]
                && videos == old(videos) && removals == old(removals) && nextId == old(nextId) + 1
                && resp == Created(AdDoc(View(a)))
    {
      if !HasAdFields(b) {
        return BadRequest(MissingAdFields);
      }
      if storeFails {
        return ServerError(CreateAdError);
      }
      var a := Ad(nextId, b.title.value, b.imageUrl.value, b.url.value);
      ads := ads + [a];
      nextId := nextId + 1;
      resp := Created(AdDoc(View(a)));
    }
  }

  /** Math.floor(r * n) for r = Math.random() in [0, 1): an index into n > 0 elements. */
  function PickIndex(r: real, n: nat): (k: nat)
    requires 0.0 <= r < 1.0 && n > 0
    ensures k < n
    ensures k as real <= r * n as real < k as real + 1.0
  {
    var x := r * n as real;
    ScaleBelow(r, n as real);
    FloorBelow(x, n);
    x.Floor
  }

  lemma FloorBelow(x: real, n: nat)
    requires 0.0 <= x < n as real
    ensures 0 <= x.Floor < n
    ensures x.Floor as real <= x < x.Floor as real + 1.0
  {
  }

  lemma ScaleBelow(r: real, m: real)
    requires 0.0 <= r < 1.0 && m > 0.0
    ensures 0.0 <= r * m < m
  {
    assert m - r * m == (1.0 - r) * m;
  }

  lemma ListingFacts(sorted: seq<Video>, pageQ: Option<int>, limitQ: Option<int>)
    requires Pagination.List(sorted, pageQ, limitQ).Some?
    ensures var items := Pagination.List(sorted, pageQ, limitQ).value.items;
            |items| <= |sorted| && forall v | v in items :: v in sorted
  {
  }

  /** An uploaded video can be fetched back by the id in the 201 reply, with no likes. */
  method UploadThenGet(s: Store, b: UploadBody, now: int) returns (created: Response, fetched: Response)
    requires s.Valid() && AdmitVideo(b).Success?
    modifies s
    ensures s.Valid()
    ensures created.Created? && created.body.Uploaded?
    ensures var d := AdmitVideo(b).value;
            fetched == Ok(VideoDoc(Video(created.body.id, d.title, d.videoUrl, d.cloudinaryId,
                                         d.duration, d.fileSize, d.format, now, 0)))
  {
    created := s.UploadVideo(b, now, false);
    FindAppended(old(s.videos), NewVideo(AdmitVideo(b).value, old(s.nextId), now));
    fetched := s.GetVideo(Some(created.body.id), false);
  }

  /** A fresh id appended at the end is found at the end. */
  lemma {:induction false} FindAppended(vs: seq<Video>, v: Video)
    requires forall i | 0 <= i < |vs| :: vs[i].id != v.id
    ensures FindVideo(vs + [v], v.id) == Some(|vs|)
  {
    if vs != [] {
      assert (vs + [v])[1..] == vs[1..] + [v];
      FindAppended(vs[1..], v);
    }
  }
}
