/**
 * The upload form: the file picker's type and size checks, the submit
 * checks on the title, the simulated progress counter, the metadata payload
 * sent to the server after the asset store's reply, and cancel. The asset
 * store call, the timers and the object URLs are outside the model; their
 * results arrive as parameters.
 */
module Upload {
  import opened Wrappers
  import opened Text
  import Schema
  import Server
  import Pagination

  const ValidTypes: seq<string> := ["video/mp4", "video/webm", "video/ogg", "video/quicktime", "video/x-msvideo"]
  const MaxSize: nat := 100 * 1024 * 1024

  const InvalidTypeError: string := "Please select a valid video file (MP4, WebM, OGG, MOV, AVI)."
  const TooLargeError: string := "File size too large. Please select a video under 100MB."
  const MissingInputError: string := "Please provide a title and select a video file."
  const ShortTitleError: string := "Title must be at least 3 characters long."
  const UploadedNotice: string := "Video uploaded successfully!"
  const UploadFailedError: string := "Failed to upload video. Please try again."

  datatype SelectedFile = SelectedFile(name: string, mime: string, size: nat)

  /** What the asset store answers for an uploaded video. */
  datatype AssetReply = AssetReply(secureUrl: string, publicId: string, duration: int, bytes: int)

  /** The metadata posted to the server's upload route. */
  datatype Payload = Payload(title: string, videoUrl: string, cloudinaryId: string, duration: int, fileSize: int)

  /** handleFileChange's checks: the MIME type first, then the 100 MiB cap. */
  function FileCheck(f: SelectedFile): (r: Outcome<string>)
    ensures r.Pass? <==> f.mime in ValidTypes && f.size <= MaxSize
    ensures f.mime !in ValidTypes ==> r == Fail(InvalidTypeError)
    ensures f.mime in ValidTypes && f.size > MaxSize ==> r == Fail(TooLargeError)
  {
    if f.mime !in ValidTypes then Fail(InvalidTypeError)
    else if f.size > MaxSize then Fail(TooLargeError)
    else Pass
  }

  /** The cap is inclusive: 104857600 bytes are accepted, one more byte is not. */
  lemma SizeCapInclusive(name: string, mime: string)
    requires mime in ValidTypes
    ensures FileCheck(SelectedFile(name, mime, 104857600)).Pass?
    ensures FileCheck(SelectedFile(name, mime, 104857601)) == Fail(TooLargeError)
  {
  }

  /**
   * handleUpload's checks: a file and a non-blank title, then three UTF-16
   * code units of untrimmed title.
   */
  function SubmitCheck(hasFile: bool, title: string): (r: Outcome<string>)
    ensures r == Fail(MissingInputError) <==> !hasFile || AllSpace(title)
    ensures r == Fail(ShortTitleError) <==> hasFile && !AllSpace(title) && JsLength(title) < 3
    ensures r.Pass? <==> hasFile && !AllSpace(title) && JsLength(title) >= 3
  {
    TrimEmpty(title);
    if !hasFile || Trim(title) == "" then Fail(MissingInputError)
    else if JsLength(title) < 3 then Fail(ShortTitleError)
    else Pass
  }

  /**
   * The progress updater: +10 per tick, held at 90 until the upload returns.
   * From a value the bar can show it stays a multiple of 10, climbs, and
   * never passes 90.
   */
  function NextProgress(p: int): (q: int)
    ensures p % 10 == 0 && p <= 90 ==> p <= q <= 90
    ensures p > 90 ==> q == 90
    ensures p < 90 ==> q > p
    ensures p % 10 == 0 ==> q % 10 == 0
  {
    if p >= 90 then 90 else p + 10
  }

  /** The progress after k ticks starting from p. */
  function Ticks(p: int, k: nat): int {
    if k == 0 then p else NextProgress(Ticks(p, k - 1))
  }

  /** From 0, k ticks give min(10k, 90): a multiple of 10 that never passes 90. */
  lemma {:induction false} TicksFromZero(k: nat)
    ensures Ticks(0, k) == Pagination.Min(10 * k, 90)
    ensures Ticks(0, k) % 10 == 0 && 0 <= Ticks(0, k) <= 90
  {
    if k > 0 {
      TicksFromZero(k - 1);
    }
  }

  /**
   * The payload built from the form's title and the asset store's reply: the
   * title trimmed (empty exactly when the input was blank), the asset's URL,
   * id, duration and size passed through.
   */
  function MakePayload(title: string, reply: AssetReply): (p: Payload)
    ensures Trimmed(p.title) && JsLength(p.title) <= JsLength(title)
    ensures p.title == "" <==> AllSpace(title)
    ensures p.videoUrl == reply.secureUrl && p.cloudinaryId == reply.publicId
    ensures p.duration == reply.duration && p.fileSize == reply.bytes
  {
    TrimEmpty(title);
    TrimJsLength(title);
    Payload(Trim(title), reply.secureUrl, reply.publicId, reply.duration, reply.bytes)
  }

  /** The payload as the server reads it: it carries no `format`. */
  function ToBody(p: Payload): Server.UploadBody {
    Server.UploadBody(Some(p.title), Some(p.videoUrl), Some(p.cloudinaryId), Some(p.duration), Some(p.fileSize), None)
  }

  /**
   * A submission the form lets through is stored exactly when the asset
   * references are non-empty and the TRIMMED title has 3 to 100 characters;
   * the stored title is the trimmed one and the format defaults to "mp4".
   */
  lemma FormPayloadAtServer(title: string, reply: AssetReply)
    requires SubmitCheck(true, title).Pass?
    ensures var r := Server.AdmitVideo(ToBody(MakePayload(title, reply)));
            && (r.Success? <==>
                  reply.secureUrl != "" && reply.publicId != "" && 3 <= JsLength(Trim(title)) <= Schema.TitleMaxLength)
            && (r.Success? ==> r.value.title == Trim(title) && r.value.format == "mp4")
  {
    TrimIdempotent(title);
    TrimEmpty(title);
  }

  /** The form measures the untrimmed title and posts the trimmed one: "ab " passes the form and gets a 400. */
  lemma PaddedShortTitleRejectedByServer()
    ensures SubmitCheck(true, "ab ").Pass?
    ensures forall reply: AssetReply :: reply.secureUrl != "" && reply.publicId != "" ==>
              Server.AdmitVideo(ToBody(MakePayload("ab ", reply))) == Failure(Server.TitleTooShort)
  {
    var t := "ab ";
    assert !IsSpace(t[0]);
    assert t[0..] == t && t[..2] == "ab";
    assert TrailingSpaces("ab") == 0;
    assert Trim(t) == "ab";
    assert JsLength(t) == 3 && JsLength("ab") == 2;
  }

  /** The component's state. `notice` is the shared error banner the form writes through setError. */
  class UploadForm {
    var file: Option<SelectedFile>
    var title: string
    var uploading: bool
    var progress: int
    var previewUrl: string
    var notice: string

    /** The progress bar only ever shows multiples of 10 between 0 and 100. */
    ghost predicate Valid()
      reads this
    {
      0 <= progress <= 100 && progress % 10 == 0
    }

    constructor ()
      ensures Valid()
      ensures file == None && title == "" && !uploading && progress == 0 && previewUrl == "" && notice == ""
    {
      file, title, uploading, progress, previewUrl, notice := None, "", false, 0, "", "";
    }

    /** The title input's onChange. */
    method EditTitle(t: string)
      modifies this`title
      ensures title == t
    {
      title := t;
    }

    /**
     * handleFileChange: no file, nothing happens; a rejected file only sets
     * the error, so the previous file and preview stay; an accepted one
     * replaces them and clears the error.
     */
    method HandleFileChange(selected: Option<SelectedFile>, objectUrl: string)
      requires Valid()
      modifies this
      ensures Valid()
      ensures selected.None? ==> unchanged(this)
      ensures selected.Some? && FileCheck(selected.value).Fail? ==>
                && notice == FileCheck(selected.value).error
                && file == old(file) && previewUrl == old(previewUrl)
                && title == old(title) && uploading == old(uploading) && progress == old(progress)
      ensures selected.Some? && FileCheck(selected.value).Pass? ==>
                && file == selected && notice == "" && previewUrl == objectUrl
                && title == old(title) && uploading == old(uploading) && progress == old(progress)
    {
      if selected.None? {
        return;
      }
      var check := FileCheck(selected.value);
      if check.Fail? {
        notice := check.error;
        return;
      }
      file := selected;
      notice := "";
      previewUrl := objectUrl;
    }

    /** The start of handleUpload: the checks, then uploading with progress 0. */
    method StartUpload() returns (started: bool)
      requires Valid()
      modifies this
      ensures Valid()
      ensures started <==> SubmitCheck(file.Some?, title).Pass?
      ensures !started ==>
                && notice == SubmitCheck(file.Some?, title).error
                && file == old(file) && title == old(title) && previewUrl == old(previewUrl)
                && uploading == old(uploading) && progress == old(progress)
      ensures started ==>
                && uploading && progress == 0
                && file == old(file) && title == old(title) && previewUrl == old(previewUrl) && notice == old(notice)
    {
      var check := SubmitCheck(file.Some?, title);
      if check.Fail? {
        notice := check.error;
        return false;
      }
      uploading := true;
      progress := 0;
      started := true;
    }

    /** One firing of the progress interval. */
    method Tick()
      requires Valid()
      modifies this`progress
      ensures Valid()
      ensures progress == NextProgress(old(progress))
    {
      progress := NextProgress(progress);
    }

    /** The asset store answered: progress jumps to 100 and the metadata payload is built. */
    method AssetUploaded(reply: AssetReply) returns (payload: Payload)
      requires Valid()
      modifies this`progress
      ensures Valid()
      ensures progress == 100
      ensures payload == MakePayload(title, reply)
      ensures payload.title == Trim(title) && payload.videoUrl == reply.secureUrl
      ensures payload.cloudinaryId == reply.publicId && payload.fileSize == reply.bytes
    {
      progress := 100;
      payload := MakePayload(title, reply);
    }

    /** The server stored the metadata: the form is reset and the success notice shown. */
    method Saved()
      modifies this
      ensures Valid()
      ensures file == None && title == "" && previewUrl == "" && progress == 0
      ensures notice == UploadedNotice && !uploading
    {
      title, file, previewUrl, progress := "", None, "", 0;
      notice := UploadedNotice;
      uploading := false;
    }

    /**
     * A step of the upload failed: the server's `error` text when it sent a
     * non-empty one, the generic message otherwise; the form keeps its input.
     */
    method Failed(serverError: Option<string>)
      requires Valid()
      modifies this
      ensures Valid()
      ensures notice == (if serverError.Some? && serverError.value != "" then serverError.value else UploadFailedError)
      ensures !uploading
      ensures file == old(file) && title == old(title) && previewUrl == old(previewUrl) && progress == old(progress)
    {
      notice := if serverError.Some? && serverError.value != "" then serverError.value else UploadFailedError;
      uploading := false;
    }

    /** handleCancel: clears the file, the preview and the title. */
    method Cancel()
      requires Valid()
      modifies this
      ensures Valid()
      ensures file == None && previewUrl == "" && title == ""
      ensures uploading == old(uploading) && progress == old(progress) && notice == old(notice)
    {
      file, previewUrl, title := None, "", "";
    }
  }
}
