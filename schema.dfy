/**
 * The three document schemas: their fields, the setters mongoose applies on
 * assignment (trim, lowercase) and the validators it runs on save
 * (required, minlength, maxlength, the status enum with its default).
 */
module Schema {
  import opened Text

  const TitleMaxLength: nat := 100
  const MsgMinLength: nat := 10
  const MsgMaxLength: nat := 1000

  /** The removal-request status enum; new requests start as Pending. */
  datatype Status = Pending | Reviewed | Resolved

  datatype Video = Video(
    id: nat,
    title: string,
    videoUrl: string,
    cloudinaryId: string,
    duration: int,
    fileSize: int,
    format: string,
    uploadedAt: int,
    likes: nat)

  datatype Ad = Ad(id: nat, title: string, imageUrl: string, url: string)

  datatype Removal = Removal(id: nat, email: string, msg: string, status: Status, submittedAt: int)

  /** The first failing validator of one path; mongoose reports at most one per path. */
  datatype Violation =
    | Required(path: string)
    | ShorterThan(path: string, min: nat)
    | LongerThan(path: string, max: nat)

  /** The `trim: true` setter of `title` and `msg`. */
  function TrimSetter(s: string): string {
    Trim(s)
  }

  /** The `trim: true, lowercase: true` setters of `email`. */
  function EmailSetter(s: string): string {
    Lower(Trim(s))
  }

  /** Re-applying the trim setter to a value the route already trimmed changes nothing. */
  lemma TrimSetterIdempotent(s: string)
    ensures TrimSetter(TrimSetter(s)) == TrimSetter(s)
  {
    TrimIdempotent(s);
  }

  /** Re-applying the email setters to the route's trimmed, lower-cased email changes nothing. */
  lemma EmailSetterIdempotent(s: string)
    ensures EmailSetter(EmailSetter(s)) == EmailSetter(s)
  {
    calc {
      Lower(Trim(Lower(Trim(s))));
      { TrimLowerCommute(Trim(s)); }
      Lower(Lower(Trim(Trim(s))));
      { LowerIdempotent(Trim(Trim(s))); TrimIdempotent(s); }
      Lower(Trim(s));
    }
  }

  /** A title as it can sit in the store: non-empty, at most 100 UTF-16 code units, trimmed. */
  predicate StoredTitle(t: string) {
    t != [] && JsLength(t) <= TitleMaxLength && Trimmed(t)
  }

  /** Save-time validation of a video whose title went through the trim setter. */
  function VideoViolations(title: string, videoUrl: string, cloudinaryId: string): (vs: seq<Violation>)
    ensures vs == [] <==> title != "" && JsLength(title) <= TitleMaxLength && videoUrl != "" && cloudinaryId != ""
    ensures title == "" ==> vs[0] == Required("title")
    ensures JsLength(title) > TitleMaxLength ==> vs[0] == LongerThan("title", TitleMaxLength)
  {
    (if title == "" then [Required("title")]
     else if JsLength(title) > TitleMaxLength then [LongerThan("title", TitleMaxLength)]
     else [])
    + (if videoUrl == "" then [Required("videoUrl")] else [])
    + (if cloudinaryId == "" then [Required("cloudinaryId")] else [])
  }

  /** Save-time validation of a removal request after its setters; the status default is always in the enum. */
  function RemovalViolations(email: string, msg: string): (vs: seq<Violation>)
    ensures vs == [] <==> email != "" && MsgMinLength <= JsLength(msg) <= MsgMaxLength
    ensures email != "" && msg == "" ==> vs == [Required("msg")]
    ensures email != "" && msg != "" && JsLength(msg) < MsgMinLength ==> vs == [ShorterThan("msg", MsgMinLength)]
    ensures email != "" && JsLength(msg) > MsgMaxLength ==> vs == [LongerThan("msg", MsgMaxLength)]
  {
    (if email == "" then [Required("email")] else [])
    + (if msg == "" then [Required("msg")]
       else if JsLength(msg) < MsgMinLength then [ShorterThan("msg", MsgMinLength)]
       else if JsLength(msg) > MsgMaxLength then [LongerThan("msg", MsgMaxLength)]
       else [])
  }
}
