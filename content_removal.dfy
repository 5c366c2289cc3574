/**
 * The content-removal form's submit handler: its checks in order (presence,
 * the e-mail pattern, the trimmed message length), the payload it posts, and
 * how that payload fares against the server's intake.
 */
module ContentRemoval {
  import opened Wrappers
  import opened Text
  import Schema
  import Server

  const MissingFieldsError: string := "Please provide both email and message."
  const InvalidEmailError: string := "Please enter a valid email address."
  const ShortMessageError: string := "Please provide a detailed message (at least 10 characters)."

  /** The body posted to the removal endpoint. */
  datatype Payload = Payload(msg: string, email: string)

  /** handleRemove: only the first failing check is reported; on success, the payload. */
  function HandleRemove(email: string, msg: string): (r: Result<Payload, string>)
    ensures r == Failure(MissingFieldsError) <==> email == "" || Trim(msg) == ""
    ensures r == Failure(InvalidEmailError) <==>
              email != "" && Trim(msg) != "" && !MatchesEmailPattern(email)
    ensures r == Failure(ShortMessageError) <==>
              email != "" && Trim(msg) != "" && MatchesEmailPattern(email) && JsLength(Trim(msg)) < Schema.MsgMinLength
    ensures r.Success? <==> MatchesEmailPattern(email) && JsLength(Trim(msg)) >= Schema.MsgMinLength
    ensures r.Success? ==> r.value == Payload(Trim(msg), email)
  {
    EmailPatternIff(email);
    if email == "" || Trim(msg) == "" then Failure(MissingFieldsError)
    else if !IsEmail(email) then Failure(InvalidEmailError)
    else if JsLength(Trim(msg)) < Schema.MsgMinLength then Failure(ShortMessageError)
    else
      EmailHasNoSpace(email);
      Success(Payload(Trim(msg), Trim(email)))
  }

  function ToBody(p: Payload): Server.RemovalBody {
    Server.RemovalBody(Some(p.email), Some(p.msg))
  }

  /**
   * A request the form lets through passes every explicit check of the
   * server; the schema then accepts it exactly when the trimmed message has
   * at most 1000 UTF-16 code units, and stores the e-mail lower-cased.
   */
  lemma FormAcceptedPassesServerChecks(email: string, msg: string)
    requires HandleRemove(email, msg).Success?
    ensures var r := Server.AdmitRemoval(ToBody(HandleRemove(email, msg).value));
            && r != Failure(Server.MissingRemovalFields)
            && r != Failure(Server.InvalidEmail)
            && r != Failure(Server.MessageTooShort)
            && (r.Success? <==> JsLength(Trim(msg)) <= Schema.MsgMaxLength)
            && (r.Success? ==> r.value == Server.RemovalDraft(Lower(email), Trim(msg)))
  {
    var p := HandleRemove(email, msg).value;
    EmailPatternIff(email);
    TrimIdempotent(msg);
    assert JsLength(p.msg) >= Schema.MsgMinLength;
  }

  /** With the message box's `maxLength={1000}`, whatever the form lets through is stored. */
  lemma BoundedFormInputIsStored(email: string, msg: string)
    requires JsLength(msg) <= Schema.MsgMaxLength
    requires HandleRemove(email, msg).Success?
    ensures Server.AdmitRemoval(ToBody(HandleRemove(email, msg).value)).Success?
  {
    TrimJsLength(msg);
    FormAcceptedPassesServerChecks(email, msg);
  }
}
