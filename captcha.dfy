/**
 * How a CAPTCHA answer is chosen once the image is in hand: the OCR reading
 * when it looks like an answer, otherwise what the operator types.
 */
module CaptchaRules {
  import opened Wrappers
  import opened Text
  import opened Dom
  import opened Http

  /** The nonce `Random.Shared.Next(1, 9999)` draws. */
  type Nonce = n: int | 1 <= n <= 9998 witness 1

  /** The image request's path, carrying the nonce. */
  function CaptchaPath(nonce: Nonce): string {
    CaptchaPathPrefix + NatToString(nonce)
  }

  const CaptchaPathPrefix := "/cl-ti-itmrconsruc/captcha?accion=image&nmagic="

  /** An answer as the portal expects it: four upper-case letters or digits. */
  predicate AnswerShape(a: string) {
    |a| == 4 && ToUpper(a) == a && forall i :: 0 <= i < |a| ==> IsLetterOrDigit(a[i])
  }

  /**
   * The OCR rule: the recognised text is trimmed, stripped of spaces and
   * upper-cased, and kept only when it is four letters or digits. `None` in
   * stands for an OCR engine that failed.
   */
  function OcrAnswer(recognised: Option<string>): (r: Option<string>)
    ensures recognised.None? ==> r.None?
    ensures r.Some? ==> AnswerShape(r.value) && ' ' !in r.value
  {
    match recognised
    case None => None
    case Some(raw) =>
      var text := ToUpper(RemoveSpaces(Trim(raw)));
      if |text| == 4 && forall i :: 0 <= i < |text| ==> IsLetterOrDigit(text[i]) then
        ToUpperIdempotent(RemoveSpaces(Trim(raw)));
        ToUpperKeepsSpaces(RemoveSpaces(Trim(raw)));
        Some(text)
      else None
  }

  /** The typed answer: trimmed and upper-cased. */
  function ManualAnswer(typed: string): (r: string)
    ensures Trim(r) == r && ToUpper(r) == r
  {
    var t := Trim(typed);
    ToUpperIdempotent(t);
    ToUpperKeepsTrim(t);
    ToUpper(t)
  }

  /** The answer sent: the OCR reading when it is accepted, else the typed one. */
  function Answer(recognised: Option<string>, typed: string): (r: string)
    ensures OcrAnswer(recognised).Some? ==> r == OcrAnswer(recognised).value
    ensures OcrAnswer(recognised).None? ==> r == ManualAnswer(typed)
  {
    match OcrAnswer(recognised)
    case Some(a) => a
    case None => ManualAnswer(typed)
  }

  /** An OCR reading already in answer shape is accepted as it is: the rule keeps what it produces. */
  lemma OcrKeepsAnswers(a: string)
    requires AnswerShape(a)
    ensures OcrAnswer(Some(a)) == Some(a)
  {
    assert forall i :: 0 <= i < |a| ==> !IsWhiteSpace(a[i]) && a[i] != ' ';
    TrimKeeps(a);
    RemoveSpacesKeeps(a);
  }

  /** Typing an answer that is already trimmed and upper case sends it unchanged. */
  lemma ManualAnswerIdempotent(typed: string)
    ensures ManualAnswer(ManualAnswer(typed)) == ManualAnswer(typed)
  {
  }

  lemma ToUpperIdempotent(s: string)
    ensures ToUpper(ToUpper(s)) == ToUpper(s)
  {
  }

  /** Upper-casing leaves white space and spaces where they are. */
  lemma ToUpperKeepsSpaces(s: string)
    ensures ' ' in ToUpper(s) <==> ' ' in s
  {
    if ' ' in ToUpper(s) {
      var i :| 0 <= i < |s| && ToUpper(s)[i] == ' ';
      assert s[i] == ' ';
    }
    if ' ' in s {
      var i :| 0 <= i < |s| && s[i] == ' ';
      assert ToUpper(s)[i] == ' ';
    }
  }

  /** A trimmed string stays trimmed when upper-cased. */
  lemma ToUpperKeepsTrim(t: string)
    requires Trim(t) == t
    ensures Trim(ToUpper(t)) == ToUpper(t)
  {
    if t != [] {
      TrimKeeps(ToUpper(t));
    } else {
      assert ToUpper(t) == [];
    }
  }

  /** Removing spaces from a string without spaces changes nothing. */
  lemma {:induction false} RemoveSpacesKeeps(s: string)
    requires ' ' !in s
    ensures RemoveSpaces(s) == s
  {
    if s != [] {
      assert ' ' !in s[1..];
      RemoveSpacesKeeps(s[1..]);
      assert s == [s[0]] + s[1..];
    }
  }

  /**
   * The infrastructure solver's decision on the image reply: 401 and 404
   * skip the CAPTCHA with an empty answer, any other failing status is an
   * InvalidOperationException, a transport failure propagates, and a
   * successful reply is answered by OCR or by the operator.
   */
  function SolverOutcome(reply: Outcome<Response>, recognised: Option<string>, typed: string): (r: Outcome<string>)
    ensures reply.Thrown? ==> r == Thrown(reply.error)
    ensures reply.Ok? && reply.value.status in {401, 404} ==> r == Ok("")
    ensures reply.Ok? && reply.value.status !in {401, 404} && !IsSuccessStatusCode(reply.value.status) ==>
      r.Thrown? && r.error.InvalidOperationException?
    ensures reply.Ok? && IsSuccessStatusCode(reply.value.status) ==> r == Ok(Answer(recognised, typed))
  {
    match reply
    case Thrown(e) => Thrown(e)
    case Ok(res) =>
      if res.status == 401 || res.status == 404 then Ok("")
      else if !IsSuccessStatusCode(res.status) then
        Thrown(InvalidOperationException("Captcha request failed: " + NatToString(res.status)))
      else Ok(Answer(recognised, typed))
  }

  /** The message `EnsureSuccessStatusCode` throws with, before the status. */
  const NotSuccessMessage := "Response status code does not indicate success: "

  /**
   * The core helper's decision: `GetByteArrayAsync` turns every failing
   * status into an HttpRequestException, with no skip for 401 or 404.
   */
  function SecurityOutcome(reply: Outcome<Response>, recognised: Option<string>, typed: string): (r: Outcome<string>)
    ensures reply.Thrown? ==> r == Thrown(reply.error)
    ensures reply.Ok? && !IsSuccessStatusCode(reply.value.status) ==>
      r == Thrown(HttpRequestException(NotSuccessMessage + NatToString(reply.value.status)))
    ensures reply.Ok? && IsSuccessStatusCode(reply.value.status) ==> r == Ok(Answer(recognised, typed))
  {
    match reply
    case Thrown(e) => Thrown(e)
    case Ok(res) =>
      if !IsSuccessStatusCode(res.status) then Thrown(HttpRequestException(NotSuccessMessage + NatToString(res.status)))
      else Ok(Answer(recognised, typed))
  }

  /** Where the generations part: a 404 image reply is skipped by one and fails the request in the other. */
  lemma NotFoundSkippedOnlyByInfrastructure(body: Html, recognised: Option<string>, typed: string)
    ensures SolverOutcome(Ok(Response(404, body)), recognised, typed) == Ok("")
    ensures SecurityOutcome(Ok(Response(404, body)), recognised, typed).Thrown?
  {
  }
}
