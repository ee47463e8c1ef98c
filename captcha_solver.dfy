/** The infrastructure generation's CAPTCHA helper, which remembers the nonce it last used. */
module InfraSecurity {
  import opened Wrappers
  import opened Http
  import opened CaptchaRules

  /** `CaptchaSolver`: shares the client's connection and records `LastRandom`. */
  class CaptchaSolver {
    const http: Network
    var LastRandom: int

    constructor(http: Network)
      ensures this.http == http && LastRandom == 0
    {
      this.http := http;
      LastRandom := 0;
    }

    /**
     * `SolveCaptchaAsync`: records the nonce, requests the image carrying it
     * and decides on the reply. The nonce, the OCR reading and the typed
     * answer are supplied by the caller in place of the random source, the
     * OCR engine and the console.
     */
    method SolveCaptcha(nonce: Nonce, recognised: Option<string>, typed: string) returns (r: Outcome<string>)
      modifies this, http
      ensures LastRandom == nonce
      ensures http.sent == old(http.sent) + [Request(GET, CaptchaPath(nonce), [])]
      ensures http.replies == LaterReplies(old(http.replies))
      ensures r == SolverOutcome(NextReply(old(http.replies)), recognised, typed)
    {
      LastRandom := nonce;
      var res := http.Send(Request(GET, CaptchaPath(nonce), []));
      if res.Ok? && (res.value.status == 401 || res.value.status == 404) {
        return Ok("");
      }
      r := SolverOutcome(res, recognised, typed);
    }
  }
}
