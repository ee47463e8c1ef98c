/** The core generation's CAPTCHA helper: no nonce is remembered and every failing status throws. */
module CoreSecurity {
  import opened Wrappers
  import opened Http
  import opened CaptchaRules

  /** `SunatSecurity`: holds only the client's connection. */
  class SunatSecurity {
    const http: Network

    constructor(http: Network)
      ensures this.http == http
    {
      this.http := http;
    }

    /**
     * `SolveCaptchaAsync`: requests the image carrying the nonce and, when
     * the download succeeds, answers by OCR or by the operator.
     */
    method SolveCaptcha(nonce: Nonce, recognised: Option<string>, typed: string) returns (r: Outcome<string>)
      modifies http
      ensures http.sent == old(http.sent) + [Request(GET, CaptchaPath(nonce), [])]
      ensures http.replies == LaterReplies(old(http.replies))
      ensures r == SecurityOutcome(NextReply(old(http.replies)), recognised, typed)
    {
      var res := http.Send(Request(GET, CaptchaPath(nonce), []));
      r := SecurityOutcome(res, recognised, typed);
    }
  }
}
