/**
 * The portal as the clients see it: requests go out one at a time and each
 * gets the next scripted reply, a response or a transport failure.
 */
module Http {
  import opened Wrappers
  import opened Dom

  datatype Verb = GET | POST

  /** A request: its verb, its path under the portal's base address and its form fields. */
  datatype Request = Request(verb: Verb, path: string, form: Entries)

  /** A response: its status code and its body, read as a page. */
  datatype Response = Response(status: nat, body: Html)

  /** `IsSuccessStatusCode`: a status in 200..299. */
  predicate IsSuccessStatusCode(status: nat) {
    200 <= status <= 299
  }

  /** What a request fails with when the portal cannot be reached. */
  const NoResponse := HttpRequestException("No response from the portal")

  /** The reply the next request gets: the first scripted one, or a transport failure when none is left. */
  function NextReply(replies: seq<Outcome<Response>>): (r: Outcome<Response>)
    ensures replies == [] ==> r == Thrown(NoResponse)
    ensures replies != [] ==> r == replies[0]
  {
    if replies == [] then Thrown(NoResponse) else replies[0]
  }

  /** The replies left once the next request has had its reply. */
  function LaterReplies(replies: seq<Outcome<Response>>): (r: seq<Outcome<Response>>)
    ensures |r| == if replies == [] then 0 else |replies| - 1
    ensures forall i :: 0 <= i < |r| ==> r[i] == replies[i + 1]
  {
    if replies == [] then [] else replies[1..]
  }

  /** The replies left once n more requests have had theirs. */
  function After(replies: seq<Outcome<Response>>, n: nat): (r: seq<Outcome<Response>>)
    ensures n <= |replies| ==> r == replies[n..]
    ensures n >= |replies| ==> r == []
  {
    if n == 0 then replies else After(LaterReplies(replies), n - 1)
  }

  /** Requests logged in two goes are logged in order. */
  lemma LogAssoc(a: seq<Request>, b: seq<Request>, c: seq<Request>)
    ensures (a + b) + c == a + (b + c)
  {
  }

  /** The portal's side of the connection: the replies still to come and every request sent so far. */
  class Network {
    var replies: seq<Outcome<Response>>
    var sent: seq<Request>

    constructor(replies: seq<Outcome<Response>>)
      ensures this.replies == replies && sent == []
    {
      this.replies := replies;
      sent := [];
    }

    /** `SendAsync`: logs the request and hands back the next reply. */
    method Send(req: Request) returns (r: Outcome<Response>)
      modifies this
      ensures sent == old(sent) + [req]
      ensures r == NextReply(old(replies)) && replies == LaterReplies(old(replies))
    {
      sent := sent + [req];
      r := NextReply(replies);
      replies := LaterReplies(replies);
    }
  }
}
