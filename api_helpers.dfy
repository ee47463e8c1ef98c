/**
 * The HTTP API's result mapping (`ApiHelpers`): records and lists become 200
 * or 404 replies, and the exceptions of a lookup become 400 or 503 replies.
 */
module ApiHelpers {
  import opened Wrappers
  import opened Text
  import opened Dom
  import opened Http
  import opened CacheKeys
  import opened InputValidators
  import opened DomainModels
  import opened Pipeline
  import InfraClient

  /** What a reply carries: the value as JSON, or an `ApiError` with its message. */
  datatype Payload<+T> = Value(value: T) | ApiError(mensaje: string)

  /** An `IResult` of `Results.Json`: a status code and its payload. */
  datatype Reply<+T> = Reply(status: nat, payload: Payload<T>)

  const NotFoundMessage := "Registro no encontrado"
  const UnavailableMessage := "No se obtuvo respuesta del portal de SUNAT"

  /** `ToResult(RucInfo)`: a record without a RUC is "not found". */
  function ToResult(info: RucInfo): (r: Reply<RucInfo>)
    ensures r.status == 404 <==> IsNullOrWhiteSpace(info.ruc)
    ensures r.status == 404 ==> r.payload == ApiError(NotFoundMessage)
    ensures r.status != 404 ==> r == Reply(200, Value(info))
  {
    if IsNullOrWhiteSpace(info.ruc) then Reply(404, ApiError(NotFoundMessage)) else Reply(200, Value(info))
  }

  /** `ToResult(IReadOnlyList)`: an empty list is "not found". */
  function ToListResult<T>(list: seq<T>): (r: Reply<seq<T>>)
    ensures r.status == 404 <==> list == []
    ensures r.status == 404 ==> r.payload == ApiError(NotFoundMessage)
    ensures r.status != 404 ==> r == Reply(200, Value(list))
  {
    if |list| == 0 then Reply(404, ApiError(NotFoundMessage)) else Reply(200, Value(list))
  }

  /**
   * `Execute`: the action's reply when it returns one; an ArgumentException
   * becomes 400 with its message, an HttpRequestException 503 with a fixed
   * message, and any other exception propagates.
   */
  function Execute<T>(action: Outcome<Reply<T>>): (r: Outcome<Reply<T>>)
    ensures action.Ok? ==> r == action
    ensures action.Thrown? && action.error.ArgumentException? ==> r == Ok(Reply(400, ApiError(action.error.message)))
    ensures action.Thrown? && action.error.HttpRequestException? ==> r == Ok(Reply(503, ApiError(UnavailableMessage)))
    ensures r.Thrown? <==> action.Thrown? && (action.error.InvalidOperationException? || action.error.CookieException?)
    ensures r.Thrown? ==> r == action
  {
    match action
    case Ok(reply) => Ok(reply)
    case Thrown(e) =>
      match e
      case ArgumentException(m) => Ok(Reply(400, ApiError(m)))
      case HttpRequestException(_) => Ok(Reply(503, ApiError(UnavailableMessage)))
      case InvalidOperationException(_) => Thrown(e)
      case CookieException(_) => Thrown(e)
  }

  /** A record endpoint: `Execute(async () => ToResult(await lookup))`. */
  function RecordEndpoint(lookup: Outcome<RucInfo>): Outcome<Reply<RucInfo>> {
    Execute(match lookup case Ok(info) => Ok(ToResult(info)) case Thrown(e) => Thrown(e))
  }

  /** An invalid document is a bad request carrying "Doc inválido", and the portal is never contacted. */
  lemma InvalidDocumentIsBadRequest(w: World, tipo: string, numero: string, s: Supply, detail: Supply)
    requires Enough(s) && Enough(detail) && !IsValidDocumento(tipo, numero)
    ensures var b := InfraClient.ByDocument(w, tipo, numero, s, detail);
      b.sent == [] && b.world == w && RecordEndpoint(b.result) == Ok(Reply(400, ApiError("Doc inválido")))
  {
  }

  /** A RUC that is not cached, asked of a portal that does not answer, is a 503 reply after the one bootstrap request. */
  lemma UnreachablePortalIsUnavailable(w: World, ruc: string, s: Supply)
    requires Enough(s) && w.replies == [] && Cached(w, CacheKey(RucForm(ruc))).None?
    ensures var d := InfraClient.Details(w, ruc, s);
      d.sent == [BootstrapRequest] && RecordEndpoint(d.result) == Ok(Reply(503, ApiError(UnavailableMessage)))
  {
    ExchangeUnreached(Infrastructure, w, RucForm(ruc), s);
  }

  /** A cached page is answered from the cache: no request is made, and the reply is the mapping of its record. */
  lemma CachedRecordIsServed(w: World, ruc: string, s: Supply, page: Html)
    requires Enough(s) && Cached(w, CacheKey(RucForm(ruc))) == Some(page)
    requires InfraClient.Parsed(Ok(page)).Ok?
    ensures var d := InfraClient.Details(w, ruc, s);
      d.sent == [] && d.world == w &&
      RecordEndpoint(d.result) == Ok(ToResult(InfraClient.Parsed(Ok(page)).value))
  {
  }
}
