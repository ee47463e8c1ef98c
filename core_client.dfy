/**
 * The Core generation's client (`SunatClient` of SunatScraper.Core): the
 * same request pipeline with `SunatSecurity`, list and detail pages read by
 * `RucPageParser`, and document lookups that keep the detail record as it is.
 */
module CoreClient {
  import opened Wrappers
  import opened Text
  import opened Dom
  import opened Patterns
  import opened Tokens
  import opened Http
  import opened CaptchaRules
  import opened CacheKeys
  import opened InputValidators
  import opened DomainModels
  import opened Pipeline
  import opened CoreSecurity
  import RucPageParser

  /** `RucParser.Parse(html, porDocumento)`: both flavours end in `RucPageParser.Parse`. */
  function Parsed(page: Outcome<Html>): (r: Outcome<RucInfo>)
    ensures page.Thrown? ==> r == Thrown(page.error)
    ensures page.Ok? ==> r == Ok(RucPageParser.Parse(page.value.dom))
  {
    match page
    case Thrown(e) => Thrown(e)
    case Ok(h) => Ok(RucPageParser.Parse(h.dom))
  }

  /** `RucParser.ParseList(html, porDocumento)`: both flavours end in `RucPageParser.ParseList`. */
  function Rows(page: Outcome<Html>): (r: Outcome<seq<SearchResultItem>>)
    ensures page.Thrown? ==> r == Thrown(page.error)
    ensures page.Ok? ==> r == Ok(RucPageParser.ParseList(page.value.dom))
  {
    match page
    case Thrown(e) => Thrown(e)
    case Ok(h) => Ok(RucPageParser.ParseList(h.dom))
  }

  /**
   * The effect of `ByRucAsync`: the RUC query, parsed. A cached page is
   * parsed with nothing sent; a record is only ever made of a page that is
   * then cached; no other form's cached page changes.
   */
  function Details(w: World, ruc: string, s: Supply): (r: Step<RucInfo>)
    requires Enough(s)
    ensures Cached(w, CacheKey(RucForm(ruc))).Some? ==>
      r.sent == [] && r.world == w && r.result == Ok(RucPageParser.Parse(Cached(w, CacheKey(RucForm(ruc))).value.dom))
    ensures Cached(w, CacheKey(RucForm(ruc))).None? ==> 1 <= |r.sent| <= 3 && r.sent[0] == BootstrapRequest
    ensures r.result.Ok? ==> Cached(r.world, CacheKey(RucForm(ruc))).Some?
    ensures forall k :: k != CacheKey(RucForm(ruc)) ==> Cached(r.world, k) == Cached(w, k)
  {
    var f := Fetch(Core, w, RucForm(ruc), s);
    Step(f.world, f.sent, Parsed(f.result))
  }

  /**
   * The effect of `ByDocumentoAsync`: with a RUC on the list's first row,
   * that RUC's details as they are; otherwise the list page as a record.
   */
  function DocumentoLookup(w: World, tipo: string, numero: string, s: Supply, detail: Supply): (r: Step<RucInfo>)
    requires Enough(s) && Enough(detail)
    ensures !IsValidDocumento(tipo, numero) ==> r == Step(w, [], Thrown(ArgumentException("Doc inválido")))
    ensures IsValidDocumento(tipo, numero) ==> var f := Fetch(Core, w, DocumentForm(tipo, numero), s);
      f.sent <= r.sent && (f.result.Thrown? ==> r == Step(f.world, f.sent, Thrown(f.result.error)))
    ensures r.sent != [] || r.result.Ok? ==> IsValidDocumento(tipo, numero)
  {
    if !IsValidDocumento(tipo, numero) then Step(w, [], Thrown(ArgumentException("Doc inválido")))
    else
      var f := Fetch(Core, w, DocumentForm(tipo, numero), s);
      match f.result
      case Thrown(e) => Step(f.world, f.sent, Thrown(e))
      case Ok(page) =>
        var rows := RucPageParser.ParseList(page.dom);
        if |rows| > 0 && !IsNullOrWhiteSpace(rows[0].ruc) then
          var d := Details(f.world, rows[0].ruc.value, detail);
          Step(d.world, f.sent + d.sent, d.result)
        else Step(f.world, f.sent, Ok(RucPageParser.Parse(page.dom)))
  }

  /**
   * The effect of `ByRazonAsync`: the first row followed as in a document
   * lookup, and a non-blank location of that row replaces the record's.
   */
  function RazonLookup(w: World, query: string, s: Supply, detail: Supply): (r: Step<RucInfo>)
    requires Enough(s) && Enough(detail)
    ensures !IsValidTexto(query) ==> r == Step(w, [], Thrown(ArgumentException("Texto inválido")))
    ensures IsValidTexto(query) ==> var f := Fetch(Core, w, NameForm(query), s);
      f.sent <= r.sent && (f.result.Thrown? ==> r == Step(f.world, f.sent, Thrown(f.result.error)))
    ensures r.sent != [] || r.result.Ok? ==> IsValidTexto(query)
  {
    if !IsValidTexto(query) then Step(w, [], Thrown(ArgumentException("Texto inválido")))
    else
      var f := Fetch(Core, w, NameForm(query), s);
      match f.result
      case Thrown(e) => Step(f.world, f.sent, Thrown(e))
      case Ok(page) =>
        var rows := RucPageParser.ParseList(page.dom);
        var ubicacion := if |rows| > 0 then rows[0].ubicacion else None;
        if |rows| > 0 && !IsNullOrWhiteSpace(rows[0].ruc) then
          var d := Details(f.world, rows[0].ruc.value, detail);
          Step(d.world, f.sent + d.sent, Enrich(d.result, ubicacion))
        else Step(f.world, f.sent, Enrich(Ok(RucPageParser.Parse(page.dom)), ubicacion))
  }

  /**
   * The effect of a list search: validation, then the query's rows, one per
   * result anchor of the page the query leaves cached.
   */
  function Search(w: World, valid: bool, message: string, form: Entries, s: Supply): (r: Step<seq<SearchResultItem>>)
    requires Enough(s)
    ensures !valid ==> r == Step(w, [], Thrown(ArgumentException(message)))
    ensures valid ==> (r.result.Ok? <==> Fetch(Core, w, form, s).result.Ok?)
    ensures r.result.Ok? ==>
      valid && Cached(r.world, CacheKey(form)).Some? &&
      |r.result.value| == |Cached(r.world, CacheKey(form)).value.dom.anchors|
  {
    if !valid then Step(w, [], Thrown(ArgumentException(message)))
    else
      var f := Fetch(Core, w, form, s);
      Step(f.world, f.sent, Rows(f.result))
  }

  /** Invalid input fails before any request: the world is left as it was and nothing is sent. */
  lemma InvalidInputSendsNothing(w: World, tipo: string, numero: string, query: string, s: Supply, detail: Supply)
    requires Enough(s) && Enough(detail)
    ensures !IsValidDocumento(tipo, numero) ==>
      DocumentoLookup(w, tipo, numero, s, detail) == Step(w, [], Thrown(ArgumentException("Doc inválido"))) &&
      Search(w, IsValidDocumento(tipo, numero), "Doc inválido", DocumentForm(tipo, numero), s) ==
        Step(w, [], Thrown(ArgumentException("Doc inválido")))
    ensures !IsValidTexto(query) ==>
      RazonLookup(w, query, s, detail) == Step(w, [], Thrown(ArgumentException("Texto inválido"))) &&
      Search(w, IsValidTexto(query), "Texto inválido", NameForm(query), s) ==
        Step(w, [], Thrown(ArgumentException("Texto inválido")))
  {
  }

  /**
   * A document lookup whose list has a RUC on its first row returns that
   * RUC's details exactly, location included; a lookup by name with the
   * same first row differs from them at most in the location.
   */
  lemma DocumentoKeepsDetails(w: World, tipo: string, numero: string, s: Supply, detail: Supply)
    requires Enough(s) && Enough(detail) && IsValidDocumento(tipo, numero)
    requires Fetch(Core, w, DocumentForm(tipo, numero), s).result.Ok?
    ensures var f := Fetch(Core, w, DocumentForm(tipo, numero), s);
      var rows := RucPageParser.ParseList(f.result.value.dom);
      |rows| > 0 && !IsNullOrWhiteSpace(rows[0].ruc) ==>
        DocumentoLookup(w, tipo, numero, s, detail).result == Details(f.world, rows[0].ruc.value, detail).result
  {
  }

  /** A name lookup keeps every field of the first row's details but the location, which the row's replaces when it is not blank. */
  lemma RazonEnrichesDetails(w: World, query: string, s: Supply, detail: Supply)
    requires Enough(s) && Enough(detail) && IsValidTexto(query)
    requires Fetch(Core, w, NameForm(query), s).result.Ok?
    ensures var f := Fetch(Core, w, NameForm(query), s);
      var rows := RucPageParser.ParseList(f.result.value.dom);
      |rows| > 0 && !IsNullOrWhiteSpace(rows[0].ruc) && Details(f.world, rows[0].ruc.value, detail).result.Ok? ==>
        var d := Details(f.world, rows[0].ruc.value, detail).result.value;
        var b := RazonLookup(w, query, s, detail);
        b.result.Ok? && b.result.value.(ubicacion := d.ubicacion) == d &&
        b.result.value.ubicacion == if IsNullOrWhiteSpace(rows[0].ubicacion) then d.ubicacion else rows[0].ubicacion
  {
  }

  /** `SunatClient`: the connection, its CAPTCHA helper, the two cache tiers and the cookie jar. */
  class SunatClient {
    const http: Network
    const security: SunatSecurity
    var memory: map<string, Html>
    var redis: Option<map<string, Html>>
    var cookies: Entries

    /** The helper shares the client's connection. */
    predicate Valid() {
      security.http == http
    }

    /** `Create`: empty caches and jar; Redis only when a connection is configured. */
    constructor(http: Network, redis: Option<map<string, Html>>)
      ensures Valid() && this.http == http
      ensures memory == map[] && this.redis == redis && cookies == []
    {
      this.http := http;
      security := new SunatSecurity(http);
      memory := map[];
      this.redis := redis;
      cookies := [];
    }

    /** The client's state as the pipeline sees it. */
    function State(): World
      reads this, http
    {
      World(memory, redis, cookies, http.replies)
    }

    /** `SendRawAsync`, proved to follow the shared pipeline. */
    method SendRaw(accion: string, extras: Entries, supply: Supply) returns (r: Outcome<Html>)
      requires Valid() && Enough(supply)
      modifies this, http
      ensures var f := Fetch(Core, old(State()), BaseForm(accion, extras), supply);
        r == f.result && State() == f.world && http.sent == old(http.sent) + f.sent
    {
      var form := BuildForm(accion, extras);
      var key := CacheKey(form);
      if key in memory {
        return Ok(memory[key]);
      }
      if redis.Some? && key in redis.value {
        return Ok(redis.value[key]);
      }
      r := Miss(form, supply);
    }

    /** `SendRawAsync` after both cache tiers missed: the bootstrap page, then the rest. */
    method Miss(form: Entries, supply: Supply) returns (r: Outcome<Html>)
      requires Valid() && Enough(supply)
      modifies this, http
      ensures var f := Exchange(Core, old(State()), form, supply);
        r == f.result && State() == f.world && http.sent == old(http.sent) + f.sent
    {
      ghost var w := State();
      var init, failure := Bootstrap();
      if failure.Some? {
        ExchangeStopped(Core, w, form, supply);
        return Thrown(failure.value);
      }
      ExchangeReached(Core, w, form, supply);
      ghost var mid := State();
      r := Submit(form, supply);
      LogAssoc(old(http.sent), [BootstrapRequest], Solve(Core, mid, form, supply).sent);
    }

    /** The secrets, the CAPTCHA and the query, once the bootstrap page has replied. */
    method Submit(form: Entries, supply: Supply) returns (r: Outcome<Html>)
      requires Valid() && Enough(supply)
      modifies this, http
      ensures var f := Solve(Core, old(State()), form, supply);
        r == f.result && State() == f.world && http.sent == old(http.sent) + f.sent
    {
      ghost var w := State();
      var token := GenerateToken(DefaultLength, supply.draws);
      var posted := Put(form, "token", token);
      var codigo := security.SolveCaptcha(supply.nonce, supply.recognised, supply.typed);
      assert codigo == CaptchaCode(Core, NextReply(w.replies), supply);
      assert State() == Consume(w);
      if codigo.Thrown? {
        SolveUnreached(Core, w, form, supply);
        return Thrown(codigo.error);
      }
      SolveReached(Core, w, form, supply);
      ghost var q := Query(State(), form, supply, codigo.value);
      r := Post(form, supply, posted, codigo.value, NatToString(supply.nonce));
      LogAssoc(old(http.sent), [CaptchaRequest(supply.nonce)], q.sent);
    }

    /**
     * The bootstrap request: the cookies its page assigns go into the jar
     * when the status is a success, until the jar throws on one; `failure`
     * is the exception that ends the request there, if any.
     */
    method Bootstrap() returns (init: Outcome<Response>, failure: Option<Exception>)
      modifies this, http
      ensures init == NextReply(old(http.replies)) && failure == BootFailure(init)
      ensures State() == World(old(memory), old(redis), Bootstrapped(old(cookies), init), LaterReplies(old(http.replies)))
      ensures http.sent == old(http.sent) + [BootstrapRequest]
    {
      init := http.Send(BootstrapRequest);
      failure := None;
      if init.Thrown? {
        failure := Some(init.error);
      } else if IsSuccessStatusCode(init.value.status) {
        cookies, failure := AddCookies(cookies, CookieAssignments(init.value.body.source, 0));
      }
    }

    /** The remaining secrets, added to the form after the token, and the query POST. */
    method Post(form: Entries, supply: Supply, posted: Entries, codigo: string, numRnd: string) returns (r: Outcome<Html>)
      requires Enough(supply) && posted == Put(form, "token", Token(supply)) && numRnd == NatToString(supply.nonce)
      modifies this, http
      ensures var q := Query(old(State()), form, supply, codigo);
        r == q.result && State() == q.world && http.sent == old(http.sent) + q.sent
    {
      var posted := posted;
      posted := Put(posted, "codigo", codigo);
      posted := Put(posted, "numRnd", numRnd);
      posted := Put(posted, "contexto", "ti-it");
      posted := Put(posted, "modo", "1");
      assert posted == PostForm(form, Token(supply), codigo, numRnd) by {
        PostFormSteps(form, Token(supply), codigo, numRnd);
      }
      r := Deliver(form, supply, codigo, posted);
    }

    /** The query POST itself: `EnsureSuccessStatusCode`, then the page is cached under the base form's key in both tiers. */
    method Deliver(form: Entries, supply: Supply, codigo: string, posted: Entries) returns (r: Outcome<Html>)
      requires Enough(supply) && posted == PostForm(form, Token(supply), codigo, NatToString(supply.nonce))
      modifies this, http
      ensures var q := Query(old(State()), form, supply, codigo);
        r == q.result && State() == q.world && http.sent == old(http.sent) + q.sent
    {
      var res := http.Send(Request(POST, QueryPath, posted));
      if res.Thrown? {
        return Thrown(res.error);
      }
      if !IsSuccessStatusCode(res.value.status) {
        return Thrown(HttpRequestException(NotSuccessMessage + NatToString(res.value.status)));
      }
      var html := res.value.body;
      var key := CacheKey(form);
      memory := memory[key := html];
      if redis.Some? {
        redis := Some(redis.value[key := html]);
      }
      return Ok(html);
    }

    /** `SendAsync`: the raw page, parsed as one record. */
    method Send(accion: string, extras: Entries, supply: Supply) returns (r: Outcome<RucInfo>)
      requires Valid() && Enough(supply)
      modifies this, http
      ensures var f := Fetch(Core, old(State()), BaseForm(accion, extras), supply);
        r == Parsed(f.result) && State() == f.world && http.sent == old(http.sent) + f.sent
    {
      var page := SendRaw(accion, extras, supply);
      r := Parsed(page);
    }

    /** `ByRucAsync`. */
    method ByRuc(ruc: string, supply: Supply) returns (r: Outcome<RucInfo>)
      requires Valid() && Enough(supply)
      modifies this, http
      ensures var d := Details(old(State()), ruc, supply);
        r == d.result && State() == d.world && http.sent == old(http.sent) + d.sent
    {
      r := Send("consPorRuc", [("nroRuc", ruc)], supply);
    }

    /** `ByDocumentoAsync`. */
    method ByDocumento(tipo: string, numero: string, supply: Supply, detail: Supply) returns (r: Outcome<RucInfo>)
      requires Valid() && Enough(supply) && Enough(detail)
      modifies this, http
      ensures var b := DocumentoLookup(old(State()), tipo, numero, supply, detail);
        r == b.result && State() == b.world && http.sent == old(http.sent) + b.sent
    {
      if !IsValidDocumento(tipo, numero) {
        return Thrown(ArgumentException("Doc inválido"));
      }
      ghost var w := State();
      var page := SendRaw("consPorTipdoc", [("tipdoc", tipo), ("nrodoc", numero)], supply);
      if page.Thrown? {
        return Thrown(page.error);
      }
      var rows := RucPageParser.ParseList(page.value.dom);
      if |rows| > 0 && !IsNullOrWhiteSpace(rows[0].ruc) {
        ghost var f := Fetch(Core, w, DocumentForm(tipo, numero), supply);
        r := ByRuc(rows[0].ruc.value, detail);
        LogAssoc(old(http.sent), f.sent, Details(f.world, rows[0].ruc.value, detail).sent);
        return;
      }
      return Ok(RucPageParser.Parse(page.value.dom));
    }

    /** `ByRazonAsync`. */
    method ByRazon(query: string, supply: Supply, detail: Supply) returns (r: Outcome<RucInfo>)
      requires Valid() && Enough(supply) && Enough(detail)
      modifies this, http
      ensures var b := RazonLookup(old(State()), query, supply, detail);
        r == b.result && State() == b.world && http.sent == old(http.sent) + b.sent
    {
      if !IsValidTexto(query) {
        return Thrown(ArgumentException("Texto inválido"));
      }
      ghost var w := State();
      var page := SendRaw("consPorRazonSoc", [("razSoc", query)], supply);
      if page.Thrown? {
        return Thrown(page.error);
      }
      var rows := RucPageParser.ParseList(page.value.dom);
      var ubicacion := if |rows| > 0 then rows[0].ubicacion else None;
      if |rows| > 0 && !IsNullOrWhiteSpace(rows[0].ruc) {
        ghost var f := Fetch(Core, w, NameForm(query), supply);
        var info := ByRuc(rows[0].ruc.value, detail);
        LogAssoc(old(http.sent), f.sent, Details(f.world, rows[0].ruc.value, detail).sent);
        return Enrich(info, ubicacion);
      }
      return Enrich(Ok(RucPageParser.Parse(page.value.dom)), ubicacion);
    }

    /** `SearchDocumentoAsync`. */
    method SearchDocumento(tipo: string, numero: string, supply: Supply) returns (r: Outcome<seq<SearchResultItem>>)
      requires Valid() && Enough(supply)
      modifies this, http
      ensures var b := Search(old(State()), IsValidDocumento(tipo, numero), "Doc inválido", DocumentForm(tipo, numero), supply);
        r == b.result && State() == b.world && http.sent == old(http.sent) + b.sent
    {
      if !IsValidDocumento(tipo, numero) {
        return Thrown(ArgumentException("Doc inválido"));
      }
      var page := SendRaw("consPorTipdoc", [("tipdoc", tipo), ("nrodoc", numero)], supply);
      r := Rows(page);
    }

    /** `SearchRazonAsync`. */
    method SearchRazon(query: string, supply: Supply) returns (r: Outcome<seq<SearchResultItem>>)
      requires Valid() && Enough(supply)
      modifies this, http
      ensures var b := Search(old(State()), IsValidTexto(query), "Texto inválido", NameForm(query), supply);
        r == b.result && State() == b.world && http.sent == old(http.sent) + b.sent
    {
      if !IsValidTexto(query) {
        return Thrown(ArgumentException("Texto inválido"));
      }
      var page := SendRaw("consPorRazonSoc", [("razSoc", query)], supply);
      r := Rows(page);
    }
  }
}
