/**
 * The Infrastructure generation's client (`SunatClient` of
 * SunatScraper.Infrastructure): validation, the shared request pipeline with
 * `CaptchaSolver`, and the HtmlParserCommon / SearchListHtmlParser parsers.
 */
module InfraClient {
  import opened Wrappers
  import opened Text
  import opened Dom
  import opened Patterns
  import opened Tokens
  import opened Http
  import opened CaptchaRules
  import opened CacheKeys
  import opened InputValidators
  import opened DomainModels
  import opened Pipeline
  import opened InfraSecurity
  import HtmlParserCommon
  import SearchListHtmlParser

  /** `RucParser.Parse`: a fetched page as a record; both flavours go to ParseRucInfo. */
  function Parsed(page: Outcome<Html>): (r: Outcome<RucInfo>)
    ensures page.Thrown? ==> r == Thrown(page.error)
    ensures page.Ok? ==> r == HtmlParserCommon.ParseRucInfo(page.value.dom)
  {
    match page
    case Thrown(e) => Thrown(e)
    case Ok(h) => HtmlParserCommon.ParseRucInfo(h.dom)
  }

  /** `RucParser.ParseList`: a fetched page as its result rows. */
  function Rows(page: Outcome<Html>): (r: Outcome<seq<SearchResultItem>>)
    ensures page.Thrown? ==> r == Thrown(page.error)
    ensures page.Ok? ==> r == Ok(SearchListHtmlParser.ParseList(page.value.dom))
  {
    match page
    case Thrown(e) => Thrown(e)
    case Ok(h) => Ok(SearchListHtmlParser.ParseList(h.dom))
  }

  /**
   * The effect of `GetByRucAsync`: the RUC query, parsed. A cached page is
   * parsed with nothing sent; a record is only ever made of a page that is
   * then cached; no other form's cached page changes.
   */
  function Details(w: World, ruc: string, s: Supply): (r: Step<RucInfo>)
    requires Enough(s)
    ensures Cached(w, CacheKey(RucForm(ruc))).Some? ==>
      r.sent == [] && r.world == w && r.result == HtmlParserCommon.ParseRucInfo(Cached(w, CacheKey(RucForm(ruc))).value.dom)
    ensures Cached(w, CacheKey(RucForm(ruc))).None? ==> 1 <= |r.sent| <= 3 && r.sent[0] == BootstrapRequest
    ensures r.result.Ok? ==> Cached(r.world, CacheKey(RucForm(ruc))).Some?
    ensures forall k :: k != CacheKey(RucForm(ruc)) ==> Cached(r.world, k) == Cached(w, k)
  {
    var f := Fetch(Infrastructure, w, RucForm(ruc), s);
    Step(f.world, f.sent, Parsed(f.result))
  }

  /**
   * A list query followed to its first row: with a RUC on that row, the
   * details of that RUC; otherwise the list page itself as a record. Either
   * way a non-blank location of the first row replaces the record's.
   */
  function Lookup(w: World, form: Entries, s: Supply, detail: Supply): (r: Step<RucInfo>)
    requires Enough(s) && Enough(detail)
    ensures var f := Fetch(Infrastructure, w, form, s);
      f.sent <= r.sent && (f.result.Thrown? ==> r == Step(f.world, f.sent, Thrown(f.result.error)))
  {
    var f := Fetch(Infrastructure, w, form, s);
    match f.result
    case Thrown(e) => Step(f.world, f.sent, Thrown(e))
    case Ok(page) =>
      var rows := SearchListHtmlParser.ParseList(page.dom);
      var ubicacion := if |rows| > 0 then rows[0].ubicacion else None;
      if |rows| > 0 && !IsNullOrWhiteSpace(rows[0].ruc) then
        var d := Details(f.world, rows[0].ruc.value, detail);
        Step(d.world, f.sent + d.sent, Enrich(d.result, ubicacion))
      else Step(f.world, f.sent, Enrich(HtmlParserCommon.ParseRucInfo(page.dom), ubicacion))
  }

  /** The effect of `GetByDocumentAsync`: an invalid document fails with nothing sent, a valid one is looked up. */
  function ByDocument(w: World, tipo: string, numero: string, s: Supply, detail: Supply): (r: Step<RucInfo>)
    requires Enough(s) && Enough(detail)
    ensures !IsValidDocumento(tipo, numero) ==> r == Step(w, [], Thrown(ArgumentException("Doc inválido")))
    ensures IsValidDocumento(tipo, numero) ==> r == Lookup(w, DocumentForm(tipo, numero), s, detail)
    ensures r.sent != [] || r.result.Ok? ==> IsValidDocumento(tipo, numero)
  {
    if !IsValidDocumento(tipo, numero) then Step(w, [], Thrown(ArgumentException("Doc inválido")))
    else Lookup(w, DocumentForm(tipo, numero), s, detail)
  }

  /** The effect of `GetByNameAsync`: an invalid text fails with nothing sent, a valid one is looked up. */
  function ByName(w: World, query: string, s: Supply, detail: Supply): (r: Step<RucInfo>)
    requires Enough(s) && Enough(detail)
    ensures !IsValidTexto(query) ==> r == Step(w, [], Thrown(ArgumentException("Texto inválido")))
    ensures IsValidTexto(query) ==> r == Lookup(w, NameForm(query), s, detail)
    ensures r.sent != [] || r.result.Ok? ==> IsValidTexto(query)
  {
    if !IsValidTexto(query) then Step(w, [], Thrown(ArgumentException("Texto inválido")))
    else Lookup(w, NameForm(query), s, detail)
  }

  /**
   * The effect of a list search: validation, then the query's rows, one per
   * result anchor of the page the query leaves cached.
   */
  function Search(w: World, valid: bool, message: string, form: Entries, s: Supply): (r: Step<seq<SearchResultItem>>)
    requires Enough(s)
    ensures !valid ==> r == Step(w, [], Thrown(ArgumentException(message)))
    ensures valid ==> (r.result.Ok? <==> Fetch(Infrastructure, w, form, s).result.Ok?)
    ensures r.result.Ok? ==>
      valid && Cached(r.world, CacheKey(form)).Some? &&
      |r.result.value| == |Cached(r.world, CacheKey(form)).value.dom.anchors|
  {
    if !valid then Step(w, [], Thrown(ArgumentException(message)))
    else
      var f := Fetch(Infrastructure, w, form, s);
      Step(f.world, f.sent, Rows(f.result))
  }

  /** `Task.WhenAll` of the results so far and the next one: the first failure in order wins. */
  function Join(done: Outcome<seq<RucInfo>>, next: Outcome<RucInfo>): (r: Outcome<seq<RucInfo>>)
    ensures done.Thrown? ==> r == done
    ensures done.Ok? && next.Thrown? ==> r == Thrown(next.error)
    ensures done.Ok? && next.Ok? ==> r == Ok(done.value + [next.value])
  {
    match done
    case Thrown(e) => Thrown(e)
    case Ok(rs) =>
      match next
      case Thrown(e) => Thrown(e)
      case Ok(x) => Ok(rs + [x])
  }

  /** The RUC queries of a batch, one after the other. */
  function Batch(w: World, rucs: seq<string>, supplies: seq<Supply>): (r: Step<seq<RucInfo>>)
    requires |supplies| == |rucs| && forall i :: 0 <= i < |supplies| ==> Enough(supplies[i])
    ensures rucs == [] ==> r == Step(w, [], Ok([]))
    ensures r.result.Ok? ==> |r.result.value| == |rucs|
    decreases |rucs|
  {
    if rucs == [] then Step(w, [], Ok([]))
    else
      var n := |rucs| - 1;
      var p := Batch(w, rucs[..n], supplies[..n]);
      var d := Details(p.world, rucs[n], supplies[n]);
      Step(d.world, p.sent + d.sent, Join(p.result, d.result))
  }

  /** The position of the first RUC that fails validation, or the length when none does. */
  function FirstInvalid(rucs: seq<string>): (i: nat)
    ensures i <= |rucs|
    ensures forall j :: 0 <= j < i ==> IsValidRuc(rucs[j])
    ensures i < |rucs| ==> !IsValidRuc(rucs[i])
  {
    if rucs == [] || !IsValidRuc(rucs[0]) then 0 else 1 + FirstInvalid(rucs[1..])
  }

  /**
   * The effect of `GetByRucsAsync`: the queries of the RUCs before the first
   * invalid one are made, and an invalid RUC fails the whole batch.
   */
  function ByRucs(w: World, rucs: seq<string>, supplies: seq<Supply>): (r: Step<seq<RucInfo>>)
    requires |supplies| == |rucs| && forall i :: 0 <= i < |supplies| ==> Enough(supplies[i])
    ensures r.result.Ok? ==> (forall j :: 0 <= j < |rucs| ==> IsValidRuc(rucs[j])) && |r.result.value| == |rucs|
    ensures (exists j :: 0 <= j < |rucs| && !IsValidRuc(rucs[j])) ==> r.result == Thrown(ArgumentException("RUC inválido"))
  {
    var i := FirstInvalid(rucs);
    var b := Batch(w, rucs[..i], supplies[..i]);
    if i < |rucs| then Step(b.world, b.sent, Thrown(ArgumentException("RUC inválido"))) else b
  }

  /** One more RUC in a batch: its query runs on the world the earlier ones left. */
  lemma BatchStep(w: World, rucs: seq<string>, supplies: seq<Supply>, i: nat)
    requires |supplies| == |rucs| && forall j :: 0 <= j < |supplies| ==> Enough(supplies[j])
    requires i < |rucs|
    ensures var p := Batch(w, rucs[..i], supplies[..i]);
      var d := Details(p.world, rucs[i], supplies[i]);
      Batch(w, rucs[..i + 1], supplies[..i + 1]) == Step(d.world, p.sent + d.sent, Join(p.result, d.result))
  {
    assert rucs[..i + 1][..i] == rucs[..i] && rucs[..i + 1][i] == rucs[i];
    assert supplies[..i + 1][..i] == supplies[..i] && supplies[..i + 1][i] == supplies[i];
  }

  /** Where the batch stops: at the first invalid RUC, or after the last one. */
  lemma ByRucsStopsAt(w: World, rucs: seq<string>, supplies: seq<Supply>, i: nat)
    requires |supplies| == |rucs| && forall j :: 0 <= j < |supplies| ==> Enough(supplies[j])
    requires i <= |rucs| && (forall j :: 0 <= j < i ==> IsValidRuc(rucs[j])) && (i < |rucs| ==> !IsValidRuc(rucs[i]))
    ensures var b := Batch(w, rucs[..i], supplies[..i]);
      ByRucs(w, rucs, supplies) == if i < |rucs| then Step(b.world, b.sent, Thrown(ArgumentException("RUC inválido"))) else b
  {
    assert FirstInvalid(rucs) == i;
    assert rucs[..|rucs|] == rucs && supplies[..|rucs|] == supplies;
  }

  /** `Task.WhenAll` over outcomes in order: the records in order, or the first failure. */
  function JoinAll(items: seq<Outcome<RucInfo>>): (r: Outcome<seq<RucInfo>>)
    ensures items == [] ==> r == Ok([])
    ensures r.Ok? ==> |r.value| == |items|
    decreases |items|
  {
    if items == [] then Ok([]) else Join(JoinAll(items[..|items| - 1]), items[|items| - 1])
  }

  /**
   * `Task.WhenAll` keeps the input order: it succeeds exactly when every
   * task does, its i-th record is the i-th task's, and a failure is the
   * first failed task's exception.
   */
  lemma {:induction false} JoinAllInOrder(items: seq<Outcome<RucInfo>>)
    ensures JoinAll(items).Ok? <==> forall j :: 0 <= j < |items| ==> items[j].Ok?
    ensures JoinAll(items).Ok? ==>
      |JoinAll(items).value| == |items| && forall j :: 0 <= j < |items| ==> items[j] == Ok(JoinAll(items).value[j])
    ensures JoinAll(items).Thrown? ==>
      exists j :: 0 <= j < |items| && items[j] == Thrown(JoinAll(items).error) && forall k :: 0 <= k < j ==> items[k].Ok?
    decreases |items|
  {
    if items != [] {
      var n := |items| - 1;
      var p := items[..n];
      JoinAllInOrder(p);
      assert forall j :: 0 <= j < n ==> p[j] == items[j];
      if JoinAll(p).Thrown? {
        var j :| 0 <= j < n && p[j] == Thrown(JoinAll(p).error) && forall k :: 0 <= k < j ==> p[k].Ok?;
        assert items[j] == Thrown(JoinAll(items).error);
      } else if items[n].Thrown? {
        assert items[n] == Thrown(JoinAll(items).error);
      }
    }
  }

  /** The outcomes of a batch's RUC queries, in the order they are made. */
  function Outcomes(w: World, rucs: seq<string>, supplies: seq<Supply>): (r: seq<Outcome<RucInfo>>)
    requires |supplies| == |rucs| && forall i :: 0 <= i < |supplies| ==> Enough(supplies[i])
    ensures |r| == |rucs|
    decreases |rucs|
  {
    if rucs == [] then []
    else
      var n := |rucs| - 1;
      Outcomes(w, rucs[..n], supplies[..n]) + [Details(Batch(w, rucs[..n], supplies[..n]).world, rucs[n], supplies[n]).result]
  }

  /** A batch's result is `Task.WhenAll` of its queries' outcomes. */
  lemma {:induction false} BatchJoinsOutcomes(w: World, rucs: seq<string>, supplies: seq<Supply>)
    requires |supplies| == |rucs| && forall i :: 0 <= i < |supplies| ==> Enough(supplies[i])
    ensures Batch(w, rucs, supplies).result == JoinAll(Outcomes(w, rucs, supplies))
    decreases |rucs|
  {
    if rucs != [] {
      var n := |rucs| - 1;
      BatchJoinsOutcomes(w, rucs[..n], supplies[..n]);
      var os := Outcomes(w, rucs, supplies);
      assert os[..n] == Outcomes(w, rucs[..n], supplies[..n]);
    }
  }

  /** Validation stops the batch: with every RUC valid it is the plain batch, and one invalid RUC fails it with "RUC inválido". */
  lemma ByRucsValidation(w: World, rucs: seq<string>, supplies: seq<Supply>)
    requires |supplies| == |rucs| && forall i :: 0 <= i < |supplies| ==> Enough(supplies[i])
    ensures (forall j :: 0 <= j < |rucs| ==> IsValidRuc(rucs[j])) ==> ByRucs(w, rucs, supplies) == Batch(w, rucs, supplies)
    ensures (exists j :: 0 <= j < |rucs| && !IsValidRuc(rucs[j])) ==>
      ByRucs(w, rucs, supplies).result == Thrown(ArgumentException("RUC inválido"))
  {
    if forall j :: 0 <= j < |rucs| ==> IsValidRuc(rucs[j]) {
      ByRucsAllValid(w, rucs, supplies);
    } else {
      var j :| 0 <= j < |rucs| && !IsValidRuc(rucs[j]);
      assert FirstInvalid(rucs) <= j;
    }
  }

  /** With every RUC valid, the batch runs over all of them. */
  lemma ByRucsAllValid(w: World, rucs: seq<string>, supplies: seq<Supply>)
    requires |supplies| == |rucs| && forall i :: 0 <= i < |supplies| ==> Enough(supplies[i])
    requires forall j :: 0 <= j < |rucs| ==> IsValidRuc(rucs[j])
    ensures ByRucs(w, rucs, supplies) == Batch(w, rucs, supplies)
  {
    ByRucsStopsAt(w, rucs, supplies, |rucs|);
    assert rucs[..|rucs|] == rucs && supplies[..|rucs|] == supplies;
  }

  /** Nothing after the first invalid RUC is queried: the rest of the batch makes no difference. */
  lemma ByRucsIgnoresTail(w: World, rucs: seq<string>, supplies: seq<Supply>, i: nat)
    requires |supplies| == |rucs| && forall j :: 0 <= j < |supplies| ==> Enough(supplies[j])
    requires i < |rucs| && !IsValidRuc(rucs[i])
    ensures ByRucs(w, rucs, supplies) == ByRucs(w, rucs[..i + 1], supplies[..i + 1])
  {
    var k := FirstInvalid(rucs);
    assert k <= i;
    assert forall j :: 0 <= j < k ==> rucs[..i + 1][j] == rucs[j];
    assert rucs[..i + 1][k] == rucs[k];
    assert FirstInvalid(rucs[..i + 1]) == k;
    assert rucs[..i + 1][..k] == rucs[..k] && supplies[..i + 1][..k] == supplies[..k];
  }

  /** A RUC fetched once is served from the cache the next time, with no request. */
  lemma RucCachedAfterFetch(w: World, ruc: string, s: Supply, next: Supply)
    requires Enough(s) && Enough(next) && Fetch(Infrastructure, w, RucForm(ruc), s).result.Ok?
    ensures var d := Details(w, ruc, s);
      Details(d.world, ruc, next) == Step(d.world, [], d.result)
  {
    FetchThenHit(Infrastructure, w, RucForm(ruc), s, next);
  }

  /**
   * A lookup whose list has a RUC on its first row agrees with the RUC's
   * own lookup in every field but the location, which is the row's when it
   * is not blank.
   */
  lemma LookupFollowsFirstRow(w: World, form: Entries, s: Supply, detail: Supply)
    requires Enough(s) && Enough(detail)
    requires Fetch(Infrastructure, w, form, s).result.Ok?
    ensures var f := Fetch(Infrastructure, w, form, s);
      var rows := SearchListHtmlParser.ParseList(f.result.value.dom);
      |rows| > 0 && !IsNullOrWhiteSpace(rows[0].ruc) ==>
        var d := Details(f.world, rows[0].ruc.value, detail);
        var l := Lookup(w, form, s, detail);
        l.world == d.world && l.sent == f.sent + d.sent &&
        (d.result.Thrown? ==> l.result == d.result) &&
        (d.result.Ok? ==>
          l.result.Ok? && l.result.value.(ubicacion := d.result.value.ubicacion) == d.result.value &&
          l.result.value.ubicacion == if IsNullOrWhiteSpace(rows[0].ubicacion) then d.result.value.ubicacion else rows[0].ubicacion)
  {
  }

  /** `SunatClient`: the connection, its CAPTCHA solver, the two cache tiers and the cookie jar. */
  class SunatClient {
    const http: Network
    const security: CaptchaSolver
    var memory: map<string, Html>
    var redis: Option<map<string, Html>>
    var cookies: Entries

    /** The solver shares the client's connection. */
    predicate Valid() {
      security.http == http
    }

    /** `Create`: empty caches and jar; Redis only when a connection is configured. */
    constructor(http: Network, redis: Option<map<string, Html>>)
      ensures Valid() && this.http == http
      ensures memory == map[] && this.redis == redis && cookies == []
    {
      this.http := http;
      security := new CaptchaSolver(http);
      memory := map[];
      this.redis := redis;
      cookies := [];
    }

    /** The client's state as the pipeline sees it. */
    function State(): World
      reads this, http
    {
      World(memory, redis, cookies, http.replies)
    }

    /** `SendRawAsync`, proved to follow the shared pipeline. */
    method SendRaw(accion: string, extras: Entries, supply: Supply) returns (r: Outcome<Html>)
      requires Valid() && Enough(supply)
      modifies this, http, security
      ensures var f := Fetch(Infrastructure, old(State()), BaseForm(accion, extras), supply);
        r == f.result && State() == f.world && http.sent == old(http.sent) + f.sent
      ensures var f := Fetch(Infrastructure, old(State()), BaseForm(accion, extras), supply);
        security.LastRandom == if |f.sent| >= 2 then supply.nonce else old(security.LastRandom)
    {
      var form := BuildForm(accion, extras);
      var key := CacheKey(form);
      if key in memory {
        return Ok(memory[key]);
      }
      if redis.Some? && key in redis.value {
        return Ok(redis.value[key]);
      }
      r := Miss(form, supply);
    }

    /** `SendRawAsync` after both cache tiers missed: the bootstrap page, then the rest. */
    method Miss(form: Entries, supply: Supply) returns (r: Outcome<Html>)
      requires Valid() && Enough(supply)
      modifies this, http, security
      ensures var f := Exchange(Infrastructure, old(State()), form, supply);
        r == f.result && State() == f.world && http.sent == old(http.sent) + f.sent
      ensures var f := Exchange(Infrastructure, old(State()), form, supply);
        security.LastRandom == if |f.sent| >= 2 then supply.nonce else old(security.LastRandom)
    {
      ghost var w := State();
      var init, failure := Bootstrap();
      if failure.Some? {
        ExchangeStopped(Infrastructure, w, form, supply);
        return Thrown(failure.value);
      }
      ExchangeReached(Infrastructure, w, form, supply);
      ghost var mid := State();
      r := Submit(form, supply);
      LogAssoc(old(http.sent), [BootstrapRequest], Solve(Infrastructure, mid, form, supply).sent);
    }

    /** The secrets, the CAPTCHA and the query, once the bootstrap page has replied. */
    method Submit(form: Entries, supply: Supply) returns (r: Outcome<Html>)
      requires Valid() && Enough(supply)
      modifies this, http, security
      ensures var f := Solve(Infrastructure, old(State()), form, supply);
        r == f.result && State() == f.world && http.sent == old(http.sent) + f.sent
      ensures security.LastRandom == supply.nonce
    {
      ghost var w := State();
      var token := GenerateToken(DefaultLength, supply.draws);
      var posted := Put(form, "token", token);
      var codigo := security.SolveCaptcha(supply.nonce, supply.recognised, supply.typed);
      assert codigo == CaptchaCode(Infrastructure, NextReply(w.replies), supply);
      assert State() == Consume(w);
      if codigo.Thrown? {
        SolveUnreached(Infrastructure, w, form, supply);
        return Thrown(codigo.error);
      }
      SolveReached(Infrastructure, w, form, supply);
      ghost var q := Query(State(), form, supply, codigo.value);
      r := Post(form, supply, posted, codigo.value, NatToString(security.LastRandom));
      LogAssoc(old(http.sent), [CaptchaRequest(supply.nonce)], q.sent);
    }

    /** `SendAsync`: the raw page, parsed as one record. */
    method Send(accion: string, extras: Entries, supply: Supply) returns (r: Outcome<RucInfo>)
      requires Valid() && Enough(supply)
      modifies this, http, security
      ensures var f := Fetch(Infrastructure, old(State()), BaseForm(accion, extras), supply);
        r == Parsed(f.result) && State() == f.world && http.sent == old(http.sent) + f.sent
    {
      var page := SendRaw(accion, extras, supply);
      r := Parsed(page);
    }

    /** `GetByRucAsync`. */
    method GetByRuc(ruc: string, supply: Supply) returns (r: Outcome<RucInfo>)
      requires Valid() && Enough(supply)
      modifies this, http, security
      ensures var d := Details(old(State()), ruc, supply);
        r == d.result && State() == d.world && http.sent == old(http.sent) + d.sent
    {
      r := Send("consPorRuc", [("nroRuc", ruc)], supply);
    }

    /**
     * `GetByRucsAsync`: each RUC is validated as it is reached and queried
     * when valid; the first invalid one fails the batch, and the results
     * come back in input order.
     */
    method GetByRucs(rucs: seq<string>, supplies: seq<Supply>) returns (r: Outcome<seq<RucInfo>>)
      requires Valid() && |supplies| == |rucs| && forall i :: 0 <= i < |supplies| ==> Enough(supplies[i])
      modifies this, http, security
      ensures var b := ByRucs(old(State()), rucs, supplies);
        r == b.result && State() == b.world && http.sent == old(http.sent) + b.sent
    {
      ghost var w := State();
      var done: Outcome<seq<RucInfo>> := Ok([]);
      for i := 0 to |rucs|
        invariant Valid()
        invariant forall j :: 0 <= j < i ==> IsValidRuc(rucs[j])
        invariant var b := Batch(w, rucs[..i], supplies[..i]);
          done == b.result && State() == b.world && http.sent == old(http.sent) + b.sent
      {
        if !IsValidRuc(rucs[i]) {
          ByRucsStopsAt(w, rucs, supplies, i);
          return Thrown(ArgumentException("RUC inválido"));
        }
        assert forall j :: 0 <= j < i + 1 ==> IsValidRuc(rucs[j]);
        done := Next(w, old(http.sent), rucs, supplies, i, done);
      }
      ByRucsStopsAt(w, rucs, supplies, |rucs|);
      r := done;
    }

    /** One RUC of a batch: its query, joined to the results so far. */
    method Next(ghost w: World, ghost sent: seq<Request>, rucs: seq<string>, supplies: seq<Supply>, i: nat, done: Outcome<seq<RucInfo>>)
      returns (joined: Outcome<seq<RucInfo>>)
      requires Valid() && |supplies| == |rucs| && forall j :: 0 <= j < |supplies| ==> Enough(supplies[j])
      requires i < |rucs|
      requires var b := Batch(w, rucs[..i], supplies[..i]);
        done == b.result && State() == b.world && http.sent == sent + b.sent
      modifies this, http, security
      ensures var b := Batch(w, rucs[..i + 1], supplies[..i + 1]);
        joined == b.result && State() == b.world && http.sent == sent + b.sent
    {
      ghost var p := Batch(w, rucs[..i], supplies[..i]);
      var next := GetByRuc(rucs[i], supplies[i]);
      joined := Join(done, next);
      BatchStep(w, rucs, supplies, i);
      LogAssoc(sent, p.sent, Details(p.world, rucs[i], supplies[i]).sent);
    }

    /** The shared tail of `GetByDocumentAsync` and `GetByNameAsync`: the list query followed to its first row. */
    method FollowFirst(accion: string, extras: Entries, supply: Supply, detail: Supply) returns (r: Outcome<RucInfo>)
      requires Valid() && Enough(supply) && Enough(detail)
      modifies this, http, security
      ensures var l := Lookup(old(State()), BaseForm(accion, extras), supply, detail);
        r == l.result && State() == l.world && http.sent == old(http.sent) + l.sent
    {
      ghost var w := State();
      var page := SendRaw(accion, extras, supply);
      if page.Thrown? {
        return Thrown(page.error);
      }
      var rows := SearchListHtmlParser.ParseList(page.value.dom);
      var ubicacion := if |rows| > 0 then rows[0].ubicacion else None;
      if |rows| > 0 && !IsNullOrWhiteSpace(rows[0].ruc) {
        ghost var f := Fetch(Infrastructure, w, BaseForm(accion, extras), supply);
        var details := GetByRuc(rows[0].ruc.value, detail);
        LogAssoc(old(http.sent), f.sent, Details(f.world, rows[0].ruc.value, detail).sent);
        return Enrich(details, ubicacion);
      }
      return Enrich(HtmlParserCommon.ParseRucInfo(page.value.dom), ubicacion);
    }

    /** `GetByDocumentAsync`. */
    method GetByDocument(tipo: string, numero: string, supply: Supply, detail: Supply) returns (r: Outcome<RucInfo>)
      requires Valid() && Enough(supply) && Enough(detail)
      modifies this, http, security
      ensures var b := ByDocument(old(State()), tipo, numero, supply, detail);
        r == b.result && State() == b.world && http.sent == old(http.sent) + b.sent
    {
      if !IsValidDocumento(tipo, numero) {
        return Thrown(ArgumentException("Doc inválido"));
      }
      r := FollowFirst("consPorTipdoc", [("tipdoc", tipo), ("nrodoc", numero)], supply, detail);
    }

    /** `GetByNameAsync`. */
    method GetByName(query: string, supply: Supply, detail: Supply) returns (r: Outcome<RucInfo>)
      requires Valid() && Enough(supply) && Enough(detail)
      modifies this, http, security
      ensures var b := ByName(old(State()), query, supply, detail);
        r == b.result && State() == b.world && http.sent == old(http.sent) + b.sent
    {
      if !IsValidTexto(query) {
        return Thrown(ArgumentException("Texto inválido"));
      }
      r := FollowFirst("consPorRazonSoc", [("razSoc", query)], supply, detail);
    }

    /** `SearchByDocumentAsync`. */
    method SearchByDocument(tipo: string, numero: string, supply: Supply) returns (r: Outcome<seq<SearchResultItem>>)
      requires Valid() && Enough(supply)
      modifies this, http, security
      ensures var b := Search(old(State()), IsValidDocumento(tipo, numero), "Doc inválido", DocumentForm(tipo, numero), supply);
        r == b.result && State() == b.world && http.sent == old(http.sent) + b.sent
    {
      if !IsValidDocumento(tipo, numero) {
        return Thrown(ArgumentException("Doc inválido"));
      }
      var page := SendRaw("consPorTipdoc", [("tipdoc", tipo), ("nrodoc", numero)], supply);
      r := Rows(page);
    }

    /** `SearchByNameAsync`. */
    method SearchByName(query: string, supply: Supply) returns (r: Outcome<seq<SearchResultItem>>)
      requires Valid() && Enough(supply)
      modifies this, http, security
      ensures var b := Search(old(State()), IsValidTexto(query), "Texto inválido", NameForm(query), supply);
        r == b.result && State() == b.world && http.sent == old(http.sent) + b.sent
    {
      if !IsValidTexto(query) {
        return Thrown(ArgumentException("Texto inválido"));
      }
      var page := SendRaw("consPorRazonSoc", [("razSoc", query)], supply);
      r := Rows(page);
    }

    /**
     * The bootstrap request: the cookies its page assigns go into the jar
     * when the status is a success, until the jar throws on one; `failure`
     * is the exception that ends the request there, if any.
     */
    method Bootstrap() returns (init: Outcome<Response>, failure: Option<Exception>)
      modifies this, http
      ensures init == NextReply(old(http.replies)) && failure == BootFailure(init)
      ensures State() == World(old(memory), old(redis), Bootstrapped(old(cookies), init), LaterReplies(old(http.replies)))
      ensures http.sent == old(http.sent) + [BootstrapRequest]
    {
      init := http.Send(BootstrapRequest);
      failure := None;
      if init.Thrown? {
        failure := Some(init.error);
      } else if IsSuccessStatusCode(init.value.status) {
        cookies, failure := AddCookies(cookies, CookieAssignments(init.value.body.source, 0));
      }
    }

    /** The remaining secrets, added to the form after the token, and the query POST. */
    method Post(form: Entries, supply: Supply, posted: Entries, codigo: string, numRnd: string) returns (r: Outcome<Html>)
      requires Enough(supply) && posted == Put(form, "token", Token(supply)) && numRnd == NatToString(supply.nonce)
      modifies this, http
      ensures var q := Query(old(State()), form, supply, codigo);
        r == q.result && State() == q.world && http.sent == old(http.sent) + q.sent
    {
      var posted := posted;
      posted := Put(posted, "codigo", codigo);
      posted := Put(posted, "numRnd", numRnd);
      posted := Put(posted, "contexto", "ti-it");
      posted := Put(posted, "modo", "1");
      assert posted == PostForm(form, Token(supply), codigo, numRnd) by {
        PostFormSteps(form, Token(supply), codigo, numRnd);
      }
      r := Deliver(form, supply, codigo, posted);
    }

    /** The query POST itself: a page with a success status is cached under the base form's key in both tiers. */
    method Deliver(form: Entries, supply: Supply, codigo: string, posted: Entries) returns (r: Outcome<Html>)
      requires Enough(supply) && posted == PostForm(form, Token(supply), codigo, NatToString(supply.nonce))
      modifies this, http
      ensures var q := Query(old(State()), form, supply, codigo);
        r == q.result && State() == q.world && http.sent == old(http.sent) + q.sent
    {
      var res := http.Send(Request(POST, QueryPath, posted));
      if res.Thrown? {
        return Thrown(res.error);
      }
      if !IsSuccessStatusCode(res.value.status) {
        return Thrown(HttpRequestException(NotSuccessMessage + NatToString(res.value.status)));
      }
      var html := res.value.body;
      var key := CacheKey(form);
      memory := memory[key := html];
      if redis.Some? {
        redis := Some(redis.value[key := html]);
      }
      return Ok(html);
    }
  }
}
