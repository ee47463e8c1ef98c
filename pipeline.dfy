/**
 * The request pipeline both client generations share (`SendRawAsync`): the
 * form and its cache key, the memory and Redis tiers, the bootstrap page and
 * the cookies it sets, the per-request secrets and the query POST. It is
 * stated here as a function of the client's state and of what the random
 * sources and the CAPTCHA reader supply; the two client classes are proved
 * to follow it.
 */
module Pipeline {
  import opened Wrappers
  import opened Text
  import opened Dom
  import opened Patterns
  import opened Tokens
  import opened Http
  import opened CaptchaRules
  import opened CacheKeys

  /** The page that sets the session cookies. */
  const BootstrapPath := "cl-ti-itmrconsruc/FrameCriterioBusquedaWeb.jsp"

  /** The page every query is posted to. */
  const QueryPath := "cl-ti-itmrconsruc/jcrS00Alias"

  /** The form before the secrets: "accion", then each extra written in order. */
  function BaseForm(accion: string, extras: Entries): (form: Entries)
    ensures DistinctKeys(form)
  {
    PutAll([("accion", accion)], extras)
  }

  /** Each field holds the last value an extra gives it; "accion" holds the action unless an extra overwrites it. */
  lemma BaseFormGet(accion: string, extras: Entries, k: string)
    ensures Get(BaseForm(accion, extras), k) ==
      LastValue(extras, k).OrElse(if k == "accion" then Some(accion) else None)
  {
    PutAllGet([("accion", accion)], extras, k);
    assert Keys([("accion", accion)]) == ["accion"];
  }

  /** The dictionary initialiser and the loop of indexer writes over the extras. */
  method BuildForm(accion: string, extras: Entries) returns (form: Entries)
    ensures form == BaseForm(accion, extras)
  {
    form := [("accion", accion)];
    for i := 0 to |extras|
      invariant form == PutAll([("accion", accion)], extras[..i])
    {
      PutAllPrefixStep([("accion", accion)], extras, i);
      form := Put(form, extras[i].0, extras[i].1);
    }
    assert extras[..|extras|] == extras;
  }

  /** The form of a query by RUC. */
  function RucForm(ruc: string): Entries {
    BaseForm("consPorRuc", [("nroRuc", ruc)])
  }

  /** The form of a query by document type and number. */
  function DocumentForm(tipo: string, numero: string): Entries {
    BaseForm("consPorTipdoc", [("tipdoc", tipo), ("nrodoc", numero)])
  }

  /** The form of a query by name. */
  function NameForm(query: string): Entries {
    BaseForm("consPorRazonSoc", [("razSoc", query)])
  }

  /** Queries of different kinds never share a cache entry: their forms differ in "accion". */
  lemma KindsKeyedApart(ruc: string, tipo: string, numero: string, query: string)
    ensures CacheKey(RucForm(ruc)) != CacheKey(DocumentForm(tipo, numero))
    ensures CacheKey(RucForm(ruc)) != CacheKey(NameForm(query))
    ensures CacheKey(DocumentForm(tipo, numero)) != CacheKey(NameForm(query))
  {
    var r, d, n := [("nroRuc", ruc)], [("tipdoc", tipo), ("nrodoc", numero)], [("razSoc", query)];
    assert LastValue(r, "accion").None? && LastValue(d, "accion").None? && LastValue(n, "accion").None?;
    ActionsKeyedApart("consPorRuc", r, "consPorTipdoc", d);
    ActionsKeyedApart("consPorRuc", r, "consPorRazonSoc", n);
    ActionsKeyedApart("consPorTipdoc", d, "consPorRazonSoc", n);
  }

  /** Two forms whose extras leave "accion" alone are keyed apart when their actions differ. */
  lemma ActionsKeyedApart(a: string, ea: Entries, b: string, eb: Entries)
    requires a != b && LastValue(ea, "accion").None? && LastValue(eb, "accion").None?
    ensures CacheKey(BaseForm(a, ea)) != CacheKey(BaseForm(b, eb))
  {
    BaseFormGet(a, ea, "accion");
    BaseFormGet(b, eb, "accion");
    CacheKeyInjective(BaseForm(a, ea), BaseForm(b, eb));
  }

  /** The fields written after the key is taken, in the order they are written. */
  const SecretKeys := ["token", "codigo", "numRnd", "contexto", "modo"]

  /** The secrets, in the order they are written. */
  function Secrets(token: string, codigo: string, numRnd: string): (es: Entries)
    ensures Keys(es) == SecretKeys
  {
    [("token", token), ("codigo", codigo), ("numRnd", numRnd), ("contexto", "ti-it"), ("modo", "1")]
  }

  /** The form that is posted: the secrets written over the base form. */
  function PostForm(form: Entries, token: string, codigo: string, numRnd: string): (r: Entries)
    ensures DistinctKeys(form) ==> DistinctKeys(r)
  {
    PutAll(form, Secrets(token, codigo, numRnd))
  }

  /** Five entries written in one go are five writes in a row. */
  lemma PutAllFive(m: Entries, e1: (string, string), e2: (string, string), e3: (string, string),
                   e4: (string, string), e5: (string, string))
    ensures PutAll(m, [e1, e2, e3, e4, e5]) ==
      Put(Put(Put(Put(Put(m, e1.0, e1.1), e2.0, e2.1), e3.0, e3.1), e4.0, e4.1), e5.0, e5.1)
  {
    var s1, s2, s3, s4 := [e1], [e1, e2], [e1, e2, e3], [e1, e2, e3, e4];
    assert s2 == s1 + [e2] && s3 == s2 + [e3] && s4 == s3 + [e4] && [e1, e2, e3, e4, e5] == s4 + [e5];
    assert s1 == [] + [e1];
    PutAllAppend(m, [], e1);
    PutAllAppend(m, s1, e2);
    PutAllAppend(m, s2, e3);
    PutAllAppend(m, s3, e4);
    PutAllAppend(m, s4, e5);
  }

  lemma PutAllAppend(m: Entries, es: Entries, e: (string, string))
    ensures PutAll(m, es + [e]) == Put(PutAll(m, es), e.0, e.1)
  {
    PutAllStep(m, es, e);
  }

  /** The secrets as the five indexer writes, in order. */
  lemma PostFormSteps(form: Entries, token: string, codigo: string, numRnd: string)
    ensures PostForm(form, token, codigo, numRnd) ==
      Put(Put(Put(Put(Put(form, "token", token), "codigo", codigo), "numRnd", numRnd), "contexto", "ti-it"), "modo", "1")
  {
    PutAllFive(form, ("token", token), ("codigo", codigo), ("numRnd", numRnd), ("contexto", "ti-it"), ("modo", "1"));
  }

  /** The posted form carries the secrets. */
  lemma PostFormSecrets(form: Entries, token: string, codigo: string, numRnd: string)
    ensures Get(PostForm(form, token, codigo, numRnd), "token") == Some(token)
    ensures Get(PostForm(form, token, codigo, numRnd), "codigo") == Some(codigo)
    ensures Get(PostForm(form, token, codigo, numRnd), "numRnd") == Some(numRnd)
    ensures Get(PostForm(form, token, codigo, numRnd), "contexto") == Some("ti-it")
    ensures Get(PostForm(form, token, codigo, numRnd), "modo") == Some("1")
  {
    PostFormSteps(form, token, codigo, numRnd);
    var f1 := Put(form, "token", token);
    var f2 := Put(f1, "codigo", codigo);
    var f3 := Put(f2, "numRnd", numRnd);
    var f4 := Put(f3, "contexto", "ti-it");
    PutOther(f1, "codigo", codigo, "token");
    PutOther(f2, "numRnd", numRnd, "token");
    PutOther(f3, "contexto", "ti-it", "token");
    PutOther(f4, "modo", "1", "token");
    PutOther(f2, "numRnd", numRnd, "codigo");
    PutOther(f3, "contexto", "ti-it", "codigo");
    PutOther(f4, "modo", "1", "codigo");
    PutOther(f3, "contexto", "ti-it", "numRnd");
    PutOther(f4, "modo", "1", "numRnd");
    PutOther(f4, "modo", "1", "contexto");
  }

  /** Every field other than the secrets is posted as the base form has it. */
  lemma PostFormKeeps(form: Entries, token: string, codigo: string, numRnd: string, k: string)
    requires k !in SecretKeys
    ensures Get(PostForm(form, token, codigo, numRnd), k) == Get(form, k)
  {
    PostFormSteps(form, token, codigo, numRnd);
    var f1 := Put(form, "token", token);
    var f2 := Put(f1, "codigo", codigo);
    var f3 := Put(f2, "numRnd", numRnd);
    var f4 := Put(f3, "contexto", "ti-it");
    PutOther(form, "token", token, k);
    PutOther(f1, "codigo", codigo, k);
    PutOther(f2, "numRnd", numRnd, k);
    PutOther(f3, "contexto", "ti-it", k);
    PutOther(f4, "modo", "1", k);
  }

  /**
   * One `document.cookie` assignment as a cookie: the text before the first
   * ';', split at its first '='; with no name before the '=', no cookie.
   */
  function CookieOf(assignment: string): (r: Option<(string, string)>)
    ensures r.Some? ==> r.value.0 != [] && '=' !in r.value.0 && ';' !in r.value.0 && ';' !in r.value.1
    ensures r.Some? ==> var n := |r.value.0| + 1 + |r.value.1|;
      n <= |assignment| && assignment[..n] == r.value.0 + "=" + r.value.1 &&
      (n == |assignment| || assignment[n] == ';')
  {
    var cookie := BeforeFirst(assignment, ';');
    var p := IndexOf(cookie, '=');
    if p > 0 then
      assert cookie == cookie[..p] + "=" + cookie[p + 1..];
      Some((cookie[..p], cookie[p + 1..]))
    else None
  }

  /** Read back: `name=value`, then nothing or attributes after a ';', is the cookie (name, value). */
  lemma CookieOfAssignment(name: string, value: string, attributes: string)
    requires name != [] && '=' !in name && ';' !in name && ';' !in value
    requires attributes == [] || attributes[0] == ';'
    ensures CookieOf(name + "=" + value + attributes) == Some((name, value))
  {
    var cookie := name + "=" + value;
    var a := cookie + attributes;
    assert ';' !in cookie;
    if attributes == [] {
      assert a == cookie;
    } else {
      assert a[..|cookie|] == cookie;
      IndexOfAt(a, ';', |cookie|);
    }
    assert BeforeFirst(a, ';') == cookie;
    assert cookie[..|name|] == name;
    IndexOfAt(cookie, '=', |name|);
    assert cookie[|name| + 1..] == value;
  }

  /** The cookies the assignments set, in order, unusable ones skipped. */
  function ParsedCookies(assignments: seq<string>): (cs: Entries)
    ensures |cs| <= |assignments|
    ensures forall c :: c in cs ==> c.0 != [] && '=' !in c.0
  {
    if assignments == [] then []
    else
      var rest := ParsedCookies(assignments[..|assignments| - 1]);
      match CookieOf(assignments[|assignments| - 1])
      case Some(c) => rest + [c]
      case None => rest
  }

  /** The jar after the assignments: each cookie added over the ones already there. */
  function JarAfter(jar: Entries, assignments: seq<string>): Entries {
    PutAll(jar, ParsedCookies(assignments))
  }

  /** The characters a cookie name may not hold (`new Cookie` throws on them). */
  const ReservedToName: set<char> := {'\t', '\r', '\n', '=', ';', ','}

  /** The longest cookie value `CookieContainer` accepts by default. */
  const MaxCookieSize := 4096

  /** The message of the CookieException a refused cookie raises, followed by its name. */
  const InvalidCookieMessage := "Invalid cookie: "

  /**
   * What `new Cookie(name, value)` and `CookieContainer.Add` accept: a
   * non-empty name that neither starts with '$' nor starts or ends with a
   * space and holds no reserved character, and a value that is quoted or
   * holds no ';' or ',', within the size limit.
   */
  predicate CookieAccepted(c: (string, string)) {
    var (name, value) := c;
    name != [] && name[0] != '$' && name[0] != ' ' && name[|name| - 1] != ' ' &&
    (forall i :: 0 <= i < |name| ==> name[i] !in ReservedToName) &&
    ((|value| > 2 && value[0] == '"' && value[|value| - 1] == '"') || (';' !in value && ',' !in value)) &&
    |value| <= MaxCookieSize
  }

  /** An assignment whose cookie the jar throws on. */
  predicate Rejected(assignment: string) {
    CookieOf(assignment).Some? && !CookieAccepted(CookieOf(assignment).value)
  }

  /** The first assignment the jar throws on, or the number of assignments when it accepts them all. */
  function FirstRejected(assignments: seq<string>): (i: nat)
    ensures i <= |assignments|
    ensures forall j :: 0 <= j < i ==> !Rejected(assignments[j])
    ensures i < |assignments| ==> Rejected(assignments[i])
  {
    var refused := (j: nat) => j < |assignments| && Rejected(assignments[j]);
    assert forall j: nat :: refused(j) == (j < |assignments| && Rejected(assignments[j]));
    match FirstFrom(|assignments|, 0, refused)
    case Some(j) => j
    case None => |assignments|
  }

  /** The CookieException the assignments end in: there is one iff the jar refuses one of their cookies. */
  function CookieFailure(assignments: seq<string>): (r: Option<Exception>)
    ensures r.Some? <==> exists j :: 0 <= j < |assignments| && Rejected(assignments[j])
    ensures r.Some? ==> r.value.CookieException?
  {
    var i := FirstRejected(assignments);
    if i < |assignments| then Some(CookieException(InvalidCookieMessage + CookieOf(assignments[i]).value.0))
    else None
  }

  /**
   * The `foreach` over the matches: each usable cookie is added to the jar
   * until the jar throws on one, which leaves the cookies before it added.
   */
  method AddCookies(jar: Entries, assignments: seq<string>) returns (jar': Entries, failure: Option<Exception>)
    ensures jar' == JarAfter(jar, assignments[..FirstRejected(assignments)])
    ensures failure == CookieFailure(assignments)
  {
    jar' := jar;
    ghost var parsed: Entries := [];
    for i := 0 to |assignments|
      invariant i <= FirstRejected(assignments)
      invariant parsed == ParsedCookies(assignments[..i])
      invariant jar' == PutAll(jar, parsed)
    {
      assert assignments[..i + 1][..i] == assignments[..i];
      var c := CookieOf(assignments[i]);
      if c.Some? {
        if !CookieAccepted(c.value) {
          assert Rejected(assignments[i]);
          return jar', Some(CookieException(InvalidCookieMessage + c.value.0));
        }
        PutAllStep(jar, parsed, c.value);
        jar' := Put(jar', c.value.0, c.value.1);
        parsed := parsed + [c.value];
      }
    }
    assert assignments[..|assignments|] == assignments;
    return jar', None;
  }

  /** `document.cookie = "a = 1"` names a cookie "a ", with a trailing space, which the jar refuses. */
  lemma SpacedNameRejected()
    ensures CookieOf("a = 1") == Some(("a ", " 1")) && Rejected("a = 1")
  {
    CookieOfAssignment("a ", " 1", "");
    assert "a " + "=" + " 1" + "" == "a = 1";
  }

  /** A cookie assigned last holds the value assigned to it. */
  lemma LastAssignmentWins(jar: Entries, assignments: seq<string>, name: string, value: string, attributes: string)
    requires name != [] && '=' !in name && ';' !in name && ';' !in value
    requires attributes == [] || attributes[0] == ';'
    ensures Get(JarAfter(jar, assignments + [name + "=" + value + attributes]), name) == Some(value)
  {
    var all := assignments + [name + "=" + value + attributes];
    CookieOfAssignment(name, value, attributes);
    assert all[..|all| - 1] == assignments;
    PutAllStep(jar, ParsedCookies(assignments), (name, value));
  }

  /** A cookie no assignment names keeps its value. */
  lemma {:induction false} UntouchedCookieKept(jar: Entries, assignments: seq<string>, name: string)
    requires forall i :: 0 <= i < |assignments| ==> CookieOf(assignments[i]).None? || CookieOf(assignments[i]).value.0 != name
    ensures Get(JarAfter(jar, assignments), name) == Get(jar, name)
    decreases |assignments|
  {
    if assignments != [] {
      var p := assignments[..|assignments| - 1];
      UntouchedCookieKept(jar, p, name);
      var c := CookieOf(assignments[|assignments| - 1]);
      if c.Some? {
        PutAllStep(jar, ParsedCookies(p), c.value);
        PutOther(JarAfter(jar, p), c.value.0, c.value.1, name);
      }
    }
  }

  /** No cookie is ever taken out of the jar. */
  lemma JarKeeps(jar: Entries, assignments: seq<string>)
    ensures forall k :: Get(jar, k).Some? ==> Get(JarAfter(jar, assignments), k).Some?
  {
    forall k | Get(jar, k).Some? ensures Get(JarAfter(jar, assignments), k).Some? {
      PutAllGet(jar, ParsedCookies(assignments), k);
    }
  }

  /** A cookie the jar accepts, assigned as `name=value`, is not refused, and the jar then holds it. */
  lemma AcceptedCookieKept(jar: Entries, name: string, value: string)
    requires CookieAccepted((name, value)) && ';' !in value
    ensures !Rejected(name + "=" + value)
    ensures Get(JarAfter(jar, [name + "=" + value]), name) == Some(value)
  {
    assert name + "=" + value + "" == name + "=" + value;
    CookieOfAssignment(name, value, "");
    LastAssignmentWins(jar, [], name, value, "");
    assert [] + [name + "=" + value + ""] == [name + "=" + value];
  }

  /** The cookie assignments of a bootstrap reply: those of its page when the status is a success, else none. */
  function BootAssignments(reply: Outcome<Response>): (r: seq<string>)
    ensures !(reply.Ok? && IsSuccessStatusCode(reply.value.status)) ==> r == []
    ensures forall c :: c in r ==> c != [] && '"' !in c
  {
    if reply.Ok? && IsSuccessStatusCode(reply.value.status) then CookieAssignments(reply.value.body.source, 0) else []
  }

  /** The jar after the bootstrap reply: its cookies, up to the first one the jar throws on, added. */
  function Bootstrapped(jar: Entries, reply: Outcome<Response>): (r: Entries)
    ensures !(reply.Ok? && IsSuccessStatusCode(reply.value.status)) ==> r == jar
    ensures forall k :: Get(jar, k).Some? ==> Get(r, k).Some?
  {
    var a := BootAssignments(reply);
    JarKeeps(jar, a[..FirstRejected(a)]);
    JarAfter(jar, a[..FirstRejected(a)])
  }

  /** A 2xx frame page whose cookies the jar all accepts adds every one of them and ends nothing. */
  lemma AllAccepted(jar: Entries, reply: Outcome<Response>)
    requires reply.Ok? && IsSuccessStatusCode(reply.value.status)
    requires forall j :: 0 <= j < |BootAssignments(reply)| ==> !Rejected(BootAssignments(reply)[j])
    ensures Bootstrapped(jar, reply) == JarAfter(jar, BootAssignments(reply))
    ensures BootFailure(reply).None?
  {
    var a := BootAssignments(reply);
    assert FirstRejected(a) == |a|;
    assert a[..|a|] == a;
  }

  /**
   * How the bootstrap GET ends the request: with its own exception when it
   * gets no reply, with a CookieException when the jar refuses one of the
   * page's cookies, and not at all otherwise, whatever the status.
   */
  function BootFailure(reply: Outcome<Response>): (r: Option<Exception>)
    ensures reply.Thrown? ==> r == Some(reply.error)
    ensures reply.Ok? && !IsSuccessStatusCode(reply.value.status) ==> r.None?
    ensures reply.Ok? && r.Some? ==> r.value.CookieException?
    ensures reply.Ok? ==>
      (r.Some? <==> exists j :: 0 <= j < |BootAssignments(reply)| && Rejected(BootAssignments(reply)[j]))
  {
    if reply.Thrown? then Some(reply.error) else CookieFailure(BootAssignments(reply))
  }

  /**
   * What one trip to the portal takes from outside the program: the random
   * values the token is built from, in the order they are drawn, the CAPTCHA
   * nonce, what OCR recognised in the image (None when it failed) and what
   * the operator would type.
   */
  datatype Supply = Supply(draws: seq<UInt64>, nonce: Nonce, recognised: Option<string>, typed: string)

  /** The draws fill a token. */
  predicate Enough(s: Supply) {
    DefaultLength <= |Emitted(s.draws)|
  }

  /** The token of a request: 52 characters of the alphabet. */
  function Token(s: Supply): (t: string)
    requires Enough(s)
    ensures |t| == DefaultLength && forall i :: 0 <= i < |t| ==> t[i] in Alphabet
  {
    TokenShape(DefaultLength, s.draws);
    Emitted(s.draws)[..DefaultLength]
  }

  /** The two generations of the client: Infrastructure with `CaptchaSolver`, Core with `SunatSecurity`. */
  datatype Generation = Infrastructure | Core

  /** The CAPTCHA code each generation makes of the image reply. */
  function CaptchaCode(g: Generation, image: Outcome<Response>, s: Supply): (r: Outcome<string>)
    ensures g.Infrastructure? ==> r == SolverOutcome(image, s.recognised, s.typed)
    ensures g.Core? ==> r == SecurityOutcome(image, s.recognised, s.typed)
  {
    match g
    case Infrastructure => SolverOutcome(image, s.recognised, s.typed)
    case Core => SecurityOutcome(image, s.recognised, s.typed)
  }

  /**
   * The state a request reads and changes: the memory cache, the Redis
   * store when one is configured, the cookie jar and the portal's replies
   * still to come.
   */
  datatype World = World(
    memory: map<string, Html>,
    redis: Option<map<string, Html>>,
    cookies: Entries,
    replies: seq<Outcome<Response>>)

  /** A request's effect: the state after it, the requests it sent and its result. */
  datatype Step<+T> = Step(world: World, sent: seq<Request>, result: Outcome<T>)

  /** The page cached under a key: the memory tier first, then Redis. */
  function Cached(w: World, key: string): (r: Option<Html>)
    ensures key in w.memory ==> r == Some(w.memory[key])
    ensures key !in w.memory && w.redis.Some? && key in w.redis.value ==> r == Some(w.redis.value[key])
    ensures r.None? <==> key !in w.memory && (w.redis.None? || key !in w.redis.value)
  {
    if key in w.memory then Some(w.memory[key])
    else if w.redis.Some? && key in w.redis.value then Some(w.redis.value[key])
    else None
  }

  /** Writes a page to the memory tier and, when there is one, to Redis. */
  function Store(w: World, key: string, page: Html): (w': World)
    ensures Cached(w', key) == Some(page)
    ensures forall k :: k != key ==> Cached(w', k) == Cached(w, k)
    ensures w'.redis.Some? <==> w.redis.Some?
    ensures w'.cookies == w.cookies && w'.replies == w.replies
  {
    w.(memory := w.memory[key := page],
       redis := if w.redis.Some? then Some(w.redis.value[key := page]) else None)
  }

  const BootstrapRequest := Request(GET, BootstrapPath, [])

  function CaptchaRequest(nonce: Nonce): Request {
    Request(GET, CaptchaPath(nonce), [])
  }

  /** The query POST: the base form with this request's token, code and nonce. */
  function QueryRequest(form: Entries, s: Supply, codigo: string): Request
    requires Enough(s)
  {
    Request(POST, QueryPath, PostForm(form, Token(s), codigo, NatToString(s.nonce)))
  }

  /** The world after the next reply is taken, with nothing else changed. */
  function Consume(w: World): (w': World)
    ensures w'.replies == LaterReplies(w.replies)
    ensures w'.memory == w.memory && w'.redis == w.redis && w'.cookies == w.cookies
  {
    w.(replies := LaterReplies(w.replies))
  }

  /**
   * `EnsureSuccessStatusCode` and the page it lets through: a failed POST
   * passes its exception on, a reply with any other status than 2xx throws
   * an HttpRequestException naming the status, and a 2xx reply yields its page.
   */
  function PostResult(reply: Outcome<Response>): (r: Outcome<Html>)
    ensures reply.Thrown? ==> r == Thrown(reply.error)
    ensures reply.Ok? && !IsSuccessStatusCode(reply.value.status) ==>
      r == Thrown(HttpRequestException(NotSuccessMessage + NatToString(reply.value.status)))
    ensures reply.Ok? && IsSuccessStatusCode(reply.value.status) ==> r == Ok(reply.value.body)
  {
    match reply
    case Thrown(e) => Thrown(e)
    case Ok(res) =>
      if IsSuccessStatusCode(res.status) then Ok(res.body)
      else Thrown(HttpRequestException(NotSuccessMessage + NatToString(res.status)))
  }

  /**
   * `SendRawAsync`: a page cached under the form's key is returned with
   * nothing sent; otherwise the bootstrap page, the CAPTCHA image and the
   * query, each failure ending the request, and a successful query page is
   * cached in both tiers.
   */
  function Fetch(g: Generation, w: World, form: Entries, s: Supply): (r: Step<Html>)
    requires Enough(s)
    ensures Cached(w, CacheKey(form)).Some? ==> r == Step(w, [], Ok(Cached(w, CacheKey(form)).value))
    ensures Cached(w, CacheKey(form)).None? ==> 1 <= |r.sent| <= 3 && r.sent[0] == BootstrapRequest
    ensures Cached(w, CacheKey(form)).None? && |r.sent| == 1 ==>
      BootFailure(NextReply(w.replies)).Some? && r.result == Thrown(BootFailure(NextReply(w.replies)).value)
    ensures Cached(w, CacheKey(form)).None? && |r.sent| == 2 ==>
      CaptchaCode(g, NextReply(LaterReplies(w.replies)), s).Thrown? &&
      r.result == Thrown(CaptchaCode(g, NextReply(LaterReplies(w.replies)), s).error)
    ensures Cached(w, CacheKey(form)).None? && |r.sent| == 3 ==>
      r.result == PostResult(NextReply(LaterReplies(LaterReplies(w.replies))))
    ensures r.result.Ok? ==> Cached(r.world, CacheKey(form)) == Some(r.result.value)
    ensures r.result.Thrown? ==> r.world.memory == w.memory && r.world.redis == w.redis
    ensures forall k :: k != CacheKey(form) ==> Cached(r.world, k) == Cached(w, k)
    ensures r.world.replies == After(w.replies, |r.sent|)
  {
    match Cached(w, CacheKey(form))
    case Some(page) => Step(w, [], Ok(page))
    case None =>
      ExchangeEffects(g, w, form, s);
      Exchange(g, w, form, s)
  }

  /**
   * The requests of a cache miss: the bootstrap page, then the CAPTCHA and
   * the query. The bootstrap GET ends the exchange when it throws or when
   * the jar refuses one of its cookies; the CAPTCHA step ends it when it
   * yields no code; otherwise the result is that of the query POST.
   */
  function Exchange(g: Generation, w: World, form: Entries, s: Supply): (r: Step<Html>)
    requires Enough(s)
    ensures 1 <= |r.sent| <= 3 && r.sent[0] == BootstrapRequest
    ensures |r.sent| >= 2 ==> r.sent[1] == CaptchaRequest(s.nonce)
    ensures |r.sent| == 1 <==> BootFailure(NextReply(w.replies)).Some?
    ensures |r.sent| == 1 ==> r.result == Thrown(BootFailure(NextReply(w.replies)).value)
    ensures |r.sent| == 2 ==>
      CaptchaCode(g, NextReply(LaterReplies(w.replies)), s).Thrown? &&
      r.result == Thrown(CaptchaCode(g, NextReply(LaterReplies(w.replies)), s).error)
    ensures |r.sent| == 3 ==> r.result == PostResult(NextReply(LaterReplies(LaterReplies(w.replies))))
    ensures r.result.Ok? ==> |r.sent| == 3 && Cached(r.world, CacheKey(form)) == Some(r.result.value)
    ensures r.result.Thrown? ==> r.world.memory == w.memory && r.world.redis == w.redis
  {
    var w1 := Booted(w);
    match BootFailure(NextReply(w.replies))
    case Some(e) => Step(w1, [BootstrapRequest], Thrown(e))
    case None =>
      var c := Solve(g, w1, form, s);
      Step(c.world, [BootstrapRequest] + c.sent, c.result)
  }

  /** The state after the bootstrap GET: one reply used, and the jar updated from it. */
  function Booted(w: World): (w1: World)
    ensures w1.memory == w.memory && w1.redis == w.redis
    ensures w1.replies == LaterReplies(w.replies)
    ensures w1.cookies == Bootstrapped(w.cookies, NextReply(w.replies))
  {
    Consume(w).(cookies := Bootstrapped(w.cookies, NextReply(w.replies)))
  }

  /**
   * What else a cache miss does: no other key's page changes, one reply is
   * used per request sent, and the cookies are those of the bootstrap reply.
   */
  lemma ExchangeEffects(g: Generation, w: World, form: Entries, s: Supply)
    requires Enough(s)
    ensures var r := Exchange(g, w, form, s);
      (forall k :: k != CacheKey(form) ==> Cached(r.world, k) == Cached(w, k)) &&
      r.world.replies == After(w.replies, |r.sent|) &&
      r.world.cookies == Bootstrapped(w.cookies, NextReply(w.replies))
  {
    if BootFailure(NextReply(w.replies)).None? {
      ReachedEffects(g, w, form, s);
    } else {
      StoppedEffects(g, w, form, s);
    }
  }

  lemma StoppedEffects(g: Generation, w: World, form: Entries, s: Supply)
    requires Enough(s) && BootFailure(NextReply(w.replies)).Some?
    ensures var r := Exchange(g, w, form, s);
      (forall k :: k != CacheKey(form) ==> Cached(r.world, k) == Cached(w, k)) &&
      r.world.replies == After(w.replies, |r.sent|) &&
      r.world.cookies == Bootstrapped(w.cookies, NextReply(w.replies))
  {
    ExchangeStopped(g, w, form, s);
    assert Booted(w).replies == After(w.replies, 1);
  }

  lemma ReachedEffects(g: Generation, w: World, form: Entries, s: Supply)
    requires Enough(s) && BootFailure(NextReply(w.replies)).None?
    ensures var r := Exchange(g, w, form, s);
      (forall k :: k != CacheKey(form) ==> Cached(r.world, k) == Cached(w, k)) &&
      r.world.replies == After(w.replies, |r.sent|) &&
      r.world.cookies == Bootstrapped(w.cookies, NextReply(w.replies))
  {
    var c := Solve(g, Booted(w), form, s);
    ExchangeReached(g, w, form, s);
    RepliesAfterBoot(w.replies, c.world.replies, c.sent);
  }

  /** The replies left after the bootstrap GET and then the requests `sent`. */
  lemma RepliesAfterBoot(replies: seq<Outcome<Response>>, left: seq<Outcome<Response>>, sent: seq<Request>)
    requires left == After(LaterReplies(replies), |sent|)
    ensures left == After(replies, |[BootstrapRequest] + sent|)
  {
    AfterStep(replies, |sent|);
  }

  /** A bootstrap step that fails ends the exchange with its exception, the jar as far as it got. */
  lemma ExchangeStopped(g: Generation, w: World, form: Entries, s: Supply)
    requires Enough(s) && BootFailure(NextReply(w.replies)).Some?
    ensures Exchange(g, w, form, s) ==
      Step(Booted(w), [BootstrapRequest], Thrown(BootFailure(NextReply(w.replies)).value))
  {
  }

  /** A bootstrap request that fails ends the exchange, with the jar unchanged. */
  lemma ExchangeUnreached(g: Generation, w: World, form: Entries, s: Supply)
    requires Enough(s) && NextReply(w.replies).Thrown?
    ensures Exchange(g, w, form, s) ==
      Step(World(w.memory, w.redis, w.cookies, LaterReplies(w.replies)), [BootstrapRequest], Thrown(NextReply(w.replies).error))
  {
  }

  /**
   * A cookie of the bootstrap page that the jar refuses ends the exchange
   * with a CookieException, nothing cached and no CAPTCHA requested.
   */
  lemma ExchangeCookieRejected(g: Generation, w: World, form: Entries, s: Supply)
    requires Enough(s) && NextReply(w.replies).Ok? && IsSuccessStatusCode(NextReply(w.replies).value.status)
    requires exists j :: 0 <= j < |BootAssignments(NextReply(w.replies))| && Rejected(BootAssignments(NextReply(w.replies))[j])
    ensures var r := Exchange(g, w, form, s);
      r.sent == [BootstrapRequest] && r.result.Thrown? && r.result.error.CookieException? &&
      r.world.memory == w.memory && r.world.redis == w.redis
  {
    ExchangeStopped(g, w, form, s);
  }

  /** A bootstrap reply, whatever its status, whose cookies the jar accepts leads on to the CAPTCHA. */
  lemma ExchangeReached(g: Generation, w: World, form: Entries, s: Supply)
    requires Enough(s) && BootFailure(NextReply(w.replies)).None?
    ensures var c := Solve(g, Booted(w), form, s);
      Exchange(g, w, form, s) == Step(c.world, [BootstrapRequest] + c.sent, c.result)
  {
  }

  /** A CAPTCHA step that fails ends the exchange. */
  lemma SolveUnreached(g: Generation, w: World, form: Entries, s: Supply)
    requires Enough(s) && CaptchaCode(g, NextReply(w.replies), s).Thrown?
    ensures Solve(g, w, form, s) ==
      Step(Consume(w), [CaptchaRequest(s.nonce)], Thrown(CaptchaCode(g, NextReply(w.replies), s).error))
  {
  }

  /** A CAPTCHA code leads on to the query. */
  lemma SolveReached(g: Generation, w: World, form: Entries, s: Supply)
    requires Enough(s) && CaptchaCode(g, NextReply(w.replies), s).Ok?
    ensures var q := Query(Consume(w), form, s, CaptchaCode(g, NextReply(w.replies), s).value);
      Solve(g, w, form, s) == Step(q.world, [CaptchaRequest(s.nonce)] + q.sent, q.result)
  {
  }

  /** On a cache miss that gets as far as the query, the query carries the code made of the image reply. */
  lemma ExchangeQuery(g: Generation, w: World, form: Entries, s: Supply)
    requires Enough(s) && |Exchange(g, w, form, s).sent| == 3
    ensures CaptchaCode(g, NextReply(LaterReplies(w.replies)), s).Ok?
    ensures Exchange(g, w, form, s).sent[2] ==
      QueryRequest(form, s, CaptchaCode(g, NextReply(LaterReplies(w.replies)), s).value)
  {
    ExchangeReached(g, w, form, s);
  }

  lemma AfterStep(replies: seq<Outcome<Response>>, n: nat)
    ensures After(replies, n + 1) == After(LaterReplies(replies), n)
  {
  }

  /** The CAPTCHA image request and, when it yields a code, the query. */
  function Solve(g: Generation, w: World, form: Entries, s: Supply): (r: Step<Html>)
    requires Enough(s)
    ensures 1 <= |r.sent| <= 2 && r.sent[0] == CaptchaRequest(s.nonce)
    ensures |r.sent| == 1 <==> CaptchaCode(g, NextReply(w.replies), s).Thrown?
    ensures |r.sent| == 1 ==> r.result == Thrown(CaptchaCode(g, NextReply(w.replies), s).error)
    ensures |r.sent| == 2 ==> r.result == PostResult(NextReply(LaterReplies(w.replies)))
    ensures r.result.Ok? ==> |r.sent| == 2 && Cached(r.world, CacheKey(form)) == Some(r.result.value)
    ensures r.result.Thrown? ==> r.world.memory == w.memory && r.world.redis == w.redis
    ensures forall k :: k != CacheKey(form) ==> Cached(r.world, k) == Cached(w, k)
    ensures r.world.replies == After(w.replies, |r.sent|) && r.world.cookies == w.cookies
    ensures |r.sent| == 2 ==>
      CaptchaCode(g, NextReply(w.replies), s).Ok? &&
      r.sent[1] == QueryRequest(form, s, CaptchaCode(g, NextReply(w.replies), s).value)
  {
    var w' := Consume(w);
    match CaptchaCode(g, NextReply(w.replies), s)
    case Thrown(e) => Step(w', [CaptchaRequest(s.nonce)], Thrown(e))
    case Ok(codigo) =>
      var q := Query(w', form, s, codigo);
      Step(q.world, [CaptchaRequest(s.nonce)] + q.sent, q.result)
  }

  /** The query POST and what its reply leaves behind: a page it lets through is cached under the form's key. */
  function Query(w: World, form: Entries, s: Supply, codigo: string): (r: Step<Html>)
    requires Enough(s)
    ensures r.sent == [QueryRequest(form, s, codigo)]
    ensures r.result == PostResult(NextReply(w.replies))
    ensures r.result.Ok? ==> Cached(r.world, CacheKey(form)) == Some(r.result.value)
    ensures r.result.Thrown? ==> r.world.memory == w.memory && r.world.redis == w.redis
    ensures forall k :: k != CacheKey(form) ==> Cached(r.world, k) == Cached(w, k)
    ensures r.world.replies == LaterReplies(w.replies) && r.world.cookies == w.cookies
  {
    var sent := [QueryRequest(form, s, codigo)];
    var w' := Consume(w);
    match NextReply(w.replies)
    case Thrown(e) => Step(w', sent, Thrown(e))
    case Ok(res) =>
      if !IsSuccessStatusCode(res.status) then
        Step(w', sent, Thrown(HttpRequestException(NotSuccessMessage + NatToString(res.status))))
      else Step(Store(w', CacheKey(form), res.body), sent, Ok(res.body))
  }

  /** Once a query page is fetched, the same form is served from the cache, whatever the next request's secrets. */
  lemma FetchThenHit(g: Generation, w: World, form: Entries, s: Supply, next: Supply)
    requires Enough(s) && Enough(next) && Fetch(g, w, form, s).result.Ok?
    ensures var f := Fetch(g, w, form, s);
      Fetch(g, f.world, form, next) == Step(f.world, [], f.result)
  {
  }

  /** A request caches under its own form only: no other form's cached page changes. */
  lemma OtherFormsUnaffected(g: Generation, w: World, form: Entries, s: Supply, other: Entries)
    requires Enough(s) && other != form
    ensures Cached(Fetch(g, w, form, s).world, CacheKey(other)) == Cached(w, CacheKey(other))
  {
    CacheKeyInjective(form, other);
  }

  /** The key is taken from the form without the secrets: the posted form has a different key. */
  lemma KeyOmitsSecrets(accion: string, extras: Entries, token: string, codigo: string, numRnd: string)
    requires "token" !in Keys(extras)
    ensures CacheKey(BaseForm(accion, extras)) != CacheKey(PostForm(BaseForm(accion, extras), token, codigo, numRnd))
  {
    var form := BaseForm(accion, extras);
    BaseFormGet(accion, extras, "token");
    PostFormSecrets(form, token, codigo, numRnd);
    CacheKeyInjective(form, PostForm(form, token, codigo, numRnd));
  }

  /**
   * The query that is posted: to the query page, with a 52-character token
   * of the alphabet, the CAPTCHA code, the nonce of the image request, and
   * every other field as in the base form.
   */
  lemma PostedQuery(g: Generation, w: World, form: Entries, s: Supply, k: string)
    requires Enough(s) && |Fetch(g, w, form, s).sent| == 3
    ensures var q := Fetch(g, w, form, s).sent[2];
      q.verb == POST && q.path == QueryPath &&
      Fetch(g, w, form, s).sent[1] == CaptchaRequest(s.nonce) &&
      Get(q.form, "token") == Some(Token(s)) && |Token(s)| == DefaultLength &&
      Get(q.form, "numRnd") == Some(NatToString(s.nonce)) &&
      (k !in SecretKeys ==> Get(q.form, k) == Get(form, k))
  {
    ExchangeQuery(g, w, form, s);
    var codigo := CaptchaCode(g, NextReply(LaterReplies(w.replies)), s).value;
    PostFormSecrets(form, Token(s), codigo, NatToString(s.nonce));
    if k !in SecretKeys {
      PostFormKeeps(form, Token(s), codigo, NatToString(s.nonce), k);
    }
  }

  /**
   * Where the generations part: with a 404 for the CAPTCHA image, the
   * Infrastructure client posts the query with an empty code and caches the
   * page, while the Core client fails after two requests and caches nothing
   * (once the jar has accepted the bootstrap page's cookies).
   */
  lemma NotFoundImage(w: World, form: Entries, s: Supply, boot: Response, image: Html, page: Html)
    requires Enough(s) && Cached(w, CacheKey(form)).None?
    requires w.replies == [Ok(boot), Ok(Response(404, image)), Ok(Response(200, page))]
    requires BootFailure(Ok(boot)).None?
    ensures Fetch(Infrastructure, w, form, s).result == Ok(page)
    ensures Fetch(Infrastructure, w, form, s).sent[2] == QueryRequest(form, s, "")
    ensures Fetch(Core, w, form, s).result.Thrown? && |Fetch(Core, w, form, s).sent| == 2
    ensures Cached(Fetch(Core, w, form, s).world, CacheKey(form)).None?
  {
    var image', page' := Ok(Response(404, image)), Ok(Response(200, page));
    assert LaterReplies(w.replies) == [image', page'];
    var w1 := World(w.memory, w.redis, Bootstrapped(w.cookies, Ok(boot)), [image', page']);
    NotFoundSkippedOnlyByInfrastructure(image, s.recognised, s.typed);
    assert Booted(w) == w1;
    ExchangeReached(Infrastructure, w, form, s);
    ExchangeReached(Core, w, form, s);
    InfrastructureSkips(w1, form, s, image, page);
    CoreStops(w1, form, s, image, page);
  }

  lemma InfrastructureSkips(w: World, form: Entries, s: Supply, image: Html, page: Html)
    requires Enough(s)
    requires w.replies == [Ok(Response(404, image)), Ok(Response(200, page))]
    ensures Solve(Infrastructure, w, form, s).result == Ok(page)
    ensures Solve(Infrastructure, w, form, s).sent[1] == QueryRequest(form, s, "")
  {
    NotFoundSkippedOnlyByInfrastructure(image, s.recognised, s.typed);
    assert LaterReplies(w.replies) == [Ok(Response(200, page))];
  }

  lemma CoreStops(w: World, form: Entries, s: Supply, image: Html, page: Html)
    requires Enough(s)
    requires w.replies == [Ok(Response(404, image)), Ok(Response(200, page))]
    ensures Solve(Core, w, form, s).result.Thrown? && |Solve(Core, w, form, s).sent| == 1
  {
    NotFoundSkippedOnlyByInfrastructure(image, s.recognised, s.typed);
  }
}
