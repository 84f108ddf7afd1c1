/** `Api::V1::LinksController`: `create` builds a Link from the permitted
    request parameters, saves it when validation records no error (201 with
    the JSON representation) and otherwise answers 422 with the full error
    messages; `show` looks a link up by code (200 or 404). */
module LinksApi {
  import opened Base
  import opened ModelErrors
  import opened Links
  import opened CodeGeneration
  import opened Validation
  import Redirects

  /** Request parameters, by name. */
  type Params = map<string, string>

  /** `params.permit(:url, :password, :expires_at)`. */
  const PermittedKeys: set<string> := {"url", "password", "expires_at"}

  /** The collaborators a create request reaches: the URL libraries, the
      HEAD request, bcrypt's digest function, the cast of a parameter to a
      timestamp, and the `redirect_url` route helper. */
  datatype Services = Services(
    lib: UrlLibrary,
    head: string -> Probe,
    digest: string -> string,
    parseTime: string -> Option<Time>,
    redirectUrl: string -> string)

  datatype ApiResponse =
    | Created(body: JsonObject)
    | Unprocessable(errors: seq<string>)
    | Ok(body: JsonObject)
    | NotFound(error: string)

  function StatusCode(r: ApiResponse): int
  {
    match r
    case Created(_) => 201
    case Unprocessable(_) => 422
    case Ok(_) => 200
    case NotFound(_) => 404
  }

  datatype CreateResult = CreateResult(response: ApiResponse, store: Store)

  const LinkNotFound := "Link non trovato"

  /** `link_params`: only the three permitted keys survive. */
  function Permit(params: Params): (p: Params)
    ensures p.Keys == params.Keys * PermittedKeys
    ensures forall k :: k in p ==> p[k] == params[k]
  {
    map k | k in params && k in PermittedKeys :: params[k]
  }

  /** The `password=` writer of `has_secure_password`: nil clears the
      digest, an empty password leaves the (new, so absent) digest alone,
      any other password is digested. */
  function DigestFor(password: Option<string>, digest: string -> string): (d: Option<string>)
    ensures d.Some? <==> password.Some? && password.value != ""
    ensures password.Some? && password.value != "" ==> d == Some(digest(password.value))
  {
    match password
    case None => None
    case Some(p) => if p == "" then None else Some(digest(p))
  }

  function Lookup(p: Params, key: string): Option<string>
  {
    if key in p then Some(p[key]) else None
  }

  /** `Link.new(link_params)`: a missing URL reads as "", the code is left
      to the generator, `expires_at` is cast to a timestamp. */
  function BuildDraft(permitted: Params, svc: Services): (d: Draft)
    ensures d.code == None
  {
    Draft(
      if "url" in permitted then permitted["url"] else "",
      None,
      DigestFor(Lookup(permitted, "password"), svc.digest),
      match Lookup(permitted, "expires_at")
      case None => None
      case Some(t) => svc.parseTime(t))
  }

  /** The row `save` inserts for a record that passed validation: clicks at
      the column default, `created_at` stamped now. */
  function Saved(record: Draft, now: Time): Link
    requires record.code.Some?
  {
    Link(record.url, record.code.value, record.passwordDigest, record.expiresAt, 0, now)
  }

  /** The `if @link.save` branch of `create` for a validated record: a
      record without errors is inserted under its code and answered with its
      representation; otherwise nothing is stored and the full messages are
      returned. */
  function Respond(store: Store, v: Validated, now: Time, redirectUrl: string -> string): (r: CreateResult)
    requires v.record.code.Some?
    requires v.errors == [] ==> v.record.code.value !in store
    ensures r.response.Created? <==> v.errors == []
    ensures r.response.Unprocessable? ==>
              r.store == store && r.response.errors == FullMessages(v.errors) && r.response.errors != []
    ensures r.response.Created? ==>
              var c := v.record.code.value;
              && c in r.store && r.store == store[c := r.store[c]]
              && |r.store| == |store| + 1
              && r.store[c] == Saved(v.record, now)
              && r.response.body == ToJson(r.store[c], redirectUrl)
  {
    if v.errors == [] then
      var link := Saved(v.record, now);
      assert (store[link.code := link]).Keys == store.Keys + {link.code};
      CreateResult(Created(ToJson(link, redirectUrl)), store[link.code := link])
    else
      CreateResult(Unprocessable(FullMessages(v.errors)), store)
  }

  /** POST /api/v1/links. `draws` are the codes the generator will try. */
  function Create(store: Store, params: Params, draws: seq<Draw>, now: Time, svc: Services): (r: CreateResult)
    requires HasFresh(store, draws)
    ensures r.response.Created? || r.response.Unprocessable?
    ensures r.response.Unprocessable? ==> r.store == store && r.response.errors != []
    ensures r.response.Created? ==>
              var c := FirstFresh(store, draws).value;
              && IsGeneratedCode(c) && c !in store
              && c in r.store && r.store == store[c := r.store[c]]
              && |r.store| == |store| + 1
              && r.response.body == ToJson(r.store[c], svc.redirectUrl)
              && r.store[c].code == c
              && r.store[c].clicks == 0 && r.store[c].createdAt == now
              && !Expired(r.store[c], now)
  {
    var d := BuildDraft(Permit(params), svc);
    var v := Validate(d, store, draws, now, svc.lib, svc.head);
    var r := Respond(store, v, now, svc.redirectUrl);
    if v.errors == [] then
      AcceptedNotExpired(d, store, draws, now, svc.lib, svc.head, Saved(v.record, now));
      r
    else
      r
  }

  /** GET /api/v1/links/:code. It reads the store and never writes it. */
  function Show(store: Store, code: string, redirectUrl: string -> string): (r: ApiResponse)
    ensures r.Ok? <==> code in store
    ensures r.Ok? ==> r.body == ToJson(store[code], redirectUrl)
    ensures r.NotFound? <==> code !in store
    ensures r.NotFound? ==> r.error == LinkNotFound
  {
    if code in store then Ok(ToJson(store[code], redirectUrl)) else NotFound(LinkNotFound)
  }

  /** A create succeeds exactly when the record built from the permitted
      parameters, with the generated code, is acceptable; a refused create
      answers with every recorded error, rendered in order. */
  lemma CreateAcceptsIff(store: Store, params: Params, draws: seq<Draw>, now: Time, svc: Services)
    requires HasFresh(store, draws)
    ensures var r := Create(store, params, draws, now, svc);
            var d := BuildDraft(Permit(params), svc);
            && (r.response.Created? <==>
                  Acceptable(d, FirstFresh(store, draws).value, store, now, svc.lib, svc.head))
            && (r.response.Unprocessable? ==>
                  r.response.errors == FullMessages(Validate(d, store, draws, now, svc.lib, svc.head).errors))
  {
    AcceptedIff(BuildDraft(Permit(params), svc), store, draws, now, svc.lib, svc.head);
  }

  /** A create whose validation records an error answers 422 with the
      full messages of those errors, that error's among them, and stores
      nothing. */
  lemma CreateRefusedWith(store: Store, params: Params, draws: seq<Draw>, now: Time, svc: Services, e: ErrorEntry)
    requires HasFresh(store, draws)
    requires e in Validate(BuildDraft(Permit(params), svc), store, draws, now, svc.lib, svc.head).errors
    ensures var r := Create(store, params, draws, now, svc);
            && r.response.Unprocessable?
            && FullMessage(e) in r.response.errors
            && r.store == store
  {
    var v := Validate(BuildDraft(Permit(params), svc), store, draws, now, svc.lib, svc.head);
    FullMessagesHas(v.errors, e);
  }

  /** `link_params` depends on the permitted keys only. */
  lemma PermitAgrees(p1: Params, p2: Params)
    requires forall k :: k in PermittedKeys ==> (k in p1 <==> k in p2) && (k in p1 ==> p1[k] == p2[k])
    ensures Permit(p1) == Permit(p2)
  {
  }

  /** Only `url`, `password` and `expires_at` reach the model: two requests
      that agree on those three have the same effect, whatever else they
      carry (a `code` or `clicks` among them). */
  lemma CreateIgnoresUnpermitted(store: Store, p1: Params, p2: Params, draws: seq<Draw>, now: Time, svc: Services)
    requires HasFresh(store, draws)
    requires forall k :: k in PermittedKeys ==> (k in p1 <==> k in p2) && (k in p1 ==> p1[k] == p2[k])
    ensures Create(store, p1, draws, now, svc) == Create(store, p2, draws, now, svc)
  {
    PermitAgrees(p1, p2);
  }

  /** The created link carries what the request asked for: the normalized
      URL, a digest exactly when a non-empty password was sent, and the
      requested expiry. */
  lemma CreateStoresRequest(store: Store, params: Params, draws: seq<Draw>, now: Time, svc: Services)
    requires HasFresh(store, draws)
    requires Create(store, params, draws, now, svc).response.Created?
    ensures var r := Create(store, params, draws, now, svc);
            var link := r.store[FirstFresh(store, draws).value];
            && link.url == NormalizedUrl(if "url" in params then params["url"] else "", svc.lib)
            && (link.passwordDigest.Some? <==> "password" in params && params["password"] != "")
            && link.expiresAt == (if "expires_at" in params then svc.parseTime(params["expires_at"]) else None)
  {
    var p := Permit(params);
    var d := BuildDraft(p, svc);
    assert d.url == (if "url" in params then params["url"] else "");
    assert d.passwordDigest.Some? <==> "password" in params && params["password"] != "";
    assert d.expiresAt == (if "expires_at" in params then svc.parseTime(params["expires_at"]) else None);
  }

  /** Creation keeps the table well formed. */
  lemma CreatePreservesWellFormed(store: Store, params: Params, draws: seq<Draw>, now: Time, svc: Services)
    requires HasFresh(store, draws)
    requires WellFormedStore(store)
    ensures WellFormedStore(Create(store, params, draws, now, svc).store)
  {
    var r := Create(store, params, draws, now, svc);
    if r.response.Created? {
      var c := FirstFresh(store, draws).value;
      InsertKeepsWellFormed(store, r.store[c]);
    }
  }

  /** What `create` answers, `show` answers afterwards for the new code. */
  lemma CreateThenShow(store: Store, params: Params, draws: seq<Draw>, now: Time, svc: Services)
    requires HasFresh(store, draws)
    requires Create(store, params, draws, now, svc).response.Created?
    ensures var r := Create(store, params, draws, now, svc);
            Show(r.store, FirstFresh(store, draws).value, svc.redirectUrl) == Ok(r.response.body)
  {
  }

  /** A link created without a password is stored open, unexpired and
      not yet visited. */
  lemma CreatedLinkIsOpen(store: Store, params: Params, draws: seq<Draw>, now: Time, svc: Services)
    requires HasFresh(store, draws)
    requires "password" !in params
    requires Create(store, params, draws, now, svc).response.Created?
    ensures var r := Create(store, params, draws, now, svc);
            var c := FirstFresh(store, draws).value;
            && c in r.store && !IsProtected(r.store[c]) && !Expired(r.store[c], now)
            && r.store[c].clicks == 0
  {
    CreateStoresRequest(store, params, draws, now, svc);
  }

  /** A link created without a password redirects at once to its stored URL
      and counts the visit. */
  lemma CreateThenRedirect(store: Store, params: Params, draws: seq<Draw>, now: Time, svc: Services,
                           checkPassword: (string, string) -> bool)
    requires HasFresh(store, draws)
    requires "password" !in params
    requires Create(store, params, draws, now, svc).response.Created?
    ensures var r := Create(store, params, draws, now, svc);
            var c := FirstFresh(store, draws).value;
            var after := Redirects.Resolve(r.store, c, None, now, checkPassword);
            && after.response == Redirects.Redirect(r.store[c].url)
            && after.store[c].clicks == 1
  {
    var r := Create(store, params, draws, now, svc);
    var c := FirstFresh(store, draws).value;
    CreatedLinkIsOpen(store, params, draws, now, svc);
    Redirects.OpenLinkRedirects(r.store, c, None, now, checkPassword);
  }

  /** An `expires_at` that is not in the future is refused with "Expires at
      must be in the future" and nothing is stored. */
  lemma PastExpiryRejected(store: Store, params: Params, draws: seq<Draw>, now: Time, svc: Services)
    requires HasFresh(store, draws)
    requires "expires_at" in params
    requires var t := svc.parseTime(params["expires_at"]); t.Some? && t.value <= now
    ensures var r := Create(store, params, draws, now, svc);
            && r.response.Unprocessable?
            && "Expires at must be in the future" in r.response.errors
            && r.store == store
  {
    var d := BuildDraft(Permit(params), svc);
    var v := Validate(d, store, draws, now, svc.lib, svc.head);
    assert ErrorEntry(ExpiresAt, NotInFuture) in v.errors by {
      assert d.expiresAt == svc.parseTime(params["expires_at"]);
      ExpiresAtErrors(d, store, draws, now, svc.lib, svc.head);
      InOn(v.errors, ExpiresAt, NotInFuture);
    }
    CreateRefusedWith(store, params, draws, now, svc, ErrorEntry(ExpiresAt, NotInFuture));
    RenderedExpiry();
  }

  /** A URL whose normal form `URI.parse` reads with a scheme other than
      https is refused with "Url must use HTTPS protocol" when it has no
      other URL error, and nothing is stored. */
  lemma PlainHttpRejected(store: Store, params: Params, draws: seq<Draw>, now: Time, svc: Services)
    requires HasFresh(store, draws)
    requires "url" in params && IsPresent(params["url"]) && svc.lib.normalize(params["url"]).Some?
    requires var url := svc.lib.normalize(params["url"]).value;
             && IsPresent(url) && svc.lib.matchesHttpUrl(url)
             && svc.lib.parse(url).Parsed? && svc.lib.parse(url).scheme != Some("https")
    ensures var r := Create(store, params, draws, now, svc);
            && r.response.Unprocessable?
            && "Url must use HTTPS protocol" in r.response.errors
            && r.store == store
  {
    HttpsErrorForRequest(store, params, draws, now, svc);
    CreateRefusedWith(store, params, draws, now, svc, ErrorEntry(Url, HttpsRequired));
    RenderedHttps();
  }

  /** The HTTPS error, traced from the request parameters to the record. */
  lemma HttpsErrorForRequest(store: Store, params: Params, draws: seq<Draw>, now: Time, svc: Services)
    requires HasFresh(store, draws)
    requires "url" in params && IsPresent(params["url"]) && svc.lib.normalize(params["url"]).Some?
    requires var url := svc.lib.normalize(params["url"]).value;
             && IsPresent(url) && svc.lib.matchesHttpUrl(url)
             && svc.lib.parse(url).Parsed? && svc.lib.parse(url).scheme != Some("https")
    ensures ErrorEntry(Url, HttpsRequired)
            in Validate(BuildDraft(Permit(params), svc), store, draws, now, svc.lib, svc.head).errors
  {
    var d := BuildDraft(Permit(params), svc);
    assert d.url == params["url"];
    var url := NormalizedUrl(d.url, svc.lib);
    assert NormalizeUrl(d, svc.lib).messages == [];
    assert UrlDeclaredMessages(url, svc.lib) == [];
    HttpsRequiredRecorded(d, store, draws, now, svc.lib, svc.head);
  }

  /** A URL the normalizer rejects is refused with "Url contains invalid
      characters or format" and nothing is stored. */
  lemma UnnormalizableUrlRejected(store: Store, params: Params, draws: seq<Draw>, now: Time, svc: Services)
    requires HasFresh(store, draws)
    requires "url" in params && IsPresent(params["url"]) && svc.lib.normalize(params["url"]).None?
    ensures var r := Create(store, params, draws, now, svc);
            && r.response.Unprocessable?
            && "Url contains invalid characters or format" in r.response.errors
            && r.store == store
  {
    var d := BuildDraft(Permit(params), svc);
    var v := Validate(d, store, draws, now, svc.lib, svc.head);
    assert ErrorEntry(Url, InvalidCharacters) in v.errors by {
      assert d.url == params["url"];
      assert UrlMessagesBeforeProbe(d, svc.lib)[0] == InvalidCharacters;
      ErrorsByAttribute(d, store, draws, now, svc.lib, svc.head);
      assert InvalidCharacters in On(v.errors, Url);
      InOn(v.errors, Url, InvalidCharacters);
    }
    CreateRefusedWith(store, params, draws, now, svc, ErrorEntry(Url, InvalidCharacters));
    RenderedInvalidCharacters();
  }

  /** `show` answers for any stored link, protected or expired, without
      asking for credentials. */
  lemma ShowIgnoresProtectionAndExpiry(store: Store, code: string, redirectUrl: string -> string)
    requires code in store
    ensures Show(store, code, redirectUrl).Ok?
    ensures Show(store, code, redirectUrl).body["original_url"] == JString(store[code].url)
  {
  }
}
