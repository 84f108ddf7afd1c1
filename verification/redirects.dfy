/** `RedirectsController#show` with its filter chain, as one function from
    the store and the request to a response and the updated store:
    `set_link` (lookup, rescued to a 404), `authenticate` (only for a link
    with a password digest), the action itself (410 for an expired link, 302
    to the stored URL otherwise) and the `increment_clicks` after-action,
    which runs only when the response is a 302. */
module Redirects {
  import opened Base
  import opened Links

  /** HTTP Basic credentials sent with the request. */
  datatype Credentials = Credentials(username: string, password: string)

  datatype Response =
    | NotFound(error: string)      // link_not_found
    | Unauthorized(realm: string)  // request_http_basic_authentication
    | Gone                         // public/410.html
    | Redirect(location: string)   // redirect_to @link.url

  function StatusCode(r: Response): int
  {
    match r
    case NotFound(_) => 404
    case Unauthorized(_) => 401
    case Gone => 410
    case Redirect(_) => 302
  }

  datatype Resolution = Resolution(response: Response, store: Store)

  const LinkNotFound := "Link not found"
  const Realm := "Links"

  /** The block given to `authenticate_or_request_with_http_basic`: the user
      name must be the link's code and `authenticate(password)` must accept
      the password. `checkPassword` is bcrypt's comparison against a digest. */
  predicate Authenticated(link: Link, creds: Option<Credentials>, checkPassword: (string, string) -> bool)
  {
    match creds
    case None => false
    case Some(c) =>
      && c.username == link.code
      && link.passwordDigest.Some?
      && checkPassword(link.passwordDigest.value, c.password)
  }

  /** The `authenticate` filter lets the request through. */
  predicate PassesAuthentication(link: Link, creds: Option<Credentials>, checkPassword: (string, string) -> bool)
  {
    !IsProtected(link) || Authenticated(link, creds, checkPassword)
  }

  /** `increment!(:clicks)` on the row found under `code`. */
  function IncrementClicks(store: Store, code: string): (r: Store)
    requires code in store
    ensures r.Keys == store.Keys
    ensures r[code].clicks == store[code].clicks + 1
    ensures r[code] == store[code].(clicks := r[code].clicks)
    ensures forall k :: k in store && k != code ==> r[k] == store[k]
  {
    store[code := store[code].(clicks := store[code].clicks + 1)]
  }

  /** One GET /:code. */
  function Resolve(store: Store, code: string, creds: Option<Credentials>, now: Time,
                   checkPassword: (string, string) -> bool): (r: Resolution)
    ensures r.store.Keys == store.Keys
    ensures forall k :: k in store && k != code ==> r.store[k] == store[k]
    ensures r.response.NotFound? <==> code !in store
    ensures r.response.NotFound? ==> r.response.error == LinkNotFound
    ensures r.response.Unauthorized? <==>
              code in store && IsProtected(store[code]) && !Authenticated(store[code], creds, checkPassword)
    ensures r.response.Gone? <==>
              code in store && PassesAuthentication(store[code], creds, checkPassword) && Expired(store[code], now)
    ensures r.response.Redirect? ==> code in store && r.response.location == store[code].url
    ensures StatusCode(r.response) == 302 <==>
              code in store && r.store[code] == store[code].(clicks := store[code].clicks + 1)
    ensures StatusCode(r.response) != 302 ==> r.store == store
  {
    // before_action :set_link
    if code !in store then Resolution(NotFound(LinkNotFound), store)
    else
      var link := store[code];
      // before_action :authenticate, if: password_digest.present?
      if IsProtected(link) && !Authenticated(link, creds, checkPassword) then
        Resolution(Unauthorized(Realm), store)
      else
        // the show action
        var response := if Expired(link, now) then Gone else Redirect(link.url);
        // after_action :increment_clicks, if: response.status == 302
        if StatusCode(response) == 302 then Resolution(response, IncrementClicks(store, code))
        else Resolution(response, store)
  }

  /** The redirect keeps the store's invariant: every link stays under its
      own code, and no code changes. */
  lemma ResolvePreservesWellFormed(store: Store, code: string, creds: Option<Credentials>, now: Time,
                                   checkPassword: (string, string) -> bool)
    requires WellFormedStore(store)
    ensures WellFormedStore(Resolve(store, code, creds, now, checkPassword).store)
  {
  }

  /** Clicks only grow, and only the resolved link's clicks move; no other
      field of any link changes. */
  lemma ResolveOnlyCountsClicks(store: Store, code: string, creds: Option<Credentials>, now: Time,
                                checkPassword: (string, string) -> bool)
    ensures var r := Resolve(store, code, creds, now, checkPassword);
            forall k :: k in store ==>
              && r.store[k].clicks >= store[k].clicks
              && r.store[k] == store[k].(clicks := r.store[k].clicks)
  {
  }

  /** An open, unexpired link redirects to its URL and counts the visit. */
  lemma OpenLinkRedirects(store: Store, code: string, creds: Option<Credentials>, now: Time,
                          checkPassword: (string, string) -> bool)
    requires code in store && !IsProtected(store[code]) && !Expired(store[code], now)
    ensures var r := Resolve(store, code, creds, now, checkPassword);
            && r.response == Redirect(store[code].url)
            && r.store[code].clicks == store[code].clicks + 1
  {
  }

  /** A link without a password digest is never challenged. */
  lemma UnprotectedNeverChallenged(store: Store, code: string, creds: Option<Credentials>, now: Time,
                                   checkPassword: (string, string) -> bool)
    requires code in store && !IsProtected(store[code])
    ensures StatusCode(Resolve(store, code, creds, now, checkPassword).response) != 401
  {
  }

  /** Authentication runs before the expiry check: a protected link that is
      expired still answers 401 to a request without valid credentials. */
  lemma ChallengeBeforeGone(store: Store, code: string, creds: Option<Credentials>, now: Time,
                            checkPassword: (string, string) -> bool)
    requires code in store && IsProtected(store[code]) && Expired(store[code], now)
    requires !Authenticated(store[code], creds, checkPassword)
    ensures Resolve(store, code, creds, now, checkPassword) == Resolution(Unauthorized(Realm), store)
  {
  }

  /** The alternative order, in which expiry is decided before credentials
      are asked for. */
  function ResolveExpiryFirst(store: Store, code: string, creds: Option<Credentials>, now: Time,
                              checkPassword: (string, string) -> bool): (r: Resolution)
    ensures r.response.Gone? <==> code in store && Expired(store[code], now)
  {
    if code !in store then Resolution(NotFound(LinkNotFound), store)
    else
      var link := store[code];
      if Expired(link, now) then Resolution(Gone, store)
      else if IsProtected(link) && !Authenticated(link, creds, checkPassword) then
        Resolution(Unauthorized(Realm), store)
      else Resolution(Redirect(link.url), IncrementClicks(store, code))
  }

  /** The two orders disagree exactly on expired protected links requested
      without valid credentials, where the controller answers 401 and the
      expiry-first order 410. */
  lemma OrderDifference(store: Store, code: string, creds: Option<Credentials>, now: Time,
                        checkPassword: (string, string) -> bool)
    ensures var actual := Resolve(store, code, creds, now, checkPassword);
            var expiryFirst := ResolveExpiryFirst(store, code, creds, now, checkPassword);
            actual != expiryFirst <==>
              && code in store && Expired(store[code], now) && IsProtected(store[code])
              && !Authenticated(store[code], creds, checkPassword)
  {
  }

  /** `n` requests for the same link: a link that redirects once redirects
      every time, and its clicks grow by exactly `n`. */
  function ResolveRepeatedly(store: Store, code: string, creds: Option<Credentials>, now: Time,
                             checkPassword: (string, string) -> bool, n: nat): Store
    decreases n
  {
    if n == 0 then store
    else ResolveRepeatedly(Resolve(store, code, creds, now, checkPassword).store,
                           code, creds, now, checkPassword, n - 1)
  }

  lemma {:induction false} RepeatedRedirectsCountEach(store: Store, code: string, creds: Option<Credentials>,
                                                      now: Time, checkPassword: (string, string) -> bool, n: nat)
    requires code in store
    requires PassesAuthentication(store[code], creds, checkPassword) && !Expired(store[code], now)
    ensures var s := ResolveRepeatedly(store, code, creds, now, checkPassword, n);
            && s.Keys == store.Keys
            && s[code] == store[code].(clicks := store[code].clicks + n)
            && forall k :: k in store && k != code ==> s[k] == store[k]
    decreases n
  {
    if n > 0 {
      var next := Resolve(store, code, creds, now, checkPassword).store;
      assert next[code] == store[code].(clicks := store[code].clicks + 1);
      RepeatedRedirectsCountEach(next, code, creds, now, checkPassword, n - 1);
    }
  }
}
