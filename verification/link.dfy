/** The persisted Link record, the store of links keyed by their code, and the
    record's pure readers: `expired?`, `to_param` and the JSON representation
    produced by `to_json`. */
module Links {
  import opened Base

  /** Every code is exactly this long (the `length: { is: 8 }` validation). */
  const CodeLength: nat := 8

  /** One row of the `links` table. `passwordDigest` is the bcrypt digest
      written by `has_secure_password`; `clicks` starts at the column default 0. */
  datatype Link = Link(
    url: string,
    code: string,
    passwordDigest: Option<string>,
    expiresAt: Option<Time>,
    clicks: nat,
    createdAt: Time)

  /** The `links` table, addressed through its unique index on `code`. */
  type Store = map<string, Link>

  /** The unique index: each link is stored under its own code. */
  predicate KeyedByCode(store: Store)
  {
    forall c :: c in store ==> store[c].code == c
  }

  /** What every stored link satisfies when links enter the table only
      through validated creation: the unique index holds and every code has
      the validated length. */
  predicate WellFormedStore(store: Store)
  {
    KeyedByCode(store) && forall c :: c in store ==> |c| == CodeLength
  }

  /** Inserting a link under its own code, when the code has the validated
      length, keeps the table well formed. */
  lemma InsertKeepsWellFormed(store: Store, link: Link)
    requires WellFormedStore(store)
    requires |link.code| == CodeLength
    ensures WellFormedStore(store[link.code := link])
  {
  }

  /** `expired?` evaluated at instant `now` (`Time.current`). */
  predicate Expired(link: Link, now: Time)
  {
    link.expiresAt.Some? && link.expiresAt.value <= now
  }

  /** `expired?`: a link without `expires_at` never expires, and the
      expiry instant itself already counts as expired. */
  lemma ExpiredBoundary(link: Link, now: Time)
    ensures link.expiresAt == None ==> !Expired(link, now)
    ensures link.expiresAt == Some(now) ==> Expired(link, now)
    ensures link.expiresAt.Some? && now < link.expiresAt.value ==> !Expired(link, now)
  {
  }

  /** Once expired a link stays expired: expiry is monotone in time. */
  lemma ExpiredIsPermanent(link: Link, now: Time, later: Time)
    requires Expired(link, now)
    requires now <= later
    ensures Expired(link, later)
  {
  }

  /** `password_digest.present?`, the condition under which the redirect
      demands HTTP Basic credentials. */
  predicate IsProtected(link: Link)
  {
    link.passwordDigest.Some? && IsPresent(link.passwordDigest.value)
  }

  /** `to_param`: the path segment that addresses a link. */
  function ToParam(link: Link): string
  {
    link.code
  }

  /** `to_param` addresses the link: looking up a stored link by its
      parameter finds that very link. */
  lemma ToParamFindsLink(store: Store, link: Link)
    requires KeyedByCode(store)
    requires link in store.Values
    ensures ToParam(link) in store && store[ToParam(link)] == link
  {
    var c :| c in store && store[c] == link;
  }

  /** The JSON values `to_json` emits. */
  datatype JsonValue = JString(s: string) | JInt(n: int) | JTime(t: Time) | JNull

  type JsonObject = map<string, JsonValue>

  /** The six keys of the external representation. */
  const RepresentationKeys: set<string> :=
    {"original_url", "short_url", "created_at", "expires_at", "code", "clicks"}

  function OptionalTime(t: Option<Time>): JsonValue
  {
    match t
    case None => JNull
    case Some(v) => JTime(v)
  }

  /** `to_json`. `redirectUrl` is the `redirect_url` route helper, which
      turns a code into the absolute short URL. */
  function ToJson(link: Link, redirectUrl: string -> string): (j: JsonObject)
    ensures j.Keys == RepresentationKeys
    ensures "password_digest" !in j && "password" !in j
    ensures j["original_url"] == JString(link.url)
    ensures j["code"] == JString(link.code)
    ensures j["clicks"] == JInt(link.clicks)
    ensures j["short_url"] == JString(redirectUrl(link.code))
  {
    map[
      "original_url" := JString(link.url),
      "short_url" := JString(redirectUrl(link.code)),
      "created_at" := JTime(link.createdAt),
      "expires_at" := OptionalTime(link.expiresAt),
      "code" := JString(link.code),
      "clicks" := JInt(link.clicks)
    ]
  }

  /** What a client can learn about a link: everything but the digest. */
  datatype PublicView = PublicView(
    url: string, code: string, expiresAt: Option<Time>, clicks: nat, createdAt: Time)

  function View(link: Link): PublicView
  {
    PublicView(link.url, link.code, link.expiresAt, link.clicks, link.createdAt)
  }

  /** Reads a representation back, as a client of the API would. */
  function FromJson(j: JsonObject): Option<PublicView>
  {
    if RepresentationKeys <= j.Keys
       && j["original_url"].JString? && j["code"].JString?
       && j["clicks"].JInt? && j["clicks"].n >= 0
       && j["created_at"].JTime?
       && (j["expires_at"].JNull? || j["expires_at"].JTime?)
    then
      var expires := if j["expires_at"].JTime? then Some(j["expires_at"].t) else None;
      Some(PublicView(j["original_url"].s, j["code"].s, expires, j["clicks"].n, j["created_at"].t))
    else None
  }

  /** The representation carries every public field of the link faithfully. */
  lemma JsonRoundTrip(link: Link, redirectUrl: string -> string)
    ensures FromJson(ToJson(link, redirectUrl)) == Some(View(link))
  {
  }
}
