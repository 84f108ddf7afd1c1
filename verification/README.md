# yll link shortener: a Dafny model of links, validation and redirects

This project models the core of yll, a Rails URL shortener. The core has three parts:

- the `Link` model. Before a link is saved, Rails runs its `before_validation` callbacks: the URL is normalized and, on create, a random unique 8-character code is generated. It then runs the declared validations of `url` and `code`, and the three custom validators: HTTPS, reachability through a HEAD request, and an expiry in the future. The model also covers the readers `expired?`, `to_param` and `to_json`.
- `RedirectsController#show`: `GET /:code` with its filter chain. The chain has a lookup that answers 404, HTTP Basic authentication for password-protected links (401), a 410 for expired links, a 302 to the stored URL, and a click counter that runs only after a 302.
- `Api::V1::LinksController`: `create`, which answers 201 with the JSON representation or 422 with the full error messages, and `show`, which answers 200 or 404.

Modules, one per file:

- `Base` (`base.dfy`): option values, Ruby's `blank?`/`present?`, and decimal rendering of integers.
- `ModelErrors` (`errors.dfy`): the error collection of a record. It is one list of (attribute, message) entries in insertion order. `errors[:attr]` is a filter of that list, and `full_messages` renders each entry.
- `Links` (`link.dfy`): the `Link` row, the table keyed by code, `expired?`, `to_param`, and the JSON representation.
- `CodeGeneration` (`code_generation.dfy`): `SecureRandom.alphanumeric(8)` as explicit draws over the 62-letter alphabet, and the retry loop of `generate_unique_code`.
- `Validation` (`validation.dfy`): the callbacks and the validator chain, run in declaration order. Each validator sees the errors recorded before it, so the HTTPS check is skipped after an earlier URL error and the probe runs only on a present, error-free URL.
- `Redirects` (`redirects.dfy`): the redirect filter chain, with a reference definition of the other filter order for comparison.
- `LinksApi` (`links_api.dfy`): `create` and `show`, strong parameters, and the `password=` writer of `has_secure_password`.

Collaborators the model cannot see are parameters:

- the URL libraries (Addressable normalization, the `URI` format regexp, `URI.parse`);
- the HEAD request;
- bcrypt's digest and comparison;
- the timestamp cast of `expires_at`;
- the `redirect_url` route helper;
- the clock (`now`);
- the random draws.

Two behaviours of the code worth knowing:

- Authentication runs before the expiry check. An expired, protected link therefore answers 401 to a request without valid credentials, not 410. `Redirects.ResolveExpiryFirst` is the other order, and `Redirects.OrderDifference` states exactly where the two differ.
- A link is protected when `password_digest.present?`. A blank digest therefore leaves the link open.

## Model

| member | source | states |
|---|---|---|
| Base.IsBlank | app/models/link.rb:49 | (definition) ActiveSupport's `String#blank?`: every character is whitespace in the Unicode sense of `[[:space:]]` (tab to carriage return, space, U+0085, U+00A0, U+1680, U+2000-U+200A, U+2028, U+2029, U+202F, U+205F, U+3000), so the empty string is blank |
| Base.IsPresent | app/models/link.rb:16 | (definition) `present?` is the negation of `blank?`; it decides the probe's guard, the presence validations of url and code, and whether a password digest protects a link |
| Base.IntToDecimal | app/models/link.rb:82 | the status interpolated into "could not be verified (HTTP …)" is rendered as decimal digits, with a leading '-' for a negative number |
| Base.NatToDecimalValue | app/models/link.rb:82 | the digits written for a natural number read back, most significant first, as that number |
| Base.IntToDecimalValue | app/models/link.rb:82 | the interpolated text reads back as the status itself, sign included, so "(HTTP 404)" names status 404 |
| ModelErrors.FixedTextsDistinct | app/models/link.rb:5-90 | the fixed error texts (blank, invalid URL, invalid characters, taken, wrong length, HTTPS, future) have pairwise different lengths, so no two are equal |
| ModelErrors.On | app/models/link.rb:16 | `errors[:url]` is empty exactly when no recorded entry belongs to that attribute |
| ModelErrors.OnAppend | app/models/link.rb:15-17 | adding errors after others extends each attribute's list in order |
| ModelErrors.InOn | app/models/link.rb:67 | a message is among `errors[a]` exactly when an entry for `a` with that message was recorded |
| ModelErrors.NoErrorsIff | app/controllers/api/v1/links_controller.rb:10 | the record has no errors (so `save` proceeds) exactly when url, code and expires_at each have none |
| ModelErrors.ErrorMap | app/models/link.rb:16 | the per-attribute view of the errors has a key exactly for attributes with messages, each mapped to its messages in order; it is empty exactly when there are no errors |
| ModelErrors.Text | app/models/link.rb:5-90 | (definition) the English text of each error: Rails' defaults "can't be blank", "has already been taken", "is the wrong length (should be 8 characters)", and the model's own messages, with the status or the transport error's message interpolated |
| ModelErrors.FullMessage | app/controllers/api/v1/links_controller.rb:13 | (definition) one error rendered as the humanized attribute name ("Url", "Code", "Expires at"), a space, and the message text |
| ModelErrors.FullMessages | app/controllers/api/v1/links_controller.rb:13 | `full_messages` has one rendered "Attribute message" line per error, in the same order |
| ModelErrors.FullMessagesHas | app/controllers/api/v1/links_controller.rb:13 | every recorded error appears, rendered, among the full messages |
| Links.Expired | app/models/link.rb:38-40 | (definition) `expired?`: an expiry is set and is not after `now` |
| Links.ToParam | app/models/link.rb:23-25 | (definition) `to_param` is the link's code |
| Links.IsProtected | app/controllers/redirects_controller.rb:4 | (definition) a link is protected exactly when its password digest is present, that is set and not blank |
| Links.InsertKeepsWellFormed | app/models/link.rb:11-13 | inserting a link under its own code of length 8 keeps every stored link under its own 8-character code |
| Links.ExpiredBoundary | app/models/link.rb:38-40 | no expiry means never expired; the expiry instant itself already counts as expired; earlier instants do not |
| Links.ExpiredIsPermanent | app/models/link.rb:38-40 | once expired, a link stays expired at every later time |
| Links.ToParamFindsLink | app/models/link.rb:23-25 | looking a stored link up by its `to_param` finds that very link |
| Links.ToJson | app/models/link.rb:27-36 | the representation has exactly the six keys, never the password or digest, and carries the URL, code, clicks and short URL of the link |
| Links.JsonRoundTrip | app/models/link.rb:27-36 | reading the representation back yields every public field of the link |
| CodeGeneration.AlphabetChar | app/models/link.rb:61 | each alphabet index names an ASCII letter or digit |
| CodeGeneration.AlphabetCharInjective | app/models/link.rb:61 | different alphabet indices name different characters |
| CodeGeneration.CodeOf | app/models/link.rb:61 | a draw spells an 8-character alphanumeric code, letter by letter |
| CodeGeneration.FirstFresh | app/models/link.rb:60-63 | the retry loop finds a code exactly when some draw is free; that code is alphanumeric, 8 long and not stored |
| CodeGeneration.FirstFreshIsFirst | app/models/link.rb:60-63 | the chosen code is the code of the first free draw: every earlier draw collided with a stored code |
| CodeGeneration.GenerateUniqueCode | app/models/link.rb:60-63 | the loop returns a fresh, well-shaped code, the one the reference definition picks |
| CodeGeneration.AssignCode | app/models/link.rb:60 | `||=` keeps a code already present, even an empty one, and generates a fresh one only when none was given |
| Validation.NormalizeUrl | app/models/link.rb:48-57 | a blank URL is left alone; a URL the normalizer rejects is left alone with exactly the invalid-characters error; otherwise only the URL changes, and no error is recorded |
| Validation.NormalizeUrlAsWritten | app/models/link.rb:48-57 | as written, the callback raises exactly when the URL is present and the normalizer rejects it; otherwise it agrees with the corrected callback |
| Validation.NormalizeFailureRaisesAsWritten | app/models/link.rb:54-55 | on a rejected URL the callback as written raises ArgumentError, where the corrected one records "contains invalid characters or format" |
| Validation.CodeMessages | app/models/link.rb:11-13 | (definition) the code validations in declaration order: "can't be blank" for a blank code, "has already been taken" for a stored code, the wrong-length message for a length other than 8 |
| Validation.SecurityMessages | app/models/link.rb:66-73 | past its guard, the HTTPS check adds exactly "must use HTTPS protocol" when `URI.parse` yields a scheme other than https, and nothing when it yields https or raises |
| Validation.ExpiryMessages | app/models/link.rb:88-90 | the expiry check adds exactly "must be in the future" when an expiry is set and is not after `now`, and nothing otherwise |
| Validation.Check | app/models/link.rb:5-17 | (definition) the eight validators, one per case, each given the errors recorded before it: presence and format of url; presence, uniqueness and length of code; HTTPS only when url has no error; the probe only for a present, error-free url; the expiry check |
| Validation.ProbeMessages | app/models/link.rb:75-86 | the probe adds no error exactly on a 2xx, 301 or 302 answer; another status adds "could not be verified (HTTP status)"; a transport error adds "could not be reached: message" |
| Validation.Prepare | app/models/link.rb:20-21 | the callbacks run in order: the URL is normalized; a supplied code is kept, a missing one is the first fresh draw; the password digest and expiry are untouched |
| Validation.RunValidators | app/models/link.rb:5-17 | validators only add errors: what was recorded before the run is a prefix of what is recorded after it |
| Validation.Validate | app/models/link.rb:5-21 | the validated record carries the normalized URL and a code: the supplied one, or a fresh generated one; its other fields are untouched |
| Validation.RunValidatorsAppend | app/models/link.rb:5-17 | running two validator lists one after the other is running their concatenation |
| Validation.DeclaredUrlErrors | app/models/link.rb:5-9 | the declared url validations add "can't be blank" and the format message, in that order, and nothing else to url |
| Validation.DeclaredCodeErrors | app/models/link.rb:11-13 | the declared code validations add blank, taken and wrong-length messages to code, in that order |
| Validation.DeclaredExpiresAtErrors | app/models/link.rb:5-13 | the declared validations record nothing on expires_at |
| Validation.DeclaredErrors | app/models/link.rb:5-13 | the declared validations, seen per attribute |
| Validation.CustomUrlErrors | app/models/link.rb:15-16 | the custom validators add to url the HTTPS message (unless url already has an error) and then the probe's message (only for a present, error-free URL) |
| Validation.CustomCodeErrors | app/models/link.rb:15-17 | the custom validators never touch code |
| Validation.CustomExpiresAtErrors | app/models/link.rb:17 | the custom validators add to expires_at exactly the expiry message |
| Validation.CustomErrors | app/models/link.rb:15-17 | the custom validators, seen per attribute |
| Validation.ErrorsByAttribute | app/models/link.rb:5-21 | the full pipeline per attribute: url gets normalization, presence, format, HTTPS and probe errors with their guards; code gets its three checks; expires_at gets the future check |
| Validation.UrlAcceptable | app/models/link.rb:48-86 | url has no error exactly when it is present, normalizes to a present URL that matches the format, is https or unparseable by `URI.parse`, and the probe accepts it |
| Validation.CodeAcceptable | app/models/link.rb:11-13 | code has no error exactly when it is present, 8 long and not stored |
| Validation.AcceptedIff | app/models/link.rb:5-21 | the pipeline records no error exactly when URL, code and expiry each meet every requirement |
| Validation.AcceptedNotExpired | app/models/link.rb:88-90 | a record accepted at `now` is not expired at `now` |
| Validation.ExpiresAtErrors | app/models/link.rb:88-90 | expires_at is reported exactly when it is present and not after `now` |
| Validation.RenderedExpiry | app/models/link.rb:89 | the expiry error renders as "Expires at must be in the future" |
| Validation.RenderedHttps | app/models/link.rb:70 | the HTTPS error renders as "Url must use HTTPS protocol" |
| Validation.RenderedInvalidCharacters | app/models/link.rb:55 | the normalization error renders as "Url contains invalid characters or format" |
| Validation.CodeMessagesMeaning | app/models/link.rb:11-13 | each code message is recorded exactly when its condition holds; a generated, free code has none |
| Validation.CodeErrors | app/models/link.rb:11-13 | a generated code never draws a code error; a supplied code is reported blank, taken or of the wrong length exactly when it is |
| Validation.BlankUrlBeforeProbe | app/models/link.rb:48-49 | a blank URL is not normalized and gets only the presence and format errors before the probe |
| Validation.BlankUrlErrors | app/models/link.rb:5-16 | a blank URL is reported blank, followed by the format error when the regexp rejects it, and is neither checked for HTTPS nor probed |
| Validation.UrlMessagesBeforeProbeMeaning | app/models/link.rb:66-73 | a malformed URL skips the HTTPS check; the HTTPS error appears exactly when there is no earlier URL error and the parsed scheme is not https |
| Validation.ProbeMessagesNotHttps | app/models/link.rb:75-86 | the probe never reports the HTTPS error |
| Validation.MalformedUrlErrors | app/models/link.rb:5-9 | a URL failing the format regexp is reported as invalid and is neither checked for HTTPS nor probed |
| Validation.HttpsErrors | app/models/link.rb:66-73 | the HTTPS error is recorded exactly when url has no earlier error and `URI.parse` yields a scheme other than https |
| Validation.ReachabilityErrors | app/models/link.rb:75-86 | for a present URL with no other error, the probe alone decides url's errors: none, "could not be verified" or "could not be reached" |
| Validation.HttpsRequiredRecorded | app/models/link.rb:66-73 | a clean URL with a non-https scheme is refused with the HTTPS error |
| Validation.SecuredUrlErrors | app/models/link.rb:66-73 | after the declared checks and the HTTPS check, url carries the earlier messages and the HTTPS message only when there were none |
| Validation.SecuredErrors | app/models/link.rb:66-73 | normalization, the declared checks and the HTTPS check together record exactly the URL errors before the probe |
| Validation.ProbeSkippedAfterUrlError | app/models/link.rb:16 | when url already has an error, the HEAD request's answer cannot change the outcome |
| Validation.ProbeIrrelevant | app/models/link.rb:16 | validators that do not reach the probe with an error-free url give the same result whatever the probe answers |
| Redirects.Resolve | app/controllers/redirects_controller.rb:1-35 | 404 "Link not found" exactly for an unknown code; 401 exactly for a protected link without valid credentials; 410 exactly for an expired link past authentication; otherwise 302 to the stored URL; clicks grow by one exactly on a 302; nothing else changes |
| Redirects.ResolvePreservesWellFormed | app/controllers/redirects_controller.rb:24-26 | a redirect keeps every link under its own 8-character code |
| Redirects.ResolveOnlyCountsClicks | app/controllers/redirects_controller.rb:24-26 | a request changes no field of any link except the resolved link's clicks, which never decrease |
| Redirects.Authenticated | app/controllers/redirects_controller.rb:18-22 | (definition) credentials pass exactly when they were sent, the user name is the link's code, and bcrypt accepts the password against the link's digest |
| Redirects.IncrementClicks | app/controllers/redirects_controller.rb:24-26 | `increment!(:clicks)` raises the resolved link's clicks by one and changes no other field and no other link |
| Redirects.OpenLinkRedirects | app/controllers/redirects_controller.rb:7-14 | an unprotected, unexpired link answers a redirect to its URL and counts the visit |
| Redirects.UnprotectedNeverChallenged | app/controllers/redirects_controller.rb:4 | a link without a present digest never answers 401 |
| Redirects.ChallengeBeforeGone | app/controllers/redirects_controller.rb:3-9 | an expired protected link asked for without valid credentials answers 401, and nothing is counted |
| Redirects.ResolveExpiryFirst | app/controllers/redirects_controller.rb:3-14 | the other filter order (expiry before credentials) answers 410 exactly for stored expired links |
| Redirects.OrderDifference | app/controllers/redirects_controller.rb:3-14 | the controller and the expiry-first order differ exactly on expired, protected links without valid credentials |
| Redirects.RepeatedRedirectsCountEach | app/controllers/redirects_controller.rb:24-26 | n successful requests raise the link's clicks by exactly n and leave every other link alone |
| LinksApi.Permit | app/controllers/api/v1/links_controller.rb:29-31 | only the url, password and expires_at parameters survive, with their values |
| LinksApi.DigestFor | app/models/link.rb:2 | a digest is set exactly when a non-empty password is given |
| LinksApi.BuildDraft | app/controllers/api/v1/links_controller.rb:9 | a new record never takes its code from the request |
| LinksApi.Saved | app/controllers/api/v1/links_controller.rb:10 | (definition) the row `save` inserts: the validated url, code, digest and expiry, with clicks at the column default 0 and `created_at` stamped now |
| LinksApi.Respond | app/controllers/api/v1/links_controller.rb:10-14 | 201 exactly when there are no errors: the record is inserted under its code (one more link, others unchanged) and its representation returned; otherwise 422 with the full messages, which are not empty, and nothing stored |
| LinksApi.Create | app/controllers/api/v1/links_controller.rb:8-15 | with the corrected `normalize_url`, create answers 201 or 422; 422 stores nothing; 201 stores one new link under a fresh generated code, with zero clicks, created now, not expired, and returns its representation |
| LinksApi.Show | app/controllers/api/v1/links_controller.rb:18-25 | 200 with the representation exactly for a stored code, otherwise 404 "Link non trovato" |
| LinksApi.CreateAcceptsIff | app/controllers/api/v1/links_controller.rb:8-15 | create succeeds exactly when the record built from the request is acceptable; a refusal lists every recorded error in order |
| LinksApi.CreateRefusedWith | app/controllers/api/v1/links_controller.rb:12-13 | any recorded error makes create answer 422 with that error's full message, storing nothing |
| LinksApi.PermitAgrees | app/controllers/api/v1/links_controller.rb:29-31 | requests that agree on the permitted keys permit the same parameters |
| LinksApi.CreateIgnoresUnpermitted | app/controllers/api/v1/links_controller.rb:29-31 | parameters other than url, password and expires_at (a code or clicks among them) have no effect on create |
| LinksApi.CreateStoresRequest | app/controllers/api/v1/links_controller.rb:9-11 | the created link has the normalized requested URL, a digest exactly when a non-empty password was sent, and the requested expiry |
| LinksApi.CreatePreservesWellFormed | app/controllers/api/v1/links_controller.rb:8-15 | create keeps every link under its own 8-character code |
| LinksApi.CreateThenShow | app/controllers/api/v1/links_controller.rb:8-25 | after a successful create, show of the new code answers the same representation |
| LinksApi.CreatedLinkIsOpen | app/controllers/api/v1/links_controller.rb:9-11 | a link created without a password is stored unprotected, unexpired and with zero clicks |
| LinksApi.CreateThenRedirect | app/controllers/api/v1/links_controller.rb:8-15 | a link created without a password redirects at once to its URL, and its clicks become 1 |
| LinksApi.PastExpiryRejected | app/models/link.rb:88-90 | an expiry not in the future is refused with "Expires at must be in the future" and nothing is stored |
| LinksApi.PlainHttpRejected | app/models/link.rb:66-73 | a well-formed URL with a non-https scheme is refused with "Url must use HTTPS protocol" and nothing is stored |
| LinksApi.HttpsErrorForRequest | app/models/link.rb:66-73 | such a request records the HTTPS error on url |
| LinksApi.UnnormalizableUrlRejected | app/models/link.rb:48-57 | corrected behaviour (see Findings): a URL the normalizer rejects is refused with "Url contains invalid characters or format" and nothing is stored |
| LinksApi.ShowIgnoresProtectionAndExpiry | app/controllers/api/v1/links_controller.rb:18-25 | show answers 200 with the URL for any stored link, even a protected or expired one |

## Left out

- The HEAD request (Faraday, its 3 s and 5 s timeouts, redirects, TLS): it is a function from URL to outcome, either a status or a transport error with its message.
- Addressable normalization, the `URI` format regexp and `URI.parse` are functions the model does not define. Only how their results drive the validators is modelled.
- bcrypt: the digest and `authenticate` comparison are functions the model does not define.
- `SecureRandom`: the random source is a finite sequence of draws.
- CodeGeneration.GenerateUniqueCode: requires a free draw among the draws (`HasFresh`). The source's loop never ends when every draw collides, and the model does not represent a run that does not end.
- The race between the uniqueness check and the insert, and the concurrency of `increment!`: the model is sequential. The database unique index is represented by keying the table by code.
- `created_at`/`updated_at` stamping beyond `created_at = now`, and the `short_url` route helper, which is a function from code to URL.
- The timestamp cast of the `expires_at` parameter: a function that gives None for an unparsable value.
- ApplicationController concerns and the other controller options, such as `rate_limit`, `protect_from_forgery`, browser checks and response rendering. The model has no notion of them.
- `clicks` is a bounded, nullable database integer; the model counts with an unbounded natural number, so overflow at the column's limit and a NULL count are not represented.
- LinksApi.Create: validation and create use the corrected `normalize_url`. As written, a present URL the normalizer rejects raises `ArgumentError` out of `save`, which `create` does not rescue, so that request gets neither 201 nor 422; only `Validation.NormalizeUrlAsWritten` models that path.
- Exceptions other than the ones the controllers rescue, and the resulting 500 response: the model has no error path for them.
- A missing `url` parameter is modelled as the empty string. Every validator treats nil and "" alike here.
- Text of the HTTP messages beyond status, JSON keys and error strings; the 410 page's body.

## Findings

| source | as written | input that shows it | evidently intended | confidence | as-written member | corrected member |
|---|---|---|---|---|---|---|
| app/models/link.rb:55 | the rescue calls `errors.add(:url, "contains invalid characters or format", e.message)`. `ActiveModel::Errors#add` takes an attribute, one message or type, and keyword options, so the third positional argument raises `ArgumentError` | a present URL that Addressable rejects with `InvalidURIError` | record "contains invalid characters or format" on url and refuse the record with 422 | likely, not executed | Validation.NormalizeUrlAsWritten | Validation.NormalizeUrl |
