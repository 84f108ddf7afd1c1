/** The validation pipeline of a new Link record, in the order Rails runs it:
    the `before_validation` callbacks (`normalize_url`, then
    `generate_unique_code` on create), the declared validations of `url` and
    `code`, then the custom validators `validate_url_security`,
    `validate_url_availability` and `expires_at_must_be_in_future`.
    The URL libraries and the HEAD request are parameters. */
module Validation {
  import opened Base
  import opened ModelErrors
  import opened Links
  import opened CodeGeneration

  /** What `URI.parse` makes of a string: it raises, or yields a URI whose
      scheme may be absent. */
  datatype UriParse = Unparseable | Parsed(scheme: Option<string>)

  /** The URL libraries the model consults:
      `normalize` is `Addressable::URI.parse(url).normalize.to_s` (None when
      it raises `InvalidURIError`), `matchesHttpUrl` is the format regexp
      built by `URI::DEFAULT_PARSER.make_regexp(%w[http https])`, and `parse`
      is `URI.parse`. */
  datatype UrlLibrary = UrlLibrary(
    normalize: string -> Option<string>,
    matchesHttpUrl: string -> bool,
    parse: string -> UriParse)

  /** Result of `Faraday.head(url)`: a response with its status, or a
      `Faraday::Error` with its message. */
  datatype Probe = Responded(status: int) | TransportError(message: string)

  /** A Link record that has not been saved yet. A missing `url` behaves as
      the empty string in every check below, so it is written as "". */
  datatype Draft = Draft(
    url: string,
    code: Option<string>,
    passwordDigest: Option<string>,
    expiresAt: Option<Time>)

  /** The record after the callbacks ran, with every error recorded on it. */
  datatype Validated = Validated(record: Draft, errors: Errors)

  /** Records the messages `ms` on attribute `a`, in order. */
  function Tag(a: Attribute, ms: seq<Message>): (errs: Errors)
    ensures |errs| == |ms|
    ensures forall i :: 0 <= i < |ms| ==> errs[i] == ErrorEntry(a, ms[i])
  {
    if ms == [] then [] else [ErrorEntry(a, ms[0])] + Tag(a, ms[1..])
  }

  lemma {:induction false} OnTag(a: Attribute, ms: seq<Message>, b: Attribute)
    ensures On(Tag(a, ms), b) == if a == b then ms else []
    decreases |ms|
  {
    if ms != [] {
      OnTag(a, ms[1..], b);
    }
  }

  // ---------------------------------------------------------------------
  // before_validation callbacks

  /** Output of `normalize_url`: the record and the messages it added to `url`. */
  datatype Normalized = Normalized(record: Draft, messages: seq<Message>)

  /** `normalize_url`: a blank URL is left alone; otherwise it is replaced by
      its normal form, or, when the library raises, left alone with an error. */
  function NormalizeUrl(d: Draft, lib: UrlLibrary): (n: Normalized)
    ensures n.record == d.(url := n.record.url)
    ensures n.messages == [InvalidCharacters] <==> IsPresent(d.url) && lib.normalize(d.url).None?
    ensures n.messages != [InvalidCharacters] ==> n.messages == []
    ensures n.messages != [] ==> n.record == d
    ensures IsBlank(d.url) ==> n.record == d
    ensures IsPresent(d.url) && lib.normalize(d.url).Some? ==> n.record.url == lib.normalize(d.url).value
  {
    if IsBlank(d.url) then Normalized(d, [])
    else match lib.normalize(d.url)
      case Some(u) => Normalized(d.(url := u), [])
      case None => Normalized(d, [InvalidCharacters])
  }

  /** `normalize_url` as the source writes it: the rescue branch calls
      `errors.add(:url, message, e.message)`. `ActiveModel::Errors#add` takes
      the attribute, a type and keyword options only, so the third positional
      argument raises `ArgumentError` instead of recording the message. */
  datatype CallbackOutcome = Completed(normalized: Normalized) | Raised(exception: string)

  function NormalizeUrlAsWritten(d: Draft, lib: UrlLibrary): (o: CallbackOutcome)
    ensures o.Raised? <==> IsPresent(d.url) && lib.normalize(d.url).None?
    ensures o.Completed? ==> o.normalized == NormalizeUrl(d, lib)
  {
    if IsBlank(d.url) then Completed(Normalized(d, []))
    else match lib.normalize(d.url)
      case Some(u) => Completed(Normalized(d.(url := u), []))
      case None => Raised("ArgumentError")
  }

  /** On a URL the normalizer rejects, the source raises where it meant to
      record an error; the corrected callback records it and the record is
      refused. */
  lemma NormalizeFailureRaisesAsWritten(d: Draft, lib: UrlLibrary)
    requires IsPresent(d.url) && lib.normalize(d.url).None?
    ensures NormalizeUrlAsWritten(d, lib) == Raised("ArgumentError")
    ensures NormalizeUrl(d, lib).messages == [InvalidCharacters]
  {
  }

  /** The URL the record carries after `normalize_url`. */
  function NormalizedUrl(url: string, lib: UrlLibrary): string
  {
    if IsPresent(url) && lib.normalize(url).Some? then lib.normalize(url).value else url
  }

  // ---------------------------------------------------------------------
  // validations, each returning the messages it adds to its attribute

  /** `validates :url, presence: true, format: {...}`. */
  function UrlDeclaredMessages(url: string, lib: UrlLibrary): seq<Message>
  {
    (if IsBlank(url) then [Blank] else []) + (if lib.matchesHttpUrl(url) then [] else [InvalidUrl])
  }

  /** `validates :code, presence: true, uniqueness: true, length: { is: 8 }`;
      the uniqueness query for a new record is a lookup in the code index. */
  function CodeMessages(code: string, store: Store): seq<Message>
  {
    (if IsBlank(code) then [Blank] else [])
    + (if code in store then [Taken] else [])
    + (if |code| != CodeLength then [WrongLength] else [])
  }

  /** The body of `validate_url_security` once it gets past its guard; a
      URL that `URI.parse` rejects is left to the format validation. */
  function SecurityMessages(url: string, lib: UrlLibrary): (ms: seq<Message>)
    ensures ms == [] || ms == [HttpsRequired]
    ensures ms == [HttpsRequired] <==> lib.parse(url).Parsed? && lib.parse(url).scheme != Some("https")
  {
    match lib.parse(url)
    case Unparseable => []
    case Parsed(scheme) => if scheme == Some("https") then [] else [HttpsRequired]
  }

  /** `response.success?` of Faraday: a 2xx status. */
  predicate Successful(status: int)
  {
    200 <= status <= 299
  }

  /** The probe outcomes that add no error: success, 301 or 302. */
  predicate ProbeAccepts(p: Probe)
  {
    p.Responded? && (Successful(p.status) || p.status == 301 || p.status == 302)
  }

  /** The body of `validate_url_availability` for one probe outcome. */
  function ProbeMessages(p: Probe): (ms: seq<Message>)
    ensures ms == [] <==> ProbeAccepts(p)
    ensures p.Responded? && !ProbeAccepts(p) ==> ms == [NotVerified(p.status)]
    ensures p.TransportError? ==> ms == [NotReached(p.message)]
  {
    match p
    case Responded(status) =>
      if Successful(status) || status == 301 || status == 302 then [] else [NotVerified(status)]
    case TransportError(m) => [NotReached(m)]
  }

  /** `expires_at_must_be_in_future`, guarded by `expires_at.present?`. */
  function ExpiryMessages(expiresAt: Option<Time>, now: Time): (ms: seq<Message>)
    ensures ms == [] || ms == [NotInFuture]
    ensures ms == [NotInFuture] <==> expiresAt.Some? && expiresAt.value <= now
  {
    if expiresAt.Some? && expiresAt.value <= now then [NotInFuture] else []
  }

  // ---------------------------------------------------------------------
  // the pipeline

  /** Recording `ms` on attribute `a` extends that attribute's list by `ms`
      and leaves the other attributes' lists alone. */
  lemma OnAppendTag(errs: Errors, a: Attribute, ms: seq<Message>, b: Attribute)
    ensures On(errs + Tag(a, ms), b) == On(errs, b) + (if a == b then ms else [])
  {
    OnAppend(errs, Tag(a, ms), b);
    OnTag(a, ms, b);
  }

  /** The `before_validation` callbacks: `normalize_url`, then
      `generate_unique_code`. Returns the prepared record and the messages
      normalization recorded on `url`. */
  function Prepare(d: Draft, store: Store, draws: seq<Draw>, lib: UrlLibrary): (n: Normalized)
    requires d.code.Some? || HasFresh(store, draws)
    ensures n.record.url == NormalizedUrl(d.url, lib)
    ensures d.code.Some? ==> n.record.code == d.code
    ensures d.code.None? ==> n.record.code == FirstFresh(store, draws)
    ensures d.code.None? ==> n.record.code.Some? && IsGeneratedCode(n.record.code.value)
                             && n.record.code.value !in store
    ensures n.record.passwordDigest == d.passwordDigest && n.record.expiresAt == d.expiresAt
  {
    var n := NormalizeUrl(d, lib);
    Normalized(n.record.(code := Some(AssignCode(n.record.code, store, draws))), n.messages)
  }

  /** The validations of Link, one per check, in the order Rails runs them:
      the declared `validates :url` and `validates :code` checks, then the
      three `validate` methods. */
  datatype Validator =
    | UrlPresence | UrlFormat
    | CodePresence | CodeUniqueness | CodeLengthIs
    | UrlSecurity | UrlAvailability | ExpiresInFuture

  const Validators: seq<Validator> :=
    [UrlPresence, UrlFormat, CodePresence, CodeUniqueness, CodeLengthIs,
     UrlSecurity, UrlAvailability, ExpiresInFuture]

  /** What the validators read besides the errors recorded so far. */
  datatype Context = Context(record: Draft, store: Store, now: Time, lib: UrlLibrary, head: string -> Probe)

  function AttributeOf(check: Validator): Attribute
  {
    match check
    case UrlPresence => Url
    case UrlFormat => Url
    case CodePresence => Code
    case CodeUniqueness => Code
    case CodeLengthIs => Code
    case UrlSecurity => Url
    case UrlAvailability => Url
    case ExpiresInFuture => ExpiresAt
  }

  /** The length the length validator measures; a nil code measures 0. */
  function CodeLengthOf(code: Option<string>): nat
  {
    if code.Some? then |code.value| else 0
  }

  /** The messages one validator adds to its attribute, given the errors
      recorded before it runs. `validate_url_security` returns at once when
      `url` already has an error; `validate_url_availability` runs only when
      the URL is present and has none. */
  function Check(check: Validator, errs: Errors, ctx: Context): seq<Message>
  {
    var r := ctx.record;
    match check
    case UrlPresence => if IsBlank(r.url) then [Blank] else []
    case UrlFormat => if ctx.lib.matchesHttpUrl(r.url) then [] else [InvalidUrl]
    case CodePresence => if r.code.None? || IsBlank(r.code.value) then [Blank] else []
    case CodeUniqueness => if r.code.Some? && r.code.value in ctx.store then [Taken] else []
    case CodeLengthIs => if CodeLengthOf(r.code) != CodeLength then [WrongLength] else []
    case UrlSecurity => if On(errs, Url) != [] then [] else SecurityMessages(r.url, ctx.lib)
    case UrlAvailability =>
      if IsPresent(r.url) && On(errs, Url) == [] then ProbeMessages(ctx.head(r.url)) else []
    case ExpiresInFuture => ExpiryMessages(r.expiresAt, ctx.now)
  }

  /** Runs validators in order, each adding its messages to the errors
      recorded so far. Errors are only ever added: what was recorded before
      the run is a prefix of what is recorded after it. */
  function RunValidators(checks: seq<Validator>, errs: Errors, ctx: Context): (out: Errors)
    ensures |errs| <= |out| && out[..|errs|] == errs
    decreases |checks|
  {
    if checks == [] then errs
    else RunValidators(checks[1..], errs + Tag(AttributeOf(checks[0]), Check(checks[0], errs, ctx)), ctx)
  }

  /** Running a chain is running its first validator, then the rest. */
  lemma RunFirst(check: Validator, rest: seq<Validator>, errs: Errors, ctx: Context)
    ensures RunValidators([check] + rest, errs, ctx)
            == RunValidators(rest, errs + Tag(AttributeOf(check), Check(check, errs, ctx)), ctx)
  {
    assert ([check] + rest)[1..] == rest;
  }

  /** One validator's step, seen per attribute. */
  lemma CheckStep(check: Validator, errs: Errors, ctx: Context, b: Attribute)
    ensures On(errs + Tag(AttributeOf(check), Check(check, errs, ctx)), b)
            == On(errs, b) + (if AttributeOf(check) == b then Check(check, errs, ctx) else [])
  {
    OnAppendTag(errs, AttributeOf(check), Check(check, errs, ctx), b);
  }

  /** A step leaves the lists of other attributes alone. */
  lemma CheckStepOther(check: Validator, errs: Errors, ctx: Context, b: Attribute)
    requires AttributeOf(check) != b
    ensures On(errs + Tag(AttributeOf(check), Check(check, errs, ctx)), b) == On(errs, b)
  {
    CheckStep(check, errs, ctx, b);
  }

  /** A step appends its messages to its own attribute's list. */
  lemma CheckStepSame(check: Validator, errs: Errors, ctx: Context)
    ensures var a := AttributeOf(check);
            On(errs + Tag(a, Check(check, errs, ctx)), a) == On(errs, a) + Check(check, errs, ctx)
  {
    CheckStep(check, errs, ctx, AttributeOf(check));
  }

  /** `valid?` on a new record (`link.save` validates first): the callbacks,
      then every validator, starting from what `normalize_url` recorded.
      `store` is the table the uniqueness check and the code generator look
      at, `draws` the random codes the generator will try, `now` the value of
      `Time.current`, `head` the HEAD request. */
  function Validate(d: Draft, store: Store, draws: seq<Draw>, now: Time,
                    lib: UrlLibrary, head: string -> Probe): (v: Validated)
    requires d.code.Some? || HasFresh(store, draws)
    ensures v.record.url == NormalizedUrl(d.url, lib)
    ensures v.record.code.Some?
    ensures d.code.Some? ==> v.record.code == d.code
    ensures d.code.None? ==> v.record.code == FirstFresh(store, draws)
    ensures d.code.None? ==> IsGeneratedCode(v.record.code.value) && v.record.code.value !in store
    ensures v.record.passwordDigest == d.passwordDigest && v.record.expiresAt == d.expiresAt
  {
    var n := Prepare(d, store, draws, lib);
    Validated(n.record, RunValidators(Validators, Tag(Url, n.messages), Context(n.record, store, now, lib, head)))
  }

  /** The errors of `url` before the reachability probe: normalization,
      presence and format, and HTTPS only when those three found nothing. */
  function UrlMessagesBeforeProbe(d: Draft, lib: UrlLibrary): seq<Message>
  {
    var url := NormalizedUrl(d.url, lib);
    var early := NormalizeUrl(d, lib).messages + UrlDeclaredMessages(url, lib);
    early + (if early == [] then SecurityMessages(url, lib) else [])
  }

  /** The checks declared with `validates`, in declaration order. */
  const DeclaredChecks: seq<Validator> := [UrlPresence, UrlFormat, CodePresence, CodeUniqueness, CodeLengthIs]

  /** The checks declared with `validate`, in declaration order. */
  const CustomChecks: seq<Validator> := [UrlSecurity, UrlAvailability, ExpiresInFuture]

  /** The declared checks, one step at a time. */
  lemma DeclaredChain(errs: Errors, ctx: Context)
    ensures var e1 := errs + Tag(Url, Check(UrlPresence, errs, ctx));
            var e2 := e1 + Tag(Url, Check(UrlFormat, e1, ctx));
            var e3 := e2 + Tag(Code, Check(CodePresence, e2, ctx));
            var e4 := e3 + Tag(Code, Check(CodeUniqueness, e3, ctx));
            RunValidators(DeclaredChecks, errs, ctx) == e4 + Tag(Code, Check(CodeLengthIs, e4, ctx))
  {
    var e1 := errs + Tag(Url, Check(UrlPresence, errs, ctx));
    var e2 := e1 + Tag(Url, Check(UrlFormat, e1, ctx));
    var e3 := e2 + Tag(Code, Check(CodePresence, e2, ctx));
    var e4 := e3 + Tag(Code, Check(CodeUniqueness, e3, ctx));
    RunFirst(CodeLengthIs, [], e4, ctx);
    RunFirst(CodeUniqueness, [CodeLengthIs], e3, ctx);
    RunFirst(CodePresence, [CodeUniqueness, CodeLengthIs], e2, ctx);
    RunFirst(UrlFormat, [CodePresence, CodeUniqueness, CodeLengthIs], e1, ctx);
    RunFirst(UrlPresence, [UrlFormat, CodePresence, CodeUniqueness, CodeLengthIs], errs, ctx);
  }

  lemma {:induction false} DeclaredUrlErrors(errs: Errors, ctx: Context)
    ensures On(RunValidators(DeclaredChecks, errs, ctx), Url) == On(errs, Url) + UrlDeclaredMessages(ctx.record.url, ctx.lib)
  {
    var e1 := errs + Tag(Url, Check(UrlPresence, errs, ctx));
    var e2 := e1 + Tag(Url, Check(UrlFormat, e1, ctx));
    var e3 := e2 + Tag(Code, Check(CodePresence, e2, ctx));
    var e4 := e3 + Tag(Code, Check(CodeUniqueness, e3, ctx));
    var e := e4 + Tag(Code, Check(CodeLengthIs, e4, ctx));
    assert On(e, Url) == On(errs, Url) + UrlDeclaredMessages(ctx.record.url, ctx.lib) by {
      var p := Check(UrlPresence, errs, ctx);
      var f := Check(UrlFormat, e1, ctx);
      CheckStepSame(UrlPresence, errs, ctx);
      CheckStepSame(UrlFormat, e1, ctx);
      CheckStepOther(CodePresence, e2, ctx, Url);
      CheckStepOther(CodeUniqueness, e3, ctx, Url);
      CheckStepOther(CodeLengthIs, e4, ctx, Url);
      assert On(e, Url) == On(errs, Url) + p + f;
      assert UrlDeclaredMessages(ctx.record.url, ctx.lib) == p + f;
      AppendTwo(On(errs, Url), p, f);
    }
    DeclaredChain(errs, ctx);
    assert RunValidators(DeclaredChecks, errs, ctx) == e;
  }

  /** Associativity of concatenation, spelled out for the shapes the chain
      lemmas produce, so the solver need not search for it. */
  lemma AppendTwo<T>(a: seq<T>, p: seq<T>, f: seq<T>)
    ensures a + p + f == a + (p + f)
  {
  }

  lemma AppendThree<T>(a: seq<T>, p: seq<T>, u: seq<T>, l: seq<T>)
    ensures a + p + u + l == a + (p + u + l)
  {
  }

  /** The three declared checks of `code` read only the record's code and
      the store; for a present code they add what `CodeMessages` lists. */
  lemma CodeChecks(e2: Errors, e3: Errors, e4: Errors, ctx: Context)
    requires ctx.record.code.Some?
    ensures CodeMessages(ctx.record.code.value, ctx.store)
            == Check(CodePresence, e2, ctx) + Check(CodeUniqueness, e3, ctx) + Check(CodeLengthIs, e4, ctx)
  {
  }

  lemma {:induction false} DeclaredCodeErrors(errs: Errors, ctx: Context)
    requires ctx.record.code.Some?
    ensures On(RunValidators(DeclaredChecks, errs, ctx), Code) == On(errs, Code) + CodeMessages(ctx.record.code.value, ctx.store)
  {
    var e1 := errs + Tag(Url, Check(UrlPresence, errs, ctx));
    var e2 := e1 + Tag(Url, Check(UrlFormat, e1, ctx));
    var e3 := e2 + Tag(Code, Check(CodePresence, e2, ctx));
    var e4 := e3 + Tag(Code, Check(CodeUniqueness, e3, ctx));
    var e := e4 + Tag(Code, Check(CodeLengthIs, e4, ctx));
    assert On(e, Code) == On(errs, Code) + CodeMessages(ctx.record.code.value, ctx.store) by {
      var p := Check(CodePresence, e2, ctx);
      var u := Check(CodeUniqueness, e3, ctx);
      var l := Check(CodeLengthIs, e4, ctx);
      CheckStepOther(UrlPresence, errs, ctx, Code);
      CheckStepOther(UrlFormat, e1, ctx, Code);
      CheckStepSame(CodePresence, e2, ctx);
      CheckStepSame(CodeUniqueness, e3, ctx);
      CheckStepSame(CodeLengthIs, e4, ctx);
      assert On(e, Code) == On(errs, Code) + p + u + l;
      CodeChecks(e2, e3, e4, ctx);
      AppendThree(On(errs, Code), p, u, l);
    }
    DeclaredChain(errs, ctx);
    assert RunValidators(DeclaredChecks, errs, ctx) == e;
  }

  lemma {:induction false} DeclaredExpiresAtErrors(errs: Errors, ctx: Context)
    ensures On(RunValidators(DeclaredChecks, errs, ctx), ExpiresAt) == On(errs, ExpiresAt)
  {
    var e1 := errs + Tag(Url, Check(UrlPresence, errs, ctx));
    var e2 := e1 + Tag(Url, Check(UrlFormat, e1, ctx));
    var e3 := e2 + Tag(Code, Check(CodePresence, e2, ctx));
    var e4 := e3 + Tag(Code, Check(CodeUniqueness, e3, ctx));
    var e := e4 + Tag(Code, Check(CodeLengthIs, e4, ctx));
    assert On(e, ExpiresAt) == On(errs, ExpiresAt) by {
      CheckStepOther(UrlPresence, errs, ctx, ExpiresAt);
      CheckStepOther(UrlFormat, e1, ctx, ExpiresAt);
      CheckStepOther(CodePresence, e2, ctx, ExpiresAt);
      CheckStepOther(CodeUniqueness, e3, ctx, ExpiresAt);
      CheckStepOther(CodeLengthIs, e4, ctx, ExpiresAt);
    }
    DeclaredChain(errs, ctx);
    assert RunValidators(DeclaredChecks, errs, ctx) == e;
  }

  /** The declared validations of `url` and `code`, seen per attribute. */
  lemma DeclaredErrors(errs: Errors, ctx: Context)
    requires ctx.record.code.Some?
    ensures var e := RunValidators(DeclaredChecks, errs, ctx);
            && On(e, Url) == On(errs, Url) + UrlDeclaredMessages(ctx.record.url, ctx.lib)
            && On(e, Code) == On(errs, Code) + CodeMessages(ctx.record.code.value, ctx.store)
            && On(e, ExpiresAt) == On(errs, ExpiresAt)
  {
    DeclaredUrlErrors(errs, ctx);
    DeclaredCodeErrors(errs, ctx);
    DeclaredExpiresAtErrors(errs, ctx);
  }

  /** The `validate` methods, one step at a time. */
  lemma CustomChain(errs: Errors, ctx: Context)
    ensures var e1 := errs + Tag(Url, Check(UrlSecurity, errs, ctx));
            var e2 := e1 + Tag(Url, Check(UrlAvailability, e1, ctx));
            RunValidators(CustomChecks, errs, ctx) == e2 + Tag(ExpiresAt, Check(ExpiresInFuture, e2, ctx))
  {
    var e1 := errs + Tag(Url, Check(UrlSecurity, errs, ctx));
    var e2 := e1 + Tag(Url, Check(UrlAvailability, e1, ctx));
    RunFirst(ExpiresInFuture, [], e2, ctx);
    RunFirst(UrlAvailability, [ExpiresInFuture], e1, ctx);
    RunFirst(UrlSecurity, [UrlAvailability, ExpiresInFuture], errs, ctx);
  }

  /** What the URL checks among the `validate` methods add: the HTTPS check
      when `url` has no error yet, then the probe when the URL is present
      and still has none. */
  function CustomUrlMessages(errs: Errors, ctx: Context): seq<Message>
  {
    var url := ctx.record.url;
    var sec := if On(errs, Url) == [] then SecurityMessages(url, ctx.lib) else [];
    var before := On(errs, Url) + sec;
    sec + (if IsPresent(url) && before == [] then ProbeMessages(ctx.head(url)) else [])
  }

  /** `CustomUrlMessages` is what the HTTPS check and then the probe add. */
  lemma CustomUrlChecks(errs: Errors, ctx: Context)
    ensures var e1 := errs + Tag(Url, Check(UrlSecurity, errs, ctx));
            CustomUrlMessages(errs, ctx) == Check(UrlSecurity, errs, ctx) + Check(UrlAvailability, e1, ctx)
  {
    CheckStepSame(UrlSecurity, errs, ctx);
  }

  lemma {:induction false} CustomUrlErrors(errs: Errors, ctx: Context)
    ensures On(RunValidators(CustomChecks, errs, ctx), Url) == On(errs, Url) + CustomUrlMessages(errs, ctx)
  {
    var e1 := errs + Tag(Url, Check(UrlSecurity, errs, ctx));
    var e2 := e1 + Tag(Url, Check(UrlAvailability, e1, ctx));
    var e := e2 + Tag(ExpiresAt, Check(ExpiresInFuture, e2, ctx));
    assert On(e, Url) == On(errs, Url) + CustomUrlMessages(errs, ctx) by {
      var sec := Check(UrlSecurity, errs, ctx);
      var probe := Check(UrlAvailability, e1, ctx);
      CheckStepSame(UrlSecurity, errs, ctx);
      CheckStepSame(UrlAvailability, e1, ctx);
      CheckStepOther(ExpiresInFuture, e2, ctx, Url);
      assert On(e, Url) == On(errs, Url) + sec + probe;
      CustomUrlChecks(errs, ctx);
      AppendTwo(On(errs, Url), sec, probe);
    }
    CustomChain(errs, ctx);
    assert RunValidators(CustomChecks, errs, ctx) == e;
  }

  lemma {:induction false} CustomCodeErrors(errs: Errors, ctx: Context)
    ensures On(RunValidators(CustomChecks, errs, ctx), Code) == On(errs, Code)
  {
    var e1 := errs + Tag(Url, Check(UrlSecurity, errs, ctx));
    var e2 := e1 + Tag(Url, Check(UrlAvailability, e1, ctx));
    var e := e2 + Tag(ExpiresAt, Check(ExpiresInFuture, e2, ctx));
    assert On(e, Code) == On(errs, Code) by {
      CheckStepOther(UrlSecurity, errs, ctx, Code);
      CheckStepOther(UrlAvailability, e1, ctx, Code);
      CheckStepOther(ExpiresInFuture, e2, ctx, Code);
    }
    CustomChain(errs, ctx);
    assert RunValidators(CustomChecks, errs, ctx) == e;
  }

  lemma {:induction false} CustomExpiresAtErrors(errs: Errors, ctx: Context)
    ensures On(RunValidators(CustomChecks, errs, ctx), ExpiresAt) == On(errs, ExpiresAt) + ExpiryMessages(ctx.record.expiresAt, ctx.now)
  {
    var e1 := errs + Tag(Url, Check(UrlSecurity, errs, ctx));
    var e2 := e1 + Tag(Url, Check(UrlAvailability, e1, ctx));
    var e := e2 + Tag(ExpiresAt, Check(ExpiresInFuture, e2, ctx));
    assert On(e, ExpiresAt) == On(errs, ExpiresAt) + ExpiryMessages(ctx.record.expiresAt, ctx.now) by {
      CheckStepOther(UrlSecurity, errs, ctx, ExpiresAt);
      CheckStepOther(UrlAvailability, e1, ctx, ExpiresAt);
      CheckStepSame(ExpiresInFuture, e2, ctx);
    }
    CustomChain(errs, ctx);
    assert RunValidators(CustomChecks, errs, ctx) == e;
  }

  /** The three `validate` methods, seen per attribute. */
  lemma CustomErrors(errs: Errors, ctx: Context)
    ensures var e := RunValidators(CustomChecks, errs, ctx);
            var url := ctx.record.url;
            var sec := if On(errs, Url) == [] then SecurityMessages(url, ctx.lib) else [];
            var before := On(errs, Url) + sec;
            && On(e, Url) == before + (if IsPresent(url) && before == [] then ProbeMessages(ctx.head(url)) else [])
            && On(e, Code) == On(errs, Code)
            && On(e, ExpiresAt) == On(errs, ExpiresAt) + ExpiryMessages(ctx.record.expiresAt, ctx.now)
  {
    CustomUrlErrors(errs, ctx);
    CustomCodeErrors(errs, ctx);
    CustomExpiresAtErrors(errs, ctx);
  }

  /** Running a chain is running its first part, then the rest. */
  lemma {:induction false} RunValidatorsAppend(c1: seq<Validator>, c2: seq<Validator>, errs: Errors, ctx: Context)
    ensures RunValidators(c1 + c2, errs, ctx) == RunValidators(c2, RunValidators(c1, errs, ctx), ctx)
    decreases |c1|
  {
    if c1 == [] {
      assert c1 + c2 == c2;
    } else {
      assert (c1 + c2)[1..] == c1[1..] + c2;
      RunValidatorsAppend(c1[1..], c2, errs + Tag(AttributeOf(c1[0]), Check(c1[0], errs, ctx)), ctx);
    }
  }

  /** Each attribute's error list after validation. The probe's message
      appears only when the URL is present and no other URL error exists. */
  lemma ErrorsByAttribute(d: Draft, store: Store, draws: seq<Draw>, now: Time,
                          lib: UrlLibrary, head: string -> Probe)
    requires d.code.Some? || HasFresh(store, draws)
    ensures var v := Validate(d, store, draws, now, lib, head);
            var url := v.record.url;
            var before := UrlMessagesBeforeProbe(d, lib);
            && On(v.errors, Url) == before + (if IsPresent(url) && before == [] then ProbeMessages(head(url)) else [])
            && On(v.errors, Code) == CodeMessages(v.record.code.value, store)
            && On(v.errors, ExpiresAt) == ExpiryMessages(d.expiresAt, now)
  {
    var n := Prepare(d, store, draws, lib);
    var ctx := Context(n.record, store, now, lib, head);
    var e0 := Tag(Url, n.messages);
    var declaredChecks := DeclaredChecks;
    var customChecks := CustomChecks;
    assert Validators == declaredChecks + customChecks;
    RunValidatorsAppend(declaredChecks, customChecks, e0, ctx);
    var declared := RunValidators(declaredChecks, e0, ctx);
    DeclaredErrors(e0, ctx);
    CustomErrors(declared, ctx);
    OnTag(Url, n.messages, Url);
    OnTag(Url, n.messages, Code);
    OnTag(Url, n.messages, ExpiresAt);
    assert NormalizeUrl(d, lib).messages == n.messages;
  }

  /** The URL requirements: the URL is present and normalizes to a present
      URL that matches the format, is https (or unparseable by `URI.parse`)
      and answered the probe acceptably. */
  predicate UrlOk(d: Draft, lib: UrlLibrary, head: string -> Probe)
  {
    && IsPresent(d.url)
    && lib.normalize(d.url).Some?
    && (var url := lib.normalize(d.url).value;
        && IsPresent(url)
        && lib.matchesHttpUrl(url)
        && (lib.parse(url).Unparseable? || lib.parse(url).scheme == Some("https"))
        && ProbeAccepts(head(url)))
  }

  /** The code requirements: present, 8 long and not taken. */
  predicate CodeOk(code: string, store: Store)
  {
    IsPresent(code) && |code| == CodeLength && code !in store
  }

  /** The expiry requirement: none, or strictly in the future. */
  predicate ExpiryOk(expiresAt: Option<Time>, now: Time)
  {
    expiresAt.None? || now < expiresAt.value
  }

  /** Everything a record must satisfy to be saved, stated input by input. */
  predicate Acceptable(d: Draft, code: string, store: Store, now: Time,
                       lib: UrlLibrary, head: string -> Probe)
  {
    UrlOk(d, lib, head) && CodeOk(code, store) && ExpiryOk(d.expiresAt, now)
  }

  /** The URL has no error exactly when it meets every URL requirement. */
  lemma UrlAcceptable(d: Draft, lib: UrlLibrary, head: string -> Probe)
    ensures var url := NormalizedUrl(d.url, lib);
            var before := UrlMessagesBeforeProbe(d, lib);
            var urlErrors := before + (if IsPresent(url) && before == [] then ProbeMessages(head(url)) else []);
            urlErrors == [] <==> UrlOk(d, lib, head)
  {
  }

  /** The code has no error exactly when it is present, 8 long and free. */
  lemma CodeAcceptable(c: string, store: Store)
    ensures CodeMessages(c, store) == [] <==> CodeOk(c, store)
  {
  }

  /** The pipeline records no error exactly when the record is acceptable. */
  lemma AcceptedIff(d: Draft, store: Store, draws: seq<Draw>, now: Time,
                    lib: UrlLibrary, head: string -> Probe)
    requires d.code.Some? || HasFresh(store, draws)
    ensures var v := Validate(d, store, draws, now, lib, head);
            v.errors == [] <==> Acceptable(d, v.record.code.value, store, now, lib, head)
  {
    var v := Validate(d, store, draws, now, lib, head);
    assert && (On(v.errors, Url) == [] <==> UrlOk(d, lib, head))
           && (On(v.errors, Code) == [] <==> CodeOk(v.record.code.value, store))
           && (On(v.errors, ExpiresAt) == [] <==> ExpiryOk(d.expiresAt, now)) by {
      ErrorsByAttribute(d, store, draws, now, lib, head);
      UrlAcceptable(d, lib, head);
      CodeAcceptable(v.record.code.value, store);
    }
    NoErrorsIff(v.errors);
  }

  /** A record accepted at `now` is not expired at `now`. */
  lemma AcceptedNotExpired(d: Draft, store: Store, draws: seq<Draw>, now: Time,
                           lib: UrlLibrary, head: string -> Probe, link: Link)
    requires d.code.Some? || HasFresh(store, draws)
    requires Validate(d, store, draws, now, lib, head).errors == []
    requires link.expiresAt == d.expiresAt
    ensures !Expired(link, now)
  {
    ErrorsByAttribute(d, store, draws, now, lib, head);
    var v := Validate(d, store, draws, now, lib, head);
    assert On(v.errors, ExpiresAt) == [];
  }

  /** `expires_at` is reported exactly when it is present and not after `now`. */
  lemma ExpiresAtErrors(d: Draft, store: Store, draws: seq<Draw>, now: Time,
                        lib: UrlLibrary, head: string -> Probe)
    requires d.code.Some? || HasFresh(store, draws)
    ensures var v := Validate(d, store, draws, now, lib, head);
            On(v.errors, ExpiresAt) == if d.expiresAt.Some? && d.expiresAt.value <= now then [NotInFuture] else []
  {
    ErrorsByAttribute(d, store, draws, now, lib, head);
  }

  /** How the refusals a client sees most often read once rendered. */
  lemma RenderedExpiry()
    ensures FullMessage(ErrorEntry(ExpiresAt, NotInFuture)) == "Expires at must be in the future"
  {
  }

  lemma RenderedHttps()
    ensures FullMessage(ErrorEntry(Url, HttpsRequired)) == "Url must use HTTPS protocol"
  {
  }

  lemma RenderedInvalidCharacters()
    ensures FullMessage(ErrorEntry(Url, InvalidCharacters)) == "Url contains invalid characters or format"
  {
  }

  /** Each code message names exactly its own check. */
  lemma CodeMessagesMeaning(c: string, store: Store)
    ensures Blank in CodeMessages(c, store) <==> IsBlank(c)
    ensures Taken in CodeMessages(c, store) <==> c in store
    ensures WrongLength in CodeMessages(c, store) <==> |c| != CodeLength
    ensures IsGeneratedCode(c) && c !in store ==> CodeMessages(c, store) == []
  {
    if IsGeneratedCode(c) {
      assert IsAlphanumeric(c[0]);
    }
  }

  /** A generated code never draws a code error; a supplied code is kept and
      reported blank, taken and of the wrong length as applicable. */
  lemma CodeErrors(d: Draft, store: Store, draws: seq<Draw>, now: Time,
                   lib: UrlLibrary, head: string -> Probe)
    requires d.code.Some? || HasFresh(store, draws)
    ensures var v := Validate(d, store, draws, now, lib, head);
            && (d.code.None? ==> On(v.errors, Code) == [])
            && (d.code.Some? ==>
                  var c := d.code.value;
                  && (Blank in On(v.errors, Code) <==> IsBlank(c))
                  && (Taken in On(v.errors, Code) <==> c in store)
                  && (WrongLength in On(v.errors, Code) <==> |c| != CodeLength))
  {
    ErrorsByAttribute(d, store, draws, now, lib, head);
    var v := Validate(d, store, draws, now, lib, head);
    CodeMessagesMeaning(v.record.code.value, store);
  }

  /** A blank URL gets past normalization untouched and is only checked
      for presence and format. */
  lemma BlankUrlBeforeProbe(d: Draft, lib: UrlLibrary)
    requires IsBlank(d.url)
    ensures NormalizedUrl(d.url, lib) == d.url
    ensures UrlMessagesBeforeProbe(d, lib) == [Blank] + (if lib.matchesHttpUrl(d.url) then [] else [InvalidUrl])
  {
    assert NormalizeUrl(d, lib).messages == [];
  }

  /** A blank URL is not normalized, is reported as blank, and is neither
      checked for HTTPS nor probed. */
  lemma BlankUrlErrors(d: Draft, store: Store, draws: seq<Draw>, now: Time,
                       lib: UrlLibrary, head: string -> Probe)
    requires d.code.Some? || HasFresh(store, draws)
    requires IsBlank(d.url)
    ensures var v := Validate(d, store, draws, now, lib, head);
            && v.record.url == d.url
            && On(v.errors, Url) == [Blank] + (if lib.matchesHttpUrl(d.url) then [] else [InvalidUrl])
  {
    var v := Validate(d, store, draws, now, lib, head);
    var before := UrlMessagesBeforeProbe(d, lib);
    assert before == [Blank] + (if lib.matchesHttpUrl(d.url) then [] else [InvalidUrl]) by {
      BlankUrlBeforeProbe(d, lib);
    }
    assert On(v.errors, Url) == before by {
      ErrorsByAttribute(d, store, draws, now, lib, head);
      assert before != [];
      assert On(v.errors, Url) == before + [];
    }
  }

  /** What the URL checks before the probe report, read message by message. */
  lemma UrlMessagesBeforeProbeMeaning(d: Draft, lib: UrlLibrary)
    ensures var url := NormalizedUrl(d.url, lib);
            var early := NormalizeUrl(d, lib).messages + UrlDeclaredMessages(url, lib);
            && (!lib.matchesHttpUrl(url) ==>
                  InvalidUrl in early && UrlMessagesBeforeProbe(d, lib) == early)
            && (HttpsRequired in UrlMessagesBeforeProbe(d, lib) <==>
                  early == [] && lib.parse(url).Parsed? && lib.parse(url).scheme != Some("https"))
  {
    var url := NormalizedUrl(d.url, lib);
    var early := NormalizeUrl(d, lib).messages + UrlDeclaredMessages(url, lib);
    assert forall i :: 0 <= i < |early| ==> early[i] in {InvalidCharacters, Blank, InvalidUrl};
  }

  /** No probe outcome is reported as an HTTPS error. */
  lemma ProbeMessagesNotHttps(p: Probe)
    ensures HttpsRequired !in ProbeMessages(p)
  {
  }

  /** A URL that fails the format regexp is reported, and neither checked for
      HTTPS nor probed. */
  lemma MalformedUrlErrors(d: Draft, store: Store, draws: seq<Draw>, now: Time,
                           lib: UrlLibrary, head: string -> Probe)
    requires d.code.Some? || HasFresh(store, draws)
    requires !lib.matchesHttpUrl(NormalizedUrl(d.url, lib))
    ensures var v := Validate(d, store, draws, now, lib, head);
            && InvalidUrl in On(v.errors, Url)
            && HttpsRequired !in On(v.errors, Url)
            && On(v.errors, Url) == NormalizeUrl(d, lib).messages + UrlDeclaredMessages(v.record.url, lib)
  {
    ErrorsByAttribute(d, store, draws, now, lib, head);
    UrlMessagesBeforeProbeMeaning(d, lib);
  }

  /** The HTTPS check reports exactly when no earlier URL error exists and
      `URI.parse` yields a scheme other than "https". */
  lemma HttpsErrors(d: Draft, store: Store, draws: seq<Draw>, now: Time,
                    lib: UrlLibrary, head: string -> Probe)
    requires d.code.Some? || HasFresh(store, draws)
    ensures var v := Validate(d, store, draws, now, lib, head);
            var early := NormalizeUrl(d, lib).messages + UrlDeclaredMessages(v.record.url, lib);
            HttpsRequired in On(v.errors, Url) <==>
              early == [] && lib.parse(v.record.url).Parsed? && lib.parse(v.record.url).scheme != Some("https")
  {
    ErrorsByAttribute(d, store, draws, now, lib, head);
    UrlMessagesBeforeProbeMeaning(d, lib);
    ProbeMessagesNotHttps(head(NormalizedUrl(d.url, lib)));
  }

  /** Once the URL is present and has no other error, the probe decides:
      success, 301 and 302 add nothing, another status adds "could not be
      verified (HTTP <status>)", a transport failure "could not be reached:
      <message>". */
  lemma ReachabilityErrors(d: Draft, store: Store, draws: seq<Draw>, now: Time,
                           lib: UrlLibrary, head: string -> Probe)
    requires d.code.Some? || HasFresh(store, draws)
    requires IsPresent(NormalizedUrl(d.url, lib)) && UrlMessagesBeforeProbe(d, lib) == []
    ensures var v := Validate(d, store, draws, now, lib, head);
            var p := head(v.record.url);
            && (ProbeAccepts(p) ==> On(v.errors, Url) == [])
            && (p.Responded? && !ProbeAccepts(p) ==> On(v.errors, Url) == [NotVerified(p.status)])
            && (p.TransportError? ==> On(v.errors, Url) == [NotReached(p.message)])
  {
    ErrorsByAttribute(d, store, draws, now, lib, head);
  }

  /** A URL with no other error whose parsed scheme is not https is
      refused with the HTTPS message. */
  lemma HttpsRequiredRecorded(d: Draft, store: Store, draws: seq<Draw>, now: Time,
                              lib: UrlLibrary, head: string -> Probe)
    requires d.code.Some? || HasFresh(store, draws)
    requires var url := NormalizedUrl(d.url, lib);
             && NormalizeUrl(d, lib).messages + UrlDeclaredMessages(url, lib) == []
             && lib.parse(url).Parsed? && lib.parse(url).scheme != Some("https")
    ensures ErrorEntry(Url, HttpsRequired) in Validate(d, store, draws, now, lib, head).errors
  {
    var v := Validate(d, store, draws, now, lib, head);
    HttpsErrors(d, store, draws, now, lib, head);
    InOn(v.errors, Url, HttpsRequired);
  }

  /** The declared checks followed by the HTTPS check, seen on `url`. */
  lemma {:induction false} SecuredUrlErrors(errs: Errors, ctx: Context)
    ensures var early := On(errs, Url) + UrlDeclaredMessages(ctx.record.url, ctx.lib);
            On(RunValidators(DeclaredChecks + [UrlSecurity], errs, ctx), Url)
            == early + (if early == [] then SecurityMessages(ctx.record.url, ctx.lib) else [])
  {
    var declared := RunValidators(DeclaredChecks, errs, ctx);
    var early := On(errs, Url) + UrlDeclaredMessages(ctx.record.url, ctx.lib);
    var sec := Check(UrlSecurity, declared, ctx);
    assert RunValidators(DeclaredChecks + [UrlSecurity], errs, ctx) == declared + Tag(Url, sec) by {
      RunValidatorsAppend(DeclaredChecks, [UrlSecurity], errs, ctx);
      RunFirst(UrlSecurity, [], declared, ctx);
    }
    assert On(declared, Url) == early by {
      DeclaredUrlErrors(errs, ctx);
    }
    assert sec == (if early == [] then SecurityMessages(ctx.record.url, ctx.lib) else []);
    CheckStepSame(UrlSecurity, declared, ctx);
  }

  /** The URL errors recorded by normalization and the checks before the
      probe are exactly `UrlMessagesBeforeProbe`. */
  lemma SecuredErrors(d: Draft, store: Store, draws: seq<Draw>, ctx: Context)
    requires d.code.Some? || HasFresh(store, draws)
    requires ctx.record == Prepare(d, store, draws, ctx.lib).record
    ensures On(RunValidators(DeclaredChecks + [UrlSecurity], Tag(Url, Prepare(d, store, draws, ctx.lib).messages), ctx), Url)
            == UrlMessagesBeforeProbe(d, ctx.lib)
  {
    var n := Prepare(d, store, draws, ctx.lib);
    SecuredUrlErrors(Tag(Url, n.messages), ctx);
    OnTag(Url, n.messages, Url);
    assert NormalizeUrl(d, ctx.lib).messages == n.messages;
  }

  /** The probe is consulted only when the URL has no other error: with an
      earlier URL error, any two probes give the same validation. */
  lemma ProbeSkippedAfterUrlError(d: Draft, store: Store, draws: seq<Draw>, now: Time,
                                  lib: UrlLibrary, head1: string -> Probe, head2: string -> Probe)
    requires d.code.Some? || HasFresh(store, draws)
    requires UrlMessagesBeforeProbe(d, lib) != []
    ensures Validate(d, store, draws, now, lib, head1) == Validate(d, store, draws, now, lib, head2)
  {
    var n := Prepare(d, store, draws, lib);
    var c1 := Context(n.record, store, now, lib, head1);
    var c2 := Context(n.record, store, now, lib, head2);
    var e0 := Tag(Url, n.messages);
    var securedChecks := DeclaredChecks + [UrlSecurity];
    var probeChecks := [UrlAvailability, ExpiresInFuture];
    var secured := RunValidators(securedChecks, e0, c1);
    assert secured == RunValidators(securedChecks, e0, c2) by {
      assert UrlAvailability !in securedChecks;
      ProbeIrrelevant(securedChecks, e0, c1, c2);
    }
    assert On(secured, Url) != [] by {
      SecuredErrors(d, store, draws, c1);
    }
    assert RunValidators(probeChecks, secured, c1) == RunValidators(probeChecks, secured, c2) by {
      ProbeIrrelevant(probeChecks, secured, c1, c2);
    }
    assert Validators == securedChecks + probeChecks;
    RunValidatorsAppend(securedChecks, probeChecks, e0, c1);
    RunValidatorsAppend(securedChecks, probeChecks, e0, c2);
  }

  /** The HEAD request is read only by the availability check, and that
      check is skipped once `url` has an error. */
  lemma {:induction false} ProbeIrrelevant(checks: seq<Validator>, errs: Errors, c1: Context, c2: Context)
    requires c1.(head := c2.head) == c2
    requires UrlAvailability !in checks || On(errs, Url) != []
    ensures RunValidators(checks, errs, c1) == RunValidators(checks, errs, c2)
    decreases |checks|
  {
    if checks != [] {
      assert Check(checks[0], errs, c1) == Check(checks[0], errs, c2);
      var ms := Check(checks[0], errs, c1);
      OnAppendTag(errs, AttributeOf(checks[0]), ms, Url);
      assert UrlAvailability !in checks ==> UrlAvailability !in checks[1..];
      ProbeIrrelevant(checks[1..], errs + Tag(AttributeOf(checks[0]), ms), c1, c2);
    }
  }
}
