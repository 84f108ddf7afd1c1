/** The error collection a Link record accumulates while it is validated.
    Rails keeps one list of errors in the order they were added; `errors[:url]`
    is the sub-list for one attribute and `full_messages` renders every entry
    as "<Attribute> <message>". */
module ModelErrors {
  import opened Base

  /** The attributes of Link that validations report on. */
  datatype Attribute = Url | Code | ExpiresAt

  /** The kinds of error Link records. Rails keeps an error's type (`:blank`,
      `:taken`, ...) or custom text and renders it on demand; `Text` is the
      rendering. */
  datatype Message =
    | Blank | InvalidUrl | InvalidCharacters | Taken | WrongLength
    | HttpsRequired | NotVerified(status: int) | NotReached(reason: string) | NotInFuture

  /** The English message of each error, as `errors[attribute]` shows it. */
  function Text(m: Message): string
  {
    match m
    case Blank => "can't be blank"
    case InvalidUrl => "must be a valid HTTP/HTTPS URL"
    case InvalidCharacters => "contains invalid characters or format"
    case Taken => "has already been taken"
    case WrongLength => "is the wrong length (should be 8 characters)"
    case HttpsRequired => "must use HTTPS protocol"
    case NotVerified(status) => "could not be verified (HTTP " + IntToDecimal(status) + ")"
    case NotReached(reason) => "could not be reached: " + reason
    case NotInFuture => "must be in the future"
  }

  /** The fixed messages render to texts of different lengths, so a client
      tells the checks apart from the text alone. */
  lemma FixedTextsDistinct(m1: Message, m2: Message)
    requires !m1.NotVerified? && !m1.NotReached? && !m2.NotVerified? && !m2.NotReached?
    requires m1 != m2
    ensures |Text(m1)| != |Text(m2)|
  {
  }

  datatype ErrorEntry = ErrorEntry(attribute: Attribute, message: Message)

  /** All errors of one validation run, in the order they were added. */
  type Errors = seq<ErrorEntry>

  /** `errors[attribute]`: the messages recorded for one attribute, in order. */
  function On(errs: Errors, a: Attribute): (ms: seq<Message>)
    ensures |ms| <= |errs|
    ensures ms == [] <==> forall i :: 0 <= i < |errs| ==> errs[i].attribute != a
  {
    if errs == [] then []
    else if errs[0].attribute == a then [errs[0].message] + On(errs[1..], a)
    else On(errs[1..], a)
  }

  /** Adding errors one after another keeps the per-attribute lists in order. */
  lemma {:induction false} OnAppend(e1: Errors, e2: Errors, a: Attribute)
    ensures On(e1 + e2, a) == On(e1, a) + On(e2, a)
    decreases |e1|
  {
    if e1 == [] {
      assert e1 + e2 == e2;
    } else {
      assert (e1 + e2)[1..] == e1[1..] + e2;
      OnAppend(e1[1..], e2, a);
    }
  }

  /** A message is among `errors[a]` exactly when an entry for `a` carries it. */
  lemma {:induction false} InOn(errs: Errors, a: Attribute, m: Message)
    ensures m in On(errs, a) <==> ErrorEntry(a, m) in errs
    decreases |errs|
  {
    if errs != [] {
      InOn(errs[1..], a, m);
      assert errs == [errs[0]] + errs[1..];
    }
  }

  /** A record has no errors exactly when no attribute has a message. */
  lemma NoErrorsIff(errs: Errors)
    ensures errs == [] <==> On(errs, Url) == [] && On(errs, Code) == [] && On(errs, ExpiresAt) == []
  {
    if errs != [] {
      var a := errs[0].attribute;
      assert On(errs, a) == [errs[0].message] + On(errs[1..], a);
      assert a == Url || a == Code || a == ExpiresAt;
    }
  }

  /** The error collection as an attribute -> messages map; an attribute
      appears as a key exactly when it has at least one message. */
  function ErrorMap(errs: Errors): (m: map<Attribute, seq<Message>>)
    ensures forall a :: a in m <==> On(errs, a) != []
    ensures forall a :: a in m ==> m[a] == On(errs, a)
    ensures m == map[] <==> errs == []
  {
    var m := map a: Attribute | a in {Url, Code, ExpiresAt} && On(errs, a) != [] :: On(errs, a);
    assert errs != [] ==> errs[0].attribute in m by {
      if errs != [] {
        var a := errs[0].attribute;
        assert On(errs, a) == [errs[0].message] + On(errs[1..], a);
      }
    }
    m
  }

  /** `human_attribute_name` for each attribute. */
  function Humanize(a: Attribute): string
  {
    match a
    case Url => "Url"
    case Code => "Code"
    case ExpiresAt => "Expires at"
  }

  function FullMessage(e: ErrorEntry): string
  {
    Humanize(e.attribute) + " " + Text(e.message)
  }

  /** `errors.full_messages`: one rendered line per error, same order. */
  function FullMessages(errs: Errors): (lines: seq<string>)
    ensures |lines| == |errs|
    ensures forall i :: 0 <= i < |errs| ==> lines[i] == FullMessage(errs[i])
  {
    if errs == [] then [] else [FullMessage(errs[0])] + FullMessages(errs[1..])
  }

  /** Every recorded error appears, rendered, among the full messages. */
  lemma FullMessagesHas(errs: Errors, e: ErrorEntry)
    requires e in errs
    ensures FullMessage(e) in FullMessages(errs)
  {
    var i :| 0 <= i < |errs| && errs[i] == e;
    assert FullMessages(errs)[i] == FullMessage(e);
  }
}
