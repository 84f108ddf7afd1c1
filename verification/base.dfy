/** Small vocabulary shared by the whole model: optional values, timestamps,
    Ruby's notion of a "blank" string, and decimal rendering of integers as
    Ruby's string interpolation does it. */
module Base {

  /** Ruby's `nil` or a value. */
  datatype Option<+T> = None | Some(value: T)

  /** A timestamp (`Time.current`, `expires_at`, `created_at`), in any fixed unit. */
  type Time = int

  /** The characters matched by `[[:space:]]` in a Unicode Ruby string. */
  predicate IsSpace(c: char)
  {
    || ('\U{0009}' <= c <= '\U{000D}')
    || c == ' '
    || c == '\U{0085}'
    || c == '\U{00A0}'
    || c == '\U{1680}'
    || ('\U{2000}' <= c <= '\U{200A}')
    || c == '\U{2028}'
    || c == '\U{2029}'
    || c == '\U{202F}'
    || c == '\U{205F}'
    || c == '\U{3000}'
  }

  /** `String#blank?`: empty, or whitespace only. */
  predicate IsBlank(s: string)
  {
    forall i :: 0 <= i < |s| ==> IsSpace(s[i])
  }

  /** `present?` is the negation of `blank?`. */
  predicate IsPresent(s: string)
  {
    !IsBlank(s)
  }

  /** The characters of `SecureRandom::ALPHANUMERIC`. */
  predicate IsAlphanumeric(c: char)
  {
    ('A' <= c <= 'Z') || ('a' <= c <= 'z') || ('0' <= c <= '9')
  }

  predicate IsDigit(c: char)
  {
    '0' <= c <= '9'
  }

  function DigitChar(d: nat): (c: char)
    requires d < 10
    ensures IsDigit(c)
  {
    (('0' as int) + d) as char
  }

  /** Decimal digits of a natural number, most significant first, without
      leading zeros. */
  function NatToDecimal(n: nat): (s: string)
    ensures |s| >= 1
    ensures forall i :: 0 <= i < |s| ==> IsDigit(s[i])
    ensures n >= 10 ==> s[0] != '0'
    ensures n < 10 ==> |s| == 1
    decreases n
  {
    if n < 10 then [DigitChar(n)]
    else NatToDecimal(n / 10) + [DigitChar(n % 10)]
  }

  /** The value of a decimal digit. */
  function DigitValue(c: char): (d: nat)
    requires IsDigit(c)
    ensures d < 10 && DigitChar(d) == c
  {
    (c as int) - ('0' as int)
  }

  /** Reads a string of decimal digits, most significant first, as a number. */
  function DecimalValue(s: string): nat
    requires forall i :: 0 <= i < |s| ==> IsDigit(s[i])
    decreases |s|
  {
    if s == [] then 0 else DecimalValue(s[..|s| - 1]) * 10 + DigitValue(s[|s| - 1])
  }

  /** The digits `NatToDecimal` writes spell `n`. */
  lemma {:induction false} NatToDecimalValue(n: nat)
    ensures DecimalValue(NatToDecimal(n)) == n
    decreases n
  {
    var s := NatToDecimal(n);
    if n >= 10 {
      assert s[..|s| - 1] == NatToDecimal(n / 10);
      NatToDecimalValue(n / 10);
    }
  }

  /** `"#{n}"` for an Integer `n`. */
  function IntToDecimal(n: int): (s: string)
    ensures |s| >= 1
    ensures n >= 0 ==> forall i :: 0 <= i < |s| ==> IsDigit(s[i])
    ensures n < 0 ==> s[0] == '-' && forall i :: 1 <= i < |s| ==> IsDigit(s[i])
  {
    if n >= 0 then NatToDecimal(n) else "-" + NatToDecimal(-n)
  }

  /** Reads an optional '-' followed by decimal digits as an integer. */
  function SignedDecimalValue(s: string): int
    requires |s| >= 1
    requires s[0] == '-' ==> forall i :: 1 <= i < |s| ==> IsDigit(s[i])
    requires s[0] != '-' ==> forall i :: 0 <= i < |s| ==> IsDigit(s[i])
  {
    if s[0] == '-' then -(DecimalValue(s[1..]) as int) else DecimalValue(s)
  }

  /** `"#{n}"` reads back as `n`: the interpolated status is the status. */
  lemma IntToDecimalValue(n: int)
    ensures SignedDecimalValue(IntToDecimal(n)) == n
  {
    if n >= 0 {
      NatToDecimalValue(n);
    } else {
      assert IntToDecimal(n)[1..] == NatToDecimal(-n);
      NatToDecimalValue(-n);
    }
  }
}
