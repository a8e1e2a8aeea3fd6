/** The input validators and the one-time-password helpers: the e-mail,
    OTP and phone formats, input sanitising, the OTP expiry test and the
    six-digit code drawn for a login. */
module Validation {
  import opened Strings

  // ----- validateEmail -----

  /** No character of `s` is whitespace (`[^\s]` on every position). */
  predicate NoSpace(s: string) {
    forall k :: 0 <= k < |s| ==> !IsWhitespace(s[k])
  }

  /** The domain has a '.' with at least one character on each side. */
  predicate HasInnerDot(d: string) {
    |d| >= 3 && '.' in d[1..|d| - 1]
  }

  /** `/^[^\s@]+@[^\s@]+\.[^\s@]+$/.test(s)`, read off one scan: no
      whitespace, a first '@' past the start, no further '@', and an inner
      '.' in what follows it. */
  predicate ValidateEmail(s: string) {
    var i := IndexOf(s, '@');
    && NoSpace(s) && 0 < i < |s|
    && '@' !in s[i + 1..]
    && HasInnerDot(s[i + 1..])
  }

  /** One `[^\s@]+` run: non-empty, no whitespace, no '@'. */
  predicate Run(x: string) {
    x != [] && forall k :: 0 <= k < |x| ==> x[k] != '@' && !IsWhitespace(x[k])
  }

  /** `s` splits as the regular expression reads it: local part, '@',
      domain name, '.', top-level part. */
  predicate EmailSplit(s: string, local: string, name: string, top: string) {
    s == local + "@" + name + "." + top && Run(local) && Run(name) && Run(top)
  }

  /** The scan accepts exactly the strings the regular expression
      matches. */
  lemma ValidateEmailIff(s: string)
    ensures ValidateEmail(s) <==> exists local, name, top :: EmailSplit(s, local, name, top)
  {
    if ValidateEmail(s) {
      var i := IndexOf(s, '@');
      var d := s[i + 1..];
      var j :| 1 <= j < |d| - 1 && d[j] == '.';
      var local, name, top := s[..i], d[..j], d[j + 1..];
      assert s == local + "@" + name + "." + top;
      assert Run(local) by {
        forall k | 0 <= k < |local| ensures local[k] != '@' && !IsWhitespace(local[k]) {
          assert local[k] == s[k];
        }
      }
      assert Run(name) by {
        forall k | 0 <= k < |name| ensures name[k] != '@' && !IsWhitespace(name[k]) {
          assert name[k] == s[i + 1 + k];
        }
      }
      assert Run(top) by {
        forall k | 0 <= k < |top| ensures top[k] != '@' && !IsWhitespace(top[k]) {
          assert top[k] == s[i + 2 + j + k];
        }
      }
      assert EmailSplit(s, local, name, top);
    }
    if exists local, name, top :: EmailSplit(s, local, name, top) {
      var local, name, top :| EmailSplit(s, local, name, top);
      SplitValidates(s, local, name, top);
    }
  }

  /** A split string passes the scan. */
  lemma SplitValidates(s: string, local: string, name: string, top: string)
    requires EmailSplit(s, local, name, top)
    ensures ValidateEmail(s)
  {
    var i := |local|;
    assert s[..i] == local;
    assert '@' !in s[..i];
    assert IndexOf(s, '@') == i;
    var d := s[i + 1..];
    assert d == name + "." + top;
    assert '@' !in d by {
      forall k | 0 <= k < |d| ensures d[k] != '@' {
        if k < |name| { assert d[k] == name[k]; }
        else if k > |name| { assert d[k] == top[k - |name| - 1]; }
      }
    }
    assert d[1..|d| - 1][|name| - 1] == '.';
    assert NoSpace(s) by {
      forall k | 0 <= k < |s| ensures !IsWhitespace(s[k]) {
        if k < i { assert s[k] == local[k]; }
        else if i < k < i + 1 + |name| { assert s[k] == name[k - i - 1]; }
        else if k > i + 1 + |name| { assert s[k] == top[k - i - 2 - |name|]; }
      }
    }
  }

  // ----- validateOTP -----

  predicate IsDigit(c: char) {
    '0' <= c <= '9'
  }

  /** `/^\d{6}$/.test(otp)`: exactly six ASCII digits. */
  predicate ValidateOtp(otp: string) {
    |otp| == 6 && forall k :: 0 <= k < |otp| ==> IsDigit(otp[k])
  }

  // ----- validatePhone -----

  /** A character of the class `[\d\s\-\(\)]`. */
  predicate PhoneChar(c: char) {
    IsDigit(c) || IsWhitespace(c) || c == '-' || c == '(' || c == ')'
  }

  predicate PhoneChars(s: string) {
    forall k :: 0 <= k < |s| ==> PhoneChar(s[k])
  }

  /** `/^\+?[\d\s\-\(\)]{10,}$/.test(phone)`: since '+' is not in the
      class, a leading '+' must be the optional one. */
  predicate ValidatePhone(phone: string) {
    var body := if |phone| > 0 && phone[0] == '+' then phone[1..] else phone;
    |body| >= 10 && PhoneChars(body)
  }

  /** The two ways the regular expression can match: with or without the
      leading '+'. */
  lemma ValidatePhoneIff(phone: string)
    ensures ValidatePhone(phone) <==>
              (|phone| >= 10 && PhoneChars(phone))
              || (|phone| >= 11 && phone[0] == '+' && PhoneChars(phone[1..]))
  {
    if |phone| > 0 && phone[0] == '+' {
      assert !PhoneChar(phone[0]);
    }
  }

  // ----- sanitizeInput -----

  /** `input.trim().toLowerCase()`: the part of the input between its
      leading and trailing whitespace runs, lowercased character by
      character. */
  function SanitizeInput(input: string): (r: string)
    ensures |r| <= |input|
    ensures r == [] || (!IsWhitespace(r[0]) && !IsWhitespace(r[|r| - 1]))
    ensures forall k :: 0 <= k < |r| ==> !('A' <= r[k] <= 'Z')
    ensures var n := LeadingWhitespace(input);
            && n + |r| <= |input|
            && AllWhitespace(input[..n]) && AllWhitespace(input[n + |r|..])
            && forall k :: 0 <= k < |r| ==> r[k] == LowerChar(input[n + k])
  {
    var t := Trim(input);
    var r := ToLower(t);
    assert r == [] || (!IsWhitespace(r[0]) && !IsWhitespace(r[|r| - 1])) by {
      if t != [] {
        LowerPreservesWhitespace(t[0]);
        LowerPreservesWhitespace(t[|t| - 1]);
      }
    }
    r
  }

  /** Sanitising twice is sanitising once. */
  lemma SanitizeIdempotent(input: string)
    ensures SanitizeInput(SanitizeInput(input)) == SanitizeInput(input)
  {
    var t := Trim(input);
    TrimLowerCommute(t);
    TrimIdempotent(input);
    LowerIdempotent(t);
  }

  // ----- isOTPExpired -----

  /** `new Date() > expiry`: the code is still good at its expiry instant. */
  predicate IsOtpExpired(expiry: int, now: int) {
    now > expiry
  }

  // ----- generateOTP -----

  /** The smallest code and the number of codes: `100000 + floor(r * 900000)`
      for a draw `r` in [0, 1) is `OtpBase + k` for `k` in [0, OtpRange). */
  const OtpBase := 100000
  const OtpRange := 900000

  function DigitChar(d: nat): char
    requires d < 10
  {
    ('0' as int + d) as char
  }

  /** `n.toString()` for a non-negative integer. */
  function DecimalString(n: nat): (r: string)
    ensures r != [] && forall k :: 0 <= k < |r| ==> IsDigit(r[k])
  {
    if n < 10 then [DigitChar(n)] else DecimalString(n / 10) + [DigitChar(n % 10)]
  }

  /** The value of a string of digits. */
  function DecimalValue(s: string): nat
    requires forall k :: 0 <= k < |s| ==> IsDigit(s[k])
  {
    if s == [] then 0 else 10 * DecimalValue(s[..|s| - 1]) + DigitValue(s[|s| - 1])
  }

  function DigitValue(c: char): nat
    requires IsDigit(c)
  {
    c as int - '0' as int
  }

  /** Reading back a printed number gives the number. */
  lemma {:induction false} DecimalRoundTrip(n: nat)
    ensures DecimalValue(DecimalString(n)) == n
  {
    if n >= 10 {
      DecimalRoundTrip(n / 10);
      var s := DecimalString(n);
      assert s[..|s| - 1] == DecimalString(n / 10);
    }
  }

  /** A number from 10^(k-1) up to below 10^k prints with exactly k
      digits. */
  lemma {:induction false} DecimalLength(n: nat, k: nat)
    requires k >= 1 && Pow10(k - 1) <= n < Pow10(k)
    ensures |DecimalString(n)| == k
  {
    if k > 1 {
      DecimalLength(n / 10, k - 1);
    }
  }

  function Pow10(k: nat): (r: nat)
    ensures r >= 1
  {
    if k == 0 then 1 else 10 * Pow10(k - 1)
  }

  /** `generateOTP()` for the draw `k`. */
  function GenerateOtp(k: nat): (otp: string)
    requires k < OtpRange
    ensures ValidateOtp(otp)
    ensures DecimalValue(otp) == OtpBase + k
  {
    assert Pow10(5) == OtpBase && Pow10(6) == OtpBase + OtpRange;
    DecimalLength(OtpBase + k, 6);
    DecimalRoundTrip(OtpBase + k);
    DecimalString(OtpBase + k)
  }

  /** Printing the value of a digit string without a leading zero gives the
      string back, and the value has as many digits as the string. */
  lemma {:induction false} DecimalStringOfValue(s: string)
    requires |s| >= 1 && s[0] != '0' && forall k :: 0 <= k < |s| ==> IsDigit(s[k])
    ensures Pow10(|s| - 1) <= DecimalValue(s) < Pow10(|s|)
    ensures DecimalString(DecimalValue(s)) == s
  {
    var d := DigitValue(s[|s| - 1]);
    assert DigitChar(d) == s[|s| - 1];
    if |s| > 1 {
      var p := s[..|s| - 1];
      DecimalStringOfValue(p);
      var n := DecimalValue(s);
      assert n == 10 * DecimalValue(p) + d;
      assert n / 10 == DecimalValue(p) && n % 10 == d;
      assert DecimalString(n) == p + [s[|s| - 1]];
    }
  }

  /** Every code `validateOTP` accepts that does not start with '0' is the
      code `generateOTP` gives for exactly one draw. */
  lemma ValidCodeIsGenerated(otp: string)
    requires ValidateOtp(otp) && otp[0] != '0'
    ensures OtpBase <= DecimalValue(otp) < OtpBase + OtpRange
    ensures GenerateOtp(DecimalValue(otp) - OtpBase) == otp
  {
    DecimalStringOfValue(otp);
    assert Pow10(5) == OtpBase && Pow10(6) == OtpBase + OtpRange;
  }

  /** Different draws give different codes. */
  lemma GenerateOtpInjective(k1: nat, k2: nat)
    requires k1 < OtpRange && k2 < OtpRange
    ensures GenerateOtp(k1) == GenerateOtp(k2) <==> k1 == k2
  {
  }
}
