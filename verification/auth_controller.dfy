/** The e-mail one-time-password login: issuing a code (creating the
    account on first use), verifying it, and issuing a fresh one. Accounts
    are keyed by their unique e-mail. The random draw, the clock, the mail
    delivery and the token signing are parameters: `k` is the drawn
    offset, `emailSent` what the mailer reported, `secretSet` whether a
    signing secret is configured. */
module AuthController {
  import opened Ids
  import opened Wrappers
  import opened Strings
  import opened Validation

  /** The fields of a user document the login flow reads and writes. */
  datatype Account = Account(
    name: string,
    phone: string,
    otp: Option<string>,
    otpExpiry: Option<int>,
    isOnline: bool,
    lastSeen: int)

  type Accounts = map<Email, Account>

  /** A handler's answer and the accounts afterwards (a handler may save
      before it fails). `signedFor` is the account a token was signed for. */
  datatype Outcome = Outcome(status: int, message: string, accounts: Accounts, signedFor: Option<Email>)

  /** The lifetime of a code when no setting is given, in minutes. */
  const DefaultExpiryMinutes := 10
  /** Milliseconds in a minute. */
  const MinuteMs := 60000

  /** `parseInt(process.env.OTP_EXPIRY_MINUTES || "10")`, with the setting
      given by its parsed value (`None` when it is unset or empty). */
  function ExpiryMinutes(setting: Option<int>): int {
    setting.GetOr(DefaultExpiryMinutes)
  }

  const MailFailed := "Failed to send OTP email. Please try again."

  /** The display name a new account gets: the text before the '@'. */
  function DefaultName(email: string): (r: string)
    ensures '@' !in r
    ensures |r| <= |email| && email[..|r|] == r
    ensures ValidateEmail(email) ==> r != [] && |r| < |email| && email[|r|] == '@'
  {
    email[..IndexOf(email, '@')]
  }

  /** The account a first request creates: the code and its expiry, the
      default name and an empty phone. */
  function NewAccount(email: string, otp: string, expiry: int, now: int): Account {
    Account(DefaultName(email), "", Some(otp), Some(expiry), false, now)
  }

  /** The checks before anything is stored; `None` when they pass. */
  function GenerateError(email: Option<string>): (r: Option<string>)
    ensures r.None? <==> Truthy(email) && ValidateEmail(email.value)
  {
    if !Truthy(email) then Some("Email is required")
    else if !ValidateEmail(email.value) then Some("Invalid email format")
    else None
  }

  /** The accounts after a code is issued to a valid `email`: a new account,
      or only the code and expiry of the existing one replaced. */
  function IssueCode(accounts: Accounts, email: string, otp: string, expiry: int, now: int): (r: Accounts)
    ensures r.Keys == accounts.Keys + {email}
    ensures email !in accounts ==> r[email] == NewAccount(email, otp, expiry, now)
    ensures email in accounts ==> r[email] == accounts[email].(otp := Some(otp), otpExpiry := Some(expiry))
    ensures forall e :: e in accounts && e != email ==> r[e] == accounts[e]
  {
    if email in accounts then accounts[email := accounts[email].(otp := Some(otp), otpExpiry := Some(expiry))]
    else accounts[email := NewAccount(email, otp, expiry, now)]
  }

  /** `generateOTP`: 400 for a missing or malformed e-mail; otherwise the
      code `GenerateOtp(k)`, valid until `now + minutes` minutes, is stored
      on the account, created on first use, and the answer is 200, or 500
      when the mail could not be sent (the code is stored all the same). */
  function GenerateOtpHandler(accounts: Accounts, email: Option<string>, k: nat, minutes: int, now: int,
                              emailSent: bool): (r: Outcome)
    requires k < OtpRange
    ensures GenerateError(email).Some? ==> r == Outcome(400, GenerateError(email).value, accounts, None)
    ensures GenerateError(email).None? ==>
              && r.accounts == IssueCode(accounts, email.value, GenerateOtp(k), now + minutes * MinuteMs, now)
              && r.status == (if emailSent then 200 else 500)
              && r.signedFor.None?
    ensures r.status == 200 ==> r.message == "OTP sent successfully to your email"
  {
    var err := GenerateError(email);
    if err.Some? then Outcome(400, err.value, accounts, None)
    else
      var stored := IssueCode(accounts, email.value, GenerateOtp(k), now + minutes * MinuteMs, now);
      if !emailSent then Outcome(500, MailFailed, stored, None)
      else Outcome(200, "OTP sent successfully to your email", stored, None)
  }

  // ----- generateOTP as written -----

  /** The user schema's `required` rule for strings: an empty string is
      refused, so a document with an empty name or phone cannot be saved. */
  predicate SchemaAccepts(a: Account) {
    a.name != [] && a.phone != []
  }

  /** `generateOTP` as written: the save runs the schema check, and a
      refused save answers 500 with nothing stored. */
  function GenerateOtpAsWritten(accounts: Accounts, email: Option<string>, k: nat, minutes: int, now: int,
                                emailSent: bool): (r: Outcome)
    requires k < OtpRange
    ensures GenerateError(email).Some? ==> r == Outcome(400, GenerateError(email).value, accounts, None)
    ensures GenerateError(email).None? && email.value !in accounts ==>
              r == Outcome(500, "Internal server error", accounts, None)
    ensures GenerateError(email).None? && email.value in accounts && SchemaAccepts(accounts[email.value]) ==>
              r == GenerateOtpHandler(accounts, email, k, minutes, now, emailSent)
  {
    var err := GenerateError(email);
    if err.Some? then Outcome(400, err.value, accounts, None)
    else
      var stored := IssueCode(accounts, email.value, GenerateOtp(k), now + minutes * MinuteMs, now);
      if !SchemaAccepts(stored[email.value]) then Outcome(500, "Internal server error", accounts, None)
      else GenerateOtpHandler(accounts, email, k, minutes, now, emailSent)
  }

  /** As written, a first request from any well-formed e-mail never creates
      the account: the new document's empty phone fails the schema, the
      answer is 500, and a code sent afterwards meets "User not found", so
      no new user can ever log in. */
  lemma NewEmailNeverRegisters(accounts: Accounts, email: string, k: nat, minutes: int, now: int,
                               emailSent: bool, code: string, later: int, secretSet: bool)
    requires k < OtpRange && ValidateEmail(email) && email !in accounts && code != ""
    ensures var r := GenerateOtpAsWritten(accounts, Some(email), k, minutes, now, emailSent);
            && r.status == 500 && r.accounts == accounts && email !in r.accounts
            && VerifyOtp(r.accounts, Some(email), Some(code), later, secretSet).status == 404
  {
    assert email != "";
  }

  /** With the phone left optional, the same request creates the account
      named after the local part and holding the code. */
  lemma NewEmailRegisters(accounts: Accounts, email: string, k: nat, minutes: int, now: int)
    requires k < OtpRange && ValidateEmail(email) && email !in accounts
    ensures var r := GenerateOtpHandler(accounts, Some(email), k, minutes, now, true);
            && r.status == 200 && email in r.accounts
            && r.accounts[email].otp == Some(GenerateOtp(k))
            && email == r.accounts[email].name + "@" + email[|r.accounts[email].name| + 1..]
  {
    var name := DefaultName(email);
    assert email[|name|..] == "@" + email[|name| + 1..];
  }

  // ----- verifyOTP -----

  const NoOtp := "No OTP found. Please request a new OTP."
  const Expired := "OTP has expired. Please request a new OTP."

  /** `verifyOTP`: 400 for a missing e-mail or code, 404 for an unknown
      account, 400 when no code is stored, 400 when it has no expiry or is
      past it (and the code is then blanked), 400 for a different code
      (nothing changes). A matching code is consumed, the account goes
      online, and a token is signed, unless no signing secret is set (500,
      with the code consumed all the same). */
  function VerifyOtp(accounts: Accounts, email: Option<string>, otp: Option<string>, now: int,
                     secretSet: bool): (r: Outcome)
    ensures !Truthy(email) || !Truthy(otp) ==> r == Outcome(400, "Email and OTP are required", accounts, None)
    ensures Truthy(email) && Truthy(otp) && email.value !in accounts ==>
              r == Outcome(404, "User not found", accounts, None)
    ensures Truthy(email) && Truthy(otp) && email.value in accounts ==>
              var a := accounts[email.value];
              && (!Truthy(a.otp) ==> r == Outcome(400, NoOtp, accounts, None))
              && (Truthy(a.otp) && (a.otpExpiry.None? || IsOtpExpired(a.otpExpiry.value, now)) ==>
                    r == Outcome(400, Expired, accounts[email.value := a.(otp := Some(""), otpExpiry := None)], None))
              && ((Truthy(a.otp) && a.otpExpiry.Some? && !IsOtpExpired(a.otpExpiry.value, now) && a.otp != otp) ==>
                    r == Outcome(400, "Invalid OTP", accounts, None))
    ensures r.status == 200 <==>
              && Truthy(email) && Truthy(otp) && email.value in accounts && secretSet
              && accounts[email.value].otp == otp && accounts[email.value].otpExpiry.Some?
              && !IsOtpExpired(accounts[email.value].otpExpiry.value, now)
    ensures r.status == 200 ==> r.signedFor == email && r.message == "OTP verified successfully"
    ensures r.signedFor.Some? ==> r.status == 200
    ensures r.status == 200 || r.status == 500 ==>
              r.accounts == accounts[email.value := accounts[email.value].(otp := None, otpExpiry := None,
                                                                            isOnline := true, lastSeen := now)]
  {
    if !Truthy(email) || !Truthy(otp) then Outcome(400, "Email and OTP are required", accounts, None)
    else if email.value !in accounts then Outcome(404, "User not found", accounts, None)
    else
      var a := accounts[email.value];
      if !Truthy(a.otp) then Outcome(400, NoOtp, accounts, None)
      else if a.otpExpiry.None? || IsOtpExpired(a.otpExpiry.value, now) then
        Outcome(400, Expired, accounts[email.value := a.(otp := Some(""), otpExpiry := None)], None)
      else if a.otp != otp then Outcome(400, "Invalid OTP", accounts, None)
      else
        var consumed := accounts[email.value := a.(otp := None, otpExpiry := None, isOnline := true, lastSeen := now)];
        if !secretSet then Outcome(500, "JWT secret not configured", consumed, None)
        else Outcome(200, "OTP verified successfully", consumed, email)
  }

  /** After an expired attempt the code is gone: any retry reports that no
      code exists. */
  lemma ExpiredRetryFindsNoOtp(accounts: Accounts, email: string, otp: string, code: string, t1: int, t2: int,
                               s1: bool, s2: bool)
    requires otp != [] && code != []
    requires VerifyOtp(accounts, Some(email), Some(otp), t1, s1).message == Expired
    ensures VerifyOtp(VerifyOtp(accounts, Some(email), Some(otp), t1, s1).accounts, Some(email), Some(code), t2, s2)
            .message == NoOtp
  {
  }

  /** A code is good for one login only. */
  lemma VerifiedCodeIsConsumed(accounts: Accounts, email: string, otp: string, t1: int, t2: int, s2: bool)
    requires otp != []
    requires VerifyOtp(accounts, Some(email), Some(otp), t1, true).status == 200
    ensures VerifyOtp(VerifyOtp(accounts, Some(email), Some(otp), t1, true).accounts, Some(email), Some(otp), t2, s2)
            == Outcome(400, NoOtp, VerifyOtp(accounts, Some(email), Some(otp), t1, true).accounts, None)
  {
  }

  /** The code a request issues logs the account in until it expires, and
      no other code does. */
  lemma IssuedCodeLogsIn(accounts: Accounts, email: string, k: nat, minutes: int, t1: int, sent: bool,
                         t2: int, code: string)
    requires k < OtpRange && ValidateEmail(email)
    requires t2 <= t1 + minutes * MinuteMs
    requires code != [] && code != GenerateOtp(k)
    ensures var issued := GenerateOtpHandler(accounts, Some(email), k, minutes, t1, sent).accounts;
            && VerifyOtp(issued, Some(email), Some(GenerateOtp(k)), t2, true).status == 200
            && VerifyOtp(issued, Some(email), Some(code), t2, true) == Outcome(400, "Invalid OTP", issued, None)
  {
    assert GenerateOtp(k) != [];
    assert email != [];
  }

  /** Without a setting, the issued code logs in for exactly ten minutes:
      up to and including the instant 600000 ms after it was issued. */
  lemma DefaultCodeLastsTenMinutes(accounts: Accounts, email: string, k: nat, t1: int, sent: bool, t2: int)
    requires k < OtpRange && ValidateEmail(email)
    ensures var issued := GenerateOtpHandler(accounts, Some(email), k, ExpiryMinutes(None), t1, sent).accounts;
            VerifyOtp(issued, Some(email), Some(GenerateOtp(k)), t2, true).status == 200 <==> t2 <= t1 + 600000
  {
    assert GenerateOtp(k) != [];
    assert email != [];
  }

  // ----- resendOTP -----

  /** `resendOTP`: 400 for a missing e-mail, 404 for an unknown one;
      otherwise only the code and its expiry are replaced, and the answer
      is 200, or 500 when the mail could not be sent. */
  function ResendOtp(accounts: Accounts, email: Option<string>, k: nat, minutes: int, now: int,
                     emailSent: bool): (r: Outcome)
    requires k < OtpRange
    ensures !Truthy(email) ==> r == Outcome(400, "Email is required", accounts, None)
    ensures Truthy(email) && email.value !in accounts ==>
              r == Outcome(404, "User not found. Please register first.", accounts, None)
    ensures Truthy(email) && email.value in accounts ==>
              && r.accounts == accounts[email.value := accounts[email.value].(otp := Some(GenerateOtp(k)),
                                                                             otpExpiry := Some(now + minutes * MinuteMs))]
              && r.status == (if emailSent then 200 else 500)
    ensures r.signedFor.None?
  {
    if !Truthy(email) then Outcome(400, "Email is required", accounts, None)
    else if email.value !in accounts then Outcome(404, "User not found. Please register first.", accounts, None)
    else
      var stored := IssueCode(accounts, email.value, GenerateOtp(k), now + minutes * MinuteMs, now);
      if !emailSent then Outcome(500, MailFailed, stored, None)
      else Outcome(200, "OTP resent successfully to your email", stored, None)
  }

  /** A resent code replaces the previous one: the earlier code no longer
      logs in once the draws differ. */
  lemma ResendReplacesCode(accounts: Accounts, email: string, k1: nat, k2: nat, minutes: int, t1: int, t2: int,
                           t3: int, sent1: bool, sent2: bool)
    requires k1 < OtpRange && k2 < OtpRange && k1 != k2
    requires ValidateEmail(email) && t3 <= t2 + minutes * MinuteMs
    ensures var first := GenerateOtpHandler(accounts, Some(email), k1, minutes, t1, sent1).accounts;
            var second := ResendOtp(first, Some(email), k2, minutes, t2, sent2).accounts;
            VerifyOtp(second, Some(email), Some(GenerateOtp(k1)), t3, true) == Outcome(400, "Invalid OTP", second, None)
  {
    GenerateOtpInjective(k1, k2);
    assert GenerateOtp(k1) != [] && email != [];
  }
}
