// The sign-in page: the password rules checked before registering, the
// resend countdown shown while the e-mail confirmation is pending, the
// message for a failed Google sign-in, and the token read back from the
// Google redirect.

module Auth {

  import opened Common

  // ---------------------------------------------------------------------
  // Password rules

  /** The five checks of `passwordValidations`. */
  datatype PasswordValidations = PasswordValidations(
    length: bool, lowercase: bool, uppercase: bool, specialChar: bool, matches: bool)

  /** `/[^A-Za-z0-9]/`: anything that is not an ASCII letter or digit. */
  predicate IsSpecialChar(c: char) { !IsAsciiLower(c) && !IsAsciiUpper(c) && !IsAsciiDigit(c) }

  predicate HasLower(s: string) { exists i :: 0 <= i < |s| && IsAsciiLower(s[i]) }
  predicate HasUpper(s: string) { exists i :: 0 <= i < |s| && IsAsciiUpper(s[i]) }
  predicate HasSpecial(s: string) { exists i :: 0 <= i < |s| && IsSpecialChar(s[i]) }

  /** The checks as the register form computes them, both when submitting and when drawing the hints. */
  function Validate(password: string, confirmPassword: string): PasswordValidations {
    PasswordValidations(
      |password| >= 8,
      HasLower(password),
      HasUpper(password),
      HasSpecial(password),
      password != "" && password == confirmPassword)
  }

  /** `Object.values(passwordValidations).every(Boolean)` */
  predicate AllValid(v: PasswordValidations) {
    v.length && v.lowercase && v.uppercase && v.specialChar && v.matches
  }

  /**
   * A password passes exactly when it has at least 8 characters, a small
   * and a capital ASCII letter and a character that is neither, and equals
   * its confirmation; the empty password never passes, and the non-empty
   * part of the match check adds nothing once the length check holds.
   */
  lemma PasswordRules(password: string, confirmPassword: string)
    ensures AllValid(Validate(password, confirmPassword)) <==>
      |password| >= 8 && HasLower(password) && HasUpper(password) && HasSpecial(password)
      && password == confirmPassword
    ensures !AllValid(Validate("", confirmPassword))
    ensures !Validate("", confirmPassword).matches
  {
  }

  /** A password made only of ASCII letters and digits never passes. */
  lemma AlphanumericRejected(password: string, confirmPassword: string)
    requires forall i :: 0 <= i < |password| ==>
      IsAsciiLower(password[i]) || IsAsciiUpper(password[i]) || IsAsciiDigit(password[i])
    ensures !AllValid(Validate(password, confirmPassword))
  {
  }

  /** "Abcdefg!" confirmed with itself passes; confirmed with anything else it does not. */
  lemma PasswordExample(other: string)
    requires other != "Abcdefg!"
    ensures AllValid(Validate("Abcdefg!", "Abcdefg!"))
    ensures !AllValid(Validate("Abcdefg!", other))
  {
    var p := "Abcdefg!";
    assert IsAsciiUpper(p[0]) && IsAsciiLower(p[1]) && IsSpecialChar(p[7]);
  }

  /** The register form's fields. */
  datatype RegisterData = RegisterData(firstName: string, lastName: string, email: string,
                                       phoneNumber: string, password: string, confirmPassword: string)

  /**
   * handleRegister up to the request: nothing is sent unless all five
   * checks pass; otherwise the six fields go out under their form names.
   */
  function RegisterForm(data: RegisterData): (r: Option<seq<(string, string)>>)
    ensures r.Some? <==> AllValid(Validate(data.password, data.confirmPassword))
  {
    if !AllValid(Validate(data.password, data.confirmPassword)) then None
    else Some([("FirstName", data.firstName), ("LastName", data.lastName), ("Email", data.email),
               ("PhoneNumber", data.phoneNumber), ("Password", data.password),
               ("ConfirmPassword", data.confirmPassword)])
  }

  /** A submitted form always carries a password of 8 or more characters equal to its confirmation. */
  lemma RegisterFormSpec(data: RegisterData)
    ensures RegisterForm(data).Some? ==>
      var f := RegisterForm(data).value;
      |f| == 6 && f[4] == ("Password", data.password) && f[5].1 == f[4].1 && |f[4].1| >= 8
    ensures data.password == "" ==> RegisterForm(data).None?
  {
    PasswordRules(data.password, data.confirmPassword);
  }

  // ---------------------------------------------------------------------
  // Resend countdown

  /** One second of the countdown: the new timer value and whether resending is allowed again. */
  datatype Tick = Tick(timer: int, resendEnabled: bool)

  /** The interval callback: at 1 or below the timer stops at 0 and resending is enabled. */
  function CountdownTick(prev: int): Tick {
    if prev <= 1 then Tick(0, true) else Tick(prev - 1, false)
  }

  /** The timer after `n` seconds, started at `start`. */
  function Countdown(start: int, n: nat): int {
    if n == 0 then start else CountdownTick(Countdown(start, n - 1)).timer
  }

  /**
   * A tick never leaves the timer negative, lowers a positive timer by one
   * second, and enables resending exactly when it reaches 0.
   */
  lemma TickSpec(prev: int)
    ensures CountdownTick(prev).timer >= 0
    ensures prev >= 1 ==> CountdownTick(prev).timer == prev - 1
    ensures CountdownTick(prev).resendEnabled <==> CountdownTick(prev).timer == 0
    ensures prev > 0 ==> CountdownTick(prev).timer < prev
  {
  }

  /** From a non-negative start, after n ticks the timer shows max(0, start - n). */
  lemma {:induction false} CountdownValue(start: int, n: nat)
    requires start >= 0
    ensures Countdown(start, n) == if start - n > 0 then start - n else 0
  {
    if n > 0 {
      CountdownValue(start, n - 1);
    }
  }

  /** The 60-second countdown set after registering reaches 0 after exactly 60 ticks. */
  lemma SixtySeconds()
    ensures Countdown(60, 59) == 1
    ensures Countdown(60, 60) == 0 && CountdownTick(Countdown(60, 59)).resendEnabled
  {
    CountdownValue(60, 59);
    CountdownValue(60, 60);
  }

  // ---------------------------------------------------------------------
  // Google sign-in

  const GoogleHasPasswordError: string := "user is already has password"
  const GoogleHasPasswordText: string := "هذا الحساب مسجل بالفعل بكلمة مرور."
  const GoogleGenericText: string := "حدث خطأ أثناء تسجيل الدخول باستخدام Google"

  /** translateGoogleError */
  function TranslateGoogleError(error: string): (r: string)
    ensures r == GoogleHasPasswordText <==> error == GoogleHasPasswordError
    ensures r == GoogleHasPasswordText || r == GoogleGenericText
  {
    if error == GoogleHasPasswordError then GoogleHasPasswordText else GoogleGenericText
  }

  const TokenPrefix: string := "#token="

  /**
   * extractTokenFromUrl: the rest of a hash that starts with "#token=",
   * otherwise the `token` query parameter (passed in, None when absent).
   */
  function ExtractTokenFromUrl(hash: string, searchToken: Option<string>): Option<string> {
    if StartsWith(hash, TokenPrefix) then Some(ReplaceFirst(hash, TokenPrefix, "")) else searchToken
  }

  /**
   * A hash "#token=" + t yields exactly t, even when t itself contains
   * "#token="; any other hash falls back to the query parameter.
   */
  lemma ExtractTokenSpec(t: string, hash: string, searchToken: Option<string>)
    ensures ExtractTokenFromUrl(TokenPrefix + t, searchToken) == Some(t)
    ensures !StartsWith(hash, TokenPrefix) ==> ExtractTokenFromUrl(hash, searchToken) == searchToken
    ensures StartsWith(hash, TokenPrefix) ==> ExtractTokenFromUrl(hash, searchToken) == Some(hash[|TokenPrefix|..])
  {
    var h := TokenPrefix + t;
    assert h[..|TokenPrefix|] == TokenPrefix;
    assert h[|TokenPrefix|..] == t;
    ReplaceLeading(h, TokenPrefix);
    if StartsWith(hash, TokenPrefix) {
      ReplaceLeading(hash, TokenPrefix);
    }
  }
}
