/** The login and registration page's helpers: its phone rule and phone
    formatter, the password-strength meter, the session test, and the checks
    the login and registration forms make before any request. Where this
    page and the shared script define a helper of the same name, this page's
    definition is the one in force on it. */
module ClientAuth {
  import opened Wrappers
  import opened Strings
  import opened ClientMain

  // ----- phone -------------------------------------------------------------

  /** `validatePhone` of this page: only the digits count, and there must be
      10 to 15 of them. */
  function ValidatePhone(phone: string): (ok: bool)
    ensures ok <==> 10 <= |Digits(phone)| <= 15
    ensures ok ==> |phone| >= 10
    ensures AllDigits(phone) ==> (ok <==> 10 <= |phone| <= 15)
  {
    if AllDigits(phone) then
      DigitsOfDigits(phone);
      10 <= |Digits(phone)| <= 15
    else
      10 <= |Digits(phone)| <= 15
  }

  /** Spaces, dashes, brackets and a '+' make no difference: the verdict on
      a number is the verdict on its digits alone. */
  lemma ValidatePhoneIgnoresNonDigits(phone: string)
    ensures ValidatePhone(phone) == ValidatePhone(Digits(phone))
  {
    DigitsOfDigits(Digits(phone));
  }

  /** `formatPhoneInput`: exactly ten digits become '(ddd) ddd-dddd'; any
      other input is returned as it is. */
  function FormatPhoneInput(phone: string): (shown: string)
    ensures |Digits(phone)| != 10 ==> shown == phone
    ensures |Digits(phone)| == 10 ==>
              |shown| == 14 && shown[0] == '(' && shown[4] == ')' && shown[5] == ' ' && shown[9] == '-'
  {
    var d := Digits(phone);
    if |d| == 10 then "(" + d[..3] + ") " + d[3..6] + "-" + d[6..] else phone
  }

  /** Formatting keeps the digits, in order. */
  lemma FormatKeepsDigits(phone: string)
    ensures Digits(FormatPhoneInput(phone)) == Digits(phone)
  {
    var d := Digits(phone);
    if |d| == 10 {
      DigitsOfConcat("(" + d[..3] + ") " + d[3..6] + "-", d[6..]);
      DigitsOfConcat("(" + d[..3] + ") " + d[3..6], "-");
      DigitsOfConcat("(" + d[..3] + ") ", d[3..6]);
      DigitsOfConcat("(" + d[..3], ") ");
      DigitsOfConcat("(", d[..3]);
      assert Digits("(") == [] && Digits(") ") == [] && Digits("-") == [];
      DigitsOfDigits(d[..3]);
      DigitsOfDigits(d[3..6]);
      DigitsOfDigits(d[6..]);
      assert d[..3] + d[3..6] + d[6..] == d;
    }
  }

  /** Formatting an already formatted number changes nothing. */
  lemma FormatIdempotent(phone: string)
    ensures FormatPhoneInput(FormatPhoneInput(phone)) == FormatPhoneInput(phone)
  {
    FormatKeepsDigits(phone);
    var d := Digits(phone);
    if |d| == 10 {
      var f := FormatPhoneInput(phone);
      assert Digits(f) == d;
    }
  }

  /** Formatting never changes this page's verdict on a number. */
  lemma FormatKeepsValidity(phone: string)
    ensures ValidatePhone(FormatPhoneInput(phone)) == ValidatePhone(phone)
  {
    FormatKeepsDigits(phone);
  }

  /** A formatted ten-digit number without a leading zero passes the shared
      script's rule too: its separators are exactly the ones that rule
      removes. */
  lemma FormattedPassesLoose(phone: string)
    requires |Digits(phone)| == 10 && Digits(phone)[0] != '0'
    ensures ValidatePhoneLoose(FormatPhoneInput(phone))
  {
    var d := Digits(phone);
    StripFormatted(d[..3], d[3..6], d[6..]);
    assert d[..3] + d[3..6] + d[6..] == d;
    PlainNumberPassesLoose(d);
  }

  /** Cleaning '(aaa) bbb-cccc' leaves the digits 'aaabbbcccc'. */
  lemma StripFormatted(a: string, b: string, c: string)
    requires AllDigits(a) && AllDigits(b) && AllDigits(c)
    ensures StripSeparators("(" + a + ") " + b + "-" + c) == a + b + c
  {
    var open, close, dash := "(", ") ", "-";
    StripSeparatorsOfSeparators(open);
    StripSeparatorsOfSeparators(close);
    StripSeparatorsOfSeparators(dash);
    StripSeparatorsOfDigits(a);
    StripSeparatorsOfDigits(b);
    StripSeparatorsOfDigits(c);
    var s1 := open + a;
    StripSeparatorsOfConcat(open, a);
    var s2 := s1 + close;
    StripSeparatorsOfConcat(s1, close);
    var s3 := s2 + b;
    StripSeparatorsOfConcat(s2, b);
    var s4 := s3 + dash;
    StripSeparatorsOfConcat(s3, dash);
    StripSeparatorsOfConcat(s4, c);
    assert StripSeparators(s4) == a + b;
  }

  /** A string of separators only is removed entirely. */
  lemma {:induction false} StripSeparatorsOfSeparators(s: string)
    requires forall k :: 0 <= k < |s| ==> Separator(s[k])
    ensures StripSeparators(s) == []
  {
    if s != [] {
      StripSeparatorsOfSeparators(s[1..]);
    }
  }

  /** The two phone rules disagree in both directions: a ten-digit number
      with a leading zero passes only this page's rule ... */
  lemma LeadingZeroExample()
    ensures ValidatePhone("0123456789") && !ValidatePhoneLoose("0123456789")
  {
    var zero := "0123456789";
    assert AllDigits(zero);
    LeadingZeroOnlyHere(zero);
  }

  /** ... and a five-digit number passes only the shared script's. */
  lemma ShortNumberExample()
    ensures !ValidatePhone("12345") && ValidatePhoneLoose("12345")
  {
    var short := "12345";
    assert AllDigits(short);
    ShortNumberOnlyLoose(short);
  }

  lemma LeadingZeroOnlyHere(phone: string)
    requires AllDigits(phone) && 10 <= |phone| <= 15 && phone[0] == '0'
    ensures ValidatePhone(phone) && !ValidatePhoneLoose(phone)
  {
    DigitsOfDigits(phone);
    StripSeparatorsOfDigits(phone);
  }

  lemma ShortNumberOnlyLoose(phone: string)
    requires AllDigits(phone) && 1 <= |phone| < 10 && phone[0] != '0'
    ensures !ValidatePhone(phone) && ValidatePhoneLoose(phone)
  {
    DigitsOfDigits(phone);
    PlainNumberPassesLoose(phone);
  }

  /** On plain digit strings with no leading zero, the rules agree from 10
      to 15 digits. */
  lemma PhoneRulesAgree(phone: string)
    requires AllDigits(phone) && 10 <= |phone| <= 15 && phone[0] != '0'
    ensures ValidatePhone(phone) && ValidatePhoneLoose(phone)
  {
    DigitsOfDigits(phone);
    PlainNumberPassesLoose(phone);
  }

  // ----- password strength -------------------------------------------------

  predicate HasUpper(s: string) { exists i :: 0 <= i < |s| && IsUpper(s[i]) }

  predicate HasDigit(s: string) { exists i :: 0 <= i < |s| && IsDigit(s[i]) }

  /** A character outside `[A-Za-z0-9]`. */
  predicate HasSymbol(s: string) { exists i :: 0 <= i < |s| && !IsAsciiAlnum(s[i]) }

  /** The five criteria the meter scores: length at least 6, length at least
      8, an upper-case letter, a digit, a symbol. */
  function Criteria(password: string): (c: seq<bool>)
    ensures |c| == 5
  {
    [|password| >= 6, |password| >= 8, HasUpper(password), HasDigit(password), HasSymbol(password)]
  }

  function CountTrue(bs: seq<bool>): (n: nat)
    ensures n <= |bs|
  {
    if bs == [] then 0 else (if bs[0] then 1 else 0) + CountTrue(bs[1..])
  }

  datatype Level = Weak | Medium | Strong

  /** The level of a score: weak up to 2, medium at 3, strong from 4. */
  function LevelOf(score: nat): (l: Level)
    ensures l == Weak <==> score <= 2
    ensures l == Medium <==> score == 3
    ensures l == Strong <==> score >= 4
  {
    if score <= 2 then Weak else if score <= 3 then Medium else Strong
  }

  /** `checkPasswordStrength`: one point per criterion met, and its level. */
  method CheckPasswordStrength(password: string) returns (score: nat, level: Level)
    ensures score == CountTrue(Criteria(password)) && score <= 5
    ensures level == LevelOf(score)
  {
    score := 0;
    if |password| >= 6 { score := score + 1; }
    if |password| >= 8 { score := score + 1; }
    if HasUpper(password) { score := score + 1; }
    if HasDigit(password) { score := score + 1; }
    if HasSymbol(password) { score := score + 1; }
    level := if score <= 2 then Weak else if score <= 3 then Medium else Strong;
    CountTrueOfFive(Criteria(password));
  }

  lemma CountTrueOfFive(c: seq<bool>)
    requires |c| == 5
    ensures CountTrue(c) == (if c[0] then 1 else 0) + (if c[1] then 1 else 0) + (if c[2] then 1 else 0)
                            + (if c[3] then 1 else 0) + (if c[4] then 1 else 0)
  {
    assert c[4..][1..] == [];
    assert c[3..][1..] == c[4..];
    assert c[2..][1..] == c[3..];
    assert c[1..][1..] == c[2..];
    assert CountTrue(c[4..]) == (if c[4] then 1 else 0);
    assert CountTrue(c[3..]) == (if c[3] then 1 else 0) + CountTrue(c[4..]);
    assert CountTrue(c[2..]) == (if c[2] then 1 else 0) + CountTrue(c[3..]);
    assert CountTrue(c[1..]) == (if c[1] then 1 else 0) + CountTrue(c[2..]);
  }

  /** Counting true entries is monotone in each entry. */
  lemma {:induction false} CountTrueMonotone(a: seq<bool>, b: seq<bool>)
    requires |a| == |b| && forall i :: 0 <= i < |a| && a[i] ==> b[i]
    ensures CountTrue(a) <= CountTrue(b)
  {
    if a != [] {
      CountTrueMonotone(a[1..], b[1..]);
    }
  }

  /** Typing one more character never lowers the score. */
  lemma ScoreNeverDropsWhenTyping(password: string, c: char)
    ensures CountTrue(Criteria(password)) <= CountTrue(Criteria(password + [c]))
  {
    var p := password + [c];
    if HasUpper(password) {
      var i :| 0 <= i < |password| && IsUpper(password[i]);
      assert p[i] == password[i];
    }
    if HasDigit(password) {
      var i :| 0 <= i < |password| && IsDigit(password[i]);
      assert p[i] == password[i];
    }
    if HasSymbol(password) {
      var i :| 0 <= i < |password| && !IsAsciiAlnum(password[i]);
      assert p[i] == password[i];
    }
    CountTrueMonotone(Criteria(password), Criteria(p));
  }

  /** A password meeting every criterion is strong; a short lower-case one
      is weak. */
  lemma StrengthExamples()
    ensures CountTrue(Criteria("Spa-2024")) == 5 && LevelOf(5) == Strong
    ensures CountTrue(Criteria("relax")) == 0 && LevelOf(0) == Weak
  {
    assert IsUpper("Spa-2024"[0]) && IsDigit("Spa-2024"[4]) && !IsAsciiAlnum("Spa-2024"[3]);
    assert !HasUpper("relax") && !HasDigit("relax") && !HasSymbol("relax");
  }

  // ----- session -----------------------------------------------------------

  /** `isAuthenticated`: a truthy token, a stored user and a truthy id. */
  predicate IsAuthenticated(token: Option<string>, user: Option<StoredUser>) {
    Truthy(token) && user.Some? && Truthy(user.value.id)
  }

  /** The navigation shows the signed-in links exactly when this page would
      consider the session authenticated. */
  lemma NavigationAgreesWithSession(token: Option<string>, user: Option<StoredUser>)
    ensures NavigationFor(token, user).logout <==> IsAuthenticated(token, user)
    ensures NavigationFor(token, user).login <==> !IsAuthenticated(token, user)
  {
  }

  // ----- form checks -------------------------------------------------------

  const EmailMessage := "Por favor ingresa un email válido"
  const PasswordMessage := "La contraseña debe tener al menos 6 caracteres"
  const NameMessage := "El nombre debe tener al menos 2 caracteres"
  const PhoneMessage := "Por favor ingresa un teléfono válido"
  const MismatchMessage := "Las contraseñas no coinciden"

  /** `handleLogin`'s checks: the e-mail, then the password length. */
  function LoginCheck(email: string, password: string): (o: Outcome)
    ensures o == Sent <==> ValidateEmail(email) && |password| >= 6
    ensures o == Rejected(EmailMessage) <==> !ValidateEmail(email)
    ensures o == Rejected(PasswordMessage) <==> ValidateEmail(email) && |password| < 6
    ensures o != Sent ==> o.Rejected?
  {
    if !ValidateEmail(email) then Rejected(EmailMessage)
    else if |password| < 6 then Rejected(PasswordMessage)
    else Sent
  }

  /** `handleRegister`'s checks, the first failing one reported: name of two
      or more characters, e-mail, phone, password length, confirmation. */
  function RegisterCheck(nombre: string, email: string, telefono: string,
                         password: string, confirm: string): (o: Outcome)
    ensures o == Sent <==> && |nombre| >= 2 && ValidateEmail(email) && ValidatePhone(telefono)
                           && |password| >= 6 && password == confirm
    ensures o == Rejected(NameMessage) <==> |nombre| < 2
    ensures o == Rejected(EmailMessage) <==> |nombre| >= 2 && !ValidateEmail(email)
    ensures o == Rejected(PhoneMessage) <==> |nombre| >= 2 && ValidateEmail(email) && !ValidatePhone(telefono)
    ensures o == Rejected(PasswordMessage) <==>
              |nombre| >= 2 && ValidateEmail(email) && ValidatePhone(telefono) && |password| < 6
    ensures o == Rejected(MismatchMessage) <==>
              && |nombre| >= 2 && ValidateEmail(email) && ValidatePhone(telefono)
              && |password| >= 6 && password != confirm
    ensures o != Sent ==> o.Rejected?
  {
    if |nombre| < 2 then Rejected(NameMessage)
    else if !ValidateEmail(email) then Rejected(EmailMessage)
    else if !ValidatePhone(telefono) then Rejected(PhoneMessage)
    else if |password| < 6 then Rejected(PasswordMessage)
    else if password != confirm then Rejected(MismatchMessage)
    else Sent
  }

  /** Credentials the registration form sends are ones the login form sends
      too, and both forms word an e-mail or password failure alike. */
  lemma RegisteredCredentialsPassLogin(nombre: string, email: string, telefono: string,
                                       password: string, confirm: string)
    ensures RegisterCheck(nombre, email, telefono, password, confirm) == Sent ==>
              LoginCheck(email, password) == Sent
    ensures |nombre| >= 2 && LoginCheck(email, password) != Sent ==>
              RegisterCheck(nombre, email, telefono, password, confirm) == LoginCheck(email, password)
                || (ValidateEmail(email) && !ValidatePhone(telefono))
  {
  }
}
