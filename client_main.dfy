/** The helpers of the script every page loads: category display names, the
    e-mail and phone validators, the first-n cut of the home page's service
    list, the navigation links shown for a stored session and the icon of an
    alert. The outcome of a form check, shared by the other pages, is
    defined here as well. */
module ClientMain {
  import opened Wrappers
  import opened Strings
  import opened Models

  // ----- category names ----------------------------------------------------

  /** The display names of the five categories. */
  const CategoryNames: map<string, string> := map[
    "masajes" := "Masajes",
    "faciales" := "Faciales",
    "corporales" := "Corporales",
    "relajacion" := "Relajación",
    "belleza" := "Belleza"]

  /** `getCategoryName`: the display name of a category key; any other
      string is shown as it is. */
  function CategoryName(key: string): (name: string)
    ensures ParseCategoria(key).None? ==> name == key
    ensures ParseCategoria(key).Some? ==> name != key && name != [] && IsUpper(name[0])
  {
    if key in CategoryNames then CategoryNames[key] else key
  }

  /** Different categories are shown under different names, and no
      category's display name is some other category's key. */
  lemma CategoryNamesDistinct(c: Categoria, d: Categoria)
    ensures c != d ==> CategoryName(CategoriaName(c)) != CategoryName(CategoriaName(d))
    ensures CategoryName(CategoriaName(c)) != CategoriaName(d)
  {
  }

  // ----- e-mail ------------------------------------------------------------

  /** A character the classes `[^\s@]` of the e-mail pattern accept. */
  predicate EmailChar(c: char) { !IsJsSpace(c) && c != '@' }

  predicate EmailChars(s: string) { forall i :: 0 <= i < |s| ==> EmailChar(s[i]) }

  /** The pattern `^[^\s@]+@[^\s@]+\.[^\s@]+$` spelled out: a non-empty
      local part, an '@', a non-empty part, a '.', a non-empty part, none of
      them holding whitespace or '@'. */
  ghost predicate EmailPattern(s: string) {
    exists i, j :: 0 < i && i + 1 < j < |s| - 1 && s[i] == '@' && s[j] == '.'
                   && EmailChars(s[..i]) && EmailChars(s[i + 1..j]) && EmailChars(s[j + 1..])
  }

  /** The first position of `c` in `s`, if any. */
  function IndexOf(s: string, c: char): (r: Option<nat>)
    ensures r.Some? ==> r.value < |s| && s[r.value] == c && forall k :: 0 <= k < r.value ==> s[k] != c
    ensures r.None? ==> forall k :: 0 <= k < |s| ==> s[k] != c
  {
    if s == [] then None
    else if s[0] == c then Some(0)
    else
      var r := IndexOf(s[1..], c);
      if r.None? then None else Some(r.value + 1)
  }

  /** `d` has a '.' that is neither its first nor its last character. */
  predicate HasInnerDot(d: string) {
    exists p :: 0 < p < |d| - 1 && d[p] == '.'
  }

  /** `validateEmail`: one '@' splitting the address into a non-empty local
      part and a domain with an inner '.', and no whitespace anywhere. */
  function ValidateEmail(email: string): bool {
    var at := IndexOf(email, '@');
    && at.Some? && at.value > 0
    && EmailChars(email[..at.value])
    && EmailChars(email[at.value + 1..])
    && HasInnerDot(email[at.value + 1..])
  }

  /** The validator accepts exactly the strings the pattern matches. */
  lemma ValidateEmailMatchesPattern(email: string)
    ensures ValidateEmail(email) <==> EmailPattern(email)
  {
    if ValidateEmail(email) {
      ValidEmailMatches(email);
    }
    if EmailPattern(email) {
      var i, j :| 0 < i && i + 1 < j < |email| - 1 && email[i] == '@' && email[j] == '.'
                  && EmailChars(email[..i]) && EmailChars(email[i + 1..j]) && EmailChars(email[j + 1..]);
      MatchingEmailValid(email, i, j);
    }
  }

  lemma ValidEmailMatches(email: string)
    requires ValidateEmail(email)
    ensures EmailPattern(email)
  {
    var i := IndexOf(email, '@').value;
    var d := email[i + 1..];
    var p :| 0 < p < |d| - 1 && d[p] == '.';
    var j := i + 1 + p;
    assert email[i + 1..j] == d[..p];
    assert email[j + 1..] == d[p + 1..];
    assert EmailChars(d[..p]) && EmailChars(d[p + 1..]);
  }

  lemma MatchingEmailValid(email: string, i: nat, j: nat)
    requires 0 < i && i + 1 < j < |email| - 1 && email[i] == '@' && email[j] == '.'
    requires EmailChars(email[..i]) && EmailChars(email[i + 1..j]) && EmailChars(email[j + 1..])
    ensures ValidateEmail(email)
  {
    forall k | 0 <= k < i ensures email[k] != '@' {
      assert email[..i][k] == email[k];
    }
    assert IndexOf(email, '@') == Some(i);
    var d := email[i + 1..];
    forall k | 0 <= k < |d| ensures EmailChar(d[k]) {
      if k < j - i - 1 {
        assert d[k] == email[i + 1..j][k];
      } else if k > j - i - 1 {
        assert d[k] == email[j + 1..][k - (j - i)];
      }
    }
    assert d[j - i - 1] == '.';
  }

  // ----- phone, the loose rule ---------------------------------------------

  /** A character `phone.replace(/\s|-|\(|\)/g, '')` removes. */
  predicate Separator(c: char) { IsJsSpace(c) || c == '-' || c == '(' || c == ')' }

  function StripSeparators(s: string): (t: string)
    ensures forall k :: 0 <= k < |t| ==> !Separator(t[k])
    ensures |t| <= |s|
  {
    if s == [] then []
    else (if Separator(s[0]) then [] else [s[0]]) + StripSeparators(s[1..])
  }

  /** `validatePhone` of the shared script: after removing separators, an
      optional '+', a digit 1 to 9, then at most 15 more digits. */
  function ValidatePhoneLoose(phone: string): (ok: bool)
    ensures ok <==> var t := StripSeparators(phone);
                   t != [] && var body := if t[0] == '+' then t[1..] else t;
                   1 <= |body| <= 16 && AllDigits(body) && body[0] != '0'
  {
    var t := StripSeparators(phone);
    var body := if t != [] && t[0] == '+' then t[1..] else t;
    body != [] && '1' <= body[0] <= '9' && AllDigits(body[1..]) && |body[1..]| <= 15
  }

  /** Removing separators from a concatenation removes them from each part. */
  lemma {:induction false} StripSeparatorsOfConcat(a: string, b: string)
    ensures StripSeparators(a + b) == StripSeparators(a) + StripSeparators(b)
  {
    if a == [] {
      assert a + b == b;
    } else {
      assert (a + b)[1..] == a[1..] + b;
      StripSeparatorsOfConcat(a[1..], b);
    }
  }

  /** A string without separators is kept as it is. */
  lemma {:induction false} StripSeparatorsOfClean(s: string)
    requires forall k :: 0 <= k < |s| ==> !Separator(s[k])
    ensures StripSeparators(s) == s
  {
    if s != [] {
      StripSeparatorsOfClean(s[1..]);
    }
  }

  /** So removing separators keeps every other character, in order, and
      doing it twice changes nothing more. */
  lemma StripSeparatorsIdempotent(s: string)
    ensures StripSeparators(StripSeparators(s)) == StripSeparators(s)
  {
    StripSeparatorsOfClean(StripSeparators(s));
  }

  /** A string of digits with no leading zero and 1 to 16 digits passes. */
  lemma PlainNumberPassesLoose(phone: string)
    requires AllDigits(phone) && 1 <= |phone| <= 16 && phone[0] != '0'
    ensures ValidatePhoneLoose(phone)
  {
    StripSeparatorsOfDigits(phone);
  }

  lemma StripSeparatorsOfDigits(s: string)
    requires AllDigits(s)
    ensures StripSeparators(s) == s
  {
    StripSeparatorsOfClean(s);
  }

  // ----- the home page's list ----------------------------------------------

  /** The end index `slice(0, end)` uses on a list of length `n`: a negative
      end counts from the back, and the result is clamped to `0..n`. */
  function SliceEnd(n: nat, end: int): (e: nat)
    ensures e <= n
    ensures 0 <= end ==> e == if end < n then end else n
    ensures end < 0 ==> e == if n + end < 0 then 0 else n + end
  {
    if end < 0 then (if n + end < 0 then 0 else n + end)
    else if end < n then end else n
  }

  /** `loadServices(limit = 6)` shows `services.slice(0, limit)`. */
  function FirstServices(services: seq<Service>, limit: Option<int>): (shown: seq<Service>)
    ensures shown <= services
    ensures limit.None? ==> |shown| == if |services| < 6 then |services| else 6
    ensures limit.Some? && limit.value >= 0 ==>
              |shown| == if |services| < limit.value then |services| else limit.value
  {
    services[..SliceEnd(|services|, if limit.None? then 6 else limit.value)]
  }

  /** A negative limit drops services from the back instead. */
  lemma NegativeLimitDropsFromBack(services: seq<Service>, k: nat)
    requires 0 < k <= |services|
    ensures FirstServices(services, Some(-(k as int))) == services[..|services| - k]
  {
  }

  // ----- session and navigation --------------------------------------------

  /** The stored user object; only its `id` is looked at. */
  datatype StoredUser = StoredUser(id: Option<string>)

  /** JavaScript truthiness of a string that may be missing. */
  predicate Truthy(s: Option<string>) { s.Some? && s.value != "" }

  /** Which of the login, logout and profile links are shown. */
  datatype Navigation = Navigation(login: bool, logout: bool, profile: bool)

  /** `checkAuthentication`: with no stored user the object `{}` stands in,
      whose `id` is missing; the session counts when both the token and the
      user's id are truthy. */
  function NavigationFor(token: Option<string>, user: Option<StoredUser>): (nav: Navigation)
    ensures nav.logout == nav.profile && nav.login == !nav.logout
    ensures nav.logout <==> Truthy(token) && user.Some? && Truthy(user.value.id)
  {
    var u := if user.None? then StoredUser(None) else user.value;
    var signedIn := Truthy(token) && Truthy(u.id);
    Navigation(!signedIn, signedIn, signedIn)
  }

  // ----- alerts and form outcomes ------------------------------------------

  /** `showAlert`'s icon: a check for 'success' (the default type), an
      exclamation mark for any other type. */
  function AlertIcon(kind: Option<string>): (icon: string)
    ensures icon == "alert-icon fas fa-check-circle" <==> kind.None? || kind.value == "success"
    ensures icon != "alert-icon fas fa-check-circle" ==> icon == "alert-icon fas fa-exclamation-circle"
  {
    var t := if kind.None? then "success" else kind.value;
    if t == "success" then "alert-icon fas fa-check-circle"
    else "alert-icon fas fa-exclamation-circle"
  }

  /** What a form's submit handler does before any request: nothing at all,
      an error alert with a message, or send the request. */
  datatype Outcome = Ignored | Rejected(message: string) | Sent
}
