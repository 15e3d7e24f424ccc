/** The login form: its input filter, the email and phone checks, the dual
    directory lookup with its ordered decision chain, and the payload handed to
    the login OTP page. */
module Login {
  import opened Wrappers
  import opened Text
  import opened Browser
  import opened AuthStore

  datatype Field = EmailField | PhoneField

  datatype LoginForm = LoginForm(email: string, phone: string)

  /** The component's state: the form and the error line shown above it. */
  datatype LoginPage = LoginPage(form: LoginForm, error: string)

  const InitialLoginPage := LoginPage(LoginForm("", ""), "")

  /** What the phone field can hold: at most ten ASCII digits. */
  predicate PhoneWellFormed(form: LoginForm) {
    AllDigits(form.phone) && |form.phone| <= 10
  }

  // ------------------------------------------------------------ input change

  /** `handleInputChange`: the phone keeps only digits and ignores an edit whose
      digits exceed ten; the email is stored verbatim; any edit clears the error. */
  function HandleInputChange(page: LoginPage, field: Field, value: string): (p': LoginPage)
    ensures p'.error == ""
    ensures field == EmailField ==> p'.form == page.form.(email := value)
    ensures field == PhoneField ==> p'.form.email == page.form.email
    ensures field == PhoneField && |StripNonDigits(value)| <= 10 ==>
              p'.form.phone == StripNonDigits(value)
    ensures field == PhoneField && |StripNonDigits(value)| > 10 ==>
              p'.form.phone == page.form.phone
    ensures PhoneWellFormed(page.form) ==> PhoneWellFormed(p'.form)
  {
    var form' :=
      match field
      case PhoneField =>
        var digits := StripNonDigits(value);
        if |digits| <= 10 then page.form.(phone := digits) else page.form
      case EmailField => page.form.(email := value);
    LoginPage(form', "")
  }

  /** Every page reachable by typing keeps a well-formed phone field. */
  function TypeAll(page: LoginPage, edits: seq<(Field, string)>): LoginPage
    decreases |edits|
  {
    if edits == [] then page
    else TypeAll(HandleInputChange(page, edits[0].0, edits[0].1), edits[1..])
  }

  lemma {:induction false} TypingKeepsPhoneWellFormed(page: LoginPage, edits: seq<(Field, string)>)
    requires PhoneWellFormed(page.form)
    ensures PhoneWellFormed(TypeAll(page, edits).form)
    decreases |edits|
  {
    if edits != [] {
      TypingKeepsPhoneWellFormed(HandleInputChange(page, edits[0].0, edits[0].1), edits[1..]);
    }
  }

  /** From the page as first shown, whatever is typed leaves at most ten digits in
      the phone field. */
  lemma TypingFromStart(edits: seq<(Field, string)>)
    ensures PhoneWellFormed(TypeAll(InitialLoginPage, edits).form)
  {
    TypingKeepsPhoneWellFormed(InitialLoginPage, edits);
  }

  /** The "Send OTP" button is enabled iff the phone has ten characters and the
      email is non-empty. */
  function SubmitEnabled(form: LoginForm): (b: bool)
    ensures b ==> |form.phone| == 10 && form.email != ""
    ensures !b ==> |form.phone| != 10 || form.email == ""
  {
    !(|form.phone| != 10 || form.email == "")
  }

  /** An enabled button never leads to the phone-length rejection. */
  lemma EnabledPassesPhoneCheck(form: LoginForm, st: Storage, otp: string)
    requires SubmitEnabled(form)
    ensures HandleLogin(form, st, otp) != Rejected(InvalidPhone)
  {
  }

  // ------------------------------------------------------------------ email

  /** `[^\s@]` */
  predicate IsEmailChar(c: char) {
    !IsWhitespace(c) && c != '@'
  }

  predicate AllEmailChars(s: string) {
    forall k :: 0 <= k < |s| ==> IsEmailChar(s[k])
  }

  /** `/^[^\s@]+@[^\s@]+\.[^\s@]+$/`, read literally: three non-empty runs of
      `[^\s@]`, the first two separated by `@` at `i`, the last two by `.` at `j`. */
  ghost predicate EmailPattern(s: string) {
    exists i, j :: 0 < i && i + 1 < j && j + 1 < |s| && s[i] == '@' && s[j] == '.'
      && AllEmailChars(s[..i]) && AllEmailChars(s[i + 1..j]) && AllEmailChars(s[j + 1..])
  }

  /** The position of the first `c` in `s`. */
  function IndexOf(s: string, c: char): (r: Option<nat>)
    ensures r.Some? ==> r.value < |s| && s[r.value] == c
    ensures r.Some? ==> forall k :: 0 <= k < r.value ==> s[k] != c
    ensures r.None? <==> forall k :: 0 <= k < |s| ==> s[k] != c
  {
    if s == [] then None
    else if s[0] == c then Some(0)
    else match IndexOf(s[1..], c)
      case None => None
      case Some(i) => Some(i + 1)
  }

  /** The check `handleLogin` applies to the email: non-empty, no whitespace,
      exactly one `@` with something before it, and a `.` strictly inside the
      part after the `@`. */
  function IsValidEmail(s: string): (b: bool)
    ensures b ==> |s| >= 5
    ensures b ==> s[0] != '@' && exists i :: 0 < i < |s| && s[i] == '@'
    ensures b ==> forall k :: 0 <= k < |s| ==> !IsWhitespace(s[k])
  {
    && s != ""
    && (forall k :: 0 <= k < |s| ==> !IsWhitespace(s[k]))
    && match IndexOf(s, '@')
       case None => false
       case Some(i) =>
         && 0 < i
         && (forall k :: i < k < |s| ==> s[k] != '@')
         && exists j :: i + 1 < j < |s| - 1 && s[j] == '.'
  }

  lemma AllEmailCharsSlice(s: string, lo: nat, hi: nat)
    requires lo <= hi <= |s|
    ensures AllEmailChars(s[lo..hi]) <==> forall k :: lo <= k < hi ==> IsEmailChar(s[k])
  {
    assert forall k :: lo <= k < hi ==> s[lo..hi][k - lo] == s[k];
  }

  lemma ValidEmailImpliesPattern(s: string)
    requires IsValidEmail(s)
    ensures EmailPattern(s)
  {
    var i := IndexOf(s, '@').value;
    var j :| i + 1 < j < |s| - 1 && s[j] == '.';
    AllEmailCharsSlice(s, 0, i);
    AllEmailCharsSlice(s, i + 1, j);
    AllEmailCharsSlice(s, j + 1, |s|);
  }

  lemma PatternImpliesValidEmail(s: string)
    requires EmailPattern(s)
    ensures IsValidEmail(s)
  {
    var i, j :| 0 < i && i + 1 < j && j + 1 < |s| && s[i] == '@' && s[j] == '.'
      && AllEmailChars(s[..i]) && AllEmailChars(s[i + 1..j]) && AllEmailChars(s[j + 1..]);
    AllEmailCharsSlice(s, 0, i);
    AllEmailCharsSlice(s, i + 1, j);
    AllEmailCharsSlice(s, j + 1, |s|);
    assert forall k :: 0 <= k < |s| && k != i ==> IsEmailChar(s[k]);
    var r := IndexOf(s, '@');
    assert r.Some? && r.value <= i;
    assert r.value == i;
  }

  /** The operational check and the regular expression accept the same strings. */
  lemma ValidEmailIffPattern(s: string)
    ensures IsValidEmail(s) <==> EmailPattern(s)
  {
    if IsValidEmail(s) { ValidEmailImpliesPattern(s); }
    if EmailPattern(s) { PatternImpliesValidEmail(s); }
  }

  // --------------------------------------------------------- decision chain

  datatype LoginError = InvalidEmail | InvalidPhone | NoAccount | PhoneMismatch | EmailMismatch

  /** The text `handleLogin` puts in the error line for each rejection. */
  function ErrorMessage(e: LoginError): (m: string)
    ensures m != ""
  {
    match e
    case InvalidEmail => "Please enter a valid email address"
    case InvalidPhone => "Please enter a valid 10-digit phone number"
    case NoAccount => "No account found with this email or phone. Please sign up first."
    case PhoneMismatch => "The phone number does not match our records for this email."
    case EmailMismatch => "The email does not match our records for this phone number."
  }

  datatype Decision = Reject(error: LoginError) | Proceed(fullName: string)

  /** `user?.fullName || 'User'` with `user = userByEmail && userByPhone`. */
  function DisplayName(byEmail: Option<User>, byPhone: Option<User>): string {
    if byEmail.Some? && byPhone.Some? && byPhone.value.fullName != "" then byPhone.value.fullName
    else "User"
  }

  /** The ordered chain of `handleLogin` over the two lookups, as written. */
  function Chain(byEmail: Option<User>, byPhone: Option<User>, email: string, phone: string): (d: Decision)
    ensures d == Reject(NoAccount) <==> byEmail.None? && byPhone.None?
    ensures d.Proceed? <==>
              && (byEmail.Some? || byPhone.Some?)
              && (byEmail.Some? ==> byEmail.value.phone == phone)
              && (byPhone.Some? ==> byPhone.value.email == email)
    ensures d.Proceed? ==> d.fullName != ""
  {
    if byEmail.None? && byPhone.None? then Reject(NoAccount)
    else if byEmail.Some? && byEmail.value.phone != phone then Reject(PhoneMismatch)
    else if byPhone.Some? && byPhone.value.email != email then Reject(EmailMismatch)
    else Proceed(DisplayName(byEmail, byPhone))
  }

  /** The per-case decision table: one outcome per combination of the two lookups.
      Both misses mean no account; an email hit alone is a phone mismatch and a
      phone hit alone an email mismatch; with both hits, the email record's phone
      is checked first, then the phone record's email, and otherwise the login
      proceeds with the phone record's name, or "User" when it is empty. */
  function DecisionTable(byEmail: Option<User>, byPhone: Option<User>, email: string, phone: string): Decision {
    match (byEmail, byPhone)
    case (None, None) => Reject(NoAccount)
    case (Some(_), None) => Reject(PhoneMismatch)
    case (None, Some(_)) => Reject(EmailMismatch)
    case (Some(e), Some(p)) =>
      if e.phone != phone then Reject(PhoneMismatch)
      else if p.email != email then Reject(EmailMismatch)
      else Proceed(if p.fullName != "" then p.fullName else "User")
  }

  /** On two lookups taken from one directory, the chain as written agrees with the
      decision table; it differs only on lookup pairs no directory produces. */
  lemma ChainMatchesTable(st: Storage, email: string, phone: string)
    ensures Chain(FindUser(st, email), FindUser(st, phone), email, phone)
         == DecisionTable(FindUser(st, email), FindUser(st, phone), email, phone)
  {
    var byEmail, byPhone := FindUser(st, email), FindUser(st, phone);
    if byEmail.Some? && byEmail.value.phone == phone {
      assert Matches(byEmail.value, phone);
    }
    if byPhone.Some? && byPhone.value.email == email {
      assert Matches(byPhone.value, email);
    }
  }

  /** Off a directory the two disagree: a single hit whose record carries the
      other typed identifier as well makes the chain proceed where the table
      rejects, whether the hit is by email or by phone. */
  lemma ChainDiffersOffDirectory()
    ensures var u := User("A", "a@x.io", "1111111111", "");
            Chain(Some(u), None, "a@x.io", "1111111111") == Proceed("User")
            && DecisionTable(Some(u), None, "a@x.io", "1111111111") == Reject(PhoneMismatch)
    ensures var u := User("A", "a@x.io", "1111111111", "");
            Chain(None, Some(u), "a@x.io", "1111111111") == Proceed("User")
            && DecisionTable(None, Some(u), "a@x.io", "1111111111") == Reject(EmailMismatch)
  {
  }

  /** The chain and the table disagree on exactly those two shapes of lookups: one
      lookup misses and the other hits a record carrying both typed identifiers. */
  lemma ChainDiffersExactly(byEmail: Option<User>, byPhone: Option<User>, email: string, phone: string)
    ensures Chain(byEmail, byPhone, email, phone) != DecisionTable(byEmail, byPhone, email, phone) <==>
              || (byEmail.Some? && byPhone.None? && byEmail.value.phone == phone)
              || (byEmail.None? && byPhone.Some? && byPhone.value.email == email)
  {
  }

  /** The first record in list order that carries `email` or `phone` as one of its
      identifiers. */
  function FirstMention(users: seq<User>, email: string, phone: string): (r: Option<nat>)
    ensures r.Some? ==> r.value < |users| && (Matches(users[r.value], email) || Matches(users[r.value], phone))
    ensures r.Some? ==> forall j :: 0 <= j < r.value ==> !Matches(users[j], email) && !Matches(users[j], phone)
    ensures r.None? ==> forall j :: 0 <= j < |users| ==> !Matches(users[j], email) && !Matches(users[j], phone)
  {
    if users == [] then None
    else if Matches(users[0], email) || Matches(users[0], phone) then Some(0)
    else match FirstMention(users[1..], email, phone)
      case None => None
      case Some(i) => Some(i + 1)
  }

  /** The chain proceeds exactly when the first record mentioning either identifier
      is the record with this email and this phone; both lookups then return that
      same record, so identifiers taken from two different records never proceed. */
  lemma {:induction false} ProceedIffFirstMentionMatches(st: Storage, email: string, phone: string)
    ensures var users := GetAllUsers(st);
            var byEmail, byPhone := FindUser(st, email), FindUser(st, phone);
            var m := FirstMention(users, email, phone);
            && (Chain(byEmail, byPhone, email, phone).Proceed? <==>
                  m.Some? && users[m.value].email == email && users[m.value].phone == phone)
            && (Chain(byEmail, byPhone, email, phone).Proceed? ==>
                  byEmail == byPhone == Some(users[m.value]))
  {
    var users := GetAllUsers(st);
    var i, j := FirstMatch(users, email), FirstMatch(users, phone);
    var m := FirstMention(users, email, phone);
    var d := Chain(FindUser(st, email), FindUser(st, phone), email, phone);
    if d.Proceed? {
      // the email hit carries the phone, the phone hit carries the email
      if i.Some? { assert Matches(users[i.value], phone); }
      if j.Some? { assert Matches(users[j.value], email); }
      assert i.Some? && j.Some?;
      assert i.value == j.value;
      assert m.Some? && m.value <= i.value;
      assert m == i;
    }
    if m.Some? && users[m.value].email == email && users[m.value].phone == phone {
      assert Matches(users[m.value], email) && Matches(users[m.value], phone);
      assert i == Some(m.value);
      assert j == Some(m.value);
    }
  }

  /** The cross-matched case: when both lookups hit but on different records, the
      outcome is a mismatch error, never proceed. */
  lemma CrossMatchedNeverProceeds(st: Storage, email: string, phone: string)
    requires FindUser(st, email).Some? && FindUser(st, phone).Some?
    requires FindUser(st, email) != FindUser(st, phone)
    ensures Chain(FindUser(st, email), FindUser(st, phone), email, phone).Reject?
    ensures Chain(FindUser(st, email), FindUser(st, phone), email, phone).error in {PhoneMismatch, EmailMismatch}
  {
    ProceedIffFirstMentionMatches(st, email, phone);
  }

  /** In a directory whose records never share an identifier, login proceeds iff
      some record holds exactly this email and this phone. */
  lemma ProceedIffRegisteredPair(st: Storage, email: string, phone: string)
    requires DisjointIdentifiers(GetAllUsers(st))
    ensures Chain(FindUser(st, email), FindUser(st, phone), email, phone).Proceed? <==>
            exists k :: 0 <= k < |GetAllUsers(st)| &&
              GetAllUsers(st)[k].email == email && GetAllUsers(st)[k].phone == phone
  {
    var users := GetAllUsers(st);
    ProceedIffFirstMentionMatches(st, email, phone);
    var m := FirstMention(users, email, phone);
    if k :| 0 <= k < |users| && users[k].email == email && users[k].phone == phone {
      forall n | 0 <= n < |users| && n != k
        ensures !Matches(users[n], email) && !Matches(users[n], phone)
      {
        assert !Matches(users[k], users[n].email) && !Matches(users[k], users[n].phone);
      }
      assert Matches(users[k], email);
      assert m.Some?;
      assert m.value == k;
    }
  }

  // ---------------------------------------------------------------- submit

  datatype LoginOutcome = Rejected(error: LoginError) | SendOtp(nav: Nav)

  /** The state handed to the login OTP page. */
  function OtpPayload(email: string, phone: string, fullName: string, otp: string): NavState {
    Some(map["email" := email, "phone" := phone, "fullName" := fullName, "flow" := "login", "otp" := otp])
  }

  /** `handleLogin`: the email check, then the phone length, then the chain over
      the two lookups; on proceed, navigation to `/login-otp` with the identity and
      the generated code `otp` (random generation is a parameter here). */
  function HandleLogin(form: LoginForm, st: Storage, otp: string): (r: LoginOutcome)
    ensures r == Rejected(InvalidEmail) <==> !EmailPattern(form.email)
    ensures r == Rejected(InvalidPhone) <==> EmailPattern(form.email) && |form.phone| != 10
    ensures r == Rejected(NoAccount) <==>
              EmailPattern(form.email) && |form.phone| == 10
              && !UserExists(st, form.email) && !UserExists(st, form.phone)
    ensures r == Rejected(PhoneMismatch) <==>
              EmailPattern(form.email) && |form.phone| == 10
              && FindUser(st, form.email).Some? && FindUser(st, form.email).value.phone != form.phone
    ensures r == Rejected(EmailMismatch) <==>
              EmailPattern(form.email) && |form.phone| == 10
              && (FindUser(st, form.email).None? || FindUser(st, form.email).value.phone == form.phone)
              && FindUser(st, form.phone).Some? && FindUser(st, form.phone).value.email != form.email
    ensures r.SendOtp? <==>
              && EmailPattern(form.email) && |form.phone| == 10
              && var m := FirstMention(GetAllUsers(st), form.email, form.phone);
                 m.Some? && GetAllUsers(st)[m.value].email == form.email
                 && GetAllUsers(st)[m.value].phone == form.phone
    ensures r.SendOtp? ==>
              var u := GetAllUsers(st)[FirstMention(GetAllUsers(st), form.email, form.phone).value];
              r.nav == Nav("/login-otp",
                           OtpPayload(form.email, form.phone, if u.fullName != "" then u.fullName else "User", otp),
                           false)
  {
    ValidEmailIffPattern(form.email);
    ProceedIffFirstMentionMatches(st, form.email, form.phone);
    if !IsValidEmail(form.email) then Rejected(InvalidEmail)
    else if |form.phone| != 10 then Rejected(InvalidPhone)
    else
      match Chain(FindUser(st, form.email), FindUser(st, form.phone), form.email, form.phone)
      case Reject(e) => Rejected(e)
      case Proceed(name) => SendOtp(Nav("/login-otp", OtpPayload(form.email, form.phone, name, otp), false))
  }

  /** The page after submitting: a rejection shows its message and the form stays;
      a navigation leaves the page as it was. */
  function ShowOutcome(page: LoginPage, r: LoginOutcome): (p': LoginPage)
    ensures p'.form == page.form
    ensures r.Rejected? ==> p'.error == ErrorMessage(r.error) && p'.error != ""
    ensures r.SendOtp? ==> p' == page
  {
    match r
    case Rejected(e) => page.(error := ErrorMessage(e))
    case SendOtp(_) => page
  }

}
