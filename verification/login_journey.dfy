/** The login journey across pages: the form's payload is admitted by the login
    OTP page, the held code completes it, and the welcome page accepts the
    provenance it receives. The form navigates to `/login-otp`, a path the
    route table (`src/routes/AppRoutes.tsx`) does not register; these lemmas
    compose the pages as if that path rendered the login OTP page. */
module LoginJourney {
  import opened Wrappers
  import opened Text
  import opened Browser
  import opened AuthStore
  import Login
  import OtpInput
  import LoginOtp
  import OtpVerification
  import WelcomePage

  /** What `Math.floor(100000 + Math.random() * 900000).toString()` yields: six
      digits, the first non-zero. */
  predicate GeneratedCode(otp: string) {
    |otp| == OtpInput.CellCount && AllDigits(otp) && otp[0] != '0'
  }

  /** The name the journey greets: the first word of the matched record's name,
      or "User" when that name is empty. */
  function Greeting(u: User): string {
    FirstWord(if u.fullName != "" then u.fullName else "User")
  }

  /** The OTP page admits what the login form sends on proceed. */
  lemma PayloadAdmitted(email: string, phone: string, name: string, otp: string)
    requires email != "" && phone != "" && name != "" && otp != ""
    ensures LoginOtp.Enter(Login.OtpPayload(email, phone, name, otp))
         == LoginOtp.Admitted(LoginOtp.LoginOtpPage(OtpInput.Cleared, email, phone, name, otp))
  {
    var state := Login.OtpPayload(email, phone, name, otp);
    assert Field(state, "email") == Some(email);
    assert Field(state, "phone") == Some(phone);
    assert Field(state, "fullName") == Some(name);
    assert Field(state, "flow") == Some("login");
    assert Field(state, "otp") == Some(otp);
  }

  /** Pasting the held code and submitting reaches `/welcome`. */
  lemma HeldCodeReachesWelcome(page: LoginOtp.LoginOtpPage, e: OtpInput.Entry)
    requires |page.correctOtp| == OtpInput.CellCount && AllDigits(page.correctOtp)
    ensures LoginOtp.Submit(page.(entry := OtpInput.Paste(e, page.correctOtp))).nav
         == Some(LoginOtp.WelcomeNav(page.(entry := OtpInput.Paste(e, page.correctOtp))))
  {
    OtpInput.PasteRoundTrip(e, page.correctOtp);
  }

  /** The welcome page accepts the provenance the OTP page sends, for any
      non-empty name, and greets its first word. */
  lemma WelcomeAccepts(page: LoginOtp.LoginOtpPage)
    requires page.username != ""
    ensures var w := WelcomePage.Enter(WelcomePage.InitialView, LoginOtp.WelcomeNav(page).state);
            w.view == WelcomePage.WelcomeView(FirstWord(page.username), true) && w.nav.None?
  {
  }

  /** A login that proceeds lands on the welcome page: the OTP page admits the
      payload, pasting the generated code and submitting navigates to `/welcome`,
      and the welcome page allows the visit and greets the matched user. */
  lemma ProceedReachesWelcome(form: Login.LoginForm, st: Storage, otp: string, e: OtpInput.Entry)
    requires GeneratedCode(otp)
    requires Login.IsValidEmail(form.email) && |form.phone| == 10
    requires var users := GetAllUsers(st);
             var m := Login.FirstMention(users, form.email, form.phone);
             m.Some? && users[m.value].email == form.email && users[m.value].phone == form.phone
    ensures Login.HandleLogin(form, st, otp).SendOtp?
    ensures var entered := LoginOtp.Enter(Login.HandleLogin(form, st, otp).nav.state);
            && entered.Admitted?
            && var page := entered.page.(entry := OtpInput.Paste(e, otp));
               && LoginOtp.Submit(page).nav.Some?
               && var users := GetAllUsers(st);
                  var u := users[Login.FirstMention(users, form.email, form.phone).value];
                  var welcome := WelcomePage.Enter(WelcomePage.InitialView, LoginOtp.Submit(page).nav.value.state);
                  && welcome.view.isAllowed && welcome.nav.None?
                  && welcome.view.userName == Greeting(u)
  {
    var users := GetAllUsers(st);
    var u := users[Login.FirstMention(users, form.email, form.phone).value];
    var name := if u.fullName != "" then u.fullName else "User";
    Login.ValidEmailIffPattern(form.email);
    PayloadAdmitted(form.email, form.phone, name, otp);
    var admitted := LoginOtp.LoginOtpPage(OtpInput.Cleared, form.email, form.phone, name, otp);
    HeldCodeReachesWelcome(admitted, e);
    WelcomeAccepts(admitted.(entry := OtpInput.Paste(e, otp)));
  }

  /** On the same page, any other six-character code does not get through. */
  lemma WrongCodeStays(page: LoginOtp.LoginOtpPage)
    requires |OtpInput.Join(page.entry.cells)| == OtpInput.CellCount
    requires OtpInput.Join(page.entry.cells) != page.correctOtp
    ensures LoginOtp.Submit(page).nav.None?
    ensures LoginOtp.Submit(page).page.entry == OtpInput.Cleared
  {
  }

  /** The provider-backed OTP page, for a login with a name, hands the welcome page
      a provenance it accepts, greeting the first word of that name. */
  lemma ProviderLoginWithNameIsWelcomed(page: OtpVerification.OtpPage, env: OtpVerification.Env,
                                        confirm: OtpVerification.Oracle)
    requires page.mode == "login" && page.fullName != ""
    requires OtpVerification.Submit(page, env, confirm).nav.Some?
    ensures var r := OtpVerification.Submit(page, env, confirm);
            var w := WelcomePage.Enter(WelcomePage.InitialView, r.nav.value.state);
            && r.env.storage.isAuthenticated == Some("true")
            && w.view == WelcomePage.WelcomeView(FirstWord(page.fullName), true) && w.nav.None?
  {
  }

  /** The provider-backed OTP page hands the welcome page an empty name when the
      login state carried none, and the welcome page then turns the visit away,
      even though the authentication flag has just been set. */
  lemma ProviderLoginWithoutNameIsTurnedAway(page: OtpVerification.OtpPage, env: OtpVerification.Env,
                                             confirm: OtpVerification.Oracle)
    requires page.mode == "login" && page.fullName == ""
    requires OtpVerification.Submit(page, env, confirm).nav.Some?
    ensures var r := OtpVerification.Submit(page, env, confirm);
            && r.env.storage.isAuthenticated == Some("true")
            && WelcomePage.Enter(WelcomePage.InitialView, r.nav.value.state).nav == Some(Nav("/login", None, true))
  {
  }
}
