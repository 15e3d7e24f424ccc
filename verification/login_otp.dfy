/** The login OTP page: it holds the code generated by the login form locally,
    compares the entered code against it, and can replace it with a new one. */
module LoginOtp {
  import opened Wrappers
  import opened Text
  import opened Browser
  import opened OtpInput

  datatype LoginOtpPage = LoginOtpPage(
    entry: Entry,
    email: string,
    phone: string,
    username: string,
    correctOtp: string)

  datatype Entered = Admitted(page: LoginOtpPage) | Redirected(nav: Nav)

  /** The first effect: admit only a login-flow state that carries an email, a
      phone, a name and a code; anything else goes back to `/login` (a push, not
      a replace). */
  function Enter(state: NavState): (r: Entered)
    ensures r.Admitted? <==>
              && Truthy(state, "email") && Truthy(state, "phone") && Truthy(state, "fullName")
              && Field(state, "flow") == Some("login") && Truthy(state, "otp")
    ensures r.Redirected? ==> r.nav == Nav("/login", None, false)
    ensures r.Admitted? ==>
              r.page == LoginOtpPage(Cleared, Field(state, "email").value, Field(state, "phone").value,
                                     Field(state, "fullName").value, Field(state, "otp").value)
  {
    if && Truthy(state, "email") && Truthy(state, "phone") && Truthy(state, "fullName")
       && Field(state, "flow") == Some("login") && Truthy(state, "otp")
    then
      Admitted(LoginOtpPage(Cleared, Field(state, "email").value, Field(state, "phone").value,
                            Field(state, "fullName").value, Field(state, "otp").value))
    else Redirected(Nav("/login", None, false))
  }

  /** The provenance the welcome page expects. */
  function WelcomeNav(page: LoginOtpPage): (nav: Nav)
    ensures nav.path == "/welcome" && !nav.replace
    ensures Field(nav.state, "from") == Some("login") && Field(nav.state, "name") == Some(page.username)
  {
    Nav("/welcome", Some(map["name" := page.username, "from" := "login"]), false)
  }

  datatype Submitted = Submitted(page: LoginOtpPage, nav: Option<Nav>)

  /** `handleSubmit`: a code shorter than six is turned away with nothing changed;
      the held code navigates to `/welcome`; any other six-character code clears
      the cells and refocuses the first. */
  function Submit(page: LoginOtpPage): (r: Submitted)
    ensures r.nav.Some? <==> |Join(page.entry.cells)| == CellCount && Join(page.entry.cells) == page.correctOtp
    ensures r.nav.Some? ==> r.nav.value == WelcomeNav(page) && r.page == page
    ensures |Join(page.entry.cells)| != CellCount ==> r == Submitted(page, None)
    ensures |Join(page.entry.cells)| == CellCount && Join(page.entry.cells) != page.correctOtp ==>
              r == Submitted(page.(entry := Cleared), None)
  {
    var code := Join(page.entry.cells);
    if |code| != CellCount then Submitted(page, None)
    else if code == page.correctOtp then Submitted(page, Some(WelcomeNav(page)))
    else Submitted(page.(entry := Cleared), None)
  }

  /** `handleResend`: the held code is replaced by `newOtp` (random generation is a
      parameter here) and the cells are cleared. */
  function Resend(page: LoginOtpPage, newOtp: string): (p': LoginOtpPage)
    ensures p'.correctOtp == newOtp
    ensures p'.entry == Cleared
    ensures Join(p'.entry.cells) == "" && p'.entry.focus == 0
    ensures p'.email == page.email && p'.phone == page.phone && p'.username == page.username
  {
    ClearedIsEmpty();
    page.(entry := Cleared, correctOtp := newOtp)
  }

  /** The submit button is disabled while the joined code is not six characters. */
  function SubmitDisabled(page: LoginOtpPage): (b: bool)
    ensures !b ==> Submit(page).nav.Some? || Submit(page).page.entry == Cleared
    ensures b ==> Submit(page) == Submitted(page, None)
  {
    |Join(page.entry.cells)| != CellCount
  }

  /** After a resend, an entry completes the login iff it spells the new code: the
      old code no longer works unless the new one happens to equal it. */
  lemma ResendReplacesCode(page: LoginOtpPage, newOtp: string, e: Entry)
    requires |Join(e.cells)| == CellCount
    ensures Submit(Resend(page, newOtp).(entry := e)).nav.Some? <==> Join(e.cells) == newOtp
    ensures Join(e.cells) == page.correctOtp && page.correctOtp != newOtp ==>
              Submit(Resend(page, newOtp).(entry := e)).nav.None?
  {
  }

  /** Typing the held six-digit code by pasting it completes the login. */
  lemma PastedCodeVerifies(page: LoginOtpPage, text: string)
    requires StripNonDigits(text) == page.correctOtp
    requires |page.correctOtp| == CellCount
    ensures Submit(page.(entry := Paste(page.entry, text))).nav == Some(WelcomeNav(page))
  {
  }
}
