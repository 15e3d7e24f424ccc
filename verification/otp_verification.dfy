/** The shared OTP page: its entry guard, and submission against the phone
    provider's confirmation handle, which is an opaque oracle here. */
module OtpVerification {
  import opened Wrappers
  import opened Browser
  import opened AuthStore
  import opened OtpInput

  /** The provider's pending confirmation (`window.confirmationResult`), by identity. */
  datatype Challenge = Challenge(id: nat)

  /** `confirmationResult.confirm(code)`: resolves (true) or rejects (false). */
  type Oracle = (Challenge, string) -> bool

  /** What lives outside the component: durable storage and the global handle. */
  datatype Env = Env(storage: Storage, confirmation: Option<Challenge>)

  /** The component's state once loaded. */
  datatype OtpPage = OtpPage(
    entry: Entry,
    phone: string,
    email: string,
    fullName: string,
    mode: string,
    isVerifying: bool)

  datatype Entered = Admitted(page: OtpPage) | Redirected(nav: Nav)

  /** `state.x || ''` */
  function OrEmpty(state: NavState, key: string): string {
    Field(state, key).GetOr("")
  }

  /** The first effect: admit when the navigation state carries a flow and a phone
      and a confirmation handle exists; otherwise replace the entry with `/login`
      for the login flow and `/signup` for anything else. */
  function Enter(state: NavState, env: Env): (r: Entered)
    ensures r.Admitted? <==> Truthy(state, "flow") && Truthy(state, "phone") && env.confirmation.Some?
    ensures r.Redirected? ==>
              r.nav == Nav(if Field(state, "flow") == Some("login") then "/login" else "/signup", None, true)
    ensures r.Admitted? ==>
              && r.page.mode == Field(state, "flow").value
              && r.page.phone == Field(state, "phone").value
              && r.page.email == Field(state, "email").GetOr("")
              && r.page.fullName == Field(state, "fullName").GetOr("")
              && r.page.entry == Cleared
              && !r.page.isVerifying
  {
    var failurePath := if Field(state, "flow") == Some("login") then "/login" else "/signup";
    if Truthy(state, "flow") && Truthy(state, "phone") && env.confirmation.Some? then
      Admitted(OtpPage(Cleared, Field(state, "phone").value, OrEmpty(state, "email"),
                       OrEmpty(state, "fullName"), Field(state, "flow").value, false))
    else Redirected(Nav(failurePath, None, true))
  }

  /** The provenance handed forward after a confirmed code. */
  function NextStep(page: OtpPage): (nav: Nav)
    ensures nav.replace
    ensures page.mode == "login" ==>
              nav.path == "/welcome" && Field(nav.state, "from") == Some("login")
              && Field(nav.state, "name") == Some(page.fullName)
    ensures page.mode != "login" ==>
              nav.path == "/create-account" && Field(nav.state, "from") == Some("otp-verified")
              && Field(nav.state, "name").None?
  {
    if page.mode == "login" then Nav("/welcome", Some(map["from" := "login", "name" := page.fullName]), true)
    else Nav("/create-account", Some(map["from" := "otp-verified"]), true)
  }

  datatype Submitted = Submitted(page: OtpPage, env: Env, nav: Option<Nav>)

  /** `handleSubmit`: an incomplete code or a missing handle is turned away with
      nothing changed; a confirmed code sets the `isAuthenticated` flag, drops the
      handle and navigates forward; a refused code clears the cells and refocuses
      the first one. The in-progress flag is always reset afterwards. */
  function Submit(page: OtpPage, env: Env, confirm: Oracle): (r: Submitted)
    ensures r.nav.Some? <==>
              |Join(page.entry.cells)| == CellCount && env.confirmation.Some?
              && confirm(env.confirmation.value, Join(page.entry.cells))
    ensures r.nav.Some? ==>
              && r.nav.value == NextStep(page)
              && r.env == Env(env.storage.(isAuthenticated := Some("true")), None)
              && r.page == page.(isVerifying := false)
    ensures r.nav.None? ==> r.env == env
    ensures r.nav.None? && (|Join(page.entry.cells)| != CellCount || env.confirmation.None?) ==>
              r.page == page.(isVerifying := false)
    ensures r.nav.None? && |Join(page.entry.cells)| == CellCount && env.confirmation.Some? ==>
              r.page == page.(entry := Cleared, isVerifying := false)
    ensures r.env.storage.isAuthenticated != env.storage.isAuthenticated ==>
              env.confirmation.Some? && confirm(env.confirmation.value, Join(page.entry.cells))
  {
    var code := Join(page.entry.cells);
    if |code| != CellCount || env.confirmation.None? then
      Submitted(page.(isVerifying := false), env, None)
    else if confirm(env.confirmation.value, code) then
      Submitted(page.(isVerifying := false),
                Env(env.storage.(isAuthenticated := Some("true")), None),
                Some(NextStep(page)))
    else
      Submitted(page.(entry := Cleared, isVerifying := false), env, None)
  }

  /** The submit button is disabled while the code is short or a check is running. */
  function SubmitDisabled(page: OtpPage): (b: bool)
    ensures !b ==> |Join(page.entry.cells)| == CellCount && !page.isVerifying
    ensures page.isVerifying ==> b
  {
    |Join(page.entry.cells)| != CellCount || page.isVerifying
  }

  /** With well-formed cells the button is enabled exactly when all six cells are
      filled and no check is running. */
  lemma SubmitEnabledIffFilled(page: OtpPage)
    requires WellFormed(page.entry.cells)
    ensures !SubmitDisabled(page) <==>
              !page.isVerifying && forall i :: 0 <= i < CellCount ==> page.entry.cells[i] != ""
  {
    CodeCompleteIffAllFilled(page.entry.cells);
  }

  /** `handleBack`: back to the start of the page's flow. */
  function Back(page: OtpPage): (nav: Nav)
    ensures nav.path == "/login" <==> page.mode == "login"
    ensures nav.path != "/login" ==> nav.path == "/signup"
    ensures !nav.replace && nav.state.None?
  {
    Nav(if page.mode == "login" then "/login" else "/signup", None, false)
  }

  /** Back leads where a refused entry would have been sent: on a page `Enter`
      admitted, `/login` for the login flow and `/signup` for any other. */
  lemma BackMatchesEntryRedirect(state: NavState, env: Env)
    requires Enter(state, env).Admitted?
    ensures Back(Enter(state, env).page).path
         == (if Field(state, "flow") == Some("login") then "/login" else "/signup")
  {
  }

  /** Confirmation is one-shot: a successful submit consumes the handle, so a
      second submit is turned away and changes nothing further. */
  lemma ConfirmedOnce(page: OtpPage, env: Env, confirm: Oracle)
    requires Submit(page, env, confirm).nav.Some?
    ensures var r := Submit(page, env, confirm);
            var r2 := Submit(r.page, r.env, confirm);
            r2.nav.None? && r2.env == r.env && r2.page == r.page
  {
  }

  /** A refused code leaves a well-formed, empty entry with the first cell focused,
      the flag and handle untouched, so the user can retry. */
  lemma RefusedCodeRetries(page: OtpPage, env: Env, confirm: Oracle)
    requires |Join(page.entry.cells)| == CellCount && env.confirmation.Some?
    requires !confirm(env.confirmation.value, Join(page.entry.cells))
    ensures var r := Submit(page, env, confirm);
            && WellFormed(r.page.entry.cells) && Join(r.page.entry.cells) == ""
            && r.page.entry.focus == 0 && r.env == env && r.nav.None?
  {
    ClearedIsEmpty();
  }
}
