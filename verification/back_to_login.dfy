/** The "account created" page: reachable only with a name in the navigation
    state; it clears the current session record and sends the user to log in. */
module BackToLogin {
  import opened Wrappers
  import opened Browser
  import opened AuthStore

  datatype BackView = BackView(userName: string, isAllowed: bool)

  const InitialView := BackView("", false)

  datatype Step = Step(view: BackView, storage: Storage, nav: Option<Nav>)

  /** The effect: a non-empty name is shown and `auth_session` is removed; without
      one, the entry is replaced with `/home` and storage is left alone. */
  function Enter(view: BackView, state: NavState, st: Storage): (r: Step)
    ensures Truthy(state, "name") ==>
              && r.view == BackView(Field(state, "name").value, true)
              && r.storage == ClearUserSession(st)
              && r.nav.None?
    ensures !Truthy(state, "name") ==> r == Step(view, st, Some(Nav("/home", None, true)))
    ensures GetUserSession(r.storage).Some? ==> !Truthy(state, "name")
    ensures GetAllUsers(r.storage) == GetAllUsers(st) && r.storage.isAuthenticated == st.isAuthenticated
  {
    if Truthy(state, "name") then Step(BackView(Field(state, "name").value, true), ClearUserSession(st), None)
    else Step(view, st, Some(Nav("/home", None, true)))
  }

  /** The page renders content only once access was allowed. */
  function Renders(view: BackView): bool {
    view.isAllowed
  }

  /** On a fresh page, content appears iff the state carries a name. */
  lemma FreshVisit(state: NavState, st: Storage)
    ensures Renders(Enter(InitialView, state, st).view) <==> Truthy(state, "name")
  {
  }

  /** `handleLoginNow`: to `/login`, replacing the entry. */
  function LoginNow(view: BackView): (nav: Nav)
    ensures nav.path == "/login" && nav.replace && nav.state.None?
  {
    Nav("/login", None, true)
  }

  /** A visit with a name, followed by "Log In Now", reaches `/login` with the
      session record removed and the user list and auth flag as they were. */
  lemma VisitThenLogin(state: NavState, st: Storage)
    requires Truthy(state, "name")
    ensures var r := Enter(InitialView, state, st);
            && LoginNow(r.view) == Nav("/login", None, true)
            && GetUserSession(r.storage).None?
            && GetAllUsers(r.storage) == GetAllUsers(st)
            && r.storage.isAuthenticated == st.isAuthenticated
  {
  }
}
