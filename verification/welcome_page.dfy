/** The welcome page shown after a login code is verified. */
module WelcomePage {
  import opened Wrappers
  import opened Text
  import opened Browser

  datatype WelcomeView = WelcomeView(userName: string, isAllowed: bool)

  /** Before the effect runs: the name reads "User" and nothing is rendered. */
  const InitialView := WelcomeView("User", false)

  datatype Step = Step(view: WelcomeView, nav: Option<Nav>)

  /** Access needs login provenance and a non-empty name. */
  predicate Allowed(state: NavState) {
    Field(state, "from") == Some("login") && Truthy(state, "name")
  }

  /** The effect: an allowed visit shows the first word of the name; any other
      visit replaces the entry with `/login` and leaves the view as it was. */
  function Enter(view: WelcomeView, state: NavState): (r: Step)
    ensures r.view.isAllowed <==> Allowed(state) || view.isAllowed
    ensures Allowed(state) ==>
              r.nav.None? && r.view.userName <= Field(state, "name").value && ' ' !in r.view.userName
              && (r.view.userName == Field(state, "name").value
                  || Field(state, "name").value[|r.view.userName|] == ' ')
    ensures !Allowed(state) ==> r == Step(view, Some(Nav("/login", None, true)))
  {
    if Allowed(state) then Step(WelcomeView(FirstWord(Field(state, "name").value), true), None)
    else Step(view, Some(Nav("/login", None, true)))
  }

  /** The page renders content only once access was allowed. */
  function Renders(view: WelcomeView): bool {
    view.isAllowed
  }

  /** On a fresh page, what is rendered is decided by the provenance alone, and a
      refused visit renders nothing. */
  lemma FreshVisit(state: NavState)
    ensures Renders(Enter(InitialView, state).view) <==> Allowed(state)
    ensures !Allowed(state) ==> Enter(InitialView, state).view.userName == "User"
  {
  }

  /** `handleContinue`: to the dashboard with welcome provenance and the shown name,
      replacing the entry. */
  function Continue(view: WelcomeView): (nav: Nav)
    ensures nav.path == "/dashboard" && nav.replace
    ensures Field(nav.state, "from") == Some("welcome") && Field(nav.state, "name") == Some(view.userName)
  {
    Nav("/dashboard", Some(map["from" := "welcome", "name" := view.userName]), true)
  }

  /** After an allowed visit, continuing hands the dashboard the first word of the
      name the page received. */
  lemma ContinueCarriesFirstWord(state: NavState)
    requires Allowed(state)
    ensures var nav := Continue(Enter(InitialView, state).view);
            Field(nav.state, "name") == Some(FirstWord(Field(state, "name").value))
  {
  }
}
