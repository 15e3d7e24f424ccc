/** The route guard for authenticated pages. */
module PrivateRoute {
  import opened Wrappers
  import opened Browser

  const DefaultVerificationPath := "/verification-pending"

  datatype Outcome = Loading | Redirect(nav: Nav) | RenderChildren

  /** `PrivateRoute`: a null authentication value shows the loading view; an
      unauthenticated visitor is sent to `/login`, whatever `isVerified` says; an
      authenticated but unverified one to the verification path (by default
      `/verification-pending`); children render only when both hold. Redirects
      replace the entry and carry the current location as `from`.
      `isAuthenticated` is `None` for `null`. */
  function Guard(isAuthenticated: Option<bool>, isVerified: bool,
                 verificationPath: Option<string>, location: string): (r: Outcome)
    ensures r.Loading? <==> isAuthenticated.None?
    ensures r.RenderChildren? <==> isAuthenticated == Some(true) && isVerified
    ensures isAuthenticated == Some(false) ==>
              r == Redirect(Nav("/login", Some(map["from" := location]), true))
    ensures isAuthenticated == Some(true) && !isVerified ==>
              r == Redirect(Nav(verificationPath.GetOr(DefaultVerificationPath), Some(map["from" := location]), true))
    ensures r.Redirect? ==> r.nav.replace && Field(r.nav.state, "from") == Some(location)
  {
    match isAuthenticated
    case None => Loading
    case Some(false) => Redirect(Nav("/login", Some(map["from" := location]), true))
    case Some(true) =>
      if !isVerified then
        Redirect(Nav(verificationPath.GetOr(DefaultVerificationPath), Some(map["from" := location]), true))
      else RenderChildren
  }

  /** Without an explicit path, an unverified visitor lands on `/verification-pending`. */
  lemma DefaultPath(isVerified: bool, location: string)
    ensures !isVerified ==> Guard(Some(true), isVerified, None, location).nav.path == "/verification-pending"
  {
  }
}
