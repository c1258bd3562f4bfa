/** The route guard of the single-page front end and its route table (src/App.js). */
module AppRoutes {
  import opened Wrappers
  import opened Users

  /** What a guarded route shows. */
  datatype View = Spinner | Redirect(to: string) | Children

  /** ProtectedRoute: a spinner while the session loads, the login page without
      a user, the dashboard for a user whose role the route does not allow, and
      the wrapped page otherwise. An absent list allows every role; a present
      list, even an empty one, allows only the roles in it. */
  function ProtectedRoute(loading: bool, user: Option<User>, allowedRoles: Option<seq<Role>>): (v: View)
    ensures v == Spinner <==> loading
    ensures v == Children <==> !loading && user.Some?
                               && (allowedRoles.None? || user.value.role in allowedRoles.value)
    ensures v.Redirect? <==> !loading && (user.None? || (allowedRoles.Some? && user.value.role !in allowedRoles.value))
    ensures v.Redirect? ==> v.to == (if user.None? then "/login" else "/dashboard")
  {
    if loading then Spinner
    else if user.None? then Redirect("/login")
    else if allowedRoles.Some? && user.value.role !in allowedRoles.value then Redirect("/dashboard")
    else Children
  }

  /** The pages of the route table. */
  datatype Page = LoginPage | RegisterPage | IndexPage | DashboardPage
                | StudentPages | FacultyPages | SecurityPages

  /** The roles a page's own ProtectedRoute allows: one role for each role's
      pages, no list for the others. */
  function PageRoles(page: Page): Option<seq<Role>> {
    match page
    case StudentPages => Some([Student])
    case FacultyPages => Some([Faculty])
    case SecurityPages => Some([Security])
    case _ => None
  }

  /** What visiting a page shows. Login and registration are open; every other
      page sits under the layout route, which a ProtectedRoute without roles
      guards, and the role pages add their own guard; the index redirects to
      the dashboard. */
  function Visit(page: Page, loading: bool, user: Option<User>): (v: View)
    ensures page == LoginPage || page == RegisterPage ==> v == Children
    ensures page != LoginPage && page != RegisterPage ==>
      && (v == Spinner <==> loading)
      && (!loading && user.None? ==> v == Redirect("/login"))
      && (v == Children ==> user.Some? && page != IndexPage)
    ensures page == IndexPage && !loading && user.Some? ==> v == Redirect("/dashboard")
  {
    match page
    case LoginPage => Children
    case RegisterPage => Children
    case _ =>
      var outer := ProtectedRoute(loading, user, None);
      if outer != Children then outer
      else if page == IndexPage then Redirect("/dashboard")
      else ProtectedRoute(loading, user, PageRoles(page))
  }

  /** The role a role's pages belong to. */
  function PageOwner(page: Page): Option<Role> {
    match page
    case StudentPages => Some(Student)
    case FacultyPages => Some(Faculty)
    case SecurityPages => Some(Security)
    case _ => None
  }

  /** The student, faculty and security pages each show their page to exactly the
      one matching role, send every other user to the dashboard and a visitor
      without a session to the login page. */
  lemma RolePagesAdmitOnlyTheirRole(page: Page, user: Option<User>)
    requires PageOwner(page).Some?
    ensures Visit(page, false, user) == Children <==> user.Some? && user.value.role == PageOwner(page).value
    ensures user.None? ==> Visit(page, false, user) == Redirect("/login")
    ensures user.Some? && user.value.role != PageOwner(page).value ==> Visit(page, false, user) == Redirect("/dashboard")
  {
  }

  /** The dashboard shows to every logged-in user whatever the role. */
  lemma DashboardAdmitsEveryUser(user: User)
    ensures Visit(DashboardPage, false, Some(user)) == Children
  {
  }
}
