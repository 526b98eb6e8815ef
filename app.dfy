/**
  The top-level routing: a spinner while the session is being restored,
  then three routes whose element depends on whether a user is signed in.
  Paths are taken already matched against the route table.
 */
module App {

  /** The route a location matches, or none. */
  datatype Path = AuthPath | DashboardPath | RootPath | Unmatched

  /** What `AppRoutes` renders. */
  datatype Screen =
    | Spinner
    | AuthScreen
    | DashboardScreen
    | Redirect(to: Path)
    | NothingRendered

  /** `AppRoutes` for one location. */
  function Route(loading: bool, isAuthenticated: bool, path: Path): (s: Screen)
    ensures loading ==> s == Spinner
    ensures s == DashboardScreen <==> !loading && isAuthenticated && path == DashboardPath
    ensures s == AuthScreen <==> !loading && !isAuthenticated && path == AuthPath
    ensures s.Redirect? <==>
      !loading && (path == RootPath || (path == AuthPath && isAuthenticated) || (path == DashboardPath && !isAuthenticated))
    ensures s.Redirect? ==> s.to == (if isAuthenticated then DashboardPath else AuthPath)
    ensures s == NothingRendered <==> !loading && path == Unmatched
  {
    if loading then Spinner
    else match path
      case AuthPath => if !isAuthenticated then AuthScreen else Redirect(DashboardPath)
      case DashboardPath => if isAuthenticated then DashboardScreen else Redirect(AuthPath)
      case RootPath => Redirect(if isAuthenticated then DashboardPath else AuthPath)
      case Unmatched => NothingRendered
  }

  /** What the user ends up seeing: a redirect is followed to the screen of its target. */
  function Landing(loading: bool, isAuthenticated: bool, path: Path): (s: Screen)
    ensures !s.Redirect?
    ensures loading ==> s == Spinner
    ensures !loading && path != Unmatched ==> s == (if isAuthenticated then DashboardScreen else AuthScreen)
    ensures s == DashboardScreen ==> isAuthenticated
  {
    match Route(loading, isAuthenticated, path)
    case Redirect(to) => Route(loading, isAuthenticated, to)
    case s => s
  }
}
