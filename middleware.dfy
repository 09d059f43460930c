/**
 * The routing middleware: given the request path and the outcome of the session fetch, it either
 * lets the request through or redirects it.
 */
module Middleware {
  import opened Wrappers
  import opened Rows
  import opened Text

  /** The session fetch: it failed (threw), found no session, or found one whose user has this username. */
  datatype Fetched = FetchFailed | NoSession | Session(username: Option<string>)

  datatype Response = Next | Redirect(to: string)

  const AuthRoutes: seq<string> := ["/sign-in", "/sign-up", "/forgot-password"]
  const ProtectedRoutes: seq<string> := ["/profile", "/settings", "/dashboard"]
  const ProfileSetupRoute: string := "/setup"
  const SignInRoute: string := "/sign-in"
  const ProfileRoute: string := "/profile"

  function PrefixOf(path: string): string -> bool {
    (route: string) => StartsWith(path, route)
  }

  /** `routes.some((route) => pathName.startsWith(route))` */
  function MatchesAny(routes: seq<string>, path: string): (b: bool)
    ensures b <==> exists i :: 0 <= i < |routes| && StartsWith(path, routes[i])
  {
    Any(routes, PrefixOf(path))
  }

  /** `session.user.username` is truthy: present and non-empty. */
  predicate HasUsername(username: Option<string>) {
    username.Some? && |username.value| > 0
  }

  function Decide(path: string, fetched: Fetched): Response {
    var isAuthRoute := MatchesAny(AuthRoutes, path);
    var isProtectedRoute := MatchesAny(ProtectedRoutes, path);
    match fetched
    case FetchFailed => Redirect(SignInRoute)
    case NoSession =>
      if isProtectedRoute then Redirect(SignInRoute)
      else if isAuthRoute && path == "/" then Next
      else Next
    case Session(username) =>
      if !HasUsername(username) && path != ProfileSetupRoute then Redirect(ProfileSetupRoute)
      else if HasUsername(username) && path == ProfileSetupRoute then Redirect(ProfileRoute)
      else Next
  }

  /** The decision, case by case. */
  lemma Decisions(path: string, fetched: Fetched)
    ensures fetched == FetchFailed ==> Decide(path, fetched) == Redirect("/sign-in")
    ensures fetched == NoSession ==>
              Decide(path, fetched) == (if exists i :: 0 <= i < |ProtectedRoutes| && StartsWith(path, ProtectedRoutes[i])
                                        then Redirect("/sign-in") else Next)
    ensures fetched.Session? && !HasUsername(fetched.username) ==>
              Decide(path, fetched) == (if path == "/setup" then Next else Redirect("/setup"))
    ensures fetched.Session? && HasUsername(fetched.username) ==>
              Decide(path, fetched) == (if path == "/setup" then Redirect("/profile") else Next)
  {
  }

  /** The protected test is a prefix test: any path starting with `/profile`, `/profile-x` say, is protected. */
  lemma PrefixIsProtected(suffix: string)
    ensures MatchesAny(ProtectedRoutes, ProfileRoute + suffix)
    ensures Decide(ProfileRoute + suffix, NoSession) == Redirect(SignInRoute)
  {
    assert (ProfileRoute + suffix)[..|ProfileRoute|] == ProfileRoute;
    assert StartsWith(ProfileRoute + suffix, ProtectedRoutes[0]);
  }

  /** `/sign-in` starts with no protected route. */
  lemma SignInIsPublic()
    ensures !MatchesAny(ProtectedRoutes, SignInRoute)
  {
    assert SignInRoute[1] != ProtectedRoutes[0][1];
    assert SignInRoute[1] == ProtectedRoutes[1][1] && SignInRoute[2] != ProtectedRoutes[1][2];
    assert SignInRoute[1] != ProtectedRoutes[2][1];
  }

  /**
   * When the session fetch succeeds, a redirect never targets the path it came from, and the target
   * itself is let through: one redirect settles the request.
   */
  lemma RedirectSettles(path: string, fetched: Fetched)
    requires fetched != FetchFailed
    ensures Decide(path, fetched).Redirect? ==>
              Decide(path, fetched).to != path && Decide(Decide(path, fetched).to, fetched) == Next
  {
    SignInIsPublic();
    if fetched == NoSession && Decide(path, fetched).Redirect? {
      var i :| 0 <= i < |ProtectedRoutes| && StartsWith(path, ProtectedRoutes[i]);
      assert !StartsWith(SignInRoute, ProtectedRoutes[i]);
    }
  }
}
