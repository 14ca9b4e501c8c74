/**
 * The single-page app's shell: the signed-in test, the routes with their
 * redirects, the protected dashboard route, and the logout handler.
 */
module App {
  import opened Wrappers
  import opened Storage
  import opened Text
  import Email
  import Login
  import Register
  import Dashboard

  /** The pages the router can render. */
  datatype Page = LoginPage | RegisterPage | DashboardPage

  /** What a route does: render a page, or replace the location with another path. */
  datatype Outcome = Show(page: Page) | Redirect(to: string)

  /** `isLoggedIn()`: a stored address longer than three characters. */
  function IsLoggedIn(items: map<string, string>): (b: bool)
    ensures b ==> EmailKey in items && items[EmailKey] != ""
    ensures EmailKey !in items ==> !b
  {
    EmailKey in items && |items[EmailKey]| > 3
  }

  /** A stored address of three characters or fewer counts as signed out; one of four or more as signed in. */
  lemma LoggedInThreshold(items: map<string, string>)
    requires EmailKey in items
    ensures |items[EmailKey]| <= 3 ==> !IsLoggedIn(items)
    ensures |items[EmailKey]| >= 4 ==> IsLoggedIn(items)
  {
  }

  /** `ProtectedRoute`: the wrapped page when signed in, otherwise a redirect to the sign-in page. */
  function ProtectedRoute(loggedIn: bool, page: Page): (o: Outcome)
    ensures o.Show? <==> loggedIn
    ensures o.Show? ==> o.page == page
    ensures o.Redirect? ==> o.to == "/login"
  {
    if !loggedIn then Redirect("/login") else Show(page)
  }

  /** `path` without its trailing slashes; a path made only of slashes keeps the first. */
  function TrimSlashes(path: string): (r: string)
    ensures |r| <= |path| && r == path[..|r|]
    ensures forall k :: |r| <= k < |path| ==> path[k] == '/'
    ensures |r| > 1 ==> r[|r| - 1] != '/'
    ensures path != [] ==> r != []
  {
    if |path| > 1 && path[|path| - 1] == '/' then TrimSlashes(path[..|path| - 1]) else path
  }

  /**
   * The form in which the router compares a location with a route's path:
   * routes match without regard to ASCII letter case and ignore trailing
   * slashes.
   */
  function RouteKey(path: string): (key: string)
    ensures |key| <= |path|
    ensures forall k :: 0 <= k < |key| ==> !('A' <= key[k] <= 'Z')
    ensures |key| > 1 ==> key[|key| - 1] != '/'
  {
    Lower(TrimSlashes(path))
  }

  /**
   * The route table. The router picks the most specific route that matches,
   * so the three literal paths and `/` win over the catch-all `*`, which
   * takes every other location.
   */
  function Route(path: string, loggedIn: bool): (o: Outcome)
    ensures o.Show? && o.page == DashboardPage ==> loggedIn
    ensures o.Redirect? ==> o.to == "/" || o.to == "/login" || o.to == "/dashboard"
  {
    var key := RouteKey(path);
    if key == "/" then (if loggedIn then Redirect("/dashboard") else Redirect("/login"))
    else if key == "/login" then Show(LoginPage)
    else if key == "/register" then Show(RegisterPage)
    else if key == "/dashboard" then ProtectedRoute(loggedIn, DashboardPage)
    else Redirect("/")
  }

  /** The paths the routes redirect to are already in the router's form. */
  lemma TargetsAreKeys()
    ensures RouteKey("/") == "/"
    ensures RouteKey("/login") == "/login"
    ensures RouteKey("/dashboard") == "/dashboard"
  {
    assert TrimSlashes("/") == "/";
    assert TrimSlashes("/login") == "/login";
    assert TrimSlashes("/dashboard") == "/dashboard";
    assert Lower("/") == "/";
    assert Lower("/login") == "/login";
    assert Lower("/dashboard") == "/dashboard";
  }

  /** A trailing slash does not change the route a location takes. */
  lemma TrailingSlashIgnored(path: string, loggedIn: bool)
    requires path != []
    ensures Route(path + "/", loggedIn) == Route(path, loggedIn)
  {
    assert (path + "/")[..|path|] == path;
  }

  /** Trimming slashes commutes with lower-casing, which leaves `/` alone. */
  lemma {:induction false} TrimSlashesLower(path: string)
    ensures TrimSlashes(Lower(path)) == Lower(TrimSlashes(path))
    decreases |path|
  {
    if |path| > 1 && path[|path| - 1] == '/' {
      var shorter := path[..|path| - 1];
      assert Lower(path)[..|path| - 1] == Lower(shorter);
      TrimSlashesLower(shorter);
    }
  }

  /** Letter case does not change the route a location takes. */
  lemma CaseIgnored(path: string, loggedIn: bool)
    ensures Route(Lower(path), loggedIn) == Route(path, loggedIn)
  {
    TrimSlashesLower(path);
    LowerKeepsShape(TrimSlashes(path));
  }

  /** The page a visit to `path` should end on: the two public forms as asked, anything else the dashboard exactly when signed in. */
  function Landing(path: string, loggedIn: bool): (page: Page)
    ensures page == DashboardPage ==> loggedIn
    ensures page == RegisterPage ==> RouteKey(path) == "/register"
  {
    var key := RouteKey(path);
    if key == "/login" then LoginPage
    else if key == "/register" then RegisterPage
    else if loggedIn then DashboardPage
    else LoginPage
  }

  /**
   * The page rendered after following at most `hops` redirects, or nothing
   * if more are needed. Whatever page a visit settles on, however many
   * redirects it took, is the one `Landing` names.
   */
  function Settle(path: string, loggedIn: bool, hops: nat): (r: Option<Page>)
    ensures r.Some? ==> r.value == Landing(path, loggedIn)
    decreases hops
  {
    match Route(path, loggedIn)
    case Show(page) => Some(page)
    case Redirect(to) =>
      if hops == 0 then None
      else
        TargetsAreKeys();
        Settle(to, loggedIn, hops - 1)
  }

  /**
   * Every path settles within two redirects (an unknown path goes to `/`
   * and on from there): no redirect loop, and the dashboard is rendered
   * exactly for a signed-in user.
   */
  lemma EveryPathSettles(path: string, loggedIn: bool)
    ensures Settle(path, loggedIn, 2) == Some(Landing(path, loggedIn))
  {
    TargetsAreKeys();
  }

  /** Storage after `handleLogout`: the address and the profile are removed. */
  function LoggedOut(items: map<string, string>): (r: map<string, string>)
    ensures r.Keys == items.Keys - {EmailKey, ProfileKey}
    ensures forall k :: k in r ==> r[k] == items[k]
  {
    items - {EmailKey, ProfileKey}
  }

  /** `handleLogout`'s storage writes. */
  method HandleLogout(store: LocalStorage)
    modifies store
    ensures store.items == LoggedOut(old(store.items))
  {
    store.RemoveItem(EmailKey);
    store.RemoveItem(ProfileKey);
  }

  /**
   * After logout the user is signed out, but the stored password and every
   * user's saved subscription list stay.
   */
  lemma LogoutKeepsOthers(items: map<string, string>, email: string)
    ensures !IsLoggedIn(LoggedOut(items))
    ensures PasswordKey in items ==> PasswordKey in LoggedOut(items) && LoggedOut(items)[PasswordKey] == items[PasswordKey]
    ensures var key := SubsKey(email);
      key in items ==> key in LoggedOut(items) && LoggedOut(items)[key] == items[key]
  {
    KeysDistinct();
  }

  /** A successful sign-in signs the user in: the stored address has five characters or more. */
  lemma SignInSignsIn(items: map<string, string>, email: string, password: string)
    requires Login.LoginError(email, password).None?
    ensures IsLoggedIn(Login.SignedIn(items, email, password))
  {
    Login.SignedInStores(items, email, password);
    Email.ValidEmailIsTrimmed(email);
  }

  /** A successful registration signs the user in. */
  lemma RegistrationSignsIn(items: map<string, string>, name: string, email: string, password: string, createdAt: string)
    requires Register.RegisterError(name, email, password).None?
    ensures IsLoggedIn(Register.Registered(items, Register.NewUser(name, email, password, createdAt)))
  {
    Register.RegisteredStores(items, name, email, password, createdAt);
    Email.ValidEmailIsTrimmed(email);
  }

  /**
   * Logging out and signing in again as the same user brings back that
   * user's subscription list: neither the logout nor the sign-in touches
   * the `subs_` key of the stored address.
   */
  lemma SignInAgainRestoresSubscriptions(items: map<string, string>, email: string, password: string)
    requires Login.LoginError(email, password).None?
    requires EmailKey in items && items[EmailKey] == Lower(email)
    ensures Dashboard.SavedFor(Login.SignedIn(LoggedOut(items), email, password)) == Dashboard.SavedFor(items)
  {
    var after := Login.SignedIn(LoggedOut(items), email, password);
    Login.SignedInStores(LoggedOut(items), email, password);
    assert Dashboard.CurrentEmail(after) == Dashboard.CurrentEmail(items);
    Login.SignedInKeepsOthers(LoggedOut(items), email, password);
    LogoutKeepsOthers(items, Lower(email));
  }

  /** After logout every path but the registration form settles on the sign-in form. */
  lemma LogoutShowsSignIn(items: map<string, string>, path: string)
    requires RouteKey(path) != "/register"
    ensures Settle(path, IsLoggedIn(LoggedOut(items)), 2) == Some(LoginPage)
  {
    LogoutKeepsOthers(items, "");
    EveryPathSettles(path, false);
  }
}
