/**
 * The home screen `Index`: it reads the session's token and redirects to
 * the login screen when the token is falsy, otherwise shows the home page.
 * The component also reads `loading` from the context, but the decision
 * never uses it, so the route is a function of the token alone.
 *
 * A screen reads the provider's state only when an `AuthContextProvider` is
 * mounted above it; otherwise it reads the context's default value, whose
 * token is `null` and whose `login` and `logout` do nothing. The root layout
 * mounts no provider.
 */
module HomeGate {
  import opened Wrappers
  import opened Session

  datatype Route = RedirectToLogin | HomePage

  /**
   * The route `Index` renders for the session's token: the falsy tokens,
   * `null` and `""`, redirect to the login screen.
   */
  function IndexRoute(userToken: Option<string>): (r: Route)
    ensures r == RedirectToLogin <==> userToken == None || userToken == Some([])
  {
    if !Truthy(userToken) then RedirectToLogin else HomePage
  }

  /** `null` and the empty string redirect; every non-empty token shows the home page. */
  lemma RouteByToken(userToken: Option<string>)
    ensures userToken == None ==> IndexRoute(userToken) == RedirectToLogin
    ensures userToken == Some([]) ==> IndexRoute(userToken) == RedirectToLogin
    ensures forall t :: userToken == Some(t) && t != [] ==> IndexRoute(userToken) == HomePage
  {
  }

  /**
   * A freshly mounted provider redirects to login even when a token is
   * persisted; once that token is loaded, the home page is shown.
   */
  lemma RedirectsBeforeLoad(store: map<string, string>)
    ensures IndexRoute(Initial(store).userToken) == RedirectToLogin
    ensures Truthy(GetItem(store, TokenKey)) ==> IndexRoute(AfterLoad(Initial(store), false).userToken) == HomePage
  {
  }

  /** After a successful logout the gate redirects; after a successful login with a non-empty token it shows home. */
  lemma RouteAfterAccountCalls(st: Snapshot, t: string)
    ensures IndexRoute(AfterLogout(st, false).userToken) == RedirectToLogin
    ensures t != [] ==> IndexRoute(AfterLogin(st, t, false).userToken) == HomePage
  {
  }

  /**
   * When the in-memory token agrees with the store, a restart followed by a
   * successful load shows the same route as before the restart.
   */
  lemma RestartKeepsRoute(st: Snapshot)
    requires Synced(st)
    ensures IndexRoute(AfterLoad(Initial(st.store), false).userToken) == IndexRoute(st.userToken)
  {
  }

  /** Whether an `AuthContextProvider` is mounted above the screens. */
  datatype Tree = WithProvider | WithoutProvider

  /**
   * The context value the screens read after the calls `ops`, made through
   * the context: the provider's state, or the default value, on which every
   * call does nothing.
   */
  function ScreenState(tree: Tree, st: Snapshot, ops: seq<Op>): (r: Snapshot)
    ensures tree.WithoutProvider? ==> r.userToken == None && r.loading
  {
    match tree
    case WithProvider => Run(st, ops)
    case WithoutProvider => Snapshot(None, true, st.store)
  }

  /** As the layout is written: with no provider, the home screen redirects to login whatever calls are made. */
  lemma NoProviderAlwaysRedirects(st: Snapshot, ops: seq<Op>)
    ensures IndexRoute(ScreenState(WithoutProvider, st, ops).userToken) == RedirectToLogin
  {
  }

  /** With a provider mounted, a successful login with a non-empty token leads to the home page. */
  lemma ProviderLoginShowsHome(st: Snapshot, t: string)
    requires t != []
    ensures IndexRoute(ScreenState(WithProvider, st, [LogIn(t, false)]).userToken) == HomePage
  {
    var ops := [LogIn(t, false)];
    assert ops[1..] == [];
    assert Run(st, ops) == Run(AfterLogin(st, t, false), []);
  }
}
