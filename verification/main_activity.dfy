/**
 * The root activity's screen switch: one mutable route string decides whether the scaffold
 * with the bottom bar, the login screen, or nothing is shown, and callbacks rewrite it.
 */
module MainActivity {
  import opened Wrappers
  import NavigationBar

  /** The activity's screens and their routes. */
  datatype ScreenState = Profile | Cart | Home | Explore | Login {
    function Route(): string {
      match this
      case Profile => "profile_route"
      case Cart => "cart_route"
      case Home => "home_route"
      case Explore => "explore_route"
      case Login => "login_route"
    }
  }

  /** The app opens on the profile screen. */
  const InitialRoute: string := Profile.Route()

  /** The routes under which the scaffold with the bottom bar is shown. */
  const BottomBarRoutes: seq<string> := [Profile.Route(), Cart.Route(), Home.Route(), Explore.Route()]

  predicate ShowsBottomBar(current: string) {
    current in BottomBarRoutes
  }

  /** The five routes the activity knows. */
  predicate KnownRoute(current: string) {
    exists s: ScreenState :: s.Route() == current
  }

  /** What the scaffold's content slot shows for a route. */
  datatype Content = ProfileContent | CartContent | HomePlaceholder | ExplorePlaceholder

  /** What the activity draws. */
  datatype Rendered =
    | WithBottomBar(selectedRoute: string, content: Content)
    | LoginContent
    | NothingShown

  /** The activity's branch on the current route. */
  function Render(current: string): (r: Rendered)
    ensures r.WithBottomBar? <==> ShowsBottomBar(current)
    ensures r.WithBottomBar? ==> r.selectedRoute == current
    ensures current == Profile.Route() ==> r == WithBottomBar(current, ProfileContent)
    ensures current == Cart.Route() ==> r == WithBottomBar(current, CartContent)
    ensures current == Home.Route() ==> r == WithBottomBar(current, HomePlaceholder)
    ensures current == Explore.Route() ==> r == WithBottomBar(current, ExplorePlaceholder)
    ensures r.LoginContent? <==> current == Login.Route()
    ensures r.NothingShown? <==> !KnownRoute(current)
  {
    KnownRoutes(current);
    if ShowsBottomBar(current) then
      var content :=
        if current == Profile.Route() then ProfileContent
        else if current == Cart.Route() then CartContent
        else if current == Home.Route() then HomePlaceholder
        else ExplorePlaceholder;
      WithBottomBar(current, content)
    else if current == Login.Route() then LoginContent
    else
      NothingShown
  }

  /** The known routes are the bottom-bar routes and the login route. */
  lemma KnownRoutes(current: string)
    ensures KnownRoute(current) <==> ShowsBottomBar(current) || current == Login.Route()
  {
    if ShowsBottomBar(current) {
      var i :| 0 <= i < 4 && BottomBarRoutes[i] == current;
      if i == 0 { assert Profile.Route() == current; }
      else if i == 1 { assert Cart.Route() == current; }
      else if i == 2 { assert Home.Route() == current; }
      else { assert Explore.Route() == current; }
    } else if current == Login.Route() {
      assert Login.Route() == current;
    } else {
      forall s: ScreenState ensures s.Route() != current {
        match s
        case Profile => assert BottomBarRoutes[0] == s.Route();
        case Cart => assert BottomBarRoutes[1] == s.Route();
        case Home => assert BottomBarRoutes[2] == s.Route();
        case Explore => assert BottomBarRoutes[3] == s.Route();
        case Login =>
      }
    }
  }

  /** The callbacks that can rewrite the route. */
  datatype Event =
    | NavItemSelected(item: NavigationBar.BottomNavItem)  // a click on the bottom bar
    | NavigateToLogin                                      // the profile screen's login link
    | LoginSuccess                                         // the login screen's success callback

  /**
   * Whether the event's callback is on screen for the current route: the bar's click handler
   * whenever the bar is drawn, the login link on the profile screen, the success callback on
   * the login screen.
   */
  predicate Enabled(current: string, e: Event) {
    match e
    case NavItemSelected(_) => Render(current).WithBottomBar?
    case NavigateToLogin => Render(current) == WithBottomBar(current, ProfileContent)
    case LoginSuccess => Render(current).LoginContent?
  }

  /** The route after an event; an event whose callback is not on screen changes nothing. */
  function Step(current: string, e: Event): (next: string)
    ensures !Enabled(current, e) ==> next == current
    ensures Enabled(current, e) && e.NavItemSelected? ==> next == e.item.Route()
    ensures Enabled(current, e) && e.NavigateToLogin? ==> next == Login.Route() && !ShowsBottomBar(next)
    ensures Enabled(current, e) && e.LoginSuccess? ==> next == Home.Route() && ShowsBottomBar(next)
  {
    if !Enabled(current, e) then current
    else
      match e
      case NavItemSelected(item) => NavigationBar.OnItemClick(item)
      case NavigateToLogin => Login.Route()
      case LoginSuccess => Home.Route()
  }

  /** The route after a sequence of events from the initial one. */
  function Run(events: seq<Event>): (r: string)
    ensures KnownRoute(r)
    ensures !Render(r).NothingShown?
    decreases |events|
  {
    if |events| == 0 then
      assert Profile.Route() == InitialRoute;
      InitialRoute
    else
      var prev := Run(events[..|events| - 1]);
      var next := Step(prev, events[|events| - 1]);
      BottomBarRoutesAreItemRoutes();
      KnownRoutes(prev);
      KnownRoutes(next);
      next
  }

  /** Every nav item's route is a bottom-bar route, and every bottom-bar route is a nav item's. */
  lemma BottomBarRoutesAreItemRoutes()
    ensures forall it: NavigationBar.BottomNavItem :: ShowsBottomBar(it.Route())
    ensures forall r :: ShowsBottomBar(r) <==> r in NavigationBar.ItemRoutes(NavigationBar.Items)
  {
    NavigationBar.ItemsWellFormed();
    var routes := NavigationBar.ItemRoutes(NavigationBar.Items);
    assert routes == ["home_route", "explore_route", "cart_route", "profile_route"];
    forall it: NavigationBar.BottomNavItem ensures ShowsBottomBar(it.Route()) {
      match it
      case Home => assert BottomBarRoutes[2] == it.Route();
      case Explore => assert BottomBarRoutes[3] == it.Route();
      case Cart => assert BottomBarRoutes[1] == it.Route();
      case Profile => assert BottomBarRoutes[0] == it.Route();
    }
  }

  /** Whenever the bottom bar is shown, exactly one nav item is highlighted: the current route's. */
  lemma BarHighlightsExactlyOne(current: string)
    requires ShowsBottomBar(current)
    ensures |NavigationBar.Highlighted(NavigationBar.Items, Some(current))| == 1
    ensures exists it :: NavigationBar.Highlighted(NavigationBar.Items, Some(current)) == [it] && it.Route() == current
  {
    BottomBarRoutesAreItemRoutes();
    NavigationBar.HighlightedCount(Some(current));
  }
}
