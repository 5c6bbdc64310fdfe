/** The bottom navigation bar: four destinations, at most one highlighted, a click reports its route. */
module NavigationBar {
  import opened Wrappers
  import opened Model

  /** A destination of the bar. */
  datatype BottomNavItem = Home | Explore | Cart | Profile {
    function Route(): string {
      match this
      case Home => "home_route"
      case Explore => "explore_route"
      case Cart => "cart_route"
      case Profile => "profile_route"
    }

    function Icon(): ImageRes {
      match this
      case Home => Drawable("home_icon")
      case Explore => Drawable("explore_icon")
      case Cart => Drawable("cart_icon")
      case Profile => Drawable("usuario_info")
    }

    function Label(): string {
      match this
      case Home => "Inicio"
      case Explore => "Explorar"
      case Cart => "Carrito"
      case Profile => "Perfil"
    }
  }

  /** The bar's items, left to right. */
  const Items: seq<BottomNavItem> := [Home, Explore, Cart, Profile]

  /** Routes of the bar's items, in order. */
  function ItemRoutes(items: seq<BottomNavItem>): (r: seq<string>)
    ensures |r| == |items|
    ensures forall i :: 0 <= i < |items| ==> r[i] == items[i].Route()
    decreases |items|
  {
    if |items| == 0 then [] else [items[0].Route()] + ItemRoutes(items[1..])
  }

  /** The bar holds the four items, each once, and their routes are pairwise distinct. */
  lemma ItemsWellFormed()
    ensures |Items| == 4
    ensures Items[0] == Home && Items[1] == Explore && Items[2] == Cart && Items[3] == Profile
    ensures Items[0].Label() == "Inicio" && Items[1].Label() == "Explorar"
    ensures Items[2].Label() == "Carrito" && Items[3].Label() == "Perfil"
    ensures Items[0].Icon() == Drawable("home_icon") && Items[1].Icon() == Drawable("explore_icon")
    ensures Items[2].Icon() == Drawable("cart_icon") && Items[3].Icon() == Drawable("usuario_info")
    ensures forall i, j :: 0 <= i < j < |Items| ==> Items[i].Route() != Items[j].Route()
    ensures forall it: BottomNavItem :: it in Items
  {
    forall it: BottomNavItem ensures it in Items {
      match it
      case Home => assert Items[0] == it;
      case Explore => assert Items[1] == it;
      case Cart => assert Items[2] == it;
      case Profile => assert Items[3] == it;
    }
  }

  /** An item is drawn highlighted exactly when its route is the selected one; `None` selects nothing. */
  predicate IsSelected(item: BottomNavItem, selectedRoute: Option<string>): (r: bool)
    ensures selectedRoute.None? ==> !r
    ensures r ==> forall other: BottomNavItem :: other.Route() == selectedRoute.value ==> other == item
  {
    selectedRoute == Some(item.Route())
  }

  /** The items of `items` drawn highlighted for `selectedRoute`, in bar order. */
  function Highlighted(items: seq<BottomNavItem>, selectedRoute: Option<string>): (r: seq<BottomNavItem>)
    ensures forall it :: it in r <==> it in items && IsSelected(it, selectedRoute)
    decreases |items|
  {
    if |items| == 0 then []
    else (if IsSelected(items[0], selectedRoute) then [items[0]] else []) + Highlighted(items[1..], selectedRoute)
  }

  /**
   * At most one item is highlighted: exactly one when the selected route is one of the four,
   * and none when it is `None` or any other string.
   */
  lemma HighlightedCount(selectedRoute: Option<string>)
    ensures |Highlighted(Items, selectedRoute)| <= 1
    ensures |Highlighted(Items, selectedRoute)| == 1 <==>
      selectedRoute.Some? && selectedRoute.value in ItemRoutes(Items)
    ensures selectedRoute.Some? && selectedRoute.value in ItemRoutes(Items) ==>
      exists it :: Highlighted(Items, selectedRoute) == [it] && it.Route() == selectedRoute.value
  {
    var h := Highlighted(Items, selectedRoute);
    HighlightedUnfold(selectedRoute);
    var routes := ItemRoutes(Items);
    assert routes == [Home.Route(), Explore.Route(), Cart.Route(), Profile.Route()];
    if selectedRoute == Some(Home.Route()) {
      assert h == [Home];
    } else if selectedRoute == Some(Explore.Route()) {
      assert h == [Explore];
    } else if selectedRoute == Some(Cart.Route()) {
      assert h == [Cart];
    } else if selectedRoute == Some(Profile.Route()) {
      assert h == [Profile];
    } else {
      assert h == [];
    }
  }

  /** `Highlighted` over the four items, written out one item at a time. */
  lemma HighlightedUnfold(selectedRoute: Option<string>)
    ensures Highlighted(Items, selectedRoute) ==
      (if IsSelected(Home, selectedRoute) then [Home] else []) +
      (if IsSelected(Explore, selectedRoute) then [Explore] else []) +
      (if IsSelected(Cart, selectedRoute) then [Cart] else []) +
      (if IsSelected(Profile, selectedRoute) then [Profile] else [])
  {
    assert Items[1..] == [Explore, Cart, Profile];
    assert Items[1..][1..] == [Cart, Profile];
    assert Items[1..][1..][1..] == [Profile];
    assert Items[1..][1..][1..][1..] == [];
  }

  /** A click on an item reports that item's route to the bar's owner. */
  function OnItemClick(item: BottomNavItem): (route: string)
    ensures IsSelected(item, Some(route))
    ensures forall other :: IsSelected(other, Some(route)) ==> other == item
  {
    item.Route()
  }
}
