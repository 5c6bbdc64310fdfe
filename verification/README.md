# GameVerse core logic in Dafny

GameVerse is an Android storefront for video games. Almost all of it is Jetpack Compose UI. This
project models the small amount of sequential logic underneath that UI and proves properties of it:

- **the shopping cart** (`CartManager`): an ordered list of (game, quantity) entries, unique by game id,
  with add-or-merge, remove, update-or-delete, clear, lookup and the two sums;
- **the catalog** (`GameRepository`): the five hard-coded games and the lookups by id and by whole name;
- **the explore filter** (`applyFiltersAndSearch`): a case-insensitive search on name or description,
  a closed price range, then a stable sort by price in either direction or none;
- **the cart screen's arithmetic** (`calculateTotal` and the −/+ buttons): a `BigDecimal` subtotal
  rounded to two decimals half-up, and the quantity each button asks for;
- **the sign-up validator**: the three-way decision behind the "Registrarse" button;
- **navigation**: the bottom bar's four items and their highlighting, and the root activity's route
  variable with its transitions.

Modelling choices:

- Prices are whole cents (`int`), so sums, range checks and rounding are exact.
- Quantities are Kotlin `Int`s: the `Int32` subset type. The three places where the source adds
  `Int`s wrap around explicitly (`AddInt32`): the merge in `addGame`, the `sumOf` in
  `getTotalItems` and the "+" button.
- The cart is a value. Each mutating method of the Kotlin class is a function from the old entry
  list to the new one. `getCartItems` therefore returns the list itself.
- `BigDecimal` is a `Decimal(unscaled, scale)` datatype. Its `add`, `multiply` and
  `setScale(…, HALF_UP)` are modelled exactly.
- `isBlank` uses the JVM's full whitespace set. Case-insensitive comparison folds ASCII letters only.
- Image resources are opaque (`ImageRes`).
- Screen callbacks become events of a small state machine over route strings (`MainActivity.Step`).
  An event whose callback is not on screen leaves the route unchanged.

Two facts about the code that its comments and names do not make obvious:

- Nothing keeps a cart quantity positive. `addGame` neither rejects a `quanty` of 0 or less nor
  removes an entry that a merge brings to 0 or below (CartManager.kt:20-28). Only `updateQuantity`
  deletes on 0 or less. `AddGame`'s contract states exactly that.
- `CartManager.getTotal` is an unrounded sum. Only the cart screen's `calculateTotal` rounds, and
  `CartScreen.CalculateTotal` proves the rounding changes nothing when prices are whole cents.

## Model

| member | source | states |
|---|---|---|
| Search.FirstIndex | app/src/main/java/com/paworo06/gameverse/data/logic/CartManager.kt:112-119 | The scan returns the index of the first element satisfying the test, and nothing exactly when no element does. |
| Search.First | app/src/main/java/com/paworo06/gameverse/data/logic/CartManager.kt:16-18 | Kotlin's `find` returns the first element that passes the test, found at a first-matching position. It returns null exactly when no element passes. |
| Search.Filter | app/src/main/java/com/paworo06/gameverse/view/explore/ExploreScreen.kt:134-146 | Kotlin's `filter` keeps each element that passes the test exactly as many times as it occurs, and no other element. It keeps them in their original order, and returns the input itself when every element passes. |
| Text.WhitespaceExamples | app/src/main/java/com/paworo06/gameverse/view/explore/ExploreScreen.kt:137 | `IsWhitespace` follows the JVM's `Char.isWhitespace`: space, tab, no-break space and ideographic space count, while letters, the zero-width space and NEL do not. `IsBlank` holds for the empty string and for whitespace-only strings, and fails once any character is not whitespace. |
| Text.EqualsIgnoreCaseEquivalence | app/src/main/java/com/paworo06/gameverse/data/logic/GameRepository.kt:73 | `equals(…, ignoreCase = true)`, modelled as `EqualsIgnoreCase`, is reflexive, symmetric and transitive. |
| Text.ContainsIgnoreCase | app/src/main/java/com/paworo06/gameverse/view/explore/ExploreScreen.kt:138-139 | The left-to-right search holds exactly when some offset has a region that matches the needle ignoring case. |
| GameRepository.GetAllGames | app/src/main/java/com/paworo06/gameverse/data/logic/GameRepository.kt:7-50 | The catalog holds five games. Their ids are 1..5 in order, so pairwise distinct, and every price is positive. |
| GameRepository.GetGameById | app/src/main/java/com/paworo06/gameverse/data/logic/GameRepository.kt:57-64 | The result is the first catalog game with that id. It is null exactly when no catalog game has the id. |
| GameRepository.GetGameByIdCatalog | app/src/main/java/com/paworo06/gameverse/data/logic/GameRepository.kt:57-64 | The lookup succeeds exactly for ids 1..5 and returns the game at position id − 1. |
| GameRepository.SearchGameByName | app/src/main/java/com/paworo06/gameverse/data/logic/GameRepository.kt:71-78 | The result is the first catalog game whose whole name equals the argument ignoring case. It is null exactly when no name matches. |
| GameRepository.SearchGameByNameWholeName | app/src/main/java/com/paworo06/gameverse/data/logic/GameRepository.kt:71-78 | A differently-cased full name is found. A prefix ("Mine") is not, because the match is not a substring match. |
| CartManager.GetCartItem | app/src/main/java/com/paworo06/gameverse/data/logic/CartManager.kt:112-119 | The lookup returns the first entry with that game id, and null exactly when there is none. |
| CartManager.IndexOf | app/src/main/java/com/paworo06/gameverse/data/logic/CartManager.kt:23 | `indexOf` returns the first index holding an equal entry, or −1 exactly when no entry is equal. |
| CartManager.FoundEntryIndex | app/src/main/java/com/paworo06/gameverse/data/logic/CartManager.kt:16-23 | The entry found by id sits at the index `indexOf` reports for it, and that index is the first with the id. |
| CartManager.AddGame | app/src/main/java/com/paworo06/gameverse/data/logic/CartManager.kt:14-29 | For an id already present, only the first such entry changes: its quantity becomes old + quanty with Int wrap-around, in place. For a new id, `CartItem(game, quanty)` is appended, whatever the sign of quanty. Unique ids stay unique. |
| CartManager.GetCartItemAfterAdd | app/src/main/java/com/paworo06/gameverse/data/logic/CartManager.kt:14-29 | After the add, a lookup of the game id returns the merged entry (old game, summed quantity) or the new entry. |
| CartManager.TotalItemsAfterAdd | app/src/main/java/com/paworo06/gameverse/data/logic/CartManager.kt:14-29 | Adding q raises the 32-bit total item count by exactly q, in both the merge case and the append case. |
| CartManager.RemoveGame | app/src/main/java/com/paworo06/gameverse/data/logic/CartManager.kt:35-39 | No entry with the id remains. An entry is in the result exactly when it was in the cart and has a different id. The result is the cart with some entries dropped and the rest in their original order. An absent id is a no-op. Unique ids stay unique. |
| CartManager.RemoveGameCounts | app/src/main/java/com/paworo06/gameverse/data/logic/CartManager.kt:36-38 | `removeAll` keeps each entry without the id exactly as many times as it occurs in the cart, and drops every occurrence of the others. |
| CartManager.GetCartItemAfterRemove | app/src/main/java/com/paworo06/gameverse/data/logic/CartManager.kt:35-39 | After removing an id, lookups of that id fail and lookups of every other id are unchanged. |
| CartManager.GetTotalAfterRemove | app/src/main/java/com/paworo06/gameverse/data/logic/CartManager.kt:35-39 | With unique ids, removing an id lowers the total by exactly the removed entry's price × quantity. |
| CartManager.UpdateQuantity | app/src/main/java/com/paworo06/gameverse/data/logic/CartManager.kt:47-63 | A new quantity ≤ 0 has exactly the effect of `removeGame`. A positive one replaces only the first matching entry's quantity, and changes nothing when the id is absent. Unique ids stay unique. |
| CartManager.GetCartItemAfterUpdate | app/src/main/java/com/paworo06/gameverse/data/logic/CartManager.kt:47-63 | After the update, a lookup finds nothing when n ≤ 0. When n > 0 it finds the old game with quantity n, or nothing if the id was absent. |
| CartManager.ClearCart | app/src/main/java/com/paworo06/gameverse/data/logic/CartManager.kt:68-70 | The cleared cart is empty, has unique ids, has both totals 0, and every lookup fails. |
| CartManager.GetTotalConcat | app/src/main/java/com/paworo06/gameverse/data/logic/CartManager.kt:84-88 | The total Σ price × quantity of a concatenation is the sum of the totals of its parts. |
| CartManager.GetTotalPermutation | app/src/main/java/com/paworo06/gameverse/data/logic/CartManager.kt:84-88 | The total does not depend on the order of the entries. |
| CartManager.SumQuantyFrom | app/src/main/java/com/paworo06/gameverse/data/logic/CartManager.kt:95-97 | Accumulating with wrap-around at every step gives the exact Σ quantity wrapped once. |
| CartManager.GetTotalItems | app/src/main/java/com/paworo06/gameverse/data/logic/CartManager.kt:94-98 | The item count is Σ quantity wrapped to 32 bits. It equals the exact sum whenever that fits in an Int. |
| CartManager.IsEmpty | app/src/main/java/com/paworo06/gameverse/data/logic/CartManager.kt:104-106 | The cart is empty exactly when a lookup fails for every id. An empty cart has total 0 and item count 0. |
| CartManager.GetTotal | app/src/main/java/com/paworo06/gameverse/data/logic/CartManager.kt:84-88 | The total is Σ price × quantity in exact cents. It is never negative when no price or quantity is. Its partners are `GetTotalConcat`, `GetTotalPermutation` and `GetTotalAfterRemove`. |
| ExploreFilter.MatchesSearch | app/src/main/java/com/paworo06/gameverse/view/explore/ExploreScreen.kt:137-139 | The search test of the filter: the query is blank, or the name or the description contains it ignoring case. `MatchesSearchOccurs` states what that means. |
| ExploreFilter.MatchesSearchOccurs | app/src/main/java/com/paworo06/gameverse/view/explore/ExploreScreen.kt:137-139 | A blank query matches every game. A non-blank query matches exactly when it occurs, ignoring case, at some offset of the name or of the description. |
| ExploreFilter.MatchesPriceRange | app/src/main/java/com/paworo06/gameverse/view/explore/ExploreScreen.kt:142-143 | The price test of the filter: the price lies in the closed range `start..endInclusive`. `PriceRangeInclusive` states its edge cases. |
| ExploreFilter.PriceRangeInclusive | app/src/main/java/com/paworo06/gameverse/view/explore/ExploreScreen.kt:142-143 | Both ends are inclusive: the range `p..p` keeps exactly price p, and every game passes the range made of its own price. A reversed range keeps nothing. |
| ExploreFilter.FilterGames | app/src/main/java/com/paworo06/gameverse/view/explore/ExploreScreen.kt:134-146 | The filter keeps each game that matches both the search and the price range, as many times as it occurs in the input, and nothing else. It is an order-preserving subsequence of the input. When every game matches, it is the input. |
| ExploreFilter.Insert | app/src/main/java/com/paworo06/gameverse/view/explore/ExploreScreen.kt:150-151 | Inserting into a sorted list adds exactly that game and keeps the list sorted in the chosen direction. |
| ExploreFilter.SortByPrice | app/src/main/java/com/paworo06/gameverse/view/explore/ExploreScreen.kt:149-153 | The sort returns a permutation of its input, non-decreasing or non-increasing by price. |
| ExploreFilter.InsertStable | app/src/main/java/com/paworo06/gameverse/view/explore/ExploreScreen.kt:150-151 | The inserted game goes in front of every game of equal price already in the list. |
| ExploreFilter.SortStable | app/src/main/java/com/paworo06/gameverse/view/explore/ExploreScreen.kt:150-151 | Games of equal price keep their input order, as Kotlin's stable `sortedBy` and `sortedByDescending` do. |
| ExploreFilter.SortStableAll | app/src/main/java/com/paworo06/gameverse/view/explore/ExploreScreen.kt:150-151 | For every price, sorting in either direction leaves the games of that price in their input order. |
| ExploreFilter.ApplyFiltersAndSearch | app/src/main/java/com/paworo06/gameverse/view/explore/ExploreScreen.kt:127-156 | Every result comes from the input, so the result is never longer. A blank query applies no text filter. A non-blank query must occur in the name or the description, ignoring case. Every price lies in [start, endInclusive]. Every matching game appears, with its multiplicity. "Menor Precio" sorts ascending, "Mayor Precio" sorts descending, and any other option keeps the filter order. Under either sort, games of equal price keep their filter order. |
| ExploreFilter.ExploreCatalogUnfiltered | app/src/main/java/com/paworo06/gameverse/view/explore/ExploreScreen.kt:134-153 | With any blank query, a 0..100.00 price range (0..10000 cents) and any option other than the two of `sortOptionsPrice`, the catalog comes back unchanged. |
| CartScreen.RoundHalfUp | app/src/main/java/com/paworo06/gameverse/view/cart/CartScreen.kt:235 | The rounded quotient is within half a unit of the exact quotient. A tie goes away from zero. The sign is kept. |
| CartScreen.SetScaleHalfUp | app/src/main/java/com/paworo06/gameverse/view/cart/CartScreen.kt:235 | `setScale` always yields the requested scale. Widening keeps the value. Narrowing rounds to the nearest value at the new scale, a tie away from zero. |
| CartScreen.SetScaleHalfUpExamples | app/src/main/java/com/paworo06/gameverse/view/cart/CartScreen.kt:235 | 12.345 rounds to 12.35 at two places and −12.345 to −12.35 (ties away from zero). 12.344 rounds to 12.34. 7 becomes 7.00. |
| CartScreen.SumOf | app/src/main/java/com/paworo06/gameverse/view/cart/CartScreen.kt:233-234 | The `BigDecimal` fold is exact: its value is Σ price × quantity in cents, at scale 2, or 0 at scale 0 for no items. |
| CartScreen.CalculateTotal | app/src/main/java/com/paworo06/gameverse/view/cart/CartScreen.kt:230-236 | The subtotal has scale 2 and equals Σ price × quantity, so rounding whole cents changes nothing. An empty list gives 0.00. |
| CartScreen.CalculateTotalPermutation | app/src/main/java/com/paworo06/gameverse/view/cart/CartScreen.kt:233-234 | The subtotal does not depend on the order of the items. |
| CartScreen.CalculateTotalSample | app/src/main/java/com/paworo06/gameverse/view/cart/CartScreen.kt:37-55 | The screen's sample cart (69.99 × 1, 14.99 × 2, 55.00 × 1) totals 154.97. |
| CartScreen.DecrementRequest | app/src/main/java/com/paworo06/gameverse/view/cart/CartScreen.kt:195-201 | Above 1 the "−" button asks for quantity − 1. At 1 or below it asks for removal. It never asks for a quantity below 1. |
| CartScreen.IncrementRequest | app/src/main/java/com/paworo06/gameverse/view/cart/CartScreen.kt:218 | The "+" button always asks for quantity + 1, wrapping only at Int.MAX_VALUE. |
| CartScreen.DecrementIsUpdate | app/src/main/java/com/paworo06/gameverse/view/cart/CartScreen.kt:195-201 | For every quantity above Int.MIN_VALUE, carrying out the "−" request on a cart has the same effect as `updateQuantity(quantity − 1)`. |
| CartScreen.DecrementAtMinimum | app/src/main/java/com/paworo06/gameverse/view/cart/CartScreen.kt:195-201 | At Int.MIN_VALUE the two differ. The button asks for removal, while `quantity - 1` wraps to Int.MAX_VALUE. |
| RegisterScreen.InitialForm | app/src/main/java/com/paworo06/gameverse/view/register/RegisterScreen.kt:33-39 | The form starts with all four fields empty and the error null. |
| RegisterScreen.Validate | app/src/main/java/com/paworo06/gameverse/view/register/RegisterScreen.kt:147-155 | Different passwords give the mismatch error, whatever else the form holds. With equal passwords, the required-fields error appears exactly when the username, email or password is blank. There is no error exactly when the passwords match and none of the three is blank, and then the confirmation is not blank either. |
| RegisterScreen.OnRegisterClick | app/src/main/java/com/paworo06/gameverse/view/register/RegisterScreen.kt:145-156 | The click sets the error line to the validator's verdict and leaves the four fields as typed. |
| RegisterScreen.ValidateExamples | app/src/main/java/com/paworo06/gameverse/view/register/RegisterScreen.kt:147-150 | The mismatch error takes priority over blank fields. Whitespace-only input counts as blank. Clicking on the initial form reports missing fields. |
| NavigationBar.ItemsWellFormed | app/src/main/java/com/paworo06/gameverse/view/navegation/NavegationBar.kt:30-44 | The bar has exactly four items, in the order Home, Explore, Cart, Profile. Their labels are "Inicio", "Explorar", "Carrito" and "Perfil", and their icons are `home_icon`, `explore_icon`, `cart_icon` and `usuario_info`. Their routes are pairwise distinct and every item is among them. |
| NavigationBar.IsSelected | app/src/main/java/com/paworo06/gameverse/view/navegation/NavegationBar.kt:71 | A null selected route selects nothing. A selected item is the only item with that route. |
| NavigationBar.Highlighted | app/src/main/java/com/paworo06/gameverse/view/navegation/NavegationBar.kt:69-71 | An item is highlighted exactly when its route equals the selected route. |
| NavigationBar.HighlightedCount | app/src/main/java/com/paworo06/gameverse/view/navegation/NavegationBar.kt:69-80 | At most one item is highlighted. Exactly one is, the item with that route, when the selected route is one of the four. None is when it is null or unknown. |
| NavigationBar.OnItemClick | app/src/main/java/com/paworo06/gameverse/view/navegation/NavegationBar.kt:75-78 | A click reports the clicked item's route, and no other item has that route. |
| MainActivity.KnownRoutes | app/src/main/java/com/paworo06/gameverse/MainActivity.kt:27-34 | The five screen routes are exactly the four bottom-bar routes plus the login route. |
| MainActivity.Render | app/src/main/java/com/paworo06/gameverse/MainActivity.kt:64-104 | The bar is shown, selecting the current route, exactly for the profile, cart, home and explore routes. Each bar route draws its own screen: the profile screen, the cart screen, or the "Inicio" and "Explorar" placeholders. The login screen is shown exactly for the login route. Any other route renders neither branch. |
| MainActivity.Step | app/src/main/java/com/paworo06/gameverse/MainActivity.kt:71-102 | Selecting a nav item sets the route to that item's route. Navigate-to-login moves from profile to the login route, which has no bottom bar. Login success moves to the home route. An event whose callback is not on the rendered screen changes nothing: the bar must be drawn for a nav click, the profile screen for the login link, and the login screen for login success. |
| MainActivity.BottomBarRoutesAreItemRoutes | app/src/main/java/com/paworo06/gameverse/MainActivity.kt:57-62 | The bottom-bar routes are exactly the nav items' routes. |
| MainActivity.BarHighlightsExactlyOne | app/src/main/java/com/paworo06/gameverse/MainActivity.kt:57-69 | Whenever the bottom bar is shown, exactly one nav item is highlighted: the item for the current route. |
| MainActivity.Run | app/src/main/java/com/paworo06/gameverse/MainActivity.kt:55-102 | The route variable starts on the profile route and is rewritten by each callback in turn. Every sequence of events ends on one of the five known routes, so some screen is always drawn. |

## Left out

- Compose rendering: layouts, colours, modifiers, previews and the `println` calls. The home, profile
  and login screens hold no logic of their own; the login button only prints.
- Floating point: `getTotal` is a `Double` sum and the explore filter compares `Float`s. Both are
  modelled on exact integer cents, so Double rounding error is not modelled.
- The `Double → BigDecimal` conversion in `calculateTotal` is modelled at scale 2 for every price.
  The source's text conversion gives scale 1 for prices such as 55.0. The value is the same, and the
  final `setScale(2)` makes the result identical.
- Unicode case folding: `equals`/`contains` with `ignoreCase` fold only ASCII letters here. Kotlin's
  UTF-16 code units are modelled as Unicode scalar values.
- The explore slider's fixed 100 upper bound is UI behaviour. The filter takes any closed range.
- `getCartItems` returns the live backing list although its comment promises a copy. The model
  returns the cart value itself, and aliasing is not modelled.
- The arguments `MainActivity` passes to `ProfileScreen`, `LoginScreen` and `CartScreen` do not match
  those screens' declared parameters. Only the route transitions they are meant to cause are modelled.
- The cart screen's −/+ callbacks are not connected to `CartManager` in the source. The screen only
  prints the requested change (CartScreen.kt:90-91) and its sample list never changes.
  `DecrementIsUpdate` relates the buttons' requests to the cart operations as a reference only.
- Mutable Compose state (`remember { mutableStateOf(…) }`) becomes explicit values passed in and
  returned: the cart list, the form record and the route string.
