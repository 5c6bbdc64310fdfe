/**
 * The explore screen's pure filter and sort: keep the games whose name or description
 * contains the query (ignoring case) and whose price lies in a closed range, then order
 * them by price as the selected option says.
 */
module ExploreFilter {
  import opened Model
  import opened Text
  import opened Search
  import GameRepository

  /** A closed price range in cents, the model of the slider's `start..endInclusive`. */
  datatype PriceRange = PriceRange(start: int, endInclusive: int)

  const SortAscending: string := "Menor Precio"
  const SortDescending: string := "Mayor Precio"

  /** The two sort options offered by the filter sheet. */
  const SortOptionsPrice: seq<string> := [SortAscending, SortDescending]

  /** A blank query matches everything; otherwise the name or the description must contain it. */
  predicate MatchesSearch(game: Game, query: string) {
    IsBlank(query) || ContainsIgnoreCase(game.name, query) || ContainsIgnoreCase(game.desc, query)
  }

  /**
   * A blank query matches every game; a non-blank one matches exactly when it occurs, ignoring case,
   * at some offset of the name or the description.
   */
  lemma MatchesSearchOccurs(game: Game, query: string)
    ensures IsBlank(query) ==> MatchesSearch(game, query)
    ensures !IsBlank(query) ==> (MatchesSearch(game, query) <==>
      (exists i :: 0 <= i && i + |query| <= |game.name| && RegionMatchesIgnoreCase(game.name, i, query)) ||
      (exists i :: 0 <= i && i + |query| <= |game.desc| && RegionMatchesIgnoreCase(game.desc, i, query)))
  {
  }

  /** The slider's closed range `start..endInclusive`. */
  predicate MatchesPriceRange(game: Game, range: PriceRange) {
    range.start <= game.price <= range.endInclusive
  }

  /** Both ends of the range are inclusive: `p..p` keeps exactly price `p`, and a reversed range keeps nothing. */
  lemma PriceRangeInclusive(game: Game, range: PriceRange)
    ensures range.endInclusive < range.start ==> !MatchesPriceRange(game, range)
    ensures MatchesPriceRange(game, PriceRange(game.price, game.price))
    ensures range.start == range.endInclusive ==> (MatchesPriceRange(game, range) <==> game.price == range.start)
  {
  }

  predicate Keep(game: Game, query: string, range: PriceRange) {
    MatchesSearch(game, query) && MatchesPriceRange(game, range)
  }

  /** The test the `filter` step applies to each game. */
  function KeepTest(query: string, range: PriceRange): Game -> bool {
    (g: Game) => Keep(g, query, range)
  }

  /** The `filter` step: kept games, each as often as in the input, in input order. */
  function FilterGames(games: seq<Game>, query: string, range: PriceRange): (r: seq<Game>)
    ensures |r| <= |games|
    ensures forall g :: multiset(r)[g] == if Keep(g, query, range) then multiset(games)[g] else 0
    ensures forall g :: g in r ==> g in games && Keep(g, query, range)
    ensures IsSubsequence(r, games)
    ensures (forall i :: 0 <= i < |games| ==> Keep(games[i], query, range)) ==> r == games
  {
    Filter(games, KeepTest(query, range))
  }

  /** Direction of the price sort. */
  datatype Direction = Ascending | Descending

  /** `a` may precede `b` in a list sorted in direction `d`. */
  predicate InOrder(d: Direction, a: Game, b: Game) {
    match d
    case Ascending => a.price <= b.price
    case Descending => a.price >= b.price
  }

  predicate Sorted(d: Direction, s: seq<Game>) {
    forall i, j :: 0 <= i < j < |s| ==> InOrder(d, s[i], s[j])
  }

  /**
   * Insert `x` into the sorted `s` in front of the first element it may precede; since `x`
   * comes from earlier in the input than every element of `s`, equal prices keep input order.
   */
  function Insert(d: Direction, x: Game, s: seq<Game>): (r: seq<Game>)
    requires Sorted(d, s)
    ensures multiset(r) == multiset(s) + multiset{x}
    ensures Sorted(d, r)
    ensures |r| == |s| + 1
    ensures r[0] == x || (|s| > 0 && r[0] == s[0])
    decreases |s|
  {
    if |s| == 0 || InOrder(d, x, s[0]) then [x] + s
    else
      var rest := Insert(d, x, s[1..]);
      assert s == [s[0]] + s[1..];
      [s[0]] + rest
  }

  /** A stable sort by price (Kotlin's `sortedBy` / `sortedByDescending`), by insertion. */
  function SortByPrice(d: Direction, s: seq<Game>): (r: seq<Game>)
    ensures multiset(r) == multiset(s)
    ensures forall g :: g in r <==> g in s
    ensures Sorted(d, r)
    decreases |s|
  {
    if |s| == 0 then []
    else
      assert s == [s[0]] + s[1..];
      var r := Insert(d, s[0], SortByPrice(d, s[1..]));
      assert forall g :: g in r <==> g in multiset(r);
      r
  }

  /** `applyFiltersAndSearch`: filter, then sort by the option; an unknown option keeps filter order. */
  function ApplyFiltersAndSearch(games: seq<Game>, searchQuery: string, sortOption: string, priceRange: PriceRange)
    : (r: seq<Game>)
    ensures |r| <= |games|
    ensures forall g :: g in r ==> g in games
    ensures IsBlank(searchQuery) ==>
      forall g :: multiset(r)[g] == if MatchesPriceRange(g, priceRange) then multiset(games)[g] else 0
    ensures !IsBlank(searchQuery) ==>
      forall g :: g in r ==> ContainsIgnoreCase(g.name, searchQuery) || ContainsIgnoreCase(g.desc, searchQuery)
    ensures forall g :: g in r ==> priceRange.start <= g.price <= priceRange.endInclusive
    ensures forall g :: multiset(r)[g] == if Keep(g, searchQuery, priceRange) then multiset(games)[g] else 0
    ensures sortOption == SortAscending ==> Sorted(Ascending, r)
    ensures sortOption == SortDescending ==> Sorted(Descending, r)
    ensures sortOption !in SortOptionsPrice ==> r == FilterGames(games, searchQuery, priceRange)
    ensures forall p :: WithPrice(r, p) == WithPrice(FilterGames(games, searchQuery, priceRange), p)
  {
    var result := FilterGames(games, searchQuery, priceRange);
    if sortOption == SortAscending then
      SortStableAll(Ascending, result);
      SortByPrice(Ascending, result)
    else if sortOption == SortDescending then
      SortStableAll(Descending, result);
      SortByPrice(Descending, result)
    else result
  }

  /** The games of `s` priced exactly `p`, in their order in `s`. */
  function WithPrice(s: seq<Game>, p: int): seq<Game>
    decreases |s|
  {
    if |s| == 0 then [] else (if s[0].price == p then [s[0]] else []) + WithPrice(s[1..], p)
  }

  /** `WithPrice` of a list with a known head. */
  lemma WithPriceCons(a: Game, t: seq<Game>, p: int)
    ensures WithPrice([a] + t, p) == (if a.price == p then [a] else []) + WithPrice(t, p)
  {
    assert ([a] + t)[1..] == t;
  }

  /** Inserting `x` puts it in front of every game of equal price already there. */
  lemma {:induction false} InsertStable(d: Direction, x: Game, s: seq<Game>, p: int)
    requires Sorted(d, s)
    ensures WithPrice(Insert(d, x, s), p) == (if x.price == p then [x] else []) + WithPrice(s, p)
    decreases |s|
  {
    if |s| == 0 || InOrder(d, x, s[0]) {
      WithPriceCons(x, s, p);
    } else {
      var rest := Insert(d, x, s[1..]);
      assert Insert(d, x, s) == [s[0]] + rest;
      assert s == [s[0]] + s[1..];
      InsertStable(d, x, s[1..], p);
      WithPriceCons(s[0], rest, p);
      WithPriceCons(s[0], s[1..], p);
      assert s[0].price != x.price;
    }
  }

  /** The price sort is stable: games of equal price keep their input order, in either direction. */
  lemma {:induction false} SortStable(d: Direction, s: seq<Game>, p: int)
    ensures WithPrice(SortByPrice(d, s), p) == WithPrice(s, p)
    decreases |s|
  {
    if |s| > 0 {
      SortStable(d, s[1..], p);
      InsertStable(d, s[0], SortByPrice(d, s[1..]), p);
    }
  }

  /** `SortStable` for every price at once. */
  lemma SortStableAll(d: Direction, s: seq<Game>)
    ensures forall p :: WithPrice(SortByPrice(d, s), p) == WithPrice(s, p)
  {
    forall p ensures WithPrice(SortByPrice(d, s), p) == WithPrice(s, p) {
      SortStable(d, s, p);
    }
  }

  /**
   * With a blank query, a range covering every catalog price and an option that is neither
   * sort option, the catalog comes back unchanged.
   */
  lemma ExploreCatalogUnfiltered(query: string, sortOption: string)
    requires IsBlank(query) && sortOption !in SortOptionsPrice
    ensures ApplyFiltersAndSearch(GameRepository.GetAllGames(), query, sortOption, PriceRange(0, 10000)) ==
      GameRepository.GetAllGames()
  {
    var all := GameRepository.GetAllGames();
    assert forall i :: 0 <= i < |all| ==> Keep(all[i], query, PriceRange(0, 10000));
  }
}
