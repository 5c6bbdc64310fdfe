/** The fixed in-memory catalog of five games and its two linear-scan lookups. */
module GameRepository {
  import opened Wrappers
  import opened Model
  import opened Search
  import opened Text

  const Minecraft: Game :=
    Game(1, "Minecraft", "Juego de construcción y aventura en mundo abierto", 999, Drawable("game_minecraft"))
  const GtaV: Game :=
    Game(2, "GTA V", "Juego de acción en mundo abierto", 1299, Drawable("game_gta_v"))
  const HollowKnight: Game :=
    Game(3, "Hollow Knight", "Metroidvania en 2D con profunda exploracion y narrativa ambiental", 599,
         Drawable("game_hollow_knight"))
  const RainbowSixSiege: Game :=
    Game(4, "Rainbow Six Siege", "Shooter táctico en primera persona 5v5", 5999, Drawable("game_rainbow_six_siege"))
  const TheLastOfUs: Game :=
    Game(5, "The Last Of Us", "RPG de aventura y supervivencia", 5999, Drawable("game_the_last_of_us"))

  /** The catalog, in declaration order; an immutable `val`, so every lookup below is a pure function. */
  const ListGames: seq<Game> := [Minecraft, GtaV, HollowKnight, RainbowSixSiege, TheLastOfUs]

  /** All catalog games: five of them, with ids 1..5 in order, distinct, and every price positive. */
  function GetAllGames(): (r: seq<Game>)
    ensures |r| == 5
    ensures forall i :: 0 <= i < |r| ==> r[i].id == i + 1
    ensures forall i, j :: 0 <= i < j < |r| ==> r[i].id != r[j].id
    ensures forall i :: 0 <= i < |r| ==> r[i].price > 0
  {
    ListGames
  }

  /** The test `getGameById` applies to each game. */
  function HasId(id: int): Game -> bool {
    (g: Game) => g.id == id
  }

  /** The test `searchGameByName` applies to each game: whole-name equality ignoring case. */
  function HasName(name: string): Game -> bool {
    (g: Game) => EqualsIgnoreCase(g.name, name)
  }

  /** The catalog game with id `id`: the first with that id, and `None` exactly when no game has it. */
  function GetGameById(id: int): (r: Option<Game>)
    ensures r.None? <==> forall i :: 0 <= i < |GetAllGames()| ==> GetAllGames()[i].id != id
    ensures r.Some? ==> r.value in GetAllGames() && r.value.id == id
    ensures r.Some? ==> exists k :: IsFirstAt(GetAllGames(), HasId(id), k) && GetAllGames()[k] == r.value
  {
    First(GetAllGames(), HasId(id))
  }

  /**
   * The first catalog game whose whole name equals `name` ignoring case;
   * `None` exactly when no name matches.
   */
  function SearchGameByName(name: string): (r: Option<Game>)
    ensures r.None? <==> forall i :: 0 <= i < |GetAllGames()| ==> !EqualsIgnoreCase(GetAllGames()[i].name, name)
    ensures r.Some? ==> r.value in GetAllGames() && EqualsIgnoreCase(r.value.name, name)
    ensures r.Some? ==> exists k :: IsFirstAt(GetAllGames(), HasName(name), k) && GetAllGames()[k] == r.value
  {
    First(GetAllGames(), HasName(name))
  }

  /** Since catalog ids are exactly 1..5, a lookup by id succeeds exactly on those, with the game at position id - 1. */
  lemma GetGameByIdCatalog(id: int)
    ensures GetGameById(id).Some? <==> 1 <= id <= 5
    ensures 1 <= id <= 5 ==> GetGameById(id) == Some(ListGames[id - 1])
  {
    var all := GetAllGames();
    if 1 <= id <= 5 {
      assert all[id - 1].id == id;
      var g := GetGameById(id).value;
      var k :| 0 <= k < |all| && all[k] == g && g.id == id;
      assert k == id - 1;
    }
  }

  /** The name lookup compares whole names: a differently-cased full name is found, a prefix is not. */
  lemma SearchGameByNameWholeName()
    ensures SearchGameByName("minecraft") == Some(Minecraft)
    ensures SearchGameByName("HOLLOW KNIGHT") == Some(HollowKnight)
    ensures SearchGameByName("Mine") == None
  {
    var all := GetAllGames();
    assert EqualsIgnoreCase(all[0].name, "minecraft");
    assert !EqualsIgnoreCase(all[1].name, "HOLLOW KNIGHT");
    assert EqualsIgnoreCase(all[2].name, "HOLLOW KNIGHT");
  }
}
