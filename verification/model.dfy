/** The entities of the data layer: games in the catalog and the cart's (game, quantity) entries. */
module Model {

  /** Kotlin's 32-bit `Int`. */
  type Int32 = x: int | -0x8000_0000 <= x < 0x8000_0000

  const MinInt32: int := -0x8000_0000
  const MaxInt32: int := 0x7FFF_FFFF

  /** Two's-complement wrap-around of an exact integer into `Int32`, as Kotlin `Int` arithmetic does. */
  function Wrap32(x: int): (r: Int32)
    ensures MinInt32 <= x <= MaxInt32 ==> r == x
  {
    (x - MinInt32) % 0x1_0000_0000 + MinInt32
  }

  /** Kotlin's `Int` addition: the exact sum, wrapped around when it leaves the 32-bit range. */
  function AddInt32(a: Int32, b: Int32): (r: Int32)
    ensures r == Wrap32(a + b)
  {
    if a + b > MaxInt32 then a + b - 0x1_0000_0000
    else if a + b < MinInt32 then a + b + 0x1_0000_0000
    else a + b
  }

  /** Wrapping after each step of a sum gives the same as wrapping the exact sum once. */
  lemma Wrap32Add(a: int, b: int)
    ensures Wrap32(Wrap32(a) + b) == Wrap32(a + b)
  {
    var k := (a - Wrap32(a)) / 0x1_0000_0000;
    assert a == Wrap32(a) + k * 0x1_0000_0000;
    assert (Wrap32(a) + b - MinInt32) == (a + b - MinInt32) - k * 0x1_0000_0000;
    ModShift(a + b - MinInt32, k);
  }

  lemma ModShift(x: int, k: int)
    ensures (x - k * 0x1_0000_0000) % 0x1_0000_0000 == x % 0x1_0000_0000
  {
  }

  /**
   * An image resource id, kept opaque: either a named `R.drawable` constant, known only by
   * its name, or a raw integer id written directly in the code.
   */
  datatype ImageRes = Drawable(name: string) | RawRes(id: int)

  /** A catalog game; `price` is in whole cents. */
  datatype Game = Game(id: int, name: string, desc: string, price: int, imageRes: ImageRes)

  /** A cart entry; `quanty` is a Kotlin `Int` and nothing keeps it positive on insertion. */
  datatype CartItem = CartItem(game: Game, quanty: Int32)
}
