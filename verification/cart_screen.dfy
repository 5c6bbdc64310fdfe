/**
 * The cart screen's arithmetic: the `BigDecimal` subtotal rounded to two decimals half-up,
 * and the quantity requests of its "−" and "+" buttons.
 */
module CartScreen {
  import opened Model
  import CartManager

  /** A `BigDecimal`: the value `unscaled / 10^scale`. */
  datatype Decimal = Decimal(unscaled: int, scale: nat)

  function Pow10(n: nat): (r: nat)
    ensures r >= 1
  {
    if n == 0 then 1 else 10 * Pow10(n - 1)
  }

  lemma {:induction false} Pow10Add(a: nat, b: nat)
    ensures Pow10(a + b) == Pow10(a) * Pow10(b)
    decreases a
  {
    if a > 0 {
      Pow10Add(a - 1, b);
      assert Pow10(a + b) == 10 * Pow10(a - 1 + b);
    }
  }

  /** `a` and `b` denote the same number, whatever their scales. */
  predicate SameValue(a: Decimal, b: Decimal) {
    a.unscaled * Pow10(b.scale) == b.unscaled * Pow10(a.scale)
  }

  /** The same number written with `scale + k` digits after the point. */
  function Rescale(d: Decimal, k: nat): (r: Decimal)
    ensures r.scale == d.scale + k && SameValue(r, d)
  {
    Pow10Add(d.scale, k);
    Decimal(d.unscaled * Pow10(k), d.scale + k)
  }

  /** `BigDecimal.add`: exact, with the larger of the two scales. */
  function Add(a: Decimal, b: Decimal): (r: Decimal)
    ensures r.scale == if a.scale >= b.scale then a.scale else b.scale
  {
    if a.scale >= b.scale then Decimal(a.unscaled + Rescale(b, a.scale - b.scale).unscaled, a.scale)
    else Decimal(Rescale(a, b.scale - a.scale).unscaled + b.unscaled, b.scale)
  }

  /** `BigDecimal.multiply`: exact, scales add. */
  function Multiply(a: Decimal, b: Decimal): Decimal {
    Decimal(a.unscaled * b.unscaled, a.scale + b.scale)
  }

  function Abs(x: int): nat {
    if x < 0 then -x else x
  }

  lemma DivMod(a: nat, divisor: nat)
    requires divisor >= 1
    ensures a == (a / divisor) * divisor + a % divisor && 0 <= a % divisor < divisor
  {
  }

  lemma MulDistrib(q: int, divisor: int)
    ensures (q + 1) * divisor == q * divisor + divisor
    ensures (-q) * divisor == -(q * divisor)
  {
  }

  /** `a / divisor` rounded to the nearest natural number, a tie rounding up. */
  function RoundHalfUpNat(a: nat, divisor: nat): (n: nat)
    requires divisor >= 1
    ensures 2 * Abs(n * divisor - a) <= divisor
    ensures 2 * Abs(n * divisor - a) == divisor ==> n * divisor > a
  {
    var q := a / divisor;
    var rem := a % divisor;
    DivMod(a, divisor);
    MulDistrib(q, divisor);
    if 2 * rem >= divisor then q + 1 else q
  }

  /** `u / divisor` rounded to the nearest integer, a tie going away from zero (`RoundingMode.HALF_UP`). */
  function RoundHalfUp(u: int, divisor: nat): (m: int)
    requires divisor >= 1
    ensures 2 * Abs(m * divisor - u) <= divisor
    ensures 2 * Abs(m * divisor - u) == divisor ==> Abs(m * divisor) > Abs(u)
    ensures u >= 0 ==> m >= 0
    ensures u <= 0 ==> m <= 0
  {
    var n: int := RoundHalfUpNat(Abs(u), divisor);
    MulDistrib(n, divisor);
    if u >= 0 then n else -n
  }

  /**
   * `BigDecimal.setScale(newScale, RoundingMode.HALF_UP)`: widening pads with zeros; narrowing
   * rounds to the nearest value at the new scale, a tie going away from zero.
   */
  function SetScaleHalfUp(d: Decimal, newScale: nat): (r: Decimal)
    ensures r.scale == newScale
    ensures newScale >= d.scale ==> SameValue(r, d)
    ensures newScale < d.scale ==>
      2 * Abs(r.unscaled * Pow10(d.scale - newScale) - d.unscaled) <= Pow10(d.scale - newScale)
    ensures newScale < d.scale && 2 * Abs(r.unscaled * Pow10(d.scale - newScale) - d.unscaled) == Pow10(d.scale - newScale)
      ==> Abs(r.unscaled * Pow10(d.scale - newScale)) > Abs(d.unscaled)
    ensures d.unscaled >= 0 ==> r.unscaled >= 0
    ensures d.unscaled <= 0 ==> r.unscaled <= 0
  {
    if newScale >= d.scale then Rescale(d, newScale - d.scale)
    else Decimal(RoundHalfUp(d.unscaled, Pow10(d.scale - newScale)), newScale)
  }

  /** Half-up keeps a tie away from zero on both signs and otherwise rounds to the nearest cent. */
  lemma SetScaleHalfUpExamples()
    ensures SetScaleHalfUp(Decimal(12345, 3), 2) == Decimal(1235, 2)
    ensures SetScaleHalfUp(Decimal(-12345, 3), 2) == Decimal(-1235, 2)
    ensures SetScaleHalfUp(Decimal(12344, 3), 2) == Decimal(1234, 2)
    ensures SetScaleHalfUp(Decimal(7, 0), 2) == Decimal(700, 2)
  {
    assert Pow10(1) == 10;
    assert Pow10(2) == 100;
  }

  /** A price in cents as the `BigDecimal` its two-decimal text denotes. */
  function PriceDecimal(cents: int): Decimal {
    Decimal(cents, 2)
  }

  /** One line of the subtotal: price × quantity. */
  function LineDecimal(item: CartItem): Decimal {
    Multiply(PriceDecimal(item.game.price), Decimal(item.quanty, 0))
  }

  /** Kotlin's `sumOf` over `BigDecimal`: a left fold of `add` starting from zero at scale 0. */
  function SumOf(items: seq<CartItem>): (r: Decimal)
    ensures r.scale == if |items| == 0 then 0 else 2
    ensures r.unscaled == CartManager.GetTotal(items)
    decreases |items|
  {
    if |items| == 0 then Decimal(0, 0)
    else
      var prefix := items[..|items| - 1];
      var last := items[|items| - 1];
      TotalSnoc(prefix, last);
      assert prefix + [last] == items;
      Add(SumOf(prefix), LineDecimal(last))
  }

  /** `getTotal` of a list extended by one entry adds that entry's line total. */
  lemma {:induction false} TotalSnoc(items: seq<CartItem>, x: CartItem)
    ensures CartManager.GetTotal(items + [x]) == CartManager.GetTotal(items) + x.game.price * x.quanty
  {
    CartManager.GetTotalConcat(items, [x]);
  }

  /** `calculateTotal`: the exact subtotal Σ price × quantity, rounded to 2 decimals half-up. */
  function CalculateTotal(items: seq<CartItem>): (r: Decimal)
    ensures r.scale == 2
    ensures r.unscaled == CartManager.GetTotal(items)
    ensures |items| == 0 ==> r == Decimal(0, 2)
  {
    SetScaleHalfUp(SumOf(items), 2)
  }

  /** The subtotal depends only on which entries there are, not on their order. */
  lemma CalculateTotalPermutation(a: seq<CartItem>, b: seq<CartItem>)
    requires multiset(a) == multiset(b)
    ensures CalculateTotal(a) == CalculateTotal(b)
  {
    CartManager.GetTotalPermutation(a, b);
  }

  /** What a quantity button asks the caller to do. */
  datatype QuantityRequest = ChangeQuantity(newQuantity: Int32) | Remove

  /** The "−" button: one less while above 1, removal once the quantity is 1 or less. */
  function DecrementRequest(quantity: Int32): (r: QuantityRequest)
    ensures quantity > 1 ==> r == ChangeQuantity(quantity - 1)
    ensures quantity <= 1 ==> r == Remove
    ensures r.ChangeQuantity? ==> r.newQuantity >= 1 && r.newQuantity < quantity
  {
    if quantity > 1 then ChangeQuantity(quantity - 1) else Remove
  }

  /** The "+" button: always one more, in 32-bit `Int` arithmetic. */
  function IncrementRequest(quantity: Int32): (r: QuantityRequest)
    ensures r.ChangeQuantity?
    ensures quantity < MaxInt32 ==> r.newQuantity == quantity + 1
    ensures quantity == MaxInt32 ==> r.newQuantity == MinInt32
  {
    ChangeQuantity(AddInt32(quantity, 1))
  }

  /** Carrying out a request on a cart with the cart's own operations. */
  function Apply(items: seq<CartItem>, gameId: int, req: QuantityRequest): seq<CartItem> {
    match req
    case ChangeQuantity(n) => CartManager.UpdateQuantity(items, gameId, n)
    case Remove => CartManager.RemoveGame(items, gameId)
  }

  /**
   * The "−" button agrees with `updateQuantity(quantity - 1)` for every quantity above `Int.MIN_VALUE`:
   * its removal branch is exactly the cart's delete-at-zero rule.
   */
  lemma DecrementIsUpdate(items: seq<CartItem>, gameId: int, quantity: Int32)
    requires quantity > MinInt32
    ensures Apply(items, gameId, DecrementRequest(quantity)) == CartManager.UpdateQuantity(items, gameId, quantity - 1)
  {
    var req := DecrementRequest(quantity);
    var lowered: Int32 := quantity - 1;
    if quantity > 1 {
      assert req == ChangeQuantity(lowered);
    } else {
      assert req == Remove;
      assert Apply(items, gameId, req) == CartManager.RemoveGame(items, gameId);
      assert lowered <= 0;
    }
  }

  /**
   * At `Int.MIN_VALUE` the two differ: the button asks for removal, while `quantity - 1` wraps to
   * `Int.MAX_VALUE`, which `updateQuantity` would store.
   */
  lemma DecrementAtMinimum(items: seq<CartItem>, gameId: int)
    ensures Apply(items, gameId, DecrementRequest(MinInt32)) == CartManager.RemoveGame(items, gameId)
    ensures AddInt32(MinInt32, -1) == MaxInt32
  {
  }

  /** The screen's sample cart: 69.99 × 1 + 14.99 × 2 + 55.00 × 1 comes to 154.97. */
  lemma CalculateTotalSample()
    ensures CalculateTotal([
      CartItem(Game(1, "Elden Ring", "...", 6999, RawRes(0)), 1),
      CartItem(Game(2, "Hollow Knight", "...", 1499, RawRes(2)), 2),
      CartItem(Game(3, "God of War Ragnarök", "...", 5500, RawRes(3)), 1)]) == Decimal(15497, 2)
  {
    var items := [
      CartItem(Game(1, "Elden Ring", "...", 6999, RawRes(0)), 1),
      CartItem(Game(2, "Hollow Knight", "...", 1499, RawRes(2)), 2),
      CartItem(Game(3, "God of War Ragnarök", "...", 5500, RawRes(3)), 1)];
    assert items[1..][1..][1..] == [];
    assert CartManager.GetTotal(items) == 15497;
  }
}
