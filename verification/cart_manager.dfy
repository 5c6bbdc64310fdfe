/**
 * The shopping cart: an ordered sequence of (game, quantity) entries, kept unique by game id.
 * Each mutating operation of the Kotlin class is a function from the old entry list to the new one.
 */
module CartManager {
  import opened Wrappers
  import opened Model
  import opened Search

  /** No two entries share a game id. */
  predicate UniqueIds(items: seq<CartItem>) {
    forall i, j :: 0 <= i < j < |items| ==> items[i].game.id != items[j].game.id
  }

  /** The test `find` and `getCartItem` apply to each entry. */
  function HasGameId(id: int): CartItem -> bool {
    (it: CartItem) => it.game.id == id
  }

  /** Entry `k` is the first one whose game has id `id`. */
  predicate IsFirstWithId(items: seq<CartItem>, id: int, k: int) {
    IsFirstAt(items, HasGameId(id), k)
  }

  /** No entry has a game with id `id`. */
  predicate AbsentId(items: seq<CartItem>, id: int) {
    forall i :: 0 <= i < |items| ==> items[i].game.id != id
  }

  /** `getCartItem`: the first entry for `gameId`, or `None` exactly when there is none. */
  function GetCartItem(items: seq<CartItem>, gameId: int): (r: Option<CartItem>)
    ensures r.None? <==> AbsentId(items, gameId)
    ensures r.Some? ==> exists k :: IsFirstWithId(items, gameId, k) && items[k] == r.value
  {
    First(items, HasGameId(gameId))
  }

  /** Kotlin's `List.indexOf`: the first index holding an entry equal to `x`, or -1. */
  function IndexOf(items: seq<CartItem>, x: CartItem): (r: int)
    ensures r == -1 <==> x !in items
    ensures r != -1 ==> 0 <= r < |items| && items[r] == x && forall j :: 0 <= j < r ==> items[j] != x
  {
    match FirstIndex(items, (it: CartItem) => it == x)
    case None => -1
    case Some(k) => k
  }

  /** The entry `find` returns for `id` sits at the index `indexOf` then reports for it, the first one with that id. */
  lemma FoundEntryIndex(items: seq<CartItem>, id: int)
    requires GetCartItem(items, id).Some?
    ensures IsFirstWithId(items, id, IndexOf(items, GetCartItem(items, id).value))
    ensures forall k :: IsFirstWithId(items, id, k) ==> k == IndexOf(items, GetCartItem(items, id).value)
  {
    var k :| IsFirstWithId(items, id, k) && items[k] == GetCartItem(items, id).value;
    assert items[k] in items;
  }

  /** Replacing an entry by one for the same game keeps ids unique. */
  lemma ReplaceKeepsUnique(items: seq<CartItem>, k: int, x: CartItem)
    requires 0 <= k < |items| && x.game.id == items[k].game.id
    ensures UniqueIds(items) ==> UniqueIds(items[k := x])
  {
  }

  /** Appending an entry for an absent id keeps ids unique. */
  lemma AppendKeepsUnique(items: seq<CartItem>, x: CartItem)
    requires AbsentId(items, x.game.id)
    ensures UniqueIds(items) ==> UniqueIds(items + [x])
  {
  }

  /**
   * `addGame`: with the id already present, the first such entry's quantity grows by `quanty`
   * (with `Int` wrap-around) in place and everything else stays; otherwise `CartItem(game, quanty)`
   * is appended. A non-positive `quanty` is not rejected.
   */
  function AddGame(items: seq<CartItem>, game: Game, quanty: Int32): (r: seq<CartItem>)
    ensures forall k :: IsFirstWithId(items, game.id, k) ==>
      r == items[k := CartItem(items[k].game, AddInt32(items[k].quanty, quanty))]
    ensures AbsentId(items, game.id) ==> r == items + [CartItem(game, quanty)]
    ensures UniqueIds(items) ==> UniqueIds(r)
  {
    match GetCartItem(items, game.id)
    case Some(existe) =>
      FoundEntryIndex(items, game.id);
      var index := IndexOf(items, existe);
      var entry := existe.(quanty := AddInt32(existe.quanty, quanty));
      ReplaceKeepsUnique(items, index, entry);
      items[index := entry]
    case None =>
      AppendKeepsUnique(items, CartItem(game, quanty));
      items + [CartItem(game, quanty)]
  }

  /** `removeGame`: drops every entry for `gameId`, keeping the others in order. */
  function RemoveGame(items: seq<CartItem>, gameId: int): (r: seq<CartItem>)
    ensures AbsentId(r, gameId)
    ensures forall x :: x in r <==> x in items && x.game.id != gameId
    ensures IsSubsequence(r, items)
    ensures AbsentId(items, gameId) ==> r == items
    ensures UniqueIds(items) ==> UniqueIds(r)
    decreases |items|
  {
    if |items| == 0 then []
    else
      var rest := RemoveGame(items[1..], gameId);
      assert items == [items[0]] + items[1..];
      if items[0].game.id == gameId then rest
      else
        assert ([items[0]] + rest)[1..] == rest;
        [items[0]] + rest
  }

  /** `removeAll` keeps every entry without the id exactly as many times as it occurs, and no other. */
  lemma {:induction false} RemoveGameCounts(items: seq<CartItem>, gameId: int)
    ensures forall x ::
      multiset(RemoveGame(items, gameId))[x] == (if x.game.id == gameId then 0 else multiset(items)[x])
    decreases |items|
  {
    if |items| > 0 {
      var rest := RemoveGame(items[1..], gameId);
      RemoveGameCounts(items[1..], gameId);
      assert items == [items[0]] + items[1..];
      RemoveHeadCounts(items[0], items[1..], rest, gameId);
    }
  }

  /** One step of `removeAll`'s count: the head is dropped when it has the id, and kept once otherwise. */
  lemma RemoveHeadCounts(x: CartItem, tail: seq<CartItem>, rest: seq<CartItem>, gameId: int)
    requires forall y :: multiset(rest)[y] == if y.game.id == gameId then 0 else multiset(tail)[y]
    ensures forall y ::
      multiset(if x.game.id == gameId then rest else [x] + rest)[y] ==
        (if y.game.id == gameId then 0 else multiset([x] + tail)[y])
  {
    assert multiset([x] + tail) == multiset{x} + multiset(tail);
    assert multiset([x] + rest) == multiset{x} + multiset(rest);
  }

  /**
   * `updateQuantity`: a quantity of 0 or less removes the entry; otherwise the first entry for
   * `gameId`, if any, gets exactly `newQuantity` and nothing else changes.
   */
  function UpdateQuantity(items: seq<CartItem>, gameId: int, newQuantity: Int32): (r: seq<CartItem>)
    ensures newQuantity <= 0 ==> r == RemoveGame(items, gameId)
    ensures newQuantity > 0 ==> forall k :: IsFirstWithId(items, gameId, k) ==>
      r == items[k := CartItem(items[k].game, newQuantity)]
    ensures newQuantity > 0 && AbsentId(items, gameId) ==> r == items
    ensures UniqueIds(items) ==> UniqueIds(r)
  {
    if newQuantity <= 0 then RemoveGame(items, gameId)
    else
      match GetCartItem(items, gameId)
      case Some(item) =>
        FoundEntryIndex(items, gameId);
        var index := IndexOf(items, item);
        var entry := item.(quanty := newQuantity);
        ReplaceKeepsUnique(items, index, entry);
        items[index := entry]
      case None => items
  }

  /** `isEmpty`: true exactly when no game id can be found in the cart; then both totals are 0. */
  predicate IsEmpty(items: seq<CartItem>): (r: bool)
    ensures r <==> forall id :: GetCartItem(items, id).None?
    ensures r ==> GetTotal(items) == 0 && GetTotalItems(items) == 0
  {
    if |items| == 0 then true
    else
      assert GetCartItem(items, items[0].game.id).Some? by {
        assert !AbsentId(items, items[0].game.id);
      }
      false
  }

  /** Σ price × quantity over the entries, in cents (`getTotal` without floating point). */
  function GetTotal(items: seq<CartItem>): (r: int)
    ensures (forall i :: 0 <= i < |items| ==> items[i].game.price >= 0 && items[i].quanty >= 0) ==> r >= 0
    decreases |items|
  {
    if |items| == 0 then 0 else items[0].game.price * items[0].quanty + GetTotal(items[1..])
  }

  /** Σ quantity over the entries, as an exact integer. */
  function SumQuanty(items: seq<CartItem>): int
    decreases |items|
  {
    if |items| == 0 then 0 else items[0].quanty + SumQuanty(items[1..])
  }

  /** Kotlin's `sumOf` over `Int`: an accumulator that wraps at each step, starting from `acc`. */
  function SumQuantyFrom(items: seq<CartItem>, acc: Int32): (r: Int32)
    ensures r == Wrap32(acc + SumQuanty(items))
    decreases |items|
  {
    if |items| == 0 then acc
    else
      var next := AddInt32(acc, items[0].quanty);
      Wrap32Add(acc + items[0].quanty, SumQuanty(items[1..]));
      SumQuantyFrom(items[1..], next)
  }

  /** `getTotalItems`: the total quantity, as the 32-bit `Int` the source accumulates. */
  function GetTotalItems(items: seq<CartItem>): (r: Int32)
    ensures r == Wrap32(SumQuanty(items))
    ensures MinInt32 <= SumQuanty(items) <= MaxInt32 ==> r == SumQuanty(items)
  {
    SumQuantyFrom(items, 0)
  }

  /** `clearCart`: the cart is left empty, with both totals 0. */
  function ClearCart(items: seq<CartItem>): (r: seq<CartItem>)
    ensures IsEmpty(r) && UniqueIds(r)
    ensures GetTotal(r) == 0 && GetTotalItems(r) == 0
    ensures forall id :: GetCartItem(r, id) == None
  {
    []
  }

  /** Price × quantity of one entry, in cents. */
  function LineTotal(x: CartItem): int {
    x.game.price * x.quanty
  }

  /** After `removeGame(id)` lookups of `id` fail and lookups of every other id are unaffected. */
  lemma {:induction false} GetCartItemAfterRemove(items: seq<CartItem>, id: int, other: int)
    ensures GetCartItem(RemoveGame(items, id), id) == None
    ensures other != id ==> GetCartItem(RemoveGame(items, id), other) == GetCartItem(items, other)
    decreases |items|
  {
    if |items| > 0 && other != id {
      GetCartItemAfterRemove(items[1..], id, other);
      var rest := RemoveGame(items[1..], id);
      assert items == [items[0]] + items[1..];
      if items[0].game.id == other {
        assert RemoveGame(items, id) == [items[0]] + rest;
        assert IsFirstWithId(items, other, 0);
        FirstWithIdUnique(items, other, GetCartItem(items, other), 0);
        assert IsFirstWithId([items[0]] + rest, other, 0);
        FirstWithIdUnique([items[0]] + rest, other, GetCartItem([items[0]] + rest, other), 0);
      } else {
        GetCartItemCons(items[0], items[1..], other);
        if items[0].game.id != id {
          assert RemoveGame(items, id) == [items[0]] + rest;
          GetCartItemCons(items[0], rest, other);
        } else {
          assert RemoveGame(items, id) == rest;
        }
      }
    }
  }

  /** A lookup that skips the head of a list is the lookup in its tail. */
  lemma GetCartItemCons(x: CartItem, rest: seq<CartItem>, id: int)
    requires x.game.id != id
    ensures GetCartItem([x] + rest, id) == GetCartItem(rest, id)
  {
    var s := [x] + rest;
    assert s[1..] == rest;
    match GetCartItem(s, id)
    case None =>
      assert AbsentId(rest, id) by {
        forall i | 0 <= i < |rest| ensures rest[i].game.id != id {
          assert s[i + 1] == rest[i];
        }
      }
    case Some(v) =>
      var k :| IsFirstWithId(s, id, k) && s[k] == v;
      assert k > 0;
      assert IsFirstWithId(rest, id, k - 1) by {
        forall j | 0 <= j < k - 1 ensures rest[j].game.id != id {
          assert s[j + 1] == rest[j];
        }
      }
      FirstWithIdUnique(rest, id, GetCartItem(rest, id), k - 1);
  }

  /** Whatever lookup result comes with a first index, it is the entry at that index. */
  lemma FirstWithIdUnique(items: seq<CartItem>, id: int, r: Option<CartItem>, k: int)
    requires r == GetCartItem(items, id) && IsFirstWithId(items, id, k)
    ensures r == Some(items[k])
  {
    var k' :| IsFirstWithId(items, id, k') && items[k'] == r.value;
  }

  /** Replacing the first entry for `id` by another entry for `id` makes that the entry found. */
  lemma LookupAfterReplace(items: seq<CartItem>, id: int, k: int, x: CartItem)
    requires IsFirstWithId(items, id, k) && x.game.id == id
    ensures GetCartItem(items[k := x], id) == Some(x)
  {
    assert IsFirstWithId(items[k := x], id, k);
    FirstWithIdUnique(items[k := x], id, GetCartItem(items[k := x], id), k);
  }

  /** Appending an entry for an absent id makes that the entry found. */
  lemma LookupAfterAppend(items: seq<CartItem>, x: CartItem)
    requires AbsentId(items, x.game.id)
    ensures GetCartItem(items + [x], x.game.id) == Some(x)
  {
    assert IsFirstWithId(items + [x], x.game.id, |items|);
    FirstWithIdUnique(items + [x], x.game.id, GetCartItem(items + [x], x.game.id), |items|);
  }

  /** After `addGame`, looking up the game's id yields the merged entry, or the new one. */
  lemma GetCartItemAfterAdd(items: seq<CartItem>, game: Game, quanty: Int32)
    ensures GetCartItem(items, game.id).Some? ==>
      GetCartItem(AddGame(items, game, quanty), game.id) ==
        Some(CartItem(GetCartItem(items, game.id).value.game, AddInt32(GetCartItem(items, game.id).value.quanty, quanty)))
    ensures GetCartItem(items, game.id).None? ==>
      GetCartItem(AddGame(items, game, quanty), game.id) == Some(CartItem(game, quanty))
  {
    var found := GetCartItem(items, game.id);
    if found.Some? {
      FoundEntryIndex(items, game.id);
      var k := IndexOf(items, found.value);
      assert items[k] == found.value;
      var entry := CartItem(found.value.game, AddInt32(found.value.quanty, quanty));
      assert AddGame(items, game, quanty) == items[k := entry];
      LookupAfterReplace(items, game.id, k, entry);
    } else {
      LookupAfterAppend(items, CartItem(game, quanty));
    }
  }

  /** After `updateQuantity(id, n)`: nothing for `id` when n <= 0; the entry with quantity n when present and n > 0. */
  lemma GetCartItemAfterUpdate(items: seq<CartItem>, id: int, n: Int32)
    ensures n <= 0 ==> GetCartItem(UpdateQuantity(items, id, n), id) == None
    ensures n > 0 ==>
      GetCartItem(UpdateQuantity(items, id, n), id) ==
        match GetCartItem(items, id)
        case Some(prev) => Some(CartItem(prev.game, n))
        case None => None
  {
    if n <= 0 {
      GetCartItemAfterRemove(items, id, id);
    } else if GetCartItem(items, id).Some? {
      FoundEntryIndex(items, id);
      var k := IndexOf(items, GetCartItem(items, id).value);
      LookupAfterReplace(items, id, k, CartItem(items[k].game, n));
    }
  }

  /** `getTotal` over a concatenation is the sum of the parts. */
  lemma {:induction false} GetTotalConcat(a: seq<CartItem>, b: seq<CartItem>)
    ensures GetTotal(a + b) == GetTotal(a) + GetTotal(b)
    decreases |a|
  {
    if |a| > 0 {
      assert (a + b)[1..] == a[1..] + b;
      GetTotalConcat(a[1..], b);
    } else {
      assert a + b == b;
    }
  }

  /** Taking the same element off the front of `a` and out of `b` at `i` keeps the multisets equal. */
  lemma RemoveOneMultiset(a: seq<CartItem>, b: seq<CartItem>, i: nat)
    requires multiset(a) == multiset(b) && |a| > 0 && i < |b| && b[i] == a[0]
    ensures multiset(a[1..]) == multiset(b[..i] + b[i + 1..])
  {
    assert a == [a[0]] + a[1..];
    assert b == b[..i] + [b[i]] + b[i + 1..];
    var rest := b[..i] + b[i + 1..];
    assert multiset(a) == multiset(a[1..]) + multiset{a[0]};
    assert multiset(b) == multiset(b[..i]) + multiset{b[i]} + multiset(b[i + 1..]);
    assert multiset(rest) == multiset(b[..i]) + multiset(b[i + 1..]);
    assert multiset(a[1..]) + multiset{a[0]} == multiset(rest) + multiset{a[0]};
    forall x ensures multiset(a[1..])[x] == multiset(rest)[x] {
      assert (multiset(a[1..]) + multiset{a[0]})[x] == (multiset(rest) + multiset{a[0]})[x];
    }
  }

  /** `getTotal` does not depend on the order of the entries. */
  lemma {:induction false} GetTotalPermutation(a: seq<CartItem>, b: seq<CartItem>)
    requires multiset(a) == multiset(b)
    ensures GetTotal(a) == GetTotal(b)
    decreases |a|
  {
    if |a| == 0 {
      assert |b| == |multiset(b)| == 0;
    } else {
      assert a[0] in multiset(b);
      var i :| 0 <= i < |b| && b[i] == a[0];
      var rest := b[..i] + b[i + 1..];
      assert b == b[..i] + [b[i]] + b[i + 1..];
      RemoveOneMultiset(a, b, i);
      GetTotalPermutation(a[1..], rest);
      GetTotalConcat(b[..i] + [b[i]], b[i + 1..]);
      GetTotalConcat(b[..i], [b[i]]);
      GetTotalConcat(b[..i], b[i + 1..]);
    }
  }

  /** `getTotalItems` over a concatenation: the exact sums add. */
  lemma {:induction false} SumQuantyConcat(a: seq<CartItem>, b: seq<CartItem>)
    ensures SumQuanty(a + b) == SumQuanty(a) + SumQuanty(b)
    decreases |a|
  {
    if |a| > 0 {
      assert (a + b)[1..] == a[1..] + b;
      SumQuantyConcat(a[1..], b);
    } else {
      assert a + b == b;
    }
  }

  /** Replacing one entry changes the exact quantity sum by the difference of the two quantities. */
  lemma {:induction false} SumQuantyReplace(items: seq<CartItem>, k: nat, x: CartItem)
    requires k < |items|
    ensures SumQuanty(items[k := x]) == SumQuanty(items) - items[k].quanty + x.quanty
    decreases |items|
  {
    if k > 0 {
      assert items[k := x][1..] == items[1..][k - 1 := x];
      SumQuantyReplace(items[1..], k - 1, x);
    }
  }

  /** How `addGame(game, q)` changes the exact quantity sum: the merged entry's wrapped quantity replaces its old one, or `q` is added. */
  lemma SumQuantyAfterAdd(items: seq<CartItem>, game: Game, quanty: Int32)
    ensures GetCartItem(items, game.id).Some? ==>
      SumQuanty(AddGame(items, game, quanty)) ==
        SumQuanty(items) - GetCartItem(items, game.id).value.quanty
        + AddInt32(GetCartItem(items, game.id).value.quanty, quanty)
    ensures GetCartItem(items, game.id).None? ==>
      SumQuanty(AddGame(items, game, quanty)) == SumQuanty(items) + quanty
  {
    var found := GetCartItem(items, game.id);
    if found.Some? {
      FoundEntryIndex(items, game.id);
      var k := IndexOf(items, found.value);
      assert items[k] == found.value;
      var entry := CartItem(found.value.game, AddInt32(found.value.quanty, quanty));
      assert AddGame(items, game, quanty) == items[k := entry];
      SumQuantyReplace(items, k, entry);
    } else {
      SumQuantyConcat(items, [CartItem(game, quanty)]);
    }
  }

  /** `addGame(game, q)` raises `getTotalItems` by exactly `q`, in 32-bit `Int` arithmetic. */
  lemma TotalItemsAfterAdd(items: seq<CartItem>, game: Game, quanty: Int32)
    ensures GetTotalItems(AddGame(items, game, quanty)) == AddInt32(GetTotalItems(items), quanty)
  {
    SumQuantyAfterAdd(items, game, quanty);
    var found := GetCartItem(items, game.id);
    var after := SumQuanty(AddGame(items, game, quanty));
    if found.Some? {
      MergedSumWraps(SumQuanty(items), after, found.value.quanty, quanty);
    } else {
      Wrap32Add(SumQuanty(items), quanty);
    }
  }

  /** Swapping a summand `q` for `q + d` in `Int` arithmetic leaves the wrapped total where adding `d` puts it. */
  lemma MergedSumWraps(total: int, after: int, q: Int32, d: Int32)
    requires after == total - q + AddInt32(q, d)
    ensures Wrap32(after) == AddInt32(Wrap32(total), d)
  {
    Wrap32Add(q + d, total - q);
    Wrap32Add(total, d);
    assert Wrap32(q + d) + (total - q) == after;
    assert (q + d) + (total - q) == total + d;
  }

  /** With ids unique, `removeGame(id)` lowers `getTotal` by exactly the removed entry's line total. */
  lemma {:induction false} GetTotalAfterRemove(items: seq<CartItem>, id: int)
    requires UniqueIds(items)
    ensures GetTotal(RemoveGame(items, id)) == GetTotal(items) -
      match GetCartItem(items, id)
      case Some(x) => LineTotal(x)
      case None => 0
    decreases |items|
  {
    if |items| > 0 {
      assert UniqueIds(items[1..]);
      if items[0].game.id == id {
        assert IsFirstWithId(items, id, 0);
        FirstWithIdUnique(items, id, GetCartItem(items, id), 0);
        assert AbsentId(items[1..], id);
      } else {
        GetTotalAfterRemove(items[1..], id);
        GetCartItemCons(items[0], items[1..], id);
        assert [items[0]] + items[1..] == items;
      }
    }
  }
}
