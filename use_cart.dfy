/** The cart of the `useCart` hook (src/hooks/useCart.ts): one entry per dish
    id, each with a quantity and an optional note. Unlike the cart context, it
    adds any quantity at once and never removes an entry on a zero quantity. */
module UseCart {
  import opened Common

  /** The part of a `jedi` row the cart reads. */
  datatype Dish = Dish(id: string, ime: string, cena: real)

  datatype CartEntry = CartEntry(jed: Dish, kolicina: int, opomba: Option<string>)

  /** JavaScript truthiness of an optional string: present and non-empty. */
  predicate Truthy(s: Option<string>)
  {
    s.Some? && s.value != ""
  }

  /** `opomba || previous`. */
  function OrElse(s: Option<string>, previous: Option<string>): (r: Option<string>)
    ensures Truthy(s) ==> r == s
    ensures !Truthy(s) ==> r == previous
  {
    if Truthy(s) then s else previous
  }

  /** At most one entry per dish id. */
  predicate UniqueIds(items: seq<CartEntry>)
  {
    forall i, j :: 0 <= i < j < |items| ==> items[i].jed.id != items[j].jed.id
  }

  /** `findIndex` on the dish id: the first position holding it, or -1. */
  method FindIndex(items: seq<CartEntry>, jedId: string) returns (index: int)
    ensures -1 <= index < |items|
    ensures index >= 0 ==> items[index].jed.id == jedId
    ensures forall j :: 0 <= j < |items| && (index < 0 || j < index) ==> items[j].jed.id != jedId
  {
    var i := 0;
    while i < |items|
      invariant 0 <= i <= |items|
      invariant forall j :: 0 <= j < i ==> items[j].jed.id != jedId
    {
      if items[i].jed.id == jedId {
        return i;
      }
      i := i + 1;
    }
    return -1;
  }

  /** The entry after a merge: quantity added, note replaced only by a truthy one. */
  function Merged(entry: CartEntry, kolicina: int, opomba: Option<string>): CartEntry
  {
    entry.(kolicina := entry.kolicina + kolicina, opomba := OrElse(opomba, entry.opomba))
  }

  /** The `map` of `updateCartItem`. */
  function Overwritten(items: seq<CartEntry>, jedId: string, kolicina: int, opomba: Option<string>): (r: seq<CartEntry>)
    ensures |r| == |items|
    ensures forall i :: 0 <= i < |items| ==>
      r[i] == if items[i].jed.id == jedId then items[i].(kolicina := kolicina, opomba := opomba) else items[i]
  {
    if items == [] then []
    else
      var first := if items[0].jed.id == jedId then items[0].(kolicina := kolicina, opomba := opomba) else items[0];
      [first] + Overwritten(items[1..], jedId, kolicina, opomba)
  }

  /** The `filter` of `removeFromCart`. */
  function Without(items: seq<CartEntry>, jedId: string): (r: seq<CartEntry>)
    ensures |r| <= |items|
    ensures forall x :: x in r <==> x in items && x.jed.id != jedId
  {
    if items == [] then []
    else if items[0].jed.id != jedId then [items[0]] + Without(items[1..], jedId)
    else Without(items[1..], jedId)
  }

  /** `getTotalPrice`. */
  function TotalPrice(items: seq<CartEntry>): real
  {
    if items == [] then 0.0 else items[0].jed.cena * items[0].kolicina as real + TotalPrice(items[1..])
  }

  /** `getTotalItems`. */
  function TotalItems(items: seq<CartEntry>): int
  {
    if items == [] then 0 else items[0].kolicina + TotalItems(items[1..])
  }

  /** Updating an entry never removes it: the ids and their positions stay,
      even for a quantity of zero. */
  lemma UpdateKeepsEntries(items: seq<CartEntry>, jedId: string, kolicina: int, opomba: Option<string>)
    ensures var r := Overwritten(items, jedId, kolicina, opomba);
      |r| == |items| && forall i :: 0 <= i < |items| ==> r[i].jed == items[i].jed
    ensures UniqueIds(items) ==> UniqueIds(Overwritten(items, jedId, kolicina, opomba))
  {
  }

  /** Removal keeps at most one entry per id. */
  lemma {:induction false} RemovePreservesUnique(items: seq<CartEntry>, jedId: string)
    requires UniqueIds(items)
    ensures UniqueIds(Without(items, jedId))
    ensures forall x :: x in Without(items, jedId) ==> x.jed.id != jedId
  {
    if items != [] {
      RemovePreservesUnique(items[1..], jedId);
      var rest := Without(items[1..], jedId);
      if items[0].jed.id != jedId {
        var r := [items[0]] + rest;
        forall i, j | 0 <= i < j < |r| ensures r[i].jed.id != r[j].jed.id {
          if i == 0 {
            assert r[j] in items[1..];
          }
        }
      }
    }
  }

  /** Removal keeps the remaining entries in their order. */
  lemma {:induction false} RemoveKeepsOrder(items: seq<CartEntry>, k: nat)
    requires UniqueIds(items) && k < |items|
    ensures Without(items, items[k].jed.id) == items[..k] + items[k + 1..]
  {
    var id := items[k].jed.id;
    if k == 0 {
      RemoveAbsent(items[1..], id);
    } else {
      RemoveKeepsOrder(items[1..], k - 1);
      assert items[..k] == [items[0]] + items[1..][..k - 1];
      assert items[k + 1..] == items[1..][k..];
    }
  }

  lemma {:induction false} RemoveAbsent(items: seq<CartEntry>, jedId: string)
    requires forall i :: 0 <= i < |items| ==> items[i].jed.id != jedId
    ensures Without(items, jedId) == items
  {
    if items != [] {
      RemoveAbsent(items[1..], jedId);
      assert items == [items[0]] + items[1..];
    }
  }

  /** Changing one entry's quantity by `delta` changes the item count by `delta`. */
  lemma {:induction false} TotalItemsReplace(items: seq<CartEntry>, k: nat, e: CartEntry)
    requires k < |items|
    ensures TotalItems(items[k := e]) == TotalItems(items) - items[k].kolicina + e.kolicina
  {
    if k > 0 {
      assert items[k := e][1..] == items[1..][k - 1 := e];
      TotalItemsReplace(items[1..], k - 1, e);
    }
  }

  lemma {:induction false} TotalsAppend(items: seq<CartEntry>, e: CartEntry)
    ensures TotalItems(items + [e]) == TotalItems(items) + e.kolicina
    ensures TotalPrice(items + [e]) == TotalPrice(items) + e.jed.cena * e.kolicina as real
  {
    if items != [] {
      assert (items + [e])[1..] == items[1..] + [e];
      TotalsAppend(items[1..], e);
    }
  }

  class ShoppingCart {
    var cartItems: seq<CartEntry>

    constructor ()
      ensures cartItems == []
    {
      cartItems := [];
    }

    /** `addToCart(jed, kolicina = 1, opomba)`: merge into the entry of the
        same dish in place, or append a new entry. */
    method AddToCart(jed: Dish, kolicina: int, opomba: Option<string>)
      modifies this
      ensures |old(cartItems)| <= |cartItems| <= |old(cartItems)| + 1
      ensures forall i :: 0 <= i < |old(cartItems)| && old(cartItems)[i].jed.id != jed.id ==>
        cartItems[i] == old(cartItems)[i]
      ensures forall i ::
        (0 <= i < |old(cartItems)| && old(cartItems)[i].jed.id == jed.id
         && (forall j :: 0 <= j < i ==> old(cartItems)[j].jed.id != jed.id)) ==>
        cartItems == old(cartItems)[i := Merged(old(cartItems)[i], kolicina, opomba)]
      ensures (forall i :: 0 <= i < |old(cartItems)| ==> old(cartItems)[i].jed.id != jed.id) ==>
        cartItems == old(cartItems) + [CartEntry(jed, kolicina, opomba)]
      ensures UniqueIds(old(cartItems)) ==> UniqueIds(cartItems)
      ensures TotalItems(cartItems) == TotalItems(old(cartItems)) + kolicina
    {
      var existingIndex := FindIndex(cartItems, jed.id);
      if existingIndex >= 0 {
        var updated := cartItems;
        TotalItemsReplace(updated, existingIndex, Merged(updated[existingIndex], kolicina, opomba));
        updated := updated[existingIndex := Merged(updated[existingIndex], kolicina, opomba)];
        cartItems := updated;
      } else {
        TotalsAppend(cartItems, CartEntry(jed, kolicina, opomba));
        cartItems := cartItems + [CartEntry(jed, kolicina, opomba)];
      }
    }

    method UpdateCartItem(jedId: string, kolicina: int, opomba: Option<string>)
      modifies this
      ensures cartItems == Overwritten(old(cartItems), jedId, kolicina, opomba)
    {
      cartItems := Overwritten(cartItems, jedId, kolicina, opomba);
    }

    method RemoveFromCart(jedId: string)
      modifies this
      ensures cartItems == Without(old(cartItems), jedId)
    {
      cartItems := Without(cartItems, jedId);
    }

    method ClearCart()
      modifies this
      ensures cartItems == [] && TotalPrice(cartItems) == 0.0 && TotalItems(cartItems) == 0
    {
      cartItems := [];
    }
  }
}
