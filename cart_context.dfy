/** The shopping cart held by `CartProvider` (src/contexts/CartContext.tsx):
    a list of lines, one per dish id, each with a quantity of at least one.
    Every operation replaces the list by a mapped, filtered or extended copy. */
module CartContext {

  datatype CartItem = CartItem(
    id: string,
    naziv: string,
    cena: real,
    opis: string,
    kolicina: int,
    restavracijaId: string,
    restavracijaNaziv: string)

  /** What `addToCart` receives: a line without its quantity. */
  datatype NewCartItem = NewCartItem(
    id: string,
    naziv: string,
    cena: real,
    opis: string,
    restavracijaId: string,
    restavracijaNaziv: string)

  function WithQuantity(n: NewCartItem, kolicina: int): CartItem
  {
    CartItem(n.id, n.naziv, n.cena, n.opis, kolicina, n.restavracijaId, n.restavracijaNaziv)
  }

  predicate HasId(items: seq<CartItem>, id: string)
  {
    exists i :: 0 <= i < |items| && items[i].id == id
  }

  /** The cart's invariant: no two lines share an id, and every quantity is at least one. */
  predicate Valid(items: seq<CartItem>)
  {
    (forall i, j :: 0 <= i < j < |items| ==> items[i].id != items[j].id)
    && (forall i :: 0 <= i < |items| ==> items[i].kolicina >= 1)
  }

  /** The `map` of `addToCart` for a known id: that line's quantity goes up by one. */
  function Incremented(items: seq<CartItem>, id: string): (r: seq<CartItem>)
    ensures |r| == |items|
    ensures forall i :: 0 <= i < |items| ==>
      r[i] == if items[i].id == id then items[i].(kolicina := items[i].kolicina + 1) else items[i]
  {
    if items == [] then []
    else
      var first := if items[0].id == id then items[0].(kolicina := items[0].kolicina + 1) else items[0];
      [first] + Incremented(items[1..], id)
  }

  /** `addToCart`. */
  function Added(items: seq<CartItem>, n: NewCartItem): seq<CartItem>
  {
    if HasId(items, n.id) then Incremented(items, n.id) else items + [WithQuantity(n, 1)]
  }

  /** `removeFromCart`: the `filter` that drops the lines with that id. */
  function Removed(items: seq<CartItem>, id: string): (r: seq<CartItem>)
    ensures |r| <= |items|
    ensures forall x :: x in r <==> x in items && x.id != id
  {
    if items == [] then []
    else if items[0].id != id then [items[0]] + Removed(items[1..], id)
    else Removed(items[1..], id)
  }

  /** The `map` of `updateQuantity` for a positive quantity. */
  function QuantitySet(items: seq<CartItem>, id: string, kolicina: int): (r: seq<CartItem>)
    ensures |r| == |items|
    ensures forall i :: 0 <= i < |items| ==>
      r[i] == if items[i].id == id then items[i].(kolicina := kolicina) else items[i]
  {
    if items == [] then []
    else
      var first := if items[0].id == id then items[0].(kolicina := kolicina) else items[0];
      [first] + QuantitySet(items[1..], id, kolicina)
  }

  /** `updateQuantity`: a quantity of zero or less removes the line. */
  function QuantityUpdated(items: seq<CartItem>, id: string, kolicina: int): seq<CartItem>
  {
    if kolicina <= 0 then Removed(items, id) else QuantitySet(items, id, kolicina)
  }

  /** `getTotalPrice`: the sum of price times quantity. */
  function TotalPrice(items: seq<CartItem>): real
  {
    if items == [] then 0.0 else items[0].cena * items[0].kolicina as real + TotalPrice(items[1..])
  }

  /** `getTotalItems`: the sum of the quantities. */
  function TotalItems(items: seq<CartItem>): int
  {
    if items == [] then 0 else items[0].kolicina + TotalItems(items[1..])
  }

  /** Adding a new id appends one line with quantity one; adding a known id
      raises that line's quantity by one, keeps its other fields (its price
      included) and leaves every other line and the length as they were. */
  lemma AddToCartEffect(items: seq<CartItem>, n: NewCartItem)
    ensures var r := Added(items, n);
      !HasId(items, n.id) ==> |r| == |items| + 1 && r[..|items|] == items && r[|items|] == WithQuantity(n, 1)
    ensures var r := Added(items, n);
      HasId(items, n.id) ==>
        |r| == |items|
        && (forall i :: 0 <= i < |items| && items[i].id == n.id ==> r[i] == items[i].(kolicina := items[i].kolicina + 1))
        && (forall i :: 0 <= i < |items| && items[i].id != n.id ==> r[i] == items[i])
  {
    if !HasId(items, n.id) {
      assert (items + [WithQuantity(n, 1)])[..|items|] == items;
    }
  }

  lemma AddPreservesValid(items: seq<CartItem>, n: NewCartItem)
    requires Valid(items)
    ensures Valid(Added(items, n))
  {
    var r := Added(items, n);
    if !HasId(items, n.id) {
      forall i, j | 0 <= i < j < |r| ensures r[i].id != r[j].id {
        if j == |items| {
          assert r[i] == items[i];
        }
      }
    }
  }

  lemma {:induction false} TotalItemsAppend(items: seq<CartItem>, x: CartItem)
    ensures TotalItems(items + [x]) == TotalItems(items) + x.kolicina
    ensures TotalPrice(items + [x]) == TotalPrice(items) + x.cena * x.kolicina as real
  {
    if items != [] {
      assert (items + [x])[1..] == items[1..] + [x];
      TotalItemsAppend(items[1..], x);
    }
  }

  /** Incrementing by id adds one per line that carries the id. */
  lemma {:induction false} TotalsIncremented(items: seq<CartItem>, id: string, k: nat)
    requires k < |items| && items[k].id == id
    requires forall i :: 0 <= i < |items| && i != k ==> items[i].id != id
    ensures TotalItems(Incremented(items, id)) == TotalItems(items) + 1
    ensures TotalPrice(Incremented(items, id)) == TotalPrice(items) + items[k].cena
  {
    var r := Incremented(items, id);
    assert r[1..] == Incremented(items[1..], id);
    if k == 0 {
      TotalsUntouched(items[1..], id);
    } else {
      TotalsIncremented(items[1..], id, k - 1);
    }
  }

  lemma {:induction false} TotalsUntouched(items: seq<CartItem>, id: string)
    requires forall i :: 0 <= i < |items| ==> items[i].id != id
    ensures Incremented(items, id) == items
  {
    if items != [] {
      TotalsUntouched(items[1..], id);
    }
  }

  /** In a valid cart a known id sits on exactly one line. */
  lemma OnlyLine(items: seq<CartItem>, k: nat)
    requires Valid(items) && k < |items|
    ensures forall i :: 0 <= i < |items| && i != k ==> items[i].id != items[k].id
  {
    forall i | 0 <= i < |items| && i != k ensures items[i].id != items[k].id {
      if i < k { assert items[i].id != items[k].id; } else { assert items[k].id != items[i].id; }
    }
  }

  /** Each `addToCart` raises the item count by exactly one, and the total
      price by the price of the line that grew: for a known id the price
      already stored on that line, for a new id the new item's price. */
  lemma AddRaisesTotals(items: seq<CartItem>, n: NewCartItem, k: nat)
    requires Valid(items)
    requires k < |items| && items[k].id == n.id
    ensures TotalItems(Added(items, n)) == TotalItems(items) + 1
    ensures TotalPrice(Added(items, n)) == TotalPrice(items) + items[k].cena
  {
    OnlyLine(items, k);
    TotalsIncremented(items, n.id, k);
  }

  lemma AddNewRaisesTotals(items: seq<CartItem>, n: NewCartItem)
    requires !HasId(items, n.id)
    ensures TotalItems(Added(items, n)) == TotalItems(items) + 1
    ensures TotalPrice(Added(items, n)) == TotalPrice(items) + n.cena
  {
    TotalItemsAppend(items, WithQuantity(n, 1));
  }

  /** With unique ids, removing one drops exactly that line and keeps the others in order. */
  lemma {:induction false} RemoveDropsLine(items: seq<CartItem>, k: nat)
    requires k < |items|
    requires forall i :: 0 <= i < |items| && i != k ==> items[i].id != items[k].id
    ensures Removed(items, items[k].id) == items[..k] + items[k + 1..]
  {
    var id := items[k].id;
    var tail := items[1..];
    if k == 0 {
      RemoveAbsent(tail, id);
      assert items[..0] + items[1..] == tail;
    } else {
      RemoveDropsLine(tail, k - 1);
      assert Removed(items, id) == [items[0]] + Removed(tail, id);
      DropSplit(items, k);
    }
  }

  /** Dropping a line after the first one, seen from the tail. */
  lemma DropSplit(items: seq<CartItem>, k: nat)
    requires 0 < k < |items|
    ensures items[..k] + items[k + 1..] == [items[0]] + (items[1..][..k - 1] + items[1..][k..])
  {
  }

  /** Removing an id that no line carries changes nothing. */
  lemma {:induction false} RemoveAbsent(items: seq<CartItem>, id: string)
    requires forall i :: 0 <= i < |items| ==> items[i].id != id
    ensures Removed(items, id) == items
  {
    if items != [] {
      RemoveAbsent(items[1..], id);
      assert items == [items[0]] + items[1..];
    }
  }

  /** Removal keeps the remaining lines in their order: it is a subsequence. */
  lemma {:induction false} RemovePreservesValid(items: seq<CartItem>, id: string)
    requires Valid(items)
    ensures Valid(Removed(items, id))
  {
    if items != [] {
      RemovePreservesValid(items[1..], id);
      var rest := Removed(items[1..], id);
      if items[0].id != id {
        var r := [items[0]] + rest;
        forall i, j | 0 <= i < j < |r| ensures r[i].id != r[j].id {
          if i == 0 {
            assert r[j] in rest;
            assert r[j] in items[1..];
          }
        }
        forall i | 0 <= i < |r| ensures r[i].kolicina >= 1 {
          assert r[i] in items;
        }
      }
    }
  }

  /** `updateQuantity`: zero or less is removal; an unknown id changes nothing;
      a positive quantity on a valid cart keeps it valid. */
  lemma UpdateQuantityEffect(items: seq<CartItem>, id: string, kolicina: int)
    ensures kolicina <= 0 ==> QuantityUpdated(items, id, kolicina) == Removed(items, id)
    ensures !HasId(items, id) ==> QuantityUpdated(items, id, kolicina) == items
    ensures Valid(items) ==> Valid(QuantityUpdated(items, id, kolicina))
  {
    if !HasId(items, id) {
      if kolicina <= 0 {
        RemoveAbsent(items, id);
      } else {
        assert QuantitySet(items, id, kolicina) == items;
      }
    }
    if Valid(items) && kolicina <= 0 {
      RemovePreservesValid(items, id);
    }
  }

  class Cart {
    var items: seq<CartItem>

    constructor ()
      ensures items == []
    {
      items := [];
    }

    method AddToCart(newItem: NewCartItem)
      modifies this
      ensures items == Added(old(items), newItem)
    {
      if HasId(items, newItem.id) {
        items := Incremented(items, newItem.id);
      } else {
        items := items + [WithQuantity(newItem, 1)];
      }
    }

    method RemoveFromCart(id: string)
      modifies this
      ensures items == Removed(old(items), id)
    {
      items := Removed(items, id);
    }

    method UpdateQuantity(id: string, kolicina: int)
      modifies this
      ensures items == QuantityUpdated(old(items), id, kolicina)
    {
      if kolicina <= 0 {
        RemoveFromCart(id);
        return;
      }
      items := QuantitySet(items, id, kolicina);
    }

    method ClearCart()
      modifies this
      ensures items == [] && TotalPrice(items) == 0.0 && TotalItems(items) == 0
    {
      items := [];
    }

    /** `getTotalPrice` and `getTotalItems`, read from the current lines. */
    method GetTotals() returns (price: real, count: int)
      ensures price == TotalPrice(items) && count == TotalItems(items)
      ensures items == [] ==> price == 0.0 && count == 0
    {
      price, count := TotalPrice(items), TotalItems(items);
    }
  }
}
