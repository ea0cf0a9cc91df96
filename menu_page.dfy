/** The customer's menu page (src/pages/user/MenuPage.tsx): the category
    list of a restaurant's dishes, the per-dish quantity counters, and the
    button that puts a dish into the cart as many times as its counter says. */
module MenuPage {
  import CartContext
  import Common

  type Jed = Common.Jed

  datatype Restavracija = Restavracija(id: string, naziv: string)

  // ---------------------------------------------------------------------
  // kategorije
  // ---------------------------------------------------------------------

  /** `jediRestavracije`: the dishes of one restaurant, in menu order. */
  function OfRestaurant(jedi: seq<Jed>, restavracijaId: string): (r: seq<Jed>)
    ensures forall j :: j in r <==> j in jedi && j.restavracijaId == restavracijaId
  {
    if jedi == [] then []
    else if jedi[0].restavracijaId == restavracijaId then [jedi[0]] + OfRestaurant(jedi[1..], restavracijaId)
    else OfRestaurant(jedi[1..], restavracijaId)
  }

  /** The restaurant filter distributes over concatenation: with
      `OfRestaurantOne` this fixes the result to the restaurant's dishes in
      menu order, repeats included. */
  lemma {:induction false} OfRestaurantAppend(a: seq<Jed>, b: seq<Jed>, restavracijaId: string)
    ensures OfRestaurant(a + b, restavracijaId) == OfRestaurant(a, restavracijaId) + OfRestaurant(b, restavracijaId)
  {
    if a != [] {
      var ab := a + b;
      assert ab[0] == a[0] && ab[1..] == a[1..] + b;
      OfRestaurantAppend(a[1..], b, restavracijaId);
    } else {
      assert a + b == b;
    }
  }

  /** A single dish is kept exactly when it is the restaurant's. */
  lemma OfRestaurantOne(j: Jed, restavracijaId: string)
    ensures OfRestaurant([j], restavracijaId) == if j.restavracijaId == restavracijaId then [j] else []
  {
    assert [j][1..] == [];
  }

  function Categories(jedi: seq<Jed>): (r: seq<string>)
    ensures |r| == |jedi| && forall i :: 0 <= i < |jedi| ==> r[i] == jedi[i].kategorija
  {
    seq(|jedi|, i requires 0 <= i < |jedi| => jedi[i].kategorija)
  }

  /** `[...new Set(xs)]`: each value once, at the place it first occurs. */
  function Dedup(xs: seq<string>): (r: seq<string>)
    ensures forall x :: x in r <==> x in xs
    ensures forall i, j :: 0 <= i < j < |r| ==> r[i] != r[j]
  {
    if xs == [] then []
    else
      var prefix := xs[..|xs| - 1];
      var x := xs[|xs| - 1];
      assert xs == prefix + [x];
      var d := Dedup(prefix);
      if x in d then d else d + [x]
  }

  /** The position at which `x` first occurs in `xs`. */
  function FirstIndex(xs: seq<string>, x: string): (k: nat)
    requires x in xs
    ensures k < |xs| && xs[k] == x
    ensures forall i :: 0 <= i < k ==> xs[i] != x
  {
    var prefix := xs[..|xs| - 1];
    assert xs == prefix + [xs[|xs| - 1]];
    if x in prefix then FirstIndex(prefix, x) else |xs| - 1
  }

  /** The deduplicated list keeps the order of first occurrence. */
  lemma {:induction false} DedupFirstAppearanceOrder(xs: seq<string>)
    ensures forall i, j :: 0 <= i < j < |Dedup(xs)| ==> FirstIndex(xs, Dedup(xs)[i]) < FirstIndex(xs, Dedup(xs)[j])
  {
    if xs != [] {
      var prefix := xs[..|xs| - 1];
      var x := xs[|xs| - 1];
      assert xs == prefix + [x];
      DedupFirstAppearanceOrder(prefix);
      var d := Dedup(prefix);
      var r := Dedup(xs);
      forall y | y in d
        ensures FirstIndex(xs, y) == FirstIndex(prefix, y) < |prefix|
      {
        assert y in prefix && xs[..|xs| - 1] == prefix;
      }
      forall i, j | 0 <= i < j < |r|
        ensures FirstIndex(xs, r[i]) < FirstIndex(xs, r[j])
      {
        assert r[i] == d[i] && d[i] in d;
        if j < |d| {
          assert r[j] == d[j] && d[j] in d;
          assert FirstIndex(prefix, d[i]) < FirstIndex(prefix, d[j]);
        } else {
          assert r[j] == x && x !in prefix;
          assert xs[..|xs| - 1] == prefix;
          assert FirstIndex(xs, x) == |prefix|;
        }
      }
    }
  }

  /** `kategorije`: the categories of the restaurant's dishes, each once, in
      the order they first appear on the menu. */
  function Kategorije(jedi: seq<Jed>, restaurant: Restavracija): seq<string>
  {
    Dedup(Categories(OfRestaurant(jedi, restaurant.id)))
  }

  /** A dish of restaurant `restavracijaId` in category `k`. */
  predicate Serves(j: Jed, restavracijaId: string, k: string)
  {
    j.restavracijaId == restavracijaId && j.kategorija == k
  }

  /** The menu holds a dish of restaurant `restavracijaId` in category `k`. */
  predicate HasDish(jedi: seq<Jed>, restavracijaId: string, k: string)
  {
    exists j :: j in jedi && Serves(j, restavracijaId, k)
  }

  /** The position in the whole menu of the restaurant's first dish of category `k`. */
  function FirstDish(jedi: seq<Jed>, restavracijaId: string, k: string): (n: nat)
    requires HasDish(jedi, restavracijaId, k)
    ensures n < |jedi| && Serves(jedi[n], restavracijaId, k)
    ensures forall i :: 0 <= i < n ==> !Serves(jedi[i], restavracijaId, k)
  {
    var prefix := jedi[..|jedi| - 1];
    assert jedi == prefix + [jedi[|jedi| - 1]];
    if HasDish(prefix, restavracijaId, k) then FirstDish(prefix, restavracijaId, k)
    else |jedi| - 1
  }

  /** A dish added at the end does not move an earlier first dish. */
  lemma FirstDishKept(p: seq<Jed>, x: Jed, restavracijaId: string, k: string)
    requires HasDish(p, restavracijaId, k)
    ensures HasDish(p + [x], restavracijaId, k)
    ensures FirstDish(p + [x], restavracijaId, k) == FirstDish(p, restavracijaId, k)
  {
    var jedi := p + [x];
    var d :| d in p && Serves(d, restavracijaId, k);
    assert d in jedi;
    assert jedi[..|jedi| - 1] == p;
  }

  /** A dish added at the end is the first of its category when the menu had none. */
  lemma FirstDishNew(p: seq<Jed>, x: Jed, restavracijaId: string)
    requires Serves(x, restavracijaId, x.kategorija) && !HasDish(p, restavracijaId, x.kategorija)
    ensures HasDish(p + [x], restavracijaId, x.kategorija)
    ensures FirstDish(p + [x], restavracijaId, x.kategorija) == |p|
  {
    var jedi := p + [x];
    assert x in jedi;
    assert jedi[..|jedi| - 1] == p;
  }

  lemma KategorijeMeaning(jedi: seq<Jed>, restaurant: Restavracija)
    ensures var ks := Kategorije(jedi, restaurant);
      (forall k :: k in ks <==> HasDish(jedi, restaurant.id, k))
      && (forall i, j :: 0 <= i < j < |ks| ==> ks[i] != ks[j])
  {
    var own := OfRestaurant(jedi, restaurant.id);
    var cs := Categories(own);
    forall k
      ensures k in cs <==> HasDish(jedi, restaurant.id, k)
    {
      if k in cs {
        var i :| 0 <= i < |cs| && cs[i] == k;
        assert own[i] in own;
      }
      if HasDish(jedi, restaurant.id, k) {
        var j :| j in jedi && Serves(j, restaurant.id, k);
        var i :| 0 <= i < |own| && own[i] == j;
        assert cs[i] == k;
      }
    }
  }

  /** One more dish on the menu adds its category at the end of the tabs
      when it is the restaurant's and its category is new, and nothing otherwise. */
  lemma KategorijeStep(p: seq<Jed>, x: Jed, restaurant: Restavracija)
    ensures var before, after := Kategorije(p, restaurant), Kategorije(p + [x], restaurant);
      if Serves(x, restaurant.id, x.kategorija) && x.kategorija !in before
      then after == before + [x.kategorija]
      else after == before
  {
    var own := OfRestaurant(p, restaurant.id);
    var cs := Categories(own);
    OfRestaurantAppend(p, [x], restaurant.id);
    OfRestaurantOne(x, restaurant.id);
    if x.restavracijaId == restaurant.id {
      var xs := cs + [x.kategorija];
      assert Categories(own + [x]) == xs;
      assert xs[..|xs| - 1] == cs && xs[|xs| - 1] == x.kategorija;
      assert Dedup(xs) == if x.kategorija in Dedup(cs) then Dedup(cs) else Dedup(cs) + [x.kategorija];
    } else {
      assert own + [] == own;
    }
  }

  /** The categories `ks` are listed in menu order: of two of them, the
      earlier one's first dish of the restaurant comes earlier in `jedi`. */
  predicate InMenuOrder(jedi: seq<Jed>, restavracijaId: string, ks: seq<string>)
  {
    forall i, j :: 0 <= i < j < |ks| ==> ComesBefore(jedi, restavracijaId, ks[i], ks[j])
  }

  /** Both categories have a dish of the restaurant, and `a`'s first one comes first. */
  predicate ComesBefore(jedi: seq<Jed>, restavracijaId: string, a: string, b: string)
  {
    HasDish(jedi, restavracijaId, a) && HasDish(jedi, restavracijaId, b)
    && FirstDish(jedi, restavracijaId, a) < FirstDish(jedi, restavracijaId, b)
  }

  /** Two tabs in menu order over `p` stay in menu order over `q`, which is
      `p` with `x` added, with or without the category of `x` appended. */
  lemma OrderStepAt(p: seq<Jed>, x: Jed, q: seq<Jed>, rid: string, kp: seq<string>, ks: seq<string>, i: nat, j: nat)
    requires q == p + [x]
    requires forall k :: k in kp ==> HasDish(p, rid, k)
    requires InMenuOrder(p, rid, kp)
    requires ks == kp || (ks == kp + [x.kategorija] && Serves(x, rid, x.kategorija) && !HasDish(p, rid, x.kategorija))
    requires i < j < |ks|
    ensures ComesBefore(q, rid, ks[i], ks[j])
  {
    assert ks[i] == kp[i] && kp[i] in kp;
    FirstDishKept(p, x, rid, ks[i]);
    if j < |kp| {
      assert ks[j] == kp[j] && kp[j] in kp;
      FirstDishKept(p, x, rid, ks[j]);
    } else {
      assert ks[j] == x.kategorija;
      FirstDishNew(p, x, rid);
    }
  }

  lemma OrderStep(p: seq<Jed>, x: Jed, q: seq<Jed>, rid: string, kp: seq<string>, ks: seq<string>)
    requires q == p + [x]
    requires forall k :: k in kp ==> HasDish(p, rid, k)
    requires InMenuOrder(p, rid, kp)
    requires ks == kp || (ks == kp + [x.kategorija] && Serves(x, rid, x.kategorija) && !HasDish(p, rid, x.kategorija))
    ensures InMenuOrder(q, rid, ks)
  {
    forall i, j | 0 <= i < j < |ks|
      ensures ComesBefore(q, rid, ks[i], ks[j])
    {
      OrderStepAt(p, x, q, rid, kp, ks, i, j);
    }
  }

  /** The tabs come in menu order: of two listed categories, the earlier
      one's first dish of the restaurant comes earlier in the menu. */
  lemma {:induction false} KategorijeOrder(jedi: seq<Jed>, restaurant: Restavracija)
    ensures InMenuOrder(jedi, restaurant.id, Kategorije(jedi, restaurant))
  {
    if jedi != [] {
      var p, x := jedi[..|jedi| - 1], jedi[|jedi| - 1];
      assert jedi == p + [x];
      KategorijeOrder(p, restaurant);
      KategorijeMeaning(p, restaurant);
      KategorijeStep(p, x, restaurant);
      OrderStep(p, x, jedi, restaurant.id, Kategorije(p, restaurant), Kategorije(jedi, restaurant));
    }
  }

  // ---------------------------------------------------------------------
  // quantities
  // ---------------------------------------------------------------------

  /** `prev[jedId] || 0`: a missing counter reads as zero. */
  function Counter(quantities: map<string, int>, jedId: string): int
  {
    if jedId in quantities then quantities[jedId] else 0
  }

  function Max0(x: int): nat
  {
    if x > 0 then x else 0
  }

  /** The record `handleQuantityChange` leaves. */
  function QuantityChanged(quantities: map<string, int>, jedId: string, change: int): map<string, int>
  {
    quantities[jedId := Max0(Counter(quantities, jedId) + change)]
  }

  predicate NonNegative(quantities: map<string, int>)
  {
    forall id :: id in quantities ==> quantities[id] >= 0
  }

  /** A change moves one counter by `change`, stopping at zero, keeps the
      others, and never makes a counter negative. */
  lemma QuantityChangeEffect(quantities: map<string, int>, jedId: string, change: int)
    ensures var r := QuantityChanged(quantities, jedId, change);
      Counter(r, jedId) >= 0
      && (Counter(quantities, jedId) + change >= 0 ==> Counter(r, jedId) == Counter(quantities, jedId) + change)
      && (Counter(quantities, jedId) + change < 0 ==> Counter(r, jedId) == 0)
      && (forall other :: other != jedId ==> Counter(r, other) == Counter(quantities, other))
      && (NonNegative(quantities) ==> NonNegative(r))
  {
  }

  /** Pressing plus and then minus restores a counter. */
  lemma PlusThenMinus(quantities: map<string, int>, jedId: string)
    requires NonNegative(quantities)
    ensures Counter(QuantityChanged(QuantityChanged(quantities, jedId, 1), jedId, -1), jedId)
      == Counter(quantities, jedId)
  {
  }

  /** `quantities[jed.id] || 1`: an unset or zero counter adds one portion. */
  function Portions(quantities: map<string, int>, jedId: string): int
  {
    if Counter(quantities, jedId) != 0 then Counter(quantities, jedId) else 1
  }

  /** What `handleAddToCart` hands to `addToCart`. */
  function CartLine(jed: Jed, restaurant: Restavracija): CartContext.NewCartItem
  {
    CartContext.NewCartItem(jed.id, jed.naziv, jed.cena, jed.opis, restaurant.id, restaurant.naziv)
  }

  /** The cart after `addToCart` has run `k` times with the same line. */
  function AddedTimes(items: seq<CartContext.CartItem>, n: CartContext.NewCartItem, k: nat): seq<CartContext.CartItem>
  {
    if k == 0 then items else CartContext.Added(AddedTimes(items, n, k - 1), n)
  }

  /** Adding a line `k` times keeps the cart well formed, puts the dish in
      it, and raises the item count by exactly `k`. */
  lemma {:induction false} AddedTimesEffect(items: seq<CartContext.CartItem>, n: CartContext.NewCartItem, k: nat)
    requires CartContext.Valid(items)
    ensures CartContext.Valid(AddedTimes(items, n, k))
    ensures CartContext.TotalItems(AddedTimes(items, n, k)) == CartContext.TotalItems(items) + k
    ensures k > 0 ==> CartContext.HasId(AddedTimes(items, n, k), n.id)
  {
    if k > 0 {
      AddedTimesEffect(items, n, k - 1);
      AddedStep(items, n, k);
    }
  }

  /** The `k`-th `addToCart` as one step from the cart after `k - 1`. */
  lemma AddedStep(items: seq<CartContext.CartItem>, n: CartContext.NewCartItem, k: nat)
    requires k > 0 && CartContext.Valid(AddedTimes(items, n, k - 1))
    ensures CartContext.Valid(AddedTimes(items, n, k))
    ensures CartContext.TotalItems(AddedTimes(items, n, k)) == CartContext.TotalItems(AddedTimes(items, n, k - 1)) + 1
    ensures CartContext.HasId(AddedTimes(items, n, k), n.id)
  {
    AddOnce(AddedTimes(items, n, k - 1), n);
  }

  /** One `addToCart` keeps the cart well formed, puts the dish in it and
      raises the item count by one. */
  lemma AddOnce(items: seq<CartContext.CartItem>, n: CartContext.NewCartItem)
    requires CartContext.Valid(items)
    ensures CartContext.Valid(CartContext.Added(items, n))
    ensures CartContext.TotalItems(CartContext.Added(items, n)) == CartContext.TotalItems(items) + 1
    ensures CartContext.HasId(CartContext.Added(items, n), n.id)
  {
    var r := CartContext.Added(items, n);
    CartContext.AddPreservesValid(items, n);
    CartContext.AddToCartEffect(items, n);
    if CartContext.HasId(items, n.id) {
      var i :| 0 <= i < |items| && items[i].id == n.id;
      CartContext.AddRaisesTotals(items, n, i);
      assert r[i].id == n.id;
    } else {
      CartContext.AddNewRaisesTotals(items, n);
      assert r[|items|].id == n.id;
    }
  }

  class MenuPage {
    const restaurant: Restavracija
    var quantities: map<string, int>

    /** The counters are never negative. */
    predicate Valid()
      reads this
    {
      NonNegative(quantities)
    }

    constructor (restaurant: Restavracija)
      ensures this.restaurant == restaurant && quantities == map[]
      ensures Valid()
    {
      this.restaurant := restaurant;
      quantities := map[];
    }

    /** `handleQuantityChange`. */
    method HandleQuantityChange(jedId: string, change: int)
      requires Valid()
      modifies this
      ensures quantities == QuantityChanged(old(quantities), jedId, change)
      ensures Valid()
    {
      QuantityChangeEffect(quantities, jedId, change);
      quantities := quantities[jedId := Max0(Counter(quantities, jedId) + change)];
    }

    /** `handleAddToCart`: the `for` loop calls `addToCart` once per portion,
        then the dish's counter goes back to zero. */
    method HandleAddToCart(jed: Jed, cart: CartContext.Cart)
      requires Valid()
      modifies this, cart
      ensures cart.items == AddedTimes(old(cart.items), CartLine(jed, restaurant), Portions(old(quantities), jed.id))
      ensures quantities == old(quantities)[jed.id := 0]
      ensures Valid()
    {
      var kolicina := Portions(quantities, jed.id);
      var line := CartLine(jed, restaurant);
      var i := 0;
      while i < kolicina
        invariant 0 <= i <= kolicina
        invariant cart.items == AddedTimes(old(cart.items), line, i)
        invariant quantities == old(quantities)
      {
        cart.AddToCart(line);
        i := i + 1;
      }
      quantities := quantities[jed.id := 0];
    }
  }

  /** Adding from the menu adds exactly the counter's number of portions
      (one when the counter is unset or zero) to the cart's item count. */
  lemma AddToCartCount(items: seq<CartContext.CartItem>, quantities: map<string, int>, jed: Jed, restaurant: Restavracija)
    requires CartContext.Valid(items) && NonNegative(quantities)
    ensures Portions(quantities, jed.id) >= 1
    ensures CartContext.TotalItems(AddedTimes(items, CartLine(jed, restaurant), Portions(quantities, jed.id)))
      == CartContext.TotalItems(items) + Portions(quantities, jed.id)
  {
    AddedTimesEffect(items, CartLine(jed, restaurant), Portions(quantities, jed.id));
  }
}
