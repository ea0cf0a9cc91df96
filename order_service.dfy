/** Order creation and the discount attachment of `orderService`
    (src/services/orderService.ts). The database is not modelled: its replies
    are parameters, and what the service writes is part of the result. */
module OrderService {
  import opened Common
  import opened Discounts
  import opened UseCart
  import opened OrderConfirmation

  /** The order states of the `order_status` enum, in the order an order
      moves through them. */
  datatype OrderStatus = Novo | Sprejeto | VPripravi | Pripravljeno | Prevzeto

  /** The `narocila` row `createOrder` inserts. */
  datatype NewOrder = NewOrder(
    uporabnikId: string,
    restavracijaId: string,
    casPrevzema: string,
    skupnaCena: real,
    opomba: Option<string>,
    status: OrderStatus)

  /** A `postavke_narocila` row `createOrder` inserts. */
  datatype NewLine = NewLine(narociloId: string, jedId: string, kolicina: int, cenaNaKos: real, opomba: Option<string>)

  /** A database reply: the inserted order's id, or an error. */
  datatype Reply = Ok(id: string) | Err(error: string)

  /** What reached the database, and what `createOrder` returned or threw. */
  datatype CreateResult = CreateResult(order: NewOrder, lines: Option<seq<NewLine>>, outcome: Reply)

  /** The `reduce` that computes `skupna_cena`: a left fold from 0. */
  function SumFrom(acc: real, cartItems: seq<CartEntry>): real
    decreases |cartItems|
  {
    if cartItems == [] then acc
    else SumFrom(acc + cartItems[0].jed.cena * cartItems[0].kolicina as real, cartItems[1..])
  }

  /** The order total is the cart's own total price. */
  lemma {:induction false} SumFromIsTotal(acc: real, cartItems: seq<CartEntry>)
    ensures SumFrom(acc, cartItems) == acc + UseCart.TotalPrice(cartItems)
    decreases |cartItems|
  {
    if cartItems != [] {
      SumFromIsTotal(acc + cartItems[0].jed.cena * cartItems[0].kolicina as real, cartItems[1..]);
    }
  }

  /** The `map` from cart entries to order lines, in cart order. */
  function OrderLines(orderId: string, cartItems: seq<CartEntry>): (r: seq<NewLine>)
    ensures |r| == |cartItems|
    ensures forall i :: 0 <= i < |cartItems| ==>
      r[i] == NewLine(orderId, cartItems[i].jed.id, cartItems[i].kolicina, cartItems[i].jed.cena, cartItems[i].opomba)
  {
    if cartItems == [] then []
    else
      var item := cartItems[0];
      [NewLine(orderId, item.jed.id, item.kolicina, item.jed.cena, item.opomba)] + OrderLines(orderId, cartItems[1..])
  }

  /** `createOrder`, given the replies of the two inserts and of the
      confirmation-mail call. */
  function CreateOrder(uporabnikId: string, restavracijaId: string, casPrevzema: string,
                       cartItems: seq<CartEntry>, opomba: Option<string>,
                       orderReply: Reply, itemsError: Option<string>, emailFailed: bool): CreateResult
  {
    var orderData := NewOrder(uporabnikId, restavracijaId, casPrevzema, SumFrom(0.0, cartItems), opomba, Novo);
    match orderReply
    case Err(e) => CreateResult(orderData, None, Err(e))
    case Ok(orderId) =>
      var orderItems := OrderLines(orderId, cartItems);
      if itemsError.Some? then CreateResult(orderData, Some(orderItems), Err(itemsError.value))
      else CreateResult(orderData, Some(orderItems), Ok(orderId))
  }

  /** The order is inserted as 'novo' with the cart total; lines are written
      only after the order insert succeeded, one per cart entry with the
      dish's catalogue price; either insert's error is the outcome; the
      mail call's result never matters. */
  lemma CreateOrderEffect(uporabnikId: string, restavracijaId: string, casPrevzema: string,
                          cartItems: seq<CartEntry>, opomba: Option<string>,
                          orderReply: Reply, itemsError: Option<string>, emailFailed: bool)
    ensures var r := CreateOrder(uporabnikId, restavracijaId, casPrevzema, cartItems, opomba, orderReply, itemsError, emailFailed);
      r.order.status == Novo && r.order.skupnaCena == UseCart.TotalPrice(cartItems)
      && r.order.uporabnikId == uporabnikId && r.order.restavracijaId == restavracijaId
      && r.order.casPrevzema == casPrevzema && r.order.opomba == opomba
      && (r.lines.Some? <==> orderReply.Ok?)
      && (orderReply.Ok? ==>
            |r.lines.value| == |cartItems|
            && (forall i :: 0 <= i < |cartItems| ==>
                  r.lines.value[i].narociloId == orderReply.id
                  && r.lines.value[i].jedId == cartItems[i].jed.id
                  && r.lines.value[i].kolicina == cartItems[i].kolicina
                  && r.lines.value[i].cenaNaKos == cartItems[i].jed.cena
                  && r.lines.value[i].opomba == cartItems[i].opomba))
      && (orderReply.Err? ==> r.outcome == orderReply)
      && (orderReply.Ok? ==> r.outcome == if itemsError.Some? then Err(itemsError.value) else orderReply)
    ensures CreateOrder(uporabnikId, restavracijaId, casPrevzema, cartItems, opomba, orderReply, itemsError, emailFailed)
         == CreateOrder(uporabnikId, restavracijaId, casPrevzema, cartItems, opomba, orderReply, itemsError, !emailFailed)
  {
    SumFromIsTotal(0.0, cartItems);
  }

  /** The line as the confirmation e-mail loads it back. */
  function AsEmailLine(line: NewLine, jed: Dish): EmailLine
  {
    EmailLine(line.jedId, jed.cena, line.kolicina, line.cenaNaKos)
  }

  /** As written: a dish at 10.00 with an active 50 % discount is stored at
      10.00, and the e-mail then shows 20.00 struck through and 10.00 to pay,
      while the discounted price is 5.00. */
  lemma StoredPriceIsUndiscounted()
    ensures var jed := Dish("j1", "Juha", 10.0);
      var d := Discount("p1", "j1", Percent, 50.0, None, None, true, None, None);
      var line := OrderLines("n1", [CartEntry(jed, 1, None)])[0];
      var cell := LinePriceInfo(AsEmailLine(line, jed), Some([d]));
      line.cenaNaKos == 10.0 && CalculateDiscountedPrice(10.0, d) == 5.0
      && cell == WithDiscount(Finite(20.0), d, 10.0)
  {
    var jed := Dish("j1", "Juha", 10.0);
    var d := Discount("p1", "j1", Percent, 50.0, None, None, true, None, None);
    var line := OrderLines("n1", [CartEntry(jed, 1, None)])[0];
    assert line.cenaNaKos == 10.0;
    assert GetDiscountForFood([d], "j1") == Some(d);
    assert OriginalUnitPrice(10.0, d) == Finite(20.0);
  }

  /** For any percentage strictly between 0 and 100 on a positive price, the
      e-mail over a line as written shows an original above the catalogue
      price and charges the undiscounted price. */
  lemma StoredPriceInflatesOriginal(jed: Dish, kolicina: int, ds: seq<Discount>, orderId: string)
    requires GetDiscountForFood(ds, jed.id).Some?
    requires var d := GetDiscountForFood(ds, jed.id).value; IsPercent(d) && 0.0 < d.vrednost < 100.0
    requires jed.cena > 0.0 && kolicina >= 1
    ensures var line := OrderLines(orderId, [CartEntry(jed, kolicina, None)])[0];
      var cell := LinePriceInfo(AsEmailLine(line, jed), Some(ds));
      cell.WithDiscount? && cell.originalTotal.Finite?
      && cell.originalTotal.value > jed.cena * kolicina as real
      && cell.total == jed.cena * kolicina as real
  {
    var d := GetDiscountForFood(ds, jed.id).value;
    var line := OrderLines(orderId, [CartEntry(jed, kolicina, None)])[0];
    assert line.cenaNaKos == jed.cena && line.kolicina == kolicina && line.jedId == jed.id;
    OriginalAboveStored(jed.cena, d);
    StrictMulMono(OriginalUnitPrice(jed.cena, d).value, jed.cena, kolicina as real);
  }

  /** Corrected line mapping: each line stores the price after the dish's
      discount (the first one found for it), which is what the e-mail
      assumes `cena_na_kos` to be. */
  function OrderLinesDiscounted(orderId: string, cartItems: seq<CartEntry>, ds: seq<Discount>): (r: seq<NewLine>)
    ensures |r| == |cartItems|
    ensures forall i :: 0 <= i < |cartItems| ==>
      r[i].narociloId == orderId && r[i].jedId == cartItems[i].jed.id
      && r[i].kolicina == cartItems[i].kolicina && r[i].opomba == cartItems[i].opomba
      && r[i].cenaNaKos == DiscountedUnitPrice(cartItems[i].jed, ds)
  {
    if cartItems == [] then []
    else
      var item := cartItems[0];
      [NewLine(orderId, item.jed.id, item.kolicina, DiscountedUnitPrice(item.jed, ds), item.opomba)]
        + OrderLinesDiscounted(orderId, cartItems[1..], ds)
  }

  function DiscountedUnitPrice(jed: Dish, ds: seq<Discount>): real
  {
    match GetDiscountForFood(ds, jed.id)
    case None => jed.cena
    case Some(d) => CalculateDiscountedPrice(jed.cena, d)
  }

  /** With corrected lines the e-mail charges the discounted price and, where
      the discount can be inverted, strikes through exactly the catalogue price. */
  lemma DiscountedLinesRoundTrip(jed: Dish, kolicina: int, ds: seq<Discount>, orderId: string)
    ensures var line := OrderLinesDiscounted(orderId, [CartEntry(jed, kolicina, None)], ds)[0];
      var cell := LinePriceInfo(AsEmailLine(line, jed), Some(ds));
      cell.total == DiscountedUnitPrice(jed, ds) * kolicina as real
      && (GetDiscountForFood(ds, jed.id).None? ==> cell == Plain(jed.cena * kolicina as real))
      && (GetDiscountForFood(ds, jed.id).Some? ==>
            var d := GetDiscountForFood(ds, jed.id).value;
            (IsPercent(d) && d.vrednost != 100.0) || (!IsPercent(d) && d.vrednost <= jed.cena) ==>
              cell.originalTotal == Finite(jed.cena * kolicina as real))
  {
    var line := OrderLinesDiscounted(orderId, [CartEntry(jed, kolicina, None)], ds)[0];
    assert line.jedId == jed.id && line.kolicina == kolicina;
    assert line.cenaNaKos == DiscountedUnitPrice(jed, ds);
    var el := AsEmailLine(line, jed);
    assert LineDiscount(el, Some(ds)) == GetDiscountForFood(ds, jed.id);
    match GetDiscountForFood(ds, jed.id)
    case None =>
      assert line.cenaNaKos == jed.cena;
    case Some(d) =>
      assert line.cenaNaKos == CalculateDiscountedPrice(jed.cena, d);
      if IsPercent(d) && d.vrednost != 100.0 {
        PercentReconstruction(jed.cena, d);
      } else if !IsPercent(d) && d.vrednost <= jed.cena {
        FixedReconstruction(jed.cena, d);
      }
  }

  /** An order line as `fetchOrders` returns it, with the `discount` it attaches. */
  datatype FetchedLine = FetchedLine(id: string, jedId: string, kolicina: int, cenaNaKos: real, discount: Option<Discount>)

  datatype FetchedOrder = FetchedOrder(id: string, status: OrderStatus, lines: seq<FetchedLine>)

  predicate HasLines(orders: seq<FetchedOrder>)
  {
    exists i :: 0 <= i < |orders| && |orders[i].lines| > 0
  }

  /** The discount a fetched line is given: the first fetched one for its
      dish, or null when none matches or the fetch failed. */
  function DiscountFor(discounts: Option<seq<Discount>>, jedId: string): Option<Discount>
  {
    if discounts.None? then None else GetDiscountForFood(discounts.value, jedId)
  }

  /** The nested `forEach` of `fetchOrders`, run only when some order has a
      line: every line's `discount` is set, nothing else changes. */
  method AttachDiscounts(data: seq<FetchedOrder>, discounts: Option<seq<Discount>>) returns (result: seq<FetchedOrder>)
    ensures |result| == |data|
    ensures forall i :: 0 <= i < |data| ==>
      result[i].id == data[i].id && result[i].status == data[i].status
      && |result[i].lines| == |data[i].lines|
    ensures forall i, j :: 0 <= i < |data| && 0 <= j < |data[i].lines| ==>
      result[i].lines[j] == if HasLines(data)
        then data[i].lines[j].(discount := DiscountFor(discounts, data[i].lines[j].jedId))
        else data[i].lines[j]
  {
    result := data;
    if !HasLines(data) {
      return;
    }
    var i := 0;
    while i < |result|
      invariant 0 <= i <= |result| && |result| == |data|
      invariant forall k :: 0 <= k < |data| ==>
        result[k].id == data[k].id && result[k].status == data[k].status && |result[k].lines| == |data[k].lines|
      invariant forall k, j :: 0 <= k < i && 0 <= j < |data[k].lines| ==>
        result[k].lines[j] == data[k].lines[j].(discount := DiscountFor(discounts, data[k].lines[j].jedId))
      invariant forall k :: i <= k < |data| ==> result[k] == data[k]
    {
      var lines := result[i].lines;
      var j := 0;
      while j < |lines|
        invariant 0 <= j <= |lines| && |lines| == |data[i].lines|
        invariant forall m :: 0 <= m < j ==>
          lines[m] == data[i].lines[m].(discount := DiscountFor(discounts, data[i].lines[m].jedId))
        invariant forall m :: j <= m < |lines| ==> lines[m] == data[i].lines[m]
      {
        lines := lines[j := lines[j].(discount := DiscountFor(discounts, lines[j].jedId))];
        j := j + 1;
      }
      result := result[i := result[i].(lines := lines)];
      i := i + 1;
    }
  }
}
