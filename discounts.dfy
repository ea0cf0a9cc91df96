/** Discount lookup and discounted price of the `useDiscounts` hook
    (src/hooks/useDiscounts.ts). Prices are exact reals. */
module Discounts {
  import opened Common

  /** A row of the `popusti` table. `tipPopusta` is kept as the stored text:
      the code only ever asks whether it equals "procent". The validity dates
      are opaque: no modelled code compares them. */
  datatype Discount = Discount(
    id: string,
    jedId: string,
    tipPopusta: string,
    vrednost: real,
    naziv: Option<string>,
    opis: Option<string>,
    aktiven: bool,
    veljavnostOd: Option<string>,
    veljavnostDo: Option<string>)

  const Percent: string := "procent"
  const Amount: string := "znesek"

  predicate IsPercent(d: Discount)
  {
    d.tipPopusta == Percent
  }

  /** `calculateDiscountedPrice`: a percentage is taken off without any
      clamping; every other kind is a fixed amount, clamped at zero. */
  function CalculateDiscountedPrice(originalPrice: real, d: Discount): (r: real)
    ensures IsPercent(d) ==> r == originalPrice - originalPrice * d.vrednost / 100.0
    ensures !IsPercent(d) ==> r >= 0.0 && r >= originalPrice - d.vrednost
    ensures !IsPercent(d) ==> r == 0.0 || r == originalPrice - d.vrednost
  {
    if IsPercent(d) then originalPrice * (1.0 - d.vrednost / 100.0)
    else if originalPrice - d.vrednost > 0.0 then originalPrice - d.vrednost else 0.0
  }

  /** A percentage above 100 gives a negative price. */
  lemma PercentOverHundredNegative(originalPrice: real, d: Discount)
    requires IsPercent(d) && d.vrednost > 100.0 && originalPrice > 0.0
    ensures CalculateDiscountedPrice(originalPrice, d) < 0.0
  {
    var k := 1.0 - d.vrednost / 100.0;
    assert k < 0.0;
    assert originalPrice * k < 0.0;
  }

  /** A percentage in [0, 100] keeps the price in [0, price]; 0 % changes nothing. */
  lemma PercentWithinPrice(originalPrice: real, d: Discount)
    requires IsPercent(d) && 0.0 <= d.vrednost <= 100.0 && originalPrice >= 0.0
    ensures 0.0 <= CalculateDiscountedPrice(originalPrice, d) <= originalPrice
    ensures d.vrednost == 0.0 ==> CalculateDiscountedPrice(originalPrice, d) == originalPrice
  {
    var k := 1.0 - d.vrednost / 100.0;
    assert 0.0 <= k <= 1.0;
    MulNonNegative(originalPrice, k);
    MulNonNegative(originalPrice, 1.0 - k);
    assert originalPrice * k == originalPrice - originalPrice * (1.0 - k);
  }

  lemma MulNonNegative(a: real, b: real)
    requires a >= 0.0 && b >= 0.0
    ensures a * b >= 0.0
  {
  }

  /** Any kind other than "procent" is a fixed amount: the exact difference
      while the amount does not exceed the price, zero from there on. */
  lemma FixedAmount(originalPrice: real, d: Discount)
    requires !IsPercent(d)
    ensures d.vrednost <= originalPrice ==> CalculateDiscountedPrice(originalPrice, d) == originalPrice - d.vrednost
    ensures d.vrednost >= originalPrice ==> CalculateDiscountedPrice(originalPrice, d) == 0.0
  {
  }

  /** Neither the active flag nor the validity dates take part in the price. */
  lemma PriceIgnoresActiveAndDates(originalPrice: real, d: Discount, aktiven: bool, od: Option<string>, dO: Option<string>)
    ensures CalculateDiscountedPrice(originalPrice, d.(aktiven := aktiven, veljavnostOd := od, veljavnostDo := dO))
         == CalculateDiscountedPrice(originalPrice, d)
  {
  }

  /** `Array.prototype.find` on `jed_id`: the first discount of the list for the dish. */
  function GetDiscountForFood(discounts: seq<Discount>, jedId: string): (r: Option<Discount>)
    ensures r.None? <==> forall i :: 0 <= i < |discounts| ==> discounts[i].jedId != jedId
    ensures r.Some? ==>
      exists i :: 0 <= i < |discounts| && discounts[i] == r.value && discounts[i].jedId == jedId
                  && (forall j :: 0 <= j < i ==> discounts[j].jedId != jedId)
  {
    if discounts == [] then None
    else if discounts[0].jedId == jedId then
      assert discounts[0] == discounts[0];
      Some(discounts[0])
    else
      var r := GetDiscountForFood(discounts[1..], jedId);
      if r.Some? then
        var i :| 0 <= i < |discounts[1..]| && discounts[1..][i] == r.value
          && discounts[1..][i].jedId == jedId
          && (forall j :: 0 <= j < i ==> discounts[1..][j].jedId != jedId);
        assert discounts[i + 1] == r.value;
        r
      else r
  }

  /** The rows `fetchDiscounts` loads: only the active ones, in table order. */
  function ActiveDiscounts(rows: seq<Discount>): (r: seq<Discount>)
    ensures forall d :: d in r <==> d in rows && d.aktiven
    ensures |r| <= |rows|
  {
    if rows == [] then []
    else if rows[0].aktiven then [rows[0]] + ActiveDiscounts(rows[1..])
    else ActiveDiscounts(rows[1..])
  }

  /** Looking up in the fetched list finds the first active discount of the dish. */
  lemma {:induction false} LookupFindsFirstActive(rows: seq<Discount>, jedId: string)
    ensures GetDiscountForFood(ActiveDiscounts(rows), jedId) == FirstActiveFor(rows, jedId)
  {
    if rows != [] {
      LookupFindsFirstActive(rows[1..], jedId);
      if rows[0].aktiven {
        assert ([rows[0]] + ActiveDiscounts(rows[1..]))[1..] == ActiveDiscounts(rows[1..]);
      }
    }
  }

  /** Reference definition: the first row that is active and belongs to the dish. */
  function FirstActiveFor(rows: seq<Discount>, jedId: string): Option<Discount>
  {
    if rows == [] then None
    else if rows[0].aktiven && rows[0].jedId == jedId then Some(rows[0])
    else FirstActiveFor(rows[1..], jedId)
  }
}
