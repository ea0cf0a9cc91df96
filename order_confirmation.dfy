/** The price column of the order-confirmation e-mail
    (supabase/functions/send-order-confirmation/index.ts, the `orderItemsHtml`
    map): discount lookup, reconstruction of the original unit price from the
    stored one, and the line totals. HTML, delivery and formatting are not
    modelled. */
module OrderConfirmation {
  import opened Common
  import opened Discounts

  /** An order line as the e-mail loads it: the stored unit price and
      quantity, and the dish's id and catalogue price from the `jedi` join. */
  datatype EmailLine = EmailLine(jedId: string, jedCena: real, kolicina: int, cenaNaKos: real)

  /** A JavaScript number as far as the e-mail needs it: a finite value, or
      the Infinity/NaN that a division by zero produces. */
  datatype Amount = Finite(value: real) | NonFinite

  function Times(a: Amount, k: int): (r: Amount)
    ensures r.Finite? <==> a.Finite?
    ensures r.Finite? ==> r.value == a.value * k as real
  {
    match a
    case Finite(v) => Finite(v * k as real)
    case NonFinite => NonFinite
  }

  /** The original unit price as the e-mail computes it from the stored one:
      divided by (1 - v/100) for a percentage, plus v for anything else. */
  function OriginalUnitPrice(cenaNaKos: real, d: Discount): (r: Amount)
    ensures r.NonFinite? <==> IsPercent(d) && d.vrednost == 100.0
    ensures r.Finite? && IsPercent(d) ==> r.value * (1.0 - d.vrednost / 100.0) == cenaNaKos
    ensures r.Finite? && !IsPercent(d) ==> r.value - d.vrednost == cenaNaKos
  {
    if IsPercent(d) then
      var k := 1.0 - d.vrednost / 100.0;
      if k == 0.0 then NonFinite else Finite(cenaNaKos / k)
    else Finite(cenaNaKos + d.vrednost)
  }

  /** What the price cell of a line shows: the payable total alone, or
      also the struck-through original total and the discount. */
  datatype PriceInfo =
    | Plain(total: real)
    | WithDiscount(originalTotal: Amount, discount: Discount, total: real)

  /** The lookup: the first of the fetched discounts for the line's dish;
      a failed fetch (`discounts` null) finds nothing. */
  function LineDiscount(line: EmailLine, fetched: Option<seq<Discount>>): Option<Discount>
  {
    if fetched.None? then None else GetDiscountForFood(fetched.value, line.jedId)
  }

  /** The price cell of one line, as written. */
  function LinePriceInfo(line: EmailLine, fetched: Option<seq<Discount>>): (r: PriceInfo)
    ensures r.total == line.cenaNaKos * line.kolicina as real
    ensures r.Plain? <==> LineDiscount(line, fetched).None?
    ensures r.WithDiscount? ==>
      r.discount == LineDiscount(line, fetched).value
      && r.discount.jedId == line.jedId
      && r.originalTotal == Times(OriginalUnitPrice(line.cenaNaKos, r.discount), line.kolicina)
  {
    var discount := LineDiscount(line, fetched);
    var total := line.cenaNaKos * line.kolicina as real;
    if discount.None? then Plain(total)
    else WithDiscount(Times(OriginalUnitPrice(line.cenaNaKos, discount.value), line.kolicina), discount.value, total)
  }

  /** The rows the e-mail fetches: active discounts of the order's dishes. */
  function FetchedFor(rows: seq<Discount>, foodIds: set<string>): (r: seq<Discount>)
    ensures forall d :: d in r <==> d in rows && d.aktiven && d.jedId in foodIds
  {
    if rows == [] then []
    else if rows[0].aktiven && rows[0].jedId in foodIds then [rows[0]] + FetchedFor(rows[1..], foodIds)
    else FetchedFor(rows[1..], foodIds)
  }

  /** The discount shown on a line is the first active discount of its dish. */
  lemma {:induction false} LineDiscountIsFirstActive(rows: seq<Discount>, foodIds: set<string>, line: EmailLine)
    requires line.jedId in foodIds
    ensures LineDiscount(line, Some(FetchedFor(rows, foodIds))) == FirstActiveFor(rows, line.jedId)
  {
    if rows != [] {
      LineDiscountIsFirstActive(rows[1..], foodIds, line);
      if rows[0].aktiven && rows[0].jedId in foodIds {
        assert ([rows[0]] + FetchedFor(rows[1..], foodIds))[1..] == FetchedFor(rows[1..], foodIds);
      }
    }
  }

  /** For a percentage other than exactly 100 the reconstruction undoes
      `calculateDiscountedPrice`, including above 100. */
  lemma PercentReconstruction(price: real, d: Discount)
    requires IsPercent(d) && d.vrednost != 100.0
    ensures OriginalUnitPrice(CalculateDiscountedPrice(price, d), d) == Finite(price)
  {
    var k := 1.0 - d.vrednost / 100.0;
    assert k != 0.0;
    assert CalculateDiscountedPrice(price, d) == price - price * d.vrednost / 100.0;
    assert price - price * d.vrednost / 100.0 == price * k;
    MulDivCancel(price, k);
  }

  lemma MulDivCancel(a: real, k: real)
    requires k != 0.0
    ensures a * k / k == a
  {
  }

  /** A stored price that was never discounted is read as discounted: for a
      percentage strictly between 0 and 100 the reconstructed original
      exceeds it. */
  lemma OriginalAboveStored(cenaNaKos: real, d: Discount)
    requires IsPercent(d) && 0.0 < d.vrednost < 100.0 && cenaNaKos > 0.0
    ensures OriginalUnitPrice(cenaNaKos, d).Finite?
    ensures OriginalUnitPrice(cenaNaKos, d).value > cenaNaKos
  {
    var k := 1.0 - d.vrednost / 100.0;
    assert 0.0 < k < 1.0;
    var o := OriginalUnitPrice(cenaNaKos, d).value;
    assert o == cenaNaKos / k;
    var g := cenaNaKos * (1.0 - k);
    StrictMul(cenaNaKos, 1.0 - k);
    assert o - cenaNaKos == g / k;
    assert g / k > 0.0;
  }

  lemma StrictMul(a: real, b: real)
    requires a > 0.0 && b > 0.0
    ensures a * b > 0.0
  {
  }

  lemma StrictMulMono(a: real, b: real, c: real)
    requires a > b && c >= 1.0
    ensures a * c > b * c
  {
    assert a * c - b * c == (a - b) * c;
    StrictMul(a - b, c);
  }

  /** For a fixed amount the reconstruction gives back the price exactly when
      the amount does not exceed it; beyond that it gives the amount itself. */
  lemma FixedReconstruction(price: real, d: Discount)
    requires !IsPercent(d)
    ensures OriginalUnitPrice(CalculateDiscountedPrice(price, d), d) == Finite(price) <==> d.vrednost <= price
    ensures d.vrednost > price ==> OriginalUnitPrice(CalculateDiscountedPrice(price, d), d) == Finite(d.vrednost)
  {
    FixedAmount(price, d);
  }

  /** The e-mail cannot tell what a 100 % discount took off: every stored
      price gives the same non-finite original. */
  lemma HundredPercentNonFinite(cenaNaKos: real, d: Discount)
    requires IsPercent(d) && d.vrednost == 100.0
    ensures OriginalUnitPrice(cenaNaKos, d) == NonFinite
  {
  }

  /** Corrected price cell: the original unit price is the dish's catalogue
      price, which the e-mail already loads, instead of a reconstruction. */
  function LinePriceInfoCorrected(line: EmailLine, fetched: Option<seq<Discount>>): (r: PriceInfo)
    ensures r.total == line.cenaNaKos * line.kolicina as real
    ensures r.Plain? <==> LineDiscount(line, fetched).None?
    ensures r.WithDiscount? ==>
      r.discount == LineDiscount(line, fetched).value
      && r.originalTotal == Finite(line.jedCena * line.kolicina as real)
  {
    var discount := LineDiscount(line, fetched);
    var total := line.cenaNaKos * line.kolicina as real;
    if discount.None? then Plain(total)
    else WithDiscount(Finite(line.jedCena * line.kolicina as real), discount.value, total)
  }

  /** Whenever the stored price is the discounted one and the reconstruction
      can invert it, the corrected cell shows what the written one does; and
      for a 100 % discount it still shows a finite original. */
  lemma CorrectedAgreesWhereDefined(line: EmailLine, fetched: Option<seq<Discount>>)
    requires LineDiscount(line, fetched).Some?
    requires line.cenaNaKos == CalculateDiscountedPrice(line.jedCena, LineDiscount(line, fetched).value)
    ensures var d := LineDiscount(line, fetched).value;
      (IsPercent(d) && d.vrednost != 100.0) || (!IsPercent(d) && d.vrednost <= line.jedCena) ==>
        LinePriceInfoCorrected(line, fetched) == LinePriceInfo(line, fetched)
    ensures LinePriceInfoCorrected(line, fetched).originalTotal.Finite?
  {
    var d := LineDiscount(line, fetched).value;
    if IsPercent(d) && d.vrednost != 100.0 {
      PercentReconstruction(line.jedCena, d);
    } else if !IsPercent(d) && d.vrednost <= line.jedCena {
      FixedReconstruction(line.jedCena, d);
    }
  }
}
