/** The discount editor of the restaurant admin
    (src/components/admin/DiscountManager.tsx): the form and its validation,
    the row the save writes, loading a row back into the form, the status
    toggle and the dish-name lookup. The database is the `popusti` list the
    editor shows; a write either fails or is applied to it. */
module DiscountManager {
  import opened Common
  import opened Discounts
  import opened OrderConfirmation

  /** The discount form. The value is the text the admin typed; the
      validity dates are opaque ISO strings (`undefined` is `None`). */
  datatype DiscountForm = DiscountForm(
    jedId: string,
    tipPopusta: string,
    vrednost: string,
    naziv: Option<string>,
    opis: Option<string>,
    aktiven: bool,
    veljavnostOd: Option<string>,
    veljavnostDo: Option<string>)

  const DefaultDiscountForm := DiscountForm("", Percent, "", Some(""), Some(""), true, None, None)

  datatype DiscountError = MissingFields | NotPositive | PercentOverHundred

  datatype Checked = Valid(vrednost: real) | Invalid(error: DiscountError)

  /** The three checks of `handleSaveDiscount`, in their order: a dish and a
      value are required, the value must parse to a positive number, and a
      percentage may not exceed 100. Exactly 100 % passes, and a fixed
      amount has no upper bound. */
  function ValidateDiscountForm(form: DiscountForm): (r: Checked)
    ensures r == Invalid(MissingFields) <==> form.jedId == "" || form.vrednost == ""
    ensures r == Invalid(NotPositive) <==>
      form.jedId != "" && form.vrednost != ""
      && (ParseFloat(form.vrednost).None? || ParseFloat(form.vrednost).value <= 0.0)
    ensures r == Invalid(PercentOverHundred) <==>
      form.jedId != "" && form.vrednost != ""
      && ParseFloat(form.vrednost).Some? && ParseFloat(form.vrednost).value > 0.0
      && form.tipPopusta == Percent && ParseFloat(form.vrednost).value > 100.0
    ensures r.Valid? ==>
      ParseFloat(form.vrednost) == Some(r.vrednost) && r.vrednost > 0.0
      && (form.tipPopusta == Percent ==> r.vrednost <= 100.0)
  {
    if form.jedId == "" || form.vrednost == "" then Invalid(MissingFields)
    else
      var vrednost := ParseFloat(form.vrednost);
      if vrednost.None? || vrednost.value <= 0.0 then Invalid(NotPositive)
      else if form.tipPopusta == Percent && vrednost.value > 100.0 then Invalid(PercentOverHundred)
      else Valid(vrednost.value)
  }

  /** `text || null`: an absent or empty text is stored as null. */
  function NullIfEmpty(s: Option<string>): (r: Option<string>)
    ensures r.None? <==> s.None? || s.value == ""
    ensures r.Some? ==> r == s
  {
    if s.Some? && s.value != "" then s else None
  }

  /** The fields both writes of `handleSaveDiscount` send. */
  datatype Payload = Payload(
    tipPopusta: string,
    vrednost: real,
    naziv: Option<string>,
    opis: Option<string>,
    aktiven: bool,
    veljavnostOd: Option<string>,
    veljavnostDo: Option<string>)

  function PayloadOf(form: DiscountForm, vrednost: real): Payload
  {
    Payload(form.tipPopusta, vrednost, NullIfEmpty(form.naziv), NullIfEmpty(form.opis), form.aktiven,
            form.veljavnostOd, form.veljavnostDo)
  }

  /** The update of an existing row: its id and its dish stay, whatever
      dish the form now names. */
  function Updated(row: Discount, p: Payload): Discount
  {
    row.(tipPopusta := p.tipPopusta, vrednost := p.vrednost, naziv := p.naziv, opis := p.opis,
         aktiven := p.aktiven, veljavnostOd := p.veljavnostOd, veljavnostDo := p.veljavnostDo)
  }

  /** The inserted row; `freshId` stands for the id the database assigns. */
  function Inserted(freshId: string, jedId: string, p: Payload): Discount
  {
    Discount(freshId, jedId, p.tipPopusta, p.vrednost, p.naziv, p.opis, p.aktiven, p.veljavnostOd, p.veljavnostDo)
  }

  /** The `.update(...).eq('id', id)` on the list of rows. */
  function UpdatedRows(rows: seq<Discount>, id: string, p: Payload): (r: seq<Discount>)
    ensures |r| == |rows|
    ensures forall i :: 0 <= i < |rows| ==> r[i] == if rows[i].id == id then Updated(rows[i], p) else rows[i]
  {
    if rows == [] then []
    else
      var first := if rows[0].id == id then Updated(rows[0], p) else rows[0];
      [first] + UpdatedRows(rows[1..], id, p)
  }

  /** Empty or missing texts are written as null, and so is a missing date,
      on both the update and the insert; what is written never holds an
      empty text. */
  lemma EmptyTextStoredAsNull(form: DiscountForm, vrednost: real, row: Discount, freshId: string)
    ensures var u := Updated(row, PayloadOf(form, vrednost));
      (u.naziv.None? <==> form.naziv.None? || form.naziv == Some(""))
      && (u.opis.None? <==> form.opis.None? || form.opis == Some(""))
      && (u.veljavnostOd.None? <==> form.veljavnostOd.None?)
      && (u.veljavnostDo.None? <==> form.veljavnostDo.None?)
    ensures var n := Inserted(freshId, form.jedId, PayloadOf(form, vrednost));
      (n.naziv.None? <==> form.naziv.None? || form.naziv == Some(""))
      && (n.opis.None? <==> form.opis.None? || form.opis == Some(""))
      && (n.veljavnostOd.None? <==> form.veljavnostOd.None?)
      && (n.veljavnostDo.None? <==> form.veljavnostDo.None?)
      && n.naziv != Some("") && n.opis != Some("")
  {
  }

  /** A stored date or text as the form reads it: `value || undefined`. */
  function FalsyAsNone(s: Option<string>): Option<string>
  {
    if s.Some? && s.value != "" then s else None
  }

  /** `handleEditDiscount`: the form a row is loaded into. `vrednostText`
      is the value as `toString` writes it; null texts become empty. */
  function FormOf(popust: Discount, vrednostText: string): DiscountForm
  {
    DiscountForm(popust.jedId, popust.tipPopusta, vrednostText,
                 Some(if popust.naziv.Some? then popust.naziv.value else ""),
                 Some(if popust.opis.Some? then popust.opis.value else ""),
                 popust.aktiven, FalsyAsNone(popust.veljavnostOd), FalsyAsNone(popust.veljavnostDo))
  }

  /** A row whose texts and dates are null rather than empty, as the editor
      itself writes them. */
  predicate Normalised(p: Discount)
  {
    p.naziv != Some("") && p.opis != Some("") && p.veljavnostOd != Some("") && p.veljavnostDo != Some("")
  }

  /** Loading a row the editor accepts into the form and saving it unchanged
      writes the same row back: kind, value, flag, texts and dates. */
  lemma EditRoundTrip(popust: Discount, vrednostText: string)
    requires popust.jedId != "" && popust.vrednost > 0.0
    requires IsPercent(popust) ==> popust.vrednost <= 100.0
    requires ParseFloat(vrednostText) == Some(popust.vrednost)
    ensures ValidateDiscountForm(FormOf(popust, vrednostText)) == Valid(popust.vrednost)
    ensures var u := Updated(popust, PayloadOf(FormOf(popust, vrednostText), popust.vrednost));
      u.tipPopusta == popust.tipPopusta && u.vrednost == popust.vrednost && u.aktiven == popust.aktiven
      && u.naziv == NullIfEmpty(popust.naziv) && u.opis == NullIfEmpty(popust.opis)
    ensures Normalised(popust) ==>
      Updated(popust, PayloadOf(FormOf(popust, vrednostText), popust.vrednost)) == popust
  {
    var form := FormOf(popust, vrednostText);
    assert form.jedId == popust.jedId && form.vrednost == vrednostText && form.tipPopusta == popust.tipPopusta;
    assert vrednostText != "";
    FormPayload(popust, vrednostText);
  }

  /** What saving the loaded form sends: the row's own fields, its texts
      with empty ones as null. */
  lemma FormPayload(popust: Discount, vrednostText: string)
    ensures var p := PayloadOf(FormOf(popust, vrednostText), popust.vrednost);
      p.tipPopusta == popust.tipPopusta && p.vrednost == popust.vrednost && p.aktiven == popust.aktiven
      && p.naziv == NullIfEmpty(popust.naziv) && p.opis == NullIfEmpty(popust.opis)
      && p.veljavnostOd == FalsyAsNone(popust.veljavnostOd) && p.veljavnostDo == FalsyAsNone(popust.veljavnostDo)
  {
  }

  /** The same for a whole-number value, whose text is its digits. */
  lemma WholeValueRoundTrip(popust: Discount, n: nat)
    requires popust.jedId != "" && n > 0 && popust.vrednost == n as real
    requires IsPercent(popust) ==> n <= 100
    requires Normalised(popust)
    ensures ValidateDiscountForm(FormOf(popust, NatText(n))) == Valid(popust.vrednost)
    ensures Updated(popust, PayloadOf(FormOf(popust, NatText(n)), popust.vrednost)) == popust
  {
    ParseNatText(n);
    EditRoundTrip(popust, NatText(n));
  }

  /** The editor accepts a discount of exactly 100 %, and the confirmation
      email then has no finite original price for any line it applies to. */
  lemma HundredPercentAccepted(form: DiscountForm, row: Discount, freshId: string, cenaNaKos: real)
    requires form.jedId != "" && form.tipPopusta == Percent && form.vrednost == NatText(100)
    ensures ValidateDiscountForm(form) == Valid(100.0)
    ensures OriginalUnitPrice(cenaNaKos, Inserted(freshId, form.jedId, PayloadOf(form, 100.0))) == NonFinite
    ensures OriginalUnitPrice(cenaNaKos, Updated(row, PayloadOf(form, 100.0))) == NonFinite
  {
    ParseNatText(100);
  }

  /** The value `toggleDiscountStatus` writes: the negation of the flag it is given. */
  function ToggledRows(rows: seq<Discount>, popustId: string, aktiven: bool): (r: seq<Discount>)
    ensures |r| == |rows|
    ensures forall i :: 0 <= i < |rows| ==> r[i] == if rows[i].id == popustId then rows[i].(aktiven := !aktiven) else rows[i]
  {
    if rows == [] then []
    else
      var first := if rows[0].id == popustId then rows[0].(aktiven := !aktiven) else rows[0];
      [first] + ToggledRows(rows[1..], popustId, aktiven)
  }

  /** Toggling a row with its shown flag flips it; doing so twice restores the list. */
  lemma ToggleTwice(rows: seq<Discount>, k: nat)
    requires k < |rows|
    requires forall i :: 0 <= i < |rows| && i != k ==> rows[i].id != rows[k].id
    ensures ToggledRows(rows, rows[k].id, rows[k].aktiven)[k].aktiven == !rows[k].aktiven
    ensures var once := ToggledRows(rows, rows[k].id, rows[k].aktiven);
      ToggledRows(once, rows[k].id, once[k].aktiven) == rows
  {
    var once := ToggledRows(rows, rows[k].id, rows[k].aktiven);
    var twice := ToggledRows(once, rows[k].id, once[k].aktiven);
    assert forall i :: 0 <= i < |rows| ==> twice[i] == rows[i];
  }

  /** The part of a `jedi` row the editor reads. */
  datatype Dish = Dish(id: string, ime: string)

  const UnknownDish := "Neznana jed"

  /** `jedi.find(j => j.id === jedId)`. */
  function FindDish(jedi: seq<Dish>, jedId: string): (r: Option<Dish>)
    ensures r.None? <==> forall i :: 0 <= i < |jedi| ==> jedi[i].id != jedId
    ensures r.Some? ==> exists i :: 0 <= i < |jedi| && jedi[i] == r.value && jedi[i].id == jedId
                          && (forall j :: 0 <= j < i ==> jedi[j].id != jedId)
  {
    if jedi == [] then None
    else if jedi[0].id == jedId then
      assert jedi[0] == jedi[0];
      Some(jedi[0])
    else
      var r := FindDish(jedi[1..], jedId);
      if r.Some? then
        var i :| 0 <= i < |jedi[1..]| && jedi[1..][i] == r.value && jedi[1..][i].id == jedId
          && (forall j :: 0 <= j < i ==> jedi[1..][j].id != jedId);
        assert jedi[i + 1] == r.value;
        r
      else r
  }

  /** `getJedName`: the name of the first dish with that id, or the fixed
      placeholder when there is none or its name is empty. */
  function GetJedName(jedi: seq<Dish>, jedId: string): (r: string)
    ensures (forall i :: 0 <= i < |jedi| ==> jedi[i].id != jedId) ==> r == UnknownDish
    ensures forall i :: 0 <= i < |jedi| && jedi[i].id == jedId && (forall j :: 0 <= j < i ==> jedi[j].id != jedId) ==>
      r == if jedi[i].ime != "" then jedi[i].ime else UnknownDish
  {
    var jed := FindDish(jedi, jedId);
    if jed.Some? && jed.value.ime != "" then jed.value.ime else UnknownDish
  }

  datatype SaveResult = Rejected(error: DiscountError) | WriteFailed | Saved

  class DiscountEditor {
    var popusti: seq<Discount>
    var editingPopust: Option<Discount>
    var popustForm: DiscountForm
    var dialogOpen: bool

    constructor (initial: seq<Discount>)
      ensures popusti == initial && editingPopust == None && popustForm == DefaultDiscountForm && !dialogOpen
    {
      popusti := initial;
      editingPopust := None;
      popustForm := DefaultDiscountForm;
      dialogOpen := false;
    }

    /** `handleSaveDiscount`. `freshId` is the id the database gives an
        inserted row and `writeFailed` the outcome of the write. A rejected
        form or a failed write changes nothing; a saved one updates the row
        being edited, or adds a row, and resets the form. */
    method SaveDiscount(freshId: string, writeFailed: bool) returns (result: SaveResult)
      modifies this
      ensures ValidateDiscountForm(old(popustForm)).Invalid? ==>
        result == Rejected(ValidateDiscountForm(old(popustForm)).error)
      ensures result != Saved ==>
        popusti == old(popusti) && popustForm == old(popustForm)
        && editingPopust == old(editingPopust) && dialogOpen == old(dialogOpen)
      ensures ValidateDiscountForm(old(popustForm)).Valid? ==>
        var p := PayloadOf(old(popustForm), ValidateDiscountForm(old(popustForm)).vrednost);
        (result == WriteFailed <==> writeFailed)
        && (result == Saved ==>
              popusti == (if old(editingPopust).Some?
                          then UpdatedRows(old(popusti), old(editingPopust).value.id, p)
                          else old(popusti) + [Inserted(freshId, old(popustForm).jedId, p)])
              && popustForm == DefaultDiscountForm && editingPopust == None && !dialogOpen)
    {
      var checked := ValidateDiscountForm(popustForm);
      if checked.Invalid? {
        return Rejected(checked.error);
      }
      if writeFailed {
        return WriteFailed;
      }
      var payload := PayloadOf(popustForm, checked.vrednost);
      if editingPopust.Some? {
        popusti := UpdatedRows(popusti, editingPopust.value.id, payload);
      } else {
        popusti := popusti + [Inserted(freshId, popustForm.jedId, payload)];
      }
      popustForm := DefaultDiscountForm;
      editingPopust := None;
      dialogOpen := false;
      return Saved;
    }

    /** `handleEditDiscount`. */
    method EditDiscount(popust: Discount, vrednostText: string)
      modifies this
      ensures editingPopust == Some(popust) && popustForm == FormOf(popust, vrednostText) && dialogOpen
      ensures popusti == old(popusti)
    {
      editingPopust := Some(popust);
      popustForm := FormOf(popust, vrednostText);
      dialogOpen := true;
    }

    /** `toggleDiscountStatus`: writes the negation of the flag it is given. */
    method ToggleDiscountStatus(popustId: string, aktiven: bool, writeFailed: bool)
      modifies this
      ensures popusti == if writeFailed then old(popusti) else ToggledRows(old(popusti), popustId, aktiven)
      ensures editingPopust == old(editingPopust) && popustForm == old(popustForm) && dialogOpen == old(dialogOpen)
    {
      if !writeFailed {
        popusti := ToggledRows(popusti, popustId, aktiven);
      }
    }
  }
}
