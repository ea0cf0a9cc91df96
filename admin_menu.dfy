/** The restaurant's menu editor (src/pages/admin/AdminMenuPage.tsx): the
    dish list, the dish form with its validation, and the grouping of dishes
    by the fixed categories. */
module AdminMenu {
  import opened Common

  /** The dish form: the price is the text the admin typed. */
  datatype JedForm = JedForm(naziv: string, opis: string, cena: string, kategorija: string, naVoljo: bool)

  const DefaultJedForm := JedForm("", "", "", "Glavne jedi", true)

  /** The restaurant every new dish is attached to. */
  const NewDishRestaurant := "rest_1"

  const Kategorije: seq<string> := ["Glavne jedi", "Juhe", "Pijače", "Sladice"]

  datatype SaveError = MissingFields | InvalidPrice

  datatype Validated = Accepted(cena: real) | Rejected(error: SaveError)

  /** The checks of `handleSaveJed`: all three text fields must be non-empty,
      then the price must parse to a positive number. */
  function ValidateJedForm(form: JedForm): (r: Validated)
    ensures r == Rejected(MissingFields) <==> form.naziv == "" || form.opis == "" || form.cena == ""
    ensures r == Rejected(InvalidPrice) <==>
      form.naziv != "" && form.opis != "" && form.cena != ""
      && (ParseFloat(form.cena).None? || ParseFloat(form.cena).value <= 0.0)
    ensures r.Accepted? ==> ParseFloat(form.cena) == Some(r.cena) && r.cena > 0.0
  {
    if form.naziv == "" || form.opis == "" || form.cena == "" then Rejected(MissingFields)
    else
      var cena := ParseFloat(form.cena);
      if cena.None? || cena.value <= 0.0 then Rejected(InvalidPrice)
      else Accepted(cena.value)
  }

  /** The `map` of an edit: the form's fields and the parsed price replace
      those of the dish with that id; its id and restaurant stay. */
  function Edited(jedi: seq<Jed>, id: string, form: JedForm, cena: real): (r: seq<Jed>)
    ensures |r| == |jedi|
    ensures forall i :: 0 <= i < |jedi| ==>
      r[i] == if jedi[i].id == id
        then Jed(jedi[i].id, form.naziv, form.opis, cena, form.kategorija, jedi[i].restavracijaId, form.naVoljo)
        else jedi[i]
  {
    if jedi == [] then []
    else
      var j := jedi[0];
      var first := if j.id == id then Jed(j.id, form.naziv, form.opis, cena, form.kategorija, j.restavracijaId, form.naVoljo) else j;
      [first] + Edited(jedi[1..], id, form, cena)
  }

  /** The dish an add appends. */
  function NewJed(freshId: string, form: JedForm, cena: real): Jed
  {
    Jed(freshId, form.naziv, form.opis, cena, form.kategorija, NewDishRestaurant, form.naVoljo)
  }

  /** The `filter` of `handleDeleteJed`. */
  function Deleted(jedi: seq<Jed>, id: string): (r: seq<Jed>)
    ensures |r| <= |jedi|
    ensures forall j :: j in r <==> j in jedi && j.id != id
  {
    if jedi == [] then []
    else if jedi[0].id != id then [jedi[0]] + Deleted(jedi[1..], id)
    else Deleted(jedi[1..], id)
  }

  /** The `map` of `handleToggleAvailability`. */
  function Toggled(jedi: seq<Jed>, id: string): (r: seq<Jed>)
    ensures |r| == |jedi|
    ensures forall i :: 0 <= i < |jedi| ==>
      r[i] == if jedi[i].id == id then jedi[i].(naVoljo := !jedi[i].naVoljo) else jedi[i]
  {
    if jedi == [] then []
    else
      var first := if jedi[0].id == id then jedi[0].(naVoljo := !jedi[0].naVoljo) else jedi[0];
      [first] + Toggled(jedi[1..], id)
  }

  /** Toggling the same dish twice restores the list. */
  lemma ToggleTwice(jedi: seq<Jed>, id: string)
    ensures Toggled(Toggled(jedi, id), id) == jedi
  {
    var r := Toggled(Toggled(jedi, id), id);
    assert forall i :: 0 <= i < |jedi| ==> r[i] == jedi[i];
  }

  /** Deleting keeps the other dishes in their order. */
  lemma {:induction false} DeleteKeepsOthers(jedi: seq<Jed>, id: string)
    requires forall i :: 0 <= i < |jedi| ==> jedi[i].id != id
    ensures Deleted(jedi, id) == jedi
  {
    if jedi != [] {
      DeleteKeepsOthers(jedi[1..], id);
      assert jedi == [jedi[0]] + jedi[1..];
    }
  }

  lemma {:induction false} DeleteOne(jedi: seq<Jed>, k: nat)
    requires k < |jedi|
    requires forall i :: 0 <= i < |jedi| && i != k ==> jedi[i].id != jedi[k].id
    ensures Deleted(jedi, jedi[k].id) == jedi[..k] + jedi[k + 1..]
  {
    var id := jedi[k].id;
    var tail := jedi[1..];
    if k == 0 {
      DeleteKeepsOthers(tail, id);
      assert jedi[..0] + jedi[1..] == tail;
    } else {
      assert tail[k - 1].id == id;
      DeleteOne(tail, k - 1);
      assert Deleted(jedi, id) == [jedi[0]] + Deleted(tail, id);
      DeleteSplit(jedi, k);
    }
  }

  /** Dropping a dish after the first one, seen from the tail. */
  lemma DeleteSplit(jedi: seq<Jed>, k: nat)
    requires 0 < k < |jedi|
    ensures jedi[..k] + jedi[k + 1..] == [jedi[0]] + (jedi[1..][..k - 1] + jedi[1..][k..])
  {
  }

  /** The form `handleEditJed` fills from a dish; `cenaText` is the
      dish's price as `toString` writes it. */
  function FormOf(jed: Jed, cenaText: string): JedForm
  {
    JedForm(jed.naziv, jed.opis, cenaText, jed.kategorija, jed.naVoljo)
  }

  /** Loading a valid dish into the form and saving it unchanged gives the
      same dish back; for a whole-number price the text is its digits. */
  lemma EditRoundTrip(jedi: seq<Jed>, k: nat, cenaText: string)
    requires k < |jedi|
    requires jedi[k].naziv != "" && jedi[k].opis != "" && jedi[k].cena > 0.0
    requires ParseFloat(cenaText) == Some(jedi[k].cena)
    ensures ValidateJedForm(FormOf(jedi[k], cenaText)) == Accepted(jedi[k].cena)
    ensures Edited(jedi, jedi[k].id, FormOf(jedi[k], cenaText), jedi[k].cena)[k] == jedi[k]
  {
    assert cenaText != "";
  }

  lemma WholePriceRoundTrip(jed: Jed, n: nat)
    requires jed.naziv != "" && jed.opis != "" && n > 0 && jed.cena == n as real
    ensures ValidateJedForm(FormOf(jed, NatText(n))) == Accepted(jed.cena)
  {
    ParseNatText(n);
  }

  /** The dishes of one category, in list order. */
  function InCategory(jedi: seq<Jed>, kategorija: string): (r: seq<Jed>)
    ensures forall j :: j in r <==> j in jedi && j.kategorija == kategorija
  {
    if jedi == [] then []
    else if jedi[0].kategorija == kategorija then [jedi[0]] + InCategory(jedi[1..], kategorija)
    else InCategory(jedi[1..], kategorija)
  }

  /** The category filter distributes over concatenation and keeps or drops
      a single dish by its category: together these fix each group to that
      category's dishes in list order, repeats included. */
  lemma {:induction false} InCategoryAppend(a: seq<Jed>, b: seq<Jed>, kategorija: string)
    ensures InCategory(a + b, kategorija) == InCategory(a, kategorija) + InCategory(b, kategorija)
  {
    if a != [] {
      var ab := a + b;
      assert ab[0] == a[0] && ab[1..] == a[1..] + b;
      InCategoryAppend(a[1..], b, kategorija);
    } else {
      assert a + b == b;
    }
  }

  /** A single dish is kept exactly when it is of the category. */
  lemma InCategoryOne(j: Jed, kategorija: string)
    ensures InCategory([j], kategorija) == if j.kategorija == kategorija then [j] else []
  {
    assert [j][1..] == [];
  }

  /** `jediPoKategorijah`: the `reduce` over the fixed categories that
      stores each category's dishes under its name. */
  method JediPoKategorijah(jedi: seq<Jed>) returns (acc: map<string, seq<Jed>>)
    ensures acc.Keys == set k | k in Kategorije
    ensures forall k :: k in acc ==> acc[k] == InCategory(jedi, k)
    ensures forall k, j :: k in acc && j in acc[k] ==> j in jedi && j.kategorija == k
    ensures forall j :: j in jedi && j.kategorija !in Kategorije ==> forall k :: k in acc ==> j !in acc[k]
  {
    acc := map[];
    var i := 0;
    while i < |Kategorije|
      invariant 0 <= i <= |Kategorije|
      invariant acc.Keys == set k | k in Kategorije[..i]
      invariant forall k :: k in acc ==> acc[k] == InCategory(jedi, k)
    {
      var kategorija := Kategorije[i];
      acc := acc[kategorija := InCategory(jedi, kategorija)];
      assert Kategorije[..i + 1] == Kategorije[..i] + [kategorija];
      i := i + 1;
    }
    assert Kategorije[..i] == Kategorije;
  }

  class MenuEditor {
    var jedi: seq<Jed>
    var editingJed: Option<Jed>
    var jedForm: JedForm
    var dialogOpen: bool

    constructor (initial: seq<Jed>)
      ensures jedi == initial && editingJed == None && jedForm == DefaultJedForm && !dialogOpen
    {
      jedi := initial;
      editingJed := None;
      jedForm := DefaultJedForm;
      dialogOpen := false;
    }

    /** `handleSaveJed`; `freshId` stands for the id built from the clock.
        A rejected form changes nothing; an accepted one edits the dish
        being edited or appends a new one, then resets the form. */
    method SaveJed(freshId: string) returns (error: Option<SaveError>)
      modifies this
      ensures ValidateJedForm(old(jedForm)).Rejected? ==>
        error == Some(ValidateJedForm(old(jedForm)).error)
        && jedi == old(jedi) && jedForm == old(jedForm) && editingJed == old(editingJed) && dialogOpen == old(dialogOpen)
      ensures ValidateJedForm(old(jedForm)).Accepted? ==>
        error == None
        && jedi == (if old(editingJed).Some?
                    then Edited(old(jedi), old(editingJed).value.id, old(jedForm), ValidateJedForm(old(jedForm)).cena)
                    else old(jedi) + [NewJed(freshId, old(jedForm), ValidateJedForm(old(jedForm)).cena)])
        && jedForm == DefaultJedForm && editingJed == None && !dialogOpen
    {
      var v := ValidateJedForm(jedForm);
      if v.Rejected? {
        return Some(v.error);
      }
      var cena := v.cena;
      if editingJed.Some? {
        jedi := Edited(jedi, editingJed.value.id, jedForm, cena);
      } else {
        var novaJed := NewJed(freshId, jedForm, cena);
        jedi := jedi + [novaJed];
      }
      jedForm := DefaultJedForm;
      editingJed := None;
      dialogOpen := false;
      return None;
    }

    /** `handleEditJed`: `cenaText` is the price as `toString` writes it. */
    method EditJed(jed: Jed, cenaText: string)
      modifies this
      ensures editingJed == Some(jed) && jedForm == FormOf(jed, cenaText) && dialogOpen
      ensures jedi == old(jedi)
    {
      editingJed := Some(jed);
      jedForm := FormOf(jed, cenaText);
      dialogOpen := true;
    }

    method DeleteJed(jedId: string)
      modifies this
      ensures jedi == Deleted(old(jedi), jedId)
      ensures editingJed == old(editingJed) && jedForm == old(jedForm) && dialogOpen == old(dialogOpen)
    {
      jedi := Deleted(jedi, jedId);
    }

    method ToggleAvailability(jedId: string)
      modifies this
      ensures jedi == Toggled(old(jedi), jedId)
      ensures editingJed == old(editingJed) && jedForm == old(jedForm) && dialogOpen == old(dialogOpen)
    {
      jedi := Toggled(jedi, jedId);
    }
  }
}
