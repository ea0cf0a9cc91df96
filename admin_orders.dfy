/** The restaurant's order board (src/pages/admin/AdminOrdersPage.tsx): the
    order-state sequence, advancing an order, the state filter and the split
    into active orders and history. */
module AdminOrders {
  import opened Common
  import opened OrderService

  /** An order as the board holds it. */
  datatype AdminOrder = AdminOrder(id: string, stanje: OrderStatus, imeNarocnika: string, skupnaCena: real)

  /** `zaporedje`: the order every order moves through. */
  const Zaporedje: seq<OrderStatus> := [Novo, Sprejeto, VPripravi, Pripravljeno, Prevzeto]

  /** The key of a state in `stanjaMap`, as the filter compares it. */
  function StatusKey(s: OrderStatus): string
  {
    match s
    case Novo => "novo"
    case Sprejeto => "sprejeto"
    case VPripravi => "v_pripravi"
    case Pripravljeno => "pripravljeno"
    case Prevzeto => "prevzeto"
  }

  /** Reference numbering of the states, independent of `Zaporedje`. */
  function Rank(s: OrderStatus): nat
  {
    match s
    case Novo => 0
    case Sprejeto => 1
    case VPripravi => 2
    case Pripravljeno => 3
    case Prevzeto => 4
  }

  /** `zaporedje.indexOf(s)`: every state occurs, so it is never -1. */
  function IndexOf(s: OrderStatus): (i: nat)
    ensures i < |Zaporedje| && Zaporedje[i] == s
    ensures forall j :: 0 <= j < i ==> Zaporedje[j] != s
  {
    assert Zaporedje[0] == Novo && Zaporedje[1] == Sprejeto && Zaporedje[2] == VPripravi;
    assert Zaporedje[3] == Pripravljeno && Zaporedje[4] == Prevzeto;
    if s == Novo then 0 else if s == Sprejeto then 1 else if s == VPripravi then 2
    else if s == Pripravljeno then 3 else 4
  }

  /** `getNextStanje`: the state after `s` in `zaporedje`, or null after the last. */
  function GetNextStanje(trenutnoStanje: OrderStatus): (r: Option<OrderStatus>)
    ensures r.None? <==> trenutnoStanje == Prevzeto
    ensures r.Some? ==> Rank(r.value) == Rank(trenutnoStanje) + 1
  {
    var trenutniIndex := IndexOf(trenutnoStanje);
    if trenutniIndex < |Zaporedje| - 1 then Some(Zaporedje[trenutniIndex + 1]) else None
  }

  /** `n` advances from `s`, or `None` once an advance is refused. */
  function AdvanceTimes(s: OrderStatus, n: nat): Option<OrderStatus>
    decreases n
  {
    if n == 0 then Some(s)
    else match GetNextStanje(s)
      case None => None
      case Some(t) => AdvanceTimes(t, n - 1)
  }

  /** Every advance moves exactly one step: `n` advances succeed exactly while
      the rank stays within the sequence, and land `n` ranks further on. */
  lemma {:induction false} AdvanceSteps(s: OrderStatus, n: nat)
    ensures AdvanceTimes(s, n).Some? <==> Rank(s) + n <= 4
    ensures AdvanceTimes(s, n).Some? ==> Rank(AdvanceTimes(s, n).value) == Rank(s) + n
    decreases n
  {
    if n > 0 {
      var next := GetNextStanje(s);
      if next.Some? {
        AdvanceSteps(next.value, n - 1);
      }
    }
  }

  /** From 'novo', four advances reach 'prevzeto' and a fifth is refused. */
  lemma FourStepsToPickedUp()
    ensures AdvanceTimes(Novo, 4) == Some(Prevzeto)
    ensures AdvanceTimes(Novo, 5).None?
  {
    AdvanceSteps(Novo, 4);
    AdvanceSteps(Novo, 5);
    assert Rank(AdvanceTimes(Novo, 4).value) == 4;
  }

  /** The `map` of `handleUpdateStanje`. */
  function WithStanje(narocila: seq<AdminOrder>, narociloId: string, novoStanje: OrderStatus): (r: seq<AdminOrder>)
    ensures |r| == |narocila|
    ensures forall i :: 0 <= i < |narocila| ==>
      r[i] == if narocila[i].id == narociloId then narocila[i].(stanje := novoStanje) else narocila[i]
  {
    if narocila == [] then []
    else
      var first := if narocila[0].id == narociloId then narocila[0].(stanje := novoStanje) else narocila[0];
      [first] + WithStanje(narocila[1..], narociloId, novoStanje)
  }

  /** `a` is `b` with some elements left out, the rest in order. */
  predicate SubsequenceOf(a: seq<AdminOrder>, b: seq<AdminOrder>)
    decreases |b|
  {
    a == [] || (b != [] && (if a[0] == b[0] then SubsequenceOf(a[1..], b[1..]) else SubsequenceOf(a, b[1..])))
  }

  /** The orders whose state satisfies `keep`, in list order. */
  function Select(narocila: seq<AdminOrder>, keep: OrderStatus -> bool): (r: seq<AdminOrder>)
    ensures forall o :: o in r <==> o in narocila && keep(o.stanje)
    ensures |r| <= |narocila|
  {
    if narocila == [] then []
    else if keep(narocila[0].stanje) then [narocila[0]] + Select(narocila[1..], keep)
    else Select(narocila[1..], keep)
  }

  lemma {:induction false} SelectIsSubsequence(narocila: seq<AdminOrder>, keep: OrderStatus -> bool)
    ensures SubsequenceOf(Select(narocila, keep), narocila)
  {
    if narocila != [] {
      SelectIsSubsequence(narocila[1..], keep);
      var r := Select(narocila, keep);
      if !keep(narocila[0].stanje) && r != [] {
        SubsequenceSkip(r, narocila);
      }
    }
  }

  /** The filter keeps every order it keeps as often as the list holds it,
      and no other order at all. */
  lemma {:induction false} SelectCount(narocila: seq<AdminOrder>, keep: OrderStatus -> bool, o: AdminOrder)
    ensures multiset(Select(narocila, keep))[o] == if keep(o.stanje) then multiset(narocila)[o] else 0
  {
    if narocila != [] {
      SelectCount(narocila[1..], keep, o);
      assert narocila == [narocila[0]] + narocila[1..];
    }
  }

  /** A subsequence of the tail is a subsequence of the whole. */
  lemma {:induction false} SubsequenceSkip(a: seq<AdminOrder>, b: seq<AdminOrder>)
    requires b != [] && SubsequenceOf(a, b[1..])
    ensures SubsequenceOf(a, b)
    decreases |b|, |a|
  {
    if a != [] && a[0] == b[0] {
      SubsequenceTail(a, b[1..]);
    }
  }

  /** Dropping the head of a subsequence keeps it a subsequence. */
  lemma {:induction false} SubsequenceTail(a: seq<AdminOrder>, b: seq<AdminOrder>)
    requires a != [] && SubsequenceOf(a, b)
    ensures SubsequenceOf(a[1..], b)
    decreases |b|, |a|
  {
    if a[1..] != [] {
      if a[0] == b[0] {
        SubsequenceSkip(a[1..], b);
      } else {
        SubsequenceTail(a, b[1..]);
        SubsequenceSkip(a[1..], b);
      }
    }
  }

  /** `filteredNarocila`: everything for 'vsa', otherwise the orders whose
      state key is the selected one. */
  function FilteredNarocila(narocila: seq<AdminOrder>, selectedStanje: string): seq<AdminOrder>
  {
    if selectedStanje == "vsa" then narocila
    else Select(narocila, s => StatusKey(s) == selectedStanje)
  }

  lemma FilterEffect(narocila: seq<AdminOrder>, selectedStanje: string)
    ensures selectedStanje == "vsa" ==> FilteredNarocila(narocila, selectedStanje) == narocila
    ensures selectedStanje != "vsa" ==>
      SubsequenceOf(FilteredNarocila(narocila, selectedStanje), narocila)
      && (forall o :: o in FilteredNarocila(narocila, selectedStanje) <==> o in narocila && StatusKey(o.stanje) == selectedStanje)
      && (forall o :: multiset(FilteredNarocila(narocila, selectedStanje))[o]
            == if StatusKey(o.stanje) == selectedStanje then multiset(narocila)[o] else 0)
  {
    if selectedStanje != "vsa" {
      var keep := s => StatusKey(s) == selectedStanje;
      SelectIsSubsequence(narocila, keep);
      forall o {
        SelectCount(narocila, keep, o);
      }
    }
  }

  /** The two tabs: orders not yet picked up, and the history. */
  function Aktivna(narocila: seq<AdminOrder>): seq<AdminOrder>
  {
    Select(narocila, s => s != Prevzeto)
  }

  function Zgodovina(narocila: seq<AdminOrder>): seq<AdminOrder>
  {
    Select(narocila, s => s == Prevzeto)
  }

  /** The tabs partition the orders: together they hold every order exactly
      as often as the list does, and each holds only its own kind. */
  lemma {:induction false} TabsPartition(narocila: seq<AdminOrder>)
    ensures multiset(Aktivna(narocila)) + multiset(Zgodovina(narocila)) == multiset(narocila)
    ensures forall o :: o in Aktivna(narocila) ==> o.stanje != Prevzeto
    ensures forall o :: o in Zgodovina(narocila) ==> o.stanje == Prevzeto
  {
    if narocila != [] {
      TabsPartition(narocila[1..]);
      assert narocila == [narocila[0]] + narocila[1..];
    }
  }

  /** The advance button is offered only on an editable card whose state has a successor. */
  predicate CanAdvance(readonly: bool, stanje: OrderStatus)
  {
    !readonly && GetNextStanje(stanje).Some?
  }

  /** History cards are read-only and never advance; every active card can. */
  lemma AdvanceOnlyOnActive(narocila: seq<AdminOrder>)
    ensures forall o :: o in Zgodovina(narocila) ==> !CanAdvance(true, o.stanje) && !CanAdvance(false, o.stanje)
    ensures forall o :: o in Aktivna(narocila) ==> CanAdvance(false, o.stanje)
  {
  }

  /** The keys of `stanjaMap`, in declaration order. */
  function StanjaKeys(): seq<string>
  {
    [StatusKey(Novo), StatusKey(Sprejeto), StatusKey(VPripravi), StatusKey(Pripravljeno), StatusKey(Prevzeto)]
  }

  function WithoutKey(keys: seq<string>, key: string): (r: seq<string>)
    ensures forall k :: k in r <==> k in keys && k != key
  {
    if keys == [] then []
    else if keys[0] != key then [keys[0]] + WithoutKey(keys[1..], key)
    else WithoutKey(keys[1..], key)
  }

  /** `aktivnaStanja`: every state key except 'prevzeto'. */
  function AktivnaStanja(): seq<string>
  {
    WithoutKey(StanjaKeys(), "prevzeto")
  }

  lemma AktivnaStanjaKeys()
    ensures AktivnaStanja() == ["novo", "sprejeto", "v_pripravi", "pripravljeno"]
    ensures forall s :: StatusKey(s) in AktivnaStanja() <==> s != Prevzeto
  {
    assert StanjaKeys() == ["novo", "sprejeto", "v_pripravi", "pripravljeno", "prevzeto"];
  }

  class OrdersBoard {
    var narocila: seq<AdminOrder>
    var selectedStanje: string

    constructor (initial: seq<AdminOrder>)
      ensures narocila == initial && selectedStanje == "vsa"
    {
      narocila := initial;
      selectedStanje := "vsa";
    }

    /** `handleUpdateStanje`: only the order with that id changes, and only its state. */
    method UpdateStanje(narociloId: string, novoStanje: OrderStatus)
      modifies this
      ensures narocila == WithStanje(old(narocila), narociloId, novoStanje)
      ensures selectedStanje == old(selectedStanje)
    {
      narocila := WithStanje(narocila, narociloId, novoStanje);
    }

    /** The advance button of a card: moves the order to its next state. */
    method Advance(narocilo: AdminOrder, readonly: bool)
      requires CanAdvance(readonly, narocilo.stanje)
      modifies this
      ensures narocila == WithStanje(old(narocila), narocilo.id, GetNextStanje(narocilo.stanje).value)
      ensures selectedStanje == old(selectedStanje)
    {
      var nextStanje := GetNextStanje(narocilo.stanje);
      UpdateStanje(narocilo.id, nextStanje.value);
    }
  }
}
