/** `PopUpViewModel`: the quantity/unit picker shown for one list item. Quantities are counted
    in tenths (`15` is 1.5); the text field's contents arrive already parsed, `None` when the
    text is not a number. */
module PopUp {
  import opened Optional
  import opened Sequences
  import opened Units

  /** The picker's segments, left to right: `[.kg, .liter, .pack, .piece]`. */
  const UnitOrder: seq<Unit> := [Kg, Liter, Pack, Piece]

  /** Pack and piece are counted in whole units; kilograms and litres in tenths. */
  predicate IsWhole(u: Unit) {
    u == Pack || u == Piece
  }

  /** The lowest quantity the minus button leaves: 1 for whole units, 0.1 otherwise. */
  function Floor(u: Unit): int {
    if IsWhole(u) then 10 else 1
  }

  /** The highest quantity the plus button leaves: 1000. */
  const Ceiling: int := 10000

  /** `[.kg, .liter, .pack, .piece].firstIndex(of: unit) ?? 3` */
  function IndexOfUnit(u: Unit): (i: int)
    ensures 0 <= i < |UnitOrder| && UnitOrder[i] == u
  {
    assert UnitOrder[match u case Kg => 0 case Liter => 1 case Pack => 2 case Piece => 3] == u;
    var found := FirstIndexWhere(UnitOrder, x => x == u);
    if found.Some? then found.value else 3
  }

  /** The segment shown for a unit is the segment that selects it again, and back. */
  lemma IndexOfUnitInverse(i: int)
    requires 0 <= i < |UnitOrder|
    ensures IndexOfUnit(UnitOrder[i]) == i
  {
  }

  /** `minusButtonPressed(for:)` on a parsed value `v`: one step down, never below the floor;
      for whole units the result is rounded up to a whole number. */
  function MinusQuantity(u: Unit, v: int): (q: int)
    ensures q >= Floor(u)
    ensures IsWhole(u) ==> q % 10 == 0
    ensures IsWhole(u) ==> v - 10 <= q && (q - 10 < v - 10 || q == Floor(u))
    ensures !IsWhole(u) ==> q == v - 1 || (q == Floor(u) && v - 1 < Floor(u))
    ensures q <= v || q == Floor(u)
  {
    if IsWhole(u) then
      var m := if 10 > v - 10 then 10 else v - 10;
      (m + 9) / 10 * 10
    else
      if 1 > v - 1 then 1 else v - 1
  }

  /** `plusButtonPressed(for:)` on a parsed value `v`: one step up, never above 1000;
      for whole units the result is rounded down to a whole number. */
  function PlusQuantity(u: Unit, v: int): (q: int)
    ensures q <= Ceiling
    ensures IsWhole(u) ==> q % 10 == 0
    ensures IsWhole(u) ==> q <= v + 10 && (v + 10 < q + 10 || q == Ceiling)
    ensures !IsWhole(u) ==> q == v + 1 || (q == Ceiling && v + 1 > Ceiling)
  {
    if IsWhole(u) then
      var m := if Ceiling < v + 10 then Ceiling else v + 10;
      m / 10 * 10
    else
      if v + 1 < Ceiling then v + 1 else Ceiling
  }

  /** Inside the bounds one step down and one step up cancel out. */
  lemma {:induction false} StepsCancelInsideBounds(u: Unit, q: int)
    requires Floor(u) < q < Ceiling
    requires IsWhole(u) ==> q % 10 == 0
    ensures PlusQuantity(u, MinusQuantity(u, q)) == q
    ensures MinusQuantity(u, PlusQuantity(u, q)) == q
  {
  }

  /** The `PopUpBinding` cases: the quantity text shown (as its number), or a cleared field. */
  datatype PopUpBinding = ClosePopUp | PopUpQuantity(quantity: int) | PopUpQuantityCleared

  /** Calls into the weak `PopUpVCDelegate` (the view model that opened the picker). */
  datatype DelegateCall = UnitSelected(item: int, unit: Unit) | QuantitySelected(item: int, quantity: int)

  class PopUpViewModel {
    /** The row of the item being edited. */
    const item: int
    /** Whether the weak `delegate` is still alive; calls to a released delegate do nothing. */
    const hasDelegate: bool
    var quantity: int
    var unit: Unit
    /** Every value assigned to `popUpBinding`, oldest first. */
    var bindings: seq<PopUpBinding>
    var delegateCalls: seq<DelegateCall>

    constructor (item: int, hasDelegate: bool, quantity: int, unit: Unit)
      ensures this.item == item && this.hasDelegate == hasDelegate
      ensures this.quantity == quantity && this.unit == unit
      ensures bindings == [] && delegateCalls == []
    {
      this.item := item;
      this.hasDelegate := hasDelegate;
      this.quantity := quantity;
      this.unit := unit;
      bindings := [];
      delegateCalls := [];
    }

    /** The delegate call list after reporting `call`, if there is a delegate. */
    function Report(call: DelegateCall): seq<DelegateCall>
      reads this
    {
      if hasDelegate then delegateCalls + [call] else delegateCalls
    }

    function GetUnitIndex(): int
      reads this
    {
      IndexOfUnit(unit)
    }

    /** `unitSelected(unit:)`: the index subscripts the segment array, so it must be in range.
        Selecting the unit already shown changes nothing. */
    method UnitSelected(index: int)
      requires 0 <= index < |UnitOrder|
      modifies this
      ensures unit == UnitOrder[index]
      ensures quantity == old(quantity) && bindings == old(bindings)
      ensures old(unit) == UnitOrder[index] ==> delegateCalls == old(delegateCalls)
      ensures old(unit) != UnitOrder[index] ==> delegateCalls == old(Report(DelegateCall.UnitSelected(item, UnitOrder[index])))
    {
      var selectedUnit := UnitOrder[index];
      if unit != selectedUnit {
        unit := selectedUnit;
        delegateCalls := Report(DelegateCall.UnitSelected(item, unit));
      }
    }

    /** `doneButtonPressed()`: asks the view to close and changes nothing else. */
    method DoneButtonPressed()
      modifies this
      ensures bindings == old(bindings) + [ClosePopUp]
      ensures quantity == old(quantity) && unit == old(unit) && delegateCalls == old(delegateCalls)
    {
      bindings := bindings + [ClosePopUp];
    }

    /** `minusButtonPressed(for:)`: text that is not a number counts as 0. */
    method MinusButtonPressed(value: Option<int>)
      modifies this
      ensures quantity == MinusQuantity(unit, value.GetOr(0)) && unit == old(unit)
      ensures bindings == old(bindings) + [PopUpQuantity(quantity)]
      ensures delegateCalls == old(Report(QuantitySelected(item, MinusQuantity(unit, value.GetOr(0)))))
    {
      quantity := MinusQuantity(unit, value.GetOr(0));
      bindings := bindings + [PopUpQuantity(quantity)];
      delegateCalls := Report(QuantitySelected(item, quantity));
    }

    /** `plusButtonPressed(for:)`: text that is not a number counts as 0. */
    method PlusButtonPressed(value: Option<int>)
      modifies this
      ensures quantity == PlusQuantity(unit, value.GetOr(0)) && unit == old(unit)
      ensures bindings == old(bindings) + [PopUpQuantity(quantity)]
      ensures delegateCalls == old(Report(QuantitySelected(item, PlusQuantity(unit, value.GetOr(0)))))
    {
      quantity := PlusQuantity(unit, value.GetOr(0));
      bindings := bindings + [PopUpQuantity(quantity)];
      delegateCalls := Report(QuantitySelected(item, quantity));
    }

    /** `clearButtonPressed()`: empties the field but reports the quantity held so far. */
    method ClearButtonPressed()
      modifies this
      ensures quantity == old(quantity) && unit == old(unit)
      ensures bindings == old(bindings) + [PopUpQuantityCleared]
      ensures delegateCalls == old(Report(QuantitySelected(item, quantity)))
    {
      bindings := bindings + [PopUpQuantityCleared];
      delegateCalls := Report(QuantitySelected(item, quantity));
    }

    /** `quantityUpdated(with:)`: typed text that is not a number counts as 1. */
    method QuantityUpdated(value: Option<int>)
      modifies this
      ensures quantity == value.GetOr(10) && unit == old(unit)
      ensures bindings == old(bindings) + [PopUpQuantity(quantity)]
      ensures delegateCalls == old(Report(QuantitySelected(item, value.GetOr(10))))
    {
      quantity := value.GetOr(10);
      bindings := bindings + [PopUpQuantity(quantity)];
      delegateCalls := Report(QuantitySelected(item, quantity));
    }
  }
}
