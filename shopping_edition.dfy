/** The earlier shopping screen (`ShoppingListEdition/ShoppingListViewModel.swift`): the same
    table of items and trailing "add product" button row as the later revision, with titles
    that are never missing, whole quantities kept between 1 and 99 by the pop-up's buttons, and
    a `checkBoxesAreBlocked` gate raised while a title is being typed. Every observable
    assignment is appended to a log, as are the storage calls. */
module ShoppingEdition {
  import opened Optional
  import Sequences
  import opened Strings
  import opened LocalizedStrings
  import opened Units
  import opened ListInfos
  import opened Storage
  import opened CheckedPrefix
  import opened Sorting
  import opened OrderedTable

  /** `ShopListCellParams` as this view model uses it: the title is a plain string and the
      quantity a whole number. */
  datatype EditRow = EditRow(checked: bool, title: string, quantity: int, unit: Unit, error: Option<ErrorText>)

  function IsChecked(r: EditRow): bool {
    r.checked
  }

  /** The sort key: the title itself. */
  function TitleKey(r: EditRow): string {
    r.title
  }

  /** The trailing button row: checked, so it never breaks the unchecked prefix. */
  const ButtonRow: EditRow := EditRow(true, ButtonAddProduct, 1, Piece, None)

  /** The row `addNewItemButtonPressed()` inserts: unchecked, titled with the placeholder, one piece. */
  const NewItemRow: EditRow := EditRow(false, NewListItemPlaceholder, 1, Piece, None)

  // ---------------------------------------------------------------------------------------
  // Loading and saving

  /** The row `loadList()` makes from a stored item; an unknown unit becomes a piece. */
  function LoadedRow(item: ListItem): EditRow {
    EditRow(item.checked, item.name, item.quantity, FromRawValueOrPiece(item.unit), None)
  }

  function LoadedRows(items: seq<ListItem>): (rows: seq<EditRow>)
    ensures |rows| == |items|
  {
    seq(|items|, k requires 0 <= k < |items| => LoadedRow(items[k]))
  }

  /** The item `saveListToStorage(duplicatePinned:)` makes from a row. */
  function StoredItem(r: EditRow): ListItem {
    ListItem(r.title, r.quantity, RawValue(r.unit), r.checked)
  }

  /** Every row except the last, as stored items. */
  function StoredItems(rows: seq<EditRow>): (items: seq<ListItem>)
    ensures |items| == if |rows| > 1 then |rows| - 1 else 0
  {
    if |rows| > 1 then seq(|rows| - 1, k requires 0 <= k < |rows| - 1 => StoredItem(rows[k])) else []
  }

  lemma LoadedRowsStep(items: seq<ListItem>, i: nat)
    requires i < |items|
    ensures LoadedRows(items[..i + 1]) == LoadedRows(items[..i]) + [LoadedRow(items[i])]
  {
  }

  /** A table without error captions is stored and loaded back unchanged. */
  lemma SaveThenLoad(rows: seq<EditRow>)
    requires |rows| >= 1 && rows[|rows| - 1] == ButtonRow
    requires forall k :: 0 <= k < |rows| - 1 ==> rows[k].error.None?
    ensures LoadedRows(StoredItems(rows)) + [ButtonRow] == rows
  {
    var back := LoadedRows(StoredItems(rows)) + [ButtonRow];
    forall k | 0 <= k < |rows| - 1
      ensures back[k] == rows[k]
    {
      assert FromRawValueOrPiece(RawValue(rows[k].unit)) == rows[k].unit;
    }
  }

  /** Items stored unchecked-first load into a table that keeps the ordering. */
  lemma LoadedKeepsOrder(items: seq<ListItem>)
    requires ItemsOrdered(items)
    ensures UncheckedPrefix(LoadedRows(items) + [ButtonRow], IsChecked, Sequences.Count(items, Unchecked(ItemIsChecked)))
  {
    var c := Sequences.Count(items, Unchecked(ItemIsChecked));
    var rows := LoadedRows(items) + [ButtonRow];
    forall i | 0 <= i < |rows|
      ensures IsChecked(rows[i]) <==> c <= i
    {
      if i < |items| {
        assert rows[i] == LoadedRow(items[i]);
        assert ItemIsChecked(items[i]) <==> c <= i;
      }
    }
  }

  lemma {:induction false} LoadedRowsCount(items: seq<ListItem>)
    ensures Sequences.Count(LoadedRows(items), Unchecked(IsChecked)) == Sequences.Count(items, Unchecked(ItemIsChecked))
  {
    if |items| > 0 {
      LoadedRowsCount(items[1..]);
      assert LoadedRows(items)[1..] == LoadedRows(items[1..]);
      assert Unchecked(IsChecked)(LoadedRows(items)[0]) == Unchecked(ItemIsChecked)(items[0]);
    }
  }

  /** Appending the loaded rows and the button row adds the loaded items' unchecked count. */
  lemma LoadedAppendCount(rows: seq<EditRow>, items: seq<ListItem>)
    ensures Sequences.Count(rows + LoadedRows(items) + [ButtonRow], Unchecked(IsChecked)) ==
      Sequences.Count(rows, Unchecked(IsChecked)) + Sequences.Count(items, Unchecked(ItemIsChecked))
  {
    LoadedRowsCount(items);
    Sequences.CountAppend(rows, LoadedRows(items), Unchecked(IsChecked));
    Sequences.CountAppend(rows + LoadedRows(items), [ButtonRow], Unchecked(IsChecked));
    assert [ButtonRow][1..] == [];
    assert Unchecked(IsChecked)(ButtonRow) == !IsChecked(ButtonRow);
  }

  // ---------------------------------------------------------------------------------------
  // Validation

  /** The caption `validateName(row:)` gives a typed title: empty first, then spaces only. */
  function NameError(title: string): (e: Option<ErrorText>)
    ensures e == Some(NewListEmptyName) <==> title == ""
    ensures e == Some(NewListWrongName) <==> title != "" && IsSpacesOnly(title)
    ensures e.None? <==> title != "" && !IsSpacesOnly(title)
  {
    RemovingSpacesIsEmpty(title);
    if title == "" then Some(NewListEmptyName)
    else if RemovingSpaces(title) == "" then Some(NewListWrongName)
    else None
  }

  /** The row after `validateName(row:)`: a rejected title is replaced by the placeholder and
      captioned; an accepted one loses its caption. Nothing else changes. */
  function ValidatedRow(r: EditRow): (v: EditRow)
    ensures v.error == NameError(r.title)
    ensures v.title == if v.error.Some? then NewListItemPlaceholder else r.title
    ensures v.(title := r.title, error := r.error) == r
  {
    match NameError(r.title)
    case Some(e) => r.(title := NewListItemPlaceholder, error := Some(e))
    case None => r.(error := None)
  }

  /** After validation a row's title is always one the rules accept, so validating again
      clears the caption and keeps the title. */
  lemma ValidatedTitleIsAccepted(r: EditRow)
    ensures NameError(ValidatedRow(r).title).None?
    ensures ValidatedRow(ValidatedRow(r)) == ValidatedRow(r).(error := None)
  {
    var p := NewListItemPlaceholder;
    assert p[0] != ' ';
    assert !IsSpacesOnly(p);
  }

  /** Whether an edit left what is stored of a row as it was: its title, quantity and unit
      (the check mark and the caption do not count). */
  predicate SameEntry(before: EditRow, after: EditRow) {
    before.title == after.title && before.quantity == after.quantity && before.unit == after.unit
  }

  /** Every item row set to `on`; the button row is left alone. */
  function WithItemsChecked(rows: seq<EditRow>, on: bool): (r: seq<EditRow>)
    ensures |r| == |rows|
    ensures forall k :: 0 <= k < |rows| - 1 ==> r[k] == rows[k].(checked := on)
    ensures |rows| > 0 ==> r[|rows| - 1] == rows[|rows| - 1]
  {
    seq(|rows|, k requires 0 <= k < |rows| => if k < |rows| - 1 then rows[k].(checked := on) else rows[k])
  }

  // ---------------------------------------------------------------------------------------
  // The quantity pop-up

  /** The index `popUpView(for:isShowing:)` shows for a unit. */
  function UnitIndex(u: Unit): (i: int)
    ensures 0 <= i < 4
  {
    match u
    case Kg => 0
    case Liter => 1
    case Pack => 2
    case Piece => 3
  }

  /** The unit `unitSelected(item:unit:)` picks for an index; any index past 2 is a piece. */
  function UnitOfIndex(i: int): Unit {
    if i == 0 then Kg else if i == 1 then Liter else if i == 2 then Pack else Piece
  }

  /** Selecting the index the pop-up shows gives back the row's unit, and every index in
      `0 ..< 4` is shown for exactly one unit. */
  lemma UnitIndexRoundTrip(u: Unit, i: int)
    ensures UnitOfIndex(UnitIndex(u)) == u
    ensures 0 <= i < 4 ==> UnitIndex(UnitOfIndex(i)) == i
  {
  }

  function Max(a: int, b: int): int {
    if a >= b then a else b
  }

  function Min(a: int, b: int): int {
    if a <= b then a else b
  }

  /** The quantity after the minus button: one less, but never below 1. */
  function MinusQuantity(q: int): int {
    Max(q - 1, 1)
  }

  /** The quantity after the plus button: one more, but never above 99. */
  function PlusQuantity(q: int): int {
    Min(q + 1, 99)
  }

  /** The buttons keep a quantity in `1 ... 99` there, each one moves it by one step inside
      the range, and one undoes the other away from the end it clamps at. */
  lemma QuantityButtons(q: int)
    ensures MinusQuantity(q) >= 1 && PlusQuantity(q) <= 99
    ensures 1 <= q <= 99 ==> 1 <= MinusQuantity(q) <= 99 && 1 <= PlusQuantity(q) <= 99
    ensures MinusQuantity(q) == q <==> q == 1
    ensures PlusQuantity(q) == q <==> q == 99
    ensures 2 <= q <= 99 ==> PlusQuantity(MinusQuantity(q)) == q
    ensures 1 <= q <= 98 ==> MinusQuantity(PlusQuantity(q)) == q
  {
  }

  /** The condition `plusButtonPressed(item:)` tests before it changes the quantity, as
      written: against `max(quantity + 1, 99)`. */
  predicate PlusGuardAsWritten(q: int) {
    q != Max(q + 1, 99)
  }

  /** The guard as written holds for every quantity, so at the ceiling the row is reloaded
      and the quantity re-sent though nothing changed. */
  lemma PlusGuardAlwaysHolds(q: int)
    ensures PlusGuardAsWritten(q)
    ensures PlusGuardAsWritten(99) && PlusQuantity(99) == 99
  {
  }

  // ---------------------------------------------------------------------------------------
  // The view model

  /** The observables of `ShoppingListViewModel`, one case per assignment. */
  datatype Observation =
    | UserInteractionEnabled(enabled: bool)
    | SwitchToSuccessView(title: string)
    | SwitchToMainView(done: bool)
    | NeedToUpdateBottomButtonState(enabled: bool)
    | NeedToClosePopUp
    | PopUpQuantity(quantity: int)
    | PopUpUnit(index: int)
    | NeedToShowPopUp(row: int)
    | NeedToUpdateItem(rows: seq<int>, animated: bool)
    | NeedToInsertItem(row: int)
    | NeedToMoveItem(from: int, to: int)
    | NeedToRemoveItem(row: int)

  /** The storage call a save makes. */
  function SaveCall(info: ListInfo, rows: seq<EditRow>, mode: SaveMode): StorageCall {
    if mode.DuplicatePinned? then SaveNewList(ShopList(SavedInfo(info, mode), StoredItems(rows)))
    else UpdateList(ShopList(info, StoredItems(rows)))
  }

  datatype CellType = ItemCell | ButtonCell

  class ShoppingListViewModel {
    var currentListInfo: ListInfo
    var shoppingList: seq<EditRow>
    var uncheckedItemsCount: int
    var sortOrderAscending: Option<bool>
    var checkBoxesAreBlocked: bool
    /** The value held by `needToUpdateBottomButtonState`. */
    var bottomButtonState: bool
    var observations: seq<Observation>
    var storageCalls: seq<StorageCall>

    /** The table ends with the button row and its unchecked rows are exactly the first
        `uncheckedItemsCount`. */
    predicate Valid()
      reads this
    {
      |shoppingList| >= 1 && shoppingList[|shoppingList| - 1] == ButtonRow &&
      UncheckedPrefix(shoppingList, IsChecked, uncheckedItemsCount)
    }

    /** `uncheckedItemsCount` is the number of unchecked rows, whatever their order. */
    predicate CounterIsExact()
      reads this
    {
      uncheckedItemsCount == Sequences.Count(shoppingList, Unchecked(IsChecked))
    }

    constructor (listInfo: ListInfo)
      ensures currentListInfo == listInfo
      ensures shoppingList == [] && uncheckedItemsCount == 0 && sortOrderAscending.None?
      ensures !checkBoxesAreBlocked && !bottomButtonState
      ensures observations == [] && storageCalls == []
    {
      currentListInfo := listInfo;
      shoppingList := [];
      uncheckedItemsCount := 0;
      sortOrderAscending := None;
      checkBoxesAreBlocked := false;
      bottomButtonState := false;
      observations := [];
      storageCalls := [];
    }

    /** `viewWillAppear()`; `loaded` is the store's answer to `getItems(by:)`. */
    method ViewWillAppear(loaded: Option<seq<ListItem>>)
      modifies this
      ensures loaded.Some? ==> shoppingList == old(shoppingList) + LoadedRows(loaded.value) + [ButtonRow]
      ensures loaded.Some? ==> uncheckedItemsCount == old(uncheckedItemsCount) + Sequences.Count(loaded.value, Unchecked(ItemIsChecked))
      ensures loaded.None? ==> shoppingList == old(shoppingList) && uncheckedItemsCount == old(uncheckedItemsCount)
      ensures old(shoppingList) == [] && old(uncheckedItemsCount) == 0 && loaded.Some? && ItemsOrdered(loaded.value) ==> Valid()
      ensures bottomButtonState <==> currentListInfo.completed || forall k :: 0 <= k < |shoppingList| ==> shoppingList[k].checked
      ensures observations == old(observations) +
        (if bottomButtonState != old(bottomButtonState) then [NeedToUpdateBottomButtonState(bottomButtonState)] else [])
      ensures currentListInfo == old(currentListInfo) && storageCalls == old(storageCalls)
      ensures checkBoxesAreBlocked == old(checkBoxesAreBlocked) && sortOrderAscending == old(sortOrderAscending)
    {
      LoadList(loaded);
      UpdateBottomButtonState();
    }

    /** The loop of `loadList()`: one row per stored item, in order, and the number of
        unchecked items. */
    static method LoadItems(loadedItems: seq<ListItem>) returns (rows: seq<EditRow>, count: int)
      ensures rows == LoadedRows(loadedItems)
      ensures count == Sequences.Count(loadedItems, Unchecked(ItemIsChecked))
    {
      rows := [];
      count := 0;
      var index := 0;
      while index < |loadedItems|
        invariant 0 <= index <= |loadedItems|
        invariant rows == LoadedRows(loadedItems[..index])
        invariant count == Sequences.Count(loadedItems[..index], Unchecked(ItemIsChecked))
      {
        var item := loadedItems[index];
        rows := rows + [LoadedRow(item)];
        if !item.checked {
          count := count + 1;
        }
        LoadedRowsStep(loadedItems, index);
        Sequences.CountPrefixStep(loadedItems, index, Unchecked(ItemIsChecked));
        assert Unchecked(ItemIsChecked)(item) == !ItemIsChecked(item);
        index := index + 1;
      }
      assert loadedItems[..index] == loadedItems;
    }

    /** `loadList()`: appends one row per stored item, then the button row, and counts the
        unchecked items. On a fresh view model the counter is then exact, and the ordering
        holds when the store returned the unchecked items first. */
    method LoadList(loaded: Option<seq<ListItem>>)
      modifies this
      ensures loaded.Some? ==> shoppingList == old(shoppingList) + LoadedRows(loaded.value) + [ButtonRow]
      ensures loaded.Some? ==> uncheckedItemsCount == old(uncheckedItemsCount) + Sequences.Count(loaded.value, Unchecked(ItemIsChecked))
      ensures loaded.None? ==> shoppingList == old(shoppingList) && uncheckedItemsCount == old(uncheckedItemsCount)
      ensures old(CounterIsExact()) ==> CounterIsExact()
      ensures old(shoppingList) == [] && old(uncheckedItemsCount) == 0 && loaded.Some? && ItemsOrdered(loaded.value) ==> Valid()
      ensures currentListInfo == old(currentListInfo) && observations == old(observations)
      ensures storageCalls == old(storageCalls) && bottomButtonState == old(bottomButtonState)
      ensures checkBoxesAreBlocked == old(checkBoxesAreBlocked) && sortOrderAscending == old(sortOrderAscending)
    {
      if loaded.Some? {
        var loadedItems := loaded.value;
        var rows, count := LoadItems(loadedItems);
        LoadedAppendCount(shoppingList, loadedItems);
        if shoppingList == [] && uncheckedItemsCount == 0 && ItemsOrdered(loadedItems) {
          LoadedKeepsOrder(loadedItems);
          assert shoppingList + rows + [ButtonRow] == rows + [ButtonRow];
        }
        shoppingList := shoppingList + rows + [ButtonRow];
        uncheckedItemsCount := uncheckedItemsCount + count;
      }
    }

    /** `updateBottomButtonState()`: the button shows the "done" state for a completed list, and
        otherwise exactly when no row is unchecked, which under the ordering means the counter
        is zero; the observable is assigned only when that state changes. */
    method UpdateBottomButtonState()
      modifies this
      ensures bottomButtonState <==> currentListInfo.completed || forall k :: 0 <= k < |shoppingList| ==> shoppingList[k].checked
      ensures Valid() ==> (bottomButtonState <==> currentListInfo.completed || uncheckedItemsCount == 0)
      ensures observations == old(observations) +
        (if bottomButtonState != old(bottomButtonState) then [NeedToUpdateBottomButtonState(bottomButtonState)] else [])
      ensures shoppingList == old(shoppingList) && uncheckedItemsCount == old(uncheckedItemsCount)
      ensures currentListInfo == old(currentListInfo) && storageCalls == old(storageCalls)
      ensures checkBoxesAreBlocked == old(checkBoxesAreBlocked) && sortOrderAscending == old(sortOrderAscending)
    {
      var newState := if currentListInfo.completed then true
        else Sequences.FirstIndexWhere(shoppingList, (r: EditRow) => r.checked == false).None?;
      if bottomButtonState != newState {
        bottomButtonState := !bottomButtonState;
        observations := observations + [NeedToUpdateBottomButtonState(bottomButtonState)];
      }
      if Valid() && uncheckedItemsCount > 0 {
        assert !shoppingList[0].checked;
      }
    }

    function GetListTitle(): string
      reads this
    {
      currentListInfo.title
    }

    function ListIsCompleted(): bool
      reads this
    {
      currentListInfo.completed
    }

    function GetBottomButtonName(): string
      reads this
    {
      if currentListInfo.completed then ButtonRestoreList else ButtonRemoveCheckedItems
    }

    function GetTableRowCount(): int
      reads this
    {
      |shoppingList|
    }

    /** `getRowHeight(for:)`: 52 points, or 81 for an item row showing an error caption. */
    function GetRowHeight(row: int): (h: int)
      requires 0 <= row < |shoppingList|
      reads this
      ensures h == 81 <==> row != |shoppingList| - 1 && shoppingList[row].error.Some?
      ensures h == 52 || h == 81
    {
      if row == |shoppingList| - 1 then 52
      else if shoppingList[row].error.None? then 52 else 81
    }

    /** `getCellParams(for:)`: the last row is the button cell. */
    function GetCellParams(row: int): (p: (CellType, EditRow))
      requires 0 <= row < |shoppingList|
      reads this
      ensures p.0 == ButtonCell <==> row == |shoppingList| - 1
      ensures p.1 == shoppingList[row]
    {
      (if row == |shoppingList| - 1 then ButtonCell else ItemCell, shoppingList[row])
    }

    /** `tableFinishedUpdating()`: interaction is enabled again, the list is saved and the
        bottom button refreshed. */
    method TableFinishedUpdating()
      modifies this
      ensures storageCalls == old(storageCalls) + [SaveCall(currentListInfo, shoppingList, UpdateCurrent)]
      ensures bottomButtonState <==> currentListInfo.completed || forall k :: 0 <= k < |shoppingList| ==> shoppingList[k].checked
      ensures observations == old(observations) + [UserInteractionEnabled(true)] +
        (if bottomButtonState != old(bottomButtonState) then [NeedToUpdateBottomButtonState(bottomButtonState)] else [])
      ensures shoppingList == old(shoppingList) && uncheckedItemsCount == old(uncheckedItemsCount)
      ensures currentListInfo == old(currentListInfo)
      ensures checkBoxesAreBlocked == old(checkBoxesAreBlocked) && sortOrderAscending == old(sortOrderAscending)
    {
      observations := observations + [UserInteractionEnabled(true)];
      SaveListToStorage(UpdateCurrent);
      UpdateBottomButtonState();
    }

    /** The items `saveListToStorage(duplicatePinned:)` hands over: every row but the last, in order. */
    method BuildStoredItems() returns (newListItems: seq<ListItem>)
      ensures newListItems == StoredItems(shoppingList)
    {
      newListItems := [];
      if |shoppingList| > 1 {
        var i := 0;
        while i <= |shoppingList| - 2
          invariant 0 <= i <= |shoppingList| - 1
          invariant |newListItems| == i
          invariant forall k :: 0 <= k < i ==> newListItems[k] == StoredItem(shoppingList[k])
        {
          newListItems := newListItems + [StoredItem(shoppingList[i])];
          i := i + 1;
        }
      }
    }

    /** `saveListToStorage(duplicatePinned:)` */
    method SaveListToStorage(mode: SaveMode)
      modifies this
      ensures storageCalls == old(storageCalls) + [SaveCall(currentListInfo, shoppingList, mode)]
      ensures shoppingList == old(shoppingList) && uncheckedItemsCount == old(uncheckedItemsCount)
      ensures currentListInfo == old(currentListInfo) && observations == old(observations)
      ensures checkBoxesAreBlocked == old(checkBoxesAreBlocked) && sortOrderAscending == old(sortOrderAscending)
      ensures bottomButtonState == old(bottomButtonState)
    {
      var newListItems := BuildStoredItems();
      var list := ShopList(SavedInfo(currentListInfo, mode), newListItems);
      storageCalls := storageCalls + [if mode.DuplicatePinned? then SaveNewList(list) else UpdateList(list)];
    }

    /** The loop of `sortButtonPressed()` over the item rows `0 ... count - 2`: each row goes to
        the unchecked or the checked rows by its own mark, in order, and every item row is
        reloaded. */
    static method SplitByCheckMark(rows: seq<EditRow>) returns (uncheckedItems: seq<EditRow>, checkedItems: seq<EditRow>, indexesToUpdate: seq<int>)
      requires |rows| >= 2
      ensures uncheckedItems == Sequences.Filter(rows[..|rows| - 1], Unchecked(IsChecked))
      ensures checkedItems == Sequences.Filter(rows[..|rows| - 1], IsChecked)
      ensures indexesToUpdate == Sequences.Range(0, |rows| - 1)
    {
      uncheckedItems := [];
      checkedItems := [];
      indexesToUpdate := [];
      var index := 0;
      while index <= |rows| - 2
        invariant 0 <= index <= |rows| - 1
        invariant uncheckedItems == Sequences.Filter(rows[..index], Unchecked(IsChecked))
        invariant checkedItems == Sequences.Filter(rows[..index], IsChecked)
        invariant indexesToUpdate == Sequences.Range(0, index)
      {
        Sequences.FilterStep(rows, index, Unchecked(IsChecked));
        Sequences.FilterStep(rows, index, IsChecked);
        assert Unchecked(IsChecked)(rows[index]) == !rows[index].checked;
        if rows[index].checked {
          checkedItems := checkedItems + [rows[index]];
        } else {
          uncheckedItems := uncheckedItems + [rows[index]];
        }
        Sequences.RangeSnoc(0, index);
        indexesToUpdate := indexesToUpdate + [index];
        index := index + 1;
      }
    }

    /** The new table `sortButtonPressed()` builds, with the rows it reloads. */
    static method SortRows(rows: seq<EditRow>, ascending: bool) returns (table: seq<EditRow>, indexesToUpdate: seq<int>)
      requires |rows| >= 2
      ensures table == SortedTable(rows, IsChecked, TitleKey, ascending, ButtonRow)
      ensures |table| == |rows| && table[|table| - 1] == ButtonRow
      ensures UncheckedPrefix(table, IsChecked, Sequences.Count(rows[..|rows| - 1], Unchecked(IsChecked)))
      ensures indexesToUpdate == Sequences.Range(0, |rows| - 1)
    {
      SortKeepsOrdering(rows, IsChecked, TitleKey, ascending, ButtonRow);
      var uncheckedItems, checkedItems;
      uncheckedItems, checkedItems, indexesToUpdate := SplitByCheckMark(rows);
      table := SortBy(uncheckedItems, TitleKey, ascending);
      table := table + checkedItems;
      table := table + [ButtonRow];
    }

    /** `sortButtonPressed()`: the unchecked item rows sorted by title (ascending unless the last
        sort was ascending), then the checked item rows in their old order, then a new button
        row. The model's sort is one of the orders Swift's unstable sort may produce
        (`SortOrdersUnchecked` states what every such order shares). Whatever the order before,
        the unchecked rows come first afterwards; the counter is left alone, so the table is
        valid afterwards whenever it was valid before, or the counter was exact and the last row
        checked. */
    method SortButtonPressed()
      requires |shoppingList| >= 2
      modifies this
      ensures var ascending := old(sortOrderAscending) != Some(true);
        sortOrderAscending == Some(ascending) &&
        shoppingList == SortedTable(old(shoppingList), IsChecked, TitleKey, ascending, ButtonRow)
      ensures |shoppingList| == |old(shoppingList)| && uncheckedItemsCount == old(uncheckedItemsCount)
      ensures UncheckedPrefix(shoppingList, IsChecked, Sequences.Count(old(shoppingList)[..|old(shoppingList)| - 1], Unchecked(IsChecked)))
      ensures old(CounterIsExact() && shoppingList[|shoppingList| - 1].checked) ==> Valid()
      ensures old(Valid()) ==> Valid()
      ensures observations == old(observations) + [UserInteractionEnabled(false), NeedToUpdateItem(Sequences.Range(0, |shoppingList| - 1), true)]
      ensures currentListInfo == old(currentListInfo) && storageCalls == old(storageCalls)
      ensures checkBoxesAreBlocked == old(checkBoxesAreBlocked) && bottomButtonState == old(bottomButtonState)
    {
      var rows := shoppingList;
      // a descending sort follows an ascending one; any other state sorts ascending
      var ascending := sortOrderAscending != Some(true);
      var table, indexesToUpdate := SortRows(rows, ascending);
      ghost var keepsOrder := Valid() || (CounterIsExact() && rows[|rows| - 1].checked);
      if keepsOrder {
        SortedTableBoundary(rows, IsChecked, uncheckedItemsCount, TitleKey, ascending, ButtonRow);
      }
      sortOrderAscending := Some(ascending);
      shoppingList := table;
      observations := observations + [UserInteractionEnabled(false), NeedToUpdateItem(indexesToUpdate, true)];
    }

    /** The loop of `checkAllSwitchIs(on:)` over the item rows: every item row gets mark `on`,
        the rows whose mark differed are collected in order, and the counter moves by one per
        such row, down when checking and up when unchecking. */
    static method CheckAllRows(rows: seq<EditRow>, u: int, on: bool) returns (newRows: seq<EditRow>, count: int, indexesToUpdate: seq<int>)
      requires |rows| >= 1
      ensures newRows == WithItemsChecked(rows, on)
      ensures indexesToUpdate == Sequences.IndexesWhere(rows[..|rows| - 1], Differs(IsChecked, on))
      ensures count == u + (if on then -|indexesToUpdate| else |indexesToUpdate|)
    {
      var n := |rows|;
      newRows := rows;
      count := u;
      indexesToUpdate := [];
      var index := 0;
      while index <= n - 2
        invariant 0 <= index <= n - 1
        invariant |newRows| == n
        invariant forall k :: 0 <= k < n ==> newRows[k] == if k < index then rows[k].(checked := on) else rows[k]
        invariant indexesToUpdate == Sequences.IndexesWhere(rows[..index], Differs(IsChecked, on))
        invariant count == u + (if on then -|indexesToUpdate| else |indexesToUpdate|)
      {
        CheckAllStep(rows, IsChecked, on, index, u, count, indexesToUpdate);
        if on {
          if !newRows[index].checked {
            newRows := newRows[index := newRows[index].(checked := true)];
            indexesToUpdate := indexesToUpdate + [index];
            count := count - 1;
          }
        } else {
          if newRows[index].checked {
            newRows := newRows[index := newRows[index].(checked := false)];
            indexesToUpdate := indexesToUpdate + [index];
            count := count + 1;
          }
        }
        index := index + 1;
      }
    }

    /** `checkAllSwitchIs(on:)`: with at least one item row, every item row gets check mark
        `on`, the button row is left alone, the counter moves by one per changed row, and
        exactly the rows whose mark changed are reloaded, in one update when any. The counter
        stays exact, and a valid table stays valid with every item row on one side. */
    method CheckAllSwitchIs(on: bool)
      modifies this
      ensures |old(shoppingList)| < 2 ==>
        shoppingList == old(shoppingList) && uncheckedItemsCount == old(uncheckedItemsCount) && observations == old(observations)
      ensures |old(shoppingList)| >= 2 ==> shoppingList == WithItemsChecked(old(shoppingList), on)
      ensures |old(shoppingList)| >= 2 ==>
        var changed := Sequences.IndexesWhere(old(shoppingList)[..|old(shoppingList)| - 1], Differs(IsChecked, on));
        (forall k :: 0 <= k < |shoppingList| - 1 ==> (k in changed <==> old(shoppingList[k].checked) != on)) &&
        uncheckedItemsCount == old(uncheckedItemsCount) + (if on then -|changed| else |changed|) &&
        observations == old(observations) + (if changed == [] then [] else [UserInteractionEnabled(false), NeedToUpdateItem(changed, true)])
      ensures old(CounterIsExact()) ==> CounterIsExact()
      ensures old(Valid()) ==> Valid() && uncheckedItemsCount == if on then 0 else |shoppingList| - 1
      ensures currentListInfo == old(currentListInfo) && storageCalls == old(storageCalls)
      ensures checkBoxesAreBlocked == old(checkBoxesAreBlocked) && sortOrderAscending == old(sortOrderAscending)
      ensures bottomButtonState == old(bottomButtonState)
    {
      if |shoppingList| >= 2 {
        // the state before the switch, which the contract compares against
        ghost var wasValid := Valid();
        ghost var wasExact := CounterIsExact();
        var rows := shoppingList;
        var newRows, count, indexesToUpdate := CheckAllRows(rows, uncheckedItemsCount, on);
        CheckAllOutcome(rows, newRows, IsChecked, uncheckedItemsCount, count, indexesToUpdate, on);
        shoppingList := newRows;
        uncheckedItemsCount := count;
        if indexesToUpdate != [] {
          observations := observations + [UserInteractionEnabled(false), NeedToUpdateItem(indexesToUpdate, true)];
        }
      }
    }

    /** `moveItemInArray(from:to:)`: a permutation, and nothing at all when the rows coincide. */
    method MoveItemInArray(sourceIndex: int, destinationIndex: int)
      requires 0 <= sourceIndex < |shoppingList| && 0 <= destinationIndex < |shoppingList|
      modifies this
      ensures shoppingList == Sequences.MoveItem(old(shoppingList), sourceIndex, destinationIndex)
      ensures sourceIndex == destinationIndex ==> shoppingList == old(shoppingList)
      ensures old(CounterIsExact()) ==> CounterIsExact()
      ensures uncheckedItemsCount == old(uncheckedItemsCount) && observations == old(observations)
      ensures currentListInfo == old(currentListInfo) && storageCalls == old(storageCalls)
      ensures checkBoxesAreBlocked == old(checkBoxesAreBlocked) && sortOrderAscending == old(sortOrderAscending)
      ensures bottomButtonState == old(bottomButtonState)
    {
      if sourceIndex == destinationIndex {
        return;
      }
      Sequences.MoveItemKeepsCount(shoppingList, sourceIndex, destinationIndex, Unchecked(IsChecked));
      var place := shoppingList[sourceIndex];
      shoppingList := Sequences.RemoveAt(shoppingList, sourceIndex);
      shoppingList := Sequences.InsertAt(shoppingList, place, destinationIndex);
    }

    /** `rowMoved(from:to:)`: the drag is applied as it comes; like the later revision's, it does
        not keep the ordering when a row crosses the boundary. */
    method RowMoved(sourceIndex: int, destinationIndex: int)
      requires 0 <= sourceIndex < |shoppingList| && 0 <= destinationIndex < |shoppingList|
      modifies this
      ensures shoppingList == Sequences.MoveItem(old(shoppingList), sourceIndex, destinationIndex)
      ensures old(CounterIsExact()) ==> CounterIsExact()
      ensures uncheckedItemsCount == old(uncheckedItemsCount) && observations == old(observations)
      ensures currentListInfo == old(currentListInfo) && storageCalls == old(storageCalls)
      ensures checkBoxesAreBlocked == old(checkBoxesAreBlocked) && sortOrderAscending == old(sortOrderAscending)
      ensures bottomButtonState == old(bottomButtonState)
    {
      MoveItemInArray(sourceIndex, destinationIndex);
    }

    /** `bottomButtonPressed()`: a completed list is restored and the app returns to the main
        screen. An active pinned list stays active as a template, with a completed copy saved
        under `newId` and its own items unchecked (the counter is not updated, since the
        screen is being left); any other active list is marked completed. Either way the list
        is saved and the success screen shows its title. */
    method BottomButtonPressed(newId: ListId, now: Date)
      modifies this
      ensures old(currentListInfo.completed) ==>
        currentListInfo == old(currentListInfo) && shoppingList == old(shoppingList) &&
        storageCalls == old(storageCalls) + [StorageCall.RestoreList(currentListInfo.listId)] &&
        observations == old(observations) + [SwitchToMainView(true)]
      ensures !old(currentListInfo.completed) && old(currentListInfo.pinned) ==>
        currentListInfo == old(currentListInfo) &&
        shoppingList == WithItemsChecked(old(shoppingList), false) &&
        storageCalls == old(storageCalls) + [
          SaveCall(currentListInfo, old(shoppingList), DuplicatePinned(newId, now)),
          SaveCall(currentListInfo, shoppingList, UpdateCurrent)]
      ensures !old(currentListInfo.completed) && !old(currentListInfo.pinned) ==>
        currentListInfo == old(currentListInfo).SetCompleted(true) &&
        shoppingList == old(shoppingList) &&
        storageCalls == old(storageCalls) + [SaveCall(currentListInfo, shoppingList, UpdateCurrent)]
      ensures !old(currentListInfo.completed) ==>
        observations == old(observations) + [SwitchToSuccessView(currentListInfo.title)]
      ensures uncheckedItemsCount == old(uncheckedItemsCount)
      ensures checkBoxesAreBlocked == old(checkBoxesAreBlocked) && sortOrderAscending == old(sortOrderAscending)
      ensures bottomButtonState == old(bottomButtonState)
    {
      if currentListInfo.completed {
        storageCalls := storageCalls + [StorageCall.RestoreList(currentListInfo.listId)];
        observations := observations + [SwitchToMainView(true)];
        return;
      }
      if currentListInfo.pinned {
        SaveListToStorage(DuplicatePinned(newId, now));
        if |shoppingList| > 1 {
          var rows := shoppingList;
          var index := 0;
          while index <= |rows| - 2
            invariant 0 <= index <= |rows| - 1
            invariant |rows| == |old(shoppingList)|
            invariant forall k :: 0 <= k < index ==> rows[k] == old(shoppingList[k]).(checked := false)
            invariant forall k :: index <= k < |rows| ==> rows[k] == old(shoppingList[k])
          {
            rows := rows[index := rows[index].(checked := false)];
            index := index + 1;
          }
          shoppingList := rows;
        }
      } else {
        currentListInfo := currentListInfo.SetCompleted(true);
      }
      SaveListToStorage(UpdateCurrent);
      observations := observations + [SwitchToSuccessView(currentListInfo.title)];
    }

    /** `deleteItemButtonPressed(in:)`, offered for item rows only: removes exactly that row and
        lowers the counter when the row was unchecked, which keeps an exact counter exact and an
        ordered table ordered. */
    method DeleteItemButtonPressed(row: int)
      requires 0 <= row < |shoppingList| - 1
      modifies this
      ensures old(Valid()) ==> Valid()
      ensures old(CounterIsExact()) ==> CounterIsExact()
      ensures shoppingList == Sequences.RemoveAt(old(shoppingList), row)
      ensures uncheckedItemsCount == old(uncheckedItemsCount) - (if old(shoppingList[row].checked) then 0 else 1)
      ensures observations == old(observations) + [UserInteractionEnabled(false), NeedToRemoveItem(row)]
      ensures currentListInfo == old(currentListInfo) && storageCalls == old(storageCalls)
      ensures checkBoxesAreBlocked == old(checkBoxesAreBlocked) && sortOrderAscending == old(sortOrderAscending)
      ensures bottomButtonState == old(bottomButtonState)
    {
      RemoveKeepsPrefix(shoppingList, IsChecked, uncheckedItemsCount, row);
      if !shoppingList[row].checked {
        uncheckedItemsCount := uncheckedItemsCount - 1;
      }
      shoppingList := Sequences.RemoveAt(shoppingList, row);
      observations := observations + [UserInteractionEnabled(false), NeedToRemoveItem(row)];
    }

    /** `validateName(row:)` */
    method ValidateName(row: int)
      requires 0 <= row < |shoppingList|
      modifies this
      ensures shoppingList == old(shoppingList)[row := ValidatedRow(old(shoppingList[row]))]
      ensures uncheckedItemsCount == old(uncheckedItemsCount) && observations == old(observations)
      ensures currentListInfo == old(currentListInfo) && storageCalls == old(storageCalls)
      ensures checkBoxesAreBlocked == old(checkBoxesAreBlocked) && sortOrderAscending == old(sortOrderAscending)
      ensures bottomButtonState == old(bottomButtonState)
    {
      var r := shoppingList[row];
      if r.title == "" {
        shoppingList := shoppingList[row := r.(title := NewListItemPlaceholder, error := Some(NewListEmptyName))];
        return;
      } else if RemovingSpaces(r.title) == "" {
        shoppingList := shoppingList[row := r.(title := NewListItemPlaceholder, error := Some(NewListWrongName))];
        return;
      }
      shoppingList := shoppingList[row := r.(error := None)];
    }

    /** `updateShoppingListItem(in:with:quantity:unit:)`: lifts the typing gate, stores the
        edited row validated, reloads it when its caption changed, and saves when its title,
        quantity or unit differ from before. */
    method UpdateShoppingListItem(row: int, title: string, quantity: int, unit: Unit)
      requires 0 <= row < |shoppingList| - 1
      modifies this
      ensures old(Valid()) ==> Valid()
      ensures old(CounterIsExact()) ==> CounterIsExact()
      ensures !checkBoxesAreBlocked
      ensures shoppingList == old(shoppingList)[row :=
        ValidatedRow(old(shoppingList[row]).(title := title, quantity := quantity, unit := unit))]
      ensures observations == old(observations) +
        (if shoppingList[row].error != old(shoppingList[row].error)
         then [UserInteractionEnabled(false), NeedToUpdateItem([row], true)] else [])
      ensures storageCalls == old(storageCalls) +
        (if SameEntry(old(shoppingList[row]), shoppingList[row]) then [] else [SaveCall(currentListInfo, shoppingList, UpdateCurrent)])
      ensures uncheckedItemsCount == old(uncheckedItemsCount) && currentListInfo == old(currentListInfo)
      ensures sortOrderAscending == old(sortOrderAscending) && bottomButtonState == old(bottomButtonState)
    {
      checkBoxesAreBlocked := false;
      var oldItemState := shoppingList[row];
      var edited := oldItemState.(title := title, quantity := quantity, unit := unit);
      // the edited row keeps its check mark, so its place in the order and in the count
      ghost var validated := ValidatedRow(edited);
      ReplaceKeepsPrefix(shoppingList, IsChecked, uncheckedItemsCount, row, validated);
      shoppingList := shoppingList[row := shoppingList[row].(title := title, quantity := quantity, unit := unit)];
      ValidateName(row);
      assert shoppingList == old(shoppingList)[row := validated] && shoppingList[row] == validated;
      ReportEdit(row, oldItemState);
    }

    /** The end of `updateShoppingListItem(in:with:quantity:unit:)`, once the row is stored:
        the row is reloaded when its caption changed, and the list is saved when the row's
        title, quantity or unit differ from `before`. */
    method ReportEdit(row: int, before: EditRow)
      requires 0 <= row < |shoppingList|
      modifies this
      ensures shoppingList == old(shoppingList) && uncheckedItemsCount == old(uncheckedItemsCount)
      ensures observations == old(observations) +
        (if shoppingList[row].error != before.error then [UserInteractionEnabled(false), NeedToUpdateItem([row], true)] else [])
      ensures storageCalls == old(storageCalls) +
        (if SameEntry(before, shoppingList[row]) then [] else [SaveCall(currentListInfo, shoppingList, UpdateCurrent)])
      ensures currentListInfo == old(currentListInfo) && checkBoxesAreBlocked == old(checkBoxesAreBlocked)
      ensures sortOrderAscending == old(sortOrderAscending) && bottomButtonState == old(bottomButtonState)
    {
      observations := observations +
        (if shoppingList[row].error != before.error then [UserInteractionEnabled(false), NeedToUpdateItem([row], true)] else []);
      if !SameEntry(before, shoppingList[row]) {
        SaveListToStorage(UpdateCurrent);
      }
    }

    /** `textFieldDidBeginEditing()`: raises the gate. */
    method TextFieldDidBeginEditing()
      modifies this
      ensures checkBoxesAreBlocked
      ensures shoppingList == old(shoppingList) && uncheckedItemsCount == old(uncheckedItemsCount)
      ensures currentListInfo == old(currentListInfo) && observations == old(observations)
      ensures storageCalls == old(storageCalls) && sortOrderAscending == old(sortOrderAscending)
      ensures bottomButtonState == old(bottomButtonState)
    {
      checkBoxesAreBlocked := true;
    }

    /** `editQuantityButtonPressed(in:)`: ignored while the gate is up. */
    method EditQuantityButtonPressed(row: int)
      modifies this
      ensures observations == old(observations) + (if old(checkBoxesAreBlocked) then [] else [NeedToShowPopUp(row)])
      ensures shoppingList == old(shoppingList) && uncheckedItemsCount == old(uncheckedItemsCount)
      ensures currentListInfo == old(currentListInfo) && storageCalls == old(storageCalls)
      ensures checkBoxesAreBlocked == old(checkBoxesAreBlocked) && sortOrderAscending == old(sortOrderAscending)
      ensures bottomButtonState == old(bottomButtonState)
    {
      if checkBoxesAreBlocked {
        return;
      }
      observations := observations + [NeedToShowPopUp(row)];
    }

    /** `checkBoxTapped(in:)`: ignored for a completed list or while the gate is up; otherwise
        the row's mark flips, and the row is moved to the counter's boundary or reloaded in
        place as the tests against the counter decide. The counter follows the flip, so an
        exact counter stays exact; on an ordered table exactly a row not yet at the boundary
        moves, and the ordering is kept. */
    method CheckBoxTapped(row: int)
      requires 0 <= row < |shoppingList| - 1
      requires !(currentListInfo.completed || checkBoxesAreBlocked) && TapMoves(shoppingList, IsChecked, uncheckedItemsCount, row) ==>
        0 <= TapTarget(shoppingList, IsChecked, uncheckedItemsCount, row) < |shoppingList|
      modifies this
      ensures old(Valid()) ==> Valid()
      ensures old(CounterIsExact()) ==> CounterIsExact()
      ensures old(currentListInfo.completed || checkBoxesAreBlocked) ==>
        shoppingList == old(shoppingList) && uncheckedItemsCount == old(uncheckedItemsCount) && observations == old(observations)
      ensures !old(currentListInfo.completed || checkBoxesAreBlocked) ==>
        var wasChecked := old(shoppingList[row].checked);
        var target := TapTarget(old(shoppingList), IsChecked, old(uncheckedItemsCount), row);
        shoppingList == Tapped(old(shoppingList), IsChecked, old(uncheckedItemsCount), row, old(shoppingList[row]).(checked := !wasChecked)) &&
        uncheckedItemsCount == (if wasChecked then old(uncheckedItemsCount) + 1 else old(uncheckedItemsCount) - 1) &&
        observations == old(observations) + [UserInteractionEnabled(false),
          if TapMoves(old(shoppingList), IsChecked, old(uncheckedItemsCount), row) then NeedToMoveItem(row, target) else NeedToUpdateItem([row], true)]
      ensures currentListInfo == old(currentListInfo) && storageCalls == old(storageCalls)
      ensures checkBoxesAreBlocked == old(checkBoxesAreBlocked) && sortOrderAscending == old(sortOrderAscending)
      ensures bottomButtonState == old(bottomButtonState)
    {
      if !(currentListInfo.completed || checkBoxesAreBlocked) {
        var table, count, moves, target := TapRows(shoppingList, uncheckedItemsCount, row);
        shoppingList := table;
        observations := observations + [UserInteractionEnabled(false), if moves then NeedToMoveItem(row, target) else NeedToUpdateItem([row], true)];
        uncheckedItemsCount := count;
      }
    }

    /** The table work of `checkBoxTapped(in:)`: the row's mark flips and the counter follows
        it; the row is then moved to the target or left in place as the tests against the
        counter decide. An exact counter stays exact, and an ordered table stays ordered. */
    static method TapRows(rows: seq<EditRow>, u: int, row: int) returns (table: seq<EditRow>, count: int, moves: bool, target: int)
      requires 0 <= row < |rows| - 1
      requires TapMoves(rows, IsChecked, u, row) ==> 0 <= TapTarget(rows, IsChecked, u, row) < |rows|
      ensures table == Tapped(rows, IsChecked, u, row, rows[row].(checked := !rows[row].checked))
      ensures count == (if rows[row].checked then u + 1 else u - 1)
      ensures moves == TapMoves(rows, IsChecked, u, row) && target == TapTarget(rows, IsChecked, u, row)
      ensures u == Sequences.Count(rows, Unchecked(IsChecked)) ==> count == Sequences.Count(table, Unchecked(IsChecked))
      ensures rows[|rows| - 1] == ButtonRow && UncheckedPrefix(rows, IsChecked, u) ==>
        table[|table| - 1] == ButtonRow && UncheckedPrefix(table, IsChecked, count)
    {
      var wasChecked := rows[row].checked;
      var toggled := rows[row].(checked := !wasChecked);
      target := if wasChecked then u else u - 1;
      moves := if wasChecked then row > u else row != u - 1;
      TapCount(rows, IsChecked, u, row, toggled);
      if rows[|rows| - 1] == ButtonRow && UncheckedPrefix(rows, IsChecked, u) {
        TapKeepsOrdering(rows, IsChecked, u, row, toggled, ButtonRow);
      }
      table := rows[row := toggled];
      if moves {
        table := Sequences.MoveItem(table, row, target);
      }
      count := if wasChecked then u + 1 else u - 1;
    }

    /** `addNewItemButtonPressed()`: ignored while the gate is up; otherwise a placeholder row is
        inserted at the counter, which then grows by one, so an exact counter stays exact and
        on an ordered table the row joins the end of the unchecked rows. */
    method AddNewItemButtonPressed()
      requires !checkBoxesAreBlocked ==> 0 <= uncheckedItemsCount <= |shoppingList|
      modifies this
      ensures old(Valid()) ==> Valid()
      ensures old(CounterIsExact()) ==> CounterIsExact()
      ensures old(checkBoxesAreBlocked) ==>
        shoppingList == old(shoppingList) && uncheckedItemsCount == old(uncheckedItemsCount) && observations == old(observations)
      ensures !old(checkBoxesAreBlocked) ==>
        shoppingList == Sequences.InsertAt(old(shoppingList), NewItemRow, old(uncheckedItemsCount)) &&
        uncheckedItemsCount == old(uncheckedItemsCount) + 1 &&
        observations == old(observations) + [UserInteractionEnabled(false), NeedToInsertItem(old(uncheckedItemsCount))]
      ensures currentListInfo == old(currentListInfo) && storageCalls == old(storageCalls)
      ensures checkBoxesAreBlocked == old(checkBoxesAreBlocked) && sortOrderAscending == old(sortOrderAscending)
      ensures bottomButtonState == old(bottomButtonState)
    {
      if !checkBoxesAreBlocked {
        var index := uncheckedItemsCount;
        NewRowAtCounter(shoppingList, index);
        shoppingList := Sequences.InsertAt(shoppingList, NewItemRow, index);
        uncheckedItemsCount := index + 1;
        observations := observations + [UserInteractionEnabled(false), NeedToInsertItem(index)];
      }
    }

    /** `popUpView(for:isShowing:)`: when the pop-up opens it is handed the row's quantity and
        unit index; interaction is disabled exactly while it shows. */
    method PopUpView(item: int, isShowing: bool)
      requires 0 <= item < |shoppingList|
      modifies this
      ensures observations == old(observations) +
        (if isShowing then [PopUpQuantity(old(shoppingList[item].quantity)), PopUpUnit(UnitIndex(old(shoppingList[item].unit)))] else []) +
        [UserInteractionEnabled(!isShowing)]
      ensures shoppingList == old(shoppingList) && uncheckedItemsCount == old(uncheckedItemsCount)
      ensures currentListInfo == old(currentListInfo) && storageCalls == old(storageCalls)
      ensures checkBoxesAreBlocked == old(checkBoxesAreBlocked) && sortOrderAscending == old(sortOrderAscending)
      ensures bottomButtonState == old(bottomButtonState)
    {
      if isShowing {
        observations := observations + [PopUpQuantity(shoppingList[item].quantity)];
        observations := observations + [PopUpUnit(UnitIndex(shoppingList[item].unit))];
      }
      observations := observations + [UserInteractionEnabled(!isShowing)];
    }

    /** `unitSelected(item:unit:)`: the row takes the unit of `index` and is reloaded. */
    method UnitSelected(item: int, index: int)
      requires 0 <= item < |shoppingList| - 1
      modifies this
      ensures old(Valid()) ==> Valid()
      ensures old(CounterIsExact()) ==> CounterIsExact()
      ensures shoppingList == old(shoppingList)[item := old(shoppingList[item]).(unit := UnitOfIndex(index))]
      ensures index == UnitIndex(old(shoppingList[item].unit)) ==> shoppingList == old(shoppingList)
      ensures observations == old(observations) + [NeedToUpdateItem([item], false)]
      ensures uncheckedItemsCount == old(uncheckedItemsCount)
      ensures currentListInfo == old(currentListInfo) && storageCalls == old(storageCalls)
      ensures checkBoxesAreBlocked == old(checkBoxesAreBlocked) && sortOrderAscending == old(sortOrderAscending)
      ensures bottomButtonState == old(bottomButtonState)
    {
      var selectedUnit := UnitOfIndex(index);
      UnitIndexRoundTrip(shoppingList[item].unit, index);
      ReplaceKeepsPrefix(shoppingList, IsChecked, uncheckedItemsCount, item, shoppingList[item].(unit := selectedUnit));
      if shoppingList[item].unit != selectedUnit {
        shoppingList := shoppingList[item := shoppingList[item].(unit := selectedUnit)];
      }
      observations := observations + [NeedToUpdateItem([item], false)];
    }

    /** `minusButtonPressed(item:)`: one less, never below 1; the row is reloaded and the
        pop-up handed the new quantity only when it changed. */
    method MinusButtonPressed(item: int)
      requires 0 <= item < |shoppingList| - 1
      modifies this
      ensures old(Valid()) ==> Valid()
      ensures old(CounterIsExact()) ==> CounterIsExact()
      ensures shoppingList == old(shoppingList)[item := old(shoppingList[item]).(quantity := MinusQuantity(old(shoppingList[item].quantity)))]
      ensures shoppingList[item].quantity >= 1
      ensures observations == old(observations) +
        (if shoppingList[item].quantity != old(shoppingList[item].quantity)
         then [NeedToUpdateItem([item], false), PopUpQuantity(shoppingList[item].quantity)] else [])
      ensures uncheckedItemsCount == old(uncheckedItemsCount)
      ensures currentListInfo == old(currentListInfo) && storageCalls == old(storageCalls)
      ensures checkBoxesAreBlocked == old(checkBoxesAreBlocked) && sortOrderAscending == old(sortOrderAscending)
      ensures bottomButtonState == old(bottomButtonState)
    {
      var quantity := shoppingList[item].quantity;
      ReplaceKeepsPrefix(shoppingList, IsChecked, uncheckedItemsCount, item, shoppingList[item].(quantity := Max(quantity - 1, 1)));
      if shoppingList[item].quantity != Max(quantity - 1, 1) {
        shoppingList := shoppingList[item := shoppingList[item].(quantity := Max(quantity - 1, 1))];
        observations := observations + [NeedToUpdateItem([item], false), PopUpQuantity(shoppingList[item].quantity)];
      }
    }

    /** `plusButtonPressed(item:)` as written: one more, never above 99, but the row is reloaded
        and the quantity re-sent on every press, even at 99 where nothing changes
        (`PlusGuardAlwaysHolds`). */
    method PlusButtonPressed(item: int)
      requires 0 <= item < |shoppingList| - 1
      modifies this
      ensures old(Valid()) ==> Valid()
      ensures old(CounterIsExact()) ==> CounterIsExact()
      ensures shoppingList == old(shoppingList)[item := old(shoppingList[item]).(quantity := PlusQuantity(old(shoppingList[item].quantity)))]
      ensures shoppingList[item].quantity <= 99
      ensures observations == old(observations) + [NeedToUpdateItem([item], false), PopUpQuantity(shoppingList[item].quantity)]
      ensures uncheckedItemsCount == old(uncheckedItemsCount)
      ensures currentListInfo == old(currentListInfo) && storageCalls == old(storageCalls)
      ensures checkBoxesAreBlocked == old(checkBoxesAreBlocked) && sortOrderAscending == old(sortOrderAscending)
      ensures bottomButtonState == old(bottomButtonState)
    {
      var quantity := shoppingList[item].quantity;
      PlusGuardAlwaysHolds(quantity);
      ReplaceKeepsPrefix(shoppingList, IsChecked, uncheckedItemsCount, item, shoppingList[item].(quantity := Min(quantity + 1, 99)));
      if PlusGuardAsWritten(quantity) {
        shoppingList := shoppingList[item := shoppingList[item].(quantity := Min(quantity + 1, 99))];
        observations := observations + [NeedToUpdateItem([item], false), PopUpQuantity(shoppingList[item].quantity)];
      }
    }

    /** `plusButtonPressed(item:)` as the minus button's pattern intends: the guard compares
        against the new quantity, so the row is reloaded only when the quantity changed. */
    method PlusButtonPressedOnChange(item: int)
      requires 0 <= item < |shoppingList| - 1
      modifies this
      ensures old(Valid()) ==> Valid()
      ensures old(CounterIsExact()) ==> CounterIsExact()
      ensures shoppingList == old(shoppingList)[item := old(shoppingList[item]).(quantity := PlusQuantity(old(shoppingList[item].quantity)))]
      ensures shoppingList[item].quantity <= 99
      ensures observations == old(observations) +
        (if shoppingList[item].quantity != old(shoppingList[item].quantity)
         then [NeedToUpdateItem([item], false), PopUpQuantity(shoppingList[item].quantity)] else [])
      ensures uncheckedItemsCount == old(uncheckedItemsCount)
      ensures currentListInfo == old(currentListInfo) && storageCalls == old(storageCalls)
      ensures checkBoxesAreBlocked == old(checkBoxesAreBlocked) && sortOrderAscending == old(sortOrderAscending)
      ensures bottomButtonState == old(bottomButtonState)
    {
      var quantity := shoppingList[item].quantity;
      ReplaceKeepsPrefix(shoppingList, IsChecked, uncheckedItemsCount, item, shoppingList[item].(quantity := Min(quantity + 1, 99)));
      if shoppingList[item].quantity != Min(quantity + 1, 99) {
        shoppingList := shoppingList[item := shoppingList[item].(quantity := Min(quantity + 1, 99))];
        observations := observations + [NeedToUpdateItem([item], false), PopUpQuantity(shoppingList[item].quantity)];
      }
    }

    /** `doneButtonPressed()`: asks for the pop-up to close and changes nothing else. */
    method DoneButtonPressed()
      modifies this
      ensures observations == old(observations) + [NeedToClosePopUp]
      ensures shoppingList == old(shoppingList) && uncheckedItemsCount == old(uncheckedItemsCount)
      ensures currentListInfo == old(currentListInfo) && storageCalls == old(storageCalls)
      ensures checkBoxesAreBlocked == old(checkBoxesAreBlocked) && sortOrderAscending == old(sortOrderAscending)
      ensures bottomButtonState == old(bottomButtonState)
    {
      observations := observations + [NeedToClosePopUp];
    }
  }

  /** The row `addNewItemButtonPressed()` inserts at the counter adds one unchecked row on any
      table; on an ordered table it keeps the button row last and joins the end of the
      unchecked rows. */
  lemma NewRowAtCounter(rows: seq<EditRow>, u: int)
    requires 0 <= u <= |rows|
    ensures Sequences.Count(Sequences.InsertAt(rows, NewItemRow, u), Unchecked(IsChecked)) ==
      Sequences.Count(rows, Unchecked(IsChecked)) + 1
    ensures |rows| >= 1 && rows[|rows| - 1] == ButtonRow && UncheckedPrefix(rows, IsChecked, u) ==>
      var table := Sequences.InsertAt(rows, NewItemRow, u);
      table[|table| - 1] == ButtonRow && UncheckedPrefix(table, IsChecked, u + 1)
  {
    Sequences.CountInsertAt(rows, NewItemRow, u, Unchecked(IsChecked));
    assert Unchecked(IsChecked)(NewItemRow) == !IsChecked(NewItemRow);
    if |rows| >= 1 && rows[|rows| - 1] == ButtonRow && UncheckedPrefix(rows, IsChecked, u) {
      InsertAtBoundary(rows, IsChecked, u, NewItemRow);
      Sequences.InsertAtShifts(rows, NewItemRow, u);
    }
  }
}
