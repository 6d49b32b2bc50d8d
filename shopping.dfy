/** The shopping screen (`Scenes/Shopping/ShoppingListViewModel.swift`): the items of one list
    followed by the "add product" button row. Unchecked items come first and
    `uncheckedItemsCount` marks where the checked ones begin; checking or unchecking an item
    moves it across that boundary. Quantities are counted in tenths, both on screen and in the
    items handed to the store. Observable assignments, storage calls and coordinator calls are
    appended to logs. */
module Shopping {
  import opened Optional
  import Sequences
  import opened Strings
  import opened LocalizedStrings
  import opened Units
  import opened ListInfos
  import opened Storage
  import opened CheckedPrefix
  import opened Sorting
  import opened OrderedTable

  /** `ShopListCellParams` as this view model uses it (`id` is not read). */
  datatype ShopRow = ShopRow(checked: bool, title: Option<string>, quantity: int, unit: Unit, error: Option<ErrorText>)

  function IsChecked(r: ShopRow): bool {
    r.checked
  }

  /** The sort key `$0.title ?? ""`. */
  function TitleKey(r: ShopRow): string {
    r.title.GetOr("")
  }

  /** The trailing button row: checked, so it never breaks the unchecked prefix. */
  const ButtonRow: ShopRow := ShopRow(true, Some(ButtonAddProduct), 10, Piece, None)

  /** The row `addNewItemButtonPressed()` inserts: unchecked, untitled, one piece, marked empty. */
  const NewItemRow: ShopRow := ShopRow(false, None, 10, Piece, Some(NewListEmptyName))

  // ---------------------------------------------------------------------------------------
  // Loading and saving

  /** The row `loadList()` makes from a stored item; an unknown unit becomes a piece. */
  function LoadedRow(item: ListItem): ShopRow {
    ShopRow(item.checked, Some(item.name), item.quantity, FromRawValueOrPiece(item.unit), None)
  }

  function LoadedRows(items: seq<ListItem>): (rows: seq<ShopRow>)
    ensures |rows| == |items|
  {
    seq(|items|, k requires 0 <= k < |items| => LoadedRow(items[k]))
  }

  /** The item `saveListToStorage()` makes from a row; a missing title is stored as "". */
  function StoredItem(r: ShopRow): ListItem {
    ListItem(r.title.GetOr(""), r.quantity, RawValue(r.unit), r.checked)
  }

  /** Every row except the last, as stored items. */
  function StoredItems(rows: seq<ShopRow>): (items: seq<ListItem>)
    ensures |items| == if |rows| > 1 then |rows| - 1 else 0
  {
    if |rows| > 1 then seq(|rows| - 1, k requires 0 <= k < |rows| - 1 => StoredItem(rows[k])) else []
  }

  lemma LoadedRowsStep(items: seq<ListItem>, i: nat)
    requires i < |items|
    ensures LoadedRows(items[..i + 1]) == LoadedRows(items[..i]) + [LoadedRow(items[i])]
  {
  }

  /** A table whose rows all have titles and no errors is stored and loaded back unchanged. */
  lemma SaveThenLoad(rows: seq<ShopRow>)
    requires |rows| >= 1 && rows[|rows| - 1] == ButtonRow
    requires forall k :: 0 <= k < |rows| - 1 ==> rows[k].title.Some? && rows[k].error.None?
    ensures LoadedRows(StoredItems(rows)) + [ButtonRow] == rows
  {
    var back := LoadedRows(StoredItems(rows)) + [ButtonRow];
    forall k | 0 <= k < |rows| - 1
      ensures back[k] == rows[k]
    {
      assert FromRawValueOrPiece(RawValue(rows[k].unit)) == rows[k].unit;
    }
  }

  /** Saving a table that keeps the ordering stores its items in loadable order. */
  lemma {:induction false} SavedItemsAreOrdered(rows: seq<ShopRow>, u: int)
    requires |rows| >= 1 && UncheckedPrefix(rows, IsChecked, u)
    ensures ItemsOrdered(StoredItems(rows))
  {
    var items := StoredItems(rows);
    var v := if u < |items| then u else |items|;
    assert UncheckedPrefix(items, ItemIsChecked, v);
    PrefixLengthIsUncheckedCount(items, ItemIsChecked, v);
  }

  /** Items stored unchecked-first load into a table that keeps the ordering. */
  lemma LoadedKeepsOrder(items: seq<ListItem>)
    requires ItemsOrdered(items)
    ensures UncheckedPrefix(LoadedRows(items) + [ButtonRow], IsChecked, Sequences.Count(items, Unchecked(ItemIsChecked)))
  {
    var c := Sequences.Count(items, Unchecked(ItemIsChecked));
    var rows := LoadedRows(items) + [ButtonRow];
    forall i | 0 <= i < |rows|
      ensures IsChecked(rows[i]) <==> c <= i
    {
      if i < |items| {
        assert rows[i] == LoadedRow(items[i]);
        assert ItemIsChecked(items[i]) <==> c <= i;
      }
    }
  }

  lemma {:induction false} LoadedRowsCount(items: seq<ListItem>)
    ensures Sequences.Count(LoadedRows(items), Unchecked(IsChecked)) == Sequences.Count(items, Unchecked(ItemIsChecked))
  {
    if |items| > 0 {
      LoadedRowsCount(items[1..]);
      assert LoadedRows(items)[1..] == LoadedRows(items[1..]);
      assert Unchecked(IsChecked)(LoadedRows(items)[0]) == Unchecked(ItemIsChecked)(items[0]);
    }
  }

  /** Appending the loaded rows and the button row adds the loaded items' unchecked count. */
  lemma LoadedAppendCount(rows: seq<ShopRow>, items: seq<ListItem>)
    ensures Sequences.Count(rows + LoadedRows(items) + [ButtonRow], Unchecked(IsChecked)) ==
      Sequences.Count(rows, Unchecked(IsChecked)) + Sequences.Count(items, Unchecked(ItemIsChecked))
  {
    LoadedRowsCount(items);
    Sequences.CountAppend(rows, LoadedRows(items), Unchecked(IsChecked));
    Sequences.CountAppend(rows + LoadedRows(items), [ButtonRow], Unchecked(IsChecked));
    assert [ButtonRow][1..] == [];
    assert Unchecked(IsChecked)(ButtonRow) == !IsChecked(ButtonRow);
  }

  // ---------------------------------------------------------------------------------------
  // Validation

  /** `validateName(row:)`'s rules for a typed title, first match first. */
  function NameError(title: string): (e: Option<ErrorText>)
    ensures e == Some(NewListEmptyName) <==> title == ""
    ensures e == Some(NewListWrongName) <==> title != "" && IsSpacesOnly(title)
    ensures e.None? <==> title != "" && !IsSpacesOnly(title)
  {
    RemovingSpacesIsEmpty(title);
    if title == "" then Some(NewListEmptyName)
    else if RemovingSpaces(title) == "" then Some(NewListWrongName)
    else None
  }

  /** The row after `validateName(row:)`: untouched without a title, else only the error changes. */
  function ValidatedRow(r: ShopRow): (v: ShopRow)
    ensures r.title.None? ==> v == r
    ensures v.(error := r.error) == r
    ensures r.title.Some? ==> v.error == NameError(r.title.value)
  {
    if r.title.None? then r else r.(error := NameError(r.title.value))
  }

  predicate IsComplete(r: ShopRow) {
    r.title.Some? && r.title.value != "" && r.error.None?
  }

  /** `validateList()` */
  function ValidateList(rows: seq<ShopRow>): (ok: bool)
    ensures ok <==> forall i :: 0 <= i < |rows| ==> IsComplete(rows[i])
  {
    Sequences.FirstIndexWhere(rows, (r: ShopRow) => r.title.None? || r.title == Some("") || r.error.Some?).None?
  }

  /** Every item row set to `on`; the button row is left alone. */
  function WithItemsChecked(rows: seq<ShopRow>, on: bool): (r: seq<ShopRow>)
    ensures |r| == |rows|
    ensures forall k :: 0 <= k < |rows| - 1 ==> r[k] == rows[k].(checked := on)
    ensures |rows| > 0 ==> r[|rows| - 1] == rows[|rows| - 1]
  {
    if |rows| <= 1 then rows
    else
      var rest := WithItemsChecked(rows[1..], on);
      assert forall k :: 1 <= k < |rows| ==> ([rows[0].(checked := on)] + rest)[k] == rest[k - 1];
      [rows[0].(checked := on)] + rest
  }

  // ---------------------------------------------------------------------------------------
  // The view model

  /** `ShoppingListBinding` */
  datatype Binding =
    | ShowPopUp(row: int, quantity: int, unit: Unit)
    | UpdateItem(rows: seq<int>, animated: bool)
    | InsertItem(row: int)
    | MoveItem(from: int, to: int)
    | RemoveItem(row: int)

  /** The coordinator calls this view model makes. */
  datatype CoordinatorCall = PopToMainView | ShowSuccessView | DismissPopupVC | SwitchToMainView

  /** The storage call a save makes. */
  function SaveCall(info: ListInfo, rows: seq<ShopRow>, mode: SaveMode): StorageCall {
    if mode.DuplicatePinned? then SaveNewList(ShopList(SavedInfo(info, mode), StoredItems(rows)))
    else UpdateList(ShopList(info, StoredItems(rows)))
  }

  datatype CellType = ItemCell | ButtonCell

  class ShoppingListViewModel {
    var currentListInfo: ListInfo
    var shoppingList: seq<ShopRow>
    var uncheckedItemsCount: int
    var sortOrderAscending: Option<bool>
    var userIsTyping: bool
    var bottomButtonIsEnabled: bool
    var bindings: seq<Binding>
    var storageCalls: seq<StorageCall>
    var coordinatorCalls: seq<CoordinatorCall>

    /** The table ends with the button row and its unchecked rows are exactly the first
        `uncheckedItemsCount`. */
    predicate Valid()
      reads this
    {
      |shoppingList| >= 1 && shoppingList[|shoppingList| - 1] == ButtonRow &&
      UncheckedPrefix(shoppingList, IsChecked, uncheckedItemsCount)
    }

    /** `uncheckedItemsCount` is the number of unchecked rows, whatever their order. */
    predicate CounterIsExact()
      reads this
    {
      uncheckedItemsCount == Sequences.Count(shoppingList, Unchecked(IsChecked))
    }

    constructor (listInfo: ListInfo)
      ensures currentListInfo == listInfo
      ensures shoppingList == [] && uncheckedItemsCount == 0 && sortOrderAscending.None?
      ensures !userIsTyping && !bottomButtonIsEnabled
      ensures bindings == [] && storageCalls == [] && coordinatorCalls == []
    {
      currentListInfo := listInfo;
      shoppingList := [];
      uncheckedItemsCount := 0;
      sortOrderAscending := None;
      userIsTyping := false;
      bottomButtonIsEnabled := false;
      bindings := [];
      storageCalls := [];
      coordinatorCalls := [];
    }

    /** `viewWillAppear()`; `loaded` is the store's answer to `getItems(by:)`. */
    method ViewWillAppear(loaded: Option<seq<ListItem>>)
      modifies this
      ensures loaded.Some? ==> shoppingList == old(shoppingList) + LoadedRows(loaded.value) + [ButtonRow]
      ensures loaded.Some? ==> uncheckedItemsCount == old(uncheckedItemsCount) + Sequences.Count(loaded.value, Unchecked(ItemIsChecked))
      ensures loaded.None? ==> shoppingList == old(shoppingList) && uncheckedItemsCount == old(uncheckedItemsCount)
      ensures old(shoppingList) == [] && old(uncheckedItemsCount) == 0 && loaded.Some? && ItemsOrdered(loaded.value) ==> Valid()
      ensures bottomButtonIsEnabled <==> currentListInfo.completed || forall k :: 0 <= k < |shoppingList| ==> shoppingList[k].checked
      ensures currentListInfo == old(currentListInfo) && bindings == old(bindings)
      ensures storageCalls == old(storageCalls) && coordinatorCalls == old(coordinatorCalls)
      ensures userIsTyping == old(userIsTyping) && sortOrderAscending == old(sortOrderAscending)
    {
      LoadList(loaded);
      UpdateBottomButtonState();
    }

    /** The loop of `loadList()`: one row per stored item, in order, and the number of
        unchecked items. */
    static method LoadItems(loadedItems: seq<ListItem>) returns (rows: seq<ShopRow>, count: int)
      ensures rows == LoadedRows(loadedItems)
      ensures count == Sequences.Count(loadedItems, Unchecked(ItemIsChecked))
    {
      rows := [];
      count := 0;
      var index := 0;
      while index < |loadedItems|
        invariant 0 <= index <= |loadedItems|
        invariant rows == LoadedRows(loadedItems[..index])
        invariant count == Sequences.Count(loadedItems[..index], Unchecked(ItemIsChecked))
      {
        var item := loadedItems[index];
        rows := rows + [LoadedRow(item)];
        if !item.checked {
          count := count + 1;
        }
        LoadedRowsStep(loadedItems, index);
        Sequences.CountPrefixStep(loadedItems, index, Unchecked(ItemIsChecked));
        assert Unchecked(ItemIsChecked)(item) == !ItemIsChecked(item);
        index := index + 1;
      }
      assert loadedItems[..index] == loadedItems;
    }

    /** `loadList()`: appends one row per stored item, then the button row, and counts the
        unchecked items. On a fresh view model the counter is then exact, and the ordering
        holds when the store returned the unchecked items first. */
    method LoadList(loaded: Option<seq<ListItem>>)
      modifies this
      ensures loaded.Some? ==> shoppingList == old(shoppingList) + LoadedRows(loaded.value) + [ButtonRow]
      ensures loaded.Some? ==> uncheckedItemsCount == old(uncheckedItemsCount) + Sequences.Count(loaded.value, Unchecked(ItemIsChecked))
      ensures loaded.None? ==> shoppingList == old(shoppingList) && uncheckedItemsCount == old(uncheckedItemsCount)
      ensures old(CounterIsExact()) ==> CounterIsExact()
      ensures old(shoppingList) == [] && old(uncheckedItemsCount) == 0 && loaded.Some? && ItemsOrdered(loaded.value) ==> Valid()
      ensures currentListInfo == old(currentListInfo) && bindings == old(bindings)
      ensures storageCalls == old(storageCalls) && coordinatorCalls == old(coordinatorCalls)
      ensures userIsTyping == old(userIsTyping) && sortOrderAscending == old(sortOrderAscending)
      ensures bottomButtonIsEnabled == old(bottomButtonIsEnabled)
    {
      if loaded.Some? {
        var loadedItems := loaded.value;
        var rows, count := LoadItems(loadedItems);
        LoadedAppendCount(shoppingList, loadedItems);
        if shoppingList == [] && uncheckedItemsCount == 0 && ItemsOrdered(loadedItems) {
          LoadedKeepsOrder(loadedItems);
          assert shoppingList + rows + [ButtonRow] == rows + [ButtonRow];
        }
        shoppingList := shoppingList + rows + [ButtonRow];
        uncheckedItemsCount := uncheckedItemsCount + count;
      }
    }

    /** `updateBottomButtonState()`: enabled for a completed list, otherwise exactly when no row
        is unchecked, which under the ordering means the counter is zero. */
    method UpdateBottomButtonState()
      modifies this
      ensures bottomButtonIsEnabled <==> currentListInfo.completed || forall k :: 0 <= k < |shoppingList| ==> shoppingList[k].checked
      ensures Valid() ==> (bottomButtonIsEnabled <==> currentListInfo.completed || uncheckedItemsCount == 0)
      ensures shoppingList == old(shoppingList) && uncheckedItemsCount == old(uncheckedItemsCount)
      ensures currentListInfo == old(currentListInfo) && bindings == old(bindings)
      ensures storageCalls == old(storageCalls) && coordinatorCalls == old(coordinatorCalls)
      ensures userIsTyping == old(userIsTyping) && sortOrderAscending == old(sortOrderAscending)
    {
      var newState := if currentListInfo.completed then true
        else Sequences.FirstIndexWhere(shoppingList, (r: ShopRow) => r.checked == false).None?;
      if bottomButtonIsEnabled != newState {
        bottomButtonIsEnabled := !bottomButtonIsEnabled;
      }
      if Valid() && uncheckedItemsCount > 0 {
        assert !shoppingList[0].checked;
      }
    }

    function GetListTitle(): string
      reads this
    {
      currentListInfo.title
    }

    function ListIsCompleted(): bool
      reads this
    {
      currentListInfo.completed
    }

    /** `getTextFieldEditState()` */
    function GetTextFieldEditState(): bool
      reads this
    {
      userIsTyping
    }

    function GetBottomButtonName(): string
      reads this
    {
      if currentListInfo.completed then ButtonRestoreList else ButtonRemoveCheckedItems
    }

    function GetTableRowCount(): int
      reads this
    {
      |shoppingList|
    }

    /** `getRowHeight(for:)`: 52 points, or 81 for an item row showing an error caption. */
    function GetRowHeight(row: int): (h: int)
      requires 0 <= row < |shoppingList|
      reads this
      ensures h == 81 <==> row != |shoppingList| - 1 && shoppingList[row].error.Some?
      ensures h == 52 || h == 81
    {
      if row == |shoppingList| - 1 then 52
      else if shoppingList[row].error.None? then 52 else 81
    }

    /** `getCellParams(for:)`: the last row is the button cell. */
    function GetCellParams(row: int): (p: (CellType, ShopRow))
      requires 0 <= row < |shoppingList|
      reads this
      ensures p.0 == ButtonCell <==> row == |shoppingList| - 1
      ensures p.1 == shoppingList[row]
    {
      (if row == |shoppingList| - 1 then ButtonCell else ItemCell, shoppingList[row])
    }

    /** `isDropAllowed(for:)`: under the ordering, exactly the unchecked rows accept a drop. */
    function IsDropAllowed(row: int): (b: bool)
      reads this
      ensures Valid() && 0 <= row < |shoppingList| ==> (b <==> !shoppingList[row].checked)
    {
      row < uncheckedItemsCount
    }

    /** `tableFinishedUpdating()` */
    method TableFinishedUpdating()
      modifies this
      ensures storageCalls == old(storageCalls) + [SaveCall(currentListInfo, shoppingList, UpdateCurrent)]
      ensures !userIsTyping
      ensures shoppingList == old(shoppingList) && uncheckedItemsCount == old(uncheckedItemsCount)
      ensures currentListInfo == old(currentListInfo) && bindings == old(bindings)
      ensures coordinatorCalls == old(coordinatorCalls) && sortOrderAscending == old(sortOrderAscending)
      ensures bottomButtonIsEnabled == old(bottomButtonIsEnabled)
    {
      SaveListToStorage(UpdateCurrent);
      userIsTyping := false;
    }

    /** The items `saveListToStorage()` hands over: every row but the last, in order. */
    method BuildStoredItems() returns (newListItems: seq<ListItem>)
      ensures newListItems == StoredItems(shoppingList)
    {
      newListItems := [];
      if |shoppingList| > 1 {
        var i := 0;
        while i <= |shoppingList| - 2
          invariant 0 <= i <= |shoppingList| - 1
          invariant |newListItems| == i
          invariant forall k :: 0 <= k < i ==> newListItems[k] == StoredItem(shoppingList[k])
        {
          newListItems := newListItems + [StoredItem(shoppingList[i])];
          i := i + 1;
        }
      }
    }

    /** `saveListToStorage(duplicatePinned:)` */
    method SaveListToStorage(mode: SaveMode)
      modifies this
      ensures storageCalls == old(storageCalls) + [SaveCall(currentListInfo, shoppingList, mode)]
      ensures shoppingList == old(shoppingList) && uncheckedItemsCount == old(uncheckedItemsCount)
      ensures currentListInfo == old(currentListInfo) && bindings == old(bindings)
      ensures coordinatorCalls == old(coordinatorCalls) && sortOrderAscending == old(sortOrderAscending)
      ensures userIsTyping == old(userIsTyping) && bottomButtonIsEnabled == old(bottomButtonIsEnabled)
    {
      var newListItems := BuildStoredItems();
      var list := ShopList(SavedInfo(currentListInfo, mode), newListItems);
      storageCalls := storageCalls + [if mode.DuplicatePinned? then SaveNewList(list) else UpdateList(list)];
    }

    /** The loop of `sortButtonPressed()` over the item rows `0 ... count - 2`: each row goes to
        the unchecked or the checked rows by its own mark, in order, and every item row is
        reloaded. */
    static method SplitByCheckMark(rows: seq<ShopRow>) returns (uncheckedItems: seq<ShopRow>, checkedItems: seq<ShopRow>, indexesToUpdate: seq<int>)
      requires |rows| >= 2
      ensures uncheckedItems == Sequences.Filter(rows[..|rows| - 1], Unchecked(IsChecked))
      ensures checkedItems == Sequences.Filter(rows[..|rows| - 1], IsChecked)
      ensures indexesToUpdate == Sequences.Range(0, |rows| - 1)
    {
      uncheckedItems := [];
      checkedItems := [];
      indexesToUpdate := [];
      var index := 0;
      while index <= |rows| - 2
        invariant 0 <= index <= |rows| - 1
        invariant uncheckedItems == Sequences.Filter(rows[..index], Unchecked(IsChecked))
        invariant checkedItems == Sequences.Filter(rows[..index], IsChecked)
        invariant indexesToUpdate == Sequences.Range(0, index)
      {
        Sequences.FilterStep(rows, index, Unchecked(IsChecked));
        Sequences.FilterStep(rows, index, IsChecked);
        assert Unchecked(IsChecked)(rows[index]) == !rows[index].checked;
        if rows[index].checked {
          checkedItems := checkedItems + [rows[index]];
        } else {
          uncheckedItems := uncheckedItems + [rows[index]];
        }
        Sequences.RangeSnoc(0, index);
        indexesToUpdate := indexesToUpdate + [index];
        index := index + 1;
      }
    }

    /** The new table `sortButtonPressed()` builds, with the rows it reloads. */
    static method SortRows(rows: seq<ShopRow>, ascending: bool) returns (table: seq<ShopRow>, indexesToUpdate: seq<int>)
      requires |rows| >= 2
      ensures table == SortedTable(rows, IsChecked, TitleKey, ascending, ButtonRow)
      ensures |table| == |rows| && table[|table| - 1] == ButtonRow
      ensures UncheckedPrefix(table, IsChecked, Sequences.Count(rows[..|rows| - 1], Unchecked(IsChecked)))
      ensures indexesToUpdate == Sequences.Range(0, |rows| - 1)
    {
      SortKeepsOrdering(rows, IsChecked, TitleKey, ascending, ButtonRow);
      var uncheckedItems, checkedItems;
      uncheckedItems, checkedItems, indexesToUpdate := SplitByCheckMark(rows);
      table := SortBy(uncheckedItems, TitleKey, ascending);
      table := table + checkedItems;
      table := table + [ButtonRow];
    }

    /** `sortButtonPressed()`: the unchecked item rows sorted by title (ascending unless the last
        sort was ascending), then the checked item rows in their old order, then a new button
        row. The model's sort is one of the orders Swift's unstable sort may produce
        (`SortOrdersUnchecked` states what every such order shares). Whatever the order before,
        the unchecked rows come first afterwards; the counter is left alone, so the table is
        valid afterwards whenever it was valid before, or the counter was exact and the last row
        checked. */
    method SortButtonPressed()
      requires |shoppingList| >= 2
      modifies this
      ensures var ascending := old(sortOrderAscending) != Some(true);
        sortOrderAscending == Some(ascending) &&
        shoppingList == SortedTable(old(shoppingList), IsChecked, TitleKey, ascending, ButtonRow)
      ensures |shoppingList| == |old(shoppingList)| && uncheckedItemsCount == old(uncheckedItemsCount)
      ensures UncheckedPrefix(shoppingList, IsChecked, Sequences.Count(old(shoppingList)[..|old(shoppingList)| - 1], Unchecked(IsChecked)))
      ensures old(CounterIsExact() && shoppingList[|shoppingList| - 1].checked) ==> Valid()
      ensures old(Valid()) ==> Valid()
      ensures bindings == old(bindings) + [UpdateItem(Sequences.Range(0, |shoppingList| - 1), true)]
      ensures currentListInfo == old(currentListInfo) && storageCalls == old(storageCalls)
      ensures coordinatorCalls == old(coordinatorCalls)
      ensures userIsTyping == old(userIsTyping) && bottomButtonIsEnabled == old(bottomButtonIsEnabled)
    {
      var rows := shoppingList;
      // a descending sort follows an ascending one; any other state sorts ascending
      var ascending := sortOrderAscending != Some(true);
      var table, indexesToUpdate := SortRows(rows, ascending);
      ghost var keepsOrder := Valid() || (CounterIsExact() && rows[|rows| - 1].checked);
      if keepsOrder {
        SortedTableBoundary(rows, IsChecked, uncheckedItemsCount, TitleKey, ascending, ButtonRow);
      }
      sortOrderAscending := Some(ascending);
      shoppingList := table;
      bindings := bindings + [UpdateItem(indexesToUpdate, true)];
    }

    /** The loop of `checkAllSwitchIs(on:)` over the item rows: every item row gets mark `on`,
        the rows whose mark differed are collected in order, and the counter moves by one per
        such row, down when checking and up when unchecking. */
    static method CheckAllRows(rows: seq<ShopRow>, u: int, on: bool) returns (newRows: seq<ShopRow>, count: int, indexesToUpdate: seq<int>)
      requires |rows| >= 1
      ensures newRows == WithItemsChecked(rows, on)
      ensures indexesToUpdate == Sequences.IndexesWhere(rows[..|rows| - 1], Differs(IsChecked, on))
      ensures count == u + (if on then -|indexesToUpdate| else |indexesToUpdate|)
    {
      var n := |rows|;
      newRows := rows;
      count := u;
      indexesToUpdate := [];
      var index := 0;
      while index <= n - 2
        invariant 0 <= index <= n - 1
        invariant |newRows| == n
        invariant forall k :: 0 <= k < n ==> newRows[k] == if k < index then rows[k].(checked := on) else rows[k]
        invariant indexesToUpdate == Sequences.IndexesWhere(rows[..index], Differs(IsChecked, on))
        invariant count == u + (if on then -|indexesToUpdate| else |indexesToUpdate|)
      {
        CheckAllStep(rows, IsChecked, on, index, u, count, indexesToUpdate);
        if on {
          if !newRows[index].checked {
            newRows := newRows[index := newRows[index].(checked := true)];
            indexesToUpdate := indexesToUpdate + [index];
            count := count - 1;
          }
        } else {
          if newRows[index].checked {
            newRows := newRows[index := newRows[index].(checked := false)];
            indexesToUpdate := indexesToUpdate + [index];
            count := count + 1;
          }
        }
        index := index + 1;
      }
    }

    /** `checkAllSwitchIs(on:)`: with at least one item row, every item row gets check mark
        `on`, the button row is left alone, the counter moves by one per changed row, and
        exactly the rows whose mark changed are reloaded, in one update when any. The counter
        stays exact, and a valid table stays valid with every item row on one side. */
    method CheckAllSwitchIs(on: bool)
      modifies this
      ensures |old(shoppingList)| < 2 ==>
        shoppingList == old(shoppingList) && uncheckedItemsCount == old(uncheckedItemsCount) && bindings == old(bindings)
      ensures |old(shoppingList)| >= 2 ==> shoppingList == WithItemsChecked(old(shoppingList), on)
      ensures |old(shoppingList)| >= 2 ==>
        var changed := Sequences.IndexesWhere(old(shoppingList)[..|old(shoppingList)| - 1], Differs(IsChecked, on));
        (forall k :: 0 <= k < |shoppingList| - 1 ==> (k in changed <==> old(shoppingList[k].checked) != on)) &&
        uncheckedItemsCount == old(uncheckedItemsCount) + (if on then -|changed| else |changed|) &&
        bindings == old(bindings) + (if changed == [] then [] else [UpdateItem(changed, true)])
      ensures old(CounterIsExact()) ==> CounterIsExact()
      ensures old(Valid()) ==> Valid() && uncheckedItemsCount == if on then 0 else |shoppingList| - 1
      ensures currentListInfo == old(currentListInfo) && storageCalls == old(storageCalls)
      ensures coordinatorCalls == old(coordinatorCalls) && sortOrderAscending == old(sortOrderAscending)
      ensures userIsTyping == old(userIsTyping) && bottomButtonIsEnabled == old(bottomButtonIsEnabled)
    {
      if |shoppingList| >= 2 {
        // the state before the switch, which the contract compares against
        ghost var wasValid := Valid();
        ghost var wasExact := CounterIsExact();
        var rows := shoppingList;
        var newRows, count, indexesToUpdate := CheckAllRows(rows, uncheckedItemsCount, on);
        CheckAllOutcome(rows, newRows, IsChecked, uncheckedItemsCount, count, indexesToUpdate, on);
        shoppingList := newRows;
        uncheckedItemsCount := count;
        if indexesToUpdate != [] {
          bindings := bindings + [UpdateItem(indexesToUpdate, true)];
        }
      }
    }

    /** `moveItemInArray(from:to:)`: a permutation, and nothing at all when the rows coincide. */
    method MoveItemInArray(sourceIndex: int, destinationIndex: int)
      requires 0 <= sourceIndex < |shoppingList| && 0 <= destinationIndex < |shoppingList|
      modifies this
      ensures shoppingList == Sequences.MoveItem(old(shoppingList), sourceIndex, destinationIndex)
      ensures sourceIndex == destinationIndex ==> shoppingList == old(shoppingList)
      ensures old(CounterIsExact()) ==> CounterIsExact()
      ensures uncheckedItemsCount == old(uncheckedItemsCount) && bindings == old(bindings)
      ensures currentListInfo == old(currentListInfo) && storageCalls == old(storageCalls)
      ensures coordinatorCalls == old(coordinatorCalls) && sortOrderAscending == old(sortOrderAscending)
      ensures userIsTyping == old(userIsTyping) && bottomButtonIsEnabled == old(bottomButtonIsEnabled)
    {
      if sourceIndex == destinationIndex {
        return;
      }
      Sequences.MoveItemKeepsCount(shoppingList, sourceIndex, destinationIndex, Unchecked(IsChecked));
      var place := shoppingList[sourceIndex];
      shoppingList := Sequences.RemoveAt(shoppingList, sourceIndex);
      shoppingList := Sequences.InsertAt(shoppingList, place, destinationIndex);
    }

    /** `rowMoved(from:to:)` as written: the table lets any row be dragged anywhere, so the move
        is applied unconditionally and the ordering is not kept (see `RowMovedBreaksOrdering`). */
    method RowMoved(sourceIndex: int, destinationIndex: int)
      requires 0 <= sourceIndex < |shoppingList| && 0 <= destinationIndex < |shoppingList|
      modifies this
      ensures shoppingList == Sequences.MoveItem(old(shoppingList), sourceIndex, destinationIndex)
      ensures old(CounterIsExact()) ==> CounterIsExact()
      ensures storageCalls == old(storageCalls) + [SaveCall(currentListInfo, shoppingList, UpdateCurrent)]
      ensures !userIsTyping
      ensures uncheckedItemsCount == old(uncheckedItemsCount) && bindings == old(bindings)
      ensures currentListInfo == old(currentListInfo) && coordinatorCalls == old(coordinatorCalls)
      ensures sortOrderAscending == old(sortOrderAscending) && bottomButtonIsEnabled == old(bottomButtonIsEnabled)
    {
      MoveItemInArray(sourceIndex, destinationIndex);
      TableFinishedUpdating();
    }

    /** `rowMoved(from:to:)` as `isDropAllowed(for:)` evidently intends: a drag is applied only
        when both ends are unchecked rows, and the ordering is kept. */
    method RowMovedWithinUnchecked(sourceIndex: int, destinationIndex: int)
      requires Valid()
      requires 0 <= sourceIndex < |shoppingList| && 0 <= destinationIndex < |shoppingList|
      modifies this
      ensures Valid()
      ensures IsDropAllowed(sourceIndex) && IsDropAllowed(destinationIndex) ==>
        shoppingList == Sequences.MoveItem(old(shoppingList), sourceIndex, destinationIndex)
      ensures !(IsDropAllowed(sourceIndex) && IsDropAllowed(destinationIndex)) ==> shoppingList == old(shoppingList)
      ensures storageCalls == old(storageCalls) + [SaveCall(currentListInfo, shoppingList, UpdateCurrent)]
      ensures !userIsTyping
      ensures uncheckedItemsCount == old(uncheckedItemsCount) && bindings == old(bindings)
      ensures currentListInfo == old(currentListInfo) && coordinatorCalls == old(coordinatorCalls)
      ensures sortOrderAscending == old(sortOrderAscending) && bottomButtonIsEnabled == old(bottomButtonIsEnabled)
    {
      if IsDropAllowed(sourceIndex) && IsDropAllowed(destinationIndex) {
        MoveWithinPrefix(shoppingList, IsChecked, uncheckedItemsCount, sourceIndex, destinationIndex);
        MoveItemInArray(sourceIndex, destinationIndex);
      }
      TableFinishedUpdating();
    }

    /** `doneButtonPressed()`: a completed list is restored and the app returns to the main
        screen; an active one asks for confirmation. */
    method DoneButtonPressed()
      modifies this
      ensures currentListInfo.completed ==>
        storageCalls == old(storageCalls) + [StorageCall.RestoreList(currentListInfo.listId)] &&
        coordinatorCalls == old(coordinatorCalls) + [PopToMainView]
      ensures !currentListInfo.completed ==>
        storageCalls == old(storageCalls) && coordinatorCalls == old(coordinatorCalls) + [ShowSuccessView]
      ensures shoppingList == old(shoppingList) && uncheckedItemsCount == old(uncheckedItemsCount)
      ensures currentListInfo == old(currentListInfo) && bindings == old(bindings)
      ensures sortOrderAscending == old(sortOrderAscending) && userIsTyping == old(userIsTyping)
      ensures bottomButtonIsEnabled == old(bottomButtonIsEnabled)
    {
      if currentListInfo.completed {
        storageCalls := storageCalls + [StorageCall.RestoreList(currentListInfo.listId)];
        coordinatorCalls := coordinatorCalls + [PopToMainView];
      } else {
        coordinatorCalls := coordinatorCalls + [ShowSuccessView];
      }
    }

    /** `deleteItemButtonPressed(in:)`, offered for item rows only: removes exactly that row and
        lowers the counter when the row was unchecked, which keeps an exact counter exact and an
        ordered table ordered. */
    method DeleteItemButtonPressed(row: int)
      requires 0 <= row < |shoppingList| - 1
      modifies this
      ensures old(Valid()) ==> Valid()
      ensures old(CounterIsExact()) ==> CounterIsExact()
      ensures shoppingList == Sequences.RemoveAt(old(shoppingList), row)
      ensures uncheckedItemsCount == old(uncheckedItemsCount) - (if old(shoppingList[row].checked) then 0 else 1)
      ensures bindings == old(bindings) + [RemoveItem(row)]
      ensures currentListInfo == old(currentListInfo) && storageCalls == old(storageCalls)
      ensures coordinatorCalls == old(coordinatorCalls) && sortOrderAscending == old(sortOrderAscending)
      ensures userIsTyping == old(userIsTyping) && bottomButtonIsEnabled == old(bottomButtonIsEnabled)
    {
      RemoveKeepsPrefix(shoppingList, IsChecked, uncheckedItemsCount, row);
      if !shoppingList[row].checked {
        uncheckedItemsCount := uncheckedItemsCount - 1;
      }
      shoppingList := Sequences.RemoveAt(shoppingList, row);
      bindings := bindings + [RemoveItem(row)];
    }

    /** `validateName(row:)`: reports whether the row's error changed. */
    method ValidateName(row: int) returns (changed: bool)
      requires 0 <= row < |shoppingList|
      modifies this
      ensures shoppingList == old(shoppingList)[row := ValidatedRow(old(shoppingList[row]))]
      ensures changed <==> old(shoppingList[row].error) != shoppingList[row].error
      ensures old(shoppingList[row].title).None? ==> !changed && shoppingList == old(shoppingList)
      ensures uncheckedItemsCount == old(uncheckedItemsCount) && bindings == old(bindings)
      ensures currentListInfo == old(currentListInfo) && storageCalls == old(storageCalls)
      ensures coordinatorCalls == old(coordinatorCalls) && sortOrderAscending == old(sortOrderAscending)
      ensures userIsTyping == old(userIsTyping) && bottomButtonIsEnabled == old(bottomButtonIsEnabled)
    {
      if shoppingList[row].title.None? {
        return false;
      }
      var oldErrorStatus := shoppingList[row].error;
      shoppingList := shoppingList[row := ValidatedRow(shoppingList[row])];
      return oldErrorStatus != shoppingList[row].error;
    }

    /** `updateShoppingListItem(in:with:)`: a changed error reloads the row and keeps the user
        typing; otherwise a changed title is saved and typing ends. */
    method UpdateShoppingListItem(row: int, title: string)
      requires 0 <= row < |shoppingList| - 1
      modifies this
      ensures old(Valid()) ==> Valid()
      ensures old(CounterIsExact()) ==> CounterIsExact()
      ensures shoppingList == old(shoppingList)[row := ValidatedRow(old(shoppingList[row]).(title := Some(title)))]
      ensures old(shoppingList[row].error) != shoppingList[row].error ==>
        bindings == old(bindings) + [UpdateItem([row], true)] &&
        storageCalls == old(storageCalls) && userIsTyping == old(userIsTyping)
      ensures old(shoppingList[row].error) == shoppingList[row].error ==>
        bindings == old(bindings) && !userIsTyping &&
        storageCalls == old(storageCalls) +
          (if old(shoppingList[row].title) != Some(title) then [SaveCall(currentListInfo, shoppingList, UpdateCurrent)] else [])
      ensures uncheckedItemsCount == old(uncheckedItemsCount) && currentListInfo == old(currentListInfo)
      ensures coordinatorCalls == old(coordinatorCalls) && sortOrderAscending == old(sortOrderAscending)
      ensures bottomButtonIsEnabled == old(bottomButtonIsEnabled)
    {
      var oldTitle := shoppingList[row].title;
      // the edited row keeps its check mark, so its place in the order and in the count
      ghost var validated := ValidatedRow(shoppingList[row].(title := Some(title)));
      assert validated.checked == shoppingList[row].checked;
      ReplaceKeepsPrefix(shoppingList, IsChecked, uncheckedItemsCount, row, validated);
      shoppingList := shoppingList[row := shoppingList[row].(title := Some(title))];
      var changed := ValidateName(row);
      assert shoppingList == old(shoppingList)[row := validated];
      ReportEdit(row, oldTitle, changed);
    }

    /** The end of `updateShoppingListItem(in:with:)`, once the row is stored: a changed error
        reloads the row; otherwise the list is saved when the title differs from `before`, and
        typing ends. */
    method ReportEdit(row: int, before: Option<string>, changed: bool)
      requires 0 <= row < |shoppingList|
      modifies this
      ensures shoppingList == old(shoppingList) && uncheckedItemsCount == old(uncheckedItemsCount)
      ensures changed ==>
        bindings == old(bindings) + [UpdateItem([row], true)] &&
        storageCalls == old(storageCalls) && userIsTyping == old(userIsTyping)
      ensures !changed ==>
        bindings == old(bindings) && !userIsTyping &&
        storageCalls == old(storageCalls) +
          (if before != shoppingList[row].title then [SaveCall(currentListInfo, shoppingList, UpdateCurrent)] else [])
      ensures currentListInfo == old(currentListInfo) && coordinatorCalls == old(coordinatorCalls)
      ensures sortOrderAscending == old(sortOrderAscending) && bottomButtonIsEnabled == old(bottomButtonIsEnabled)
    {
      if changed {
        bindings := bindings + [UpdateItem([row], true)];
      } else {
        if before != shoppingList[row].title {
          SaveListToStorage(UpdateCurrent);
        }
        userIsTyping := false;
      }
    }

    /** `textFieldDidBeginEditing()` */
    method TextFieldDidBeginEditing()
      modifies this
      ensures userIsTyping
      ensures shoppingList == old(shoppingList) && uncheckedItemsCount == old(uncheckedItemsCount)
      ensures currentListInfo == old(currentListInfo) && bindings == old(bindings)
      ensures storageCalls == old(storageCalls) && coordinatorCalls == old(coordinatorCalls)
      ensures sortOrderAscending == old(sortOrderAscending) && bottomButtonIsEnabled == old(bottomButtonIsEnabled)
    {
      userIsTyping := true;
    }

    /** `editQuantityButtonPressed(in:)`: ignored while typing. */
    method EditQuantityButtonPressed(row: int)
      requires 0 <= row < |shoppingList|
      modifies this
      ensures old(userIsTyping) ==> bindings == old(bindings)
      ensures !old(userIsTyping) ==> bindings == old(bindings) + [ShowPopUp(row, old(shoppingList[row].quantity), old(shoppingList[row].unit))]
      ensures shoppingList == old(shoppingList) && uncheckedItemsCount == old(uncheckedItemsCount)
      ensures currentListInfo == old(currentListInfo) && storageCalls == old(storageCalls)
      ensures coordinatorCalls == old(coordinatorCalls) && sortOrderAscending == old(sortOrderAscending)
      ensures userIsTyping == old(userIsTyping) && bottomButtonIsEnabled == old(bottomButtonIsEnabled)
    {
      if userIsTyping {
        return;
      }
      bindings := bindings + [ShowPopUp(row, shoppingList[row].quantity, shoppingList[row].unit)];
    }

    /** `checkBoxTapped(in:)`: ignored for a completed list or while typing; otherwise the row's
        mark flips, and the row is moved to the counter's boundary or reloaded in place as the
        tests against the counter decide. The counter follows the flip, so an exact counter
        stays exact; on an ordered table exactly a row not yet at the boundary moves, and the
        ordering is kept. */
    method CheckBoxTapped(row: int)
      requires 0 <= row < |shoppingList| - 1
      requires !(currentListInfo.completed || userIsTyping) && TapMoves(shoppingList, IsChecked, uncheckedItemsCount, row) ==>
        0 <= TapTarget(shoppingList, IsChecked, uncheckedItemsCount, row) < |shoppingList|
      modifies this
      ensures old(Valid()) ==> Valid()
      ensures old(CounterIsExact()) ==> CounterIsExact()
      ensures old(currentListInfo.completed || userIsTyping) ==>
        shoppingList == old(shoppingList) && uncheckedItemsCount == old(uncheckedItemsCount) && bindings == old(bindings)
      ensures !old(currentListInfo.completed || userIsTyping) ==>
        var wasChecked := old(shoppingList[row].checked);
        var target := TapTarget(old(shoppingList), IsChecked, old(uncheckedItemsCount), row);
        shoppingList == Tapped(old(shoppingList), IsChecked, old(uncheckedItemsCount), row, old(shoppingList[row]).(checked := !wasChecked)) &&
        uncheckedItemsCount == (if wasChecked then old(uncheckedItemsCount) + 1 else old(uncheckedItemsCount) - 1) &&
        bindings == old(bindings) +
          [if TapMoves(old(shoppingList), IsChecked, old(uncheckedItemsCount), row) then MoveItem(row, target) else UpdateItem([row], true)]
      ensures currentListInfo == old(currentListInfo) && storageCalls == old(storageCalls)
      ensures coordinatorCalls == old(coordinatorCalls) && sortOrderAscending == old(sortOrderAscending)
      ensures userIsTyping == old(userIsTyping) && bottomButtonIsEnabled == old(bottomButtonIsEnabled)
    {
      if !(currentListInfo.completed || userIsTyping) {
        var table, count, moves, target := TapRows(shoppingList, uncheckedItemsCount, row);
        shoppingList := table;
        bindings := bindings + [if moves then MoveItem(row, target) else UpdateItem([row], true)];
        uncheckedItemsCount := count;
      }
    }

    /** The table work of `checkBoxTapped(in:)`: the row's mark flips and the counter follows
        it; the row is then moved to the target or left in place as the tests against the
        counter decide. An exact counter stays exact, and an ordered table stays ordered. */
    static method TapRows(rows: seq<ShopRow>, u: int, row: int) returns (table: seq<ShopRow>, count: int, moves: bool, target: int)
      requires 0 <= row < |rows| - 1
      requires TapMoves(rows, IsChecked, u, row) ==> 0 <= TapTarget(rows, IsChecked, u, row) < |rows|
      ensures table == Tapped(rows, IsChecked, u, row, rows[row].(checked := !rows[row].checked))
      ensures count == (if rows[row].checked then u + 1 else u - 1)
      ensures moves == TapMoves(rows, IsChecked, u, row) && target == TapTarget(rows, IsChecked, u, row)
      ensures u == Sequences.Count(rows, Unchecked(IsChecked)) ==> count == Sequences.Count(table, Unchecked(IsChecked))
      ensures rows[|rows| - 1] == ButtonRow && UncheckedPrefix(rows, IsChecked, u) ==>
        table[|table| - 1] == ButtonRow && UncheckedPrefix(table, IsChecked, count)
    {
      var wasChecked := rows[row].checked;
      var toggled := rows[row].(checked := !wasChecked);
      target := if wasChecked then u else u - 1;
      moves := if wasChecked then row > u else row != u - 1;
      TapCount(rows, IsChecked, u, row, toggled);
      if rows[|rows| - 1] == ButtonRow && UncheckedPrefix(rows, IsChecked, u) {
        TapKeepsOrdering(rows, IsChecked, u, row, toggled, ButtonRow);
      }
      table := rows[row := toggled];
      if moves {
        table := Sequences.MoveItem(table, row, target);
      }
      count := if wasChecked then u + 1 else u - 1;
    }

    /** `addNewItemButtonPressed()`: ignored while typing or while some row is incomplete;
        otherwise an untitled unchecked row is inserted at the counter, which then grows by one,
        so an exact counter stays exact and on an ordered table the row joins the end of the
        unchecked rows. The new row is incomplete, so pressing again at once adds nothing. */
    method AddNewItemButtonPressed()
      requires !userIsTyping && ValidateList(shoppingList) ==> 0 <= uncheckedItemsCount <= |shoppingList|
      modifies this
      ensures old(Valid()) ==> Valid()
      ensures old(CounterIsExact()) ==> CounterIsExact()
      ensures old(userIsTyping) || !old(ValidateList(shoppingList)) ==>
        shoppingList == old(shoppingList) && uncheckedItemsCount == old(uncheckedItemsCount) && bindings == old(bindings)
      ensures !old(userIsTyping) && old(ValidateList(shoppingList)) ==>
        shoppingList == Sequences.InsertAt(old(shoppingList), NewItemRow, old(uncheckedItemsCount)) &&
        uncheckedItemsCount == old(uncheckedItemsCount) + 1 &&
        bindings == old(bindings) + [InsertItem(old(uncheckedItemsCount))]
      ensures !old(userIsTyping) ==> !ValidateList(shoppingList)
      ensures currentListInfo == old(currentListInfo) && storageCalls == old(storageCalls)
      ensures coordinatorCalls == old(coordinatorCalls) && sortOrderAscending == old(sortOrderAscending)
      ensures userIsTyping == old(userIsTyping) && bottomButtonIsEnabled == old(bottomButtonIsEnabled)
    {
      if !userIsTyping && ValidateList(shoppingList) {
        var index := uncheckedItemsCount;
        NewRowAtCounter(shoppingList, index);
        shoppingList := Sequences.InsertAt(shoppingList, NewItemRow, index);
        uncheckedItemsCount := index + 1;
        bindings := bindings + [InsertItem(index)];
        assert !IsComplete(shoppingList[index]);
      }
    }

    /** `unitSelected(item:unit:)`, from the picker opened on an item row. */
    method UnitSelected(item: int, unit: Unit)
      requires 0 <= item < |shoppingList| - 1
      modifies this
      ensures old(Valid()) ==> Valid()
      ensures old(CounterIsExact()) ==> CounterIsExact()
      ensures shoppingList == old(shoppingList)[item := old(shoppingList[item]).(unit := unit)]
      ensures bindings == old(bindings) + [UpdateItem([item], false)]
      ensures uncheckedItemsCount == old(uncheckedItemsCount)
      ensures currentListInfo == old(currentListInfo) && storageCalls == old(storageCalls)
      ensures coordinatorCalls == old(coordinatorCalls) && sortOrderAscending == old(sortOrderAscending)
      ensures userIsTyping == old(userIsTyping) && bottomButtonIsEnabled == old(bottomButtonIsEnabled)
    {
      var edited := shoppingList[item].(unit := unit);
      ReplaceKeepsPrefix(shoppingList, IsChecked, uncheckedItemsCount, item, edited);
      shoppingList := shoppingList[item := edited];
      bindings := bindings + [UpdateItem([item], false)];
    }

    /** `quantitySelected(item:quantity:)`, in tenths. */
    method QuantitySelected(item: int, quantity: int)
      requires 0 <= item < |shoppingList| - 1
      modifies this
      ensures old(Valid()) ==> Valid()
      ensures old(CounterIsExact()) ==> CounterIsExact()
      ensures shoppingList == old(shoppingList)[item := old(shoppingList[item]).(quantity := quantity)]
      ensures bindings == old(bindings) + [UpdateItem([item], false)]
      ensures uncheckedItemsCount == old(uncheckedItemsCount)
      ensures currentListInfo == old(currentListInfo) && storageCalls == old(storageCalls)
      ensures coordinatorCalls == old(coordinatorCalls) && sortOrderAscending == old(sortOrderAscending)
      ensures userIsTyping == old(userIsTyping) && bottomButtonIsEnabled == old(bottomButtonIsEnabled)
    {
      var edited := shoppingList[item].(quantity := quantity);
      ReplaceKeepsPrefix(shoppingList, IsChecked, uncheckedItemsCount, item, edited);
      shoppingList := shoppingList[item := edited];
      bindings := bindings + [UpdateItem([item], false)];
    }

    /** The loop of `confirmButtonPressed()` that clears the check mark of every item row. */
    static method UncheckItemRows(rows: seq<ShopRow>) returns (r: seq<ShopRow>)
      requires |rows| > 1
      ensures r == WithItemsChecked(rows, false)
    {
      r := rows;
      var index := 0;
      while index <= |rows| - 2
        invariant 0 <= index <= |rows| - 1
        invariant |r| == |rows|
        invariant forall k :: 0 <= k < |rows| ==> r[k] == if k < index then rows[k].(checked := false) else rows[k]
      {
        r := r[index := r[index].(checked := false)];
        index := index + 1;
      }
    }

    /** `confirmButtonPressed()`: a pinned list stays active as a template, with a completed copy
        saved under a new id and its own items unchecked; any other list is marked completed.
        Either way the list is saved and the app returns to the main screen. The counter is not
        updated when the items are unchecked, since the screen is being left. */
    method ConfirmButtonPressed(newId: ListId, now: Date)
      modifies this
      ensures old(currentListInfo.pinned) ==>
        currentListInfo == old(currentListInfo) &&
        shoppingList == WithItemsChecked(old(shoppingList), false) &&
        storageCalls == old(storageCalls) + [
          SaveCall(currentListInfo, old(shoppingList), DuplicatePinned(newId, now)),
          SaveCall(currentListInfo, shoppingList, UpdateCurrent)]
      ensures !old(currentListInfo.pinned) ==>
        currentListInfo == old(currentListInfo).SetCompleted(true) &&
        shoppingList == old(shoppingList) &&
        storageCalls == old(storageCalls) + [SaveCall(currentListInfo, shoppingList, UpdateCurrent)]
      ensures coordinatorCalls == old(coordinatorCalls) + [DismissPopupVC, SwitchToMainView]
      ensures uncheckedItemsCount == old(uncheckedItemsCount) && bindings == old(bindings)
      ensures sortOrderAscending == old(sortOrderAscending) && userIsTyping == old(userIsTyping)
      ensures bottomButtonIsEnabled == old(bottomButtonIsEnabled)
    {
      if currentListInfo.pinned {
        SaveListToStorage(DuplicatePinned(newId, now));
        if |shoppingList| > 1 {
          shoppingList := UncheckItemRows(shoppingList);
        }
      } else {
        currentListInfo := currentListInfo.SetCompleted(true);
      }
      SaveListToStorage(UpdateCurrent);
      coordinatorCalls := coordinatorCalls + [DismissPopupVC, SwitchToMainView];
    }

    /** `cancelButtonPressed()` */
    method CancelButtonPressed()
      modifies this
      ensures coordinatorCalls == old(coordinatorCalls) + [DismissPopupVC]
      ensures shoppingList == old(shoppingList) && uncheckedItemsCount == old(uncheckedItemsCount)
      ensures currentListInfo == old(currentListInfo) && bindings == old(bindings)
      ensures storageCalls == old(storageCalls) && sortOrderAscending == old(sortOrderAscending)
      ensures userIsTyping == old(userIsTyping) && bottomButtonIsEnabled == old(bottomButtonIsEnabled)
    {
      coordinatorCalls := coordinatorCalls + [DismissPopupVC];
    }
  }

  /** The row `addNewItemButtonPressed()` inserts at the counter adds one unchecked row on any
      table; on an ordered table it keeps the button row last and joins the end of the
      unchecked rows. */
  lemma NewRowAtCounter(rows: seq<ShopRow>, u: int)
    requires 0 <= u <= |rows|
    ensures Sequences.Count(Sequences.InsertAt(rows, NewItemRow, u), Unchecked(IsChecked)) ==
      Sequences.Count(rows, Unchecked(IsChecked)) + 1
    ensures |rows| >= 1 && rows[|rows| - 1] == ButtonRow && UncheckedPrefix(rows, IsChecked, u) ==>
      var table := Sequences.InsertAt(rows, NewItemRow, u);
      table[|table| - 1] == ButtonRow && UncheckedPrefix(table, IsChecked, u + 1)
  {
    Sequences.CountInsertAt(rows, NewItemRow, u, Unchecked(IsChecked));
    assert Unchecked(IsChecked)(NewItemRow) == !IsChecked(NewItemRow);
    if |rows| >= 1 && rows[|rows| - 1] == ButtonRow && UncheckedPrefix(rows, IsChecked, u) {
      InsertAtBoundary(rows, IsChecked, u, NewItemRow);
      Sequences.InsertAtShifts(rows, NewItemRow, u);
    }
  }

  /** The table lets any row be dragged: moving the checked row of [unchecked, checked, button]
      to the top leaves a checked row inside the unchecked prefix. */
  lemma RowMovedBreaksOrdering()
    ensures var rows := [ShopRow(false, Some("a"), 10, Piece, None), ShopRow(true, Some("b"), 10, Piece, None), ButtonRow];
      UncheckedPrefix(rows, IsChecked, 1) &&
      !UncheckedPrefix(Sequences.MoveItem(rows, 1, 0), IsChecked, 1)
  {
    var rows := [ShopRow(false, Some("a"), 10, Piece, None), ShopRow(true, Some("b"), 10, Piece, None), ButtonRow];
    assert Sequences.MoveItem(rows, 1, 0)[0] == rows[1];
  }
}
