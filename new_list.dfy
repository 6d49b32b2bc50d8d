/** `NewListViewModel`: the screen that creates a list or edits an existing one. Its table is
    `listItems`: row 0 is the list title, the last row is the "add product" button, and the rows
    in between are the items. Changes are announced by assigning to observables; here each
    assignment appends a `Directive`. The draft kept in `UserDefaults` is a `Defaults` object
    holding a key/value map. */
module NewList {
  import opened Optional
  import opened Sequences
  import opened Strings
  import opened LocalizedStrings
  import opened Units
  import opened ListInfos
  import opened Storage

  /** One table row (`NewListCellParams` as this view model fills it). The `row:` number given
      when a row is created is never read back and is left out. */
  datatype Row = Row(title: Option<string>, quantity: Option<int>, unit: Option<Unit>, checked: Option<bool>, error: Option<ErrorText>)

  /** `.init(row: 0)`: a title row nobody has typed into. */
  const EmptyRow: Row := Row(None, None, None, None, None)
  /** The trailing button row, `.init(row:, title: .buttonAddProduct)`. */
  const ButtonRow: Row := Row(Some(ButtonAddProduct), None, None, None, None)
  /** The row `addNewItemButtonPressed()` inserts: no title yet, one piece. */
  const NewItemRow: Row := Row(None, Some(1), Some(Piece), None, None)

  /** A title row, then any number of item rows, then the button row. */
  predicate WellFormed(rows: seq<Row>) {
    |rows| >= 2 && rows[|rows| - 1] == ButtonRow
  }

  // ---------------------------------------------------------------------------------------
  // Validation

  /** The error `validateName(row:)` attaches to a typed title, first matching rule first:
      empty, then (title row of a new list only) already used, then spaces only. */
  function NameError(title: string, checkDuplicate: bool, existingListNames: set<string>): (e: Option<ErrorText>)
    ensures e == Some(NewListEmptyName) <==> title == ""
    ensures e == Some(NewListNameAlreadyUsed) <==>
      title != "" && checkDuplicate && Lowercased(title) in existingListNames
    ensures e == Some(NewListWrongName) <==>
      title != "" && !(checkDuplicate && Lowercased(title) in existingListNames) && IsSpacesOnly(title)
    ensures e.None? <==>
      title != "" && !(checkDuplicate && Lowercased(title) in existingListNames) && !IsSpacesOnly(title)
  {
    RemovingSpacesIsEmpty(title);
    if title == "" then Some(NewListEmptyName)
    else if checkDuplicate && Lowercased(title) in existingListNames then Some(NewListNameAlreadyUsed)
    else if RemovingSpaces(title) == "" then Some(NewListWrongName)
    else None
  }

  /** `validateName(row:)` on one row: a row whose title is `nil` is left as it is; otherwise
      only its error is recomputed. */
  function ValidatedRow(r: Row, checkDuplicate: bool, existingListNames: set<string>): (v: Row)
    ensures r.title.None? ==> v == r
    ensures v.(error := r.error) == r
    ensures r.title.Some? ==> v.error == NameError(r.title.value, checkDuplicate, existingListNames)
  {
    if r.title.None? then r else r.(error := NameError(r.title.value, checkDuplicate, existingListNames))
  }

  /** A row that `validateList()` accepts. */
  predicate IsComplete(r: Row) {
    r.title.Some? && r.title.value != "" && r.error.None?
  }

  /** `validateList()`: no row whose title is `nil` or empty or that carries an error. The button
      row is included and always passes. */
  function ValidateList(rows: seq<Row>): (ok: bool)
    ensures ok <==> forall i :: 0 <= i < |rows| ==> IsComplete(rows[i])
  {
    FirstIndexWhere(rows, (r: Row) => r.title.None? || r.title == Some("") || r.error.Some?).None?
  }

  /** A validated row with a title is accepted exactly when its title breaks no rule. */
  lemma ValidatedRowIsComplete(r: Row, checkDuplicate: bool, existingListNames: set<string>)
    requires r.title.Some?
    ensures IsComplete(ValidatedRow(r, checkDuplicate, existingListNames)) <==>
      NameError(r.title.value, checkDuplicate, existingListNames).None?
  {
  }

  /** A list with a row nobody has typed into cannot be saved; this is why adding a row disables
      the complete button. */
  lemma {:induction false} UntitledRowBlocksSaving(rows: seq<Row>, i: nat)
    requires i <= |rows|
    ensures !ValidateList(InsertAt(rows, NewItemRow, i))
  {
    assert !IsComplete(InsertAt(rows, NewItemRow, i)[i]);
  }

  // ---------------------------------------------------------------------------------------
  // Rows loaded from the store, and the list built for saving

  /** The row `setListItems()` makes from a stored item; an unknown unit becomes a piece. */
  function StoredItemRow(item: ListItem): Row {
    Row(Some(item.name), Some(item.quantity), Some(FromRawValueOrPiece(item.unit)), Some(item.checked), None)
  }

  /** The item `buildNewList()` makes from an item row, with its defaults: the placeholder name,
      quantity 1, a piece, unchecked. */
  function ItemOf(r: Row): ListItem {
    ListItem(r.title.GetOr(NewListItemPlaceholder), r.quantity.GetOr(1), RawValue(r.unit.GetOr(Piece)), r.checked.GetOr(false))
  }

  /** Editing a stored list and saving it without changes writes back the same item; only a unit
      the app does not know comes back as a piece. */
  lemma StoredItemRoundTrip(item: ListItem)
    ensures ItemOf(StoredItemRow(item)) == item.(unit := RawValue(FromRawValueOrPiece(item.unit)))
    ensures FromRawValue(item.unit).Some? ==> ItemOf(StoredItemRow(item)) == item
  {
  }

  // ---------------------------------------------------------------------------------------
  // The draft kept in UserDefaults

  /** The keys of the app's `UserDefaults` domain: the draft's own keys
      (`newListInputsSaved`, `newListTitle`, `newListItemsCount`, `newListItem<i>.title`,
      `.quantity`, `.unit`) and any other key the app stores. */
  datatype DefaultsKey =
    | InputsSaved | ListTitle | ItemsCount
    | ItemTitle(i: int) | ItemQuantity(i: int) | ItemUnit(i: int)
    | OtherKey(name: string)

  datatype DefaultsValue = BoolValue(b: bool) | IntValue(n: int) | StringValue(s: string)

  /** `UserDefaults.standard`, shared by every screen. */
  class Defaults {
    var entries: map<DefaultsKey, DefaultsValue>

    constructor (entries: map<DefaultsKey, DefaultsValue>)
      ensures this.entries == entries
    {
      this.entries := entries;
    }
  }

  /** `bool(forKey:)`: `false` when nothing is stored. */
  function BoolFor(m: map<DefaultsKey, DefaultsValue>, k: DefaultsKey): bool {
    if k in m && m[k].BoolValue? then m[k].b else false
  }

  /** `integer(forKey:)`: `0` when nothing is stored. */
  function IntegerFor(m: map<DefaultsKey, DefaultsValue>, k: DefaultsKey): int {
    if k in m && m[k].IntValue? then m[k].n else 0
  }

  /** `string(forKey:)` */
  function StringFor(m: map<DefaultsKey, DefaultsValue>, k: DefaultsKey): Option<string> {
    if k in m && m[k].StringValue? then Some(m[k].s) else None
  }

  /** `set(_:forKey:)` with an optional value: storing `nil` removes the key. */
  function SetOptional(m: map<DefaultsKey, DefaultsValue>, k: DefaultsKey, v: Option<DefaultsValue>): map<DefaultsKey, DefaultsValue> {
    if v.Some? then m[k := v.value] else m - {k}
  }

  function StringValueOf(s: Option<string>): Option<DefaultsValue> {
    if s.Some? then Some(StringValue(s.value)) else None
  }

  function IntValueOf(n: Option<int>): Option<DefaultsValue> {
    if n.Some? then Some(IntValue(n.value)) else None
  }

  function UnitValueOf(u: Option<Unit>): Option<DefaultsValue> {
    if u.Some? then Some(StringValue(RawValue(u.value))) else None
  }

  /** One pass of `saveUserInputs()`'s loop: item `i`'s title, quantity and unit. */
  function WithItemSaved(m: map<DefaultsKey, DefaultsValue>, i: int, r: Row): map<DefaultsKey, DefaultsValue> {
    SetOptional(SetOptional(SetOptional(m,
      ItemTitle(i), StringValueOf(r.title)),
      ItemQuantity(i), IntValueOf(r.quantity)),
      ItemUnit(i), UnitValueOf(r.unit))
  }

  /** Items `1 ... n` of `rows` saved, in order. */
  function WithItemsSaved(m: map<DefaultsKey, DefaultsValue>, rows: seq<Row>, n: nat): map<DefaultsKey, DefaultsValue>
    requires n < |rows|
  {
    if n == 0 then m else WithItemSaved(WithItemsSaved(m, rows, n - 1), n, rows[n])
  }

  /** Whether `saveUserInputs()` keeps a draft: only for a new list, and only once a title was
      typed or an item was added. */
  predicate KeepsDraft(createMode: bool, rows: seq<Row>)
    requires WellFormed(rows)
  {
    createMode && (rows[0].title.Some? || |rows| > 2)
  }

  /** The entries `saveUserInputs()` leaves behind. When it keeps no draft it writes only the
      "not saved" flag. */
  function EntriesAfterSave(m: map<DefaultsKey, DefaultsValue>, createMode: bool, rows: seq<Row>): map<DefaultsKey, DefaultsValue>
    requires WellFormed(rows)
  {
    if !KeepsDraft(createMode, rows) then m[InputsSaved := BoolValue(false)]
    else
      var head := SetOptional(m[InputsSaved := BoolValue(true)], ListTitle, StringValueOf(rows[0].title));
      WithItemsSaved(head[ItemsCount := IntValue(|rows| - 2)], rows, |rows| - 2)
  }

  /** The item row `restoreUserInputs()` reads back for item `i`: a missing quantity reads as 0,
      a missing or unknown unit as a piece; the row is unchecked. */
  function RestoredItem(m: map<DefaultsKey, DefaultsValue>, i: int): Row {
    Row(StringFor(m, ItemTitle(i)),
        Some(IntegerFor(m, ItemQuantity(i))),
        Some(FromRawValueOrPiece(StringFor(m, ItemUnit(i)).GetOr(RawValue(Piece)))),
        Some(false),
        None)
  }

  /** Items `1 ... n` read back, in order. */
  function RestoredItems(m: map<DefaultsKey, DefaultsValue>, n: nat): (rows: seq<Row>)
    ensures |rows| == n
  {
    if n == 0 then [] else RestoredItems(m, n - 1) + [RestoredItem(m, n)]
  }

  /** The rows `restoreUserInputs()` builds: the empty draft unless the "saved" flag is set. */
  function RestoredRows(m: map<DefaultsKey, DefaultsValue>): (rows: seq<Row>)
    ensures WellFormed(rows)
  {
    if !BoolFor(m, InputsSaved) then [EmptyRow, ButtonRow]
    else
      var count := IntegerFor(m, ItemsCount);
      [Row(StringFor(m, ListTitle), None, None, None, None)]
        + RestoredItems(m, if count > 0 then count else 0) + [ButtonRow]
  }

  /** The entries after `restoreUserInputs()`: a restored draft clears the whole domain. */
  function EntriesAfterRestore(m: map<DefaultsKey, DefaultsValue>): map<DefaultsKey, DefaultsValue> {
    if BoolFor(m, InputsSaved) then map[] else m
  }

  /** What a draft keeps of a row: its title, quantity (0 when unset) and unit (a piece when
      unset); check marks and errors are not kept. */
  function Normalized(r: Row): Row {
    Row(r.title, Some(r.quantity.GetOr(0)), Some(r.unit.GetOr(Piece)), Some(false), None)
  }

  /** The draft of a table: its title, its normalized items, the button row. */
  function DraftOf(rows: seq<Row>): (d: seq<Row>)
    requires WellFormed(rows)
    ensures WellFormed(d) && |d| == |rows|
  {
    [Row(rows[0].title, None, None, None, None)]
      + seq(|rows| - 2, k requires 0 <= k < |rows| - 2 => Normalized(rows[k + 1]))
      + [ButtonRow]
  }

  /** A draft key of an item numbered `1 ... n`. */
  predicate IsItemKeyUpTo(k: DefaultsKey, n: int) {
    (k.ItemTitle? || k.ItemQuantity? || k.ItemUnit?) && 1 <= k.i <= n
  }

  lemma {:induction false} ItemsSavedKeepOtherKeys(m: map<DefaultsKey, DefaultsValue>, rows: seq<Row>, n: nat, k: DefaultsKey)
    requires n < |rows| && !IsItemKeyUpTo(k, n)
    ensures k in WithItemsSaved(m, rows, n) <==> k in m
    ensures k in m ==> WithItemsSaved(m, rows, n)[k] == m[k]
  {
    if n > 0 {
      ItemsSavedKeepOtherKeys(m, rows, n - 1, k);
    }
  }

  /** Saving item `i` and reading it back gives its normalized row. */
  lemma ItemSavedReadBack(m: map<DefaultsKey, DefaultsValue>, i: int, r: Row)
    ensures RestoredItem(WithItemSaved(m, i, r), i) == Normalized(r)
  {
    if r.unit.Some? {
      assert FromRawValueOrPiece(RawValue(r.unit.value)) == r.unit.value;
    }
  }

  /** Saving item `i` leaves what item `j` reads back alone. */
  lemma ItemSavedKeepsOthers(m: map<DefaultsKey, DefaultsValue>, i: int, r: Row, j: int)
    requires i != j
    ensures RestoredItem(WithItemSaved(m, i, r), j) == RestoredItem(m, j)
  {
    var m' := WithItemSaved(m, i, r);
    assert ItemTitle(j) in m' <==> ItemTitle(j) in m;
    assert ItemQuantity(j) in m' <==> ItemQuantity(j) in m;
    assert ItemUnit(j) in m' <==> ItemUnit(j) in m;
  }

  lemma {:induction false} ItemsSavedReadBack(m: map<DefaultsKey, DefaultsValue>, rows: seq<Row>, n: nat, i: int)
    requires n < |rows| && 1 <= i <= n
    ensures RestoredItem(WithItemsSaved(m, rows, n), i) == Normalized(rows[i])
  {
    var before := WithItemsSaved(m, rows, n - 1);
    assert WithItemsSaved(m, rows, n) == WithItemSaved(before, n, rows[n]);
    if i < n {
      ItemsSavedReadBack(m, rows, n - 1, i);
      ItemSavedKeepsOthers(before, n, rows[n], i);
    } else {
      ItemSavedReadBack(before, n, rows[n]);
    }
  }

  lemma {:induction false} RestoredItemsOfSaved(m: map<DefaultsKey, DefaultsValue>, rows: seq<Row>, n: nat, j: nat)
    requires n < |rows| && j <= n
    ensures forall k :: 0 <= k < j ==> RestoredItems(WithItemsSaved(m, rows, n), j)[k] == Normalized(rows[k + 1])
  {
    if j > 0 {
      var w := WithItemsSaved(m, rows, n);
      RestoredItemsOfSaved(m, rows, n, j - 1);
      ItemsSavedReadBack(m, rows, n, j);
      assert RestoredItems(w, j) == RestoredItems(w, j - 1) + [RestoredItem(w, j)];
      forall k | 0 <= k < j
        ensures RestoredItems(w, j)[k] == Normalized(rows[k + 1])
      {
        if k < j - 1 {
          assert RestoredItems(w, j)[k] == RestoredItems(w, j - 1)[k];
        }
      }
    }
  }

  /** Leaving the create screen and coming back restores the draft: every item's title,
      quantity and unit, in order, under the same list title. */
  lemma DraftRoundTrip(m: map<DefaultsKey, DefaultsValue>, rows: seq<Row>)
    requires WellFormed(rows)
    ensures RestoredRows(EntriesAfterSave(m, true, rows)) == DraftOf(rows)
  {
    var after := EntriesAfterSave(m, true, rows);
    var n := |rows| - 2;
    if KeepsDraft(true, rows) {
      var head := SetOptional(m[InputsSaved := BoolValue(true)], ListTitle, StringValueOf(rows[0].title));
      var start := head[ItemsCount := IntValue(n)];
      assert after == WithItemsSaved(start, rows, n);
      ItemsSavedKeepOtherKeys(start, rows, n, InputsSaved);
      ItemsSavedKeepOtherKeys(start, rows, n, ItemsCount);
      ItemsSavedKeepOtherKeys(start, rows, n, ListTitle);
      assert BoolFor(after, InputsSaved) && IntegerFor(after, ItemsCount) == n;
      assert StringFor(after, ListTitle) == rows[0].title;
      var items := RestoredItems(after, n);
      RestoredItemsOfSaved(start, rows, n, n);
      assert items == seq(n, k requires 0 <= k < n => Normalized(rows[k + 1]));
      assert RestoredRows(after) == [Row(rows[0].title, None, None, None, None)] + items + [ButtonRow];
    } else {
      assert n == 0;
    }
  }

  /** A restore consumes the draft: restoring a second time gives the empty draft. */
  lemma SecondRestoreIsEmpty(m: map<DefaultsKey, DefaultsValue>)
    ensures RestoredRows(EntriesAfterRestore(m)) == [EmptyRow, ButtonRow]
  {
  }

  // ---------------------------------------------------------------------------------------
  // The view model

  /** The values assigned to the view model's observables, as directives. */
  datatype Directive =
    | InteractionEnabled(enabled: bool)            // userInteractionEnabled
    | SwitchToMainView(done: bool)                 // switchToMainView
    | CompleteButtonState(enabled: bool)           // needToUpdateCompleteButtonState
    | ShowPopUp(row: int, quantity: int, unit: Unit) // needToShowPopUp
    | UpdateItem(row: int, animated: bool)         // needToUpdateItem
    | InsertItem(row: int)                         // needToInsertItem
    | RemoveItem(row: int)                         // needToRemoveItem

  /** `NewListCellType` */
  datatype CellType = TitleCell | ItemCell | ButtonCell

  /** The `NewListCellParams` handed to a cell. */
  datatype CellParams = CellParams(row: int, title: Option<string>, quantity: Option<int>, unit: Option<Unit>, error: Option<ErrorText>)

  /** What `updateCompleteButtonState()` emits: the new flag, only when it changes. */
  function ButtonStateChange(was: bool, now: bool): seq<Directive> {
    if was != now then [CompleteButtonState(now)] else []
  }

  /** What a title edit emits when the row's error changed: block input, reload the row. */
  function ErrorChange(row: int, was: Option<ErrorText>, now: Option<ErrorText>): seq<Directive> {
    if was != now then [InteractionEnabled(false), UpdateItem(row, true)] else []
  }

  class NewListViewModel {
    /** The id of the list being edited; `None` creates a new list. */
    const editList: Option<ListId>
    const defaults: Defaults
    /** Lower-cased titles of the active lists. */
    var existingListNames: set<string>
    var listItems: seq<Row>
    /** The stored list being edited, as the store returned it. */
    var editedList: Option<ShopList>
    /** `switchToMainView.value` */
    var switchToMainView: bool
    /** `needToUpdateCompleteButtonState.value`: whether the complete button is enabled. */
    var completeButtonEnabled: bool
    /** Every assignment to an observable, oldest first. */
    var directives: seq<Directive>
    var storageCalls: seq<StorageCall>

    predicate Valid()
      reads this
    {
      WellFormed(listItems)
    }

    constructor (editList: Option<ListId>, defaults: Defaults)
      ensures this.editList == editList && this.defaults == defaults
      ensures existingListNames == {} && listItems == [] && editedList.None?
      ensures !switchToMainView && !completeButtonEnabled
      ensures directives == [] && storageCalls == []
    {
      this.editList := editList;
      this.defaults := defaults;
      existingListNames := {};
      listItems := [];
      editedList := None;
      switchToMainView := false;
      completeButtonEnabled := false;
      directives := [];
      storageCalls := [];
    }

    /** `viewWillAppear()`: `stored` is the store's answer to `getList(by: editList)` (consulted in
        edit mode only) and `names` its `getExistingListNames()`. */
    method ViewWillAppear(stored: Option<ShopList>, names: set<string>)
      modifies this, defaults
      ensures Valid()
      ensures completeButtonEnabled == ValidateList(listItems)
      ensures existingListNames == names
      ensures editList.None? ==> listItems == RestoredRows(old(defaults.entries))
      ensures editList.None? ==> defaults.entries == EntriesAfterRestore(old(defaults.entries)) && editedList == old(editedList)
      ensures editList.Some? ==> editedList == stored && defaults.entries == old(defaults.entries)
      ensures editList.Some? ==> listItems[0] == Row(if stored.Some? then Some(stored.value.info.title) else None, None, None, None, None)
      ensures editList.Some? && stored.None? ==> listItems == [EmptyRow, ButtonRow]
      ensures editList.Some? && stored.Some? ==>
        |listItems| == |stored.value.items| + 2 &&
        forall k :: 0 <= k < |stored.value.items| ==> listItems[k + 1] == StoredItemRow(stored.value.items[k])
      ensures directives == old(directives) + ButtonStateChange(old(completeButtonEnabled), ValidateList(listItems))
      ensures storageCalls == old(storageCalls) && switchToMainView == old(switchToMainView)
    {
      SetListItems(stored);
      UpdateCompleteButtonState();
      existingListNames := names;
    }

    /** The table `setListItems()` builds in edit mode from the store's answer: the list's title,
        one row per stored item in order, and the button row. */
    static method StoredRows(stored: Option<ShopList>) returns (rows: seq<Row>)
      ensures WellFormed(rows)
      ensures rows[0] == Row(if stored.Some? then Some(stored.value.info.title) else None, None, None, None, None)
      ensures stored.None? ==> rows == [EmptyRow, ButtonRow]
      ensures stored.Some? ==>
        |rows| == |stored.value.items| + 2 &&
        forall k :: 0 <= k < |stored.value.items| ==> rows[k + 1] == StoredItemRow(stored.value.items[k])
    {
      rows := [Row(if stored.Some? then Some(stored.value.info.title) else None, None, None, None, None)];
      var items := if stored.Some? then stored.value.items else [];
      var i := 0;
      while i < |items|
        invariant 0 <= i <= |items|
        invariant |rows| == i + 1
        invariant rows[0] == Row(if stored.Some? then Some(stored.value.info.title) else None, None, None, None, None)
        invariant forall k :: 0 <= k < i ==> rows[k + 1] == StoredItemRow(items[k])
      {
        rows := rows + [StoredItemRow(items[i])];
        i := i + 1;
      }
      rows := rows + [ButtonRow];
    }

    /** `setListItems()`: in edit mode the title row, one row per stored item in order, and the
        button row; in create mode the restored draft. */
    method SetListItems(stored: Option<ShopList>)
      modifies this, defaults
      ensures Valid()
      ensures editList.None? ==> listItems == RestoredRows(old(defaults.entries))
      ensures editList.None? ==> defaults.entries == EntriesAfterRestore(old(defaults.entries))
      ensures editList.None? ==> editedList == old(editedList)
      ensures editList.Some? ==> editedList == stored && defaults.entries == old(defaults.entries)
      ensures editList.Some? ==> listItems[0] == Row(if stored.Some? then Some(stored.value.info.title) else None, None, None, None, None)
      ensures editList.Some? && stored.None? ==> listItems == [EmptyRow, ButtonRow]
      ensures editList.Some? && stored.Some? ==>
        |listItems| == |stored.value.items| + 2 &&
        forall k :: 0 <= k < |stored.value.items| ==> listItems[k + 1] == StoredItemRow(stored.value.items[k])
      ensures completeButtonEnabled == old(completeButtonEnabled) && directives == old(directives)
      ensures storageCalls == old(storageCalls) && existingListNames == old(existingListNames)
      ensures switchToMainView == old(switchToMainView)
    {
      if editList.None? {
        RestoreUserInputs();
        return;
      }
      editedList := stored;
      listItems := StoredRows(stored);
    }

    /** The loop of `restoreUserInputs()`: items `1 ... count` read back, in order. */
    static method ReadItems(m: map<DefaultsKey, DefaultsValue>, itemsCount: nat) returns (items: seq<Row>)
      ensures items == RestoredItems(m, itemsCount)
    {
      items := [];
      var i := 1;
      while i <= itemsCount
        invariant 1 <= i <= itemsCount + 1
        invariant items == RestoredItems(m, i - 1)
      {
        items := items + [RestoredItem(m, i)];
        i := i + 1;
      }
    }

    /** `restoreUserInputs()` */
    method RestoreUserInputs()
      modifies this, defaults
      ensures listItems == RestoredRows(old(defaults.entries))
      ensures defaults.entries == EntriesAfterRestore(old(defaults.entries))
      ensures editedList == old(editedList) && completeButtonEnabled == old(completeButtonEnabled)
      ensures directives == old(directives) && storageCalls == old(storageCalls)
      ensures existingListNames == old(existingListNames) && switchToMainView == old(switchToMainView)
    {
      var m := defaults.entries;
      if !BoolFor(m, InputsSaved) {
        listItems := [EmptyRow, ButtonRow];
        return;
      }
      var rows := [Row(StringFor(m, ListTitle), None, None, None, None)];
      var itemsCount := IntegerFor(m, ItemsCount);
      if itemsCount > 0 {
        var items := ReadItems(m, itemsCount);
        rows := rows + items;
      }
      listItems := rows + [ButtonRow];
      defaults.entries := map[];
    }

    /** `saveUserInputs()` */
    method SaveUserInputs()
      requires Valid()
      modifies defaults
      ensures defaults.entries == EntriesAfterSave(old(defaults.entries), editList.None?, listItems)
    {
      if !(editList.None? && (listItems[0].title.Some? || |listItems| > 2)) {
        defaults.entries := defaults.entries[InputsSaved := BoolValue(false)];
        return;
      }
      defaults.entries := defaults.entries[InputsSaved := BoolValue(true)];
      defaults.entries := SetOptional(defaults.entries, ListTitle, StringValueOf(listItems[0].title));
      var itemsCount := |listItems| - 2;
      defaults.entries := defaults.entries[ItemsCount := IntValue(itemsCount)];
      ghost var start := defaults.entries;
      if itemsCount > 0 {
        var i := 1;
        while i <= itemsCount
          invariant 1 <= i <= itemsCount + 1
          invariant defaults.entries == WithItemsSaved(start, listItems, i - 1)
        {
          defaults.entries := WithItemSaved(defaults.entries, i, listItems[i]);
          i := i + 1;
        }
      }
    }

    /** `viewWillDisappear()`: the draft is kept only while the list has not been completed. */
    method ViewWillDisappear()
      requires Valid()
      modifies defaults
      ensures switchToMainView ==> defaults.entries == old(defaults.entries)
      ensures !switchToMainView ==> defaults.entries == EntriesAfterSave(old(defaults.entries), editList.None?, listItems)
    {
      if !switchToMainView {
        SaveUserInputs();
      }
    }

    /** `getListTitle()` */
    function GetListTitle(): string
      reads this
    {
      if editList.None? then NewListCreationTitle else ButtonEdit
    }

    function GetTableRowCount(): int
      reads this
    {
      |listItems|
    }

    /** `getRowHeight(for:)`: the button row is 76 points; the title row 60 and an item row 52,
        each taller (87 and 81) while it shows an error caption. */
    function GetRowHeight(row: int): (h: int)
      requires Valid() && 0 <= row < |listItems|
      reads this
      ensures row == |listItems| - 1 ==> h == 76
      ensures row == 0 ==> (h == 87 <==> listItems[0].error.Some?) && (h == 60 <==> listItems[0].error.None?)
      ensures 0 < row < |listItems| - 1 ==> (h == 81 <==> listItems[row].error.Some?) && (h == 52 <==> listItems[row].error.None?)
    {
      if row == 0 then (if listItems[row].error.None? then 60 else 87)
      else if row == |listItems| - 1 then 76
      else (if listItems[row].error.None? then 52 else 81)
    }

    /** `getCellParams(for:)`: row 0 is the title cell, the last row the button cell, the rest items. */
    function GetCellParams(row: int): (p: (CellType, CellParams))
      requires Valid() && 0 <= row < |listItems|
      reads this
      ensures p.0 == TitleCell <==> row == 0
      ensures p.0 == ButtonCell <==> row == |listItems| - 1
      ensures p.1 == CellParams(row, listItems[row].title, listItems[row].quantity, listItems[row].unit, listItems[row].error)
    {
      (if row == 0 then TitleCell else if row == |listItems| - 1 then ButtonCell else ItemCell,
       CellParams(row, listItems[row].title, listItems[row].quantity, listItems[row].unit, listItems[row].error))
    }

    /** `tableFinishedUpdating()` */
    method TableFinishedUpdating()
      modifies this
      ensures directives == old(directives) + [InteractionEnabled(true)]
      ensures listItems == old(listItems) && completeButtonEnabled == old(completeButtonEnabled)
      ensures storageCalls == old(storageCalls) && switchToMainView == old(switchToMainView)
      ensures editedList == old(editedList) && existingListNames == old(existingListNames)
    {
      directives := directives + [InteractionEnabled(true)];
    }

    /** `updateCompleteButtonState()`: afterwards the flag equals `validateList()`. */
    method UpdateCompleteButtonState()
      modifies this
      ensures completeButtonEnabled == ValidateList(listItems)
      ensures directives == old(directives) + ButtonStateChange(old(completeButtonEnabled), ValidateList(listItems))
      ensures listItems == old(listItems) && storageCalls == old(storageCalls)
      ensures switchToMainView == old(switchToMainView)
      ensures editedList == old(editedList) && existingListNames == old(existingListNames)
    {
      var ok := ValidateList(listItems);
      if completeButtonEnabled != ok {
        completeButtonEnabled := ok;
        directives := directives + [CompleteButtonState(ok)];
      }
    }

    /** `validateName(row:)`: only row 0 of a list not loaded from the store is checked for a
        name already in use. */
    method ValidateName(row: int)
      requires 0 <= row < |listItems|
      modifies this
      ensures listItems == old(listItems[row := ValidatedRow(listItems[row], row == 0 && editedList.None?, existingListNames)])
      ensures directives == old(directives) && completeButtonEnabled == old(completeButtonEnabled)
      ensures storageCalls == old(storageCalls) && switchToMainView == old(switchToMainView)
      ensures editedList == old(editedList) && existingListNames == old(existingListNames)
    {
      listItems := listItems[row := ValidatedRow(listItems[row], row == 0 && editedList.None?, existingListNames)];
    }

    /** `updateNewListTitle(with:)`: reloads row 0 exactly when its error changed and recomputes
        the complete button exactly when its title changed. */
    method UpdateNewListTitle(title: Option<string>)
      requires Valid()
      modifies this
      ensures Valid()
      ensures listItems == old(listItems[0 := ValidatedRow(listItems[0].(title := title), editedList.None?, existingListNames)])
      ensures old(listItems[0].title) != title ==>
        completeButtonEnabled == ValidateList(listItems) &&
        directives == old(directives) + ErrorChange(0, old(listItems[0].error), listItems[0].error)
          + ButtonStateChange(old(completeButtonEnabled), ValidateList(listItems))
      ensures old(listItems[0].title) == title ==>
        completeButtonEnabled == old(completeButtonEnabled) &&
        directives == old(directives) + ErrorChange(0, old(listItems[0].error), listItems[0].error)
      ensures storageCalls == old(storageCalls) && switchToMainView == old(switchToMainView)
      ensures editedList == old(editedList) && existingListNames == old(existingListNames)
    {
      var oldListTitleState := listItems[0];
      listItems := listItems[0 := listItems[0].(title := title)];
      ValidateName(0);
      directives := directives + ErrorChange(0, oldListTitleState.error, listItems[0].error);
      if oldListTitleState.title != listItems[0].title {
        UpdateCompleteButtonState();
      }
    }

    /** `updateNewListItem(in:with:)`: the same for an item row, which is never checked for a
        name already in use. */
    method UpdateNewListItem(row: int, title: Option<string>)
      requires Valid() && 0 < row < |listItems| - 1
      modifies this
      ensures Valid()
      ensures listItems == old(listItems[row := ValidatedRow(listItems[row].(title := title), false, existingListNames)])
      ensures old(listItems[row].title) != title ==>
        completeButtonEnabled == ValidateList(listItems) &&
        directives == old(directives) + ErrorChange(row, old(listItems[row].error), listItems[row].error)
          + ButtonStateChange(old(completeButtonEnabled), ValidateList(listItems))
      ensures old(listItems[row].title) == title ==>
        completeButtonEnabled == old(completeButtonEnabled) &&
        directives == old(directives) + ErrorChange(row, old(listItems[row].error), listItems[row].error)
      ensures storageCalls == old(storageCalls) && switchToMainView == old(switchToMainView)
      ensures editedList == old(editedList) && existingListNames == old(existingListNames)
    {
      var oldItemState := listItems[row];
      listItems := listItems[row := listItems[row].(title := title)];
      ValidateName(row);
      directives := directives + ErrorChange(row, oldItemState.error, listItems[row].error);
      if oldItemState.title != listItems[row].title {
        UpdateCompleteButtonState();
      }
    }

    /** `editQuantityButtonPressed(in:)`: opens the picker on the row's quantity and unit,
        1 piece when unset. */
    method EditQuantityButtonPressed(row: int)
      requires 0 <= row < |listItems|
      modifies this
      ensures directives == old(directives) + [ShowPopUp(row, old(listItems[row].quantity.GetOr(1)), old(listItems[row].unit.GetOr(Piece)))]
      ensures listItems == old(listItems) && completeButtonEnabled == old(completeButtonEnabled)
      ensures storageCalls == old(storageCalls) && switchToMainView == old(switchToMainView)
      ensures editedList == old(editedList) && existingListNames == old(existingListNames)
    {
      directives := directives + [ShowPopUp(row, listItems[row].quantity.GetOr(1), listItems[row].unit.GetOr(Piece))];
    }

    /** `addNewItemButtonPressed()`: one untitled row just before the button row. Its missing
        title disables the complete button. */
    method AddNewItemButtonPressed()
      requires Valid()
      modifies this
      ensures Valid()
      ensures listItems == InsertAt(old(listItems), NewItemRow, |old(listItems)| - 1)
      ensures !completeButtonEnabled
      ensures directives == old(directives) + [InteractionEnabled(false), InsertItem(|old(listItems)| - 1)]
        + ButtonStateChange(old(completeButtonEnabled), false)
      ensures storageCalls == old(storageCalls) && switchToMainView == old(switchToMainView)
      ensures editedList == old(editedList) && existingListNames == old(existingListNames)
    {
      listItems := InsertAt(listItems, NewItemRow, |listItems| - 1);
      directives := directives + [InteractionEnabled(false), InsertItem(|listItems| - 2)];
      UntitledRowBlocksSaving(old(listItems), |old(listItems)| - 1);
      UpdateCompleteButtonState();
    }

    /** `deleteItemButtonPressed(in:)`: offered only for item rows; removes exactly that row. */
    method DeleteItemButtonPressed(row: int)
      requires Valid() && 0 < row < |listItems| - 1
      modifies this
      ensures Valid()
      ensures listItems == RemoveAt(old(listItems), row)
      ensures completeButtonEnabled == ValidateList(listItems)
      ensures directives == old(directives) + [InteractionEnabled(false), RemoveItem(row)]
        + ButtonStateChange(old(completeButtonEnabled), ValidateList(listItems))
      ensures storageCalls == old(storageCalls) && switchToMainView == old(switchToMainView)
      ensures editedList == old(editedList) && existingListNames == old(existingListNames)
    {
      listItems := RemoveAt(listItems, row);
      directives := directives + [InteractionEnabled(false), RemoveItem(row)];
      UpdateCompleteButtonState();
    }

    /** `unitSelected(item:unit:)`, called back by the picker, which is opened on item rows only. */
    method UnitSelected(item: int, unit: Unit)
      requires Valid() && 0 < item < |listItems| - 1
      modifies this
      ensures Valid()
      ensures listItems == old(listItems[item := listItems[item].(unit := Some(unit))])
      ensures directives == old(directives) + [UpdateItem(item, false)]
      ensures completeButtonEnabled == old(completeButtonEnabled)
      ensures storageCalls == old(storageCalls) && switchToMainView == old(switchToMainView)
      ensures editedList == old(editedList) && existingListNames == old(existingListNames)
    {
      listItems := listItems[item := listItems[item].(unit := Some(unit))];
      directives := directives + [UpdateItem(item, false)];
    }

    /** `quantitySelected(item:quantity:)`, called back by the picker. */
    method QuantitySelected(item: int, quantity: int)
      requires Valid() && 0 < item < |listItems| - 1
      modifies this
      ensures Valid()
      ensures listItems == old(listItems[item := listItems[item].(quantity := Some(quantity))])
      ensures directives == old(directives) + [UpdateItem(item, false)]
      ensures completeButtonEnabled == old(completeButtonEnabled)
      ensures storageCalls == old(storageCalls) && switchToMainView == old(switchToMainView)
      ensures editedList == old(editedList) && existingListNames == old(existingListNames)
    {
      listItems := listItems[item := listItems[item].(quantity := Some(quantity))];
      directives := directives + [UpdateItem(item, false)];
    }

    /** `buildNewList()`: one stored item per item row, none when there are no item rows.
        `newId` and `now` stand for the `UUID()` and `Date()` it creates; a new list is neither
        completed nor pinned, an edited one keeps the stored flags and date. */
    method BuildNewList(newId: ListId, now: Date) returns (list: ShopList)
      requires Valid()
      ensures |list.items| == |listItems| - 2
      ensures forall k :: 0 <= k < |list.items| ==> list.items[k] == ItemOf(listItems[k + 1])
      ensures list.info.listId == editList.GetOr(newId)
      ensures list.info.title == listItems[0].title.GetOr(NewListCreationTitle)
      ensures list.info.date == (if editedList.Some? then editedList.value.info.date else now)
      ensures list.info.completed <==> editList.Some? && editedList.Some? && editedList.value.info.completed
      ensures list.info.pinned <==> editList.Some? && editedList.Some? && editedList.value.info.pinned
    {
      var newListItems: seq<ListItem> := [];
      if |listItems| > 2 {
        var i := 1;
        while i <= |listItems| - 2
          invariant 1 <= i <= |listItems| - 1
          invariant |newListItems| == i - 1
          invariant forall k :: 0 <= k < i - 1 ==> newListItems[k] == ItemOf(listItems[k + 1])
        {
          newListItems := newListItems + [ItemOf(listItems[i])];
          i := i + 1;
        }
      }
      var info := ListInfo(
        editList.GetOr(newId),
        listItems[0].title.GetOr(NewListCreationTitle),
        if editedList.Some? then editedList.value.info.date else now,
        if editList.None? then false else (editedList.Some? && editedList.value.info.completed),
        if editList.None? then false else (editedList.Some? && editedList.value.info.pinned));
      list := ShopList(info, newListItems);
    }

    /** `completeButtonPressed()`: a new list is saved, an edited one replaced, and the screen
        asks to go back. */
    method CompleteButtonPressed(newId: ListId, now: Date)
      requires Valid()
      modifies this
      ensures switchToMainView
      ensures |storageCalls| == |old(storageCalls)| + 1 && storageCalls[..|old(storageCalls)|] == old(storageCalls)
      ensures var call := storageCalls[|old(storageCalls)|];
        (editList.None? <==> call.SaveNewList?) && (editList.Some? <==> call.UpdateList?) &&
        |call.list.items| == |listItems| - 2 &&
        (forall k :: 0 <= k < |call.list.items| ==> call.list.items[k] == ItemOf(listItems[k + 1])) &&
        call.list.info.listId == editList.GetOr(newId) &&
        call.list.info.title == listItems[0].title.GetOr(NewListCreationTitle) &&
        call.list.info.date == (if editedList.Some? then editedList.value.info.date else now) &&
        (call.list.info.completed <==> editList.Some? && editedList.Some? && editedList.value.info.completed) &&
        (call.list.info.pinned <==> editList.Some? && editedList.Some? && editedList.value.info.pinned)
      ensures directives == old(directives) + [SwitchToMainView(true)]
      ensures listItems == old(listItems) && completeButtonEnabled == old(completeButtonEnabled)
      ensures editedList == old(editedList) && existingListNames == old(existingListNames)
    {
      var list := BuildNewList(newId, now);
      storageCalls := storageCalls + [if editList.None? then SaveNewList(list) else UpdateList(list)];
      switchToMainView := true;
      directives := directives + [SwitchToMainView(true)];
    }
  }
}
