/** `MainScreenViewModel`: the table of active lists, or of completed lists in complete mode. */
module MainScreen {
  import opened Optional
  import opened ListInfos
  import opened Storage
  import opened LocalizedStrings

  /** The order `sort(by: { $0.pinned && !$1.pinned })` guarantees: no unpinned list comes
      before a pinned one. Nothing is promised about the order within each group. */
  predicate PinnedFirst(lists: seq<ListInfo>) {
    forall i, j :: 0 <= i < j < |lists| ==> lists[i].pinned || !lists[j].pinned
  }

  /** The pinned lists of `lists`, in their order. */
  function PinnedOf(lists: seq<ListInfo>): (r: seq<ListInfo>)
    ensures forall k :: 0 <= k < |r| ==> r[k].pinned
  {
    if |lists| == 0 then []
    else (if lists[0].pinned then [lists[0]] else []) + PinnedOf(lists[1..])
  }

  /** The unpinned lists of `lists`, in their order. */
  function UnpinnedOf(lists: seq<ListInfo>): (r: seq<ListInfo>)
    ensures forall k :: 0 <= k < |r| ==> !r[k].pinned
  {
    if |lists| == 0 then []
    else (if lists[0].pinned then [] else [lists[0]]) + UnpinnedOf(lists[1..])
  }

  lemma {:induction false} PartitionIsPermutation(lists: seq<ListInfo>)
    ensures multiset(PinnedOf(lists)) + multiset(UnpinnedOf(lists)) == multiset(lists)
  {
    if |lists| > 0 {
      PartitionIsPermutation(lists[1..]);
      assert lists == [lists[0]] + lists[1..];
    }
  }

  /** The result of Swift's `sort(by:)` with the pinned-first comparison. Swift does not promise
      a stable sort; this model picks the stable order, and the contract below claims only what
      every admissible result satisfies. */
  function SortedPinnedFirst(lists: seq<ListInfo>): (r: seq<ListInfo>)
    ensures PinnedFirst(r)
    ensures multiset(r) == multiset(lists)
  {
    PartitionIsPermutation(lists);
    PinnedOf(lists) + UnpinnedOf(lists)
  }

  /** The rule for the "no lists yet" placeholder. */
  function StubShown(completeMode: bool, listCount: nat, activeListCount: nat): bool {
    if completeMode then listCount + activeListCount == 0 else listCount == 0
  }

  /** The `MainScreenBinding` cases. */
  datatype MainScreenBinding = ReloadTable | UpdateItem(row: int) | RemoveItem(row: int)

  /** Navigation requests sent to the coordinator. */
  datatype CoordinatorCall =
    | SwitchToShoppingList(info: ListInfo)
    | SwitchToListEditionView(editList: Option<ListId>)

  /** `MainScreenTableCellParams`; the date is passed unformatted. */
  datatype MainScreenTableCellParams =
    MainScreenTableCellParams(title: string, date: Date, separator: bool, pinned: bool, completeMode: bool)

  class MainScreenViewModel {
    const completeMode: bool
    var shoppingLists: seq<ListInfo>
    var stubState: bool
    /** Every value assigned to `mainScreenBinding`, oldest first. */
    var bindings: seq<MainScreenBinding>
    var storageCalls: seq<StorageCall>
    var coordinatorCalls: seq<CoordinatorCall>

    constructor (completeMode: bool)
      ensures this.completeMode == completeMode
      ensures shoppingLists == [] && stubState
      ensures bindings == [] && storageCalls == [] && coordinatorCalls == []
    {
      this.completeMode := completeMode;
      shoppingLists := [];
      stubState := true;
      bindings := [];
      storageCalls := [];
      coordinatorCalls := [];
    }

    function GetScreenTitle(): string
      reads this
    {
      if completeMode then MainScreenCompletedTitle else MainScreenActiveTitle
    }

    function GetSwipeHintText(): string
      reads this
    {
      if completeMode then MainScreenCompletedSwipeHint else MainScreenActiveSwipeHint
    }

    function GetTableRowCount(): int
      reads this
    {
      |shoppingLists|
    }

    function GetStubState(): bool
      reads this
    {
      stubState
    }

    /** `getPrimaryButtonTitle(for:)`: completed lists can only be restored; an active list
        offers the pin action that flips its current state. */
    function GetPrimaryButtonTitle(row: int): (title: string)
      requires 0 <= row < |shoppingLists|
      reads this
      ensures completeMode ==> title == ButtonRestore
      ensures !completeMode ==> title == ButtonPin || title == ButtonUnpin
      ensures !completeMode ==> (title == ButtonUnpin <==> shoppingLists[row].pinned)
    {
      if completeMode then ButtonRestore
      else if shoppingLists[row].pinned then ButtonUnpin else ButtonPin
    }

    /** `getCellParams(for:)`: the last row has no separator, and completed lists never show a pin. */
    function GetCellParams(row: int): (p: MainScreenTableCellParams)
      requires 0 <= row < |shoppingLists|
      reads this
      ensures p.title == shoppingLists[row].title && p.date == shoppingLists[row].date
      ensures p.separator <==> row != |shoppingLists| - 1
      ensures p.pinned <==> !completeMode && shoppingLists[row].pinned
      ensures p.completeMode == completeMode
    {
      MainScreenTableCellParams(
        shoppingLists[row].title,
        shoppingLists[row].date,
        row != |shoppingLists| - 1,
        if completeMode then false else shoppingLists[row].pinned,
        completeMode)
    }

    /** `viewWillAppear()`: `lists` is the store's answer for this mode and `activeListCount` the
        number of active lists (consulted in complete mode only). */
    method ViewWillAppear(lists: seq<ListInfo>, activeListCount: nat)
      modifies this
      ensures multiset(shoppingLists) == multiset(lists) && PinnedFirst(shoppingLists)
      ensures stubState <==> shoppingLists == [] && (completeMode ==> activeListCount == 0)
      ensures bindings == old(bindings) + [ReloadTable]
      ensures storageCalls == old(storageCalls) && coordinatorCalls == old(coordinatorCalls)
    {
      LoadLists(lists);
      UpdateStubState(activeListCount);
    }

    /** `loadLists()` */
    method LoadLists(lists: seq<ListInfo>)
      modifies this
      ensures multiset(shoppingLists) == multiset(lists) && PinnedFirst(shoppingLists)
      ensures bindings == old(bindings) + [ReloadTable]
      ensures stubState == old(stubState)
      ensures storageCalls == old(storageCalls) && coordinatorCalls == old(coordinatorCalls)
    {
      shoppingLists := lists;
      SortList();
      bindings := bindings + [ReloadTable];
    }

    /** `sortList()`: pinned lists first; a permutation of the lists held before. */
    method SortList()
      modifies this
      ensures multiset(shoppingLists) == multiset(old(shoppingLists)) && PinnedFirst(shoppingLists)
      ensures stubState == old(stubState) && bindings == old(bindings)
      ensures storageCalls == old(storageCalls) && coordinatorCalls == old(coordinatorCalls)
    {
      shoppingLists := SortedPinnedFirst(shoppingLists);
    }

    /** `updateStubState()` */
    method UpdateStubState(activeListCount: nat)
      modifies this
      ensures stubState == StubShown(completeMode, |shoppingLists|, activeListCount)
      ensures stubState <==> shoppingLists == [] && (completeMode ==> activeListCount == 0)
      ensures shoppingLists == old(shoppingLists) && bindings == old(bindings)
      ensures storageCalls == old(storageCalls) && coordinatorCalls == old(coordinatorCalls)
    {
      stubState := StubShown(completeMode, |shoppingLists|, activeListCount);
    }

    /** `deleteListButtonPressed(in:)`: deletes the list from the store, drops exactly that row,
        and recomputes the placeholder. */
    method DeleteListButtonPressed(row: int, activeListCount: nat)
      requires 0 <= row < |shoppingLists|
      modifies this
      ensures storageCalls == old(storageCalls) + [DeleteList(old(shoppingLists[row]).listId)]
      ensures shoppingLists == old(shoppingLists[..row] + shoppingLists[row + 1..])
      ensures bindings == old(bindings) + [RemoveItem(row)]
      ensures stubState <==> shoppingLists == [] && (completeMode ==> activeListCount == 0)
      ensures coordinatorCalls == old(coordinatorCalls)
    {
      storageCalls := storageCalls + [DeleteList(shoppingLists[row].listId)];
      shoppingLists := shoppingLists[..row] + shoppingLists[row + 1..];
      bindings := bindings + [RemoveItem(row)];
      UpdateStubState(activeListCount);
    }

    /** `primaryActionButtonPressed(in:)`: restore in complete mode, pin toggle otherwise. */
    method PrimaryActionButtonPressed(row: int)
      requires 0 <= row < |shoppingLists|
      modifies this
      ensures old(GetPrimaryButtonTitle(row)) == ButtonRestore ==>
        storageCalls == old(storageCalls) + [StorageCall.RestoreList(old(shoppingLists[row]).listId)] &&
        shoppingLists == old(shoppingLists[..row] + shoppingLists[row + 1..]) &&
        bindings == old(bindings) + [RemoveItem(row)]
      ensures old(GetPrimaryButtonTitle(row)) != ButtonRestore ==>
        storageCalls == old(storageCalls) + [UpdateListInfo(old(shoppingLists[row]).TogglePinned())] &&
        multiset(shoppingLists) == multiset(old(shoppingLists[row := shoppingLists[row].TogglePinned()])) &&
        PinnedFirst(shoppingLists) &&
        bindings == old(bindings) + [ReloadTable]
      ensures old(GetPrimaryButtonTitle(row)) == ButtonPin ==> old(!shoppingLists[row].pinned)
      ensures old(GetPrimaryButtonTitle(row)) == ButtonUnpin ==> old(shoppingLists[row].pinned)
      ensures stubState == old(stubState) && coordinatorCalls == old(coordinatorCalls)
    {
      if completeMode {
        RestoreList(row);
      } else {
        ListPinStatusToggle(row);
      }
    }

    /** `listPinStatusToggle(in:)`: flips that list's pin, persists the new header, re-sorts. */
    method ListPinStatusToggle(row: int)
      requires 0 <= row < |shoppingLists|
      modifies this
      ensures storageCalls == old(storageCalls) + [UpdateListInfo(old(shoppingLists[row]).TogglePinned())]
      ensures multiset(shoppingLists) == multiset(old(shoppingLists[row := shoppingLists[row].TogglePinned()]))
      ensures PinnedFirst(shoppingLists)
      ensures bindings == old(bindings) + [ReloadTable]
      ensures stubState == old(stubState) && coordinatorCalls == old(coordinatorCalls)
    {
      shoppingLists := shoppingLists[row := shoppingLists[row].TogglePinned()];
      storageCalls := storageCalls + [UpdateListInfo(shoppingLists[row])];
      SortList();
      bindings := bindings + [ReloadTable];
    }

    /** `restoreList(in:)`: asks the store to restore the list and drops its row. */
    method RestoreList(row: int)
      requires 0 <= row < |shoppingLists|
      modifies this
      ensures storageCalls == old(storageCalls) + [StorageCall.RestoreList(old(shoppingLists[row]).listId)]
      ensures shoppingLists == old(shoppingLists[..row] + shoppingLists[row + 1..])
      ensures bindings == old(bindings) + [RemoveItem(row)]
      ensures stubState == old(stubState) && coordinatorCalls == old(coordinatorCalls)
    {
      storageCalls := storageCalls + [StorageCall.RestoreList(shoppingLists[row].listId)];
      shoppingLists := shoppingLists[..row] + shoppingLists[row + 1..];
      bindings := bindings + [RemoveItem(row)];
    }

    /** `listSelected(row:)` */
    method ListSelected(row: int)
      requires 0 <= row < |shoppingLists|
      modifies this
      ensures coordinatorCalls == old(coordinatorCalls) + [SwitchToShoppingList(old(shoppingLists[row]))]
      ensures shoppingLists == old(shoppingLists) && bindings == old(bindings) && storageCalls == old(storageCalls)
    {
      coordinatorCalls := coordinatorCalls + [SwitchToShoppingList(shoppingLists[row])];
    }

    /** `addNewListButtonPressed()`: opens the editor in create mode. */
    method AddNewListButtonPressed()
      modifies this
      ensures coordinatorCalls == old(coordinatorCalls) + [SwitchToListEditionView(None)]
      ensures shoppingLists == old(shoppingLists) && bindings == old(bindings) && storageCalls == old(storageCalls)
    {
      coordinatorCalls := coordinatorCalls + [SwitchToListEditionView(None)];
    }

    /** `editButtonPressed(in:)`: opens the editor on that list. */
    method EditButtonPressed(row: int)
      requires 0 <= row < |shoppingLists|
      modifies this
      ensures coordinatorCalls == old(coordinatorCalls) + [SwitchToListEditionView(Some(old(shoppingLists[row]).listId))]
      ensures shoppingLists == old(shoppingLists) && bindings == old(bindings) && storageCalls == old(storageCalls)
    {
      coordinatorCalls := coordinatorCalls + [SwitchToListEditionView(Some(shoppingLists[row].listId))];
    }
  }
}
