# ShoppingList view models in Dafny

This project models the view models of the ShoppingList iOS app. These are the parts of the app
that hold a screen's state and react to what the user does.

- **`NewListViewModel`**: the screen that creates a list or edits one. Its table has a title row,
  the item rows and a trailing "add product" button row. It validates titles, enables the
  complete button, builds the list it saves, and keeps an unsaved draft in `UserDefaults`.
- **`ShoppingListViewModel`**: the shopping screen, in both of its revisions. The later one is in
  `Scenes/Shopping`; the earlier one is in `ShoppingListEdition`. Each keeps the item rows, then
  the button row, plus the counter `uncheckedItemsCount`. Checking or unchecking an item moves it
  across the boundary between unchecked and checked rows. Sorting, checking all, deleting and
  adding keep that boundary in place.
- **`MainScreenViewModel`**: the table of active or completed lists. It sorts pinned lists first,
  deletes, pins, unpins, restores, and decides when to show the "no lists" placeholder.
- **`PopUpViewModel`**: the quantity and unit picker, with the step and clamp rules of its buttons.
- **`SettingsViewModel`**: the decoration of the language rows, and the language and theme choice.
- **`ListInfo`**: the header of a stored list.

## How the model is built

Each view model is a Dafny `class`. It keeps the Swift object's fields, and each method states
its whole new state with `old(...)`. Loops become `while` loops with invariants. Most sit in
`static` methods that the state-changing methods call: `LoadItems`, `SplitByCheckMark`,
`SortRows`, `CheckAllRows`, `UncheckItemRows`, `BuildStoredItems`, `ReadItems`, `StoredRows`.

The app announces UI changes by assigning to observables. In the model, each assignment is
appended to a log of that view model (`bindings`, `observations`, `directives`). Calls into the
storage service, the coordinator and the pop-up's delegate are recorded the same way. What the
storage service returns, and the `UUID()` and `Date()` a save creates, are method parameters.
`UserDefaults` is a `Defaults` object holding a key/value map. `removePersistentDomain` clears
the whole map.

Both shopping screens keep one invariant, `Valid()`:
- the table ends with the button row;
- its first `uncheckedItemsCount` rows are exactly the unchecked ones (`CheckedPrefix.UncheckedPrefix`).

The button row is stored as a checked row, so it never breaks that order. Every operation that
changes the table either keeps the invariant or says when it does not (see "## Findings").

A weaker fact, `CounterIsExact()`, says only that `uncheckedItemsCount` is the number of
unchecked rows, in whatever order they stand. Loading, dragging, checking all, deleting,
editing, adding a row and tapping a check box all keep it. These operations, like the source,
accept any table: none requires `Valid()`, and each but the drag keeps `Valid()` when it held
before. The sort puts the unchecked rows first whatever the order before, so an exact counter
with the button row last makes the table valid again.

`ListInfo` is a Swift `struct`. A `mutating` method therefore replaces the value held by the
caller's variable. Here it is a datatype, and its two mutating methods are functions whose
result the caller assigns back.

Quantities:
- The later shopping screen and the picker count them in tenths (`15` is 1.5).
- The earlier shopping screen and the list editor count them in whole units, as their Swift
  types do.

Localized texts are distinct opaque constants: each is its own localization key.

## Model

| member | source | states |
|---|---|---|
| ListInfos.ListInfo.TogglePinned | ShoppingList/Models/ListInfo.swift:10-12 | flips `pinned` and leaves id, title, date and `completed` alone |
| ListInfos.ListInfo.SetCompleted | ShoppingList/Models/ListInfo.swift:14-16 | sets `completed` to the given state and leaves id, title, date and `pinned` alone |
| ListInfos.TogglePinnedTwice | ShoppingList/Models/ListInfo.swift:10-12 | toggling twice gives back the original header |
| ListInfos.SetCompletedIdempotent | ShoppingList/Models/ListInfo.swift:14-16 | setting the same completion state twice is the same as once |
| ListInfos.TogglePinnedCommutesWithSetCompleted | ShoppingList/Models/ListInfo.swift:10-16 | pinning never changes the completion state and completing never changes the pin, so the two commute |
| Units.FromRawValue | ShoppingList/Models/ListItem.swift:8-13 | `Units(rawValue:)` yields exactly the unit whose raw value is the string, and nothing for any other string |
| Units.FromRawValueOrPiece | ShoppingList/Scenes/Shopping/ShoppingListViewModel.swift:195 | an unknown raw value becomes a piece; a known one gives its unit |
| Storage.SavedInfo | ShoppingList/Scenes/Shopping/ShoppingListViewModel.swift:264-270 | a plain save keeps the header; a pinned-list copy gets the new id and date, is completed and is not pinned |
| Strings.RemovingSpaces | ShoppingList/Scenes/Shopping/ShoppingListViewModel.swift:227 | removing the spaces shortens the title and leaves no space in it |
| Strings.RemovingSpacesIsEmpty | ShoppingList/Scenes/Shopping/ShoppingListViewModel.swift:227 | the title is empty once its spaces are removed exactly when it is made of spaces only |
| Strings.LowercasedChar | ShoppingList/Scenes/ListEdition/NewListViewModel.swift:146 | a lower-cased character is never an upper-case letter, and any other character is kept |
| Strings.Lowercased | ShoppingList/Scenes/ListEdition/NewListViewModel.swift:146 | lower-casing keeps the length and leaves no upper-case letter |
| Strings.LowercasedIdempotent | ShoppingList/Scenes/ListEdition/NewListViewModel.swift:146 | lower-casing a lower-cased title changes nothing |
| Strings.LessOrEqualTotal | ShoppingList/Scenes/Shopping/ShoppingListViewModel.swift:111-114 | any two titles compare one way or the other |
| Strings.LessOrEqualTransitive | ShoppingList/Scenes/Shopping/ShoppingListViewModel.swift:111-114 | the title order is transitive |
| Sorting.Insert | ShoppingList/Scenes/Shopping/ShoppingListViewModel.swift:111-114 | inserting into a sorted run adds exactly that element |
| Sorting.SortBy | ShoppingList/Scenes/Shopping/ShoppingListViewModel.swift:111-114 | `sorted(by:)` returns a permutation of its input |
| Sorting.InOrderTotal | ShoppingList/Scenes/Shopping/ShoppingListViewModel.swift:111-114 | the ascending and descending comparisons each order any two rows one way or the other |
| Sorting.InOrderTransitive | ShoppingList/Scenes/Shopping/ShoppingListViewModel.swift:111-114 | the ascending and descending comparisons are transitive |
| Sorting.HeadPrecedesInsert | ShoppingList/Scenes/Shopping/ShoppingListViewModel.swift:111-114 | the head of a sorted run may precede everything an insertion into its tail produces |
| Sorting.InsertKeepsSorted | ShoppingList/Scenes/Shopping/ShoppingListViewModel.swift:111-114 | inserting into a sorted run keeps it sorted |
| Sorting.SortByIsSorted | ShoppingList/Scenes/Shopping/ShoppingListViewModel.swift:111-114 | the result of the sort is in ascending or descending title order |
| Sequences.FirstIndexWhere | ShoppingList/Scenes/Shopping/ShoppingListViewModel.swift:240 | `first(where:)` finds the first element that satisfies the test, and finds nothing exactly when none does |
| Sequences.RemoveAt | ShoppingList/Scenes/ListEdition/NewListViewModel.swift:110 | `remove(at:)` shortens the array by one |
| Sequences.RemoveAtShifts | ShoppingList/Scenes/ListEdition/NewListViewModel.swift:110 | removal keeps the elements before the index, shifts the rest down by one, and drops exactly the removed element |
| Sequences.InsertAt | ShoppingList/Scenes/ListEdition/NewListViewModel.swift:285-289 | `insert(_:at:)` lengthens the array by one and puts the element at the index |
| Sequences.InsertAtShifts | ShoppingList/Scenes/ListEdition/NewListViewModel.swift:285-289 | insertion keeps the elements before the index, shifts the rest up by one, and adds exactly the inserted element |
| Sequences.MoveItem | ShoppingList/Scenes/Shopping/ShoppingListViewModel.swift:209-214 | moving keeps the length and puts the moved element at the destination |
| Sequences.MoveItemShifts | ShoppingList/Scenes/Shopping/ShoppingListViewModel.swift:209-214 | moving is a permutation: the elements between the ends shift one place towards the source and the others stay |
| Sequences.Count | ShoppingList/Scenes/Shopping/ShoppingListViewModel.swift:198-200 | the number of rows passing a test is at most the number of rows |
| Sequences.CountAppend | ShoppingList/Scenes/Shopping/ShoppingListViewModel.swift:198-200 | counting two parts separately adds up to counting the whole |
| Sequences.CountPrefixStep | ShoppingList/Scenes/Shopping/ShoppingListViewModel.swift:191-201 | one more loop step raises the count exactly when the new row passes the test |
| Sequences.CountAll | ShoppingList/Scenes/Shopping/ShoppingListViewModel.swift:129-159 | the count is the length when every row passes, and zero when none does |
| Sequences.PermutationKeepsAll | ShoppingList/Scenes/MainScreen/MainScreenViewModel.swift:135-137 | a permutation of rows that all pass a test has only such rows |
| Sequences.Range | ShoppingList/Scenes/Shopping/ShoppingListViewModel.swift:100-107 | the collected row numbers are as many as the rows visited |
| Sequences.RangeContents | ShoppingList/Scenes/Shopping/ShoppingListViewModel.swift:100-107 | the collected row numbers are the rows visited, in increasing order |
| Sequences.RangeSnoc | ShoppingList/Scenes/Shopping/ShoppingListViewModel.swift:107 | one more loop step appends the next row number |
| Sequences.CountPermutation | ShoppingList/Scenes/Shopping/ShoppingListViewModel.swift:209-214 | a permutation of the rows has the same number of rows passing any test |
| Sequences.CountRemoveAt | ShoppingList/Scenes/Shopping/ShoppingListViewModel.swift:211 | removing an element lowers the count by one exactly when that element passed the test |
| Sequences.CountReplace | ShoppingList/Scenes/Shopping/ShoppingListViewModel.swift:364-372 | replacing an element takes the old one out of the count and puts the new one in, each when it passes the test |
| Sequences.CountInsertAt | ShoppingList/Scenes/Shopping/ShoppingListViewModel.swift:350-357 | inserting an element raises the count by one exactly when it passes the test |
| Sequences.MoveItemKeepsCount | ShoppingList/Scenes/Shopping/ShoppingListViewModel.swift:209-214 | moving a row changes no count, so the number of unchecked rows is the same after a drag |
| Sequences.Filter | ShoppingList/Scenes/Shopping/ShoppingListViewModel.swift:102-106 | the collected elements are as many as pass the test, and every one of them passes it |
| Sequences.FilterStep | ShoppingList/Scenes/Shopping/ShoppingListViewModel.swift:102-106 | one more loop step appends the visited element exactly when it passes the test |
| Sequences.IndexesWhere | ShoppingList/Scenes/Shopping/ShoppingListViewModel.swift:135-153 | the collected positions are as many as the elements passing the test |
| Sequences.IndexesWhereContents | ShoppingList/Scenes/Shopping/ShoppingListViewModel.swift:135-153 | the collected positions are exactly those whose element passes the test, each once, in increasing order |
| Sequences.IndexesWhereStep | ShoppingList/Scenes/Shopping/ShoppingListViewModel.swift:140-150 | one more loop step appends the visited position exactly when its element passes the test |
| CheckedPrefix.PrefixLengthIsUncheckedCount | ShoppingList/Scenes/Shopping/ShoppingListViewModel.swift:237-245 | under the ordering, `uncheckedItemsCount` is the number of unchecked rows |
| CheckedPrefix.UncheckMovesToBoundary | ShoppingList/Scenes/Shopping/ShoppingListViewModel.swift:321-331 | unchecking a checked row and moving it to the boundary extends the unchecked rows by one |
| CheckedPrefix.CheckMovesToBoundary | ShoppingList/Scenes/Shopping/ShoppingListViewModel.swift:333-342 | checking an unchecked row and moving it to the last unchecked place shrinks the unchecked rows by one |
| CheckedPrefix.InsertAtBoundary | ShoppingList/Scenes/Shopping/ShoppingListViewModel.swift:350-357 | an unchecked row inserted at the boundary joins the unchecked rows |
| CheckedPrefix.RemoveKeepsPrefix | ShoppingList/Scenes/Shopping/ShoppingListViewModel.swift:178-184 | on any table, deleting a row lowers the number of unchecked rows by one exactly when the row was unchecked; on an ordered table the order is kept, with the boundary one lower in that case |
| CheckedPrefix.ReplaceKeepsPrefix | ShoppingList/Scenes/Shopping/ShoppingListViewModel.swift:282-296 | on any table, replacing a row by one with the same check mark keeps the number of unchecked rows; on an ordered table it keeps the order with the same boundary |
| CheckedPrefix.MoveWithinPrefix | ShoppingList/Scenes/Shopping/ShoppingListViewModel.swift:87-89 | moving a row within the unchecked rows keeps the order |
| CheckedPrefix.CountComplement | ShoppingList/Scenes/Shopping/ShoppingListViewModel.swift:102-106 | every row is counted as checked or as unchecked, never both |
| CheckedPrefix.CheckedLastRowUncounted | ShoppingList/Scenes/Shopping/ShoppingListViewModel.swift:120-124 | the checked button row adds nothing to the unchecked count, so under the ordering the item rows hold `uncheckedItemsCount` unchecked rows |
| OrderedTable.SortKeepsOrdering | ShoppingList/Scenes/Shopping/ShoppingListViewModel.swift:97-127 | whatever the order before, the sorted table has as many rows, ends with the button row, and starts with exactly its unchecked rows, as many as there were unchecked item rows |
| OrderedTable.SortOrdersUnchecked | ShoppingList/Scenes/Shopping/ShoppingListViewModel.swift:97-127 | the unchecked rows come first in title order (ascending or descending), then the checked item rows in their old order; the item rows are a permutation of the old ones |
| OrderedTable.FilterPartition | ShoppingList/Scenes/Shopping/ShoppingListViewModel.swift:102-106 | the unchecked rows and the checked rows the loop collects are together exactly the item rows |
| OrderedTable.FilterOfOrdered | ShoppingList/Scenes/Shopping/ShoppingListViewModel.swift:102-106 | on a table that keeps the ordering, the loop's unchecked rows are its first `uncheckedItemsCount` rows and the checked ones the rest |
| OrderedTable.SortedTableBoundary | ShoppingList/Scenes/Shopping/ShoppingListViewModel.swift:97-127 | a counter that matched the unchecked rows, or the boundary of an ordered table, is the boundary of the sorted table |
| OrderedTable.SortOnOrderedTable | ShoppingList/Scenes/Shopping/ShoppingListViewModel.swift:97-127 | on a table that keeps the ordering, the sort permutes only the unchecked rows and leaves the checked rows and the button row in place |
| OrderedTable.SortSplitTable | ShoppingList/Scenes/Shopping/ShoppingListViewModel.swift:110-124 | when the loop's unchecked rows are the first `u` rows, the sorted table is those rows sorted followed by the old rest |
| OrderedTable.CheckAllStep | ShoppingList/Scenes/Shopping/ShoppingListViewModel.swift:137-152 | one loop step collects the row exactly when its mark differs from the switch, and moves the counter by one with it, down when checking and up when unchecking |
| OrderedTable.CheckAllCount | ShoppingList/Scenes/Shopping/ShoppingListViewModel.swift:135-153 | giving every item row the mark changes the number of unchecked rows by the number whose mark differed, down when checking and up when unchecking |
| OrderedTable.CheckAllOutcome | ShoppingList/Scenes/Shopping/ShoppingListViewModel.swift:129-159 | the collected rows are exactly those whose mark differed; an exact counter stays exact; a table that kept the ordering still does, with the counter 0 or all item rows |
| OrderedTable.ChangedRows | ShoppingList/Scenes/Shopping/ShoppingListViewModel.swift:140-147 | the collected positions are exactly the item rows whose mark differs from the switch |
| OrderedTable.AllMarkedOrdered | ShoppingList/Scenes/Shopping/ShoppingListViewModel.swift:129-159 | with every item row given one mark and the last row checked, the table keeps the ordering and counts 0 or all item rows unchecked |
| OrderedTable.TapKeepsOrdering | ShoppingList/Scenes/Shopping/ShoppingListViewModel.swift:314-344 | on an ordered table the tests against the counter move exactly a row that is not at the boundary, and the flipped row lands at the boundary, which moves by one, with the ordering and the button row kept |
| OrderedTable.TapCount | ShoppingList/Scenes/Shopping/ShoppingListViewModel.swift:314-344 | on any table a tap raises the number of unchecked rows by one for a checked row and lowers it by one for an unchecked row, moved or not |
| MainScreen.PinnedOf | ShoppingList/Scenes/MainScreen/MainScreenViewModel.swift:135-137 | collects only pinned lists |
| MainScreen.UnpinnedOf | ShoppingList/Scenes/MainScreen/MainScreenViewModel.swift:135-137 | collects only unpinned lists |
| MainScreen.PartitionIsPermutation | ShoppingList/Scenes/MainScreen/MainScreenViewModel.swift:135-137 | the pinned and the unpinned lists together are the lists |
| MainScreen.SortedPinnedFirst | ShoppingList/Scenes/MainScreen/MainScreenViewModel.swift:135-137 | the sort is a permutation with every pinned list before every unpinned one |
| MainScreen.MainScreenViewModel.constructor | ShoppingList/Scenes/MainScreen/MainScreenViewModel.swift:37-41 | starts in the given mode with no lists, placeholder hidden and empty logs |
| MainScreen.MainScreenViewModel.GetPrimaryButtonTitle | ShoppingList/Scenes/MainScreen/MainScreenViewModel.swift:61-65 | restore in complete mode; otherwise unpin exactly when the list is pinned, else pin |
| MainScreen.MainScreenViewModel.GetCellParams | ShoppingList/Scenes/MainScreen/MainScreenViewModel.swift:67-74 | the row's title and date, a separator on every row but the last, and a pin only on pinned active lists |
| MainScreen.MainScreenViewModel.ViewWillAppear | ShoppingList/Scenes/MainScreen/MainScreenViewModel.swift:44-47 | shows the store's lists pinned first, reloads the table, and shows the placeholder exactly by the stub rule |
| MainScreen.MainScreenViewModel.LoadLists | ShoppingList/Scenes/MainScreen/MainScreenViewModel.swift:107-111 | holds a pinned-first permutation of the store's lists and reloads the table |
| MainScreen.MainScreenViewModel.SortList | ShoppingList/Scenes/MainScreen/MainScreenViewModel.swift:135-137 | a permutation of the lists held before, pinned first |
| MainScreen.MainScreenViewModel.UpdateStubState | ShoppingList/Scenes/MainScreen/MainScreenViewModel.swift:126-133 | the placeholder shows in active mode exactly when there are no lists, and in complete mode exactly when there are no lists in either mode |
| MainScreen.MainScreenViewModel.DeleteListButtonPressed | ShoppingList/Scenes/MainScreen/MainScreenViewModel.swift:99-104 | deletes that list's id in the store, drops exactly that row, emits its removal and recomputes the placeholder |
| MainScreen.MainScreenViewModel.PrimaryActionButtonPressed | ShoppingList/Scenes/MainScreen/MainScreenViewModel.swift:93-97 | does what the row's button title says: restore, removing that row from the table; or pin/unpin, persisting the new header, keeping pinned lists first and reloading the table |
| MainScreen.MainScreenViewModel.ListPinStatusToggle | ShoppingList/Scenes/MainScreen/MainScreenViewModel.swift:113-118 | flips only that list's pin, persists the new header, and re-sorts pinned first |
| MainScreen.MainScreenViewModel.RestoreList | ShoppingList/Scenes/MainScreen/MainScreenViewModel.swift:120-124 | restores the list in the store, drops exactly its row and emits the removal |
| MainScreen.MainScreenViewModel.ListSelected | ShoppingList/Scenes/MainScreen/MainScreenViewModel.swift:81-83 | opens the shopping screen on that list and changes nothing else |
| MainScreen.MainScreenViewModel.AddNewListButtonPressed | ShoppingList/Scenes/MainScreen/MainScreenViewModel.swift:85-87 | opens the editor in create mode |
| MainScreen.MainScreenViewModel.EditButtonPressed | ShoppingList/Scenes/MainScreen/MainScreenViewModel.swift:89-91 | opens the editor on that list's id |
| PopUp.IndexOfUnit | ShoppingList/Scenes/PopUpView/PopUpViewModel.swift:28-30 | the segment index is in `0 ..< 4` and shows the unit |
| PopUp.IndexOfUnitInverse | ShoppingList/Scenes/PopUpView/PopUpViewModel.swift:28-34 | the segment that selects a unit is the one shown for it |
| PopUp.MinusQuantity | ShoppingList/Scenes/PopUpView/PopUpViewModel.swift:46-60 | one step down, never below 1 (whole units, rounded up to a whole) or 0.1 (kg, litre) |
| PopUp.PlusQuantity | ShoppingList/Scenes/PopUpView/PopUpViewModel.swift:66-80 | one step up, never above 1000, and whole for pack and piece |
| PopUp.StepsCancelInsideBounds | ShoppingList/Scenes/PopUpView/PopUpViewModel.swift:46-80 | away from the floor and the ceiling, minus then plus (and plus then minus) gives back the quantity |
| PopUp.PopUpViewModel.constructor | ShoppingList/Scenes/PopUpView/PopUpViewModel.swift:14-19 | starts with the given item, quantity and unit and empty logs |
| PopUp.PopUpViewModel.UnitSelected | ShoppingList/Scenes/PopUpView/PopUpViewModel.swift:33-40 | takes the selected unit, and tells the delegate only when the unit changed |
| PopUp.PopUpViewModel.DoneButtonPressed | ShoppingList/Scenes/PopUpView/PopUpViewModel.swift:42-44 | asks the view to close and changes nothing else |
| PopUp.PopUpViewModel.MinusButtonPressed | ShoppingList/Scenes/PopUpView/PopUpViewModel.swift:46-64 | stores the stepped-down quantity (unparsable text counts as 0), shows it and reports that same quantity |
| PopUp.PopUpViewModel.PlusButtonPressed | ShoppingList/Scenes/PopUpView/PopUpViewModel.swift:66-84 | stores the stepped-up quantity, shows it and reports that same quantity |
| PopUp.PopUpViewModel.ClearButtonPressed | ShoppingList/Scenes/PopUpView/PopUpViewModel.swift:86-89 | clears the field but reports the quantity held so far |
| PopUp.PopUpViewModel.QuantityUpdated | ShoppingList/Scenes/PopUpView/PopUpViewModel.swift:91-100 | stores the typed quantity (1 when not a number), shows it and reports it |
| Settings.SettingsViewModel.constructor | ShoppingList/Scenes/SettingsView/SettingsViewModel.swift:29-32 | reads the languages once, with empty logs |
| Settings.SettingsViewModel.GetCellParams | ShoppingList/Scenes/SettingsView/SettingsViewModel.swift:53-74 | a single row is rounded all round without a separator; otherwise top, middle and bottom rows get their corners, every row but the last a separator, and the selected row is the current language |
| Settings.SettingsViewModel.LanguageSelected | ShoppingList/Scenes/SettingsView/SettingsViewModel.swift:39-42 | stores the language and shows the restart alert once |
| Settings.SettingsViewModel.SetTheme | ShoppingList/Scenes/SettingsView/SettingsViewModel.swift:44-47 | stores the theme, then applies it |
| NewList.NameError | ShoppingList/Scenes/ListEdition/NewListViewModel.swift:141-155 | the first matching rule wins: empty, then (when checked) already used, then spaces only; no error otherwise |
| NewList.ValidatedRow | ShoppingList/Scenes/ListEdition/NewListViewModel.swift:136-156 | a row without a title is untouched; otherwise only its error changes, to the rules' verdict |
| NewList.ValidateList | ShoppingList/Scenes/ListEdition/NewListViewModel.swift:158-160 | true exactly when no row has a missing or empty title or an error |
| NewList.ValidatedRowIsComplete | ShoppingList/Scenes/ListEdition/NewListViewModel.swift:136-160 | a validated titled row passes `validateList()` exactly when its title breaks no rule |
| NewList.UntitledRowBlocksSaving | ShoppingList/Scenes/ListEdition/NewListViewModel.swift:284-292 | a table holding the row `addNewItemButtonPressed()` adds never validates |
| NewList.StoredItemRoundTrip | ShoppingList/Scenes/ListEdition/NewListViewModel.swift:124-131 | editing a stored item and saving it unchanged writes the same item back, up to an unknown unit becoming a piece |
| NewList.RestoredItems | ShoppingList/Scenes/ListEdition/NewListViewModel.swift:222-234 | reads back as many items as the stored count |
| NewList.RestoredRows | ShoppingList/Scenes/ListEdition/NewListViewModel.swift:210-237 | the restored table always has a title row and the button row |
| NewList.DraftOf | ShoppingList/Scenes/ListEdition/NewListViewModel.swift:190-208 | the draft of a table keeps its shape and length |
| NewList.ItemsSavedKeepOtherKeys | ShoppingList/Scenes/ListEdition/NewListViewModel.swift:201-207 | saving items `1 ... n` touches no other key |
| NewList.ItemSavedReadBack | ShoppingList/Scenes/ListEdition/NewListViewModel.swift:203-205 | an item saved and read back gives its title, quantity and unit |
| NewList.ItemSavedKeepsOthers | ShoppingList/Scenes/ListEdition/NewListViewModel.swift:203-205 | saving one item leaves what another item reads back alone |
| NewList.ItemsSavedReadBack | ShoppingList/Scenes/ListEdition/NewListViewModel.swift:201-207 | after the save loop each item reads back as saved |
| NewList.RestoredItemsOfSaved | ShoppingList/Scenes/ListEdition/NewListViewModel.swift:222-234 | the restore loop reads back the items the save loop wrote, in order |
| NewList.DraftRoundTrip | ShoppingList/Scenes/ListEdition/NewListViewModel.swift:190-237 | leaving the create screen and coming back restores the title and every item's title, quantity and unit, in order |
| NewList.SecondRestoreIsEmpty | ShoppingList/Scenes/ListEdition/NewListViewModel.swift:236-243 | a restore consumes the draft, so a second restore gives the empty table |
| NewList.NewListViewModel.constructor | ShoppingList/Scenes/ListEdition/NewListViewModel.swift:46-49 | starts in create or edit mode with an empty table and empty logs |
| NewList.NewListViewModel.ViewWillAppear | ShoppingList/Scenes/ListEdition/NewListViewModel.swift:52-56 | fills the table (in edit mode the stored title, one row per stored item in order and the button row; otherwise the restored draft, with the draft entries updated as restoring does), makes the complete button equal `validateList()` and announces it only when it changed, and takes the store's list names |
| NewList.NewListViewModel.StoredRows | ShoppingList/Scenes/ListEdition/NewListViewModel.swift:122-133 | the list's title, one row per stored item in order, then the button row |
| NewList.NewListViewModel.SetListItems | ShoppingList/Scenes/ListEdition/NewListViewModel.swift:117-134 | edit mode shows the stored list and leaves the draft alone; create mode shows the restored draft and consumes it |
| NewList.NewListViewModel.ReadItems | ShoppingList/Scenes/ListEdition/NewListViewModel.swift:222-234 | the loop reads back items `1 ... count` in order |
| NewList.NewListViewModel.RestoreUserInputs | ShoppingList/Scenes/ListEdition/NewListViewModel.swift:210-237 | the table is the restored draft (the empty table without the "saved" flag) and the draft is consumed |
| NewList.NewListViewModel.SaveUserInputs | ShoppingList/Scenes/ListEdition/NewListViewModel.swift:190-208 | writes the draft of a touched new list; otherwise only the "not saved" flag |
| NewList.NewListViewModel.ViewWillDisappear | ShoppingList/Scenes/ListEdition/NewListViewModel.swift:58-62 | no draft is written once the list was completed; otherwise the draft is saved |
| NewList.NewListViewModel.GetRowHeight | ShoppingList/Scenes/ListEdition/NewListViewModel.swift:72-84 | button row 76; title row 60, or 87 with an error; item row 52, or 81 with an error |
| NewList.NewListViewModel.GetCellParams | ShoppingList/Scenes/ListEdition/NewListViewModel.swift:86-95 | row 0 is the title cell, the last row the button cell, and the cell shows the row's fields |
| NewList.NewListViewModel.TableFinishedUpdating | ShoppingList/Scenes/ListEdition/NewListViewModel.swift:97-99 | enables interaction and changes nothing else |
| NewList.NewListViewModel.UpdateCompleteButtonState | ShoppingList/Scenes/ListEdition/NewListViewModel.swift:162-166 | afterwards the button equals `validateList()`, announced only when it changed |
| NewList.NewListViewModel.ValidateName | ShoppingList/Scenes/ListEdition/NewListViewModel.swift:136-156 | validates that row, checking for a used name only on row 0 of a list not loaded from the store |
| NewList.NewListViewModel.UpdateNewListTitle | ShoppingList/Scenes/ListEdition/NewListViewModel.swift:248-259 | reloads the title row exactly when its error changed, and recomputes the button exactly when its title changed |
| NewList.NewListViewModel.UpdateNewListItem | ShoppingList/Scenes/ListEdition/NewListViewModel.swift:264-275 | the same for an item row, never checked for a used name |
| NewList.NewListViewModel.EditQuantityButtonPressed | ShoppingList/Scenes/ListEdition/NewListViewModel.swift:277-279 | opens the picker on the row's quantity and unit, 1 piece when unset |
| NewList.NewListViewModel.AddNewItemButtonPressed | ShoppingList/Scenes/ListEdition/NewListViewModel.swift:284-293 | inserts one untitled row just before the button row, announces index count - 2, and disables the complete button |
| NewList.NewListViewModel.DeleteItemButtonPressed | ShoppingList/Scenes/ListEdition/NewListViewModel.swift:109-114 | removes exactly that item row, announces its removal and recomputes the button |
| NewList.NewListViewModel.UnitSelected | ShoppingList/Scenes/ListEdition/NewListViewModel.swift:298-301 | sets that row's unit and reloads it |
| NewList.NewListViewModel.QuantitySelected | ShoppingList/Scenes/ListEdition/NewListViewModel.swift:303-306 | sets that row's quantity and reloads it |
| NewList.NewListViewModel.BuildNewList | ShoppingList/Scenes/ListEdition/NewListViewModel.swift:168-188 | one item per item row with the defaults, none without item rows; a new list is neither completed nor pinned, an edited one keeps its stored flags and date |
| NewList.NewListViewModel.CompleteButtonPressed | ShoppingList/Scenes/ListEdition/NewListViewModel.swift:102-107 | saves a new list or replaces the edited one with the built list, which keeps the edited list's date and flags, or for a new list is dated now, not completed and not pinned; then asks to return to the main screen |
| Shopping.LoadedRows | ShoppingList/Scenes/Shopping/ShoppingListViewModel.swift:191-201 | one row per stored item |
| Shopping.StoredItems | ShoppingList/Scenes/Shopping/ShoppingListViewModel.swift:252-262 | every row but the last is stored |
| Shopping.LoadedRowsStep | ShoppingList/Scenes/Shopping/ShoppingListViewModel.swift:191-197 | one more loop step appends the row of the next item |
| Shopping.SaveThenLoad | ShoppingList/Scenes/Shopping/ShoppingListViewModel.swift:187-207 | a table whose rows have titles and no errors is saved and loaded back unchanged |
| Shopping.SavedItemsAreOrdered | ShoppingList/Scenes/Shopping/ShoppingListViewModel.swift:251-262 | a table that keeps the ordering is stored unchecked-first |
| Shopping.LoadedKeepsOrder | ShoppingList/Scenes/Shopping/ShoppingListViewModel.swift:187-207 | items stored unchecked-first load into a table that keeps the ordering |
| Shopping.LoadedRowsCount | ShoppingList/Scenes/Shopping/ShoppingListViewModel.swift:191-201 | loading keeps the number of unchecked items |
| Shopping.LoadedAppendCount | ShoppingList/Scenes/Shopping/ShoppingListViewModel.swift:191-206 | appending the loaded rows and the button row adds the loaded items' unchecked count to the table's |
| Shopping.NewRowAtCounter | ShoppingList/Scenes/Shopping/ShoppingListViewModel.swift:350-357 | on any table the row inserted at the counter adds one unchecked row; on an ordered table it keeps the button row last and joins the end of the unchecked rows |
| Shopping.NameError | ShoppingList/Scenes/Shopping/ShoppingListViewModel.swift:224-232 | empty first, then spaces only, no error otherwise |
| Shopping.ValidatedRow | ShoppingList/Scenes/Shopping/ShoppingListViewModel.swift:217-235 | a row without a title is untouched; otherwise only its error changes, to the rules' verdict |
| Shopping.ValidateList | ShoppingList/Scenes/Shopping/ShoppingListViewModel.swift:247-249 | true exactly when no row has a missing or empty title or an error |
| Shopping.WithItemsChecked | ShoppingList/Scenes/Shopping/ShoppingListViewModel.swift:380-384 | every item row gets the mark and the button row is left alone |
| Shopping.ShoppingListViewModel.constructor | ShoppingList/Scenes/Shopping/ShoppingListViewModel.swift:37-41 | starts on the given list with an empty table, no sort order and empty logs |
| Shopping.ShoppingListViewModel.ViewWillAppear | ShoppingList/Scenes/Shopping/ShoppingListViewModel.swift:44-47 | loads the list, and the bottom button is enabled exactly for a completed list or when no row is unchecked |
| Shopping.ShoppingListViewModel.LoadItems | ShoppingList/Scenes/Shopping/ShoppingListViewModel.swift:191-201 | the loop yields one row per stored item in order and the number of unchecked items |
| Shopping.ShoppingListViewModel.LoadList | ShoppingList/Scenes/Shopping/ShoppingListViewModel.swift:187-207 | appends the loaded rows and one button row and counts the loaded unchecked items; an exact counter stays exact, and on a fresh screen the ordering holds when the store returned unchecked items first |
| Shopping.ShoppingListViewModel.UpdateBottomButtonState | ShoppingList/Scenes/Shopping/ShoppingListViewModel.swift:237-245 | enabled exactly for a completed list or when no row is unchecked, which under the ordering is a zero counter |
| Shopping.ShoppingListViewModel.GetRowHeight | ShoppingList/Scenes/Shopping/ShoppingListViewModel.swift:65-74 | 81 exactly for an item row with an error, else 52 |
| Shopping.ShoppingListViewModel.GetCellParams | ShoppingList/Scenes/Shopping/ShoppingListViewModel.swift:76-85 | the last row is the button cell and the cell shows the row |
| Shopping.ShoppingListViewModel.IsDropAllowed | ShoppingList/Scenes/Shopping/ShoppingListViewModel.swift:87-89 | under the ordering, a drop is allowed exactly on unchecked rows |
| Shopping.ShoppingListViewModel.TableFinishedUpdating | ShoppingList/Scenes/Shopping/ShoppingListViewModel.swift:91-94 | saves the list and ends typing |
| Shopping.ShoppingListViewModel.BuildStoredItems | ShoppingList/Scenes/Shopping/ShoppingListViewModel.swift:252-262 | the loop stores every row but the last, in order |
| Shopping.ShoppingListViewModel.SaveListToStorage | ShoppingList/Scenes/Shopping/ShoppingListViewModel.swift:251-277 | one storage call with the stored rows, as an update or as a new completed unpinned copy |
| Shopping.ShoppingListViewModel.SplitByCheckMark | ShoppingList/Scenes/Shopping/ShoppingListViewModel.swift:98-108 | the loop collects the unchecked item rows and the checked ones, each in table order, and reloads every item row |
| Shopping.ShoppingListViewModel.SortRows | ShoppingList/Scenes/Shopping/ShoppingListViewModel.swift:98-124 | the table built from the two collections is the sorted table, as long as the old one, ending with the button row, with exactly its unchecked rows first |
| Shopping.ShoppingListViewModel.SortButtonPressed | ShoppingList/Scenes/Shopping/ShoppingListViewModel.swift:97-127 | from any table with an item row: the unchecked rows sorted (ascending unless the last sort was ascending), then the checked rows as they were, then a new button row, every item row reloaded; the unchecked rows come first, and a table with an exact counter and a checked last row, or a valid one, ends valid |
| Shopping.ShoppingListViewModel.CheckAllRows | ShoppingList/Scenes/Shopping/ShoppingListViewModel.swift:135-153 | the loop gives every item row the mark, collects in order exactly the rows whose mark differed, and moves the counter by one per collected row |
| Shopping.ShoppingListViewModel.CheckAllSwitchIs | ShoppingList/Scenes/Shopping/ShoppingListViewModel.swift:129-159 | with an item row, every item row gets the mark and the button row is left alone; exactly the rows whose mark differed are reloaded, in one update when any; the counter moves by their number and stays exact, and a valid table stays valid with the counter 0 or all item rows |
| Shopping.ShoppingListViewModel.MoveItemInArray | ShoppingList/Scenes/Shopping/ShoppingListViewModel.swift:209-214 | the move, nothing at all when source and destination coincide, and an exact counter stays exact |
| Shopping.ShoppingListViewModel.RowMoved | ShoppingList/Scenes/Shopping/ShoppingListViewModel.swift:161-164 | applies the move as it comes and saves; an exact counter stays exact, the ordering is not claimed |
| Shopping.ShoppingListViewModel.RowMovedWithinUnchecked | ShoppingList/Scenes/Shopping/ShoppingListViewModel.swift:87-89 | moves only between unchecked rows, so the ordering is kept, and saves |
| Shopping.ShoppingListViewModel.DoneButtonPressed | ShoppingList/Scenes/Shopping/ShoppingListViewModel.swift:166-176 | a completed list is restored and the app returns to the main screen; an active one asks for confirmation |
| Shopping.ShoppingListViewModel.DeleteItemButtonPressed | ShoppingList/Scenes/Shopping/ShoppingListViewModel.swift:178-184 | on any table removes exactly that row and lowers the counter for an unchecked row; an exact counter stays exact and an ordered table stays ordered |
| Shopping.ShoppingListViewModel.ValidateName | ShoppingList/Scenes/Shopping/ShoppingListViewModel.swift:216-235 | validates the row and returns true exactly when its error changed; false and no change without a title |
| Shopping.ShoppingListViewModel.UpdateShoppingListItem | ShoppingList/Scenes/Shopping/ShoppingListViewModel.swift:282-296 | a changed error reloads the row; otherwise a changed title is saved and typing ends; the check mark is untouched, so an exact counter stays exact and an ordered table stays ordered |
| Shopping.ShoppingListViewModel.ReportEdit | ShoppingList/Scenes/Shopping/ShoppingListViewModel.swift:287-295 | the reload or the save and end of typing, chosen by whether the error changed |
| Shopping.ShoppingListViewModel.TextFieldDidBeginEditing | ShoppingList/Scenes/Shopping/ShoppingListViewModel.swift:302-304 | typing starts |
| Shopping.ShoppingListViewModel.EditQuantityButtonPressed | ShoppingList/Scenes/Shopping/ShoppingListViewModel.swift:306-312 | ignored while typing; otherwise opens the picker on the row's quantity and unit |
| Shopping.ShoppingListViewModel.CheckBoxTapped | ShoppingList/Scenes/Shopping/ShoppingListViewModel.swift:314-344 | ignored for a completed list or while typing; otherwise, on any table, the row flips and moves to the counter's target exactly when the source's tests against the counter say so (else it is reloaded), and the counter moves by one towards the flip; an exact counter stays exact, and an ordered table stays ordered |
| Shopping.ShoppingListViewModel.TapRows | ShoppingList/Scenes/Shopping/ShoppingListViewModel.swift:314-344 | the tapped table, the new counter, whether the row moves and where; an exact counter stays exact and an ordered table, with the button row last, stays ordered |
| Shopping.ShoppingListViewModel.AddNewItemButtonPressed | ShoppingList/Scenes/Shopping/ShoppingListViewModel.swift:346-359 | ignored while typing or while a row is incomplete; otherwise an untitled unchecked row is inserted at the counter, which grows by one, on any table; an exact counter stays exact, an ordered table stays ordered, and the table is then incomplete so a second press adds nothing |
| Shopping.ShoppingListViewModel.UnitSelected | ShoppingList/Scenes/Shopping/ShoppingListViewModel.swift:364-367 | sets the row's unit and reloads it; an exact counter stays exact and an ordered table stays ordered |
| Shopping.ShoppingListViewModel.QuantitySelected | ShoppingList/Scenes/Shopping/ShoppingListViewModel.swift:369-372 | sets the row's quantity and reloads it; an exact counter stays exact and an ordered table stays ordered |
| Shopping.ShoppingListViewModel.UncheckItemRows | ShoppingList/Scenes/Shopping/ShoppingListViewModel.swift:380-384 | the loop clears the mark of every item row and leaves the button row alone |
| Shopping.ShoppingListViewModel.ConfirmButtonPressed | ShoppingList/Scenes/Shopping/ShoppingListViewModel.swift:377-392 | a pinned list saves a completed copy, then unchecks its items and saves itself; any other list is completed and saved; then the screen closes |
| Shopping.ShoppingListViewModel.CancelButtonPressed | ShoppingList/Scenes/Shopping/ShoppingListViewModel.swift:394-396 | dismisses the confirmation and changes nothing else |
| Shopping.RowMovedBreaksOrdering | ShoppingList/Scenes/Shopping/ShoppingListViewModel.swift:161-164 | dragging a checked row above an unchecked one breaks the ordering |
| ShoppingEdition.LoadedRows | ShoppingList/ShoppingListEdition/ShoppingListViewModel.swift:221-231 | one row per stored item |
| ShoppingEdition.StoredItems | ShoppingList/ShoppingListEdition/ShoppingListViewModel.swift:270-280 | every row but the last is stored |
| ShoppingEdition.LoadedRowsStep | ShoppingList/ShoppingListEdition/ShoppingListViewModel.swift:221-227 | one more loop step appends the row of the next item |
| ShoppingEdition.SaveThenLoad | ShoppingList/ShoppingListEdition/ShoppingListViewModel.swift:217-237 | a table without error captions is saved and loaded back unchanged |
| ShoppingEdition.LoadedKeepsOrder | ShoppingList/ShoppingListEdition/ShoppingListViewModel.swift:217-237 | items stored unchecked-first load into a table that keeps the ordering |
| ShoppingEdition.LoadedRowsCount | ShoppingList/ShoppingListEdition/ShoppingListViewModel.swift:221-231 | loading keeps the number of unchecked items |
| ShoppingEdition.LoadedAppendCount | ShoppingList/ShoppingListEdition/ShoppingListViewModel.swift:221-236 | appending the loaded rows and the button row adds the loaded items' unchecked count to the table's |
| ShoppingEdition.NewRowAtCounter | ShoppingList/ShoppingListEdition/ShoppingListViewModel.swift:372-380 | on any table the row inserted at the counter adds one unchecked row; on an ordered table it keeps the button row last and joins the end of the unchecked rows |
| ShoppingEdition.NameError | ShoppingList/ShoppingListEdition/ShoppingListViewModel.swift:246-257 | empty first, then spaces only, no error otherwise |
| ShoppingEdition.ValidatedRow | ShoppingList/ShoppingListEdition/ShoppingListViewModel.swift:246-257 | a rejected title becomes the placeholder with its caption; an accepted one loses its caption; nothing else changes |
| ShoppingEdition.ValidatedTitleIsAccepted | ShoppingList/ShoppingListEdition/ShoppingListViewModel.swift:246-257 | a validated title is always accepted, so validating again only clears the caption |
| ShoppingEdition.WithItemsChecked | ShoppingList/ShoppingListEdition/ShoppingListViewModel.swift:192-196 | every item row gets the mark and the button row is left alone |
| ShoppingEdition.UnitIndex | ShoppingList/ShoppingListEdition/ShoppingListViewModel.swift:391-400 | the index shown for a unit is in `0 ..< 4` |
| ShoppingEdition.UnitIndexRoundTrip | ShoppingList/ShoppingListEdition/ShoppingListViewModel.swift:387-423 | selecting the shown index gives back the unit, and each index in `0 ..< 4` is shown for exactly one unit |
| ShoppingEdition.QuantityButtons | ShoppingList/ShoppingListEdition/ShoppingListViewModel.swift:425-441 | the buttons stay in `1 ... 99`, change the quantity except at the end they clamp at, and undo each other away from that end |
| ShoppingEdition.PlusGuardAlwaysHolds | ShoppingList/ShoppingListEdition/ShoppingListViewModel.swift:436 | the plus button's guard holds for every quantity, including 99 where nothing changes |
| ShoppingEdition.ShoppingListViewModel.constructor | ShoppingList/ShoppingListEdition/ShoppingListViewModel.swift:56-59 | starts on the given list with an empty table, no sort order, the gate down and empty logs |
| ShoppingEdition.ShoppingListViewModel.ViewWillAppear | ShoppingList/ShoppingListEdition/ShoppingListViewModel.swift:62-65 | loads the list and sets the bottom button state, announced only when it changed |
| ShoppingEdition.ShoppingListViewModel.LoadItems | ShoppingList/ShoppingListEdition/ShoppingListViewModel.swift:221-231 | the loop yields one row per stored item in order and the number of unchecked items |
| ShoppingEdition.ShoppingListViewModel.LoadList | ShoppingList/ShoppingListEdition/ShoppingListViewModel.swift:217-237 | appends the loaded rows and one button row and counts the loaded unchecked items; an exact counter stays exact, and on a fresh screen the ordering holds when the store returned unchecked items first |
| ShoppingEdition.ShoppingListViewModel.UpdateBottomButtonState | ShoppingList/ShoppingListEdition/ShoppingListViewModel.swift:259-267 | the "done" state exactly for a completed list or when no row is unchecked, announced only when it changed |
| ShoppingEdition.ShoppingListViewModel.GetRowHeight | ShoppingList/ShoppingListEdition/ShoppingListViewModel.swift:83-92 | 81 exactly for an item row with an error, else 52 |
| ShoppingEdition.ShoppingListViewModel.GetCellParams | ShoppingList/ShoppingListEdition/ShoppingListViewModel.swift:94-103 | the last row is the button cell and the cell shows the row |
| ShoppingEdition.ShoppingListViewModel.TableFinishedUpdating | ShoppingList/ShoppingListEdition/ShoppingListViewModel.swift:105-109 | enables interaction, saves the list and refreshes the bottom button |
| ShoppingEdition.ShoppingListViewModel.BuildStoredItems | ShoppingList/ShoppingListEdition/ShoppingListViewModel.swift:270-280 | the loop stores every row but the last, in order |
| ShoppingEdition.ShoppingListViewModel.SaveListToStorage | ShoppingList/ShoppingListEdition/ShoppingListViewModel.swift:269-295 | one storage call with the stored rows, as an update or as a new completed unpinned copy |
| ShoppingEdition.ShoppingListViewModel.SplitByCheckMark | ShoppingList/ShoppingListEdition/ShoppingListViewModel.swift:113-123 | the loop collects the unchecked item rows and the checked ones, each in table order, and reloads every item row |
| ShoppingEdition.ShoppingListViewModel.SortRows | ShoppingList/ShoppingListEdition/ShoppingListViewModel.swift:113-139 | the table built from the two collections is the sorted table, as long as the old one, ending with the button row, with exactly its unchecked rows first |
| ShoppingEdition.ShoppingListViewModel.SortButtonPressed | ShoppingList/ShoppingListEdition/ShoppingListViewModel.swift:112-143 | from any table with an item row: the unchecked rows sorted (ascending unless the last sort was ascending), then the checked rows as they were, then a new button row, every item row reloaded; the unchecked rows come first, and a table with an exact counter and a checked last row, or a valid one, ends valid |
| ShoppingEdition.ShoppingListViewModel.CheckAllRows | ShoppingList/ShoppingListEdition/ShoppingListViewModel.swift:145-176 | the loop gives every item row the mark, collects in order exactly the rows whose mark differed, and moves the counter by one per collected row |
| ShoppingEdition.ShoppingListViewModel.CheckAllSwitchIs | ShoppingList/ShoppingListEdition/ShoppingListViewModel.swift:145-176 | with an item row, every item row gets the mark and the button row is left alone; exactly the rows whose mark differed are reloaded, in one update when any; the counter moves by their number and stays exact, and a valid table stays valid with the counter 0 or all item rows |
| ShoppingEdition.ShoppingListViewModel.MoveItemInArray | ShoppingList/ShoppingListEdition/ShoppingListViewModel.swift:239-244 | the move, nothing at all when source and destination coincide, and an exact counter stays exact |
| ShoppingEdition.ShoppingListViewModel.RowMoved | ShoppingList/ShoppingListEdition/ShoppingListViewModel.swift:178-180 | applies the move as it comes; an exact counter stays exact, the ordering is not claimed |
| ShoppingEdition.ShoppingListViewModel.BottomButtonPressed | ShoppingList/ShoppingListEdition/ShoppingListViewModel.swift:182-205 | a completed list is restored; a pinned one saves a completed copy, unchecks its items and saves itself; any other is completed and saved; the success screen shows its title |
| ShoppingEdition.ShoppingListViewModel.DeleteItemButtonPressed | ShoppingList/ShoppingListEdition/ShoppingListViewModel.swift:207-214 | on any table removes exactly that row and lowers the counter for an unchecked row; an exact counter stays exact and an ordered table stays ordered |
| ShoppingEdition.ShoppingListViewModel.ValidateName | ShoppingList/ShoppingListEdition/ShoppingListViewModel.swift:246-257 | replaces the row by its validated form |
| ShoppingEdition.ShoppingListViewModel.UpdateShoppingListItem | ShoppingList/ShoppingListEdition/ShoppingListViewModel.swift:300-318 | lifts the gate, stores the validated row, reloads it exactly when its caption changed and saves exactly when its title, quantity or unit changed; the check mark is untouched, so an exact counter stays exact and an ordered table stays ordered |
| ShoppingEdition.ShoppingListViewModel.ReportEdit | ShoppingList/ShoppingListEdition/ShoppingListViewModel.swift:307-317 | the reload when the caption changed and the save when the stored fields changed |
| ShoppingEdition.ShoppingListViewModel.TextFieldDidBeginEditing | ShoppingList/ShoppingListEdition/ShoppingListViewModel.swift:320-322 | raises the gate |
| ShoppingEdition.ShoppingListViewModel.EditQuantityButtonPressed | ShoppingList/ShoppingListEdition/ShoppingListViewModel.swift:324-329 | ignored while the gate is up; otherwise opens the pop-up |
| ShoppingEdition.ShoppingListViewModel.CheckBoxTapped | ShoppingList/ShoppingListEdition/ShoppingListViewModel.swift:331-363 | ignored for a completed list or while the gate is up; otherwise, on any table, the row flips and moves to the counter's target exactly when the source's tests against the counter say so (else it is reloaded), and the counter moves by one towards the flip; an exact counter stays exact, and an ordered table stays ordered |
| ShoppingEdition.ShoppingListViewModel.TapRows | ShoppingList/ShoppingListEdition/ShoppingListViewModel.swift:331-363 | the tapped table, the new counter, whether the row moves and where; an exact counter stays exact and an ordered table, with the button row last, stays ordered |
| ShoppingEdition.ShoppingListViewModel.AddNewItemButtonPressed | ShoppingList/ShoppingListEdition/ShoppingListViewModel.swift:368-381 | ignored while the gate is up; otherwise, on any table, a placeholder row is inserted at the counter, which grows by one; an exact counter stays exact and an ordered table stays ordered |
| ShoppingEdition.ShoppingListViewModel.PopUpView | ShoppingList/ShoppingListEdition/ShoppingListViewModel.swift:387-403 | on opening hands over the row's quantity and unit index; interaction is disabled exactly while it shows |
| ShoppingEdition.ShoppingListViewModel.UnitSelected | ShoppingList/ShoppingListEdition/ShoppingListViewModel.swift:405-423 | the row takes the unit of the index (a piece past 2), nothing changes for the shown index, and the row is reloaded; an exact counter stays exact and an ordered table stays ordered |
| ShoppingEdition.ShoppingListViewModel.MinusButtonPressed | ShoppingList/ShoppingListEdition/ShoppingListViewModel.swift:425-432 | one less, never below 1, announced only when it changed; an exact counter stays exact and an ordered table stays ordered |
| ShoppingEdition.ShoppingListViewModel.PlusButtonPressed | ShoppingList/ShoppingListEdition/ShoppingListViewModel.swift:434-441 | one more, never above 99, announced on every press; an exact counter stays exact and an ordered table stays ordered |
| ShoppingEdition.ShoppingListViewModel.PlusButtonPressedOnChange | ShoppingList/ShoppingListEdition/ShoppingListViewModel.swift:425-441 | one more, never above 99, announced only when it changed; an exact counter stays exact and an ordered table stays ordered |
| ShoppingEdition.ShoppingListViewModel.DoneButtonPressed | ShoppingList/ShoppingListEdition/ShoppingListViewModel.swift:443-445 | asks for the pop-up to close and changes nothing else |

## Left out

- Floating point: the picker's and the later shopping screen's `Float` quantities are integers counted in tenths. Parsing text into a number, `String(format: "%.1f")` and `getQuantity()` are left out; the picker receives its text already parsed. The `Int16` and `Int` conversions of stored quantities are taken as exact.
- `PopUp.MinusQuantity`, `PopUp.PlusQuantity`: on tenths the kg/litre rounding to one decimal is exact, so the rounding mode is not modelled.
- Date formatting in the main screen's cells: the date is passed on unformatted.
- `Strings.Lowercased`: only the ASCII letters are folded; Swift's full Unicode lower-casing is not modelled.
- `Strings.LessOrEqual`: titles compare by character code, not by Swift's Unicode string comparison.
- `Sorting.SortBy`, `MainScreen.SortedPinnedFirst`: Swift's sort is not stable. The model computes one stable order, which is one of the results Swift's sort may give; their own contracts, and `OrderedTable.SortOrdersUnchecked`, claim only the order and the permutation that every such result shares. `SortButtonPressed` is stated against that one computed order.
- UIKit, the view controllers and cells, `LanguageManager`, `ThemeManager`, the coordinator's navigation and persistence, and concurrency: the view models' calls into them are recorded in logs.
- The storage service and Core Data are not part of this model: the calls are recorded, and what a read returns is a parameter. Core Data fetches carry no sort order, so the order of reloaded items is whatever the parameter says.
- `Shopping.ShoppingListViewModel.LoadList`, `ShoppingEdition.ShoppingListViewModel.LoadList`: the ordering is claimed only when the store returns the unchecked items first, since the store promises no order.
- `Shopping.ShoppingListViewModel.ViewWillAppear`, `ShoppingEdition.ShoppingListViewModel.ViewWillAppear`: a second call appends the loaded rows and another button row, as the source does; the ordering is claimed only on a fresh screen.
- `Shopping.ShoppingListViewModel.SortButtonPressed`, `ShoppingEdition.ShoppingListViewModel.SortButtonPressed`: require at least one item row; with the button row alone the closed range `0...count - 2` traps.
- The row-level callbacks (delete, check box, unit, quantity, edit) require an item row, since the controllers offer them only on item rows. They accept any table otherwise; `checkBoxTapped(in:)` and `addNewItemButtonPressed()` require only that the index they move a row to lies in the table, where Swift would trap.
- `Shopping.ShoppingListViewModel.ConfirmButtonPressed`, `ShoppingEdition.ShoppingListViewModel.BottomButtonPressed`: unchecking the items of a pinned list does not update `uncheckedItemsCount`, as in the source (the screen is being left), so `Valid()` is not claimed afterwards.
- `Shopping.ShoppingListViewModel.RowMoved`, `ShoppingEdition.ShoppingListViewModel.RowMoved`: the ordering is not claimed; see "## Findings".
- The `row:` number given to `NewListCellParams` when a row is created is never read back and is left out, as is the unused `id` of `ShopListCellParams`.
- `Sequences.RemoveAt`, `Sequences.InsertAt`, `Sequences.MoveItem`, `Sequences.Range`: their own contracts state only length and placement; the element-by-element facts are in `RemoveAtShifts`, `InsertAtShifts`, `MoveItemShifts` and `RangeContents`.
- `Shopping.LoadedRows`, `Shopping.StoredItems`, `ShoppingEdition.LoadedRows`, `ShoppingEdition.StoredItems`: their own contracts state only the length; the contents are stated by the loops that compute them and by `SaveThenLoad`.
- `Shopping.ShoppingListViewModel.ReportEdit`, `ShoppingEdition.ShoppingListViewModel.ReportEdit`: these are the tail of `updateShoppingListItem`, kept as separate methods; they do not exist in the source.
- The getters that only return a field (`getListTitle`, `getTableRowCount`, `listIsCompleted`, `getBottomButtonName`, `getScreenTitle`, `getSwipeHintText`, `getStubState`, `getTextFieldEditState`, `getTheme`, `getUnitIndex`) are functions without contracts of their own.

## Findings

| source | as written | input that shows it | evidently intended | confidence | as-written member | corrected member |
|---|---|---|---|---|---|---|
| ShoppingList/Scenes/Shopping/ShoppingListViewModel.swift:161-164 | `rowMoved(from:to:)` applies any drag, and `isDropAllowed(for:)` is never consulted before the move | table [unchecked "a", checked "b", button] with the counter at 1; drag row 1 to row 0 | a drag moves a row only within the unchecked rows, so the unchecked rows stay the first `uncheckedItemsCount` | not executed | Shopping.ShoppingListViewModel.RowMoved, Shopping.RowMovedBreaksOrdering | Shopping.ShoppingListViewModel.RowMovedWithinUnchecked |
| ShoppingList/ShoppingListEdition/ShoppingListViewModel.swift:434-441 | `plusButtonPressed(item:)` tests the quantity against `max(quantity + 1, 99)`, which is never equal to it | quantity 99: the row is reloaded and 99 re-sent though nothing changed | the guard compares against the new quantity `min(quantity + 1, 99)`, as `minusButtonPressed(item:)` does | not executed | ShoppingEdition.ShoppingListViewModel.PlusButtonPressed, ShoppingEdition.PlusGuardAlwaysHolds | ShoppingEdition.ShoppingListViewModel.PlusButtonPressedOnChange |
