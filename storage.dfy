/** The storage service as the view models see it: the records they hand over and the calls
    they make. What the service does with a call is not part of this model. */
module Storage {
  import opened ListInfos
  import Sequences
  import opened CheckedPrefix

  /** `struct ListItem`; `quantity` is the number the calling view model passes, `unit` a raw unit value. */
  datatype ListItem = ListItem(name: string, quantity: int, unit: string, checked: bool)

  function ItemIsChecked(item: ListItem): bool {
    item.checked
  }

  /** Stored items whose unchecked ones come first, as a shopping table saved in order leaves
      them. */
  predicate ItemsOrdered(items: seq<ListItem>) {
    UncheckedPrefix(items, ItemIsChecked, Sequences.Count(items, Unchecked(ItemIsChecked)))
  }

  /** `ShopList`: a header and its items. */
  datatype ShopList = ShopList(info: ListInfo, items: seq<ListItem>)

  /** One call into `StorageServiceProtocol` that changes the store. */
  datatype StorageCall =
    | SaveNewList(list: ShopList)
    | UpdateList(list: ShopList)
    | UpdateListInfo(info: ListInfo)
    | DeleteList(id: ListId)
    | RestoreList(id: ListId)

  /** How the shopping screens' `saveListToStorage(duplicatePinned:)` saves: update the list
      itself, or save a completed copy of a pinned list under the `UUID()` and `Date()` passed in. */
  datatype SaveMode = UpdateCurrent | DuplicatePinned(newId: ListId, now: Date)

  /** The header a save writes. */
  function SavedInfo(info: ListInfo, mode: SaveMode): (r: ListInfo)
    ensures mode.UpdateCurrent? ==> r == info
    ensures mode.DuplicatePinned? ==> r.listId == mode.newId && r.title == info.title && r.date == mode.now
    ensures mode.DuplicatePinned? ==> r.completed && !r.pinned
  {
    match mode
    case UpdateCurrent => info
    case DuplicatePinned(newId, now) => ListInfo(newId, info.title, now, true, false)
  }
}
