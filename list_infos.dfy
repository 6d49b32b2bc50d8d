/** `struct ListInfo`: the header of a stored shopping list. The struct is a value type, so a
    `mutating` method replaces the value held by its variable; here it is a function that
    returns the updated value and the caller assigns it back. */
module ListInfos {

  /** A `UUID`, as an opaque identifier. */
  type ListId = nat
  /** A `Date`, as an opaque instant. */
  type Date = int

  datatype ListInfo = ListInfo(listId: ListId, title: string, date: Date, completed: bool, pinned: bool) {

    /** `togglePinned()` */
    function TogglePinned(): (r: ListInfo)
      ensures r.pinned != pinned
      ensures r.listId == listId && r.title == title && r.date == date && r.completed == completed
    {
      this.(pinned := !pinned)
    }

    /** `setCompleted(to:)` */
    function SetCompleted(state: bool): (r: ListInfo)
      ensures r.completed == state
      ensures r.listId == listId && r.title == title && r.date == date && r.pinned == pinned
    {
      this.(completed := state)
    }
  }

  lemma TogglePinnedTwice(info: ListInfo)
    ensures info.TogglePinned().TogglePinned() == info
  {
  }

  lemma SetCompletedIdempotent(info: ListInfo, state: bool)
    ensures info.SetCompleted(state).SetCompleted(state) == info.SetCompleted(state)
  {
  }

  /** Pinning and completing touch different fields, so their order does not matter. */
  lemma TogglePinnedCommutesWithSetCompleted(info: ListInfo, state: bool)
    ensures info.TogglePinned().SetCompleted(state) == info.SetCompleted(state).TogglePinned()
  {
  }
}
