/** The ordering both shopping-mode view models keep: the unchecked rows come first, and
    `uncheckedItemsCount` says where the checked rows begin. The trailing "add product" button
    row is stored as a checked row, so it never breaks the order. Stated once for any row type;
    `checked` reads a row's check mark. */
module CheckedPrefix {
  import opened Sequences

  /** Rows `[0, u)` are unchecked and every row from `u` on is checked. */
  predicate UncheckedPrefix<T>(s: seq<T>, checked: T -> bool, u: int) {
    0 <= u <= |s| && forall i :: 0 <= i < |s| ==> (checked(s[i]) <==> u <= i)
  }

  /** The complement of `checked`, for counting the unchecked rows. */
  function Unchecked<T>(checked: T -> bool): T -> bool {
    x => !checked(x)
  }

  /** Under the ordering, the boundary is exactly the number of unchecked rows. */
  lemma PrefixLengthIsUncheckedCount<T>(s: seq<T>, checked: T -> bool, u: int)
    requires UncheckedPrefix(s, checked, u)
    ensures Count(s, Unchecked(checked)) == u
  {
    assert s == s[..u] + s[u..];
    CountAppend(s[..u], s[u..], Unchecked(checked));
    CountAll(s[..u], Unchecked(checked));
    CountAll(s[u..], Unchecked(checked));
  }

  /** A checked last row adds nothing to the count of unchecked rows, so under the ordering
      the boundary is also the number of unchecked rows before the last. */
  lemma CheckedLastRowUncounted<T>(s: seq<T>, checked: T -> bool, u: int)
    requires |s| >= 1 && checked(s[|s| - 1])
    ensures Count(s[..|s| - 1], Unchecked(checked)) == Count(s, Unchecked(checked))
    ensures UncheckedPrefix(s, checked, u) ==> Count(s[..|s| - 1], Unchecked(checked)) == u
  {
    var n := |s| - 1;
    assert s == s[..n] + [s[n]];
    CountAppend(s[..n], [s[n]], Unchecked(checked));
    assert Unchecked(checked)(s[n]) == !checked(s[n]);
    assert [s[n]][1..] == [];
    if UncheckedPrefix(s, checked, u) {
      PrefixLengthIsUncheckedCount(s, checked, u);
    }
  }

  /** Every row is either checked or unchecked. */
  lemma {:induction false} CountComplement<T>(s: seq<T>, checked: T -> bool)
    ensures Count(s, checked) + Count(s, Unchecked(checked)) == |s|
  {
    if |s| > 0 {
      CountComplement(s[1..], checked);
      assert Unchecked(checked)(s[0]) == !checked(s[0]);
    }
  }

  /** Unchecking a checked row and moving it to the boundary extends the unchecked prefix by one. */
  lemma UncheckMovesToBoundary<T>(s: seq<T>, checked: T -> bool, u: int, row: nat, x: T)
    requires UncheckedPrefix(s, checked, u) && u <= row < |s| && !checked(x)
    ensures UncheckedPrefix(MoveItem(s[row := x], row, u), checked, u + 1)
  {
  }

  /** Checking an unchecked row and moving it to the last unchecked place shrinks the prefix by one. */
  lemma CheckMovesToBoundary<T>(s: seq<T>, checked: T -> bool, u: int, row: nat, x: T)
    requires UncheckedPrefix(s, checked, u) && row < u && checked(x)
    ensures UncheckedPrefix(MoveItem(s[row := x], row, u - 1), checked, u - 1)
  {
  }

  /** A new unchecked row inserted at the boundary joins the prefix. */
  lemma InsertAtBoundary<T>(s: seq<T>, checked: T -> bool, u: int, x: T)
    requires UncheckedPrefix(s, checked, u) && !checked(x)
    ensures UncheckedPrefix(InsertAt(s, x, u), checked, u + 1)
  {
  }

  /** Removing a row takes it out of the number of unchecked rows when it was unchecked,
      whatever the order, and keeps an ordering, whose boundary then moves down by one. */
  lemma RemoveKeepsPrefix<T>(s: seq<T>, checked: T -> bool, u: int, row: nat)
    requires row < |s|
    ensures Count(RemoveAt(s, row), Unchecked(checked)) == Count(s, Unchecked(checked)) - (if checked(s[row]) then 0 else 1)
    ensures UncheckedPrefix(s, checked, u) ==> UncheckedPrefix(RemoveAt(s, row), checked, if checked(s[row]) then u else u - 1)
  {
    assert Unchecked(checked)(s[row]) == !checked(s[row]);
    CountRemoveAt(s, row, Unchecked(checked));
  }

  /** Replacing a row by one with the same check mark keeps the number of unchecked rows,
      whatever the order, and keeps an ordering with the same boundary. */
  lemma ReplaceKeepsPrefix<T>(s: seq<T>, checked: T -> bool, u: int, i: nat, x: T)
    requires i < |s| && checked(x) == checked(s[i])
    ensures Count(s[i := x], Unchecked(checked)) == Count(s, Unchecked(checked))
    ensures UncheckedPrefix(s, checked, u) ==> UncheckedPrefix(s[i := x], checked, u)
  {
    assert Unchecked(checked)(x) == Unchecked(checked)(s[i]);
    CountReplace(s, i, x, Unchecked(checked));
  }

  /** Moving a row within the unchecked prefix keeps the order. */
  lemma MoveWithinPrefix<T>(s: seq<T>, checked: T -> bool, u: int, from: nat, to: nat)
    requires UncheckedPrefix(s, checked, u) && from < u && to < u
    ensures UncheckedPrefix(MoveItem(s, from, to), checked, u)
  {
  }
}
