/** The two whole-table moves both shopping-mode view models make on a table whose last row is
    the "add product" button: sorting the unchecked rows, and flipping one row's check mark and
    moving it to the boundary; and what checking or unchecking every row does to the count of
    unchecked rows. Stated once for any row type; `checked` reads a row's check mark and `key`
    its sort key. */
module OrderedTable {
  import opened Sequences
  import opened CheckedPrefix
  import opened Sorting

  /** The table `sortButtonPressed()` builds from the item rows (every row but the last): the
      unchecked ones sorted by `key`, then the checked ones in their old order, then a new
      button row. */
  function SortedTable<T>(rows: seq<T>, checked: T -> bool, key: T -> string, ascending: bool, button: T): seq<T>
    requires |rows| >= 1
  {
    var items := rows[..|rows| - 1];
    SortBy(Filter(items, Unchecked(checked)), key, ascending) + Filter(items, checked) + [button]
  }

  /** The unchecked and the checked rows together are all the rows. */
  lemma {:induction false} FilterPartition<T>(s: seq<T>, checked: T -> bool)
    ensures multiset(Filter(s, Unchecked(checked))) + multiset(Filter(s, checked)) == multiset(s)
  {
    if |s| > 0 {
      var n := |s| - 1;
      var last := s[n];
      FilterPartition(s[..n], checked);
      assert s == s[..n] + [last];
      assert Unchecked(checked)(last) == !checked(last);
      SnocJoinsEitherSide(Filter(s[..n], Unchecked(checked)), Filter(s[..n], checked), s[..n], last);
    }
  }

  /** One more element joins the multiset union from either side. */
  lemma SnocJoinsEitherSide<T>(a: seq<T>, b: seq<T>, c: seq<T>, x: T)
    requires multiset(a) + multiset(b) == multiset(c)
    ensures multiset(a + [x]) + multiset(b) == multiset(c + [x])
    ensures multiset(a) + multiset(b + [x]) == multiset(c + [x])
  {
  }

  /** On a table that already keeps the ordering, the unchecked rows among the first `j` are
      the first `u` of them and the checked rows the rest. */
  lemma {:induction false} FilterOfOrdered<T>(s: seq<T>, checked: T -> bool, u: int, j: nat)
    requires UncheckedPrefix(s, checked, u) && j <= |s|
    ensures var v := if j < u then j else u;
      Filter(s[..j], Unchecked(checked)) == s[..v] && Filter(s[..j], checked) == s[v..j]
  {
    if j > 0 {
      var i := j - 1;
      FilterOfOrdered(s, checked, u, i);
      FilterStep(s, i, Unchecked(checked));
      FilterStep(s, i, checked);
      assert Unchecked(checked)(s[i]) == !checked(s[i]);
      if checked(s[i]) {
        assert u <= i;
        SliceSnoc(s, u, i);
        assert Filter(s[..j], checked) == s[u..j];
        assert Filter(s[..j], Unchecked(checked)) == s[..u];
      } else {
        assert i < u;
        SliceSnoc(s, 0, i);
        assert s[..j] == s[0..j] && s[..i] == s[0..i];
        assert Filter(s[..j], checked) == [] == s[j..j];
        assert Filter(s[..j], Unchecked(checked)) == s[..j];
      }
    } else {
      assert Filter(s[..j], checked) == [] == s[..j];
    }
  }

  /** Whatever the order before, the sorted table has as many rows, ends with the button row,
      and its unchecked rows come first: as many as there were unchecked item rows. */
  lemma SortKeepsOrdering<T>(rows: seq<T>, checked: T -> bool, key: T -> string, ascending: bool, button: T)
    requires |rows| >= 1 && checked(button)
    ensures var table := SortedTable(rows, checked, key, ascending, button);
      |table| == |rows| && table[|table| - 1] == button &&
      UncheckedPrefix(table, checked, Count(rows[..|rows| - 1], Unchecked(checked)))
  {
    var items := rows[..|rows| - 1];
    var unchecked := Filter(items, Unchecked(checked));
    var sorted := SortBy(unchecked, key, ascending);
    var checkedRows := Filter(items, checked);
    var table := SortedTable(rows, checked, key, ascending, button);
    var c := |unchecked|;
    CountComplement(items, checked);
    PermutationKeepsAll(unchecked, sorted, Unchecked(checked));
    forall i | 0 <= i < |table|
      ensures checked(table[i]) <==> c <= i
    {
      if i < c {
        assert table[i] == sorted[i];
        assert Unchecked(checked)(sorted[i]) == !checked(sorted[i]);
      } else if i < |rows| - 1 {
        assert table[i] == checkedRows[i - c];
      }
    }
  }

  /** A counter that matched the unchecked rows before the sort, or the boundary of a table
      already in order, is the boundary of the sorted table. */
  lemma SortedTableBoundary<T>(rows: seq<T>, checked: T -> bool, u: int, key: T -> string, ascending: bool, button: T)
    requires |rows| >= 1 && checked(button) && checked(rows[|rows| - 1])
    requires u == Count(rows, Unchecked(checked)) || UncheckedPrefix(rows, checked, u)
    ensures UncheckedPrefix(SortedTable(rows, checked, key, ascending, button), checked, u)
  {
    SortKeepsOrdering(rows, checked, key, ascending, button);
    CheckedLastRowUncounted(rows, checked, u);
  }

  /** The sort puts the unchecked rows in order, keeps the checked rows in their old order after
      them, and permutes the item rows. */
  lemma SortOrdersUnchecked<T>(rows: seq<T>, checked: T -> bool, key: T -> string, ascending: bool, button: T)
    requires |rows| >= 1
    ensures var table := SortedTable(rows, checked, key, ascending, button);
      var c := Count(rows[..|rows| - 1], Unchecked(checked));
      c < |table| &&
      SortedBy(table[..c], key, ascending) &&
      table[c..|table| - 1] == Filter(rows[..|rows| - 1], checked) &&
      multiset(table[..|table| - 1]) == multiset(rows[..|rows| - 1])
  {
    var items := rows[..|rows| - 1];
    var unchecked := Filter(items, Unchecked(checked));
    var sorted := SortBy(unchecked, key, ascending);
    var table := SortedTable(rows, checked, key, ascending, button);
    SortByIsSorted(unchecked, key, ascending);
    FilterPartition(items, checked);
    assert table[..|unchecked|] == sorted;
    assert table[..|table| - 1] == sorted + Filter(items, checked);
  }

  /** On a table that already keeps the ordering with the button row last, sorting keeps the
      boundary, permutes only the unchecked rows and leaves the rest where it was. */
  lemma SortOnOrderedTable<T>(rows: seq<T>, checked: T -> bool, u: int, key: T -> string, ascending: bool, button: T)
    requires |rows| >= 1 && rows[|rows| - 1] == button && checked(button) && UncheckedPrefix(rows, checked, u)
    ensures Count(rows[..|rows| - 1], Unchecked(checked)) == u
    ensures var table := SortedTable(rows, checked, key, ascending, button);
      table[u..] == rows[u..] && multiset(table[..u]) == multiset(rows[..u])
  {
    var n := |rows| - 1;
    assert u <= n by {
      assert checked(rows[n]);
    }
    FilterOfOrdered(rows, checked, u, n);
    SortSplitTable(rows, checked, u, key, ascending, button);
  }

  /** The sorted table of a table whose unchecked item rows are its first `u`. */
  lemma SortSplitTable<T>(rows: seq<T>, checked: T -> bool, u: int, key: T -> string, ascending: bool, button: T)
    requires 0 <= u < |rows| && rows[|rows| - 1] == button
    requires Filter(rows[..|rows| - 1], Unchecked(checked)) == rows[..u]
    requires Filter(rows[..|rows| - 1], checked) == rows[u..|rows| - 1]
    ensures var table := SortedTable(rows, checked, key, ascending, button);
      table[u..] == rows[u..] && multiset(table[..u]) == multiset(rows[..u])
  {
    var n := |rows| - 1;
    var sorted := SortBy(rows[..u], key, ascending);
    var table := SortedTable(rows, checked, key, ascending, button);
    SuffixSnoc(rows, u);
    assert table == sorted + rows[u..];
    AppendSplits(sorted, rows[u..]);
  }

  /** The test `checkAllSwitchIs(on:)` applies to each item row: its mark differs from `on`. */
  function Differs<T>(checked: T -> bool, on: bool): T -> bool {
    if on then Unchecked(checked) else checked
  }

  /** One step of the loop of `checkAllSwitchIs(on:)`: row `index` is collected, and the counter
      moves, exactly when its mark differs from `on`. */
  lemma CheckAllStep<T>(rows: seq<T>, checked: T -> bool, on: bool, index: nat, u: int, count: int, changed: seq<int>)
    requires index < |rows|
    requires changed == IndexesWhere(rows[..index], Differs(checked, on))
    requires count == u + (if on then -|changed| else |changed|)
    ensures var flips := checked(rows[index]) != on;
      var next := changed + (if flips then [index] else []);
      next == IndexesWhere(rows[..index + 1], Differs(checked, on)) &&
      count + (if flips then (if on then -1 else 1) else 0) == u + (if on then -|next| else |next|)
  {
    IndexesWhereStep(rows, index, Differs(checked, on));
    assert Differs(checked, on)(rows[index]) == (checked(rows[index]) != on);
  }

  /** Giving every item row the mark `on` and leaving the last row alone changes the number of
      unchecked rows by exactly the number of item rows whose mark differed. */
  lemma CheckAllCount<T>(rows: seq<T>, newRows: seq<T>, checked: T -> bool, on: bool)
    requires |rows| >= 1 && |newRows| == |rows| && newRows[|rows| - 1] == rows[|rows| - 1]
    requires forall k :: 0 <= k < |rows| - 1 ==> checked(newRows[k]) == on
    ensures var changed: int := Count(rows[..|rows| - 1], Differs(checked, on));
      Count(newRows, Unchecked(checked)) == Count(rows, Unchecked(checked)) + (if on then -changed else changed)
  {
    var n := |rows| - 1;
    var last := rows[n];
    assert rows == rows[..n] + [last];
    assert newRows == newRows[..n] + [last];
    CountAppend(rows[..n], [last], Unchecked(checked));
    CountAppend(newRows[..n], [last], Unchecked(checked));
    CountComplement(rows[..n], checked);
    assert forall k :: 0 <= k < n ==> Unchecked(checked)(newRows[..n][k]) == !on;
    CountAll(newRows[..n], Unchecked(checked));
  }

  /** What `checkAllSwitchIs(on:)` leaves, given the rows it changed and its counter: the changed
      rows are exactly the item rows whose mark differed from `on`; a counter that matched the
      unchecked rows still does; and on a table in order, the new table is in order with every
      item row on one side of the boundary. */
  lemma CheckAllOutcome<T>(rows: seq<T>, newRows: seq<T>, checked: T -> bool, u: int, count: int, changed: seq<int>, on: bool)
    requires |rows| >= 1 && |newRows| == |rows| && newRows[|rows| - 1] == rows[|rows| - 1]
    requires forall k :: 0 <= k < |rows| - 1 ==> checked(newRows[k]) == on
    requires changed == IndexesWhere(rows[..|rows| - 1], Differs(checked, on))
    requires count == u + (if on then -|changed| else |changed|)
    ensures forall k :: 0 <= k < |rows| - 1 ==> (k in changed <==> checked(rows[k]) != on)
    ensures u == Count(rows, Unchecked(checked)) ==> count == Count(newRows, Unchecked(checked))
    ensures checked(rows[|rows| - 1]) && UncheckedPrefix(rows, checked, u) ==>
      count == (if on then 0 else |rows| - 1) && UncheckedPrefix(newRows, checked, count)
  {
    ChangedRows(rows, checked, on);
    CheckAllCount(rows, newRows, checked, on);
    if checked(rows[|rows| - 1]) && UncheckedPrefix(rows, checked, u) {
      PrefixLengthIsUncheckedCount(rows, checked, u);
      AllMarkedOrdered(newRows, checked, on);
    }
  }

  /** The item rows whose mark differs from `on` are those `Differs(checked, on)` selects. */
  lemma ChangedRows<T>(rows: seq<T>, checked: T -> bool, on: bool)
    requires |rows| >= 1
    ensures forall k :: 0 <= k < |rows| - 1 ==>
      (k in IndexesWhere(rows[..|rows| - 1], Differs(checked, on)) <==> checked(rows[k]) != on)
  {
    var n := |rows| - 1;
    IndexesWhereContents(rows[..n], Differs(checked, on));
    assert forall k :: 0 <= k < n ==> Differs(checked, on)(rows[..n][k]) == (checked(rows[k]) != on);
  }

  /** With every item row marked `on` and a checked last row, the rows are in order with the
      boundary at 0 (all checked) or before the last row (all unchecked). */
  lemma AllMarkedOrdered<T>(rows: seq<T>, checked: T -> bool, on: bool)
    requires |rows| >= 1 && checked(rows[|rows| - 1])
    requires forall k :: 0 <= k < |rows| - 1 ==> checked(rows[k]) == on
    ensures UncheckedPrefix(rows, checked, if on then 0 else |rows| - 1)
    ensures Count(rows, Unchecked(checked)) == if on then 0 else |rows| - 1
  {
    PrefixLengthIsUncheckedCount(rows, checked, if on then 0 else |rows| - 1);
  }

  /** Where `checkBoxTapped(in:)` moves the tapped row: a checked row to the first checked
      place, an unchecked one to the last unchecked place. */
  function TapTarget<T>(rows: seq<T>, checked: T -> bool, u: int, row: int): int
    requires 0 <= row < |rows|
  {
    if checked(rows[row]) then u else u - 1
  }

  /** The tests `checkBoxTapped(in:)` makes against the counter: a checked row moves when it
      lies past the counter, an unchecked one unless it is the row just before it. */
  predicate TapMoves<T>(rows: seq<T>, checked: T -> bool, u: int, row: int)
    requires 0 <= row < |rows|
  {
    if checked(rows[row]) then row > u else row != u - 1
  }

  /** The table after tapping the check box of `row`: the row replaced by `toggled`, its
      flipped copy, and moved to the target when the tests say so. */
  function Tapped<T>(rows: seq<T>, checked: T -> bool, u: int, row: int, toggled: T): seq<T>
    requires 0 <= row < |rows|
    requires TapMoves(rows, checked, u, row) ==> 0 <= TapTarget(rows, checked, u, row) < |rows|
  {
    if TapMoves(rows, checked, u, row) then Sequences.MoveItem(rows[row := toggled], row, TapTarget(rows, checked, u, row))
    else rows[row := toggled]
  }

  /** On any table a tap changes the number of unchecked rows by one: up when the row was
      checked, down otherwise. */
  lemma TapCount<T>(rows: seq<T>, checked: T -> bool, u: int, row: int, toggled: T)
    requires 0 <= row < |rows| && checked(toggled) == !checked(rows[row])
    requires TapMoves(rows, checked, u, row) ==> 0 <= TapTarget(rows, checked, u, row) < |rows|
    ensures Count(Tapped(rows, checked, u, row, toggled), Unchecked(checked)) ==
      Count(rows, Unchecked(checked)) + (if checked(rows[row]) then 1 else -1)
  {
    var p := Unchecked(checked);
    assert p(toggled) == !checked(toggled) && p(rows[row]) == !checked(rows[row]);
    Sequences.CountReplace(rows, row, toggled, p);
    if TapMoves(rows, checked, u, row) {
      Sequences.MoveItemKeepsCount(rows[row := toggled], row, TapTarget(rows, checked, u, row), p);
    }
  }

  /** On an ordered table the tests move exactly a row that is not yet at the boundary, and a
      tap keeps the ordering with the boundary moved by one, keeps the button row last and
      puts the flipped row at the boundary. */
  lemma TapKeepsOrdering<T>(rows: seq<T>, checked: T -> bool, u: int, row: int, toggled: T, button: T)
    requires |rows| >= 1 && rows[|rows| - 1] == button && checked(button) && UncheckedPrefix(rows, checked, u)
    requires 0 <= row < |rows| - 1 && checked(toggled) == !checked(rows[row])
    ensures 0 <= TapTarget(rows, checked, u, row) < |rows| - 1
    ensures TapMoves(rows, checked, u, row) <==> row != TapTarget(rows, checked, u, row)
    ensures var table := Tapped(rows, checked, u, row, toggled);
      |table| == |rows| && table[|table| - 1] == button &&
      table[TapTarget(rows, checked, u, row)] == toggled &&
      UncheckedPrefix(table, checked, if checked(rows[row]) then u + 1 else u - 1)
  {
    if checked(rows[row]) {
      UncheckMovesToBoundary(rows, checked, u, row, toggled);
    } else {
      CheckMovesToBoundary(rows, checked, u, row, toggled);
    }
  }
}
