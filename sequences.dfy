/** Generic operations on Swift arrays, as the view models use them. */
module Sequences {
  import opened Optional

  /** `s.first(where: p)`, reported as the index of the first element that satisfies `p`. */
  function FirstIndexWhere<T>(s: seq<T>, p: T -> bool): (r: Option<nat>)
    ensures r.Some? ==> r.value < |s| && p(s[r.value])
    ensures r.Some? ==> forall j :: 0 <= j < r.value ==> !p(s[j])
    ensures r.None? <==> forall j :: 0 <= j < |s| ==> !p(s[j])
  {
    if |s| == 0 then None
    else if p(s[0]) then Some(0)
    else
      var rest := FirstIndexWhere(s[1..], p);
      assert forall j :: 1 <= j < |s| ==> s[j] == s[1..][j - 1];
      if rest.None? then None else Some(rest.value + 1)
  }

  /** `array.remove(at: i)` */
  function RemoveAt<T>(s: seq<T>, i: nat): (r: seq<T>)
    requires i < |s|
    ensures |r| == |s| - 1
  {
    s[..i] + s[i + 1..]
  }

  /** Removing shifts the elements after `i` down by one and drops exactly `s[i]`. */
  lemma RemoveAtShifts<T>(s: seq<T>, i: nat)
    requires i < |s|
    ensures forall k :: 0 <= k < i ==> RemoveAt(s, i)[k] == s[k]
    ensures forall k :: i <= k < |s| - 1 ==> RemoveAt(s, i)[k] == s[k + 1]
    ensures multiset(RemoveAt(s, i)) + multiset{s[i]} == multiset(s)
  {
    assert s == s[..i] + [s[i]] + s[i + 1..];
  }

  /** `array.insert(x, at: i)` */
  function InsertAt<T>(s: seq<T>, x: T, i: nat): (r: seq<T>)
    requires i <= |s|
    ensures |r| == |s| + 1 && r[i] == x
  {
    s[..i] + [x] + s[i..]
  }

  /** Inserting shifts the elements from `i` on up by one and adds exactly `x`. */
  lemma InsertAtShifts<T>(s: seq<T>, x: T, i: nat)
    requires i <= |s|
    ensures forall k :: 0 <= k < i ==> InsertAt(s, x, i)[k] == s[k]
    ensures forall k :: i < k < |s| + 1 ==> InsertAt(s, x, i)[k] == s[k - 1]
    ensures multiset(InsertAt(s, x, i)) == multiset(s) + multiset{x}
  {
    assert s == s[..i] + s[i..];
  }

  /** The body of `moveItemInArray(from:to:)`: take the element out at `from`, then insert
      it at `to` of the shortened array; nothing happens when `from == to`. */
  function MoveItem<T>(s: seq<T>, from: nat, to: nat): (r: seq<T>)
    requires from < |s| && to < |s|
    ensures |r| == |s| && r[to] == s[from]
  {
    if from == to then s else InsertAt(RemoveAt(s, from), s[from], to)
  }

  /** Moving an element permutes the array: the elements between `from` and `to` shift by
      one place towards `from`, and those outside that span stay where they were. */
  lemma MoveItemShifts<T>(s: seq<T>, from: nat, to: nat)
    requires from < |s| && to < |s|
    ensures multiset(MoveItem(s, from, to)) == multiset(s)
    ensures from < to ==> forall k :: from <= k < to ==> MoveItem(s, from, to)[k] == s[k + 1]
    ensures to < from ==> forall k :: to < k <= from ==> MoveItem(s, from, to)[k] == s[k - 1]
    ensures forall k :: 0 <= k < |s| && k < from && k < to ==> MoveItem(s, from, to)[k] == s[k]
    ensures forall k :: 0 <= k < |s| && k > from && k > to ==> MoveItem(s, from, to)[k] == s[k]
  {
    if from != to {
      RemoveAtShifts(s, from);
      InsertAtShifts(RemoveAt(s, from), s[from], to);
    }
  }

  /** The number of elements of `s` that satisfy `p`. */
  function Count<T>(s: seq<T>, p: T -> bool): (n: nat)
    ensures n <= |s|
  {
    if |s| == 0 then 0 else (if p(s[0]) then 1 else 0) + Count(s[1..], p)
  }

  lemma {:induction false} CountAppend<T>(a: seq<T>, b: seq<T>, p: T -> bool)
    ensures Count(a + b, p) == Count(a, p) + Count(b, p)
  {
    if |a| == 0 {
      assert a + b == b;
    } else {
      assert (a + b)[1..] == a[1..] + b;
      CountAppend(a[1..], b, p);
    }
  }

  /** Counting one more element of a prefix. */
  lemma CountPrefixStep<T>(s: seq<T>, i: nat, p: T -> bool)
    requires i < |s|
    ensures Count(s[..i + 1], p) == Count(s[..i], p) + (if p(s[i]) then 1 else 0)
  {
    assert s[..i + 1] == s[..i] + [s[i]];
    CountAppend(s[..i], [s[i]], p);
    assert [s[i]][1..] == [];
  }

  /** When every element satisfies `p` the count is the length; when none does it is zero. */
  lemma {:induction false} CountAll<T>(s: seq<T>, p: T -> bool)
    ensures (forall k :: 0 <= k < |s| ==> p(s[k])) ==> Count(s, p) == |s|
    ensures (forall k :: 0 <= k < |s| ==> !p(s[k])) ==> Count(s, p) == 0
  {
    if |s| > 0 {
      assert forall k :: 1 <= k < |s| ==> s[1..][k - 1] == s[k];
      CountAll(s[1..], p);
    }
  }

  /** A permutation of a sequence whose elements all satisfy `p` has only such elements. */
  lemma PermutationKeepsAll<T>(a: seq<T>, b: seq<T>, p: T -> bool)
    requires multiset(a) == multiset(b)
    requires forall k :: 0 <= k < |a| ==> p(a[k])
    ensures forall k :: 0 <= k < |b| ==> p(b[k])
  {
    forall k | 0 <= k < |b|
      ensures p(b[k])
    {
      assert b[k] in multiset(a);
      var m :| 0 <= m < |a| && a[m] == b[k];
    }
  }

  /** A permutation has as many elements that satisfy `p`. */
  lemma {:induction false} CountPermutation<T>(a: seq<T>, b: seq<T>, p: T -> bool)
    requires multiset(a) == multiset(b)
    ensures Count(a, p) == Count(b, p)
    decreases |a|
  {
    if |a| > 0 {
      assert a[0] in multiset(b);
      var m :| 0 <= m < |b| && b[m] == a[0];
      RemoveMatchingHead(a, b, m);
      CountPermutation(a[1..], RemoveAt(b, m), p);
      CountRemoveAt(b, m, p);
    }
  }

  /** Taking the same element out of two permutations of each other leaves permutations. */
  lemma RemoveMatchingHead<T>(a: seq<T>, b: seq<T>, m: nat)
    requires multiset(a) == multiset(b) && |a| > 0 && m < |b| && b[m] == a[0]
    ensures multiset(a[1..]) == multiset(RemoveAt(b, m))
  {
    RemoveAtShifts(b, m);
    assert a == [a[0]] + a[1..];
    assert multiset(a) == multiset{a[0]} + multiset(a[1..]);
    assert multiset(a[1..]) == multiset(a) - multiset{a[0]};
    assert multiset(RemoveAt(b, m)) == multiset(b) - multiset{b[m]};
  }

  /** Moving an element changes no count. */
  lemma MoveItemKeepsCount<T>(s: seq<T>, from: nat, to: nat, p: T -> bool)
    requires from < |s| && to < |s|
    ensures Count(MoveItem(s, from, to), p) == Count(s, p)
  {
    MoveItemShifts(s, from, to);
    CountPermutation(MoveItem(s, from, to), s, p);
  }

  /** Removing `s[i]` takes it out of the count when it satisfies `p`. */
  lemma CountRemoveAt<T>(s: seq<T>, i: nat, p: T -> bool)
    requires i < |s|
    ensures Count(s, p) == Count(RemoveAt(s, i), p) + (if p(s[i]) then 1 else 0)
  {
    assert s[..i] + s[i..] == s;
    CountAppend(s[..i], s[i..], p);
    assert s[i..][0] == s[i] && s[i..][1..] == s[i + 1..];
    CountAppend(s[..i], s[i + 1..], p);
  }

  /** Replacing `s[i]` by `x` swaps their contributions to the count. */
  lemma CountReplace<T>(s: seq<T>, i: nat, x: T, p: T -> bool)
    requires i < |s|
    ensures Count(s[i := x], p) == Count(s, p) - (if p(s[i]) then 1 else 0) + (if p(x) then 1 else 0)
  {
    CountRemoveAt(s, i, p);
    CountRemoveAt(s[i := x], i, p);
    assert RemoveAt(s[i := x], i) == RemoveAt(s, i);
  }

  /** Inserting `x` adds it to the count when it satisfies `p`. */
  lemma CountInsertAt<T>(s: seq<T>, x: T, i: nat, p: T -> bool)
    requires i <= |s|
    ensures Count(InsertAt(s, x, i), p) == Count(s, p) + (if p(x) then 1 else 0)
  {
    InsertAtShifts(s, x, i);
    CountRemoveAt(InsertAt(s, x, i), i, p);
    assert RemoveAt(InsertAt(s, x, i), i) == s;
  }

  /** The elements of `s` that satisfy `p`, in their order, as a loop appending them collects them. */
  function Filter<T>(s: seq<T>, p: T -> bool): (r: seq<T>)
    ensures |r| == Count(s, p)
    ensures forall k :: 0 <= k < |r| ==> p(r[k])
  {
    if |s| == 0 then []
    else
      var last := s[|s| - 1];
      assert s == s[..|s| - 1] + [last];
      CountAppend(s[..|s| - 1], [last], p);
      assert [last][1..] == [];
      Filter(s[..|s| - 1], p) + (if p(last) then [last] else [])
  }

  /** The positions of the elements of `s` that satisfy `p`, in increasing order
      (`IndexesWhereContents`). */
  function IndexesWhere<T>(s: seq<T>, p: T -> bool): (r: seq<int>)
    ensures |r| == Count(s, p)
  {
    if |s| == 0 then []
    else
      var last := s[|s| - 1];
      assert s == s[..|s| - 1] + [last];
      CountAppend(s[..|s| - 1], [last], p);
      assert [last][1..] == [];
      IndexesWhere(s[..|s| - 1], p) + (if p(last) then [|s| - 1] else [])
  }

  /** `IndexesWhere(s, p)` holds exactly the positions whose elements satisfy `p`, each once
      and in increasing order. */
  lemma {:induction false} IndexesWhereContents<T>(s: seq<T>, p: T -> bool)
    ensures forall x :: x in IndexesWhere(s, p) <==> 0 <= x < |s| && p(s[x])
    ensures forall i, j :: 0 <= i < j < |IndexesWhere(s, p)| ==> IndexesWhere(s, p)[i] < IndexesWhere(s, p)[j]
  {
    if |s| > 0 {
      var before := IndexesWhere(s[..|s| - 1], p);
      IndexesWhereContents(s[..|s| - 1], p);
      assert forall x :: x in before ==> x < |s| - 1;
      assert forall i :: 0 <= i < |before| ==> before[i] in before;
      assert forall x :: 0 <= x < |s| - 1 ==> s[..|s| - 1][x] == s[x];
    }
  }

  /** A slice extended by its next element. */
  lemma SliceSnoc<T>(s: seq<T>, a: nat, i: nat)
    requires a <= i < |s|
    ensures s[a..i + 1] == s[a..i] + [s[i]]
  {
  }

  /** A suffix is the slice before the last element followed by the last element. */
  lemma SuffixSnoc<T>(s: seq<T>, a: nat)
    requires a < |s|
    ensures s[a..] == s[a..|s| - 1] + [s[|s| - 1]]
  {
  }

  /** A concatenation splits back into its two parts. */
  lemma AppendSplits<T>(a: seq<T>, b: seq<T>)
    ensures (a + b)[..|a|] == a && (a + b)[|a|..] == b
  {
  }

  /** One more loop step appends `s[i]` when it satisfies `p`. */
  lemma FilterStep<T>(s: seq<T>, i: nat, p: T -> bool)
    requires i < |s|
    ensures Filter(s[..i + 1], p) == Filter(s[..i], p) + (if p(s[i]) then [s[i]] else [])
  {
    assert s[..i + 1][..i] == s[..i];
  }

  /** One more loop step appends `i` when `s[i]` satisfies `p`. */
  lemma IndexesWhereStep<T>(s: seq<T>, i: nat, p: T -> bool)
    requires i < |s|
    ensures IndexesWhere(s[..i + 1], p) == IndexesWhere(s[..i], p) + (if p(s[i]) then [i] else [])
  {
    assert s[..i + 1][..i] == s[..i];
  }

  /** The row numbers `a ..< b`, as `IndexPath`s are collected. */
  function Range(a: int, b: int): (r: seq<int>)
    ensures |r| == if a <= b then b - a else 0
    decreases b - a
  {
    if a < b then [a] + Range(a + 1, b) else []
  }

  /** `Range(a, b)` lists `a ..< b` in increasing order. */
  lemma {:induction false} RangeContents(a: int, b: int)
    ensures forall k :: 0 <= k < |Range(a, b)| ==> Range(a, b)[k] == a + k
    ensures forall x :: x in Range(a, b) <==> a <= x < b
    decreases b - a
  {
    if a < b {
      RangeContents(a + 1, b);
    }
  }

  /** Extending a range by its next index appends that index. */
  lemma RangeSnoc(a: int, b: int)
    requires a <= b
    ensures Range(a, b + 1) == Range(a, b) + [b]
  {
    RangeContents(a, b);
    RangeContents(a, b + 1);
  }
}
