/** `array.sorted { key($0) < key($1) }` and `{ key($0) > key($1) }` on string keys. Swift's sort
    is not stable, so what is claimed about a sort is only its order and that it is a
    permutation; the insertion sort below is one of the orders Swift may produce. */
module Sorting {
  import opened Strings

  /** `a` may come before `b` in a sort by ascending (or descending) key. */
  predicate InOrder<T>(a: T, b: T, key: T -> string, ascending: bool) {
    if ascending then LessOrEqual(key(a), key(b)) else LessOrEqual(key(b), key(a))
  }

  predicate SortedBy<T>(s: seq<T>, key: T -> string, ascending: bool) {
    forall i, j :: 0 <= i < j < |s| ==> InOrder(s[i], s[j], key, ascending)
  }

  /** `x` placed before the first element it may precede. */
  function Insert<T>(x: T, s: seq<T>, key: T -> string, ascending: bool): (r: seq<T>)
    ensures multiset(r) == multiset(s) + multiset{x}
    ensures |r| == |s| + 1
  {
    if |s| == 0 then [x]
    else if InOrder(x, s[0], key, ascending) then [x] + s
    else
      assert s == [s[0]] + s[1..];
      [s[0]] + Insert(x, s[1..], key, ascending)
  }

  /** The sorted copy. */
  function SortBy<T>(s: seq<T>, key: T -> string, ascending: bool): (r: seq<T>)
    ensures multiset(r) == multiset(s)
    ensures |r| == |s|
  {
    if |s| == 0 then []
    else
      assert s == [s[0]] + s[1..];
      Insert(s[0], SortBy(s[1..], key, ascending), key, ascending)
  }

  lemma InOrderTotal<T>(a: T, b: T, key: T -> string, ascending: bool)
    ensures InOrder(a, b, key, ascending) || InOrder(b, a, key, ascending)
  {
    LessOrEqualTotal(key(a), key(b));
  }

  lemma InOrderTransitive<T>(a: T, b: T, c: T, key: T -> string, ascending: bool)
    requires InOrder(a, b, key, ascending) && InOrder(b, c, key, ascending)
    ensures InOrder(a, c, key, ascending)
  {
    if ascending {
      LessOrEqualTransitive(key(a), key(b), key(c));
    } else {
      LessOrEqualTransitive(key(c), key(b), key(a));
    }
  }

  /** Every element of a sorted `s` may follow its head, and so may an `x` that may not precede it. */
  lemma HeadPrecedesInsert<T>(x: T, s: seq<T>, key: T -> string, ascending: bool)
    requires SortedBy(s, key, ascending) && |s| > 0 && !InOrder(x, s[0], key, ascending)
    ensures forall j :: 0 <= j < |Insert(x, s[1..], key, ascending)| ==>
      InOrder(s[0], Insert(x, s[1..], key, ascending)[j], key, ascending)
  {
    var rest := Insert(x, s[1..], key, ascending);
    forall j | 0 <= j < |rest|
      ensures InOrder(s[0], rest[j], key, ascending)
    {
      var y := rest[j];
      assert y in multiset(rest);
      if y == x {
        InOrderTotal(x, s[0], key, ascending);
      } else {
        assert y in multiset(s[1..]);
        var m :| 0 <= m < |s[1..]| && s[1..][m] == y;
        assert s[m + 1] == y;
      }
    }
  }

  lemma {:induction false} InsertKeepsSorted<T>(x: T, s: seq<T>, key: T -> string, ascending: bool)
    requires SortedBy(s, key, ascending)
    ensures SortedBy(Insert(x, s, key, ascending), key, ascending)
  {
    var r := Insert(x, s, key, ascending);
    if |s| == 0 {
    } else if InOrder(x, s[0], key, ascending) {
      forall i, j | 0 <= i < j < |r|
        ensures InOrder(r[i], r[j], key, ascending)
      {
        if i == 0 && j > 1 {
          InOrderTransitive(x, s[0], s[j - 1], key, ascending);
        }
      }
    } else {
      var rest := Insert(x, s[1..], key, ascending);
      InsertKeepsSorted(x, s[1..], key, ascending);
      HeadPrecedesInsert(x, s, key, ascending);
      assert r == [s[0]] + rest;
      forall i, j | 0 <= i < j < |r|
        ensures InOrder(r[i], r[j], key, ascending)
      {
        if i > 0 {
          assert r[i] == rest[i - 1] && r[j] == rest[j - 1];
        }
      }
    }
  }

  /** The sort puts every element in order. */
  lemma {:induction false} SortByIsSorted<T>(s: seq<T>, key: T -> string, ascending: bool)
    ensures SortedBy(SortBy(s, key, ascending), key, ascending)
  {
    if |s| > 0 {
      SortByIsSorted(s[1..], key, ascending);
      InsertKeepsSorted(s[0], SortBy(s[1..], key, ascending), key, ascending);
    }
  }
}
