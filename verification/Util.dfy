/** Small facts about sequences shared by the other modules. */
module Util {

  datatype Option<+T> = None | Some(value: T)

  ghost predicate Distinct<T>(s: seq<T>) {
    forall i, j :: 0 <= i < j < |s| ==> s[i] != s[j]
  }

  function Elems<T>(s: seq<T>): set<T> {
    set x | x in s
  }

  /** Position of the first occurrence of `x`. */
  function FirstIndex<T(==)>(s: seq<T>, x: T): (i: nat)
    requires x in s
    ensures i < |s| && s[i] == x && x !in s[..i]
  {
    if s[0] == x then 0 else 1 + FirstIndex(s[1..], x)
  }

  /** Position of the last occurrence of `x`. */
  function LastIndex<T(==)>(s: seq<T>, x: T): (i: nat)
    requires x in s
    ensures i < |s| && s[i] == x && x !in s[i + 1..]
  {
    if s[|s| - 1] == x then |s| - 1 else LastIndex(s[..|s| - 1], x)
  }

  /** std::find: the position of the first occurrence, or the length if there is none. */
  method Find<T(==)>(s: seq<T>, x: T) returns (i: nat)
    ensures i <= |s| && x !in s[..i]
    ensures i < |s| ==> s[i] == x
  {
    i := 0;
    while i < |s| && s[i] != x
      invariant i <= |s| && x !in s[..i]
    {
      i := i + 1;
    }
  }

  /** In a duplicate-free sequence the first index is the only one. */
  lemma IndexUnique<T>(s: seq<T>, i: nat)
    requires Distinct(s) && i < |s|
    ensures FirstIndex(s, s[i]) == i
  {
    var j := FirstIndex(s, s[i]);
  }

  lemma InPrefix<T>(s: seq<T>, k: nat, i: nat)
    requires i < k <= |s|
    ensures s[i] in s[..k]
  {
    assert s[..k][i] == s[i];
  }

  lemma FirstIndexIs<T>(s: seq<T>, k: nat, x: T)
    requires k < |s| && s[k] == x && x !in s[..k]
    ensures FirstIndex(s, x) == k
  {
    var i: nat := FirstIndex(s, x);
    if i < k {
      InPrefix(s, k, i);
    } else if k < i {
      InPrefix(s, i, k);
    }
  }

  lemma DistinctSplit<T>(s: seq<T>, m: nat, x: T)
    requires Distinct(s) && m <= |s|
    ensures !(x in s[..m] && x in s[m..])
    ensures m < |s| ==> s[m] !in s[..m] && s[m] !in s[m + 1..]
  {
    forall j | m <= j < |s| && s[j] == x ensures x !in s[..m] {
    }
    assert x in s[m..] ==> exists j :: m <= j < |s| && s[j] == x;
  }

  lemma InTail<T>(s: seq<T>, m: nat, i: nat)
    requires m <= i < |s|
    ensures s[i] in s[m..]
  {
    assert s[m..][i - m] == s[i];
  }

  lemma NotInTail<T>(s: seq<T>, m: nat, i: nat)
    requires i < |s| && m <= |s| && s[i] !in s[m..]
    ensures i < m
  {
    if m <= i {
      InTail(s, m, i);
    }
  }

  function Reverse<T>(s: seq<T>): (r: seq<T>)
    ensures |r| == |s|
    ensures forall i :: 0 <= i < |s| ==> r[i] == s[|s| - 1 - i]
  {
    if s == [] then [] else Reverse(s[1..]) + [s[0]]
  }

  lemma CardDistinct<T>(s: seq<T>)
    requires Distinct(s)
    ensures |Elems(s)| == |s|
  {
    if s != [] {
      var n := |s| - 1;
      CardDistinct(s[..n]);
      assert Elems(s) == Elems(s[..n]) + {s[n]};
    }
  }

  lemma SubsetCard<T>(a: set<T>, b: set<T>)
    requires a <= b
    ensures |a| <= |b|
    ensures |a| == |b| ==> a == b
  {
    assert b == a + (b - a);
    assert |b| == |a| + |b - a|;
  }

  lemma CountTwo(a: nat, b: nat, x: nat)
    ensures multiset([a, b])[x] == (if x == a then 1 else 0) + (if x == b then 1 else 0)
    ensures multiset([a])[x] == if x == a then 1 else 0
  {
    assert [a, b] == [a] + [b];
  }

  // ---------- sorting ----------

  ghost predicate Ascending<T>(key: T -> int, s: seq<T>) {
    forall i, j :: 0 <= i < j < |s| ==> key(s[i]) <= key(s[j])
  }

  /** Insertion into a list sorted by rising key. */
  function InsertBy<T(!new)>(key: T -> int, x: T, s: seq<T>): (r: seq<T>)
    ensures forall y :: y in r <==> y in s || y == x
  {
    if s == [] || key(s[|s| - 1]) <= key(x) then s + [x]
    else
      assert s == s[..|s| - 1] + [s[|s| - 1]];
      InsertBy(key, x, s[..|s| - 1]) + [s[|s| - 1]]
  }

  /** Sorting by rising key: the result of std::sort where keys are distinct. */
  function SortBy<T(!new)>(key: T -> int, s: seq<T>): (r: seq<T>)
    ensures forall y :: y in r <==> y in s
  {
    if s == [] then []
    else
      assert s == s[..|s| - 1] + [s[|s| - 1]];
      InsertBy(key, s[|s| - 1], SortBy(key, s[..|s| - 1]))
  }

  lemma AscendingAppend<T>(key: T -> int, s: seq<T>, x: T)
    requires Ascending(key, s) && forall y :: y in s ==> key(y) <= key(x)
    ensures Ascending(key, s + [x])
  {
  }

  lemma DistinctAppend<T>(s: seq<T>, x: T)
    requires Distinct(s) && x !in s
    ensures Distinct(s + [x])
  {
  }

  lemma {:induction false} InsertSorted<T(!new)>(key: T -> int, x: T, s: seq<T>)
    requires Ascending(key, s) && Distinct(s) && x !in s
    ensures Ascending(key, InsertBy(key, x, s)) && Distinct(InsertBy(key, x, s))
  {
    if s != [] {
      var n := |s| - 1;
      assert s == s[..n] + [s[n]];
      DistinctSplit(s, n, s[n]);
      if key(s[n]) <= key(x) {
        forall y | y in s ensures key(y) <= key(x) {
          var i := FirstPlace(s, y);
        }
        AscendingAppend(key, s, x);
        DistinctAppend(s, x);
      } else {
        InsertSorted(key, x, s[..n]);
        forall y | y in InsertBy(key, x, s[..n]) ensures key(y) <= key(s[n]) {
          if y in s[..n] {
            var i := FirstPlace(s[..n], y);
          }
        }
        AscendingAppend(key, InsertBy(key, x, s[..n]), s[n]);
        DistinctAppend(InsertBy(key, x, s[..n]), s[n]);
      }
    }
  }

  lemma FirstPlace<T>(s: seq<T>, y: T) returns (i: nat)
    requires y in s
    ensures i < |s| && s[i] == y
  {
    i :| i < |s| && s[i] == y;
  }

  /** The sorted list rises and holds each element once if the list did. */
  lemma {:induction false} SortSorted<T(!new)>(key: T -> int, s: seq<T>)
    requires Distinct(s)
    ensures Ascending(key, SortBy(key, s)) && Distinct(SortBy(key, s))
  {
    if s == [] {
      assert SortBy(key, s) == [];
    } else {
      var n := |s| - 1;
      DistinctSplit(s, n, s[n]);
      hide InsertBy, Ascending;
      SortSorted(key, s[..n]);
      InsertSorted(key, s[n], SortBy(key, s[..n]));
      assert SortBy(key, s) == InsertBy(key, s[n], SortBy(key, s[..n]));
    }
  }
}
