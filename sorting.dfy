/** `sort.Strings` and `sort.Slice` of the Go library, as one insertion
    sort over a strict total order, with the two facts every caller of a
    sort relies on: the result is ordered and is a permutation. */
module Sorting {
  import opened Strings

  /** `less` is irreflexive, transitive and relates any two distinct values. */
  ghost predicate StrictTotal<T(!new)>(less: (T, T) -> bool) {
    && (forall x :: !less(x, x))
    && (forall x, y, z :: less(x, y) && less(y, z) ==> less(x, z))
    && (forall x, y :: x != y ==> less(x, y) || less(y, x))
  }

  /** No element is `less` than one before it. */
  ghost predicate Sorted<T>(s: seq<T>, less: (T, T) -> bool) {
    forall i, j :: 0 <= i < j < |s| ==> !less(s[j], s[i])
  }

  /** Insert `x` in front of the first element that is not less than it. */
  function Insert<T>(x: T, s: seq<T>, less: (T, T) -> bool): (r: seq<T>)
    ensures multiset(r) == multiset(s) + multiset{x}
  {
    if s == [] || !less(s[0], x) then [x] + s
    else
      assert s == [s[0]] + s[1..];
      [s[0]] + Insert(x, s[1..], less)
  }

  /** Sort `s` by `less` (insertion sort). */
  function SortBy<T>(s: seq<T>, less: (T, T) -> bool): (r: seq<T>)
    ensures multiset(r) == multiset(s)
  {
    if s == [] then []
    else
      assert s == [s[0]] + s[1..];
      Insert(s[0], SortBy(s[1..], less), less)
  }

  lemma {:induction false} InsertSorted<T(!new)>(x: T, s: seq<T>, less: (T, T) -> bool)
    requires StrictTotal(less) && Sorted(s, less)
    ensures Sorted(Insert(x, s, less), less)
  {
    if s == [] || !less(s[0], x) {
      var r := [x] + s;
      forall j | 0 < j < |r| ensures !less(r[j], r[0]) {
        assert r[j] == s[j - 1];
        if j > 1 { assert !less(s[j - 1], s[0]); }
      }
    } else {
      var t := Insert(x, s[1..], less);
      InsertSorted(x, s[1..], less);
      var r := [s[0]] + t;
      forall j | 0 < j < |r| ensures !less(r[j], r[0]) {
        assert r[j] in multiset(t);
        assert r[j] == x || r[j] in multiset(s[1..]);
        if r[j] != x {
          var k :| 0 <= k < |s[1..]| && s[1..][k] == r[j];
          assert s[k + 1] == r[j];
        }
      }
    }
  }

  /** The result of `SortBy` is ordered. */
  lemma {:induction false} SortBySorted<T(!new)>(s: seq<T>, less: (T, T) -> bool)
    requires StrictTotal(less)
    ensures Sorted(SortBy(s, less), less)
  {
    if s != [] {
      SortBySorted(s[1..], less);
      InsertSorted(s[0], SortBy(s[1..], less), less);
    }
  }

  /** Go's string order is a strict total order. */
  lemma StrLessStrictTotal()
    ensures StrictTotal(StrLess)
  {
    forall x ensures !StrLess(x, x) { StrLessIrreflexive(x); }
    forall x, y, z | StrLess(x, y) && StrLess(y, z) ensures StrLess(x, z) {
      StrLessTransitive(x, y, z);
    }
    forall x, y | x != y ensures StrLess(x, y) || StrLess(y, x) { StrLessConnected(x, y); }
  }

  /** `sort.Strings`. */
  function SortStrings(s: seq<string>): (r: seq<string>)
    ensures multiset(r) == multiset(s)
    ensures Sorted(r, StrLess)
  {
    StrLessStrictTotal();
    SortBySorted(s, StrLess);
    SortBy(s, StrLess)
  }
}
