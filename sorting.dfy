/**
 * `DataFrame.sort_values` over one or more key columns, as a stable sort of
 * a row sequence by a total preorder `le` on rows ("`a` sorts no later than
 * `b`"). A multi-column pandas sort is stable; for a single column the order
 * of rows with equal keys is not promised, and the model picks the stable one.
 */
module Sorting {

  /** `le` relates every pair of rows one way or the other. */
  ghost predicate Total<T(!new)>(le: (T, T) -> bool) {
    forall a, b :: le(a, b) || le(b, a)
  }

  ghost predicate Transitive<T(!new)>(le: (T, T) -> bool) {
    forall a, b, c :: le(a, b) && le(b, c) ==> le(a, c)
  }

  ghost predicate TotalPreorder<T(!new)>(le: (T, T) -> bool) {
    Total(le) && Transitive(le)
  }

  /** Every row sorts no later than every row after it. */
  predicate SortedBy<T>(s: seq<T>, le: (T, T) -> bool) {
    forall i, j :: 0 <= i < j < |s| ==> le(s[i], s[j])
  }


  /** Places `x` after every leading row that sorts no later than it. */
  function Insert<T>(x: T, s: seq<T>, le: (T, T) -> bool): (r: seq<T>)
    ensures multiset(r) == multiset(s) + multiset{x}
  {
    if s == [] then [x]
    else if le(s[0], x) then
      assert s == [s[0]] + s[1..];
      [s[0]] + Insert(x, s[1..], le)
    else [x] + s
  }

  /** Sorts `s` by `le`, keeping rows that `le` ties in their original order. */
  function SortBy<T>(s: seq<T>, le: (T, T) -> bool): (r: seq<T>)
    ensures multiset(r) == multiset(s)
  {
    if s == [] then []
    else
      assert s == s[..|s| - 1] + [s[|s| - 1]];
      Insert(s[|s| - 1], SortBy(s[..|s| - 1], le), le)
  }

  lemma SortByLength<T>(s: seq<T>, le: (T, T) -> bool)
    ensures |SortBy(s, le)| == |s|
  {
    assert |multiset(SortBy(s, le))| == |multiset(s)|;
  }

  lemma {:induction false} InsertSorted<T(!new)>(x: T, s: seq<T>, le: (T, T) -> bool)
    requires TotalPreorder(le) && SortedBy(s, le)
    ensures SortedBy(Insert(x, s, le), le)
  {
    if s != [] && le(s[0], x) {
      InsertSorted(x, s[1..], le);
      var r := Insert(x, s[1..], le);
      assert multiset(r) == multiset(s[1..]) + multiset{x};
      forall j | 0 <= j < |r|
        ensures le(s[0], r[j])
      {
        assert r[j] in multiset(r);
        if r[j] != x {
          assert r[j] in multiset(s[1..]);
          var k :| 0 <= k < |s[1..]| && s[1..][k] == r[j];
          assert s[k + 1] == r[j];
        }
      }
    }
  }

  /** The result of `SortBy` is sorted and is a permutation of its input. */
  lemma {:induction false} SortBySorted<T(!new)>(s: seq<T>, le: (T, T) -> bool)
    requires TotalPreorder(le)
    ensures SortedBy(SortBy(s, le), le)
    ensures multiset(SortBy(s, le)) == multiset(s)
  {
    if s != [] {
      SortBySorted(s[..|s| - 1], le);
      InsertSorted(s[|s| - 1], SortBy(s[..|s| - 1], le), le);
    }
  }

  /** `a` and `b` sort at the same place. */
  predicate Tied<T>(le: (T, T) -> bool, a: T, b: T) {
    le(a, b) && le(b, a)
  }

  /** The rows of `s` tied with `y`, in their order in `s`. */
  function TiedWith<T>(s: seq<T>, le: (T, T) -> bool, y: T): (r: seq<T>)
    ensures |r| <= |s|
  {
    if s == [] then []
    else if Tied(le, s[0], y) then [s[0]] + TiedWith(s[1..], le, y)
    else TiedWith(s[1..], le, y)
  }

  /** Inserting `x` into a sorted sequence puts it after every row it is tied with. */
  lemma {:induction false} InsertFilterTied<T(!new)>(x: T, s: seq<T>, le: (T, T) -> bool, y: T)
    requires TotalPreorder(le) && SortedBy(s, le)
    ensures TiedWith(Insert(x, s, le), le, y)
         == TiedWith(s, le, y) + (if Tied(le, x, y) then [x] else [])
  {
    if s == [] {
    } else if le(s[0], x) {
      InsertFilterTied(x, s[1..], le, y);
      assert Insert(x, s, le) == [s[0]] + Insert(x, s[1..], le);
    } else {
      assert Insert(x, s, le) == [x] + s;
      if Tied(le, x, y) {
        // Every row of `s` sorts strictly after `x`, so none is tied with `y`.
        NoneTied(x, s, le, y);
        assert TiedWith(s, le, y) == [];
      } else {
        assert ([x] + s)[1..] == s;
      }
    }
  }

  /** Rows that sort strictly after `x` are not tied with anything `x` is tied with. */
  lemma {:induction false} NoneTied<T(!new)>(x: T, s: seq<T>, le: (T, T) -> bool, y: T)
    requires TotalPreorder(le) && SortedBy(s, le)
    requires s != [] && !le(s[0], x) && Tied(le, x, y)
    ensures TiedWith(s, le, y) == []
  {
    if |s| > 1 {
      assert !le(s[1], x);
      NoneTied(x, s[1..], le, y);
    }
  }

  lemma {:induction false} TiedWithAppend<T>(a: seq<T>, b: seq<T>, le: (T, T) -> bool, y: T)
    ensures TiedWith(a + b, le, y) == TiedWith(a, le, y) + TiedWith(b, le, y)
  {
    if a == [] {
      assert a + b == b;
    } else {
      var ab := a + b;
      assert ab[0] == a[0] && ab[1..] == a[1..] + b;
      TiedWithAppend(a[1..], b, le, y);
      if Tied(le, a[0], y) {
        assert TiedWith(ab, le, y) == [a[0]] + TiedWith(a[1..] + b, le, y);
        assert TiedWith(a, le, y) == [a[0]] + TiedWith(a[1..], le, y);
      } else {
        assert TiedWith(ab, le, y) == TiedWith(a[1..] + b, le, y);
      }
    }
  }

  /**
   * Stability: the rows tied with any row `y` come out in the order they went in.
   */
  lemma {:induction false} SortByStable<T(!new)>(s: seq<T>, le: (T, T) -> bool, y: T)
    requires TotalPreorder(le)
    ensures TiedWith(SortBy(s, le), le, y) == TiedWith(s, le, y)
  {
    if s != [] {
      var init := s[..|s| - 1];
      var x := s[|s| - 1];
      var sorted := SortBy(init, le);
      assert SortBy(s, le) == Insert(x, sorted, le);
      SortByStable(init, le, y);
      SortBySorted(init, le);
      InsertFilterTied(x, sorted, le, y);
      TiedWithLast(s, le, y);
    }
  }

  /** The rows of `s` tied with `y` are those of all but its last row, then possibly the last. */
  lemma TiedWithLast<T>(s: seq<T>, le: (T, T) -> bool, y: T)
    requires s != []
    ensures TiedWith(s, le, y)
         == TiedWith(s[..|s| - 1], le, y) + (if Tied(le, s[|s| - 1], y) then [s[|s| - 1]] else [])
  {
    var x := s[|s| - 1];
    assert s == s[..|s| - 1] + [x];
    TiedWithAppend(s[..|s| - 1], [x], le, y);
    assert TiedWith([x], le, y) == if Tied(le, x, y) then [x] else [];
  }
}
