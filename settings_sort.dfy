/**
  The settings table's column sort: a stable sort by the lower-cased text of the name, DSN value or
  default value column, ascending or descending.
*/
module SettingsSort {
  import opened DuckDbSettings
  import opened Text

  /** The lower-cased text a column sorts by: 0 is the name, 1 the DSN value, 2 the default value. */
  function SortKey(st: DuckDbSetting, col: nat): string {
    ToLower(if col == 0 then st.name else if col == 1 then st.dsn_value else st.default_value)
  }

  /** The comparator's strict order on keys: lexicographic, reversed when descending. */
  predicate KeyLess(desc: bool, x: string, y: string) {
    if desc then LexLess(y, x) else LexLess(x, y)
  }

  /** `a` sorts strictly before `b`. */
  predicate Before(col: nat, desc: bool, a: DuckDbSetting, b: DuckDbSetting) {
    KeyLess(desc, SortKey(a, col), SortKey(b, col))
  }

  lemma KeyLessFacts(desc: bool, x: string, y: string, z: string)
    ensures !KeyLess(desc, x, x)
    ensures !(KeyLess(desc, x, y) && KeyLess(desc, y, x))
    ensures x != y ==> KeyLess(desc, x, y) || KeyLess(desc, y, x)
    ensures KeyLess(desc, x, y) && KeyLess(desc, y, z) ==> KeyLess(desc, x, z)
  {
    LexLessIrreflexive(x);
    LexLessTotal(x, y);
    if LexLess(x, y) && LexLess(y, z) { LexLessTransitive(x, y, z); }
    if LexLess(z, y) && LexLess(y, x) { LexLessTransitive(z, y, x); }
  }

  /** Elements of one key never sort strictly before one another. */
  lemma BeforeKeysDiffer(col: nat, desc: bool, a: DuckDbSetting, b: DuckDbSetting)
    requires Before(col, desc, a, b)
    ensures SortKey(a, col) != SortKey(b, col)
  {
    KeyLessFacts(desc, SortKey(a, col), SortKey(a, col), SortKey(a, col));
  }

  /** Not sorting after is transitive: the order the comparator induces is a total preorder. */
  lemma NotBeforeTransitive(col: nat, desc: bool, a: DuckDbSetting, b: DuckDbSetting, c: DuckDbSetting)
    requires !Before(col, desc, b, a) && !Before(col, desc, c, b)
    ensures !Before(col, desc, c, a)
  {
    var ka, kb, kc := SortKey(a, col), SortKey(b, col), SortKey(c, col);
    KeyLessFacts(desc, ka, kb, kc);
    KeyLessFacts(desc, kc, kb, ka);
    KeyLessFacts(desc, kb, ka, kc);
    KeyLessFacts(desc, kc, ka, kb);
    KeyLessFacts(desc, ka, kc, kb);
  }

  predicate Sorted(col: nat, desc: bool, xs: seq<DuckDbSetting>) {
    forall i, j :: 0 <= i < j < |xs| ==> !Before(col, desc, xs[j], xs[i])
  }

  /** Places `x` before the first element that does not sort strictly before it. */
  function Insert(col: nat, desc: bool, x: DuckDbSetting, ys: seq<DuckDbSetting>): (r: seq<DuckDbSetting>)
    ensures |r| == |ys| + 1
  {
    if ys == [] || !Before(col, desc, ys[0], x) then [x] + ys
    else [ys[0]] + Insert(col, desc, x, ys[1..])
  }

  function InsertionSort(col: nat, desc: bool, xs: seq<DuckDbSetting>): (r: seq<DuckDbSetting>)
    ensures |r| == |xs|
  {
    if xs == [] then []
    else Insert(col, desc, xs[0], InsertionSort(col, desc, xs[1..]))
  }

  /** Inserting adds exactly the one element. */
  lemma {:induction false} InsertPermutes(col: nat, desc: bool, x: DuckDbSetting, ys: seq<DuckDbSetting>)
    ensures multiset(Insert(col, desc, x, ys)) == multiset(ys) + multiset{x}
    decreases |ys|
  {
    InsertShape(col, desc, x, ys);
    if Insert(col, desc, x, ys) != [x] + ys {
      var y, rest := ys[0], ys[1..];
      var inserted := Insert(col, desc, x, rest);
      InsertPermutes(col, desc, x, rest);
      assert ys == [y] + rest;
      calc {
        multiset(Insert(col, desc, x, ys));
        multiset([y] + inserted);
        multiset([y]) + multiset(inserted);
        multiset([y]) + multiset(rest) + multiset{x};
        multiset([y] + rest) + multiset{x};
      }
    }
  }

  /** Insert either puts the element in front or keeps the head and inserts into the rest. */
  lemma InsertShape(col: nat, desc: bool, x: DuckDbSetting, ys: seq<DuckDbSetting>)
    ensures || Insert(col, desc, x, ys) == [x] + ys
            || (ys != [] && Insert(col, desc, x, ys) == [ys[0]] + Insert(col, desc, x, ys[1..]))
  {
  }

  /** The sort is a permutation of its input. */
  lemma HeadTailMultiset(xs: seq<DuckDbSetting>)
    requires xs != []
    ensures multiset(xs) == multiset(xs[1..]) + multiset{xs[0]}
  {
    assert xs == [xs[0]] + xs[1..];
  }

  /** One step of the sort: the head is inserted into the sorted tail. */
  lemma SortStep(col: nat, desc: bool, xs: seq<DuckDbSetting>)
    requires xs != []
    ensures InsertionSort(col, desc, xs) == Insert(col, desc, xs[0], InsertionSort(col, desc, xs[1..]))
  {
  }

  lemma {:induction false} SortPermutes(col: nat, desc: bool, xs: seq<DuckDbSetting>)
    ensures multiset(InsertionSort(col, desc, xs)) == multiset(xs)
    decreases |xs|
  {
    if xs != [] {
      var tail := xs[1..];
      var sortedTail := InsertionSort(col, desc, tail);
      SortPermutes(col, desc, tail);
      InsertPermutes(col, desc, xs[0], sortedTail);
      SortStep(col, desc, xs);
      HeadTailMultiset(xs);
    }
  }

  /** sort_settings: columns 0 to 2 sort the list, any other column leaves it as it is. */
  function SortSettings(st: seq<DuckDbSetting>, col: nat, desc: bool): seq<DuckDbSetting> {
    if col <= 2 then InsertionSort(col, desc, st) else st
  }

  /** No element of `ys` sorts strictly before `b`. */
  predicate NoneBefore(col: nat, desc: bool, b: DuckDbSetting, ys: seq<DuckDbSetting>) {
    forall i :: 0 <= i < |ys| ==> !Before(col, desc, ys[i], b)
  }

  lemma {:induction false} InsertNoneBefore(col: nat, desc: bool, b: DuckDbSetting, x: DuckDbSetting, ys: seq<DuckDbSetting>)
    requires NoneBefore(col, desc, b, ys) && !Before(col, desc, x, b)
    ensures NoneBefore(col, desc, b, Insert(col, desc, x, ys))
    decreases |ys|
  {
    if ys == [] || !Before(col, desc, ys[0], x) {
      InsertInFront(col, desc, x, ys);
      NoneBeforeCons(col, desc, b, x, ys);
    } else {
      var rest := ys[1..];
      assert NoneBefore(col, desc, b, rest) by {
        forall i | 0 <= i < |rest| ensures !Before(col, desc, rest[i], b) {
          assert rest[i] == ys[i + 1];
        }
      }
      InsertNoneBefore(col, desc, b, x, rest);
      InsertStep(col, desc, x, ys);
      NoneBeforeCons(col, desc, b, ys[0], Insert(col, desc, x, rest));
    }
  }

  lemma NoneBeforeCons(col: nat, desc: bool, b: DuckDbSetting, y: DuckDbSetting, ys: seq<DuckDbSetting>)
    requires NoneBefore(col, desc, b, ys) && !Before(col, desc, y, b)
    ensures NoneBefore(col, desc, b, [y] + ys)
  {
    var r := [y] + ys;
    forall i | 0 <= i < |r| ensures !Before(col, desc, r[i], b) {
      if i > 0 { assert r[i] == ys[i - 1]; }
    }
  }

  lemma SortedCons(col: nat, desc: bool, y: DuckDbSetting, ys: seq<DuckDbSetting>)
    requires Sorted(col, desc, ys) && NoneBefore(col, desc, y, ys)
    ensures Sorted(col, desc, [y] + ys)
  {
    var r := [y] + ys;
    forall i, j | 0 <= i < j < |r| ensures !Before(col, desc, r[j], r[i]) {
      assert r[j] == ys[j - 1];
      if i > 0 { assert r[i] == ys[i - 1]; }
    }
  }

  lemma SortedTail(col: nat, desc: bool, ys: seq<DuckDbSetting>)
    requires ys != [] && Sorted(col, desc, ys)
    ensures Sorted(col, desc, ys[1..]) && NoneBefore(col, desc, ys[0], ys[1..])
  {
    forall i, j | 0 <= i < j < |ys[1..]| ensures !Before(col, desc, ys[1..][j], ys[1..][i]) {
      assert ys[1..][i] == ys[i + 1] && ys[1..][j] == ys[j + 1];
    }
    forall i | 0 <= i < |ys[1..]| ensures !Before(col, desc, ys[1..][i], ys[0]) {
      assert ys[1..][i] == ys[i + 1];
    }
  }

  /** Everything that does not sort before the head of a sorted list does not sort before any of it. */
  lemma HeadBound(col: nat, desc: bool, x: DuckDbSetting, ys: seq<DuckDbSetting>)
    requires ys != [] && Sorted(col, desc, ys) && !Before(col, desc, ys[0], x)
    ensures NoneBefore(col, desc, x, ys)
  {
    forall i | 0 <= i < |ys| ensures !Before(col, desc, ys[i], x) {
      if i > 0 { NotBeforeTransitive(col, desc, x, ys[0], ys[i]); }
    }
  }

  lemma {:induction false} InsertSorted(col: nat, desc: bool, x: DuckDbSetting, ys: seq<DuckDbSetting>)
    requires Sorted(col, desc, ys)
    ensures Sorted(col, desc, Insert(col, desc, x, ys))
    decreases |ys|
  {
    if ys == [] {
      SortedCons(col, desc, x, ys);
    } else if !Before(col, desc, ys[0], x) {
      HeadBound(col, desc, x, ys);
      SortedCons(col, desc, x, ys);
    } else {
      SortedTail(col, desc, ys);
      InsertSorted(col, desc, x, ys[1..]);
      KeyLessFacts(desc, SortKey(ys[0], col), SortKey(x, col), SortKey(x, col));
      InsertNoneBefore(col, desc, ys[0], x, ys[1..]);
      SortedCons(col, desc, ys[0], Insert(col, desc, x, ys[1..]));
    }
  }

  /** The sorted list is ordered by the column's key, ascending or descending. */
  lemma {:induction false} SortIsSorted(col: nat, desc: bool, xs: seq<DuckDbSetting>)
    ensures Sorted(col, desc, InsertionSort(col, desc, xs))
    decreases |xs|
  {
    if xs != [] {
      SortIsSorted(col, desc, xs[1..]);
      InsertSorted(col, desc, xs[0], InsertionSort(col, desc, xs[1..]));
    }
  }

  /** The elements of one key, in list order. */
  function WithKey(col: nat, k: string, xs: seq<DuckDbSetting>): seq<DuckDbSetting> {
    if xs == [] then []
    else (if SortKey(xs[0], col) == k then [xs[0]] else []) + WithKey(col, k, xs[1..])
  }

  lemma WithKeyCons(col: nat, k: string, y: DuckDbSetting, ys: seq<DuckDbSetting>)
    ensures WithKey(col, k, [y] + ys) == (if SortKey(y, col) == k then [y] else []) + WithKey(col, k, ys)
  {
    assert ([y] + ys)[0] == y && ([y] + ys)[1..] == ys;
  }

  /** One step of Insert past a head that sorts strictly before the new element. */
  lemma InsertStep(col: nat, desc: bool, x: DuckDbSetting, ys: seq<DuckDbSetting>)
    requires ys != [] && Before(col, desc, ys[0], x)
    ensures Insert(col, desc, x, ys) == [ys[0]] + Insert(col, desc, x, ys[1..])
  {
  }

  /** The key filter of a list with `y` in front of `x`, given the filter without `y`. */
  lemma WithKeyPast(col: nat, k: string, x: DuckDbSetting, y: DuckDbSetting, rest: seq<DuckDbSetting>, inserted: seq<DuckDbSetting>)
    requires SortKey(y, col) != SortKey(x, col)
    requires WithKey(col, k, inserted) == (if SortKey(x, col) == k then [x] else []) + WithKey(col, k, rest)
    ensures WithKey(col, k, [y] + inserted) == (if SortKey(x, col) == k then [x] else []) + WithKey(col, k, [y] + rest)
  {
    WithKeyCons(col, k, y, inserted);
    WithKeyCons(col, k, y, rest);
  }

  lemma {:induction false} InsertWithKey(col: nat, desc: bool, k: string, x: DuckDbSetting, ys: seq<DuckDbSetting>)
    ensures WithKey(col, k, Insert(col, desc, x, ys)) ==
              (if SortKey(x, col) == k then [x] else []) + WithKey(col, k, ys)
    decreases |ys|
  {
    if ys == [] || !Before(col, desc, ys[0], x) {
      InsertInFront(col, desc, x, ys);
      WithKeyCons(col, k, x, ys);
    } else {
      InsertWithKey(col, desc, k, x, ys[1..]);
      BeforeKeysDiffer(col, desc, ys[0], x);
      InsertStep(col, desc, x, ys);
      WithKeyPast(col, k, x, ys[0], ys[1..], Insert(col, desc, x, ys[1..]));
      assert ys == [ys[0]] + ys[1..];
    }
  }

  /** The sort is stable: elements with equal keys keep their relative order. */
  lemma {:induction false} SortIsStable(col: nat, desc: bool, k: string, xs: seq<DuckDbSetting>)
    ensures WithKey(col, k, InsertionSort(col, desc, xs)) == WithKey(col, k, xs)
    decreases |xs|
  {
    if xs != [] {
      SortIsStable(col, desc, k, xs[1..]);
      InsertWithKey(col, desc, k, xs[0], InsertionSort(col, desc, xs[1..]));
    }
  }

  /** An element the head does not sort strictly before goes in front. */
  lemma InsertInFront(col: nat, desc: bool, x: DuckDbSetting, ys: seq<DuckDbSetting>)
    requires ys == [] || !Before(col, desc, ys[0], x)
    ensures Insert(col, desc, x, ys) == [x] + ys
  {
  }

  /** An already sorted list is left unchanged, so sorting twice is sorting once. */
  lemma {:induction false} SortKeepsSorted(col: nat, desc: bool, xs: seq<DuckDbSetting>)
    requires Sorted(col, desc, xs)
    ensures InsertionSort(col, desc, xs) == xs
    decreases |xs|
  {
    if xs != [] {
      var tail := xs[1..];
      SortedTail(col, desc, xs);
      SortKeepsSorted(col, desc, tail);
      if tail != [] {
        assert !Before(col, desc, tail[0], xs[0]);
      }
      InsertInFront(col, desc, xs[0], tail);
      SortStep(col, desc, xs);
      assert xs == [xs[0]] + tail;
    }
  }

  lemma SortIdempotent(col: nat, desc: bool, xs: seq<DuckDbSetting>)
    ensures InsertionSort(col, desc, InsertionSort(col, desc, xs)) == InsertionSort(col, desc, xs)
  {
    SortIsSorted(col, desc, xs);
    SortKeepsSorted(col, desc, InsertionSort(col, desc, xs));
  }

  /**
    What sort_settings promises: for columns 0 to 2 a permutation ordered by the lower-cased key,
    ascending or, with `desc`, descending, with ties in their original order; for any other column the
    list unchanged.
  */
  lemma SortSettingsProperties(st: seq<DuckDbSetting>, col: nat, desc: bool)
    ensures var r := SortSettings(st, col, desc);
            && multiset(r) == multiset(st)
            && (col > 2 ==> r == st)
            && (col <= 2 ==> forall i, j :: 0 <= i < j < |r| ==>
                  if desc then !LexLess(SortKey(r[i], col), SortKey(r[j], col))
                  else !LexLess(SortKey(r[j], col), SortKey(r[i], col)))
            && (col <= 2 ==> forall k :: WithKey(col, k, r) == WithKey(col, k, st))
  {
    if col <= 2 {
      SortPermutes(col, desc, st);
      SortIsSorted(col, desc, st);
      forall k ensures WithKey(col, k, SortSettings(st, col, desc)) == WithKey(col, k, st) {
        SortIsStable(col, desc, k, st);
      }
    }
  }
}
