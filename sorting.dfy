/**
  * Stable sorting by a comparator, as `slice::sort_by` does it. `SortSeq` is
  * the reference definition (insertion from the back, which never moves an
  * element past an equal one); `SortInPlace` is the in-place array method
  * proved to produce it. The lemmas show that the result is a sorted
  * permutation that keeps equal elements in their original order, and that
  * these properties determine the result, so any stable sort agrees with it.
  */
module Sorting {
  import opened Strings

  /**
    * The comparator is a total preorder: swapping arguments reverses the
    * answer, and "not greater" is transitive.
    */
  ghost predicate IsTotalPreorder<T(!new)>(cmp: (T, T) -> Ordering)
  {
    (forall a, b :: cmp(b, a) == cmp(a, b).Reverse()) &&
    (forall a, b, c :: cmp(a, b) != Greater && cmp(b, c) != Greater ==> cmp(a, c) != Greater)
  }

  /** Neighbours are in order. */
  ghost predicate Sorted<T>(s: seq<T>, cmp: (T, T) -> Ordering)
  {
    forall i :: 0 < i < |s| ==> cmp(s[i - 1], s[i]) != Greater
  }

  /** Every pair is in order. */
  ghost predicate SortedPairs<T>(s: seq<T>, cmp: (T, T) -> Ordering)
  {
    forall i, j :: 0 <= i < j < |s| ==> cmp(s[i], s[j]) != Greater
  }

  /** Insert `x` into `s` after every element not greater than it, scanning from the back. */
  function Insert<T>(s: seq<T>, x: T, cmp: (T, T) -> Ordering): (r: seq<T>)
    ensures |r| == |s| + 1
  {
    if s == [] || cmp(s[|s| - 1], x) != Greater then s + [x]
    else Insert(s[..|s| - 1], x, cmp) + [s[|s| - 1]]
  }

  /** Stable insertion sort: the reference result of sorting `s` by `cmp`. */
  function SortSeq<T>(s: seq<T>, cmp: (T, T) -> Ordering): (r: seq<T>)
    ensures |r| == |s|
  {
    if s == [] then [] else Insert(SortSeq(s[..|s| - 1], cmp), s[|s| - 1], cmp)
  }

  /** The elements of `s` that compare equal to `e`, in their order in `s`. */
  function Keep<T>(s: seq<T>, e: T, cmp: (T, T) -> Ordering): seq<T>
  {
    if s == [] then []
    else Keep(s[..|s| - 1], e, cmp) + (if cmp(s[|s| - 1], e) == Equal then [s[|s| - 1]] else [])
  }

  lemma {:induction false} InsertPermutes<T>(s: seq<T>, x: T, cmp: (T, T) -> Ordering)
    ensures multiset(Insert(s, x, cmp)) == multiset(s) + multiset{x}
  {
    if s != [] && cmp(s[|s| - 1], x) == Greater {
      var init := s[..|s| - 1];
      InsertPermutes(init, x, cmp);
      assert s == init + [s[|s| - 1]];
    }
  }

  /** Sorting rearranges and neither drops nor duplicates anything. */
  lemma {:induction false} SortPermutes<T>(s: seq<T>, cmp: (T, T) -> Ordering)
    ensures multiset(SortSeq(s, cmp)) == multiset(s)
  {
    if s != [] {
      var init := s[..|s| - 1];
      SortPermutes(init, cmp);
      InsertPermutes(SortSeq(init, cmp), s[|s| - 1], cmp);
      assert s == init + [s[|s| - 1]];
    }
  }

  /** The last element after an insertion is either the inserted one or the old last one. */
  lemma {:induction false} InsertLast<T>(s: seq<T>, x: T, cmp: (T, T) -> Ordering)
    ensures var r := Insert(s, x, cmp); r[|r| - 1] == x || (s != [] && r[|r| - 1] == s[|s| - 1])
  {
  }

  lemma {:induction false} InsertSorted<T(!new)>(s: seq<T>, x: T, cmp: (T, T) -> Ordering)
    requires IsTotalPreorder(cmp) && Sorted(s, cmp)
    ensures Sorted(Insert(s, x, cmp), cmp)
  {
    if s != [] && cmp(s[|s| - 1], x) == Greater {
      var init, last := s[..|s| - 1], s[|s| - 1];
      InsertSorted(init, x, cmp);
      var r := Insert(init, x, cmp);
      InsertLast(init, x, cmp);
      assert cmp(x, last) == cmp(last, x).Reverse();
      assert cmp(r[|r| - 1], last) != Greater;
    }
  }

  /** The sorted result is in order. */
  lemma {:induction false} SortSorted<T(!new)>(s: seq<T>, cmp: (T, T) -> Ordering)
    requires IsTotalPreorder(cmp)
    ensures Sorted(SortSeq(s, cmp), cmp)
  {
    if s != [] {
      SortSorted(s[..|s| - 1], cmp);
      InsertSorted(SortSeq(s[..|s| - 1], cmp), s[|s| - 1], cmp);
    }
  }

  /** For a total preorder, neighbours in order means every pair in order. */
  lemma {:induction false} SortedAllPairs<T(!new)>(s: seq<T>, cmp: (T, T) -> Ordering)
    requires IsTotalPreorder(cmp) && Sorted(s, cmp)
    ensures SortedPairs(s, cmp)
  {
    if s != [] {
      var init := s[..|s| - 1];
      SortedAllPairs(init, cmp);
      forall i, j | 0 <= i < j < |s| ensures cmp(s[i], s[j]) != Greater {
        if j < |s| - 1 {
          assert s[i] == init[i] && s[j] == init[j];
        } else if i < j - 1 {
          assert cmp(s[i], s[j - 1]) != Greater by { assert s[i] == init[i] && s[j - 1] == init[j - 1]; }
        }
      }
    }
  }

  /** The sorted result has every pair in order. */
  lemma SortOrdersPairs<T(!new)>(s: seq<T>, cmp: (T, T) -> Ordering)
    requires IsTotalPreorder(cmp)
    ensures SortedPairs(SortSeq(s, cmp), cmp)
  {
    SortSorted(s, cmp);
    SortedAllPairs(SortSeq(s, cmp), cmp);
  }

  /** Sorting an already sorted sequence changes nothing. */
  lemma {:induction false} SortedUnchanged<T>(s: seq<T>, cmp: (T, T) -> Ordering)
    requires Sorted(s, cmp)
    ensures SortSeq(s, cmp) == s
  {
    if s != [] {
      var init := s[..|s| - 1];
      SortedUnchanged(init, cmp);
      assert s == init + [s[|s| - 1]];
    }
  }

  /** Sorting twice is sorting once. */
  lemma SortIdempotent<T(!new)>(s: seq<T>, cmp: (T, T) -> Ordering)
    requires IsTotalPreorder(cmp)
    ensures SortSeq(SortSeq(s, cmp), cmp) == SortSeq(s, cmp)
  {
    SortSorted(s, cmp);
    SortedUnchanged(SortSeq(s, cmp), cmp);
  }

  lemma {:induction false} KeepAppend<T>(a: seq<T>, b: seq<T>, e: T, cmp: (T, T) -> Ordering)
    ensures Keep(a + b, e, cmp) == Keep(a, e, cmp) + Keep(b, e, cmp)
  {
    if b == [] {
      assert a + b == a;
    } else {
      KeepAppend(a, b[..|b| - 1], e, cmp);
      assert (a + b)[..|a + b| - 1] == a + b[..|b| - 1];
    }
  }

  /** Two elements equal to the same element are equal to each other. */
  lemma EqualClass<T(!new)>(a: T, b: T, e: T, cmp: (T, T) -> Ordering)
    requires IsTotalPreorder(cmp)
    requires cmp(a, e) == Equal && cmp(b, e) == Equal
    ensures cmp(a, b) == Equal
  {
    assert cmp(e, b) == Equal && cmp(e, a) == Equal;
    assert cmp(a, b) != Greater;
    assert cmp(b, a) != Greater;
  }

  lemma {:induction false} InsertStable<T(!new)>(s: seq<T>, x: T, e: T, cmp: (T, T) -> Ordering)
    requires IsTotalPreorder(cmp)
    ensures Keep(Insert(s, x, cmp), e, cmp) == Keep(s + [x], e, cmp)
  {
    if s != [] && cmp(s[|s| - 1], x) == Greater {
      var init, last := s[..|s| - 1], s[|s| - 1];
      InsertStable(init, x, e, cmp);
      KeepAppend(init, [x], e, cmp);
      KeepAppend(init, [last], e, cmp);
      KeepAppend(Insert(init, x, cmp), [last], e, cmp);
      assert s == init + [last];
      KeepAppend(s, [x], e, cmp);
      if cmp(x, e) == Equal && cmp(last, e) == Equal {
        EqualClass(last, x, e, cmp);
      }
    }
  }

  /** Stability: the elements equal to any `e` come out in the order they went in. */
  lemma {:induction false} SortStable<T(!new)>(s: seq<T>, e: T, cmp: (T, T) -> Ordering)
    requires IsTotalPreorder(cmp)
    ensures Keep(SortSeq(s, cmp), e, cmp) == Keep(s, e, cmp)
  {
    if s != [] {
      var init := s[..|s| - 1];
      SortStable(init, e, cmp);
      InsertStable(SortSeq(init, cmp), s[|s| - 1], e, cmp);
      KeepAppend(SortSeq(init, cmp), [s[|s| - 1]], e, cmp);
      KeepAppend(init, [s[|s| - 1]], e, cmp);
      assert s == init + [s[|s| - 1]];
    }
  }

  /** An element of a sequence is among the elements equal to it. */
  lemma {:induction false} KeepHas<T(!new)>(s: seq<T>, k: nat, cmp: (T, T) -> Ordering)
    requires IsTotalPreorder(cmp) && k < |s|
    ensures s[k] in Keep(s, s[k], cmp)
  {
    assert cmp(s[k], s[k]) == cmp(s[k], s[k]).Reverse();
    if k < |s| - 1 {
      KeepHas(s[..|s| - 1], k, cmp);
    }
  }

  /** Everything kept comes from the sequence and is equal to `e`. */
  lemma {:induction false} KeepMembers<T>(s: seq<T>, e: T, cmp: (T, T) -> Ordering)
    ensures forall x :: x in Keep(s, e, cmp) ==> x in s && cmp(x, e) == Equal
  {
    if s != [] {
      KeepMembers(s[..|s| - 1], e, cmp);
    }
  }

  /**
    * Uniqueness: a sequence with every pair in order whose equal elements come
    * in the same order as in `s` is exactly `SortSeq(s)`. Any stable sort by
    * `cmp`, `slice::sort_by` included, therefore yields `SortSeq`.
    */
  lemma {:induction false} StableSortUnique<T(!new)>(s: seq<T>, r: seq<T>, cmp: (T, T) -> Ordering)
    requires IsTotalPreorder(cmp)
    requires SortedPairs(r, cmp)
    requires forall e :: Keep(r, e, cmp) == Keep(s, e, cmp)
    ensures r == SortSeq(s, cmp)
  {
    var q := SortSeq(s, cmp);
    SortSorted(s, cmp);
    SortedAllPairs(q, cmp);
    forall e ensures Keep(r, e, cmp) == Keep(q, e, cmp) {
      SortStable(s, e, cmp);
    }
    SameClassesSame(r, q, cmp);
  }

  lemma Reflexive<T(!new)>(x: T, cmp: (T, T) -> Ordering)
    requires IsTotalPreorder(cmp)
    ensures cmp(x, x) == Equal
  {
    assert cmp(x, x) == cmp(x, x).Reverse();
  }

  /** In a sequence with every pair in order, every element is not greater than the last. */
  lemma AtMostLast<T(!new)>(q: seq<T>, x: T, cmp: (T, T) -> Ordering)
    requires IsTotalPreorder(cmp) && SortedPairs(q, cmp) && x in q
    ensures cmp(x, q[|q| - 1]) != Greater
  {
    var i :| 0 <= i < |q| && q[i] == x;
    if i == |q| - 1 {
      Reflexive(x, cmp);
    }
  }

  /** Two sorted sequences with the same classes end in the same element. */
  lemma SameClassesSameLast<T(!new)>(r: seq<T>, q: seq<T>, cmp: (T, T) -> Ordering)
    requires IsTotalPreorder(cmp)
    requires SortedPairs(r, cmp) && SortedPairs(q, cmp) && r != [] && q != []
    requires forall e :: Keep(r, e, cmp) == Keep(q, e, cmp)
    ensures r[|r| - 1] == q[|q| - 1]
  {
    var a, b := r[|r| - 1], q[|q| - 1];
    KeepHas(r, |r| - 1, cmp);
    KeepMembers(q, a, cmp);
    AtMostLast(q, a, cmp);
    KeepHas(q, |q| - 1, cmp);
    KeepMembers(r, b, cmp);
    AtMostLast(r, b, cmp);
    assert cmp(b, a) == cmp(a, b).Reverse();
    Reflexive(a, cmp);
    // Both classes of a end in the last element of their sequence.
    assert Keep(r, a, cmp) == Keep(r[..|r| - 1], a, cmp) + [a];
    assert Keep(q, a, cmp) == Keep(q[..|q| - 1], a, cmp) + [b];
  }

  lemma {:induction false} SameClassesSame<T(!new)>(r: seq<T>, q: seq<T>, cmp: (T, T) -> Ordering)
    requires IsTotalPreorder(cmp)
    requires SortedPairs(r, cmp) && SortedPairs(q, cmp)
    requires forall e :: Keep(r, e, cmp) == Keep(q, e, cmp)
    ensures r == q
    decreases |r| + |q|
  {
    if r == [] && q == [] {
    } else if r == [] {
      KeepHas(q, |q| - 1, cmp);
    } else if q == [] {
      KeepHas(r, |r| - 1, cmp);
    } else {
      SameClassesSameLast(r, q, cmp);
      var last := r[|r| - 1];
      var r', q' := r[..|r| - 1], q[..|q| - 1];
      forall e ensures Keep(r', e, cmp) == Keep(q', e, cmp) {
        var tail := if cmp(last, e) == Equal then [last] else [];
        assert Keep(r, e, cmp) == Keep(r', e, cmp) + tail;
        assert Keep(q, e, cmp) == Keep(q', e, cmp) + tail;
        assert Keep(r', e, cmp) == (Keep(r', e, cmp) + tail)[..|Keep(r', e, cmp)|];
        assert Keep(q', e, cmp) == (Keep(q', e, cmp) + tail)[..|Keep(q', e, cmp)|];
      }
      assert SortedPairs(r', cmp) by {
        forall i, j | 0 <= i < j < |r'| ensures cmp(r'[i], r'[j]) != Greater { assert r'[i] == r[i] && r'[j] == r[j]; }
      }
      assert SortedPairs(q', cmp) by {
        forall i, j | 0 <= i < j < |q'| ensures cmp(q'[i], q'[j]) != Greater { assert q'[i] == q[i] && q'[j] == q[j]; }
      }
      SameClassesSame(r', q', cmp);
      assert r == r' + [last] && q == q' + [last];
    }
  }

  /**
    * `slice::sort_by(cmp)` on an array: a stable in-place sort (insertion sort
    * here), leaving exactly `SortSeq` of the old contents.
    */
  method SortInPlace<T>(a: array<T>, cmp: (T, T) -> Ordering)
    modifies a
    ensures a[..] == SortSeq(old(a[..]), cmp)
  {
    ghost var s := a[..];
    var i := 0;
    while i < a.Length
      invariant 0 <= i <= a.Length
      invariant a[..i] == SortSeq(s[..i], cmp)
      invariant a[i..] == s[i..]
    {
      ghost var before := a[..];
      assert before[..i] == a[..i];
      InsertInPlace(a, i, cmp);
      assert before[i] == s[i] by { assert before[i..][0] == s[i..][0]; }
      assert s[..i + 1][..i] == s[..i];
      assert a[..i + 1] == SortSeq(s[..i + 1], cmp);
      assert a[i + 1..] == s[i + 1..] by {
        assert before[i + 1..] == before[i..][1..] && s[i + 1..] == s[i..][1..];
      }
      i := i + 1;
    }
    assert a[..] == a[..a.Length] && s == s[..a.Length];
  }

  /** One insertion step: `a[i]` moves left past the greater elements of the sorted prefix `a[..i]`. */
  method InsertInPlace<T>(a: array<T>, i: nat, cmp: (T, T) -> Ordering)
    requires i < a.Length
    modifies a
    ensures a[..i + 1] == Insert(old(a[..i]), old(a[i]), cmp)
    ensures a[i + 1..] == old(a[i + 1..])
  {
    ghost var orig := a[..];
    ghost var sorted := a[..i];
    var x := a[i];
    var j := i;
    assert Shifting(a[..], orig, sorted, x, i, i, cmp) by {
      assert a[i + 1..i + 1] == [] && sorted[i..] == [];
      assert sorted[..i] == sorted && Insert(sorted, x, cmp) + [] == Insert(sorted, x, cmp);
    }
    while j > 0 && cmp(a[j - 1], x) == Greater
      invariant 0 <= j <= i
      invariant Shifting(a[..], orig, sorted, x, j, i, cmp)
    {
      ghost var pre := a[..];
      ShiftedBelow(pre, orig, sorted, x, j, i, cmp);
      a[j] := a[j - 1];
      assert a[..] == pre[j := pre[j - 1]];
      ShiftStep(pre, orig, sorted, x, j, i, cmp);
      j := j - 1;
    }
    ghost var pre := a[..];
    if j > 0 {
      ShiftedBelow(pre, orig, sorted, x, j, i, cmp);
    }
    a[j] := x;
    assert a[..] == pre[j := x];
    ShiftDone(pre, orig, sorted, x, j, i, cmp);
    assert a[..i + 1] == a[..][..i + 1] && a[i + 1..] == a[..][i + 1..];
    assert old(a[..i]) == sorted && old(a[i]) == x && old(a[i + 1..]) == orig[i + 1..];
  }

  /**
    * The state of the shifting loop: `cur` holds the sorted prefix up to `j`,
    * its remaining elements one place to the right, and the rest of `orig`.
    */
  ghost predicate Shifting<T>(cur: seq<T>, orig: seq<T>, sorted: seq<T>, x: T, j: nat, i: nat, cmp: (T, T) -> Ordering)
  {
    |cur| == |orig| && j <= i < |cur| && |sorted| == i &&
    cur[..j] == sorted[..j] && cur[j + 1..i + 1] == sorted[j..] && cur[i + 1..] == orig[i + 1..] &&
    Insert(sorted, x, cmp) == Insert(sorted[..j], x, cmp) + sorted[j..]
  }

  /** Below the gap the array still holds the sorted prefix. */
  lemma ShiftedBelow<T>(cur: seq<T>, orig: seq<T>, sorted: seq<T>, x: T, j: nat, i: nat, cmp: (T, T) -> Ordering)
    requires Shifting(cur, orig, sorted, x, j, i, cmp) && 0 < j
    ensures cur[j - 1] == sorted[j - 1]
  {
    assert cur[..j][j - 1] == sorted[..j][j - 1];
  }

  /** Moving the element below the gap up by one keeps the loop state, one place lower. */
  lemma ShiftStep<T>(pre: seq<T>, orig: seq<T>, sorted: seq<T>, x: T, j: nat, i: nat, cmp: (T, T) -> Ordering)
    requires Shifting(pre, orig, sorted, x, j, i, cmp) && 0 < j && cmp(pre[j - 1], x) == Greater
    ensures Shifting(pre[j := pre[j - 1]], orig, sorted, x, j - 1, i, cmp)
  {
    var post := pre[j := pre[j - 1]];
    ShiftedBelow(pre, orig, sorted, x, j, i, cmp);
    assert post[..j - 1] == pre[..j - 1];
    assert pre[..j][..j - 1] == pre[..j - 1] && sorted[..j][..j - 1] == sorted[..j - 1];
    assert post[j..i + 1] == [sorted[j - 1]] + pre[j + 1..i + 1];
    assert sorted[j - 1..] == [sorted[j - 1]] + sorted[j..];
    assert post[i + 1..] == pre[i + 1..];
    InsertPastGreater(sorted, x, j, cmp);
  }

  /** Dropping `x` into the gap once nothing below it is greater completes the insertion. */
  lemma ShiftDone<T>(pre: seq<T>, orig: seq<T>, sorted: seq<T>, x: T, j: nat, i: nat, cmp: (T, T) -> Ordering)
    requires Shifting(pre, orig, sorted, x, j, i, cmp)
    requires j == 0 || cmp(sorted[j - 1], x) != Greater
    ensures pre[j := x][..i + 1] == Insert(sorted, x, cmp)
    ensures pre[j := x][i + 1..] == orig[i + 1..]
  {
    var post := pre[j := x];
    assert post[..i + 1] == sorted[..j] + [x] + sorted[j..];
    assert Insert(sorted[..j], x, cmp) == sorted[..j] + [x] by {
      if j > 0 {
        assert sorted[..j][j - 1] == sorted[j - 1];
      }
    }
    assert post[i + 1..] == pre[i + 1..];
  }

  /** Inserting past a greater last element: that element ends the result, the rest is inserted into. */
  lemma InsertPastGreater<T>(s: seq<T>, x: T, j: nat, cmp: (T, T) -> Ordering)
    requires 0 < j <= |s| && cmp(s[j - 1], x) == Greater
    ensures Insert(s[..j], x, cmp) + s[j..] == Insert(s[..j - 1], x, cmp) + s[j - 1..]
  {
    assert s[..j][..j - 1] == s[..j - 1];
    assert s[j - 1..] == [s[j - 1]] + s[j..];
  }
}
