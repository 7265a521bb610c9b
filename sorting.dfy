/**
 * JavaScript's `Array.prototype.sort(compare)`, which is stable. `gt(x, y)`
 * holds when the comparator puts `x` strictly after `y` (`compare(x, y) > 0`).
 * A stable sort by a strict weak order has exactly one possible result, so the
 * model is insertion sort: `Sort` specifies it and `SortInPlace` performs it
 * on an array, as the source does.
 */
module Sorting {

  /** Inserts `x` behind every element of `s` that the comparator does not put after it. */
  function Insert<T>(s: seq<T>, x: T, gt: (T, T) -> bool): (r: seq<T>)
    ensures |r| == |s| + 1
    decreases |s|
  {
    if s == [] then [x]
    else if gt(s[|s| - 1], x) then Insert(s[..|s| - 1], x, gt) + [s[|s| - 1]]
    else s + [x]
  }

  lemma {:induction false} InsertPermutes<T>(s: seq<T>, x: T, gt: (T, T) -> bool)
    ensures multiset(Insert(s, x, gt)) == multiset(s) + multiset{x}
    decreases |s|
  {
    if s != [] {
      assert s == s[..|s| - 1] + [s[|s| - 1]];
      InsertPermutes(s[..|s| - 1], x, gt);
    }
  }

  /** The stable sort of `s`: a permutation of `s` (see `SortSorted` and `SortStable` for the order). */
  function Sort<T>(s: seq<T>, gt: (T, T) -> bool): (r: seq<T>)
    ensures |r| == |s|
    ensures multiset(r) == multiset(s)
    decreases |s|
  {
    if s == [] then []
    else
      assert s == s[..|s| - 1] + [s[|s| - 1]];
      InsertPermutes(Sort(s[..|s| - 1], gt), s[|s| - 1], gt);
      Insert(Sort(s[..|s| - 1], gt), s[|s| - 1], gt)
  }

  /** No element is put after one that follows it. */
  ghost predicate SortedBy<T>(s: seq<T>, gt: (T, T) -> bool) {
    forall i, j :: 0 <= i < j < |s| ==> !gt(s[i], s[j])
  }

  /** The comparators of the source are strict weak orders: asymmetric, with a transitive complement. */
  ghost predicate StrictWeakOrder<T(!new)>(gt: (T, T) -> bool) {
    && (forall x, y :: gt(x, y) ==> !gt(y, x))
    && (forall x, y, z :: !gt(x, y) && !gt(y, z) ==> !gt(x, z))
  }

  /** Neither element is put after the other. */
  predicate Equivalent<T>(x: T, y: T, gt: (T, T) -> bool) {
    !gt(x, y) && !gt(y, x)
  }

  /** The elements of `s` equivalent to `x`, in their order in `s`. */
  function EquivalentTo<T>(s: seq<T>, x: T, gt: (T, T) -> bool): (r: seq<T>)
    ensures |r| <= |s|
    decreases |s|
  {
    if s == [] then []
    else EquivalentTo(s[..|s| - 1], x, gt) + (if Equivalent(s[|s| - 1], x, gt) then [s[|s| - 1]] else [])
  }

  lemma {:induction false} EquivalentToAppend<T>(s: seq<T>, t: seq<T>, x: T, gt: (T, T) -> bool)
    ensures EquivalentTo(s + t, x, gt) == EquivalentTo(s, x, gt) + EquivalentTo(t, x, gt)
    decreases |t|
  {
    if t == [] {
      assert s + t == s;
    } else {
      assert (s + t)[..|s + t| - 1] == s + t[..|t| - 1];
      EquivalentToAppend(s, t[..|t| - 1], x, gt);
    }
  }

  lemma {:induction false} InsertInSortedIsSorted<T(!new)>(s: seq<T>, x: T, gt: (T, T) -> bool)
    requires StrictWeakOrder(gt)
    requires SortedBy(s, gt)
    ensures SortedBy(Insert(s, x, gt), gt)
    decreases |s|
  {
    if s != [] {
      var init, last := s[..|s| - 1], s[|s| - 1];
      if gt(last, x) {
        InsertInSortedIsSorted(init, x, gt);
        var ins := Insert(init, x, gt);
        InsertPermutes(init, x, gt);
        forall e | e in ins ensures !gt(e, last) {
          assert e in multiset(ins);
          if e != x {
            assert e in multiset(init);
            var k :| 0 <= k < |init| && init[k] == e;
            assert s[k] == e;
          }
        }
        var r := ins + [last];
        forall i, j | 0 <= i < j < |r| ensures !gt(r[i], r[j]) {
          if j == |r| - 1 {
            assert r[i] in ins;
          } else {
            assert r[i] == ins[i] && r[j] == ins[j];
          }
        }
      }
    }
  }

  lemma {:induction false} SortSorted<T(!new)>(s: seq<T>, gt: (T, T) -> bool)
    requires StrictWeakOrder(gt)
    ensures SortedBy(Sort(s, gt), gt)
    decreases |s|
  {
    if s != [] {
      SortSorted(s[..|s| - 1], gt);
      InsertInSortedIsSorted(Sort(s[..|s| - 1], gt), s[|s| - 1], gt);
    }
  }

  lemma {:induction false} InsertKeepsEquivalents<T(!new)>(s: seq<T>, y: T, x: T, gt: (T, T) -> bool)
    requires StrictWeakOrder(gt)
    ensures EquivalentTo(Insert(s, y, gt), x, gt)
         == EquivalentTo(s, x, gt) + (if Equivalent(y, x, gt) then [y] else [])
    decreases |s|
  {
    if s == [] {
      assert Insert(s, y, gt) == [] + [y];
      EquivalentToAppend([], [y], x, gt);
    } else {
      var init, last := s[..|s| - 1], s[|s| - 1];
      assert s == init + [last];
      if gt(last, y) {
        InsertKeepsEquivalents(init, y, x, gt);
        EquivalentToAppend(Insert(init, y, gt), [last], x, gt);
        EquivalentToAppend(init, [last], x, gt);
        // `last` and `y` are not both equivalent to `x`, since `last` goes after `y`.
        assert !(Equivalent(y, x, gt) && Equivalent(last, x, gt));
      } else {
        EquivalentToAppend(s, [y], x, gt);
      }
    }
  }

  /** Stability: elements the comparator cannot tell apart keep their relative order. */
  lemma {:induction false} SortStable<T(!new)>(s: seq<T>, x: T, gt: (T, T) -> bool)
    requires StrictWeakOrder(gt)
    ensures EquivalentTo(Sort(s, gt), x, gt) == EquivalentTo(s, x, gt)
    decreases |s|
  {
    if s != [] {
      var init, last := s[..|s| - 1], s[|s| - 1];
      SortStable(init, x, gt);
      InsertKeepsEquivalents(Sort(init, gt), last, x, gt);
    }
  }

  /** Sorts `a` in place by insertion, shifting right the elements that go after the one being placed. */
  method SortInPlace<T>(a: array<T>, gt: (T, T) -> bool)
    modifies a
    ensures a[..] == Sort(old(a[..]), gt)
  {
    ghost var input := a[..];
    var i := 0;
    while i < a.Length
      invariant 0 <= i <= a.Length
      invariant a[..i] == Sort(input[..i], gt)
      invariant forall k :: i <= k < a.Length ==> a[k] == input[k]
    {
      InsertAt(a, i, gt);
      assert input[..i + 1][..i] == input[..i];
      i := i + 1;
    }
    assert input[..a.Length] == input;
  }

  /** One step of `SortInPlace`: inserts `a[i]` into the already sorted prefix `a[..i]`. */
  method InsertAt<T>(a: array<T>, i: nat, gt: (T, T) -> bool)
    requires i < a.Length
    modifies a
    ensures a[..i + 1] == Insert(old(a[..i]), old(a[i]), gt)
    ensures forall k :: i < k < a.Length ==> a[k] == old(a[k])
  {
    var x := a[i];
    ghost var done := a[..i];
    var j := ShiftGreater(a, i, x, gt);
    a[j] := x;
    ghost var placed := done[..j] + [x] + done[j..];
    forall k | 0 <= k <= i ensures a[k] == placed[k] {
      if k < j {
        assert placed[k] == done[k];
      } else if k > j {
        assert placed[k] == done[k - 1];
      }
    }
    assert a[..i + 1] == placed;
  }

  /**
   * The inner loop of `InsertAt`: shifts one place right each element of the
   * sorted prefix `a[..i]` that goes after `x`, from the right, and returns
   * the gap `x` belongs in.
   */
  method ShiftGreater<T>(a: array<T>, i: nat, x: T, gt: (T, T) -> bool) returns (j: nat)
    requires i < a.Length
    modifies a
    ensures j <= i
    ensures forall k :: 0 <= k < j ==> a[k] == old(a[k])
    ensures forall k :: j < k <= i ==> a[k] == old(a[k - 1])
    ensures forall k :: i < k < a.Length ==> a[k] == old(a[k])
    ensures Insert(old(a[..i]), x, gt) == old(a[..i])[..j] + [x] + old(a[..i])[j..]
  {
    ghost var done := a[..i];
    j := i;
    while j > 0 && gt(a[j - 1], x)
      invariant 0 <= j <= i
      invariant forall k :: 0 <= k < j ==> a[k] == done[k]
      invariant forall k :: j < k <= i ==> a[k] == done[k - 1]
      invariant forall k :: i < k < a.Length ==> a[k] == old(a[k])
      invariant forall k :: j <= k < i ==> gt(done[k], x)
    {
      a[j] := a[j - 1];
      j := j - 1;
    }
    InsertAtGap(done, x, gt, j);
  }

  /**
   * `x` is inserted at gap `j` when every element from `j` on goes after it
   * and the element just before the gap, if any, does not.
   */
  lemma {:induction false} InsertAtGap<T>(s: seq<T>, x: T, gt: (T, T) -> bool, j: nat)
    requires j <= |s|
    requires j == 0 || !gt(s[j - 1], x)
    requires forall k :: j <= k < |s| ==> gt(s[k], x)
    ensures Insert(s, x, gt) == s[..j] + [x] + s[j..]
    decreases |s|
  {
    if j == |s| {
      assert s[..j] == s && s[j..] == [];
      if s != [] {
        assert s[|s| - 1] == s[j - 1];
      }
    } else {
      var init, last := s[..|s| - 1], s[|s| - 1];
      assert init[..j] == s[..j];
      if j > 0 {
        assert init[j - 1] == s[j - 1];
      }
      InsertAtGap(init, x, gt, j);
      assert s[j..] == init[j..] + [last];
    }
  }
}
