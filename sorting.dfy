/**
 * The handler's hand-written top-down merge sort: `merge_sort` splits its
 * list at `len // 2`, sorts both halves recursively and merges them with the
 * inner `merge`, which repeatedly moves the smaller head of the two lists to
 * the output and then appends whatever is left.
 */
module Sorting {

  /** Ascending order (duplicates allowed). */
  predicate Sorted(s: seq<int>) {
    forall i, j :: 0 <= i < j < |s| ==> s[i] <= s[j]
  }

  /** `x` is no larger than any element of `s`. */
  predicate AtMostAll(x: int, s: seq<int>) {
    forall i :: 0 <= i < |s| ==> x <= s[i]
  }

  /**
   * What `merge` returns: while both lists are non-empty, the head of `left`
   * is taken when it is strictly smaller than the head of `right`, otherwise
   * the head of `right`; then the remaining list is appended.
   */
  function Merge(left: seq<int>, right: seq<int>): (merged: seq<int>)
    ensures multiset(merged) == multiset(left) + multiset(right)
    ensures |merged| == |left| + |right|
    decreases |left| + |right|
  {
    if left == [] then right
    else if right == [] then left
    else if left[0] < right[0] then
      assert left == [left[0]] + left[1..];
      [left[0]] + Merge(left[1..], right)
    else
      assert right == [right[0]] + right[1..];
      [right[0]] + Merge(left, right[1..])
  }

  /** An element below both lists' every element is below their merge. */
  lemma {:induction false} MergeBound(x: int, left: seq<int>, right: seq<int>)
    requires AtMostAll(x, left) && AtMostAll(x, right)
    ensures AtMostAll(x, Merge(left, right))
  {
    var m := Merge(left, right);
    forall i | 0 <= i < |m| ensures x <= m[i] {
      assert m[i] in multiset(m);
      assert m[i] in multiset(left) || m[i] in multiset(right);
    }
  }

  /** Merging two ascending lists gives an ascending list. */
  lemma {:induction false} MergeSorted(left: seq<int>, right: seq<int>)
    requires Sorted(left) && Sorted(right)
    ensures Sorted(Merge(left, right))
    decreases |left| + |right|
  {
    if left == [] || right == [] {
    } else if left[0] < right[0] {
      MergeSorted(left[1..], right);
      MergeBound(left[0], left[1..], right);
    } else {
      MergeSorted(left, right[1..]);
      MergeBound(right[0], left, right[1..]);
    }
  }

  lemma MoveHead(done: seq<int>, x: int, rest: seq<int>)
    ensures done + ([x] + rest) == (done + [x]) + rest
  {
  }

  /**
   * The `while left and right` loop of `merge`: `pop(0)` takes the head off a
   * list, `append` adds it to `sorted_list`, and `extend(left or right)`
   * appends the list that is not yet empty.
   */
  method MergeLists(left: seq<int>, right: seq<int>) returns (sortedList: seq<int>)
    ensures sortedList == Merge(left, right)
    ensures multiset(sortedList) == multiset(left) + multiset(right)
    ensures Sorted(left) && Sorted(right) ==> Sorted(sortedList)
  {
    var l, r := left, right;
    sortedList := [];
    while l != [] && r != []
      invariant sortedList + Merge(l, r) == Merge(left, right)
      decreases |l| + |r|
    {
      if l[0] < r[0] {
        assert Merge(l, r) == [l[0]] + Merge(l[1..], r);
        MoveHead(sortedList, l[0], Merge(l[1..], r));
        sortedList := sortedList + [l[0]];
        l := l[1..];
      } else {
        assert Merge(l, r) == [r[0]] + Merge(l, r[1..]);
        MoveHead(sortedList, r[0], Merge(l, r[1..]));
        sortedList := sortedList + [r[0]];
        r := r[1..];
      }
    }
    assert Merge(l, r) == if l != [] then l else r;
    sortedList := sortedList + (if l != [] then l else r);
    if Sorted(left) && Sorted(right) {
      MergeSorted(left, right);
    }
  }

  /**
   * `merge_sort`: lists of length at most one come back unchanged; longer
   * ones are cut at `len // 2` and the sorted halves merged. The result is
   * ascending and holds exactly the input's elements, each as often.
   */
  function MergeSort(data: seq<int>): (r: seq<int>)
    ensures Sorted(r)
    ensures multiset(r) == multiset(data)
    ensures |r| == |data|
    ensures |data| <= 1 ==> r == data
    decreases |data|
  {
    if |data| <= 1 then data
    else
      var mid := |data| / 2;
      var leftHalf := MergeSort(data[..mid]);
      var rightHalf := MergeSort(data[mid..]);
      assert data == data[..mid] + data[mid..];
      MergeSorted(leftHalf, rightHalf);
      Merge(leftHalf, rightHalf)
  }
}
