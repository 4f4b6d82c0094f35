/**
 `Graph::quick_sort`: a recursive three-way partition of node indices by
 tentative distance. Elements SMALLER than the pivot go to the list the
 source calls `higherList`, which is appended last, so the result runs from
 the largest distance down to the smallest and its last element is a node of
 minimum distance.
 */
module Ordering {
  import opened Machine
  import opened Nodes

  /** Every index of `xs` names a node of the arena. */
  predicate InArena(a: Arena, xs: seq<nat>) {
    forall k :: 0 <= k < |xs| ==> xs[k] < |a|
  }

  /** Distances never increase from left to right. */
  predicate NonIncreasing(a: Arena, xs: seq<nat>)
    requires InArena(a, xs)
  {
    forall i, j :: 0 <= i < j < |xs| ==> a[xs[i]].dist >= a[xs[j]].dist
  }

  /** The three lists of the partition, named as in the source: `LowerList`
      takes distances above the pivot, `EqualList` the pivot's own distance,
      `HigherList` distances below it. */
  datatype Band = LowerList | EqualList | HigherList

  /** The list the partition loop pushes a node of distance `d` onto. */
  function BandOf(d: u32, pivot: u32): (b: Band)
    ensures b == HigherList <==> d < pivot
    ensures b == EqualList <==> d == pivot
    ensures b == LowerList <==> d > pivot
  {
    if d < pivot then HigherList
    else if d == pivot then EqualList
    else LowerList
  }

  /** The elements of `xs` that the partition loop sends to list `b`, in
      their original order. */
  function Partition(a: Arena, xs: seq<nat>, pivot: u32, b: Band): (r: seq<nat>)
    requires InArena(a, xs)
    ensures InArena(a, r)
    ensures forall k :: 0 <= k < |r| ==> BandOf(a[r[k]].dist, pivot) == b
  {
    if |xs| == 0 then []
    else
      var rest := Partition(a, xs[1..], pivot, b);
      if BandOf(a[xs[0]].dist, pivot) == b then [xs[0]] + rest else rest
  }

  /** An element whose distance belongs to band `b` is picked for it. */
  lemma {:induction false} PartitionKeeps(a: Arena, xs: seq<nat>, pivot: u32, k: nat)
    requires InArena(a, xs) && k < |xs|
    ensures xs[k] in Partition(a, xs, pivot, BandOf(a[xs[k]].dist, pivot))
    decreases |xs|
  {
    if k > 0 {
      PartitionKeeps(a, xs[1..], pivot, k - 1);
    }
  }

  /** The three lists together hold exactly the input. */
  lemma {:induction false} PartitionSplits(a: Arena, xs: seq<nat>, pivot: u32)
    requires InArena(a, xs)
    ensures multiset(Partition(a, xs, pivot, LowerList)) + multiset(Partition(a, xs, pivot, EqualList))
              + multiset(Partition(a, xs, pivot, HigherList)) == multiset(xs)
    decreases |xs|
  {
    if |xs| > 0 {
      var t := xs[1..];
      PartitionSplits(a, t, pivot);
      assert xs == [xs[0]] + t;
      Regroup(multiset{xs[0]}, BandOf(a[xs[0]].dist, pivot),
              multiset(Partition(a, t, pivot, LowerList)), multiset(Partition(a, t, pivot, EqualList)),
              multiset(Partition(a, t, pivot, HigherList)),
              multiset(Partition(a, xs, pivot, LowerList)), multiset(Partition(a, xs, pivot, EqualList)),
              multiset(Partition(a, xs, pivot, HigherList)));
    }
  }

  /** Adding the head `x` to the list of band `b` adds it to the union of the
      three lists. */
  lemma Regroup(x: multiset<nat>, b: Band, l: multiset<nat>, e: multiset<nat>, h: multiset<nat>,
                L: multiset<nat>, E: multiset<nat>, H: multiset<nat>)
    requires L == (if b == LowerList then x + l else l)
    requires E == (if b == EqualList then x + e else e)
    requires H == (if b == HigherList then x + h else h)
    ensures L + E + H == x + (l + e + h)
  {
  }

  /** A non-increasing list followed by one whose every distance is below
      the first's is non-increasing. */
  lemma AppendNonIncreasing(a: Arena, xs: seq<nat>, ys: seq<nat>)
    requires InArena(a, xs) && InArena(a, ys)
    requires NonIncreasing(a, xs) && NonIncreasing(a, ys)
    requires forall i, j :: 0 <= i < |xs| && 0 <= j < |ys| ==> a[xs[i]].dist >= a[ys[j]].dist
    ensures InArena(a, xs + ys) && NonIncreasing(a, xs + ys)
  {
    var s := xs + ys;
    forall i, j | 0 <= i < j < |s| ensures a[s[i]].dist >= a[s[j]].dist {
      if j < |xs| {
        assert s[i] == xs[i] && s[j] == xs[j];
      } else if i < |xs| {
        assert s[i] == xs[i] && s[j] == ys[j - |xs|];
      } else {
        assert s[i] == ys[i - |xs|] && s[j] == ys[j - |xs|];
      }
    }
  }

  /** `quick_sort`: returns a permutation of its input ordered from the
      largest distance to the smallest. */
  function QuickSort(a: Arena, xs: seq<nat>): (r: seq<nat>)
    requires InArena(a, xs)
    ensures |r| == |xs| && multiset(r) == multiset(xs)
    ensures InArena(a, r) && NonIncreasing(a, r)
    decreases |xs|
  {
    if |xs| <= 1 then xs
    else
      var pivot := a[xs[|xs| / 2]].dist;
      var lower := Partition(a, xs, pivot, LowerList);
      var equal := Partition(a, xs, pivot, EqualList);
      var higher := Partition(a, xs, pivot, HigherList);
      PartitionSplits(a, xs, pivot);
      PartitionKeeps(a, xs, pivot, |xs| / 2);
      assert |lower| + |equal| + |higher| == |xs| by {
        assert |multiset(lower) + multiset(equal) + multiset(higher)| == |multiset(xs)|;
      }
      var sortedLower := QuickSort(a, lower);
      var sortedHigher := QuickSort(a, higher);
      SortedBandsAppend(a, pivot, sortedLower, equal, sortedHigher, lower, higher);
      sortedLower + equal + sortedHigher
  }

  /** The sorted upper band, the pivot band and the sorted lower band, laid
      end to end, are in non-increasing order. */
  lemma SortedBandsAppend(a: Arena, pivot: u32, sl: seq<nat>, eq: seq<nat>, sh: seq<nat>,
                          lower: seq<nat>, higher: seq<nat>)
    requires InArena(a, sl) && InArena(a, eq) && InArena(a, sh) && InArena(a, lower) && InArena(a, higher)
    requires NonIncreasing(a, sl) && NonIncreasing(a, sh)
    requires multiset(sl) == multiset(lower) && multiset(sh) == multiset(higher)
    requires forall k :: 0 <= k < |lower| ==> BandOf(a[lower[k]].dist, pivot) == LowerList
    requires forall k :: 0 <= k < |eq| ==> BandOf(a[eq[k]].dist, pivot) == EqualList
    requires forall k :: 0 <= k < |higher| ==> BandOf(a[higher[k]].dist, pivot) == HigherList
    ensures InArena(a, sl + eq + sh) && NonIncreasing(a, sl + eq + sh)
  {
    forall k | 0 <= k < |sl| ensures a[sl[k]].dist > pivot {
      assert sl[k] in multiset(lower);
      var m :| 0 <= m < |lower| && lower[m] == sl[k];
    }
    forall k | 0 <= k < |sh| ensures a[sh[k]].dist < pivot {
      assert sh[k] in multiset(higher);
      var m :| 0 <= m < |higher| && higher[m] == sh[k];
    }
    AppendNonIncreasing(a, sl, eq);
    forall i, j | 0 <= i < |sl + eq| && 0 <= j < |sh| ensures a[(sl + eq)[i]].dist >= a[sh[j]].dist {
      if i < |sl| { assert (sl + eq)[i] == sl[i]; } else { assert (sl + eq)[i] == eq[i - |sl|]; }
    }
    AppendNonIncreasing(a, sl + eq, sh);
  }

  /** The node `run_dijkstras_algorithm` takes with `back()` after sorting:
      a member of the working set whose distance is no larger than any other
      member's. */
  function Back(a: Arena, xs: seq<nat>): (top: nat)
    requires InArena(a, xs) && |xs| > 0
    ensures top < |a| && top in xs
    ensures forall k :: 0 <= k < |xs| ==> a[top].dist <= a[xs[k]].dist
  {
    var sorted := QuickSort(a, xs);
    var top := sorted[|sorted| - 1];
    assert top in multiset(xs);
    forall k | 0 <= k < |xs| ensures a[top].dist <= a[xs[k]].dist {
      assert xs[k] in multiset(sorted);
      var m :| 0 <= m < |sorted| && sorted[m] == xs[k];
    }
    top
  }

  /** The tail of a non-increasing list is non-increasing and bounded by its
      head. */
  lemma TailNonIncreasing(a: Arena, xs: seq<nat>)
    requires InArena(a, xs) && NonIncreasing(a, xs) && |xs| > 0
    ensures InArena(a, xs[1..]) && NonIncreasing(a, xs[1..])
    ensures forall k :: 0 <= k < |xs[1..]| ==> a[xs[1..][k]].dist <= a[xs[0]].dist
  {
    var t := xs[1..];
    forall i, j | 0 <= i < j < |t| ensures a[t[i]].dist >= a[t[j]].dist {
      assert t[i] == xs[i + 1] && t[j] == xs[j + 1];
    }
    forall k | 0 <= k < |t| ensures a[t[k]].dist <= a[xs[0]].dist {
      assert t[k] == xs[k + 1];
    }
  }

  /** On an input that is already non-increasing the partition keeps the
      three bands in place: taking them in the order upper, pivot, lower
      gives the input back. */
  lemma {:induction false} PartitionOfSorted(a: Arena, xs: seq<nat>, pivot: u32)
    requires InArena(a, xs) && NonIncreasing(a, xs)
    ensures Partition(a, xs, pivot, LowerList) + Partition(a, xs, pivot, EqualList)
              + Partition(a, xs, pivot, HigherList) == xs
    decreases |xs|
  {
    if |xs| > 0 {
      var t := xs[1..];
      TailNonIncreasing(a, xs);
      PartitionOfSorted(a, t, pivot);
      var l, e, h := Partition(a, t, pivot, LowerList), Partition(a, t, pivot, EqualList), Partition(a, t, pivot, HigherList);
      var L, E, H := Partition(a, xs, pivot, LowerList), Partition(a, xs, pivot, EqualList), Partition(a, xs, pivot, HigherList);
      assert l + e + h == t;
      assert xs == [xs[0]] + t;
      var d := a[xs[0]].dist;
      if d == pivot {
        NoneInBand(a, t, pivot, LowerList);
      } else if d < pivot {
        NoneInBand(a, t, pivot, LowerList);
        NoneInBand(a, t, pivot, EqualList);
      }
      Reassemble(xs[0], BandOf(d, pivot), l, e, h, L, E, H);
    }
  }

  /** Putting the three lists back together after the head `x` went to band
      `b`: the head lands in front whichever list received it, as long as
      the lists before that one are empty. */
  lemma Reassemble(x: nat, b: Band, l: seq<nat>, e: seq<nat>, h: seq<nat>,
                   L: seq<nat>, E: seq<nat>, H: seq<nat>)
    requires b == LowerList ==> L == [x] + l && E == e && H == h
    requires b == EqualList ==> l == [] && L == [] && E == [x] + e && H == h
    requires b == HigherList ==> l == [] && e == [] && L == [] && E == [] && H == [x] + h
    ensures L + E + H == [x] + (l + e + h)
  {
  }

  /** `Partition` picks nothing when no element belongs to the band. */
  lemma {:induction false} NoneInBand(a: Arena, xs: seq<nat>, pivot: u32, b: Band)
    requires InArena(a, xs)
    requires forall k :: 0 <= k < |xs| ==> BandOf(a[xs[k]].dist, pivot) != b
    ensures Partition(a, xs, pivot, b) == []
    decreases |xs|
  {
    if |xs| > 0 {
      NoneInBand(a, xs[1..], pivot, b);
    }
  }

  /** `quick_sort` leaves an already sorted list unchanged. */
  lemma {:induction false} QuickSortFixesSorted(a: Arena, xs: seq<nat>)
    requires InArena(a, xs) && NonIncreasing(a, xs)
    ensures QuickSort(a, xs) == xs
    decreases |xs|
  {
    if |xs| > 1 {
      var pivot := a[xs[|xs| / 2]].dist;
      var lower := Partition(a, xs, pivot, LowerList);
      var higher := Partition(a, xs, pivot, HigherList);
      PartitionOfSorted(a, xs, pivot);
      PartitionSplits(a, xs, pivot);
      PartitionKeeps(a, xs, pivot, |xs| / 2);
      assert |lower| + |Partition(a, xs, pivot, EqualList)| + |higher| == |xs| by {
        assert |multiset(lower) + multiset(Partition(a, xs, pivot, EqualList)) + multiset(higher)| == |multiset(xs)|;
      }
      SubsequenceNonIncreasing(a, xs, pivot, LowerList);
      SubsequenceNonIncreasing(a, xs, pivot, HigherList);
      QuickSortFixesSorted(a, lower);
      QuickSortFixesSorted(a, higher);
    }
  }

  /** Each band of a sorted input is itself sorted. */
  lemma {:induction false} SubsequenceNonIncreasing(a: Arena, xs: seq<nat>, pivot: u32, b: Band)
    requires InArena(a, xs) && NonIncreasing(a, xs)
    ensures NonIncreasing(a, Partition(a, xs, pivot, b))
    decreases |xs|
  {
    if |xs| > 0 {
      var t := xs[1..];
      TailNonIncreasing(a, xs);
      SubsequenceNonIncreasing(a, t, pivot, b);
      var rest := Partition(a, t, pivot, b);
      if BandOf(a[xs[0]].dist, pivot) == b {
        PartitionSplits(a, t, pivot);
        forall j | 0 <= j < |rest| ensures a[xs[0]].dist >= a[rest[j]].dist {
          assert rest[j] in multiset(t);
          var m :| 0 <= m < |t| && t[m] == rest[j];
        }
        AppendNonIncreasing(a, [xs[0]], rest);
      }
    }
  }

  /** Selecting twice without relaxing in between gives the same order, and
      hence the same node at the back. */
  lemma QuickSortIdempotent(a: Arena, xs: seq<nat>)
    requires InArena(a, xs)
    ensures QuickSort(a, QuickSort(a, xs)) == QuickSort(a, xs)
  {
    QuickSortFixesSorted(a, QuickSort(a, xs));
  }
}
