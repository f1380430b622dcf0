/** The demo corpus's searches and sorts, on elements compared by a key. */
module Sorting {
  type Payload(==, !new)

  /** An element: the sorts see only its key. */
  datatype Item = Item(key: int, payload: Payload)

  predicate Sorted(s: seq<Item>) {
    forall i, j :: 0 <= i < j < |s| ==> s[i].key <= s[j].key
  }

  datatype Side = Below | Level | Above

  function SideOf(k: int, pivot: int): Side {
    if k < pivot then Below else if k == pivot then Level else Above
  }

  /** The elements on one side of a key, in their original order. */
  function Part(pivot: int, side: Side, s: seq<Item>): (r: seq<Item>)
    ensures |r| <= |s|
  {
    if s == [] then []
    else if SideOf(s[0].key, pivot) == side then [s[0]] + Part(pivot, side, s[1..])
    else Part(pivot, side, s[1..])
  }

  lemma {:induction false} PartMembers(pivot: int, side: Side, s: seq<Item>)
    ensures forall x :: x in Part(pivot, side, s) <==> x in s && SideOf(x.key, pivot) == side
  {
    if s == [] {
    } else {
      PartMembers(pivot, side, s[1..]);
      assert s == [s[0]] + s[1..];
    }
  }

  /** Same elements, and among elements of equal key the same order. */
  ghost predicate SameByKey(s: seq<Item>, r: seq<Item>) {
    forall k: int :: Part(k, Level, s) == Part(k, Level, r)
  }

  /** r is s, sorted and stable. */
  ghost predicate StableSortOf(s: seq<Item>, r: seq<Item>) {
    Sorted(r) && SameByKey(s, r)
  }

  lemma PartCons(k: int, side: Side, x: Item, s: seq<Item>)
    ensures Part(k, side, [x] + s) == (if SideOf(x.key, k) == side then [x] else []) + Part(k, side, s)
  {
    assert ([x] + s)[1..] == s;
  }

  lemma FirstThenRest(a: seq<Item>, b: seq<Item>)
    requires a != []
    ensures a + b == [a[0]] + (a[1..] + b) && a == [a[0]] + a[1..]
  {
  }

  lemma {:induction false} PartConcat(k: int, side: Side, a: seq<Item>, b: seq<Item>)
    ensures Part(k, side, a + b) == Part(k, side, a) + Part(k, side, b)
    decreases a
  {
    if a == [] {
      assert a + b == b;
    } else {
      var x, rest := a[0], a[1..];
      var front := if SideOf(x.key, k) == side then [x] else [];
      PartConcat(k, side, rest, b);
      FirstThenRest(a, b);
      PartCons(k, side, x, rest + b);
      PartCons(k, side, x, rest);
      Regroup(front, Part(k, side, rest), Part(k, side, b));
    }
  }

  lemma Regroup(a: seq<Item>, b: seq<Item>, c: seq<Item>)
    ensures a + (b + c) == (a + b) + c
  {
  }

  lemma {:induction false} PartOfOthers(k: int, s: seq<Item>)
    requires forall x :: x in s ==> x.key != k
    ensures Part(k, Level, s) == []
  {
    if s == [] {
    } else {
      assert s[0] in s;
      PartOfOthers(k, s[1..]);
    }
  }

  lemma {:induction false} PartOfPart(k: int, pivot: int, side: Side, s: seq<Item>)
    ensures Part(k, Level, Part(pivot, side, s)) == if SideOf(k, pivot) == side then Part(k, Level, s) else []
    decreases s
  {
    if s == [] {
    } else {
      PartOfPart(k, pivot, side, s[1..]);
      if SideOf(s[0].key, pivot) == side {
        PartCons(k, Level, s[0], Part(pivot, side, s[1..]));
      }
    }
  }

  lemma SameMembers(s: seq<Item>, r: seq<Item>)
    requires SameByKey(s, r)
    ensures forall x :: x in s <==> x in r
  {
    forall x: Item ensures x in s <==> x in r {
      PartMembers(x.key, Level, s);
      PartMembers(x.key, Level, r);
      assert Part(x.key, Level, s) == Part(x.key, Level, r);
    }
  }

  lemma {:induction false} CountByKey(s: seq<Item>, x: Item)
    ensures multiset(s)[x] == multiset(Part(x.key, Level, s))[x]
  {
    if s == [] {
    } else {
      CountByKey(s[1..], x);
      assert s == [s[0]] + s[1..];
      assert multiset(s) == multiset([s[0]]) + multiset(s[1..]);
    }
  }

  /** Keeping each key's elements in order is in particular a permutation. */
  lemma SameByKeyPermutes(s: seq<Item>, r: seq<Item>)
    requires SameByKey(s, r)
    ensures multiset(s) == multiset(r)
  {
    forall x: Item ensures multiset(s)[x] == multiset(r)[x] {
      CountByKey(s, x);
      CountByKey(r, x);
      assert Part(x.key, Level, s) == Part(x.key, Level, r);
    }
  }

  /** There is only one stable sorted permutation. */
  lemma {:induction false} StableSortIsUnique(s: seq<Item>, a: seq<Item>, b: seq<Item>)
    requires StableSortOf(s, a) && StableSortOf(s, b)
    ensures a == b
    decreases a
  {
    forall k: int ensures Part(k, Level, a) == Part(k, Level, b) {
      assert Part(k, Level, s) == Part(k, Level, a);
    }
    SameMembers(a, b);
    if a == [] {
      SameByKeyPermutes(a, b);
      assert |multiset(b)| == |b|;
    } else {
      assert a[0] in a && a[0] in b && b[0] in b && b[0] in a;
      var m := a[0].key;
      assert m == b[0].key;
      assert Part(m, Level, a)[0] == a[0] && Part(m, Level, b)[0] == b[0];
      forall k: int ensures Part(k, Level, a[1..]) == Part(k, Level, b[1..]) {
        var pa, pb := Part(k, Level, a), Part(k, Level, b);
        assert pa == pb;
        if k == m {
          assert pa[1..] == Part(k, Level, a[1..]) && pb[1..] == Part(k, Level, b[1..]);
        }
      }
      StableSortIsUnique(a[1..], a[1..], b[1..]);
      assert a == [a[0]] + a[1..] && b == [b[0]] + b[1..];
    }
  }

  // ---- quicksort on lists ----

  lemma {:induction false} PivotIsElsewhere(s: seq<Item>, x: Item, side: Side)
    requires x in s && side != Level
    ensures |Part(x.key, side, s)| < |s|
  {
    if s[0] == x {
    } else {
      assert s == [s[0]] + s[1..];
      PivotIsElsewhere(s[1..], x, side);
    }
  }

  function Quicksort(s: seq<Item>): seq<Item>
    decreases |s|
  {
    if |s| <= 1 then s
    else
      var pivot := s[|s| / 2];
      PivotIsElsewhere(s, pivot, Below);
      PivotIsElsewhere(s, pivot, Above);
      Quicksort(Part(pivot.key, Below, s)) + Part(pivot.key, Level, s)
        + Quicksort(Part(pivot.key, Above, s))
  }

  lemma PartsOfKey(s: seq<Item>, p: int, k: int)
    ensures Part(k, Level, Part(p, Below, s)) + Part(k, Level, Part(p, Level, s)) + Part(k, Level, Part(p, Above, s))
         == Part(k, Level, s)
  {
    PartOfPart(k, p, Below, s);
    PartOfPart(k, p, Level, s);
    PartOfPart(k, p, Above, s);
  }

  /** Lists that agree by key with the three parts, put one after the other, agree by key with the whole. */
  lemma PartsTogether(s: seq<Item>, p: int, left: seq<Item>, right: seq<Item>)
    requires SameByKey(Part(p, Below, s), left) && SameByKey(Part(p, Above, s), right)
    ensures SameByKey(s, left + Part(p, Level, s) + right)
  {
    var level := Part(p, Level, s);
    forall k: int ensures Part(k, Level, s) == Part(k, Level, left + level + right) {
      PartsOfKey(s, p, k);
      PartConcat(k, Level, left + level, right);
      PartConcat(k, Level, left, level);
      assert Part(k, Level, Part(p, Below, s)) == Part(k, Level, left);
      assert Part(k, Level, Part(p, Above, s)) == Part(k, Level, right);
    }
  }

  lemma PartsSorted(s: seq<Item>, p: int, left: seq<Item>, right: seq<Item>)
    requires StableSortOf(Part(p, Below, s), left) && StableSortOf(Part(p, Above, s), right)
    ensures Sorted(left + Part(p, Level, s) + right)
  {
    SameMembers(Part(p, Below, s), left);
    SameMembers(Part(p, Above, s), right);
    PartMembers(p, Below, s);
    PartMembers(p, Level, s);
    PartMembers(p, Above, s);
    ThreePartsSorted(left, Part(p, Level, s), right, p);
  }

  lemma {:induction false} QuicksortIsStable(s: seq<Item>)
    ensures StableSortOf(s, Quicksort(s))
    decreases |s|
  {
    if |s| <= 1 {
    } else {
      var pivot := s[|s| / 2];
      PivotIsElsewhere(s, pivot, Below);
      PivotIsElsewhere(s, pivot, Above);
      var below, above := Part(pivot.key, Below, s), Part(pivot.key, Above, s);
      QuicksortIsStable(below);
      QuicksortIsStable(above);
      PartsTogether(s, pivot.key, Quicksort(below), Quicksort(above));
      PartsSorted(s, pivot.key, Quicksort(below), Quicksort(above));
    }
  }

  lemma ThreePartsSorted(left: seq<Item>, level: seq<Item>, right: seq<Item>, p: int)
    requires Sorted(left) && Sorted(right)
    requires forall x :: x in left ==> x.key < p
    requires forall x :: x in level ==> x.key == p
    requires forall x :: x in right ==> x.key > p
    ensures Sorted(left + level + right)
  {
  }

  // ---- merge sort ----

  function Merge(left: seq<Item>, right: seq<Item>): seq<Item>
    decreases |left| + |right|
  {
    if left == [] then right
    else if right == [] then left
    else if left[0].key <= right[0].key then [left[0]] + Merge(left[1..], right)
    else [right[0]] + Merge(left, right[1..])
  }

  /** The loop form: two indices and an accumulated list. */
  method MergeLists(left: seq<Item>, right: seq<Item>) returns (result: seq<Item>)
    ensures result == Merge(left, right)
  {
    result := [];
    var i, j := 0, 0;
    assert left[0..] == left && right[0..] == right;
    while i < |left| && j < |right|
      invariant i <= |left| && j <= |right|
      invariant Merge(left, right) == result + Merge(left[i..], right[j..])
      decreases |left| + |right| - i - j
    {
      MergeUnfolds(left, right, i, j);
      if left[i].key <= right[j].key {
        Shift(result, left[i], Merge(left[i + 1..], right[j..]));
        result := result + [left[i]];
        i := i + 1;
      } else {
        Shift(result, right[j], Merge(left[i..], right[j + 1..]));
        result := result + [right[j]];
        j := j + 1;
      }
    }
    assert left[i..] == [] || right[j..] == [];
    assert Merge(left[i..], right[j..]) == left[i..] + right[j..];
    assert result + (left[i..] + right[j..]) == result + left[i..] + right[j..];
    result := result + left[i..];
    result := result + right[j..];
  }

  lemma Shift(a: seq<Item>, x: Item, b: seq<Item>)
    ensures a + ([x] + b) == a + [x] + b
  {
  }

  lemma MergeUnfolds(left: seq<Item>, right: seq<Item>, i: nat, j: nat)
    requires i < |left| && j < |right|
    ensures Merge(left[i..], right[j..])
      == if left[i].key <= right[j].key then [left[i]] + Merge(left[i + 1..], right[j..])
         else [right[j]] + Merge(left[i..], right[j + 1..])
  {
    assert left[i..][1..] == left[i + 1..] && right[j..][1..] == right[j + 1..];
  }

  /** Putting one element in front of two lists that agree by key, behind an s that has none of its key. */
  lemma SameByKeyCons(s: seq<Item>, x: Item, rest: seq<Item>, r: seq<Item>)
    requires SameByKey(s + rest, r) && forall y :: y in s ==> y.key != x.key
    ensures SameByKey(s + ([x] + rest), [x] + r)
  {
    forall k: int ensures Part(k, Level, s + ([x] + rest)) == Part(k, Level, [x] + r) {
      PartConcat(k, Level, s, [x] + rest);
      PartConcat(k, Level, s, rest);
      PartCons(k, Level, x, rest);
      PartCons(k, Level, x, r);
      assert Part(k, Level, s + rest) == Part(k, Level, r);
      if k == x.key {
        PartOfOthers(k, s);
      }
    }
  }

  lemma TakeFromLeft(left: seq<Item>, right: seq<Item>, rest: seq<Item>)
    requires left != [] && right != [] && Sorted(left) && Sorted(right) && left[0].key <= right[0].key
    requires StableSortOf(left[1..] + right, rest)
    ensures StableSortOf(left + right, [left[0]] + rest)
  {
    var x, tail := left[0], left[1..] + right;
    SameMembers(tail, rest);
    FrontIsLeast(x, rest);
    forall k: int ensures Part(k, Level, [x] + tail) == Part(k, Level, [x] + rest) {
      PartCons(k, Level, x, tail);
      PartCons(k, Level, x, rest);
      assert Part(k, Level, tail) == Part(k, Level, rest);
    }
    assert left + right == [x] + tail;
  }

  lemma TakeFromRight(left: seq<Item>, right: seq<Item>, rest: seq<Item>)
    requires left != [] && right != [] && Sorted(left) && Sorted(right) && left[0].key > right[0].key
    requires StableSortOf(left + right[1..], rest)
    ensures StableSortOf(left + right, [right[0]] + rest)
  {
    SameMembers(left + right[1..], rest);
    FrontIsLeast(right[0], rest);
    SameByKeyCons(left, right[0], right[1..], rest);
    assert right == [right[0]] + right[1..];
  }

  /** Merging sorted lists keeps them sorted, and equal keys of the left list come before those of the right. */
  lemma {:induction false} MergeIsStable(left: seq<Item>, right: seq<Item>)
    requires Sorted(left) && Sorted(right)
    ensures StableSortOf(left + right, Merge(left, right))
    decreases |left| + |right|
  {
    if left == [] {
      assert left + right == right;
    } else if right == [] {
      assert left + right == left;
    } else if left[0].key <= right[0].key {
      MergeIsStable(left[1..], right);
      TakeFromLeft(left, right, Merge(left[1..], right));
    } else {
      MergeIsStable(left, right[1..]);
      TakeFromRight(left, right, Merge(left, right[1..]));
    }
  }

  lemma FrontIsLeast(x: Item, rest: seq<Item>)
    requires Sorted(rest) && forall y :: y in rest ==> x.key <= y.key
    ensures Sorted([x] + rest)
  {
  }

  function MergeSort(s: seq<Item>): seq<Item>
    decreases |s|
  {
    if |s| <= 1 then s
    else Merge(MergeSort(s[..|s| / 2]), MergeSort(s[|s| / 2..]))
  }

  lemma {:induction false} MergeSortIsStable(s: seq<Item>)
    ensures StableSortOf(s, MergeSort(s))
    decreases |s|
  {
    if |s| <= 1 {
    } else {
      var a, b := s[..|s| / 2], s[|s| / 2..];
      var a', b' := MergeSort(a), MergeSort(b);
      MergeSortIsStable(a);
      MergeSortIsStable(b);
      MergeIsStable(a', b');
      forall k: int ensures Part(k, Level, s) == Part(k, Level, MergeSort(s)) {
        assert s == a + b;
        PartConcat(k, Level, a, b);
        PartConcat(k, Level, a', b');
        assert Part(k, Level, a) == Part(k, Level, a');
        assert Part(k, Level, b) == Part(k, Level, b');
        assert Part(k, Level, a' + b') == Part(k, Level, MergeSort(s));
      }
    }
  }

  /** The two list sorts agree element by element, ties included, and the result is a permutation of the input. */
  lemma SortsAgree(s: seq<Item>)
    ensures MergeSort(s) == Quicksort(s)
    ensures Sorted(MergeSort(s)) && multiset(MergeSort(s)) == multiset(s)
  {
    MergeSortIsStable(s);
    QuicksortIsStable(s);
    StableSortIsUnique(s, MergeSort(s), Quicksort(s));
    SameByKeyPermutes(s, MergeSort(s));
  }

  // ---- binary search ----

  method BinarySearch(arr: seq<int>, target: int) returns (r: int)
    requires forall i, j :: 0 <= i < j < |arr| ==> arr[i] <= arr[j]
    ensures r == -1 || (0 <= r < |arr| && arr[r] == target)
    ensures r == -1 <==> target !in arr
  {
    var lo, hi := 0, |arr| - 1;
    while lo <= hi
      invariant 0 <= lo <= |arr| && -1 <= hi < |arr|
      invariant forall i :: 0 <= i < |arr| && !(lo <= i <= hi) ==> arr[i] != target
      decreases hi - lo + 1
    {
      var mid := (lo + hi) / 2;
      if arr[mid] == target {
        return mid;
      } else if arr[mid] < target {
        lo := mid + 1;
      } else {
        hi := mid - 1;
      }
    }
    r := -1;
  }

  // ---- quicksort in place ----

  /** t is s with the elements of positions lo to hi - 1 rearranged. */
  ghost predicate Rearranged(s: seq<Item>, t: seq<Item>, lo: nat, hi: nat)
    requires lo <= hi <= |s|
  {
    && |t| == |s|
    && (forall i :: 0 <= i < lo || hi <= i < |s| ==> t[i] == s[i])
    && multiset(t[lo..hi]) == multiset(s[lo..hi])
  }

  /** u is s with the elements at i and j exchanged. */
  predicate Exchanged(s: seq<Item>, u: seq<Item>, i: nat, j: nat)
    requires i < |s| && j < |s|
  {
    && |u| == |s| && u[i] == s[j] && u[j] == s[i]
    && forall k :: 0 <= k < |s| && k != i && k != j ==> u[k] == s[k]
  }

  lemma ExchangeRearranges(s: seq<Item>, u: seq<Item>, i: nat, j: nat, lo: nat, hi: nat)
    requires lo <= i < hi <= |s| && lo <= j < hi && Exchanged(s, u, i, j)
    ensures Rearranged(s, u, lo, hi)
  {
    var m := s[lo..hi];
    assert u[lo..hi] == m[i - lo := m[j - lo]][j - lo := m[i - lo]];
  }

  lemma RearrangedWiden(s: seq<Item>, t: seq<Item>, lo: nat, hi: nat, lo': nat, hi': nat)
    requires lo' <= lo <= hi <= hi' <= |s| && Rearranged(s, t, lo, hi)
    ensures Rearranged(s, t, lo', hi')
  {
    assert s[lo'..hi'] == s[lo'..lo] + s[lo..hi] + s[hi..hi'];
    assert t[lo'..hi'] == t[lo'..lo] + t[lo..hi] + t[hi..hi'];
    assert t[lo'..lo] == s[lo'..lo] && t[hi..hi'] == s[hi..hi'];
  }

  /** Bounds on the elements of a slice survive rearranging the slice. */
  lemma BoundsSurvive(s: seq<Item>, t: seq<Item>, lo: nat, hi: nat, k: int)
    requires lo <= hi <= |s| && Rearranged(s, t, lo, hi)
    ensures (forall i :: lo <= i < hi ==> s[i].key <= k) ==> forall i :: lo <= i < hi ==> t[i].key <= k
    ensures (forall i :: lo <= i < hi ==> s[i].key > k) ==> forall i :: lo <= i < hi ==> t[i].key > k
  {
    forall i | lo <= i < hi ensures exists j :: lo <= j < hi && s[j] == t[i] {
      assert t[i] == t[lo..hi][i - lo];
      assert t[i] in multiset(t[lo..hi]);
      assert t[i] in s[lo..hi];
    }
  }

  method Swap(a: array<Item>, i: nat, j: nat)
    requires i < a.Length && j < a.Length
    modifies a
    ensures Exchanged(old(a[..]), a[..], i, j)
  {
    a[i], a[j] := a[j], a[i];
  }

  lemma RearrangedTwice(s: seq<Item>, t: seq<Item>, u: seq<Item>, lo: nat, hi: nat)
    requires lo <= hi <= |s| && Rearranged(s, t, lo, hi) && Rearranged(t, u, lo, hi)
    ensures Rearranged(s, u, lo, hi)
  {
  }

  /** Lomuto's scan: positions lo to i - 1 are not larger than the pivot at hi, positions i to j - 1 are. */
  predicate Scanned(s: seq<Item>, lo: nat, i: nat, j: nat, hi: nat) {
    && lo <= i <= j <= hi < |s|
    && (forall k :: lo <= k < i ==> s[k].key <= s[hi].key)
    && (forall k :: i <= k < j ==> s[k].key > s[hi].key)
  }

  lemma ScanStep(start: seq<Item>, s: seq<Item>, u: seq<Item>, lo: nat, i: nat, j: nat, hi: nat)
    requires Scanned(s, lo, i, j, hi) && j < hi && s[j].key <= s[hi].key && Exchanged(s, u, i, j)
    requires hi < |start| && Rearranged(start, s, lo, hi + 1)
    ensures Scanned(u, lo, i + 1, j + 1, hi) && u[hi] == s[hi] && Rearranged(start, u, lo, hi + 1)
  {
    ExchangeRearranges(s, u, i, j, lo, hi + 1);
    RearrangedTwice(start, s, u, lo, hi + 1);
  }

  /** s has its element p where it belongs: nothing larger before it, only larger ones after it. */
  predicate Split(s: seq<Item>, lo: nat, p: nat, hi: nat) {
    && lo <= p < hi <= |s|
    && (forall k :: lo <= k < p ==> s[k].key <= s[p].key)
    && (forall k :: p < k < hi ==> s[k].key > s[p].key)
  }

  lemma ScanEnds(start: seq<Item>, s: seq<Item>, u: seq<Item>, lo: nat, i: nat, hi: nat)
    requires Scanned(s, lo, i, hi, hi) && Exchanged(s, u, i, hi)
    requires hi < |start| && Rearranged(start, s, lo, hi + 1)
    ensures Split(u, lo, i, hi + 1) && Rearranged(start, u, lo, hi + 1)
  {
    ExchangeRearranges(s, u, i, hi, lo, hi + 1);
    RearrangedTwice(start, s, u, lo, hi + 1);
  }

  method Partition(a: array<Item>, lo: nat, hi: nat) returns (p: nat)
    requires lo <= hi < a.Length
    modifies a
    ensures Split(a[..], lo, p, hi + 1)
    ensures Rearranged(old(a[..]), a[..], lo, hi + 1)
  {
    var pivot := a[hi];
    var i := lo;
    ghost var start, s := a[..], a[..];
    for j := lo to hi
      invariant a[..] == s && Scanned(s, lo, i, j, hi) && s[hi] == pivot
      invariant Rearranged(start, s, lo, hi + 1)
    {
      if a[j].key <= pivot.key {
        Swap(a, i, j);
        ScanStep(start, s, a[..], lo, i, j, hi);
        i, s := i + 1, a[..];
      }
    }
    Swap(a, i, hi);
    ScanEnds(start, s, a[..], lo, i, hi);
    p := i;
  }

  /**
   * The slice ends up sorted, with the same elements; everything outside it is untouched. Bounds that enclose fewer
   * than two elements change nothing, wherever they are.
   */
  method QuicksortInPlace(a: array<Item>, lo: nat, hi: int)
    requires lo < hi ==> hi < a.Length
    modifies a
    ensures lo >= hi ==> a[..] == old(a[..])
    ensures lo <= hi + 1 <= a.Length ==>
      Rearranged(old(a[..]), a[..], lo, hi + 1) && SortedSlice(a[..], lo, hi + 1)
    decreases hi - lo + 1
  {
    if lo < hi {
      ghost var s0 := a[..];
      var p := Partition(a, lo, hi);
      ghost var s1 := a[..];
      QuicksortInPlace(a, lo, p as int - 1);
      ghost var s2 := a[..];
      QuicksortInPlace(a, p + 1, hi);
      BothSidesSorted(s0, s1, s2, a[..], lo, p, hi + 1);
    }
  }

  predicate SortedSlice(s: seq<Item>, lo: nat, hi: nat)
    requires lo <= hi <= |s|
  {
    forall i, j :: lo <= i < j < hi ==> s[i].key <= s[j].key
  }

  lemma SplitSurvivesLeft(s: seq<Item>, t: seq<Item>, lo: nat, p: nat, hi: nat)
    requires Split(s, lo, p, hi) && Rearranged(s, t, lo, p)
    ensures Split(t, lo, p, hi) && Rearranged(s, t, lo, hi)
  {
    RearrangedWiden(s, t, lo, p, lo, hi);
    BoundsSurvive(s, t, lo, p, s[p].key);
  }

  lemma SplitSurvivesRight(s: seq<Item>, t: seq<Item>, lo: nat, p: nat, hi: nat)
    requires Split(s, lo, p, hi) && Rearranged(s, t, p + 1, hi) && SortedSlice(s, lo, p)
    ensures Split(t, lo, p, hi) && Rearranged(s, t, lo, hi) && SortedSlice(t, lo, p)
  {
    RearrangedWiden(s, t, p + 1, hi, lo, hi);
    BoundsSurvive(s, t, p + 1, hi, s[p].key);
  }

  lemma SidesSorted(s: seq<Item>, lo: nat, p: nat, hi: nat)
    requires Split(s, lo, p, hi) && SortedSlice(s, lo, p) && SortedSlice(s, p + 1, hi)
    ensures SortedSlice(s, lo, hi)
  {
    forall i, j | lo <= i < j < hi ensures s[i].key <= s[j].key {
      if i < p && p < j {
        assert s[i].key <= s[p].key < s[j].key;
      }
    }
  }

  /** Partitioning and then sorting either side. */
  lemma BothSidesSorted(s0: seq<Item>, s1: seq<Item>, s2: seq<Item>, s3: seq<Item>, lo: nat, p: nat, hi: nat)
    requires lo <= p < hi <= |s0| && Rearranged(s0, s1, lo, hi) && Split(s1, lo, p, hi)
    requires Rearranged(s1, s2, lo, p) && SortedSlice(s2, lo, p)
    requires Rearranged(s2, s3, p + 1, hi) && SortedSlice(s3, p + 1, hi)
    ensures Rearranged(s0, s3, lo, hi) && SortedSlice(s3, lo, hi)
  {
    SplitSurvivesLeft(s1, s2, lo, p, hi);
    SplitSurvivesRight(s2, s3, lo, p, hi);
    RearrangedTwice(s0, s1, s2, lo, hi);
    RearrangedTwice(s0, s2, s3, lo, hi);
    SidesSorted(s3, lo, p, hi);
  }

  /** The call without bounds sorts the whole array. */
  method QuicksortWhole(a: array<Item>)
    modifies a
    ensures Sorted(a[..]) && multiset(a[..]) == multiset(old(a[..]))
  {
    ghost var s := a[..];
    QuicksortInPlace(a, 0, a.Length - 1);
    assert a[..][0..a.Length] == a[..] && s[0..a.Length] == s;
  }
}
