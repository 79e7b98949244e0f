/** The sort step of the CO2 task in main/co2_sensor_task.c: the comparator
    `comparar_inteiros` with C's 32-bit `int` subtraction (whose overflow C
    leaves undefined; the model takes the two's-complement wrap the compiled
    subtraction produces), a reference
    definition of the ascending order of a sequence, and the in-place sort
    the task asks `qsort` for. The library's own algorithm is not visible;
    the in-place sort below is an insertion sort driven by the same
    comparator, and its contract is what `qsort` promises. */
module QSort {

  /** Values a CO2 sample can take: the marker -1 or a 16-bit reading. */
  predicate SampleRange(x: int)
  {
    -1 <= x <= 65535
  }

  /** Two's-complement wrap-around of a 32-bit `int`. */
  function Wrap32(v: int): (r: int)
    ensures -0x8000_0000 <= r < 0x8000_0000
  {
    (v + 0x8000_0000) % 0x1_0000_0000 - 0x8000_0000
  }

  /** `comparar_inteiros`: `*a - *b` computed in 32-bit `int`. */
  function Compare(a: int, b: int): (r: int)
  {
    Wrap32(a - b)
  }

  /** On sample values the subtraction cannot overflow, so the comparator's
      sign is the order of its arguments. */
  lemma CompareConsistent(a: int, b: int)
    requires SampleRange(a) && SampleRange(b)
    ensures Compare(a, b) < 0 <==> a < b
    ensures Compare(a, b) == 0 <==> a == b
    ensures Compare(a, b) > 0 <==> a > b
  {
  }

  /** Outside that range the subtraction overflows, which C leaves undefined;
      under the two's-complement wrap the compiled code produces, the
      comparator is not an order: the most negative `int` compares above 1. */
  lemma CompareOverflows()
    ensures Compare(-0x8000_0000, 1) > 0
  {
  }

  ghost predicate Sorted(s: seq<int>)
  {
    forall i, j :: 0 <= i < j < |s| ==> s[i] <= s[j]
  }

  /** `x` placed before the first element not smaller than it. */
  function Insert(x: int, s: seq<int>): (r: seq<int>)
    requires Sorted(s)
    ensures Sorted(r) && multiset(r) == multiset(s) + multiset{x}
    ensures |r| == |s| + 1 && r[0] == if s == [] || x <= s[0] then x else s[0]
  {
    if s == [] || x <= s[0] then [x] + s
    else
      var rest := Insert(x, s[1..]);
      assert s == [s[0]] + s[1..];
      assert forall k :: 0 <= k < |rest| ==> s[0] <= rest[0] <= rest[k];
      [s[0]] + rest
  }

  /** The ascending arrangement of `s`: the reference a sort must meet. */
  function Sort(s: seq<int>): (r: seq<int>)
    ensures Sorted(r) && multiset(r) == multiset(s) && |r| == |s|
  {
    if s == [] then []
    else
      assert s == [s[0]] + s[1..];
      Insert(s[0], Sort(s[1..]))
  }

  /** The head of a sorted sequence is its least element. */
  lemma SortedHeadLeast(s: seq<int>, x: int)
    requires Sorted(s) && s != [] && x in multiset(s)
    ensures s[0] <= x
  {
    assert x in s;
    var k :| 0 <= k < |s| && s[k] == x;
  }

  lemma SortedTail(s: seq<int>)
    requires Sorted(s) && s != []
    ensures Sorted(s[1..])
  {
  }

  /** Two sorted arrangements of one multiset start with the same element. */
  lemma SortedHeads(a: seq<int>, b: seq<int>)
    requires Sorted(a) && Sorted(b) && multiset(a) == multiset(b) && a != []
    ensures b != [] && a[0] == b[0]
  {
    assert a[0] in multiset(a);
    assert b != [];
    assert b[0] in multiset(b);
    SortedHeadLeast(b, a[0]);
    SortedHeadLeast(a, b[0]);
  }

  /** Removing equal heads from sequences with equal multisets leaves equal
      multisets. */
  lemma MultisetTails(a: seq<int>, b: seq<int>)
    requires a != [] && b != [] && a[0] == b[0] && multiset(a) == multiset(b)
    ensures multiset(a[1..]) == multiset(b[1..])
  {
    assert a == [a[0]] + a[1..] && b == [b[0]] + b[1..];
    assert multiset(a[1..]) == multiset(a) - multiset{a[0]};
    assert multiset(b[1..]) == multiset(b) - multiset{a[0]};
  }

  /** A sorted arrangement of a multiset is unique, so any sort that keeps the
      elements and orders them yields `Sort`. */
  lemma {:induction false} SortedUnique(a: seq<int>, b: seq<int>)
    requires Sorted(a) && Sorted(b) && multiset(a) == multiset(b)
    ensures a == b
  {
    if a == [] {
      assert |b| == |multiset(b)| == 0;
    } else {
      SortedHeads(a, b);
      MultisetTails(a, b);
      SortedTail(a);
      SortedTail(b);
      SortedUnique(a[1..], b[1..]);
      assert a == [a[0]] + a[1..] && b == [b[0]] + b[1..];
    }
  }

  /** Exchange of two elements keeps the multiset. */
  lemma SwapKeepsMultiset(s: seq<int>, i: int, j: int)
    requires 0 <= i < |s| && 0 <= j < |s|
    ensures multiset(s[i := s[j]][j := s[i]]) == multiset(s)
  {
  }

  /** Mid-way through an insertion step on `s[..i + 1]`: apart from the
      element travelling down at `j`, the prefix is in order, and that element
      is no larger than anything already passed. */
  ghost predicate Inserting(s: seq<int>, i: int, j: int)
    requires 0 <= j <= i < |s|
  {
    && (forall k, l :: 0 <= k < l <= i && k != j && l != j ==> s[k] <= s[l])
    && (forall l :: j < l <= i ==> s[j] <= s[l])
  }

  lemma InsertingStart(s: seq<int>, i: int)
    requires 0 <= i < |s| && Sorted(s[..i])
    ensures Inserting(s, i, i)
  {
    forall k, l | 0 <= k < l <= i && k != i && l != i
      ensures s[k] <= s[l]
    {
      assert s[k] == s[..i][k] && s[l] == s[..i][l];
    }
  }

  lemma InsertingSwap(s: seq<int>, i: int, j: int)
    requires 0 < j <= i < |s| && Inserting(s, i, j) && s[j - 1] > s[j]
    ensures Inserting(s[j - 1 := s[j]][j := s[j - 1]], i, j - 1)
  {
  }

  lemma InsertingDone(s: seq<int>, i: int, j: int)
    requires 0 <= j <= i < |s| && Inserting(s, i, j) && (j == 0 || s[j - 1] <= s[j])
    ensures Sorted(s[..i + 1])
  {
    forall k, l | 0 <= k < l <= i
      ensures s[k] <= s[l]
    {
      if l == j && k < j - 1 {
        assert s[k] <= s[j - 1];
      }
    }
  }

  /** One insertion step: `a[i]` moves down past the larger elements of the
      sorted prefix `a[..i]`, swapping neighbours the comparator finds out of
      order. */
  method InsertAt(a: array<int>, i: int)
    requires 0 <= i < a.Length && Sorted(a[..i])
    requires forall k :: 0 <= k < a.Length ==> SampleRange(a[k])
    modifies a
    ensures Sorted(a[..i + 1])
    ensures multiset(a[..]) == multiset(old(a[..]))
    ensures a[i + 1..] == old(a[i + 1..])
    ensures forall k :: 0 <= k < a.Length ==> SampleRange(a[k])
  {
    InsertingStart(a[..], i);
    var j := i;
    while j > 0 && Compare(a[j - 1], a[j]) > 0
      invariant 0 <= j <= i
      invariant Inserting(a[..], i, j)
      invariant multiset(a[..]) == multiset(old(a[..]))
      invariant a[i + 1..] == old(a[i + 1..])
      invariant forall k :: 0 <= k < a.Length ==> SampleRange(a[k])
    {
      CompareConsistent(a[j - 1], a[j]);
      ghost var s := a[..];
      InsertingSwap(s, i, j);
      SwapKeepsMultiset(s, j - 1, j);
      a[j - 1], a[j] := a[j], a[j - 1];
      assert a[..] == s[j - 1 := s[j]][j := s[j - 1]];
      j := j - 1;
    }
    if j > 0 {
      CompareConsistent(a[j - 1], a[j]);
    }
    InsertingDone(a[..], i, j);
  }

  /** `qsort(a, n, sizeof(int), comparar_inteiros)` on an array of samples:
      `a` ends up holding `Sort` of what it held. */
  method SortInPlace(a: array<int>)
    requires forall k :: 0 <= k < a.Length ==> SampleRange(a[k])
    modifies a
    ensures a[..] == Sort(old(a[..]))
  {
    for i := 0 to a.Length
      invariant Sorted(a[..i])
      invariant multiset(a[..]) == multiset(old(a[..]))
      invariant forall k :: 0 <= k < a.Length ==> SampleRange(a[k])
    {
      InsertAt(a, i);
    }
    assert a[..] == a[..a.Length];
    SortedUnique(a[..], Sort(old(a[..])));
  }
}
