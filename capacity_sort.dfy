/** The ascending sort by capacity that the product search applies to its candidates
    (`Array.prototype.sort` with the comparator `a.capacity - b.capacity`).  The sort is
    stable, so the result is the one insertion sort produces; `SortByCapacity` states it
    on sequences and `SortInPlace` performs it on an array. */
module CapacitySort {
  import opened Catalog

  predicate SortedByCapacity(s: seq<Product>)
  {
    forall i, j :: 0 <= i < j < |s| ==> s[i].capacity <= s[j].capacity
  }

  /** Inserts `x` into `s` after every element whose capacity is not larger. */
  function Insert(s: seq<Product>, x: Product): seq<Product>
  {
    if s == [] then [x]
    else if s[|s| - 1].capacity <= x.capacity then s + [x]
    else Insert(s[..|s| - 1], x) + [s[|s| - 1]]
  }

  /** The stable ascending sort of `s` by capacity. */
  function SortByCapacity(s: seq<Product>): (r: seq<Product>)
    ensures |r| == |s|
  {
    if s == [] then []
    else
      InsertPermutation(SortByCapacity(s[..|s| - 1]), s[|s| - 1]);
      Insert(SortByCapacity(s[..|s| - 1]), s[|s| - 1])
  }

  /** The index of the first element of least capacity. */
  function SmallestIndex(s: seq<Product>): (k: nat)
    requires s != []
    ensures k < |s|
    ensures forall j :: 0 <= j < |s| ==> s[k].capacity <= s[j].capacity
    ensures forall j :: 0 <= j < k ==> s[j].capacity > s[k].capacity
  {
    if |s| == 1 then 0
    else
      var k := SmallestIndex(s[..|s| - 1]);
      if s[|s| - 1].capacity < s[k].capacity then |s| - 1 else k
  }

  lemma {:induction false} InsertPermutation(s: seq<Product>, x: Product)
    ensures multiset(Insert(s, x)) == multiset(s) + multiset{x}
    ensures |Insert(s, x)| == |s| + 1
  {
    if s != [] && s[|s| - 1].capacity > x.capacity {
      var init, last := s[..|s| - 1], s[|s| - 1];
      InsertPermutation(init, x);
      assert s == init + [last];
    }
  }

  predicate AllAtMost(s: seq<Product>, bound: int)
  {
    forall i :: 0 <= i < |s| ==> s[i].capacity <= bound
  }

  lemma {:induction false} InsertAtMost(s: seq<Product>, x: Product, bound: int)
    requires AllAtMost(s, bound) && x.capacity <= bound
    ensures AllAtMost(Insert(s, x), bound)
  {
    if s != [] && s[|s| - 1].capacity > x.capacity {
      InsertAtMost(s[..|s| - 1], x, bound);
    }
  }

  lemma SortedAppend(r: seq<Product>, y: Product)
    requires SortedByCapacity(r) && AllAtMost(r, y.capacity)
    ensures SortedByCapacity(r + [y])
  {
  }

  lemma {:induction false} InsertSorted(s: seq<Product>, x: Product)
    requires SortedByCapacity(s)
    ensures SortedByCapacity(Insert(s, x))
  {
    if s == [] {
    } else if s[|s| - 1].capacity > x.capacity {
      var init, last := s[..|s| - 1], s[|s| - 1];
      InsertSorted(init, x);
      InsertAtMost(init, x, last.capacity);
      SortedAppend(Insert(init, x), last);
    } else {
      SortedAppend(s, x);
    }
  }

  /** The head after inserting into a sorted sequence: `x` when it is smaller than every
      element, the old head otherwise. */
  lemma {:induction false} InsertHead(s: seq<Product>, x: Product)
    requires SortedByCapacity(s)
    ensures Insert(s, x) != []
    ensures Insert(s, x)[0] == if s == [] || x.capacity < s[0].capacity then x else s[0]
  {
    if s != [] && s[|s| - 1].capacity > x.capacity {
      var init := s[..|s| - 1];
      InsertHead(init, x);
    }
  }

  /** The sort orders by capacity and only reorders. */
  lemma {:induction false} SortIsSortedPermutation(s: seq<Product>)
    ensures SortedByCapacity(SortByCapacity(s))
    ensures multiset(SortByCapacity(s)) == multiset(s)
    ensures |SortByCapacity(s)| == |s|
  {
    if s != [] {
      var init, last := s[..|s| - 1], s[|s| - 1];
      SortIsSortedPermutation(init);
      InsertSorted(SortByCapacity(init), last);
      InsertPermutation(SortByCapacity(init), last);
      assert s == init + [last];
    }
  }

  /** The first element after sorting is the first element of least capacity: among equal
      capacities the sort keeps the original order. */
  lemma {:induction false} SortHead(s: seq<Product>)
    requires s != []
    ensures SortByCapacity(s) != [] && SortByCapacity(s)[0] == s[SmallestIndex(s)]
  {
    var init, last := s[..|s| - 1], s[|s| - 1];
    SortIsSortedPermutation(init);
    if init != [] {
      SortHead(init);
      InsertHead(SortByCapacity(init), last);
    }
  }

  /** Inserting `x` into `t` puts it right after `t[..j]` when `t[j - 1]` is not larger and
      every element from `j` on is. */
  lemma {:induction false} InsertAt(t: seq<Product>, j: nat, x: Product)
    requires j <= |t|
    requires j == 0 || t[j - 1].capacity <= x.capacity
    requires forall k :: j <= k < |t| ==> t[k].capacity > x.capacity
    ensures Insert(t, x) == t[..j] + [x] + t[j..]
  {
    if j < |t| {
      var init := t[..|t| - 1];
      assert init[..j] == t[..j];
      InsertAt(init, j, x);
      assert t[j..] == init[j..] + [t[|t| - 1]];
    } else {
      assert t[..j] == t;
    }
  }

  /** The array prefix after the shifting loop, element by element. */
  lemma ShiftedIsInserted(b: seq<Product>, t: seq<Product>, j: nat, x: Product)
    requires j <= |t| && |b| == |t| + 1
    requires forall k :: 0 <= k < j ==> b[k] == t[k]
    requires b[j] == x
    requires forall k :: j < k < |b| ==> b[k] == t[k - 1]
    ensures b == t[..j] + [x] + t[j..]
  {
  }

  /** Moves `a[i]` left past the larger elements before it, shifting them one place right. */
  method InsertInPlace(a: array<Product>, i: nat)
    requires i < a.Length
    modifies a
    ensures a[..i + 1] == Insert(old(a[..i]), old(a[i]))
    ensures a[i + 1..] == old(a[i + 1..])
  {
    var x := a[i];
    ghost var t := a[..i];
    var j := i;
    while j > 0 && a[j - 1].capacity > x.capacity
      invariant 0 <= j <= i
      invariant forall k :: 0 <= k < j ==> a[k] == t[k]
      invariant forall k :: j < k <= i ==> a[k] == t[k - 1]
      invariant forall k :: i < k < a.Length ==> a[k] == old(a[k])
      invariant forall k :: j <= k < i ==> t[k].capacity > x.capacity
    {
      a[j] := a[j - 1];
      j := j - 1;
    }
    a[j] := x;
    InsertAt(t, j, x);
    ShiftedIsInserted(a[..i + 1], t, j, x);
    assert a[i + 1..] == old(a[i + 1..]);
  }

  /** Sorts `a` in place by capacity, stably: each element in turn is moved left past the
      larger elements before it. */
  method SortInPlace(a: array<Product>)
    modifies a
    ensures a[..] == SortByCapacity(old(a[..]))
  {
    ghost var s := a[..];
    var i := 0;
    while i < a.Length
      invariant 0 <= i <= a.Length
      invariant a[..i] == SortByCapacity(s[..i])
      invariant a[i..] == s[i..]
    {
      assert s[..i + 1][..i] == s[..i];
      InsertInPlace(a, i);
      i := i + 1;
    }
    assert a[..] == a[..a.Length];
    assert s == s[..a.Length];
  }
}
