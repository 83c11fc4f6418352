/** src/min_heap.c: a binary heap of C ints, heap[0] being its size.  The hole-moving loops
    read one slot past the end; they are sound because every slot past max(size, 1) holds
    INT_MAX, which makes the whole array one heap. */
module MinHeap {
  type Int32 = x: int | -0x8000_0000 <= x < 0x8000_0000

  const INT_MAX: Int32 := 0x7fff_ffff

  // ---------- the heap as a sequence ----------

  predicate Sized(s: seq<Int32>) {
    |s| >= 2 && 0 <= s[0] && s[0] + 1 < |s|
  }

  predicate Tail(s: seq<Int32>, m: nat) {
    forall k | m < k < |s| :: s[k] == INT_MAX
  }

  function Max(a: int, b: int): int { if a < b then b else a }

  /** The sentinel invariant. */
  predicate Valid(s: seq<Int32>) {
    Sized(s) && Tail(s, Max(s[0], 1))
  }

  // Slot k / 2 is the parent of slot k; the order holds below the parents from lo on.
  predicate OrderedFrom(s: seq<Int32>, lo: nat) {
    forall k | 2 <= k < |s| && lo <= k / 2 :: s[k / 2] <= s[k]
  }

  // The order among the elements themselves.
  predicate Heap(s: seq<Int32>) {
    Valid(s) && forall k | 2 <= k <= s[0] :: s[k / 2] <= s[k]
  }

  function Elements(s: seq<Int32>): multiset<Int32>
    requires Sized(s)
  {
    multiset(s[1..s[0] + 1])
  }

  // With the sentinels, order among the elements is order everywhere.
  lemma WholeOrder(s: seq<Int32>)
    requires Valid(s)
    ensures s[0] > 0 ==> (Heap(s) <==> OrderedFrom(s, 1))
    ensures s[0] == 0 ==> Heap(s)
  {
  }

  // ---------- sifting a value down into the hole at i ----------

  // Where the hole moves to.
  function SmallerChild(s: seq<Int32>, i: nat): (c: nat)
    requires 2 * i + 1 < |s|
    ensures (c == 2 * i || c == 2 * i + 1) && s[c] <= s[2 * i] && s[c] <= s[2 * i + 1]
  {
    if s[2 * i] < s[2 * i + 1] then 2 * i else 2 * i + 1
  }

  // The loop ends with the hole at i.
  predicate Stays(s: seq<Int32>, i: nat, half: nat, val: Int32)
    requires 2 * half + 1 < |s|
  {
    i > half || (val < s[2 * i] && val < s[2 * i + 1])
  }

  function SiftDown(s: seq<Int32>, i: nat, half: nat, val: Int32): (r: seq<Int32>)
    requires 0 < i < |s| && 2 * half + 1 < |s|
    ensures |r| == |s|
    decreases |s| - i
  {
    if Stays(s, i, half, val) then s[i := val]
    else
      var c := SmallerChild(s, i);
      SiftDown(s[i := s[c]], c, half, val)
  }

  // Order from lo on, but for the children of i, which are not below i's parent either.
  ghost predicate OrderedButBelow(s: seq<Int32>, lo: nat, i: nat) {
    && (forall k | 2 <= k < |s| && lo <= k / 2 && k / 2 != i :: s[k / 2] <= s[k])
    && (forall k | 2 <= k < |s| && k / 2 == i && lo <= i / 2 && i >= 2 :: s[i / 2] <= s[k])
  }

  lemma SwapKeepsMultiset(s: seq<Int32>, i: nat, c: nat, val: Int32)
    requires i < |s| && c < |s| && i != c
    ensures multiset(s[i := s[c]][c := val]) == multiset(s[i := val])
  {
    var t := s[i := val];
    assert s[i := s[c]][c := val] == t[i := t[c]][c := t[i]];
  }

  // Moving up the smaller child c, which val is not below.
  lemma DownStep(s: seq<Int32>, lo: nat, i: nat, c: nat, val: Int32, m: nat)
    requires 0 < i && (c == 2 * i || c == 2 * i + 1) && 2 * i + 1 < |s| && lo <= i
    requires s[c] <= val && s[c] <= s[2 * i] && s[c] <= s[2 * i + 1]
    requires OrderedButBelow(s[i := val], lo, i) && Tail(s[i := val], m)
    ensures OrderedButBelow(s[i := s[c]][c := val], lo, c) && Tail(s[i := s[c]][c := val], m)
    ensures multiset(s[i := s[c]][c := val]) == multiset(s[i := val])
  {
    SwapKeepsMultiset(s, i, c, val);
    var t, t' := s[i := val], s[i := s[c]][c := val];
    forall k | 2 <= k < |t'| && lo <= k / 2 && k / 2 != c ensures t'[k / 2] <= t'[k] {
      assert k / 2 != i ==> t[k / 2] <= t[k];
      assert k == i ==> t[i / 2] <= t[c];
    }
    forall k | 2 <= k < |t'| && k / 2 == c ensures t'[c / 2] <= t'[k] {
      assert t[k / 2] <= t[k];
    }
  }

  /** Sifting down restores the order, loses no value and leaves the sentinels in place, even
      when the hole travels past the last element. */
  lemma {:induction false} SiftDownKeeps(s: seq<Int32>, lo: nat, i: nat, half: nat, val: Int32, m: nat)
    requires 0 < i < |s| && 2 * half + 1 < |s| && lo <= i && m <= 2 * half + 1
    requires OrderedButBelow(s[i := val], lo, i) && Tail(s[i := val], m)
    ensures var r := SiftDown(s, i, half, val);
      OrderedFrom(r, lo) && Tail(r, m) && r[0] == s[0] && multiset(r) == multiset(s[i := val])
    decreases |s| - i
  {
    if Stays(s, i, half, val) {
      if i > half {
        PastTheEnd(s[i := val], i, half, m);
      }
      SettledBelow(s[i := val], lo, i);
    } else {
      var c := SmallerChild(s, i);
      DownStep(s, lo, i, c, val, m);
      SiftDownKeeps(s[i := s[c]], lo, c, half, val, m);
    }
  }

  // Beyond half every child is a sentinel.
  lemma PastTheEnd(t: seq<Int32>, i: nat, half: nat, m: nat)
    requires half < i < |t| && m <= 2 * half + 1 && Tail(t, m)
    ensures forall k | 2 <= k < |t| && k / 2 == i :: t[i] <= t[k]
  {
  }

  lemma SettledBelow(t: seq<Int32>, lo: nat, i: nat)
    requires OrderedButBelow(t, lo, i) && forall k | 2 <= k < |t| && k / 2 == i :: t[i] <= t[k]
    ensures OrderedFrom(t, lo)
  {
  }

  // Equal multisets and equal ends: equal multisets in between.
  lemma MiddleMultiset(r: seq<Int32>, t: seq<Int32>, n: nat)
    requires |r| == |t| && n < |r| && multiset(r) == multiset(t) && r[0] == t[0] && r[n + 1..] == t[n + 1..]
    ensures multiset(r[1..n + 1]) == multiset(t[1..n + 1])
  {
    ThreeParts(r, n);
    ThreeParts(t, n);
    assert r[..1] == t[..1];
    Cancel(multiset(r[..1]), multiset(r[1..n + 1]), multiset(t[1..n + 1]), multiset(r[n + 1..]));
  }

  lemma Cancel(a: multiset<Int32>, x: multiset<Int32>, y: multiset<Int32>, b: multiset<Int32>)
    requires a + x + b == a + y + b
    ensures x == y
  {
    forall e: Int32 ensures x[e] == y[e] {
      assert (a + x + b)[e] == a[e] + x[e] + b[e];
      assert (a + y + b)[e] == a[e] + y[e] + b[e];
    }
  }

  lemma ThreeParts(r: seq<Int32>, n: nat)
    requires n < |r|
    ensures multiset(r) == multiset(r[..1]) + multiset(r[1..n + 1]) + multiset(r[n + 1..])
  {
    assert r == r[..1] + r[1..n + 1] + r[n + 1..];
  }

  lemma TailsEqual(r: seq<Int32>, t: seq<Int32>, n: nat)
    requires |r| == |t| && Tail(r, n) && Tail(t, n) && n < |r|
    ensures r[n + 1..] == t[n + 1..]
  {
    var x, y := r[n + 1..], t[n + 1..];
    forall k | 0 <= k < |x| ensures x[k] == y[k] {
      assert x[k] == r[n + 1 + k] && y[k] == t[n + 1 + k];
    }
  }

  // ---------- init ----------

  // The loop of min_heap_init from slot i down to slot 1.
  function Built(s: seq<Int32>, i: nat): (r: seq<Int32>)
    requires Sized(s) && i <= s[0] / 2
    ensures |r| == |s|
    decreases i
  {
    if i == 0 then s
    else
      var t := SiftDown(s, i, s[0] / 2, s[i]);
      SizeSlotKept(s, i, s[0] / 2, s[i]);
      Built(t, i - 1)
  }

  lemma {:induction false} SizeSlotKept(s: seq<Int32>, i: nat, half: nat, val: Int32)
    requires 0 < i < |s| && 2 * half + 1 < |s|
    ensures SiftDown(s, i, half, val)[0] == s[0]
    decreases |s| - i
  {
    if !Stays(s, i, half, val) {
      var c := SmallerChild(s, i);
      SizeSlotKept(s[i := s[c]], c, half, val);
    }
  }

  lemma BuildStep(s: seq<Int32>, i: nat)
    requires Valid(s) && 0 < i <= s[0] / 2 && OrderedFrom(s, i + 1)
    ensures var t := SiftDown(s, i, s[0] / 2, s[i]);
      OrderedFrom(t, i) && t[0] == s[0] && Valid(t) && Elements(t) == Elements(s)
  {
    var n, half := s[0], s[0] / 2;
    assert s[i := s[i]] == s;
    assert OrderedButBelow(s, i, i);
    SiftDownKeeps(s, i, i, half, s[i], n);
    var t := SiftDown(s, i, half, s[i]);
    TailsEqual(t, s, n);
    MiddleMultiset(t, s, n);
  }

  lemma {:induction false} BuiltKeeps(s: seq<Int32>, i: nat)
    requires Valid(s) && i <= s[0] / 2 && OrderedFrom(s, i + 1) && s[0] > 0
    ensures var r := Built(s, i); Heap(r) && r[0] == s[0] && Elements(r) == Elements(s)
    decreases i
  {
    if i == 0 {
      WholeOrder(s);
    } else {
      BuildStep(s, i);
      BuiltKeeps(SiftDown(s, i, s[0] / 2, s[i]), i - 1);
    }
  }

  /** min_heap_init makes a heap of the same elements, whatever their order was. */
  lemma InitBuildsHeap(s: seq<Int32>)
    requires Valid(s)
    ensures var r := Built(s, s[0] / 2); Heap(r) && r[0] == s[0] && Elements(r) == Elements(s)
  {
    if s[0] > 0 {
      assert OrderedFrom(s, s[0] / 2 + 1);
      BuiltKeeps(s, s[0] / 2);
    }
  }

  // ---------- push ----------

  function Lift(s: seq<Int32>, i: nat, val: Int32): (r: seq<Int32>)
    requires 0 < i < |s|
    ensures |r| == |s|
    decreases i
  {
    if i == 1 || val > s[i / 2] then s[i := val] else Lift(s[i := s[i / 2]], i / 2, val)
  }

  function Pushed(s: seq<Int32>, val: Int32): (r: seq<Int32>)
    requires Sized(s) && s[0] + 2 < |s| && s[0] < INT_MAX
  {
    Lift(s[0 := s[0] + 1], s[0] + 1, val)
  }

  // Order everywhere but between i and its parent.
  ghost predicate OrderedButAbove(s: seq<Int32>, i: nat) {
    && (forall k | 2 <= k < |s| && k != i :: s[k / 2] <= s[k])
    && (forall k | 2 <= k < |s| && k / 2 == i && i >= 2 :: s[i / 2] <= s[k])
  }

  lemma UpStep(s: seq<Int32>, i: nat, val: Int32)
    requires 2 <= i < |s| && val <= s[i / 2] && OrderedButAbove(s[i := val], i)
    ensures OrderedButAbove(s[i := s[i / 2]][i / 2 := val], i / 2)
  {
    var p := i / 2;
    var t, t' := s[i := val], s[i := s[p]][p := val];
    forall k | 2 <= k < |t'| && k != p ensures t'[k / 2] <= t'[k] {
      assert k != i ==> t[k / 2] <= t[k];
      assert k / 2 == i ==> t[p] <= t[k];
    }
    forall k | 2 <= k < |t'| && k / 2 == p && p >= 2 ensures t'[p / 2] <= t'[k] {
      assert t[p / 2] <= t[p];
      assert k != i ==> t[p] <= t[k];
    }
  }

  lemma {:induction false} LiftKeeps(s: seq<Int32>, i: nat, val: Int32)
    requires 0 < i < |s| && OrderedButAbove(s[i := val], i)
    ensures var r := Lift(s, i, val);
      && OrderedFrom(r, 1) && r[0] == s[0] && multiset(r) == multiset(s[i := val])
      && (forall k | i < k < |s| :: r[k] == s[k])
    decreases i
  {
    if i > 1 && val <= s[i / 2] {
      UpStep(s, i, val);
      SwapKeepsMultiset(s, i, i / 2, val);
      LiftKeeps(s[i := s[i / 2]], i / 2, val);
    }
  }

  // The heap with the new value in the first free slot.
  function Appended(s: seq<Int32>, val: Int32): seq<Int32>
    requires Sized(s) && s[0] + 2 < |s| && s[0] < INT_MAX
  {
    s[0 := s[0] + 1][s[0] + 1 := val]
  }

  lemma AppendedOrder(s: seq<Int32>, val: Int32)
    requires Heap(s) && s[0] + 2 < |s| && s[0] < INT_MAX
    ensures OrderedButAbove(Appended(s, val), s[0] + 1) && Valid(Appended(s, val))
  {
    WholeOrder(s);
  }

  lemma AppendedElements(s: seq<Int32>, val: Int32)
    requires Sized(s) && s[0] + 2 < |s| && s[0] < INT_MAX
    ensures Elements(Appended(s, val)) == Elements(s) + multiset{val}
  {
    var n := s[0] + 1;
    assert Appended(s, val)[1..n + 1] == s[1..n] + [val];
  }

  /** min_heap_push adds exactly the value given. */
  lemma PushAdds(s: seq<Int32>, val: Int32)
    requires Heap(s) && s[0] + 2 < |s| && s[0] < INT_MAX
    ensures var r := Pushed(s, val); Heap(r) && r[0] == s[0] + 1 && Elements(r) == Elements(s) + multiset{val}
  {
    var n: nat := s[0] + 1;
    var t, r := Appended(s, val), Pushed(s, val);
    AppendedOrder(s, val);
    LiftKeeps(s[0 := s[0] + 1], n, val);
    AppendedElements(s, val);
    Reordered(r, t);
  }

  // The elements of t, put in order.
  lemma Reordered(r: seq<Int32>, t: seq<Int32>)
    requires |r| == |t| && Valid(t) && t[0] > 0 && r[0] == t[0] && multiset(r) == multiset(t) && OrderedFrom(r, 1)
    requires forall k | t[0] < k < |t| :: r[k] == t[k]
    ensures Heap(r) && Elements(r) == Elements(t)
  {
    TailsEqual(r, t, t[0]);
    MiddleMultiset(r, t, t[0]);
  }

  // ---------- pop ----------

  function Popped(s: seq<Int32>): (r: seq<Int32>)
    requires Sized(s) && s[0] > 0
    ensures |r| == |s|
  {
    var t := s[s[0] := INT_MAX];
    SiftDown(t, 1, s[0] / 2, s[s[0]])[0 := s[0] - 1]
  }

  // The last value goes to the root's hole, INT_MAX to the last slot.
  function Vacated(s: seq<Int32>): seq<Int32>
    requires Sized(s) && s[0] > 0
  {
    s[s[0] := INT_MAX][1 := s[s[0]]]
  }

  lemma VacatedElements(s: seq<Int32>)
    requires Sized(s) && s[0] > 1
    ensures Elements(s) == multiset(Vacated(s)[1..s[0]]) + multiset{s[1]}
  {
    var n := s[0];
    assert s[1..n + 1] == [s[1]] + s[2..n] + [s[n]];
    assert Vacated(s)[1..n] == [s[n]] + s[2..n];
  }

  lemma VacatedOrder(s: seq<Int32>)
    requires Heap(s) && s[0] > 0
    ensures OrderedButBelow(Vacated(s), 1, 1) && Tail(Vacated(s), Max(s[0] - 1, 1))
  {
    WholeOrder(s);
  }

  /** min_heap_pop removes exactly the root. */
  lemma PopRemoves(s: seq<Int32>)
    requires Heap(s) && s[0] > 0
    ensures var r := Popped(s); Heap(r) && r[0] == s[0] - 1 && Elements(s) == Elements(r) + multiset{s[1]}
  {
    var n := s[0];
    var w := SiftDown(s[n := INT_MAX], 1, n / 2, s[n]);
    VacatedOrder(s);
    SiftDownKeeps(s[n := INT_MAX], 1, 1, n / 2, s[n], Max(n - 1, 1));
    PoppedIsHeap(s, w);
    if n == 1 {
      assert s[1..2] == [s[1]] && Popped(s)[1..1] == [];
    } else {
      TailsEqual(w, Vacated(s), n - 1);
      MiddleMultiset(w, Vacated(s), n - 1);
      assert Popped(s)[1..n] == w[1..n];
      VacatedElements(s);
    }
  }

  lemma PoppedIsHeap(s: seq<Int32>, w: seq<Int32>)
    requires Sized(s) && s[0] > 0 && |w| == |s| && OrderedFrom(w, 1) && Tail(w, Max(s[0] - 1, 1))
    ensures Heap(w[0 := s[0] - 1])
  {
  }

  // ---------- the root, and sorting ----------

  lemma {:induction false} RootLeast(s: seq<Int32>, k: nat)
    requires Heap(s) && 1 <= k <= s[0]
    ensures s[1] <= s[k]
  {
    if k > 1 {
      RootLeast(s, k / 2);
    }
  }

  // Reading the root and popping until nothing is left.
  function Drained(s: seq<Int32>): (r: seq<Int32>)
    requires Heap(s)
    decreases s[0]
  {
    if s[0] == 0 then []
    else
      PopRemoves(s);
      [s[1]] + Drained(Popped(s))
  }

  ghost predicate Sorted(s: seq<Int32>) {
    forall i, j | 0 <= i < j < |s| :: s[i] <= s[j]
  }

  lemma ElementIsSlot(s: seq<Int32>, x: Int32)
    requires Heap(s) && x in Elements(s)
    ensures exists k :: 1 <= k <= s[0] && s[k] == x
  {
    var j :| 0 <= j < s[0] && s[1..s[0] + 1][j] == x;
    assert s[j + 1] == x;
  }

  lemma RootBelow(s: seq<Int32>, x: Int32)
    requires Heap(s) && x in Elements(s)
    ensures s[1] <= x
  {
    ElementIsSlot(s, x);
    var k :| 1 <= k <= s[0] && s[k] == x;
    RootLeast(s, k);
  }

  /** Popping a heap empty yields its elements in order. */
  lemma {:induction false} DrainSorts(s: seq<Int32>)
    requires Heap(s)
    ensures Sorted(Drained(s)) && multiset(Drained(s)) == Elements(s)
    decreases s[0]
  {
    if s[0] > 0 {
      PopRemoves(s);
      var r := Drained(Popped(s));
      DrainSorts(Popped(s));
      forall x | x in multiset(r) ensures s[1] <= x {
        RootBelow(s, x);
      }
      LeastFirst(s[1], r);
    }
  }

  lemma LeastFirst(x: Int32, r: seq<Int32>)
    requires Sorted(r) && forall y | y in multiset(r) :: x <= y
    ensures Sorted([x] + r) && multiset([x] + r) == multiset{x} + multiset(r)
  {
    forall j | 0 <= j < |r| ensures x <= r[j] {
      assert r[j] in multiset(r);
    }
  }

  lemma HeapSorts(s: seq<Int32>)
    requires Valid(s)
    ensures var r := Built(s, s[0] / 2); Heap(r) && Sorted(Drained(r)) && multiset(Drained(r)) == Elements(s)
  {
    InitBuildsHeap(s);
    DrainSorts(Built(s, s[0] / 2));
  }

  // ---------- the methods ----------

  /** The hole-moving loop that min_heap_init and min_heap_pop share. */
  method Sift(heap: array<Int32>, start: nat, half: nat, val: Int32)
    requires 0 < start < heap.Length && 2 * half + 1 < heap.Length
    modifies heap
    ensures heap[..] == SiftDown(old(heap[..]), start, half, val)
  {
    var i := start;
    while i <= half
      invariant 0 < i < heap.Length
      invariant SiftDown(heap[..], i, half, val) == SiftDown(old(heap[..]), start, half, val)
      decreases heap.Length - i
    {
      var d := 2 * i;
      if val < heap[d] && val < heap[d + 1] {
        break;
      }
      if heap[d] < heap[d + 1] {
        heap[i] := heap[d];
        i := d;
      } else {
        heap[i] := heap[d + 1];
        i := d + 1;
      }
    }
    heap[i] := val;
  }

  method Init(heap: array<Int32>)
    requires Valid(heap[..])
    modifies heap
    ensures heap[..] == Built(old(heap[..]), old(heap[0]) / 2)
    ensures Heap(heap[..]) && Elements(heap[..]) == old(Elements(heap[..]))
  {
    InitBuildsHeap(heap[..]);
    var half: nat := heap[0] / 2;
    var i: nat := half;
    while i > 0
      invariant i <= half && Sized(heap[..]) && heap[0] / 2 == half
      invariant Built(heap[..], i) == Built(old(heap[..]), half)
    {
      SizeSlotKept(heap[..], i, half, heap[i]);
      Sift(heap, i, half, heap[i]);
      i := i - 1;
    }
  }

  method Push(heap: array<Int32>, val: Int32)
    requires Heap(heap[..]) && heap[0] + 2 < heap.Length && heap[0] < INT_MAX
    modifies heap
    ensures heap[..] == Pushed(old(heap[..]), val)
    ensures Heap(heap[..]) && Elements(heap[..]) == old(Elements(heap[..])) + multiset{val}
  {
    PushAdds(heap[..], val);
    var i: nat := heap[0] + 1;
    heap[0] := heap[0] + 1;
    while i > 1
      invariant 0 < i < heap.Length
      invariant Lift(heap[..], i, val) == Pushed(old(heap[..]), val)
    {
      var half := i / 2;
      if val > heap[half] {
        break;
      }
      heap[i] := heap[half];
      i := half;
    }
    heap[i] := val;
  }

  method Pop(heap: array<Int32>)
    requires Heap(heap[..]) && heap[0] > 0
    modifies heap
    ensures heap[..] == Popped(old(heap[..]))
    ensures Heap(heap[..]) && old(Elements(heap[..])) == Elements(heap[..]) + multiset{old(heap[1])}
  {
    PopRemoves(heap[..]);
    ghost var s := heap[..];
    var size := heap[0];
    var half := size / 2;
    var val := heap[size];
    heap[size] := INT_MAX;
    assert heap[..] == s[size := INT_MAX];
    SizeSlotKept(heap[..], 1, half, val);
    Sift(heap, 1, half, val);
    heap[0] := heap[0] - 1;
  }
}
