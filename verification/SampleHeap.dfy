/** The reservoir of a decaying sample: a min-heap on the sample keys inside an array of
    fixed capacity, rescaled in place from time to time.  Keys are real numbers. */
module SampleHeap {
  import opened Words

  datatype Sample = Sample(k: real, v: int)

  /** The parent of slot `j`; slot 0 is its own, as truncating division makes it. */
  function Parent(j: nat): nat {
    if j == 0 then 0 else (j - 1) / 2
  }

  ghost predicate HeapAt(s: seq<Sample>, i: int)
    requires 0 <= i < |s|
  {
    s[Parent(i)].k <= s[i].k
  }

  ghost predicate IsHeap(s: seq<Sample>) {
    forall i :: 0 <= i < |s| ==> HeapAt(s, i)
  }

  /** A heap but for slot `j`, whose children are in order with its parent. */
  ghost predicate HeapButUp(s: seq<Sample>, j: nat) {
    && j < |s|
    && (forall i :: 0 <= i < |s| && i != j ==> HeapAt(s, i))
    && (forall i :: 0 <= i < |s| && Parent(i) == j ==> s[Parent(j)].k <= s[i].k)
  }

  /** A heap but for the children of slot `j`, which are in order with its parent. */
  ghost predicate HeapButDown(s: seq<Sample>, j: nat) {
    && j < |s|
    && (forall i :: 0 < i < |s| && Parent(i) != j ==> HeapAt(s, i))
    && (j > 0 ==> forall i :: 0 < i < |s| && Parent(i) == j ==> s[Parent(j)].k <= s[i].k)
  }

  function Swapped(s: seq<Sample>, i: nat, j: nat): seq<Sample>
    requires i < |s| && j < |s|
  {
    s[i := s[j]][j := s[i]]
  }

  lemma SwapPermutes(s: seq<Sample>, i: nat, j: nat)
    requires i < |s| && j < |s|
    ensures multiset(Swapped(s, i, j)) == multiset(s)
  {
  }

  lemma UpStep(s: seq<Sample>, j: nat)
    requires HeapButUp(s, j) && s[j].k < s[Parent(j)].k
    ensures HeapButUp(Swapped(s, Parent(j), j), Parent(j))
  {
    var p, t := Parent(j), Swapped(s, Parent(j), j);
    forall i | 0 <= i < |t| && i != p ensures HeapAt(t, i) {
      assert i != j ==> HeapAt(s, i);
    }
    forall i | 0 <= i < |t| && Parent(i) == p ensures t[Parent(p)].k <= t[i].k {
      assert p != j ==> HeapAt(s, p);
      assert i != j ==> HeapAt(s, i);
    }
  }

  lemma UpStops(s: seq<Sample>, j: nat)
    requires HeapButUp(s, j) && (Parent(j) == j || !(s[j].k < s[Parent(j)].k))
    ensures IsHeap(s)
  {
    assert HeapAt(s, j);
  }

  /** Heap order makes the root smallest. */
  lemma {:induction false} RootIsLeast(s: seq<Sample>, i: nat)
    requires IsHeap(s) && i < |s|
    ensures s[0].k <= s[i].k
    decreases i
  {
    if i > 0 {
      RootIsLeast(s, Parent(i));
      assert HeapAt(s, i);
    }
  }

  lemma RootIsLeastOfAll(s: seq<Sample>)
    requires IsHeap(s) && s != []
    ensures forall i :: 0 <= i < |s| ==> s[0].k <= s[i].k
  {
    forall i | 0 <= i < |s| ensures s[0].k <= s[i].k {
      RootIsLeast(s, i);
    }
  }

  /** The child `down` goes on with: the smaller one, the right one on a tie. */
  function Smaller(s: seq<Sample>, i: nat): nat
    requires 2 * i + 1 < |s|
  {
    if 2 * i + 2 < |s| && !(s[2 * i + 1].k < s[2 * i + 2].k) then 2 * i + 2 else 2 * i + 1
  }

  lemma DownStops(s: seq<Sample>, i: nat)
    requires HeapButDown(s, i)
    requires 2 * i + 1 >= |s| || !(s[Smaller(s, i)].k < s[i].k)
    ensures IsHeap(s)
  {
    forall c | 0 <= c < |s| ensures HeapAt(s, c) {
      if c > 0 && Parent(c) == i {
        assert c == 2 * i + 1 || c == 2 * i + 2;
      }
    }
  }

  lemma DownStep(s: seq<Sample>, i: nat)
    requires HeapButDown(s, i) && 2 * i + 1 < |s| && s[Smaller(s, i)].k < s[i].k
    ensures HeapButDown(Swapped(s, i, Smaller(s, i)), Smaller(s, i))
  {
    var j := Smaller(s, i);
    var t := Swapped(s, i, j);
    forall c | 0 < c < |t| && Parent(c) != j ensures HeapAt(t, c) {
      if Parent(c) == i {
        assert c == 2 * i + 1 || c == 2 * i + 2;
      } else {
        assert HeapAt(s, c);
      }
    }
    forall c | 0 < c < |t| && Parent(c) == j ensures t[Parent(j)].k <= t[c].k {
      assert HeapAt(s, c);
    }
  }

  /** Taking the last slot of a heap to the root leaves only the root out of order. */
  lemma RootReplaced(s: seq<Sample>, r: Sample)
    requires IsHeap(s) && s != []
    ensures HeapButDown(s[0 := r], 0)
  {
    forall c | 0 < c < |s| && Parent(c) != 0 ensures HeapAt(s[0 := r], c) {
      assert HeapAt(s, c);
    }
  }

  lemma PrefixIsHeap(s: seq<Sample>, n: nat)
    requires IsHeap(s) && n <= |s|
    ensures IsHeap(s[..n])
  {
    forall i | 0 <= i < n ensures HeapAt(s[..n], i) {
      assert HeapAt(s, i);
    }
  }

  /** After the root and the last slot have been swapped. */
  lemma LastToRoot(s: seq<Sample>, t: seq<Sample>)
    requires IsHeap(s) && s != [] && t == Swapped(s, 0, |s| - 1)
    ensures t[|s| - 1] == s[0] && (|s| > 1 ==> HeapButDown(t[..|s| - 1], 0)) && (|s| == 1 ==> IsHeap(t[..0]))
    ensures multiset(t[..|s| - 1]) + multiset{s[0]} == multiset(s)
  {
    var n := |s| - 1;
    SwapPermutes(s, 0, n);
    assert t == t[..n] + [s[0]];
    if n > 0 {
      PrefixIsHeap(s, n);
      RootReplaced(s[..n], s[n]);
      assert t[..n] == s[..n][0 := s[n]];
    }
  }

  lemma Appended(s: seq<Sample>, x: Sample)
    requires IsHeap(s)
    ensures HeapButUp(s + [x], |s|)
    ensures |s| == 0 || s[Parent(|s|)].k <= x.k ==> HeapAt(s + [x], |s|)
  {
    var t := s + [x];
    forall i | 0 <= i < |t| && i != |s| ensures HeapAt(t, i) {
      assert HeapAt(s, i);
    }
  }

  /** Every sample with its key multiplied. */
  function Scaled(s: seq<Sample>, factor: real): seq<Sample> {
    seq(|s|, i requires 0 <= i < |s| => Sample(s[i].k * factor, s[i].v))
  }

  /** Rescaling multiplies every key and keeps every value, in its place. */
  lemma ScaledIs(s: seq<Sample>, factor: real, i: nat)
    requires i < |s|
    ensures |Scaled(s, factor)| == |s|
    ensures Scaled(s, factor)[i].v == s[i].v && Scaled(s, factor)[i].k == s[i].k * factor
  {
  }

  lemma ScaledIsHeap(s: seq<Sample>, factor: real)
    requires IsHeap(s) && factor > 0.0
    ensures IsHeap(Scaled(s, factor))
  {
    var t := Scaled(s, factor);
    forall i | 0 <= i < |t| ensures HeapAt(t, i) {
      assert HeapAt(s, i);
      TimesMonotone(s[Parent(i)].k, s[i].k, factor);
    }
  }

  lemma TimesMonotone(x: real, y: real, factor: real)
    requires x <= y && factor > 0.0
    ensures x * factor <= y * factor
  {
  }

  /** The heap: the first `len` slots of an array that never grows. */
  class Heap {
    const arr: array<Sample>
    var len: nat

    ghost predicate Fits()
      reads this
    {
      len <= arr.Length
    }

    ghost function Values(): seq<Sample>
      requires Fits()
      reads this, arr
    {
      arr[..len]
    }

    ghost predicate Valid()
      reads this, arr
    {
      Fits() && IsHeap(Values())
    }

    constructor (reservoirSize: nat)
      ensures Valid() && fresh(arr) && arr.Length == reservoirSize && Values() == []
    {
      arr := new Sample[reservoirSize](_ => Sample(0.0, 0));
      len := 0;
    }

    /** Swaps two of the first `n` slots. */
    method Swap(i: nat, j: nat, n: nat)
      requires i < n <= arr.Length && j < n
      modifies arr
      ensures arr[..n] == Swapped(old(arr[..n]), i, j) && arr[n..] == old(arr[n..])
      ensures multiset(arr[..n]) == multiset(old(arr[..n]))
    {
      SwapPermutes(arr[..n], i, j);
      ghost var t := Swapped(arr[..n], i, j);
      arr[i], arr[j] := arr[j], arr[i];
      assert arr[..n] == t;
    }

    method Up(start: nat)
      requires Fits() && start < len && HeapButUp(Values(), start)
      modifies arr
      ensures IsHeap(Values()) && multiset(Values()) == multiset(old(Values()))
      ensures old(HeapAt(Values(), start)) ==> Values() == old(Values())
      ensures arr[len..] == old(arr[len..])
    {
      hide HeapButUp, IsHeap, Swapped;
      var j: nat := start;
      while true
        invariant j < len && HeapButUp(arr[..len], j) && multiset(arr[..len]) == old(multiset(arr[..len]))
        invariant old(HeapAt(Values(), start)) ==> j == start && arr[..len] == old(arr[..len])
        invariant arr[len..] == old(arr[len..])
        decreases j
      {
        var i := Parent(j);
        if i == j || !(arr[j].k < arr[i].k) {
          break;
        }
        UpStep(arr[..len], j);
        Swap(i, j, len);
        j := i;
      }
      UpStops(arr[..len], j);
    }

    /** Moves slot 0 of the first `n` down to where it belongs. */
    method Down(n: nat)
      requires 0 < n <= arr.Length && HeapButDown(arr[..n], 0)
      modifies arr
      ensures IsHeap(arr[..n]) && multiset(arr[..n]) == multiset(old(arr[..n]))
      ensures arr[n..] == old(arr[n..])
    {
      hide HeapButDown, IsHeap, HeapAt, Swapped;
      var i := 0;
      while true
        invariant i < n && HeapButDown(arr[..n], i) && multiset(arr[..n]) == old(multiset(arr[..n]))
        invariant arr[n..] == old(arr[n..])
        decreases n - i
      {
        var j1 := 2 * i + 1;
        if j1 >= n {
          break;
        }
        var j := j1;
        if j1 + 1 < n && !(arr[j1].k < arr[j1 + 1].k) {
          j := j1 + 1;
        }
        assert j == Smaller(arr[..n], i);
        if !(arr[j].k < arr[i].k) {
          break;
        }
        DownStep(arr[..n], i);
        Swap(i, j, n);
        i := j;
      }
      DownStops(arr[..n], i);
    }

    /** Adds a sample; where this answers false the program panics. */
    method Push(x: Sample) returns (ok: bool)
      requires Valid()
      modifies this, arr
      ensures ok <==> old(len) < arr.Length
      ensures !ok ==> len == old(len) && arr[..] == old(arr[..])
      ensures ok ==> Valid() && len == old(len) + 1 && multiset(Values()) == multiset(old(Values())) + multiset{x}
      ensures ok && (old(len) == 0 || old(Values())[Parent(old(len))].k <= x.k) ==> Values() == old(Values()) + [x]
      ensures ok ==> arr[len..] == old(arr[len + 1..])
    {
      if len == arr.Length {
        return false;
      }
      hide IsHeap, HeapButUp, HeapAt;
      Appended(arr[..len], x);
      ghost var s := arr[..len];
      arr[len] := x;
      len := len + 1;
      assert arr[..len] == s + [x];
      Up(len - 1);
      ok := true;
    }

    /** Pushes the next sample of a heap whose earlier samples are already here. */
    method PushNext(x: Sample, ghost t: seq<Sample>)
      requires Fits() && IsHeap(t) && len < |t| <= arr.Length && Values() == t[..len] && x == t[len]
      modifies this, arr
      ensures len == old(len) + 1 && Fits() && Values() == t[..len]
      ensures forall k :: len <= k < arr.Length ==> arr[k] == old(arr[k])
    {
      PrefixIsHeap(t, len);
      assert HeapAt(t, len);
      ghost var rest := arr[len + 1..];
      assert t[..len + 1] == t[..len] + [x];
      var ok := Push(x);
      assert forall k :: len <= k < arr.Length ==> arr[k] == arr[len..][k - len] == rest[k - len];
    }

    /** Removes a sample with the least key. */
    method Pop() returns (x: Sample)
      requires Valid() && len > 0
      modifies this, arr
      ensures Valid() && len == old(len) - 1
      ensures x == old(Values())[0] && (forall i :: 0 <= i < old(len) ==> x.k <= old(Values())[i].k)
      ensures multiset(Values()) + multiset{x} == multiset(old(Values()))
    {
      hide IsHeap, HeapButDown, HeapAt, Swapped;
      ghost var s := arr[..len];
      RootIsLeastOfAll(s);
      var n := len - 1;
      Swap(0, n, len);
      LastToRoot(s, arr[..len]);
      assert arr[..len][..n] == arr[..n];
      if n > 0 {
        Down(n);
      }
      x := arr[n];
      len := n;
    }
  }

  /** The decaying sample. */
  class ExpDecaySample {
    const reservoirSize: nat
    const values: Heap
    var count: nat

    ghost predicate Valid()
      reads this, values, values.arr
    {
      values.Valid() && values.arr.Length == reservoirSize && values.len == Min(count, reservoirSize)
    }

    constructor (size: nat)
      ensures Valid() && reservoirSize == size && count == 0 && fresh(values) && fresh(values.arr)
    {
      reservoirSize, count := size, 0;
      values := new Heap(size);
    }

    method Clear()
      requires Valid()
      modifies this, values
      ensures Valid() && count == 0 && values.Values() == []
    {
      count := 0;
      values.len := 0;
      assert values.arr[..0] == [];
    }

    /** Samples `x`, evicting a sample of least key when the reservoir is full, and on
        `rescale` multiplies every key by a positive factor.  An empty reservoir makes
        the program panic; nothing else does. */
    method Update(x: Sample, rescale: bool, factor: real) returns (ok: bool)
      requires Valid() && factor > 0.0
      modifies this, values, values.arr
      ensures ok <==> reservoirSize > 0
      ensures ok ==> Valid() && count == old(count) + 1
      ensures ok ==> exists kept: seq<Sample> ::
                && values.Values() == (if rescale then Scaled(kept, factor) else kept)
                && Evicted(old(values.Values()), x, kept, reservoirSize)
    {
      hide Evicted, IsHeap;
      count := count + 1;
      ok := Insert(x);
      if !ok {
        return;
      }
      ghost var kept := values.Values();
      if rescale {
        Rescale(factor);
      }
      assert values.Values() == if rescale then Scaled(kept, factor) else kept;
    }

    /** Makes room if the reservoir is full, and adds `x`. */
    method Insert(x: Sample) returns (ok: bool)
      requires values.Valid() && values.arr.Length == reservoirSize
      modifies values, values.arr
      ensures ok <==> reservoirSize > 0
      ensures ok ==> values.Valid() && values.len == Min(old(values.len) + 1, reservoirSize)
      ensures ok ==> Evicted(old(values.Values()), x, values.Values(), reservoirSize)
    {
      hide IsHeap;
      if values.len == reservoirSize {
        if values.len == 0 {
          return false;
        }
        var least := values.Pop();
      }
      ok := values.Push(x);
    }

    /** Pushes the samples, rescaled, into the slots they are being read from.  Since
        heap order survives scaling, no push moves anything. */
    method Rescale(factor: real)
      requires values.Valid() && factor > 0.0
      modifies values, values.arr
      ensures values.Valid() && values.len == old(values.len)
      ensures values.Values() == Scaled(old(values.Values()), factor)
      ensures forall i :: 0 <= i < values.len ==>
                && values.Values()[i].v == old(values.Values())[i].v
                && values.Values()[i].k == old(values.Values())[i].k * factor
    {
      ghost var s := values.Values();
      ghost var t := Scaled(s, factor);
      ScaledIsHeap(s, factor);
      hide IsHeap;
      var n := values.len;
      values.len := 0;
      for i := 0 to n
        invariant values.len == i && values.arr[..i] == t[..i]
        invariant forall k :: i <= k < n ==> values.arr[k] == s[k]
      {
        var v := values.arr[i];
        values.PushNext(Sample(v.k * factor, v.v), t);
      }
      assert t[..n] == t;
    }
  }

  /** `kept` is a heap that holds `x` and what was there before, less one sample of
      least key if the reservoir was full. */
  ghost predicate Evicted(before: seq<Sample>, x: Sample, kept: seq<Sample>, size: nat) {
    && IsHeap(kept)
    && if |before| < size then multiset(kept) == multiset(before) + multiset{x}
       else
         && before != []
         && (forall i :: 0 <= i < |before| ==> before[0].k <= before[i].k)
         && multiset(kept) + multiset{before[0]} == multiset(before) + multiset{x}
  }
}
