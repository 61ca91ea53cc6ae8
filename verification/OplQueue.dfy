/** The queue of waiting callbacks: a binary min heap, sifted in place around a hole. */
module OplQueue {

  const MAX_OPL_QUEUE: nat := 512

  /** A callback, its argument, and the time it is due. */
  datatype Entry = Entry(callback: nat, data: nat, time: nat)

  function Parent(i: nat): nat
    requires i > 0
  {
    (i - 1) / 2
  }

  /** Every entry is due no earlier than its parent. */
  ghost predicate Heap(s: seq<Entry>) {
    forall i :: 0 < i < |s| ==> s[Parent(i)].time <= s[i].time
  }

  /** Heap order but for the entry at h, which may be too small for its place. */
  ghost predicate Rising(s: seq<Entry>, h: nat) {
    && h < |s|
    && (forall i :: 0 < i < |s| && i != h ==> s[Parent(i)].time <= s[i].time)
    && (forall i :: 0 < i < |s| && Parent(i) == h && h > 0 ==> s[Parent(h)].time <= s[i].time)
  }

  /** Heap order but for the entry at h, which may be too large for its place. */
  ghost predicate Sinking(s: seq<Entry>, h: nat) {
    && h < |s|
    && (forall i :: 0 < i < |s| && Parent(i) != h ==> s[Parent(i)].time <= s[i].time)
    && (forall i :: 0 < i < |s| && Parent(i) == h && h > 0 ==> s[Parent(h)].time <= s[i].time)
  }

  function Swap(s: seq<Entry>, i: nat, j: nat): (r: seq<Entry>)
    requires i < |s| && j < |s|
    ensures |r| == |s|
  {
    s[i := s[j]][j := s[i]]
  }

  ghost predicate Rearranged(s: seq<Entry>, t: seq<Entry>) {
    multiset(s) == multiset(t)
  }

  lemma SwapRearranges(s: seq<Entry>, i: nat, j: nat, t: seq<Entry>)
    requires i < |s| && j < |s| && Rearranged(s, t)
    ensures Rearranged(Swap(s, i, j), t)
  {
  }

  lemma RiseStep(s: seq<Entry>, h: nat)
    requires Rising(s, h)
    ensures h == 0 || s[h].time >= s[Parent(h)].time ==> Heap(s)
    ensures h > 0 && s[h].time < s[Parent(h)].time ==> Rising(Swap(s, h, Parent(h)), Parent(h))
  {
    if h > 0 && s[h].time < s[Parent(h)].time {
      var p, t := Parent(h), Swap(s, h, Parent(h));
      assert t[h] == s[p] && t[p] == s[h] && forall k :: 0 <= k < |s| && k != h && k != p ==> t[k] == s[k];
      hide Swap;
      forall i | 0 < i < |t| && i != p
        ensures t[Parent(i)].time <= t[i].time
        ensures Parent(i) == p && p > 0 ==> t[Parent(p)].time <= t[i].time
      {
        assert i != h ==> s[Parent(i)].time <= s[i].time;
        assert p > 0 ==> s[Parent(p)].time <= s[p].time;
      }
    }
  }

  /** Down to child c, which is due no later than the other child. */
  lemma SinkStep(s: seq<Entry>, h: nat, c: nat)
    requires Sinking(s, h) && c < |s| && (c == 2 * h + 1 || c == 2 * h + 2) && s[c].time < s[h].time
    requires s[c].time <= s[2 * h + 1].time && (2 * h + 2 < |s| ==> s[c].time <= s[2 * h + 2].time)
    ensures Sinking(Swap(s, h, c), c)
  {
    var t := Swap(s, h, c);
    assert t[h] == s[c] && t[c] == s[h] && forall k :: 0 <= k < |s| && k != h && k != c ==> t[k] == s[k];
    hide Swap;
    forall i | 0 < i < |t| && Parent(i) != c
      ensures t[Parent(i)].time <= t[i].time
    {
      if Parent(i) == h {
        assert i == 2 * h + 1 || i == 2 * h + 2;
      } else {
        assert s[Parent(i)].time <= s[i].time;
      }
    }
  }

  lemma SinkDone(s: seq<Entry>, h: nat)
    requires Sinking(s, h)
    requires 2 * h + 1 < |s| ==> s[h].time <= s[2 * h + 1].time
    requires 2 * h + 2 < |s| ==> s[h].time <= s[2 * h + 2].time
    ensures Heap(s)
  {
  }

  /** Moving an entry into the hole h and x into its old place swaps the two. */
  lemma HoleMoves(a: seq<Entry>, h: nat, p: nat, x: Entry)
    requires h < |a| && p < |a| && h != p
    ensures a[h := a[p]][p := x] == Swap(a[h := x], h, p)
  {
  }

  lemma {:induction false} RootIsLeast(s: seq<Entry>, i: nat)
    requires Heap(s) && i < |s|
    ensures s[0].time <= s[i].time
    decreases i
  {
    if i > 0 {
      RootIsLeast(s, Parent(i));
    }
  }

  class Queue {
    const entries: array<Entry>
    var numEntries: nat

    ghost predicate Valid()
      reads this, entries
    {
      entries.Length == MAX_OPL_QUEUE && numEntries <= MAX_OPL_QUEUE && Heap(entries[..numEntries])
    }

    ghost function Contents(): multiset<Entry>
      reads this, entries
    {
      if numEntries <= entries.Length then multiset(entries[..numEntries]) else multiset{}
    }

    constructor ()
      ensures Valid() && fresh(entries) && Contents() == multiset{}
    {
      entries := new Entry[MAX_OPL_QUEUE](_ => Entry(0, 0, 0));
      numEntries := 0;
    }

    predicate IsEmpty()
      reads this
    {
      numEntries == 0
    }

    /** Adds a callback; a full queue drops it. */
    method Push(callback: nat, data: nat, time: nat)
      requires Valid()
      modifies this`numEntries, entries
      ensures Valid()
      ensures Contents() == old(Contents())
           + if old(|Contents()|) >= MAX_OPL_QUEUE then multiset{} else multiset{Entry(callback, data, time)}
    {
      if numEntries >= MAX_OPL_QUEUE {
        return;
      }
      hide Heap, Rising;
      ghost var x := Entry(callback, data, time);
      ghost var before := entries[..numEntries];
      var entryId := numEntries;
      numEntries := numEntries + 1;
      ghost var s := entries[..numEntries][entryId := x];
      assert s == before + [x];
      NewLeaf(before, x);
      entryId, s := SiftUp(entryId, time, x, s);
      entries[entryId] := Entry(callback, data, time);
      assert entries[..numEntries] == s;
    }

    /** Shifts later entries down from a hole at the end; s is the heap with x in the hole. */
    method SiftUp(entryId0: nat, time: nat, ghost x: Entry, ghost s0: seq<Entry>)
      returns (entryId: nat, ghost s: seq<Entry>)
      requires entryId0 < numEntries <= entries.Length && x.time == time
      requires s0 == entries[..numEntries][entryId0 := x] && Rising(s0, entryId0)
      modifies entries
      ensures entryId < numEntries && s == entries[..numEntries][entryId := x]
      ensures Heap(s) && Rearranged(s, s0)
    {
      assert Rearranged(s0, s0);
      hide Heap, Rising, Swap, Rearranged;
      entryId, s := entryId0, s0;
      while entryId > 0
        invariant entryId < numEntries && s == entries[..numEntries][entryId := x]
        invariant Rearranged(s, s0) && Rising(s, entryId)
      {
        var parentId := (entryId - 1) / 2;
        assert s[entryId] == x && s[parentId] == entries[parentId];
        RiseStep(s, entryId);
        if time >= entries[parentId].time {
          return;
        }
        ghost var a := entries[..numEntries];
        HoleMoves(a, entryId, parentId, x);
        SwapRearranges(s, entryId, parentId, s0);
        s := Swap(s, entryId, parentId);
        entries[entryId] := entries[parentId];
        assert entries[..numEntries] == a[entryId := a[parentId]];
        entryId := parentId;
      }
      RiseStep(s, entryId);
    }

    /** Removes and returns an entry that is due first. */
    method Pop() returns (ok: bool, r: Entry)
      requires Valid()
      modifies this`numEntries, entries
      ensures Valid() && ok == (old(numEntries) > 0)
      ensures !ok ==> Contents() == old(Contents())
      ensures ok ==> old(Contents()) == Contents() + multiset{r}
      ensures ok ==> forall e :: e in old(Contents()) ==> r.time <= e.time
    {
      hide Heap, Sinking, Rearranged;
      r := Entry(0, 0, 0);
      if numEntries <= 0 {
        return false, r;
      }
      r := entries[0];
      ghost var whole := entries[..numEntries];
      Least(whole);
      numEntries := numEntries - 1;
      var i: nat := 0;
      if numEntries > 0 {
        ghost var x, s := entries[numEntries], entries[..numEntries][0 := entries[numEntries]];
        assert s == whole[..|whole| - 1][0 := whole[|whole| - 1]];
        TakeRoot(whole);
        ghost var s0 := s;
        i, s := SiftDown(s);
        entries[i] := entries[numEntries];
        assert entries[..numEntries] == s;
        Popped(whole, s0, s, r);
      } else {
        entries[i] := entries[numEntries];
        assert whole == [r];
        NoEntries(entries[..numEntries]);
      }
      return true, r;
    }

    /** Shifts earlier entries up from a hole at the root; s is the heap with the entry
        just past the end in the hole. That entry is read in place and never moves. */
    method SiftDown(ghost s0: seq<Entry>) returns (i: nat, ghost s: seq<Entry>)
      requires 0 < numEntries < entries.Length
      requires s0 == entries[..numEntries][0 := entries[numEntries]] && Sinking(s0, 0)
      modifies entries
      ensures i < numEntries && entries[numEntries] == old(entries[numEntries])
      ensures s == entries[..numEntries][i := entries[numEntries]]
      ensures Heap(s) && Rearranged(s, s0)
    {
      assert Rearranged(s0, s0);
      hide Heap, Sinking, Swap, Parent, Rearranged;
      ghost var x := entries[numEntries];
      i, s := 0, s0;
      while true
        invariant i < numEntries && entries[numEntries] == x && s == entries[..numEntries][i := x]
        invariant Rearranged(s, s0) && Sinking(s, i)
        decreases numEntries - i
      {
        ghost var a := entries[..numEntries];
        assert s == a[i := x];
        var next := EarlierChild(i);
        if next == i {
          SinkDone(s, i);
          return;
        }
        SinkStep(s, i, next);
        SwapRearranges(s, i, next, s0);
        HoleMoves(a, i, next, x);
        s := Swap(s, i, next);
        entries[i] := entries[next];
        assert entries[..numEntries] == a[i := a[next]];
        i := next;
      }
    }

    /** The child of i to move up, due before the last entry; i itself when neither is. */
    method EarlierChild(i: nat) returns (next: nat)
      requires i < numEntries < entries.Length
      ensures next == i ==>
        forall c :: 2 * i + 1 <= c <= 2 * i + 2 && c < numEntries ==> entries[numEntries].time <= entries[c].time
      ensures next != i ==>
        && next < numEntries && (next == 2 * i + 1 || next == 2 * i + 2)
        && entries[next].time < entries[numEntries].time
        && forall c :: 2 * i + 1 <= c <= 2 * i + 2 && c < numEntries ==> entries[next].time <= entries[c].time
    {
      var child1, child2 := i * 2 + 1, i * 2 + 2;
      if child1 < numEntries && entries[child1].time < entries[numEntries].time {
        if child2 < numEntries && entries[child2].time < entries[child1].time {
          next := child2;
        } else {
          next := child1;
        }
      } else if child2 < numEntries && entries[child2].time < entries[numEntries].time {
        next := child2;
      } else {
        next := i;
      }
    }

    /** The earliest due time; 0 for an empty queue. */
    function Peek(): (time: nat)
      requires Valid()
      reads this, entries
      ensures numEntries == 0 ==> time == 0
      ensures numEntries > 0 ==> forall e :: e in Contents() ==> time <= e.time
      ensures numEntries > 0 ==> exists e :: e in Contents() && e.time == time
    {
      if numEntries > 0 then
        Least(entries[..numEntries]);
        assert entries[..numEntries][0] in Contents();
        entries[0].time
      else 0
    }

    method Clear()
      requires Valid()
      modifies this`numEntries
      ensures Valid() && Contents() == multiset{}
    {
      numEntries := 0;
      NoEntries(entries[..numEntries]);
    }

    /** Scales every offset from a given time, in place. Heap order is kept unless a negative
        result wraps around below zero. */
    method AdjustCallbacks(time: nat, factor: Factor, conversion: Conversion)
      requires Valid()
      modifies entries
      ensures numEntries == old(numEntries)
      ensures forall k :: 0 <= k < numEntries ==>
        entries[k] == old(entries[k]).(time := Scaled(time, factor, old(entries[k]).time, conversion))
      ensures forall k :: 0 <= k < numEntries ==>
        && (old(entries[k]).time >= time ==> Divided(old(entries[k]).time - time, factor, entries[k].time - time))
        && (old(entries[k]).time <= time && conversion.Saturating? ==> entries[k].time == time)
      ensures (forall k :: 0 <= k < numEntries ==> InRange(time, factor, old(entries[k]).time, conversion)) ==> Valid()
    {
      hide Heap, Scaled, InRange, Divided;
      ghost var before := entries[..numEntries];
      var i := 0;
      while i < numEntries
        invariant i <= numEntries
        invariant forall k :: 0 <= k < i ==>
                    entries[k] == before[k].(time := Scaled(time, factor, before[k].time, conversion))
        invariant forall k :: i <= k < numEntries ==> entries[k] == before[k]
      {
        entries[i] := entries[i].(time := Scaled(time, factor, entries[i].time, conversion));
        i := i + 1;
      }
      forall k | 0 <= k < numEntries
        ensures before[k].time >= time ==> Divided(before[k].time - time, factor, entries[k].time - time)
        ensures before[k].time <= time && conversion.Saturating? ==> entries[k].time == time
      {
        ScaledIs(time, factor, before[k].time, conversion);
      }
      if forall k :: 0 <= k < numEntries ==> InRange(time, factor, before[k].time, conversion) {
        ScaledKeepsHeap(before, entries[..numEntries], time, factor, conversion);
      }
    }
  }

  type Factor = f: real | f > 0.0 witness 1.0

  const WORD64: int := 0x1_0000_0000_0000_0000

  /** What becomes of a negative number converted to 64 unsigned bits, which C leaves undefined:
      zero, as in WebAssembly, or the number modulo 2^64, as on other targets. */
  datatype Conversion = Saturating | Wrapping

  /** The wait q is the given one divided by a factor: the whole number of times the factor fits. */
  predicate Divided(wait: nat, factor: Factor, q: int) {
    q >= 0 && q as real * factor <= wait as real < (q + 1) as real * factor
  }

  /** An offset divided by a factor, rounded toward zero. */
  function Quotient(offset: int, factor: Factor): (q: int)
    ensures offset >= 0 ==> Divided(offset, factor, q)
    ensures offset <= 0 ==> Divided(-offset, factor, -q)
  {
    if offset >= 0 then Times(offset as real, factor)
    else
      var q: int := Times((-offset) as real, factor);
      -q
  }

  /** How often the factor fits. */
  function Times(y: real, factor: Factor): (q: nat)
    requires y >= 0.0
    ensures q as real * factor <= y < (q + 1) as real * factor
  {
    var x := y / factor;
    FloorFits(y, x, factor);
    x.Floor
  }

  lemma FloorFits(y: real, x: real, factor: Factor)
    requires y >= 0.0 && x == y / factor
    ensures x.Floor >= 0 && x.Floor as real * factor <= y < (x.Floor + 1) as real * factor
  {
    DivideTimes(y, x, factor);
    var q := x.Floor;
    Between(q as real, x, (q + 1) as real, y, factor);
  }

  lemma DivideTimes(y: real, x: real, factor: Factor)
    requires y >= 0.0 && x == y / factor
    ensures x * factor == y && x >= 0.0
  {
  }

  lemma Between(a: real, x: real, b: real, y: real, factor: Factor)
    requires a <= x < b && x * factor == y
    ensures a * factor <= y < b * factor
  {
    RealMono(a, x, factor);
    RealMono(x, b, factor);
  }

  lemma RealMono(a: real, b: real, c: Factor)
    ensures a <= b ==> a * c <= b * c
    ensures a < b ==> a * c < b * c
  {
  }

  /** Longer waits stay longer, so dividing has one result. */
  lemma DividedInOrder(u: nat, v: nat, factor: Factor, p: int, q: int)
    requires u <= v && Divided(u, factor, p) && Divided(v, factor, q)
    ensures p <= q
  {
    RealMono((q + 1) as real, p as real, factor);
  }

  /** A due time whose offset from a given time is divided by a factor. */
  function Scaled(time: nat, factor: Factor, due: nat, conversion: Conversion): (r: nat)
    ensures conversion.Saturating? ==> r >= time
  {
    var q := Quotient(due - time, factor);
    if q >= 0 then time + q
    else match conversion
         case Saturating => time
         case Wrapping => if time + q >= 0 then time + q else (time + q) % WORD64
  }

  /** A wait is divided; what is overdue and does not wrap is due at once. */
  lemma ScaledIs(time: nat, factor: Factor, due: nat, conversion: Conversion)
    ensures due >= time ==> Divided(due - time, factor, Scaled(time, factor, due, conversion) - time)
    ensures due <= time && conversion.Saturating? ==> Scaled(time, factor, due, conversion) == time
  {
  }

  /** The sum does not fall below zero, where it would wrap around. */
  predicate InRange(time: nat, factor: Factor, due: nat, conversion: Conversion) {
    conversion.Saturating? || time + Quotient(due - time, factor) >= 0
  }

  /** No callback that was not due is due at once afterwards, unless the factor is above 1. */
  lemma SlowerStaysLater(time: nat, factor: Factor, due: nat)
    requires due > time && factor <= 1.0
    ensures Scaled(time, factor, due, Saturating) > time
  {
    var x := (due - time) as real;
    assert x / factor >= x;
    assert (x / factor).Floor >= due - time;
  }

  lemma QuotientInOrder(a: int, b: int, factor: Factor)
    requires a <= b
    ensures Quotient(a, factor) <= Quotient(b, factor)
  {
    hide Quotient, Divided;
    var p, q := Quotient(a, factor), Quotient(b, factor);
    if a >= 0 {
      DividedInOrder(a, b, factor, p, q);
    } else if b <= 0 {
      DividedInOrder(-b, -a, factor, -q, -p);
    } else {
      NotNegative(-a, factor, -p);
      NotNegative(b, factor, q);
    }
  }

  lemma NotNegative(wait: nat, factor: Factor, q: int)
    requires Divided(wait, factor, q)
    ensures q >= 0
  {
  }

  lemma ScaledInOrder(time: nat, factor: Factor, a: nat, b: nat, conversion: Conversion)
    requires a <= b
    requires InRange(time, factor, a, conversion)
    ensures Scaled(time, factor, a, conversion) <= Scaled(time, factor, b, conversion)
  {
    hide Quotient;
    QuotientInOrder(a - time, b - time, factor);
  }

  /** Where conversion wraps, two due times keep their order exactly unless only the earlier one
      falls below zero. Numbers are those of signed 64-bit arithmetic. */
  lemma OrderKeptIff(time: nat, factor: Factor, a: nat, b: nat)
    requires a <= b
    requires -(WORD64 / 2) <= time + Quotient(a - time, factor) && time + Quotient(b - time, factor) < WORD64 / 2
    ensures Scaled(time, factor, a, Wrapping) <= Scaled(time, factor, b, Wrapping)
       <==> InRange(time, factor, a, Wrapping) || !InRange(time, factor, b, Wrapping)
  {
    hide Quotient;
    QuotientInOrder(a - time, b - time, factor);
    WrapsOnce(time + Quotient(a - time, factor));
    WrapsOnce(time + Quotient(b - time, factor));
  }

  lemma WrapsOnce(x: int)
    requires -(WORD64 / 2) <= x < WORD64 / 2
    ensures x < 0 ==> x % WORD64 == x + WORD64
  {
  }

  /** A callback one sample late at the start of the clock, and a tempo of half the speed: where
      conversion wraps it is next due half a million years later, elsewhere at once. */
  lemma LateCallbackIsLost(time: nat, due: nat, factor: Factor)
    requires time == 22 && due == 1 && factor == 0.5
    ensures Scaled(time, factor, due, Wrapping) == WORD64 - 20
    ensures Scaled(time, factor, due, Saturating) == time
  {
    assert (due - time) as real / factor == -42.0;
    WrapsOnce(-20);
  }

  lemma ScaledKeepsHeap(s: seq<Entry>, t: seq<Entry>, time: nat, factor: Factor, conversion: Conversion)
    requires |t| == |s| && Heap(s)
    requires forall k :: 0 <= k < |s| ==> InRange(time, factor, s[k].time, conversion)
    requires forall k :: 0 <= k < |s| ==> t[k].time == Scaled(time, factor, s[k].time, conversion)
    ensures Heap(t)
  {
    hide InRange, Scaled;
    forall i | 0 < i < |t|
      ensures t[Parent(i)].time <= t[i].time
    {
      ScaledInOrder(time, factor, s[Parent(i)].time, s[i].time, conversion);
    }
  }

  lemma NewLeaf(s: seq<Entry>, x: Entry)
    requires Heap(s)
    ensures Rising(s + [x], |s|)
    ensures multiset(s + [x]) == multiset(s) + multiset{x}
  {
  }

  lemma NoEntries(s: seq<Entry>)
    requires s == []
    ensures Heap(s)
  {
  }

  lemma Least(s: seq<Entry>)
    requires Heap(s)
    ensures forall e :: e in multiset(s) ==> s[0].time <= e.time
  {
    hide Heap;
    forall e | e in multiset(s)
      ensures s[0].time <= e.time
    {
      assert e in s;
      var i :| 0 <= i < |s| && s[i] == e;
      RootIsLeast(s, i);
    }
  }

  /** The last entry in place of the root. */
  lemma Popped(whole: seq<Entry>, s0: seq<Entry>, s: seq<Entry>, r: Entry)
    requires multiset(s0) + multiset{r} == multiset(whole) && Rearranged(s, s0)
    ensures multiset(whole) == multiset(s) + multiset{r}
  {
  }

  lemma TakeRoot(s: seq<Entry>)
    requires |s| > 1 && Heap(s)
    ensures var n := |s| - 1;
            var t := s[..n][0 := s[n]];
            Sinking(t, 0) && multiset(t) + multiset{s[0]} == multiset(s)
  {
    var n := |s| - 1;
    var t := s[..n][0 := s[n]];
    assert s == [s[0]] + s[1..n] + [s[n]];
    assert t == [s[n]] + s[1..n];
    assert multiset(s) == multiset([s[0]]) + multiset(s[1..n]) + multiset([s[n]]);
  }
}
