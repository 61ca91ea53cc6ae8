/** The emulator's ring of timed register writes. */
module OplWriteBuf {
  import opened Bits

  const OPL_WRITEBUF_SIZE: nat := 1024
  const OPL_WRITEBUF_DELAY: nat := 2

  /** A ring slot; bit 9 of reg marks a write still to be applied. */
  datatype Slot = Slot(time: nat, reg: nat, data: nat)

  /** A register write, and the sample it is stamped for or applied at. */
  datatype Write = Write(at: nat, reg: nat, data: nat)

  function WriteOf(s: Slot): Write {
    Write(s.time, s.reg % 0x200, s.data)
  }

  function Flagged(reg: nat): bool {
    reg / 0x200 % 2 == 1
  }

  /** reg | 0x200 */
  function WithFlag(reg: nat): (r: nat)
    ensures Flagged(r) && r % 0x200 == reg % 0x200
  {
    if Flagged(reg) then reg else reg + 0x200
  }

  function At(start: nat, k: nat): (i: nat)
    ensures i < OPL_WRITEBUF_SIZE
  {
    (start + k) % OPL_WRITEBUF_SIZE
  }

  /** The writes in n slots of the ring, from a slot on. */
  ghost function Segment(ring: seq<Slot>, start: nat, n: nat): (w: seq<Write>)
    requires |ring| == OPL_WRITEBUF_SIZE
    ensures |w| == n
  {
    if n == 0 then []
    else
      var s := ring[At(start, n - 1)];
      Segment(ring, start, n - 1) + [WriteOf(s)]
  }

  /** The pending slots are n from start on, in time order with the delay between them. */
  ghost predicate Pending(ring: seq<Slot>, start: nat, n: nat, now: nat, lasttime: nat) {
    && |ring| == OPL_WRITEBUF_SIZE && start < OPL_WRITEBUF_SIZE && n <= OPL_WRITEBUF_SIZE
    && (forall k :: 0 <= k < n ==> Flagged(ring[At(start, k)].reg) && ring[At(start, k)].time >= now)
    && (forall k :: n <= k < OPL_WRITEBUF_SIZE ==> !Flagged(ring[At(start, k)].reg))
    && (forall k :: 0 < k < n ==>
          ring[At(start, k)].time >= ring[At(start, k - 1)].time + OPL_WRITEBUF_DELAY)
    && (n > 0 ==> ring[At(start, n - 1)].time == lasttime)
  }

  lemma AtDistinct(start: nat, j: nat, k: nat)
    requires j < k < j + OPL_WRITEBUF_SIZE
    ensures At(start, j) != At(start, k)
  {
  }

  lemma {:induction false} SegmentFrame(ring: seq<Slot>, ring': seq<Slot>, start: nat, n: nat)
    requires |ring| == |ring'| == OPL_WRITEBUF_SIZE
    requires forall k :: 0 <= k < n ==> ring[At(start, k)] == ring'[At(start, k)]
    ensures Segment(ring, start, n) == Segment(ring', start, n)
  {
    if n > 0 {
      SegmentFrame(ring, ring', start, n - 1);
    }
  }

  lemma Shift(start: nat, k: nat)
    ensures At(At(start, 1), k) == At(start, k + 1)
    ensures start < OPL_WRITEBUF_SIZE ==> At(start, 0) == start
  {
    ModPlus(start + 1, k, OPL_WRITEBUF_SIZE);
  }

  /** The first write of a segment, and the segment after it. */
  lemma {:induction false} SegmentHead(ring: seq<Slot>, start: nat, n: nat)
    requires |ring| == OPL_WRITEBUF_SIZE && start < OPL_WRITEBUF_SIZE && 0 < n
    ensures Segment(ring, start, n)
         == [WriteOf(ring[start])] + Segment(ring, At(start, 1), n - 1)
  {
    hide At, WriteOf;
    Shift(start, 0);
    if n > 1 {
      SegmentHead(ring, start, n - 1);
      Shift(start, n - 2);
      var last := WriteOf(ring[At(start, n - 1)]);
      assert Segment(ring, start, n) == Segment(ring, start, n - 1) + [last];
      assert Segment(ring, At(start, 1), n - 1) == Segment(ring, At(start, 1), n - 2) + [last];
      Assoc([WriteOf(ring[start])], Segment(ring, At(start, 1), n - 2), [last]);
    }
  }

  /** Applying the oldest pending write. */
  lemma TakeFirst(ring: seq<Slot>, start: nat, n: nat, now: nat, lasttime: nat)
    requires Pending(ring, start, n, now, lasttime) && n > 0
    ensures var ring' := ring[start := ring[start].(reg := ring[start].reg % 0x200)];
            && Pending(ring', At(start, 1), n - 1, now, lasttime)
            && Pending(ring', At(start, 1), n - 1, ring[start].time, lasttime)
            && Segment(ring, start, n)
            == [WriteOf(ring[start])] + Segment(ring', At(start, 1), n - 1)
  {
    hide At, Segment, WriteOf;
    var ring' := ring[start := ring[start].(reg := ring[start].reg % 0x200)];
    var next := At(start, 1);
    Shift(start, 0);
    forall k: nat | k < OPL_WRITEBUF_SIZE
      ensures At(next, k) == At(start, k + 1)
      ensures k + 1 < OPL_WRITEBUF_SIZE ==> ring'[At(next, k)] == ring[At(start, k + 1)]
      ensures k + 1 == OPL_WRITEBUF_SIZE ==> At(next, k) == start
    {
      Shift(start, k);
      FullTurn(start);
      if k + 1 < OPL_WRITEBUF_SIZE {
        AtDistinct(start, 0, k + 1);
      }
    }
    TimesRise(ring, start, n, now, lasttime);
    TakenPending(ring, ring', start, next, n, now, lasttime);
    TakenPending(ring, ring', start, next, n, ring[start].time, lasttime);
    SegmentHead(ring, start, n);
    SegmentFrame(ring, ring', next, n - 1);
  }

  lemma FullTurn(start: nat)
    requires start < OPL_WRITEBUF_SIZE
    ensures At(start, OPL_WRITEBUF_SIZE) == start
  {
  }

  lemma TakenPending(ring: seq<Slot>, ring': seq<Slot>, start: nat, next: nat, n: nat, now: nat, lasttime: nat)
    requires n > 0 && next < OPL_WRITEBUF_SIZE && |ring'| == |ring| == OPL_WRITEBUF_SIZE >= n
    requires forall k :: 0 < k < n ==> ring[At(start, k)].time >= now
    requires Pending(ring, start, n, 0, lasttime)
    requires forall k: nat :: k + 1 < OPL_WRITEBUF_SIZE ==> ring'[At(next, k)] == ring[At(start, k + 1)]
    requires !Flagged(ring'[At(next, OPL_WRITEBUF_SIZE - 1)].reg)
    ensures Pending(ring', next, n - 1, now, lasttime)
  {
    hide At, Flagged;
    forall k | 0 <= k < n - 1 ensures Flagged(ring'[At(next, k)].reg) && ring'[At(next, k)].time >= now {
      assert ring'[At(next, k)] == ring[At(start, k + 1)];
    }
    forall k | n - 1 <= k < OPL_WRITEBUF_SIZE ensures !Flagged(ring'[At(next, k)].reg) {
      if k + 1 < OPL_WRITEBUF_SIZE {
        assert ring'[At(next, k)] == ring[At(start, k + 1)];
      }
    }
    forall k | 0 < k < n - 1 ensures ring'[At(next, k)].time >= ring'[At(next, k - 1)].time + OPL_WRITEBUF_DELAY {
      assert ring'[At(next, k)] == ring[At(start, k + 1)] && ring'[At(next, k - 1)] == ring[At(start, k)];
    }
  }

  lemma {:induction false} TimesRise(ring: seq<Slot>, start: nat, n: nat, now: nat, lasttime: nat)
    requires Pending(ring, start, n, now, lasttime) && n > 0
    ensures forall k :: 0 <= k < n ==> ring[At(start, k)].time >= ring[At(start, 0)].time
  {
    var k := 0;
    while k + 1 < n
      invariant k < n
      invariant forall j :: 0 <= j <= k ==> ring[At(start, j)].time >= ring[At(start, 0)].time
    {
      k := k + 1;
      assert ring[At(start, k)].time >= ring[At(start, k - 1)].time + OPL_WRITEBUF_DELAY;
    }
  }

  lemma AtNext(start: nat)
    ensures (start + 1) % OPL_WRITEBUF_SIZE == At(start, 1)
    ensures At(At(start, 1), OPL_WRITEBUF_SIZE - 1) == At(start, OPL_WRITEBUF_SIZE)
  {
  }

  lemma AfterPending(start: nat, n: nat)
    requires start < OPL_WRITEBUF_SIZE
    ensures At(start, OPL_WRITEBUF_SIZE) == start
    ensures (At(start, n) + 1) % OPL_WRITEBUF_SIZE == At(start, n + 1)
  {
  }

  /** Storing a write in the first free slot. */
  lemma AddLast(ring: seq<Slot>, start: nat, n: nat, now: nat, lasttime: nat, s: Slot)
    requires Pending(ring, start, n, now, lasttime) && n < OPL_WRITEBUF_SIZE
    requires Flagged(s.reg) && s.time >= now && s.time >= lasttime + OPL_WRITEBUF_DELAY
    ensures var ring' := ring[At(start, n) := s];
            && Pending(ring', start, n + 1, now, s.time)
            && Segment(ring', start, n + 1) == Segment(ring, start, n) + [WriteOf(s)]
  {
    var ring' := ring[At(start, n) := s];
    forall k | 0 <= k < OPL_WRITEBUF_SIZE && k != n
      ensures ring'[At(start, k)] == ring[At(start, k)]
    {
      if k < n { AtDistinct(start, k, n); } else { AtDistinct(start, n, k); }
    }
    SegmentFrame(ring, ring', start, n);
    hide At;
  }

  lemma NothingPending(ring: seq<Slot>, start: nat, n: nat, now: nat, lasttime: nat)
    requires Pending(ring, start, n, now, lasttime)
    ensures start < OPL_WRITEBUF_SIZE && n <= OPL_WRITEBUF_SIZE && |ring| == OPL_WRITEBUF_SIZE
    ensures Flagged(ring[start].reg) <==> n > 0
    ensures n < OPL_WRITEBUF_SIZE ==> !Flagged(ring[At(start, n)].reg)
    ensures n > 0 ==> ring[start].time >= now && lasttime >= ring[start].time
  {
    assert At(start, 0) == start;
    if n > 0 {
      TimesRise(ring, start, n, now, lasttime);
      assert ring[At(start, n - 1)].time >= ring[At(start, 0)].time;
    }
  }

  lemma TimePasses(ring: seq<Slot>, start: nat, n: nat, now: nat, now': nat, lasttime: nat)
    requires Pending(ring, start, n, now, lasttime)
    requires n > 0 ==> ring[start].time >= now'
    ensures Pending(ring, start, n, now', lasttime)
  {
    assert At(start, 0) == start;
    if n > 0 {
      TimesRise(ring, start, n, now, lasttime);
    }
  }

  function Later(a: nat, b: nat): nat {
    if a < b then b else a
  }

  /** Stamps at least the delay apart. */
  ghost predicate Spaced(w: seq<Write>) {
    forall k :: 0 < k < |w| ==> w[k].at >= w[k - 1].at + OPL_WRITEBUF_DELAY
  }

  /** The same registers and data in the same order, each applied no later than stamped. */
  ghost predicate Carried(applied: seq<Write>, done: seq<Write>) {
    && |applied| == |done|
    && forall k :: 0 <= k < |done| ==>
         applied[k].reg == done[k].reg && applied[k].data == done[k].data && applied[k].at <= done[k].at
  }

  /** The part of the chip that buffers register writes. */
  class Chip {
    const writebuf: array<Slot>
    var writebufCur: nat
    var writebufLast: nat
    var writebufSamplecnt: nat
    var writebufLasttime: nat
    /** Every call of WriteReg, in order, with the sample counter at that moment. */
    var applied: seq<Write>

    /** Every write submitted, with its stamp; the first of them are done, the others pending. */
    ghost var submitted: seq<Write>
    ghost var done: seq<Write>
    ghost var pending: nat

    ghost predicate Valid()
      reads this, writebuf
    {
      writebuf.Length == OPL_WRITEBUF_SIZE && Accounts(writebuf[..])
    }

    /** What was submitted was applied, no later than its stamp, or is pending in the ring. */
    ghost predicate Accounts(ring: seq<Slot>)
      reads this
    {
      && Pending(ring, writebufCur, pending, writebufSamplecnt, writebufLasttime)
      && writebufLast == At(writebufCur, pending)
      && submitted == done + Segment(ring, writebufCur, pending) && Carried(applied, done)
      && Spaced(submitted)
      && (submitted != [] ==> submitted[|submitted| - 1].at == writebufLasttime)
    }

    constructor ()
      ensures Valid() && fresh(writebuf) && applied == [] && submitted == [] && pending == 0
      ensures writebufSamplecnt == writebufLasttime == 0
    {
      writebuf := new Slot[OPL_WRITEBUF_SIZE](_ => Slot(0, 0, 0));
      writebufCur, writebufLast, writebufSamplecnt, writebufLasttime := 0, 0, 0, 0;
      applied, submitted, done, pending := [], [], [], 0;
    }

    method WriteReg(reg: nat, data: nat)
      modifies this`applied
      ensures applied == old(applied) + [Write(writebufSamplecnt, reg, data)]
    {
      applied := applied + [Write(writebufSamplecnt, reg, data)];
    }

    /** Buffers a write. A full ring first applies its oldest write, early, and the sample
        counter then jumps to that write's stamp. */
    method WriteRegBuffered(reg: nat, data: nat)
      requires Valid()
      modifies this, writebuf
      ensures Valid() && writebufSamplecnt >= old(writebufSamplecnt)
      ensures submitted == old(submitted) + [Write(writebufLasttime, reg % 0x200, data)]
      ensures writebufLasttime == Later(old(writebufLasttime) + OPL_WRITEBUF_DELAY, writebufSamplecnt)
      ensures old(pending) < OPL_WRITEBUF_SIZE ==>
        applied == old(applied) && pending == old(pending) + 1 && writebufSamplecnt == old(writebufSamplecnt)
      ensures old(pending) == OPL_WRITEBUF_SIZE ==>
        && |applied| == |old(applied)| + 1 && old(applied) <= applied && pending == old(pending)
        && applied[|old(applied)|].at == old(writebufSamplecnt) && writebufSamplecnt == done[|old(applied)|].at
    {
      hide Pending, Segment, Flagged, WithFlag, At, Carried, Spaced;
      ghost var ring := writebuf[..];
      NothingPending(ring, writebufCur, pending, writebufSamplecnt, writebufLasttime);
      AfterPending(writebufCur, pending);
      CarriedSame(applied, done);
      if Flagged(writebuf[writebufLast].reg) {
        ring := ApplyOldest();
      }
      Store(reg, data, ring);
    }

    /** The first part, for a full ring. The slot itself is written next; ring is without its flag. */
    method ApplyOldest() returns (ghost ring: seq<Slot>)
      requires Valid() && pending == OPL_WRITEBUF_SIZE
      modifies this`writebufCur, this`writebufSamplecnt, this`applied, this`done, this`pending
      ensures Accounts(ring) && pending == OPL_WRITEBUF_SIZE - 1
      ensures ring == writebuf[..][old(writebufCur) := ring[old(writebufCur)]] && writebufLast == old(writebufCur)
      ensures |applied| == |old(applied)| + 1 == |done| && old(applied) <= applied
      ensures applied[|old(applied)|].at == old(writebufSamplecnt) <= writebufSamplecnt == done[|old(applied)|].at
    {
      hide Pending, Segment, Flagged, At, Carried, Spaced;
      NothingPending(writebuf[..], writebufCur, pending, writebufSamplecnt, writebufLasttime);
      AfterPending(writebufCur, pending);
      FirstApplied();
      AtNext(writebufCur);
      ghost var first := WriteOf(writebuf[writebufLast]);
      CarriedSnoc(applied, done, writebufSamplecnt, first);
      ring := writebuf[..][writebufCur := writebuf[writebufCur].(reg := writebuf[writebufCur].reg % 0x200)];
      WriteReg(writebuf[writebufLast].reg % 0x200, writebuf[writebufLast].data);
      done := done + [first];
      pending := pending - 1;
      writebufCur := (writebufLast + 1) % OPL_WRITEBUF_SIZE;
      writebufSamplecnt := writebuf[writebufLast].time;
    }

    /** The second part: the write goes to the free slot, stamped. */
    method Store(reg: nat, data: nat, ghost ring: seq<Slot>)
      requires writebuf.Length == OPL_WRITEBUF_SIZE && Accounts(ring) && pending < OPL_WRITEBUF_SIZE
      requires |ring| == OPL_WRITEBUF_SIZE && writebufLast < OPL_WRITEBUF_SIZE
      requires ring == writebuf[..][writebufLast := ring[writebufLast]]
      modifies this`submitted, this`pending, this`writebufLasttime, this`writebufLast, writebuf
      ensures Valid() && pending == old(pending) + 1
      ensures submitted == old(submitted) + [Write(writebufLasttime, reg % 0x200, data)]
      ensures writebufLasttime == Later(old(writebufLasttime) + OPL_WRITEBUF_DELAY, writebufSamplecnt)
    {
      hide Pending, Segment, Flagged, WithFlag, At, Carried, Spaced;
      var time1 := writebufLasttime + OPL_WRITEBUF_DELAY;
      var time2 := writebufSamplecnt;
      if time1 < time2 {
        time1 := time2;
      }
      ghost var s := Slot(time1, WithFlag(reg), data);
      NothingPending(ring, writebufCur, pending, writebufSamplecnt, writebufLasttime);
      AfterPending(writebufCur, pending);
      AddLast(ring, writebufCur, pending, writebufSamplecnt, writebufLasttime, s);
      writebuf[writebufLast] := Slot(time1, WithFlag(reg), data);
      assert writebuf[..] == ring[writebufLast := s];
      Assoc(done, Segment(ring, writebufCur, pending), [WriteOf(s)]);
      SpacedSnoc(submitted, WriteOf(s));
      submitted := submitted + [WriteOf(s)];
      pending := pending + 1;
      writebufLasttime := time1;
      writebufLast := (writebufLast + 1) % OPL_WRITEBUF_SIZE;
    }

    /** Moving the oldest pending write to the applied ones. */
    lemma FirstApplied()
      requires Valid() && pending > 0
      ensures var ring := writebuf[..];
              var ring' := ring[writebufCur := ring[writebufCur].(reg := ring[writebufCur].reg % 0x200)];
              && Pending(ring', At(writebufCur, 1), pending - 1, writebufSamplecnt, writebufLasttime)
              && Pending(ring', At(writebufCur, 1), pending - 1, ring[writebufCur].time, writebufLasttime)
              && submitted == done + [WriteOf(ring[writebufCur])] + Segment(ring', At(writebufCur, 1), pending - 1)
    {
      hide Pending, Segment, Flagged, At;
      NothingPending(writebuf[..], writebufCur, pending, writebufSamplecnt, writebufLasttime);
      var ring := writebuf[..];
      var ring' := ring[writebufCur := ring[writebufCur].(reg := ring[writebufCur].reg % 0x200)];
      TakeFirst(ring, writebufCur, pending, writebufSamplecnt, writebufLasttime);
      Assoc(done, [WriteOf(ring[writebufCur])], Segment(ring', At(writebufCur, 1), pending - 1));
    }

    /** Applies the first pending write, at its stamp. */
    method ApplyFirst() returns (ghost w: Write)
      requires Valid() && pending > 0 && writebufCur < OPL_WRITEBUF_SIZE
               && writebuf[writebufCur].time == writebufSamplecnt
      modifies this`writebufCur, this`applied, this`done, this`pending, writebuf
      ensures Valid() && pending == old(pending) - 1 && writebufCur < OPL_WRITEBUF_SIZE
      ensures w.at == writebufSamplecnt && applied == old(applied) + [w] && done == old(done) + [w]
    {
      hide Pending, Segment, Flagged, At, Spaced, Carried;
      FirstApplied();
      AtNext(writebufCur);
      EndOfRing(writebufCur, pending);
      ghost var ring := writebuf[..];
      var s := writebuf[writebufCur];
      writebuf[writebufCur] := s.(reg := s.reg % 0x200);
      assert writebuf[..] == ring[writebufCur := s.(reg := s.reg % 0x200)];
      w := WriteOf(s);
      CarriedSnoc(applied, done, writebufSamplecnt, w);
      WriteReg(writebuf[writebufCur].reg, writebuf[writebufCur].data);
      done := done + [w];
      writebufCur := (writebufCur + 1) % OPL_WRITEBUF_SIZE;
      pending := pending - 1;
    }

    /** The end of one sample: applies what is stamped for it, and counts it. */
    method Generate()
      requires Valid()
      modifies this`writebufCur, this`writebufSamplecnt, this`applied, this`done, this`pending, writebuf
      ensures Valid() && writebufSamplecnt == old(writebufSamplecnt) + 1
      ensures old(applied) <= applied && |done| == |applied|
      ensures forall k :: |old(applied)| <= k < |applied| ==>
                applied[k] == done[k] && done[k].at == old(writebufSamplecnt)
    {
      hide Pending, Segment, Flagged, At, Spaced, Carried;
      CarriedSame(applied, done);
      NothingPending(writebuf[..], writebufCur, pending, writebufSamplecnt, writebufLasttime);
      while writebuf[writebufCur].time <= writebufSamplecnt
        invariant Valid() && writebufCur < OPL_WRITEBUF_SIZE && pending <= OPL_WRITEBUF_SIZE
        invariant writebufSamplecnt == old(writebufSamplecnt) && old(applied) <= applied
        invariant |done| == |applied|
        invariant forall k :: |old(applied)| <= k < |applied| ==>
                    applied[k] == done[k] && done[k].at == old(writebufSamplecnt)
        decreases pending
      {
        NothingPending(writebuf[..], writebufCur, pending, writebufSamplecnt, writebufLasttime);
        if !Flagged(writebuf[writebufCur].reg) {
          break;
        }
        ghost var w := ApplyFirst();
      }
      NothingPending(writebuf[..], writebufCur, pending, writebufSamplecnt, writebufLasttime);
      TimePasses(writebuf[..], writebufCur, pending, writebufSamplecnt, writebufSamplecnt + 1, writebufLasttime);
      writebufSamplecnt := writebufSamplecnt + 1;
    }
  }

  lemma EndOfRing(start: nat, n: nat)
    requires n > 0
    ensures At(At(start, 1), n - 1) == At(start, n)
  {
    Shift(start, n - 1);
  }

  lemma SpacedSnoc(writes: seq<Write>, w: Write)
    requires Spaced(writes) && (writes != [] ==> w.at >= writes[|writes| - 1].at + OPL_WRITEBUF_DELAY)
    ensures Spaced(writes + [w])
  {
  }

  lemma CarriedSame(applied: seq<Write>, done: seq<Write>)
    requires Carried(applied, done)
    ensures |applied| == |done|
  {
  }

  lemma CarriedSnoc(applied: seq<Write>, done: seq<Write>, now: nat, w: Write)
    requires Carried(applied, done) && now <= w.at
    ensures Carried(applied + [Write(now, w.reg, w.data)], done + [w]) && |applied| == |done|
  {
  }

  /** One write more than the ring holds, with no sample between them: the first is applied at once,
      although it is stamped for later. */
  method OverflowIsEarly() returns (chip: Chip)
    ensures fresh(chip) && |chip.applied| == 1 && chip.applied[0].at == 0
    ensures |chip.submitted| == OPL_WRITEBUF_SIZE + 1 && chip.submitted[0].at == OPL_WRITEBUF_DELAY
    ensures chip.writebufSamplecnt == OPL_WRITEBUF_DELAY
  {
    hide Chip.Valid, Later;
    chip := new Chip();
    var i := 0;
    while i < OPL_WRITEBUF_SIZE
      invariant i <= OPL_WRITEBUF_SIZE && chip.Valid() && chip.pending == i == |chip.submitted|
      invariant fresh(chip) && fresh(chip.writebuf) && chip.applied == [] && chip.writebufSamplecnt == 0
      invariant i == 0 ==> chip.writebufLasttime == 0
      invariant i > 0 ==> chip.submitted[0].at == OPL_WRITEBUF_DELAY
    {
      FirstStamp(chip.writebufLasttime);
      chip.WriteRegBuffered(0, 0);
      i := i + 1;
    }
    chip.WriteRegBuffered(0, 0);
    FirstDone(chip);
  }

  lemma FirstDone(c: Chip)
    requires c.Valid() && c.applied != []
    ensures c.done != [] && c.submitted != [] && c.done[0] == c.submitted[0]
  {
    hide Pending, Segment, At, Spaced;
  }

  lemma FirstStamp(last: nat)
    ensures Later(last + OPL_WRITEBUF_DELAY, 0) == last + OPL_WRITEBUF_DELAY
  {
  }

  /** In every reachable state: exactly once, in order, no later than the stamp, and the stamps the
      delay apart. */
  lemma AppliedAreSubmitted(c: Chip, k: nat)
    requires c.Valid() && k < |c.applied|
    ensures k < |c.submitted| && c.applied[k].reg == c.submitted[k].reg && c.applied[k].data == c.submitted[k].data
    ensures c.applied[k].at <= c.submitted[k].at
    ensures k > 0 ==> c.submitted[k].at >= c.submitted[k - 1].at + OPL_WRITEBUF_DELAY
  {
    assert c.done[k] == c.submitted[k];
  }
}
