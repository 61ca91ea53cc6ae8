/** The sample mixer: what one channel feeds into the audio callbacks, and how a chunk
    is put on a channel. Volumes and effects change samples, never how many are used. */
module Mixer {
  import opened Bits

  /** Unsigned 32-bit tick counts wrap. */
  const TICKS: nat := 0x1_0000_0000

  datatype Fading = NoFading | FadingOut | FadingIn

  /** Every byte of m is the byte that endless repetition of the sound puts there. */
  predicate Cycles(m: seq<byte>, sound: seq<byte>)
    requires sound != []
  {
    forall k: nat :: k < |m| ==> m[k] == sound[k % |sound|]
  }

  lemma CyclesSnoc(m: seq<byte>, sound: seq<byte>, from: nat, n: nat)
    requires sound != [] && Cycles(m, sound)
    requires from + n <= |sound| && (|m| - from) % |sound| == 0 && from <= |m|
    ensures Cycles(m + sound[from..from + n], sound)
  {
    var t := m + sound[from..from + n];
    var q := (|m| - from) / |sound|;
    forall k: nat | k < |t| ensures t[k] == sound[k % |sound|] {
      if k >= |m| {
        assert k == q * |sound| + (from + k - |m|);
        DivModUnique(k, |sound|, q, from + k - |m|);
      }
    }
  }

  lemma MultipleMinus(a: int, b: int, d: nat)
    requires d > 0 && a % d == 0 && b % d == 0
    ensures (a - b) % d == 0 && (a + b) % d == 0
  {
    var p, q := a / d, b / d;
    assert a == d * p && b == d * q;
    assert a - b == d * (p - q) && a + b == d * (p + q);
    MultipleOf(p - q, d);
    MultipleOf(p + q, d);
  }

  lemma MultipleOf(q: int, d: nat)
    requires d > 0
    ensures d * q % d == 0
  {
    var r := d * q % d;
    var t := d * q / d;
    assert d * (q - t) == r;
    if q != t {
      MulFarFromZero(q - t, d);
    }
  }

  /** A whole number of frames. */
  predicate Whole(a: int, frame: nat) {
    frame > 0 && a % frame == 0
  }

  lemma WholePart(a: nat, d: nat) returns (w: nat)
    requires d > 0
    ensures Whole(w, d) && w <= a < w + d
  {
    w := d * (a / d);
    MultipleOf(a / d, d);
  }

  lemma WholeParts(a: int, b: int, frame: nat)
    requires Whole(a, frame) && Whole(b, frame)
    ensures Whole(a - b, frame) && Whole(a + b, frame)
  {
    MultipleMinus(a, b, frame);
  }

  function Min(a: nat, b: nat): nat {
    if a < b then a else b
  }

  class Chunk {
    const abuf: seq<byte>
    var alen: nat

    constructor (bytes: seq<byte>)
      ensures abuf == bytes && alen == |bytes|
    {
      abuf, alen := bytes, |bytes|;
    }

    /** The bytes that are played: whole frames only. */
    function Sound(): seq<byte>
      reads this`alen
      requires alen <= |abuf|
    {
      abuf[..alen]
    }

    /** checkchunkintegral: drop the bytes of an unfinished last frame. */
    method CheckIntegral(frame: nat) returns (length: nat)
      requires frame > 0 && alen <= |abuf|
      modifies this
      ensures length == alen <= old(alen) && Whole(alen, frame)
      ensures old(alen) - alen < frame && (Whole(old(alen), frame) ==> alen == old(alen))
    {
      hide Whole;
      ghost var base := WholePart(alen, frame);
      while !Whole(alen, frame)
        invariant base <= alen <= old(alen)
        invariant Whole(old(alen), frame) ==> alen == old(alen)
        decreases alen
      {
        alen := alen - 1;
      }
      return alen;
    }
  }

  class Channel {
    /** The width of one frame of the mixer's output format. */
    const frame: nat
    var chunk: Chunk?
    var playing: nat
    var looping: int
    /** Offset of the sample pointer in the chunk. */
    var samples: nat
    var paused: bool
    var expire: nat
    var fading: Fading
    var ticksFade: nat
    var fadeLength: nat
    /** Since the chunk was put on: the loop count asked for, the bytes fed so far, and whether the
        channel was cut off. */
    ghost var loops: int
    ghost var mixed: seq<byte>
    ghost var cut: bool

    ghost predicate Valid()
      reads this`chunk, this`playing, this`looping, this`samples, this`loops, this`mixed, this`cut, chunk
    {
      && frame > 0
      && (playing == 0 ==> looping == 0)
      && (chunk == null || cut ==> playing == 0)
      && (chunk != null ==> Fed(chunk) && (!cut ==> Placed(chunk)))
    }

    /** What was fed is the chunk over and over, in whole frames. */
    ghost predicate Fed(c: Chunk)
      reads this`mixed, c`alen
    {
      && 0 < c.alen <= |c.abuf| && Whole(c.alen, frame)
      && Cycles(mixed, c.Sound()) && Whole(|mixed|, frame)
    }

    /** Conservation: what was fed and what is still to come make up the chunk loops + 1 times. */
    ghost predicate Placed(c: Chunk)
      reads this`playing, this`looping, this`samples, this`loops, this`mixed, c`alen
    {
      && c.alen > 0 && samples + playing == c.alen && Whole(playing, frame)
      && samples <= |mixed| && (|mixed| - samples) % c.alen == 0
      && (if loops < 0 then looping == loops
          else looping >= 0 && |mixed| + playing + looping * c.alen == c.alen * (loops + 1))
    }

    /** The number of bytes the next callback of n bytes takes from this channel. */
    ghost function Due(n: nat): nat
      reads this`chunk, this`playing, this`looping, this`samples, this`loops, this`mixed, this`cut, chunk
      requires Valid()
    {
      if chunk == null || cut then 0
      else if loops < 0 then n
      else Min(n, chunk.alen * (loops + 1) - |mixed|)
    }

    constructor (width: nat)
      requires width > 0
      ensures Valid() && frame == width && chunk == null && !paused
    {
      frame, chunk, playing, looping, samples, paused := width, null, 0, 0, 0, false;
      expire, fading, ticksFade, fadeLength := 0, NoFading, 0, 0;
      loops, mixed, cut := 0, [], false;
    }

    /** Mix_PlayChannelTimed, once the channel is chosen. */
    method Put(c: Chunk, times: int, ticks: int, now: nat)
      requires frame > 0 && 0 < c.alen <= |c.abuf| && Whole(c.alen, frame)
      modifies this
      ensures Valid() && chunk == c && loops == times && mixed == [] && !cut && !paused
      ensures ticks <= 0 ==> forall t: nat :: !Stops(t)
      ensures ticks > 0 && now + ticks < TICKS ==> forall t: nat :: Stops(t) <==> t > now + ticks
      ensures ticks > 0 ==> expire == (now + ticks) % TICKS && fading == NoFading
    {
      assert Whole(0, frame);
      hide Whole, Cycles;
      OneMore(c.alen, times);
      NothingFed(c.Sound());
      samples, playing, looping, chunk := 0, c.alen, times, c;
      paused, fading := false, NoFading;
      expire := if ticks > 0 then (now + ticks) % TICKS else 0;
      loops, mixed, cut := times, [], false;
    }

    /** The stop that an expired delay or a finished fade-out makes. */
    method Cut()
      requires Valid()
      modifies this
      ensures Valid() && playing == 0 && (chunk != null ==> cut) && chunk == old(chunk) && mixed == old(mixed)
              && loops == old(loops) && paused == old(paused)
    {
      playing, looping, cut := 0, 0, true;
    }

    /** Mixing n bytes from the sample pointer on. */
    method Take(n: nat) returns (piece: seq<byte>)
      requires chunk != null && Fed(chunk) && Placed(chunk) && n <= playing && Whole(n, frame)
      modifies this`mixed, this`samples, this`playing
      ensures chunk != null && Fed(chunk) && Placed(chunk)
      ensures |piece| == n && mixed == old(mixed) + piece && playing == old(playing) - n
    {
      hide Whole, Cycles;
      piece := chunk.Sound()[samples..samples + n];
      CyclesSnoc(mixed, chunk.Sound(), samples, n);
      WholeParts(|mixed|, n, frame);
      WholeParts(playing, n, frame);
      mixed := mixed + piece;
      samples := samples + n;
      playing := playing - n;
    }

    /** Setting the sample pointer back to the start for one more loop. */
    method Rewind()
      requires chunk != null && Fed(chunk) && Placed(chunk) && playing == 0 && looping != 0
      modifies this`samples, this`playing, this`looping
      ensures chunk != null && Fed(chunk) && Placed(chunk) && playing == chunk.alen
      ensures looping == if old(looping) > 0 then old(looping) - 1 else old(looping)
    {
      hide Whole, Cycles;
      RewindPosition(|mixed|, chunk.alen);
      assert (looping - 1) * chunk.alen == looping * chunk.alen - chunk.alen;
      if looping > 0 {
        looping := looping - 1;
      }
      samples := 0;
      playing := chunk.alen;
    }

    /** The per-channel body of mix_channels for a buffer of len bytes: what it adds, in order,
        from the start of the buffer. */
    method Feed(len: nat) returns (fed: seq<byte>)
      requires Valid() && playing > 0 && Whole(len, frame)
      modifies this`mixed, this`samples, this`playing, this`looping
      ensures Valid() && mixed == old(mixed) + fed && |fed| == old(Due(len))
    {
      hide Whole, Cycles, Fed;
      var index := 0;
      fed := [];
      while playing > 0 && index < len
        invariant chunk != null && Fed(chunk) && Placed(chunk)
        invariant index == |fed| <= len && Whole(len - index, frame)
        invariant mixed == old(mixed) + fed
        decreases len - index
      {
        var remaining := len - index;
        var mixable := Min(playing, remaining);
        var piece := Take(mixable);
        WholeParts(remaining, mixable, frame);
        fed := fed + piece;
        index := index + mixable;
      }
      while looping != 0 && index < len
        invariant chunk != null && Fed(chunk) && Placed(chunk)
        invariant index == |fed| <= len && Whole(len - index, frame)
        invariant index < len ==> playing == 0
        invariant mixed == old(mixed) + fed
        decreases len - index
      {
        var remaining := Min(len - index, chunk.alen);
        AlenIsWhole();
        Rewind();
        var piece := Take(remaining);
        WholeParts(len - index, remaining, frame);
        fed := fed + piece;
        index := index + remaining;
      }
      LeftOver(looping, chunk.alen);
      if playing == 0 && looping != 0 {
        Rewind();
      }
    }

    /** Whether the next pass of the mixer at this time stops the channel. */
    ghost predicate Stops(now: nat)
      reads this
    {
      if 0 < expire < now then true
      else fading == FadingOut && (now - ticksFade) % TICKS >= fadeLength
    }

    /** One pass of mix_channels over this channel. */
    method Mix(len: nat, now: nat) returns (fed: seq<byte>)
      requires Valid() && Whole(len, frame)
      modifies this
      ensures Valid() && chunk == old(chunk) && loops == old(loops) && paused == old(paused)
      ensures mixed == old(mixed) + fed
      ensures |fed| == old(if paused || Stops(now) then 0 else Due(len))
      ensures chunk != null ==> cut == old(cut || (!paused && Stops(now)))
    {
      hide Whole, Cycles, Fed, Placed, Due;
      fed := [];
      if playing == 0 {
        SilentOwesNothing(len);
      }
      if !paused {
        if expire > 0 && expire < now {
          Cut();
          fading, expire := NoFading, 0;
        } else if fading != NoFading {
          var ticks := (now - ticksFade) % TICKS;
          if ticks >= fadeLength {
            if fading == FadingOut {
              Cut();
              expire := 0;
            }
            fading := NoFading;
          }
        }
        if playing > 0 {
          fed := Feed(len);
        }
      }
    }

    lemma SilentOwesNothing(n: nat)
      requires Valid() && playing == 0
      ensures Due(n) == 0
    {
      hide Whole, Cycles, Fed;
      if chunk != null && !cut {
        LeftOver(looping, chunk.alen);
      }
    }

    lemma AlenIsWhole()
      requires chunk != null && Fed(chunk)
      ensures Whole(chunk.alen, frame)
    {
    }
  }

  function Repeat(sound: seq<byte>, n: nat): seq<byte> {
    if n == 0 then [] else Repeat(sound, n - 1) + sound
  }

  lemma CycleAt(m: seq<byte>, sound: seq<byte>, q: nat, i: nat)
    requires sound != [] && Cycles(m, sound) && i < |sound| && q * |sound| + i < |m|
    ensures m[q * |sound| + i] == sound[i]
  {
    DivModUnique(q * |sound| + i, |sound|, q, i);
  }

  lemma LastRound(m: seq<byte>, sound: seq<byte>, q: nat, k: nat)
    requires sound != [] && Cycles(m, sound) && k == q * |sound| && |m| == k + |sound|
    ensures m == m[..k] + sound
  {
    hide Cycles;
    forall i: nat | i < |sound| ensures m[k + i] == sound[i] {
      CycleAt(m, sound, q, i);
    }
    assert m[k..] == sound;
  }

  lemma {:induction false} CyclesRepeat(m: seq<byte>, sound: seq<byte>, n: nat)
    requires sound != [] && Cycles(m, sound) && |m| == |sound| * n
    ensures m == Repeat(sound, n)
  {
    if n > 0 {
      var k := |sound| * (n - 1);
      assert |m| == k + |sound|;
      CyclesRepeat(m[..k], sound, n - 1);
      LastRound(m, sound, n - 1, k);
    }
  }

  /** A channel that falls silent without being cut off has fed the chunk exactly loops + 1 times. */
  lemma WholeSound(ch: Channel)
    requires ch.Valid() && ch.chunk != null && !ch.cut && ch.playing == 0
    ensures ch.loops >= 0 && ch.mixed == Repeat(ch.chunk.Sound(), ch.loops + 1)
  {
    hide Whole, Cycles;
    CyclesRepeat(ch.mixed, ch.chunk.Sound(), ch.loops + 1);
  }

  /** However the callbacks split the time, equally many bytes of one chunk are the same bytes. */
  lemma SplitsAgree(a: Channel, b: Channel)
    requires a.Valid() && b.Valid() && a.chunk == b.chunk != null && |a.mixed| <= |b.mixed|
    ensures a.mixed == b.mixed[..|a.mixed|]
  {
  }

  class Output {
    const frame: nat
    const channels: seq<Channel>
    var reserved: nat

    ghost predicate Valid()
      reads this, channels, set i | 0 <= i < |channels| :: channels[i].chunk
    {
      && frame > 0 && reserved <= |channels|
      && (forall i :: 0 <= i < |channels| ==> channels[i].Valid() && channels[i].frame == frame)
      && (forall i, j :: 0 <= i < j < |channels| ==> channels[i] != channels[j])
    }

    /** Mix_PlayChannelTimed: -1 asks for the first free channel that is not reserved. */
    method PlayChannelTimed(which: int, chunk: Chunk?, loops: int, ticks: int, now: nat) returns (r: int)
      requires Valid() && (chunk != null ==> chunk.alen <= |chunk.abuf|)
      modifies channels, chunk
      ensures Valid()
      ensures chunk == null || chunk.alen == 0 ==> r == -1 && forall i :: 0 <= i < |channels| ==> unchanged(channels[i])
      ensures chunk != null && chunk.alen > 0 && which != -1 ==> r == which
      ensures chunk != null && chunk.alen > 0 && which == -1 ==>
                if r == -1 then forall i :: reserved <= i < |channels| ==> old(channels[i].playing) > 0
                else reserved <= r < |channels| && old(channels[r].playing) == 0
                     && forall i :: reserved <= i < r ==> old(channels[i].playing) > 0
      ensures 0 <= r < |channels| ==>
                && channels[r].chunk == chunk && channels[r].loops == loops
                && channels[r].mixed == [] && !channels[r].cut && !channels[r].paused
                && (ticks <= 0 ==> forall t: nat :: !channels[r].Stops(t))
                && (ticks > 0 && now + ticks < TICKS ==> forall t: nat :: channels[r].Stops(t) <==> t > now + ticks)
      ensures forall i :: 0 <= i < |channels| && i != r ==> unchanged(channels[i])
      ensures chunk != null ==> Whole(chunk.alen, frame) && old(chunk.alen) - frame < chunk.alen <= old(chunk.alen)
    {
      hide Whole, Cycles, Channel.Fed, Channel.Placed;
      if chunk == null {
        return -1;
      }
      forall i | 0 <= i < |channels| && channels[i].chunk == chunk ensures Whole(chunk.alen, frame) {
        channels[i].AlenIsWhole();
      }
      var length := chunk.CheckIntegral(frame);
      if length == 0 {
        return -1;
      }
      r := which;
      if which == -1 {
        var i := reserved;
        while i < |channels| && channels[i].playing != 0
          invariant reserved <= i <= |channels|
          invariant forall k :: reserved <= k < i ==> channels[k].playing > 0
          modifies {}
        {
          i := i + 1;
        }
        r := if i == |channels| then -1 else i;
      }
      if 0 <= r < |channels| {
        channels[r].Put(chunk, loops, ticks, now);
      }
    }

    /** mix_channels: every channel is passed once, in order. */
    method MixChannels(len: nat, now: nat) returns (fed: seq<seq<byte>>)
      requires Valid() && Whole(len, frame)
      modifies channels
      ensures Valid() && |fed| == |channels|
      ensures forall i :: 0 <= i < |channels| ==>
                && channels[i].chunk == old(channels[i].chunk) && channels[i].loops == old(channels[i].loops)
                && channels[i].mixed == old(channels[i].mixed) + fed[i]
                && |fed[i]| == old(if channels[i].paused || channels[i].Stops(now) then 0 else channels[i].Due(len))
    {
      hide Whole, Cycles, Channel.Valid, Channel.Due, Channel.Stops;
      fed := [];
      var i := 0;
      while i < |channels|
        invariant 0 <= i <= |channels| && |fed| == i
        invariant forall j :: 0 <= j < |channels| ==> channels[j].Valid() && channels[j].chunk == old(channels[j].chunk)
        invariant forall j :: 0 <= j < i ==>
                    && channels[j].loops == old(channels[j].loops)
                    && channels[j].mixed == old(channels[j].mixed) + fed[j]
                    && |fed[j]| == old(if channels[j].paused || channels[j].Stops(now) then 0 else channels[j].Due(len))
        invariant forall j :: i <= j < |channels| ==> unchanged(channels[j])
      {
        var piece := channels[i].Mix(len, now);
        fed := fed + [piece];
        i := i + 1;
      }
    }
  }

  lemma NothingFed(sound: seq<byte>)
    requires sound != []
    ensures Cycles([], sound)
  {
  }

  lemma OneMore(alen: nat, times: int)
    ensures alen + times * alen == alen * (times + 1)
  {
  }

  lemma LeftOver(loops: int, alen: nat)
    ensures loops >= 0 ==> loops * alen >= 0
    ensures loops == 0 ==> loops * alen == 0
  {
  }

  lemma RewindPosition(n: nat, d: nat)
    requires d > 0 && (n - d) % d == 0
    ensures n % d == 0
  {
    assert d % d == 0;
    MultipleMinus(n - d, d, d);
  }
}
