/** The stop code is written without the width step that follows every other code, so a
    reader that waits for it can run out of data. When, exactly. */
module GifStopCode {
  import opened Bits
  import opened GifBlocks
  import opened GifLzw
  import opened Wrappers

  /** A decoder that accepts an image only once it has read the stop code. */
  function ReadToStop(depth: nat, d: Decoder, bits: seq<bool>): Option<seq<nat>>
    decreases |bits|
  {
    if d.status == Stopped then Some(d.out)
    else if d.status != Running || d.width == 0 || |bits| < d.width then None
    else ReadToStop(depth, Feed(depth, d, Value(bits[..d.width])), bits[d.width..])
  }

  /** The encoder has just used the last key of its width: the decoder widens, the stop
      code does not, and no padding bit follows it. */
  predicate StopCodeCut(depth: nat, pixels: seq<nat>)
    requires pixels != []
  {
    var e := After(depth, pixels);
    && NKeys(depth, e.entries) == Pow2(e.keySize) && e.keySize < 12
    && |CodeBits(ImageCodes(depth, pixels))| % 8 == 0
  }

  lemma ReadOneToStop(depth: nat, d: Decoder, key: nat, tail: seq<bool>)
    requires d.status == Running && d.width > 0 && key < Pow2(d.width)
    ensures ReadToStop(depth, d, BitsOf(key, d.width) + tail)
         == ReadToStop(depth, Feed(depth, d, key), tail)
  {
    var b := BitsOf(key, d.width);
    assert (b + tail)[..d.width] == b && (b + tail)[d.width..] == tail;
    ValueOfBits(key, d.width);
  }

  lemma {:induction false} ReadLockstepToStop(depth: nat, codes: seq<Code>, tail: seq<bool>, n: nat)
    requires Lockstep(depth, codes, n)
    ensures ReadToStop(depth, Fresh(depth), CodeBits(codes) + tail)
         == ReadToStop(depth, FeedAll(depth, codes), tail)
  {
    hide Feed;
    hide ReadToStop;
    if codes == [] {
      assert CodeBits(codes) + tail == tail;
    } else {
      var front, last := codes[..|codes| - 1], codes[|codes| - 1];
      var b := BitsOf(last.key, last.width);
      ReadLockstepToStop(depth, front, b + tail, n);
      Assoc(CodeBits(front), b, tail);
      ReadOneToStop(depth, FeedAll(depth, front), last.key, tail);
    }
  }

  /** The end of the stream, read by a decoder of width keySize or one more. */
  lemma ReadStop(depth: nat, d: Decoder, keySize: nat, pad: nat)
    requires d.status == Running && Degree(depth) + 1 < Pow2(keySize) && keySize > 0
    requires d.width == keySize || d.width == keySize + 1
    ensures ReadToStop(depth, d, BitsOf(Degree(depth) + 1, keySize) + BitsOf(0, pad))
         == if d.width == keySize || pad > 0 then Some(d.out) else None
  {
    var stop := Degree(depth) + 1;
    if d.width == keySize {
      ReadOneToStop(depth, d, stop, BitsOf(0, pad));
    } else if pad > 0 {
      BitsPadZero(stop, keySize, 1);
      SplitBits(0, 0, 1, pad - 1);
      Assoc(BitsOf(stop, keySize), BitsOf(0, 1), BitsOf(0, pad - 1));
      ReadOneToStop(depth, d, stop, BitsOf(0, pad - 1));
    } else {
      assert BitsOf(stop, keySize) + BitsOf(0, 0) == BitsOf(stop, keySize);
    }
  }

  /** Waiting for the stop code recovers the image exactly when the code is not cut. */
  lemma StopCodeReadIff(depth: nat, pixels: seq<nat>)
    requires 2 <= depth <= 8 && pixels != [] && InRange(depth, pixels)
    ensures ReadToStop(depth, Fresh(depth), ByteBits(Padded(CodeBits(ImageCodes(depth, pixels)))))
         == if StopCodeCut(depth, pixels) then None else Some(pixels)
  {
    hide ReadToStop;
    hide Padded;
    hide Lockstep, FeedAll, After, BitsOf, CodeBits, ByteBits, Pow2;
    var e := After(depth, pixels);
    var codes := PixelCodes(depth, pixels);
    var stop := BitsOf(Degree(depth) + 1, e.keySize);
    var b := CodeBits(ImageCodes(depth, pixels));
    var pad := 8 * |Padded(b)| - |b|;
    CodeBitsSnoc(codes, Code(Degree(depth) + 1, e.keySize));
    BitsOfPadded(b);
    Assoc(CodeBits(codes), stop, BitsOf(0, pad));
    LastCode(depth, pixels);
    ReadLockstepToStop(depth, codes, stop + BitsOf(0, pad), |pixels|);
    ReadStop(depth, FeedAll(depth, codes), e.keySize, pad);
  }

  lemma LastCode(depth: nat, pixels: seq<nat>)
    requires 2 <= depth <= 8 && pixels != [] && InRange(depth, pixels)
    ensures var e, d := After(depth, pixels), FeedAll(depth, PixelCodes(depth, pixels));
            && Lockstep(depth, PixelCodes(depth, pixels), |pixels|)
            && d.status == Running && d.out == pixels
            && (d.width == if NKeys(depth, e.entries) == Pow2(e.keySize) && e.keySize < 12
                           then e.keySize + 1 else e.keySize)
            && Degree(depth) + 1 < Pow2(e.keySize) && e.keySize > 0
  {
    var e := After(depth, pixels);
    AlwaysTracks(depth, pixels, |pixels|);
    EmitLockstep(depth, e, pixels, |pixels|);
    FeedCurrent(depth, e, FeedAll(depth, e.codes));
  }

  function Ramp(n: nat): (s: seq<nat>)
    ensures |s| == n && forall k :: 0 <= k < n ==> s[k] == k
  {
    seq(n, k => k)
  }

  lemma {:induction false} RampCodes(depth: nat, n: nat)
    requires depth == 7 && 1 <= n <= 127
    ensures var e := After(depth, Ramp(n));
            && e.keySize == 8 && e.node == n - 1 && |e.entries| == n - 1
            && (forall i :: 0 <= i < n - 1 ==> e.entries[i] == Entry(i, i + 1))
            && |CodeBits(e.codes)| == 8 * n
  {
    hide CodeBits, BitsOf, Pow2;
    DegreeBounds(depth);
    Pow2Of7(depth);
    if n == 1 {
      NoCodeBits([]);
      CodeBitsSnoc([], Code(128, 8));
      assert [Code(128, 8)] == [] + [Code(128, 8)];
    } else {
      RampCodes(depth, n - 1);
      assert Ramp(n)[..n - 1] == Ramp(n - 1);
      var e := After(depth, Ramp(n - 1));
      CodeBitsSnoc(e.codes, Code(e.node, 8));
    }
  }

  lemma Pow2Of7(depth: nat)
    requires depth == 7
    ensures Degree(depth) == 128 && Pow2(depth + 1) == 256
  {
    assert Pow2(7) == 128;
  }

  /** A 127-pixel image of depth 7 whose stop code is cut: each pixel a new phrase. */
  lemma RampIsCut(depth: nat, n: nat)
    requires depth == 7 && n == 127
    ensures InRange(depth, Ramp(n)) && StopCodeCut(depth, Ramp(n))
    ensures ReadToStop(depth, Fresh(depth), ByteBits(Padded(CodeBits(ImageCodes(depth, Ramp(n)))))) == None
  {
    hide ReadToStop, Padded, ByteBits, CodeBits, After, BitsOf, Degree, Pow2;
    Pow2Of7(depth);
    RampCodes(depth, n);
    var e := After(depth, Ramp(n));
    CodeBitsSnoc(e.codes, Code(e.node, 8));
    CodeBitsSnoc(PixelCodes(depth, Ramp(n)), Code(129, 8));
    StopCodeReadIff(depth, Ramp(n));
  }
}
