/** GIF image data at the byte level: bits packed into bytes, bytes cut into data
    sub-blocks (section 15 of GIF89a), and a reader for both. */
module GifBlocks {
  import opened Bits
  import opened Wrappers

  /** The complete bytes of a bit string. */
  function PackBytes(b: seq<bool>): (d: seq<byte>)
    ensures |d| == |b| / 8
  {
    if |b| < 8 then [] else BitsOfValue(b[..8]); [Value(b[..8])] + PackBytes(b[8..])
  }

  /** The complete bytes, then one zero-padded byte for the remaining bits, if any. */
  function Padded(b: seq<bool>): (d: seq<byte>)
    ensures |d| == (|b| + 7) / 8
  {
    var n := |b| / 8;
    if |b| == 8 * n then PackBytes(b)
    else
      BitsOfValue(b[8 * n..]);
      Pow2Grows(|b[8 * n..]|, 8);
      PackBytes(b) + [Value(b[8 * n..])]
  }

  /** Sub-blocks of 255 bytes, as they leave the packer when its buffer fills. */
  function FullBlocks(d: seq<byte>): seq<byte>
    requires |d| % 255 == 0
  {
    if d == [] then [] else FullBlocks(d[..|d| - 255]) + [255] + d[|d| - 255..]
  }

  /** Everything the encoder writes for one image's code stream b, from the first
      sub-block to the terminating zero. */
  function ImageData(b: seq<bool>): seq<byte> {
    var d, q := Padded(b), |b| / 2040 * 255;
    FullBlocks(d[..q]) + [|d| - q] + d[q..] + [0]
  }

  datatype Unframed = Unframed(data: seq<byte>, rest: seq<byte>)

  /** Section 15 of GIF89a: sub-blocks up to the block terminator, and what follows it. */
  function Unframe(s: seq<byte>): Option<Unframed> {
    if s == [] then None
    else
      var n: nat := s[0];
      if n == 0 then Some(Unframed([], s[1..]))
      else if |s| < 1 + n then None
      else
        match Unframe(s[1 + n..])
        case None => None
        case Some(u) => Some(Unframed(s[1..1 + n] + u.data, u.rest))
  }

  lemma {:induction false} ByteBitsAppend(a: seq<byte>, b: seq<byte>)
    ensures ByteBits(a + b) == ByteBits(a) + ByteBits(b)
  {
    if b == [] {
      assert a + b == a;
    } else {
      var c, last := b[..|b| - 1], b[|b| - 1];
      ByteBitsAppend(a, c);
      Assoc(a, c, [last]);
      assert b == c + [last];
      ByteBitsSnoc(a + c, last);
      ByteBitsSnoc(c, last);
      Assoc(ByteBits(a), ByteBits(c), BitsOf(last, 8));
    }
  }

  lemma ByteBitsOne(b: byte)
    ensures ByteBits([b]) == BitsOf(b, 8)
  {
    assert [b] == [] + [b];
    ByteBitsSnoc([], b);
  }

  /** Packing undoes the expansion of bytes into bits. */
  lemma {:induction false} PackOfBits(data: seq<byte>, tail: seq<bool>)
    requires |tail| < 8
    ensures PackBytes(ByteBits(data) + tail) == data
  {
    if data != [] {
      hide ByteBits, PackBytes, BitsOf, Value;
      var x, rest := data[0], data[1..];
      ByteBitsAppend([x], rest);
      ByteBitsOne(x);
      assert data == [x] + rest;
      Assoc(BitsOf(x, 8), ByteBits(rest), tail);
      PackOfBits(rest, tail);
      PackCons(BitsOf(x, 8), ByteBits(rest) + tail);
      ByteBack(x);
    } else {
      hide BitsOf;
    }
  }

  lemma PackCons(x: seq<bool>, rest: seq<bool>)
    requires |x| == 8
    ensures PackBytes(x + rest) == [Value(x)] + PackBytes(rest)
  {
    hide Value;
    assert (x + rest)[..8] == x && (x + rest)[8..] == rest;
  }

  lemma ByteBack(x: byte)
    ensures Value(BitsOf(x, 8)) == x
  {
    assert Pow2(8) == 256;
    ValueOfBits(x, 8);
  }

  lemma {:induction false} BitsOfPack(b: seq<bool>)
    ensures ByteBits(PackBytes(b)) == b[..8 * (|b| / 8)]
  {
    if |b| >= 8 {
      var d := PackBytes(b);
      BitsOfValue(b[..8]);
      BitsOfPack(b[8..]);
      ByteBitsAppend([d[0]], PackBytes(b[8..]));
      ByteBitsOne(d[0]);
    }
  }

  lemma {:induction false} BitsPadZero(v: nat, m: nat, n: nat)
    requires v < Pow2(m)
    ensures BitsOf(v, m + n) == BitsOf(v, m) + BitsOf(0, n)
  {
    SplitBits(0, v, m, n);
  }

  /** The padded bytes hold the bit string, followed by fewer than eight zero bits. */
  lemma BitsOfPadded(b: seq<bool>)
    ensures ByteBits(Padded(b)) == b + BitsOf(0, 8 * |Padded(b)| - |b|)
  {
    BitsOfPack(b);
    var n := |b| / 8;
    var t := b[8 * n..];
    assert b == b[..8 * n] + t;
    if t == [] {
      assert b + BitsOf(0, 0) == b;
    } else {
      BitsOfPaddedTail(b[..8 * n], t, PackBytes(b));
    }
  }

  lemma BitsOfPaddedTail(front: seq<bool>, t: seq<bool>, d: seq<byte>)
    requires ByteBits(d) == front && 0 < |t| < 8
    ensures Value(t) < 256
    ensures ByteBits(d + [Value(t)]) == front + t + BitsOf(0, 8 - |t|)
  {
    BitsOfValue(t);
    Pow2Grows(|t|, 8);
    assert Pow2(8) == 256;
    ByteBitsSnoc(d, Value(t));
    BitsPadZero(Value(t), |t|, 8 - |t|);
    assert front + (t + BitsOf(0, 8 - |t|)) == front + t + BitsOf(0, 8 - |t|);
  }

  lemma SmallByte(p: nat, n: nat)
    requires n < 8 && p < Pow2(n)
    ensures p < 256 && BitAnd(p, 0xFF) == p
  {
    hide BitAnd;
    Pow2Grows(n, 8);
    assert Pow2(8) == 256;
    AndMask(p, 8);
  }

  lemma PaddedOf(data: seq<byte>, p: nat, n: nat)
    requires n < 8 && p < Pow2(n)
    ensures p < 256 && BitAnd(p, 0xFF) == p
    ensures Padded(ByteBits(data) + BitsOf(p, n)) == data + if n == 0 then [] else [p]
  {
    hide BitAnd, Pow2, BitsOf, ByteBits, Value, PackBytes;
    SmallByte(p, n);
    PackOfBits(data, BitsOf(p, n));
    ValueOfBits(p, n);
    assert (ByteBits(data) + BitsOf(p, n))[8 * |data|..] == BitsOf(p, n);
  }

  lemma UnframeBlock(block: seq<byte>, s: seq<byte>, u: Unframed)
    requires 0 < |block| < 256 && Unframe(s) == Some(u)
    ensures Unframe([|block|] + block + s) == Some(Unframed(block + u.data, u.rest))
  {
    var s' := [|block|] + block + s;
    assert s'[1..1 + |block|] == block;
    assert s'[1 + |block|..] == s;
  }

  lemma {:induction false} UnframeFull(d: seq<byte>, s: seq<byte>, u: Unframed)
    requires |d| % 255 == 0
    requires Unframe(s) == Some(u)
    ensures Unframe(FullBlocks(d) + s) == Some(Unframed(d + u.data, u.rest))
  {
    if d == [] {
      assert FullBlocks(d) + s == s;
      assert d + u.data == u.data;
    } else {
      var front, last := d[..|d| - 255], d[|d| - 255..];
      UnframeBlock(last, s, u);
      UnframeFull(front, [255] + last + s, Unframed(last + u.data, u.rest));
      Assoc(FullBlocks(front), [255], last);
      Assoc(FullBlocks(front), [255] + last, s);
      assert d == front + last;
      Assoc(front, last, u.data);
    }
  }

  lemma UnframeEnd(tail: seq<byte>)
    ensures Unframe([0] + tail) == Some(Unframed([], tail))
  {
    assert ([0] + tail)[1..] == tail;
  }

  /** The reader gets back the packed bytes. What follows the terminator is left over,
      with one extra zero byte in front exactly when the code stream fills whole
      sub-blocks of 255 bytes. */
  lemma UnframeImageData(b: seq<bool>, tail: seq<byte>)
    ensures Unframe(ImageData(b) + tail)
         == Some(Unframed(Padded(b), (if |b| % 2040 == 0 then [0] else []) + tail))
  {
    var d, q := Padded(b), |b| / 2040 * 255;
    var front, last := d[..q], d[q..];
    assert d == front + last;
    assert ImageData(b) + tail == FullBlocks(front) + ([|last|] + last + ([0] + tail));
    UnframeEnd(tail);
    if last == [] {
      UnframeEnd([0] + tail);
      assert [|last|] + last + ([0] + tail) == [0] + ([0] + tail);
      UnframeFull(front, [0] + ([0] + tail), Unframed([], [0] + tail));
    } else {
      UnframeBlock(last, [0] + tail, Unframed([], tail));
      assert last + [] == last;
      UnframeFull(front, [|last|] + last + ([0] + tail), Unframed(last, tail));
      assert [] + tail == tail;
    }
  }
}
