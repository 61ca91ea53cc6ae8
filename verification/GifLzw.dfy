/** The variable-width LZW code of the GIF encoder, an Appendix F decoder that keeps
    its own code width, and the proof that the decoder recovers the pixels. */
module GifLzw {
  import opened Bits
  import opened GifBlocks
  import opened Wrappers

  /** The trie edge that creates a key: a phrase and the pixel that extends it. */
  datatype Entry = Entry(prefix: nat, pixel: nat)

  datatype Code = Code(key: nat, width: nat)

  /** Encoder state: what was emitted, the trie edges in creation order, the current
      code width and the key of the current node. */
  datatype Encoder = Encoder(codes: seq<Code>, entries: seq<Entry>, keySize: nat, node: nat)

  const MAX_KEYS: nat := 0x1000

  function Degree(depth: nat): (r: nat)
    ensures r > 0
  {
    Pow2(depth)
  }

  function NKeys(depth: nat, entries: seq<Entry>): nat {
    Degree(depth) + 2 + |entries|
  }

  /** The key reached from a node by a pixel: the trie lookup of the encoder. */
  function Child(depth: nat, entries: seq<Entry>, key: nat, pixel: nat): (r: Option<nat>)
    ensures r.Some? ==> Degree(depth) + 2 <= r.value < NKeys(depth, entries)
    ensures r.Some? ==> entries[r.value - Degree(depth) - 2] == Entry(key, pixel)
    ensures r.None? ==> Entry(key, pixel) !in entries
  {
    if entries == [] then None
    else
      var front := entries[..|entries| - 1];
      assert entries == front + [entries[|entries| - 1]];
      if entries[|entries| - 1] == Entry(key, pixel) then Some(NKeys(depth, front))
      else Child(depth, front, key, pixel)
  }

  /** A new trie, with the current node at a single pixel. */
  function Restart(depth: nat, codes: seq<Code>, pixel: nat): Encoder {
    Encoder(codes, [], depth + 1, pixel)
  }

  function Start(depth: nat, pixel: nat): Encoder {
    Restart(depth, [Code(Degree(depth), depth + 1)], pixel)
  }

  /** One pixel of the encoder's inner loop. */
  function Advance(depth: nat, e: Encoder, pixel: nat): Encoder {
    match Child(depth, e.entries, e.node, pixel)
    case Some(child) => e.(node := child)
    case None =>
      var nkeys := NKeys(depth, e.entries);
      var codes := e.codes + [Code(e.node, e.keySize)];
      if nkeys < MAX_KEYS then
        Encoder(codes, e.entries + [Entry(e.node, pixel)],
                if nkeys == Pow2(e.keySize) then e.keySize + 1 else e.keySize, pixel)
      else
        Restart(depth, codes + [Code(Degree(depth), e.keySize)], pixel)
  }

  function After(depth: nat, pixels: seq<nat>): Encoder
    requires pixels != []
  {
    if |pixels| == 1 then Start(depth, pixels[0])
    else Advance(depth, After(depth, pixels[..|pixels| - 1]), pixels[|pixels| - 1])
  }

  /** The codes that carry pixels, without the stop code. */
  function PixelCodes(depth: nat, pixels: seq<nat>): seq<Code>
    requires pixels != []
  {
    var e := After(depth, pixels);
    e.codes + [Code(e.node, e.keySize)]
  }

  /** Every code of one image: clear, pixels, stop. */
  function ImageCodes(depth: nat, pixels: seq<nat>): seq<Code>
    requires pixels != []
  {
    PixelCodes(depth, pixels) + [Code(Degree(depth) + 1, After(depth, pixels).keySize)]
  }

  function CodeBits(codes: seq<Code>): seq<bool> {
    if codes == [] then []
    else
      var last := codes[|codes| - 1];
      CodeBits(codes[..|codes| - 1]) + BitsOf(last.key, last.width)
  }

  lemma CodeBitsSnoc(codes: seq<Code>, c: Code)
    ensures CodeBits(codes + [c]) == CodeBits(codes) + BitsOf(c.key, c.width)
  {
    assert (codes + [c])[..|codes|] == codes;
  }

  /** Reads keys of the given widths, least significant bit first. */
  function ReadKeys(bits: seq<bool>, widths: seq<nat>): Option<seq<nat>> {
    if widths == [] then Some([])
    else if |bits| < widths[0] then None
    else
      match ReadKeys(bits[widths[0]..], widths[1..])
      case None => None
      case Some(keys) => Some([Value(bits[..widths[0]])] + keys)
  }

  function Widths(codes: seq<Code>): (w: seq<nat>)
    ensures |w| == |codes|
  {
    seq(|codes|, i requires 0 <= i < |codes| => codes[i].width)
  }

  function Keys(codes: seq<Code>): (k: seq<nat>)
    ensures |k| == |codes|
  {
    seq(|codes|, i requires 0 <= i < |codes| => codes[i].key)
  }

  lemma NoCodeBits(codes: seq<Code>)
    requires codes == []
    ensures CodeBits(codes) == []
  {
  }

  lemma {:induction false} CodeBitsCons(c: Code, codes: seq<Code>)
    ensures CodeBits([c] + codes) == BitsOf(c.key, c.width) + CodeBits(codes)
  {
    hide CodeBits, BitsOf;
    if codes == [] {
      NoCodeBits(codes);
      CodeBitsSnoc(codes, c);
      assert [c] + codes == codes + [c];
    } else {
      var front, last := codes[..|codes| - 1], codes[|codes| - 1];
      CodeBitsCons(c, front);
      CodeBitsSnoc([c] + front, last);
      CodeBitsSnoc(front, last);
      assert [c] + codes == [c] + front + [last] && codes == front + [last];
      Assoc(BitsOf(c.key, c.width), CodeBits(front), BitsOf(last.key, last.width));
    }
  }

  /** Any keys that fit their widths come back, whatever bits follow. */
  lemma {:induction false} KeysBack(codes: seq<Code>, tail: seq<bool>)
    requires forall i :: 0 <= i < |codes| ==> codes[i].key < Pow2(codes[i].width)
    ensures ReadKeys(CodeBits(codes) + tail, Widths(codes)) == Some(Keys(codes))
    decreases |codes|
  {
    if codes != [] {
      hide ReadKeys, CodeBits, BitsOf, Value, Widths, Keys;
      var c, rest := codes[0], codes[1..];
      var b := BitsOf(c.key, c.width);
      KeysBack(rest, tail);
      CodeBitsCons(c, rest);
      assert codes == [c] + rest;
      Assoc(b, CodeBits(rest), tail);
      ValueOfBits(c.key, c.width);
      CodesCons(c, rest);
      ReadKeysCons(b, CodeBits(rest) + tail, Widths(rest));
    }
  }

  lemma CodesCons(c: Code, rest: seq<Code>)
    ensures Widths([c] + rest) == [c.width] + Widths(rest) && Keys([c] + rest) == [c.key] + Keys(rest)
  {
  }

  lemma ReadKeysCons(b: seq<bool>, bits: seq<bool>, widths: seq<nat>)
    requires ReadKeys(bits, widths).Some?
    ensures ReadKeys(b + bits, [|b|] + widths) == Some([Value(b)] + ReadKeys(bits, widths).value)
  {
    hide Value;
    assert (b + bits)[..|b|] == b && (b + bits)[|b|..] == bits;
    assert ([|b|] + widths)[1..] == widths;
  }

  /** The same through the packer and the sub-blocks. */
  lemma KeysThroughBlocks(codes: seq<Code>, tail: seq<byte>)
    requires forall i :: 0 <= i < |codes| ==> codes[i].key < Pow2(codes[i].width)
    ensures var u := Unframe(ImageData(CodeBits(codes)) + tail);
            u.Some? && ReadKeys(ByteBits(u.value.data), Widths(codes)) == Some(Keys(codes))
  {
    hide Unframe, ReadKeys, CodeBits, ImageData;
    var b := CodeBits(codes);
    UnframeImageData(b, tail);
    BitsOfPadded(b);
    KeysBack(codes, BitsOf(0, 8 * |Padded(b)| - |b|));
  }

  // ---------- the decoder ----------

  datatype Status = Running | Stopped | Bad

  datatype Decoder = Decoder(table: seq<seq<nat>>, width: nat, prev: Option<seq<nat>>,
                             out: seq<nat>, status: Status)

  function Roots(n: nat): (t: seq<seq<nat>>)
    ensures |t| == n && forall k :: 0 <= k < n ==> t[k] == [k]
  {
    seq(n, k => [k])
  }

  /** Single pixels, and two unused rows for the clear and stop codes. */
  function FreshTable(depth: nat): seq<seq<nat>> {
    Roots(Degree(depth)) + [[], []]
  }

  function Fresh(depth: nat): Decoder {
    Decoder(FreshTable(depth), depth + 1, None, [], Running)
  }

  /** One code. The new row is only known once the next code has been read, so a code
      may name the row that is about to be added. */
  function Feed(depth: nat, d: Decoder, key: nat): Decoder {
    if d.status != Running then d
    else if key == Degree(depth) then
      d.(table := FreshTable(depth), width := depth + 1, prev := None)
    else if key == Degree(depth) + 1 then d.(status := Stopped)
    else if d.prev.None? then
      if key < |d.table| then d.(out := d.out + d.table[key], prev := Some(d.table[key]))
      else d.(status := Bad)
    else
      var p := d.prev.value;
      if key > |d.table| || p == [] || (key < |d.table| && d.table[key] == []) then d.(status := Bad)
      else
        var s := if key < |d.table| then d.table[key] else p + [p[0]];
        var table := if |d.table| < MAX_KEYS then d.table + [p + [s[0]]] else d.table;
        var width := if |table| == Pow2(d.width) && d.width < 12 then d.width + 1 else d.width;
        Decoder(table, width, Some(s), d.out + s, Running)
  }

  function FeedAll(depth: nat, codes: seq<Code>): Decoder {
    if codes == [] then Fresh(depth)
    else Feed(depth, FeedAll(depth, codes[..|codes| - 1]), codes[|codes| - 1].key)
  }

  /** Reads codes from a bit string, at the decoder's own width, until n pixels are out. */
  function ReadPixels(depth: nat, d: Decoder, bits: seq<bool>, n: nat): Option<seq<nat>>
    decreases |bits|
  {
    if |d.out| >= n then Some(d.out)
    else if d.status != Running || d.width == 0 || |bits| < d.width then None
    else ReadPixels(depth, Feed(depth, d, Value(bits[..d.width])), bits[d.width..], n)
  }

  // ---------- what the encoder's trie stands for ----------

  predicate ValidKey(depth: nat, entries: seq<Entry>, key: nat) {
    key < Degree(depth) || Degree(depth) + 2 <= key < NKeys(depth, entries)
  }

  ghost predicate WellFormed(depth: nat, entries: seq<Entry>) {
    forall i :: 0 <= i < |entries| ==>
      ValidKey(depth, entries[..i], entries[i].prefix) && entries[i].pixel < Degree(depth)
  }

  /** The phrase of a key. */
  ghost function Phrase(depth: nat, entries: seq<Entry>, key: nat): (s: seq<nat>)
    requires WellFormed(depth, entries) && ValidKey(depth, entries, key)
    ensures s != []
    decreases key
  {
    if key < Degree(depth) then [key]
    else
      var i := key - Degree(depth) - 2;
      assert ValidKey(depth, entries[..i], entries[i].prefix);
      Phrase(depth, entries, entries[i].prefix) + [entries[i].pixel]
  }

  lemma {:induction false} PhraseStable(depth: nat, entries: seq<Entry>, more: Entry, key: nat)
    requires WellFormed(depth, entries) && ValidKey(depth, entries, key)
    requires WellFormed(depth, entries + [more])
    ensures Phrase(depth, entries + [more], key) == Phrase(depth, entries, key)
    decreases key
  {
    if key >= Degree(depth) {
      var i := key - Degree(depth) - 2;
      assert ValidKey(depth, entries[..i], entries[i].prefix);
      assert (entries + [more])[i] == entries[i];
      PhraseStable(depth, entries, more, entries[i].prefix);
    }
  }

  lemma WellFormedExtend(depth: nat, entries: seq<Entry>, more: Entry)
    requires WellFormed(depth, entries)
    requires ValidKey(depth, entries, more.prefix) && more.pixel < Degree(depth)
    ensures WellFormed(depth, entries + [more])
  {
    var es := entries + [more];
    forall i | 0 <= i < |es|
      ensures ValidKey(depth, es[..i], es[i].prefix) && es[i].pixel < Degree(depth)
    {
      assert es[..i] == if i == |entries| then entries else entries[..i];
    }
  }

  /** The encoder's own invariant: keys fit the table and the current width. */
  ghost predicate Sound(depth: nat, e: Encoder) {
    && WellFormed(depth, e.entries)
    && ValidKey(depth, e.entries, e.node)
    && depth < e.keySize <= 12
    && NKeys(depth, e.entries) <= MAX_KEYS
    && NKeys(depth, e.entries) <= Pow2(e.keySize)
  }

  /** Rows of the decoder's table are the phrases of the keys below its length. */
  ghost predicate Mirrors(depth: nat, entries: seq<Entry>, table: seq<seq<nat>>)
    requires WellFormed(depth, entries)
  {
    && |table| <= NKeys(depth, entries)
    && forall k :: 0 <= k < |table| && ValidKey(depth, entries, k) ==>
         table[k] == Phrase(depth, entries, k)
  }

  /** The decoder is one row behind: it holds every phrase but the newest, and has yet
      to see the code of the phrase the encoder is building. */
  ghost predicate InStep(depth: nat, e: Encoder, d: Decoder)
    requires Sound(depth, e)
  {
    && d.status == Running && d.width == e.keySize
    && Mirrors(depth, e.entries, d.table)
    && if e.entries == [] then
         d.prev == None && d.table == FreshTable(depth) && e.node < Degree(depth) && d.width == depth + 1
       else
         var last := e.entries[|e.entries| - 1];
         && |d.table| == NKeys(depth, e.entries) - 1
         && ValidKey(depth, e.entries, last.prefix)
         && d.prev == Some(Phrase(depth, e.entries, last.prefix))
         && Phrase(depth, e.entries, e.node)[0] == last.pixel
  }

  /** Each code has the width the decoder will read it with, fits it, and is read
      before n pixels are out. */
  ghost predicate Lockstep(depth: nat, codes: seq<Code>, n: nat) {
    codes == [] ||
    var front, last := codes[..|codes| - 1], codes[|codes| - 1];
    var d := FeedAll(depth, front);
    && Lockstep(depth, front, n)
    && d.status == Running && d.width == last.width > 0
    && last.key < Pow2(last.width) && |d.out| < n
  }

  lemma FeedAllSnoc(depth: nat, codes: seq<Code>, c: Code)
    ensures FeedAll(depth, codes + [c]) == Feed(depth, FeedAll(depth, codes), c.key)
  {
    assert (codes + [c])[..|codes|] == codes;
  }

  lemma LockstepSnoc(depth: nat, codes: seq<Code>, c: Code, n: nat)
    requires Lockstep(depth, codes, n)
    requires var d := FeedAll(depth, codes);
             d.status == Running && d.width == c.width > 0 && c.key < Pow2(c.width) && |d.out| < n
    ensures Lockstep(depth, codes + [c], n)
  {
    assert (codes + [c])[..|codes|] == codes;
  }

  /** The code of the current phrase, whether or not the decoder has its row yet. */
  lemma FeedCurrent(depth: nat, e: Encoder, d: Decoder)
    requires depth >= 2 && Sound(depth, e) && InStep(depth, e, d)
    ensures var d' := Feed(depth, d, e.node);
            var s := Phrase(depth, e.entries, e.node);
            && d'.status == Running && d'.out == d.out + s && d'.prev == Some(s)
            && Mirrors(depth, e.entries, d'.table) && |d'.table| == NKeys(depth, e.entries)
            && d'.width == if NKeys(depth, e.entries) == Pow2(e.keySize) && e.keySize < 12
                           then e.keySize + 1 else e.keySize
  {
    var s := Phrase(depth, e.entries, e.node);
    if e.entries == [] {
      assert Pow2(depth + 1) == 2 * Degree(depth);
      Pow2Grows(1, depth);
      assert Pow2(1) == 2;
    } else {
      FeedLater(depth, e, d);
    }
  }

  /** The newest phrase is that of the row before, and the first pixel of the current one. */
  lemma FeedLater(depth: nat, e: Encoder, d: Decoder)
    requires depth >= 2 && Sound(depth, e) && InStep(depth, e, d) && e.entries != []
    ensures var s, p := Phrase(depth, e.entries, e.node), d.prev.value;
            && Phrase(depth, e.entries, NKeys(depth, e.entries) - 1) == p + [s[0]]
            && s == if e.node < |d.table| then d.table[e.node] else p + [p[0]]
  {
    var s, p, last := Phrase(depth, e.entries, e.node), d.prev.value, e.entries[|e.entries| - 1];
    if e.node == |d.table| {
      assert s == p + [last.pixel];
      assert s[0] == p[0];
    }
  }

  lemma MirrorsExtend(depth: nat, entries: seq<Entry>, more: Entry, table: seq<seq<nat>>)
    requires WellFormed(depth, entries) && WellFormed(depth, entries + [more])
    requires Mirrors(depth, entries, table)
    ensures Mirrors(depth, entries + [more], table)
  {
    forall k | 0 <= k < |table| && ValidKey(depth, entries + [more], k)
      ensures table[k] == Phrase(depth, entries + [more], k)
    {
      PhraseStable(depth, entries, more, k);
    }
  }

  /** The codes so far, decoded, plus the phrase in progress, are the pixels seen. */
  ghost predicate Follows(depth: nat, e: Encoder, d: Decoder, pixels: seq<nat>) {
    && Sound(depth, e) && InStep(depth, e, d)
    && d.out + Phrase(depth, e.entries, e.node) == pixels
  }

  ghost predicate Tracks(depth: nat, e: Encoder, pixels: seq<nat>, n: nat) {
    && Follows(depth, e, FeedAll(depth, e.codes), pixels)
    && Lockstep(depth, e.codes, n)
  }

  ghost predicate InRange(depth: nat, pixels: seq<nat>) {
    forall k :: 0 <= k < |pixels| ==> pixels[k] < Degree(depth)
  }

  lemma DegreeBounds(depth: nat)
    requires 2 <= depth <= 8
    ensures 4 <= Degree(depth) <= 256 && Pow2(depth + 1) == 2 * Degree(depth) && Pow2(12) == MAX_KEYS
  {
    assert Pow2(1) == 2 && Pow2(8) == 256;
    Pow2Grows(1, depth);
    if depth < 8 {
      Pow2Grows(depth, 8);
    }
  }

  lemma StartTracks(depth: nat, pixel: nat, n: nat)
    requires 2 <= depth <= 8 && pixel < Degree(depth) && n > 0
    ensures Tracks(depth, Start(depth, pixel), [pixel], n)
  {
    var c := Code(Degree(depth), depth + 1);
    DegreeBounds(depth);
    FeedAllSnoc(depth, [], c);
    LockstepSnoc(depth, [], c, n);
    assert [c] == [] + [c];
    assert [] + [pixel] == [pixel];
  }

  lemma ExtendFollows(depth: nat, e: Encoder, d: Decoder, pixels: seq<nat>, child: nat, pixel: nat)
    requires Follows(depth, e, d, pixels)
    requires Child(depth, e.entries, e.node, pixel) == Some(child)
    ensures Follows(depth, e.(node := child), d, pixels + [pixel])
  {
    var s := Phrase(depth, e.entries, e.node);
    assert Phrase(depth, e.entries, child) == s + [pixel];
    assert (d.out + s) + [pixel] == d.out + (s + [pixel]);
  }

  lemma EmitFollows(depth: nat, e: Encoder, d: Decoder, pixels: seq<nat>, pixel: nat)
    requires 2 <= depth <= 8 && pixel < Degree(depth)
    requires Follows(depth, e, d, pixels)
    requires Child(depth, e.entries, e.node, pixel).None? && NKeys(depth, e.entries) < MAX_KEYS
    ensures Follows(depth, Advance(depth, e, pixel), Feed(depth, d, e.node), pixels + [pixel])
  {
    hide Feed, Child, Mirrors, WellFormed;
    FeedCurrent(depth, e, d);
    var more := Entry(e.node, pixel);
    WellFormedExtend(depth, e.entries, more);
    MirrorsExtend(depth, e.entries, more, Feed(depth, d, e.node).table);
    PhraseStable(depth, e.entries, more, e.node);
    DegreeBounds(depth);
    if e.keySize == 12 {
      assert NKeys(depth, e.entries) != Pow2(e.keySize);
    }
  }

  lemma ResetFollows(depth: nat, e: Encoder, d: Decoder, pixels: seq<nat>, pixel: nat)
    requires 2 <= depth <= 8 && pixel < Degree(depth)
    requires Follows(depth, e, d, pixels)
    requires Child(depth, e.entries, e.node, pixel).None? && NKeys(depth, e.entries) >= MAX_KEYS
    ensures Feed(depth, d, e.node).width == e.keySize && Degree(depth) < Pow2(e.keySize)
    ensures Follows(depth, Advance(depth, e, pixel),
                    Feed(depth, Feed(depth, d, e.node), Degree(depth)), pixels + [pixel])
  {
    FeedCurrent(depth, e, d);
    DegreeBounds(depth);
    if e.keySize < 12 {
      Pow2Grows(e.keySize, 12);
    }
  }

  lemma EmitLockstep(depth: nat, e: Encoder, pixels: seq<nat>, n: nat)
    requires depth >= 2 && Tracks(depth, e, pixels, n) && |pixels| <= n
    ensures var codes := e.codes + [Code(e.node, e.keySize)];
            && Lockstep(depth, codes, n)
            && FeedAll(depth, codes) == Feed(depth, FeedAll(depth, e.codes), e.node)
            && FeedAll(depth, codes).status == Running && FeedAll(depth, codes).out == pixels
  {
    var c := Code(e.node, e.keySize);
    FeedCurrent(depth, e, FeedAll(depth, e.codes));
    FeedAllSnoc(depth, e.codes, c);
    LockstepSnoc(depth, e.codes, c, n);
  }

  lemma AdvanceTracks(depth: nat, e: Encoder, pixels: seq<nat>, pixel: nat, n: nat)
    requires 2 <= depth <= 8 && pixel < Degree(depth) && |pixels| < n
    requires Tracks(depth, e, pixels, n)
    ensures Tracks(depth, Advance(depth, e, pixel), pixels + [pixel], n)
  {
    var d := FeedAll(depth, e.codes);
    var child := Child(depth, e.entries, e.node, pixel);
    if child.Some? {
      ExtendFollows(depth, e, d, pixels, child.value, pixel);
    } else {
      EmitLockstep(depth, e, pixels, n);
      if NKeys(depth, e.entries) < MAX_KEYS {
        EmitFollows(depth, e, d, pixels, pixel);
      } else {
        ResetFollows(depth, e, d, pixels, pixel);
        var codes, clear := e.codes + [Code(e.node, e.keySize)], Code(Degree(depth), e.keySize);
        FeedAllSnoc(depth, codes, clear);
        LockstepSnoc(depth, codes, clear, n);
      }
    }
  }

  /** In lock-step after every non-empty prefix of the image. */
  lemma {:induction false} AlwaysTracks(depth: nat, pixels: seq<nat>, n: nat)
    requires 2 <= depth <= 8 && 0 < |pixels| <= n && InRange(depth, pixels)
    ensures Tracks(depth, After(depth, pixels), pixels, n)
  {
    hide Tracks;
    if |pixels| == 1 {
      StartTracks(depth, pixels[0], n);
      assert pixels == [pixels[0]];
    } else {
      var front, pixel := pixels[..|pixels| - 1], pixels[|pixels| - 1];
      AlwaysTracks(depth, front, n);
      AdvanceTracks(depth, After(depth, front), front, pixel, n);
      assert pixels == front + [pixel];
    }
  }

  lemma ReadOne(depth: nat, d: Decoder, c: Code, tail: seq<bool>, n: nat)
    requires d.status == Running && d.width == c.width > 0 && c.key < Pow2(c.width) && |d.out| < n
    ensures ReadPixels(depth, d, BitsOf(c.key, c.width) + tail, n)
         == ReadPixels(depth, Feed(depth, d, c.key), tail, n)
  {
    var b := BitsOf(c.key, c.width);
    assert (b + tail)[..c.width] == b && (b + tail)[c.width..] == tail;
    ValueOfBits(c.key, c.width);
  }

  lemma {:induction false} ReadLockstep(depth: nat, codes: seq<Code>, tail: seq<bool>, n: nat)
    requires Lockstep(depth, codes, n)
    ensures ReadPixels(depth, Fresh(depth), CodeBits(codes) + tail, n)
         == ReadPixels(depth, FeedAll(depth, codes), tail, n)
  {
    hide Feed;
    hide ReadPixels;
    if codes == [] {
      assert CodeBits(codes) + tail == tail;
    } else {
      var front, last := codes[..|codes| - 1], codes[|codes| - 1];
      var b := BitsOf(last.key, last.width);
      ReadLockstep(depth, front, b + tail, n);
      Assoc(CodeBits(front), b, tail);
      ReadOne(depth, FeedAll(depth, front), last, tail, n);
    }
  }

  /** The decoder recovers the pixels from the pixel codes, whatever bits follow. */
  lemma DecodeEncode(depth: nat, pixels: seq<nat>, tail: seq<bool>)
    requires 2 <= depth <= 8 && pixels != [] && InRange(depth, pixels)
    ensures ReadPixels(depth, Fresh(depth), CodeBits(PixelCodes(depth, pixels)) + tail, |pixels|)
         == Some(pixels)
  {
    AlwaysTracks(depth, pixels, |pixels|);
    EmitLockstep(depth, After(depth, pixels), pixels, |pixels|);
    ReadLockstep(depth, PixelCodes(depth, pixels), tail, |pixels|);
  }
}
