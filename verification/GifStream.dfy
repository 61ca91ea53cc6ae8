/** The GIF file as a viewer sees it: the bytes of each block the encoder writes, and a
    reader that composites every decoded rectangle onto one canvas. */
module GifStream {
  import opened Bits
  import opened GifBlocks
  import opened GifLzw
  import opened Wrappers

  datatype Box = Box(w: nat, h: nat, x: nat, y: nat)

  /** A gw by gh picture, row by row. */
  ghost predicate Sized<T>(c: seq<T>, gw: nat, gh: nat) {
    gw > 0 && gh > 0 && |c| == gw * gh
  }

  predicate Inside(b: Box, gw: nat, gh: nat) {
    b.w > 0 && b.x + b.w <= gw && b.y + b.h <= gh
  }

  function MaskPixel(depth: nat, p: byte): (r: nat)
    ensures r < Degree(depth)
  {
    p % Degree(depth)
  }

  function Masked(depth: nat, frame: seq<byte>): (m: seq<nat>)
    ensures |m| == |frame| && InRange(depth, m)
  {
    seq(|frame|, k requires 0 <= k < |frame| => MaskPixel(depth, frame[k]))
  }

  /** Position of row i, column j. */
  function At(gw: nat, i: nat, j: nat): nat {
    i * gw + j
  }

  lemma RowFits(gw: nat, gh: nat, i: nat)
    requires i < gh
    ensures 0 <= At(gw, i, 0) && At(gw, i, gw) <= gw * gh
  {
    assert (i + 1) * gw <= gh * gw;
  }

  function Row<T>(c: seq<T>, gw: nat, gh: nat, x: nat, w: nat, i: nat): (r: seq<T>)
    requires Sized(c, gw, gh) && x + w <= gw && i < gh
    ensures |r| == w
  {
    RowFits(gw, gh, i);
    c[At(gw, i, x)..At(gw, i, x) + w]
  }

  function NextRow(b: Box): Box
    requires b.h > 0
  {
    b.(y := b.y + 1, h := b.h - 1)
  }

  /** The pixels of a box, in row order. */
  function Rect<T>(c: seq<T>, gw: nat, gh: nat, b: Box): (r: seq<T>)
    requires Sized(c, gw, gh) && Inside(b, gw, gh)
    ensures b.h > 0 ==> r != []
    decreases b.h
  {
    if b.h == 0 then []
    else Row(c, gw, gh, b.x, b.w, b.y) + Rect(c, gw, gh, NextRow(b))
  }

  function PaintRow(c: seq<nat>, gw: nat, gh: nat, b: Box, row: seq<nat>): (r: seq<nat>)
    requires Sized(c, gw, gh) && Inside(b, gw, gh) && b.h > 0 && |row| == b.w
    ensures |r| == |c|
  {
    RowFits(gw, gh, b.y);
    var at := At(gw, b.y, b.x);
    c[..at] + row + c[at + b.w..]
  }

  /** Writes the pixels of a box onto the canvas, row by row. */
  function Paint(c: seq<nat>, gw: nat, gh: nat, b: Box, pixels: seq<nat>): (r: Option<seq<nat>>)
    requires Sized(c, gw, gh) && Inside(b, gw, gh)
    ensures r.Some? ==> |r.value| == |c|
    decreases b.h
  {
    if b.h == 0 then Some(c)
    else if |pixels| < b.w then None
    else Paint(PaintRow(c, gw, gh, b, pixels[..b.w]), gw, gh, NextRow(b), pixels[b.w..])
  }

  lemma PaintOneRow(c: seq<nat>, gw: nat, gh: nat, b: Box, m: seq<nat>)
    requires Sized(c, gw, gh) && Sized(m, gw, gh) && Inside(b, gw, gh) && b.h > 0
    ensures var r := PaintRow(c, gw, gh, b, Row(m, gw, gh, b.x, b.w, b.y));
            && (forall k :: 0 <= k < |c| ==> r[k] == m[k] || r[k] == c[k])
            && forall j :: b.x <= j < b.x + b.w ==>
                 At(gw, b.y, j) < |c| && r[At(gw, b.y, j)] == m[At(gw, b.y, j)]
  {
    RowFits(gw, gh, b.y);
    var row := Row(m, gw, gh, b.x, b.w, b.y);
    var at := At(gw, b.y, b.x);
    var r := PaintRow(c, gw, gh, b, row);
    forall k | 0 <= k < |c|
      ensures r[k] == if at <= k < at + b.w then m[k] else c[k]
    {
      if at <= k < at + b.w {
        assert r[k] == row[k - at];
      }
    }
  }

  /** Painting a box of a picture turns each position inside into the picture's, and
      leaves the others alone. */
  lemma {:induction false} PaintRect(c: seq<nat>, gw: nat, gh: nat, b: Box, m: seq<nat>)
    requires Sized(c, gw, gh) && Sized(m, gw, gh) && Inside(b, gw, gh)
    ensures var r := Paint(c, gw, gh, b, Rect(m, gw, gh, b));
            && r.Some?
            && (forall k :: 0 <= k < |c| ==> r.value[k] == m[k] || r.value[k] == c[k])
            && forall i, j :: b.y <= i < b.y + b.h && b.x <= j < b.x + b.w ==>
                 At(gw, i, j) < |c| && r.value[At(gw, i, j)] == m[At(gw, i, j)]
    decreases b.h
  {
    hide PaintRow, At;
    if b.h > 0 {
      var row := Row(m, gw, gh, b.x, b.w, b.y);
      var c' := PaintRow(c, gw, gh, b, row);
      var pixels := Rect(m, gw, gh, b);
      assert pixels[..b.w] == row && pixels[b.w..] == Rect(m, gw, gh, NextRow(b));
      PaintOneRow(c, gw, gh, b, m);
      PaintRect(c', gw, gh, NextRow(b), m);
    }
  }

  // ---------- what the encoder writes ----------

  function Num(n: nat): seq<byte>
    requires n < 0x10000
  {
    [n % 256, n / 256]
  }

  ghost predicate Encodable(depth: nat, frame: seq<byte>, gw: nat, gh: nat) {
    2 <= depth <= 8 && gw < 0x10000 && gh < 0x10000 && Sized(frame, gw, gh)
  }

  /** The code stream of one box of a frame. */
  function BoxBits(depth: nat, frame: seq<byte>, gw: nat, gh: nat, b: Box): seq<bool>
    requires Encodable(depth, frame, gw, gh) && Inside(b, gw, gh) && b.h > 0
  {
    CodeBits(ImageCodes(depth, Rect(Masked(depth, frame), gw, gh, b)))
  }

  /** Image descriptor, code size and image data of one box of a frame. */
  function ImageBytes(depth: nat, frame: seq<byte>, gw: nat, gh: nat, b: Box): seq<byte>
    requires Encodable(depth, frame, gw, gh) && Inside(b, gw, gh) && b.h > 0
  {
    [0x2C] + Num(b.x) + Num(b.y) + Num(b.w) + Num(b.h) + [0x00, depth]
    + ImageData(BoxBits(depth, frame, gw, gh, b))
  }

  /** The graphic control extension that carries a delay. */
  function DelayBytes(delay: nat): seq<byte>
    requires delay < 0x10000
  {
    if delay == 0 then [] else [0x21, 0xF9, 0x04, 0x04] + Num(delay) + [0x00, 0x00]
  }

  function FrameBytes(depth: nat, frame: seq<byte>, gw: nat, gh: nat, b: Box, delay: nat): seq<byte>
    requires Encodable(depth, frame, gw, gh) && Inside(b, gw, gh) && b.h > 0 && delay < 0x10000
  {
    DelayBytes(delay) + ImageBytes(depth, frame, gw, gh, b)
  }

  // ---------- the viewer ----------

  /** A picture on show, and for how many hundredths of a second. */
  datatype Picture = Picture(canvas: seq<nat>, delay: nat)

  /** What a viewer knows: size, colour table, how often to repeat, what is drawn, the delay announced
      for the next picture, and the pictures shown so far. */
  datatype Screen = Screen(gw: nat, gh: nat, colours: seq<byte>, loops: Option<nat>,
                           canvas: seq<nat>, delay: nat, shown: seq<Picture>)

  /** The canvas is on show for the delay announced, and for the next picture none is. */
  function Shown(screen: Screen, canvas: seq<nat>): Screen {
    screen.(canvas := canvas, delay := 0, shown := screen.shown + [Picture(canvas, screen.delay)])
  }

  ghost predicate GoodScreen(s: Screen) {
    Sized(s.canvas, s.gw, s.gh)
  }

  function Word(lo: nat, hi: nat): nat {
    lo + 256 * hi
  }

  datatype Read = Read(screen: Screen, rest: seq<byte>)

  /** Sections 20 and 22 of GIF89a: descriptor, code size, image data. No local colour
      table, no interlacing, which the encoder never asks for. */
  function ReadImage(s: seq<byte>, screen: Screen): (r: Option<Read>)
    requires GoodScreen(screen)
    ensures r.Some? ==> |r.value.rest| < |s| && GoodScreen(r.value.screen)
  {
    if |s| < 11 || s[9] != 0 then None
    else
      var b := Box(Word(s[5], s[6]), Word(s[7], s[8]), Word(s[1], s[2]), Word(s[3], s[4]));
      var depth: nat := s[10];
      match Unframe(s[11..])
      case None => None
      case Some(u) =>
        UnframeShrinks(s[11..]);
        if !Inside(b, screen.gw, screen.gh) then None
        else
          match ReadPixels(depth, Fresh(depth), ByteBits(u.data), b.w * b.h)
          case None => None
          case Some(pixels) =>
            match Paint(screen.canvas, screen.gw, screen.gh, b, pixels)
            case None => None
            case Some(c) =>
              Some(Read(Shown(screen, c), u.rest))
  }

  /** The data of an extension. Section 23: a graphic control extension announces the delay of the next
      picture; this viewer leaves pictures in place and draws every colour, so it accepts no other
      disposal, no transparency and no waiting for the user. Section 26: of the application extensions
      it knows the one that repeats the animation. Others are skipped. */
  function Control(kind: byte, size: byte, data: seq<byte>, screen: Screen): Option<Screen> {
    if kind == 0xF9 then
      if size != 4 || |data| != 4 || data[0] / 4 % 8 > 1 || data[0] % 4 != 0 then None
      else Some(screen.(delay := Word(data[1], data[2])))
    else if kind == 0xFF && size == 11 && |data| == 14 && data[..11] == NETSCAPE && data[11] == 1 then
      Some(screen.(loops := Some(Word(data[12], data[13]))))
    else Some(screen)
  }

  /** One block: an image, an extension, or a stray terminator (skipped). */
  function ReadBlock(s: seq<byte>, screen: Screen): (r: Option<Read>)
    requires s != [] && GoodScreen(screen)
    ensures r.Some? ==> |r.value.rest| < |s| && GoodScreen(r.value.screen)
  {
    if s[0] == 0x2C then ReadImage(s, screen)
    else if s[0] == 0x00 then Some(Read(screen, s[1..]))
    else if s[0] == 0x21 && |s| >= 3 then
      match Unframe(s[2..])
      case None => None
      case Some(u) =>
        UnframeShrinks(s[2..]);
        match Control(s[1], s[2], u.data, screen)
        case None => None
        case Some(after) => Some(Read(after, u.rest))
    else None
  }

  datatype View = View(screen: Screen, closed: bool)

  /** The blocks after the header, up to the trailer or the end of what is written. */
  function ReadBlocks(s: seq<byte>, screen: Screen): Option<View>
    requires GoodScreen(screen)
    decreases |s|
  {
    if s == [] then Some(View(screen, false))
    else if s[0] == 0x3B then Some(View(screen, true))
    else
      match ReadBlock(s, screen)
      case None => None
      case Some(r) => ReadBlocks(r.rest, r.screen)
  }

  lemma {:induction false} UnframeShrinks(s: seq<byte>)
    ensures Unframe(s).Some? ==> |Unframe(s).value.rest| < |s|
    decreases |s|
  {
    if s != [] {
      var n: nat := s[0];
      if 0 < n < |s| {
        UnframeShrinks(s[1 + n..]);
      }
    }
  }

  // ---------- reading what was written ----------

  lemma {:induction false} UnframeAppend(s: seq<byte>, t: seq<byte>)
    requires Unframe(s).Some?
    ensures Unframe(s + t) == Some(Unframe(s).value.(rest := Unframe(s).value.rest + t))
    decreases |s|
  {
    var n: nat := s[0];
    if n == 0 {
      assert (s + t)[1..] == s[1..] + t;
    } else {
      assert (s + t)[1 + n..] == s[1 + n..] + t;
      assert (s + t)[1..1 + n] == s[1..1 + n];
      UnframeAppend(s[1 + n..], t);
    }
  }

  lemma ReadBlockAppend(s: seq<byte>, t: seq<byte>, screen: Screen)
    requires s != [] && GoodScreen(screen) && ReadBlock(s, screen).Some?
    ensures var r := ReadBlock(s, screen).value;
            ReadBlock(s + t, screen) == Some(r.(rest := r.rest + t))
  {
    hide Unframe, ReadPixels, Paint, Control, Shown;
    if s[0] == 0x2C {
      assert (s + t)[11..] == s[11..] + t;
      UnframeAppend(s[11..], t);
    } else if s[0] == 0x00 {
      assert (s + t)[1..] == s[1..] + t;
    } else {
      assert (s + t)[2..] == s[2..] + t;
      UnframeAppend(s[2..], t);
    }
  }

  /** Reading is incremental: appended blocks are read where the earlier ones stopped. */
  lemma {:induction false} ReadBlocksAppend(s: seq<byte>, t: seq<byte>, screen: Screen, mid: Screen)
    requires GoodScreen(screen) && GoodScreen(mid)
    requires ReadBlocks(s, screen) == Some(View(mid, false))
    ensures ReadBlocks(s + t, screen) == ReadBlocks(t, mid)
    decreases |s|
  {
    hide ReadBlock;
    if s == [] {
      assert s + t == t;
    } else {
      var r := ReadBlock(s, screen).value;
      ReadBlockAppend(s, t, screen);
      ReadBlocksAppend(r.rest, t, r.screen, mid);
    }
  }

  lemma {:induction false} RectSize<T>(c: seq<T>, gw: nat, gh: nat, b: Box)
    requires Sized(c, gw, gh) && Inside(b, gw, gh)
    ensures |Rect(c, gw, gh, b)| == b.w * b.h
    decreases b.h
  {
    hide At;
    if b.h > 0 {
      RectSize(c, gw, gh, NextRow(b));
      assert b.w * b.h == b.w + b.w * (b.h - 1);
    }
  }

  lemma RowInRange(depth: nat, m: seq<nat>, gw: nat, gh: nat, b: Box)
    requires Sized(m, gw, gh) && Inside(b, gw, gh) && InRange(depth, m) && b.h > 0
    ensures InRange(depth, Row(m, gw, gh, b.x, b.w, b.y))
  {
    hide Degree;
    RowFits(gw, gh, b.y);
  }

  lemma {:induction false} RectInRange(depth: nat, m: seq<nat>, gw: nat, gh: nat, b: Box)
    requires Sized(m, gw, gh) && Inside(b, gw, gh) && InRange(depth, m)
    ensures InRange(depth, Rect(m, gw, gh, b))
    decreases b.h
  {
    hide Degree, At;
    if b.h > 0 {
      RowInRange(depth, m, gw, gh, b);
      RectInRange(depth, m, gw, gh, NextRow(b));
    }
  }

  /** From bytes back to pixels: sub-blocks, bits, codes. */
  lemma DecodeImageData(depth: nat, pixels: seq<nat>)
    requires 2 <= depth <= 8 && pixels != [] && InRange(depth, pixels)
    ensures var b := CodeBits(ImageCodes(depth, pixels));
            var u := Unframe(ImageData(b));
            && u.Some? && u.value.rest == (if |b| % 2040 == 0 then [0] else [])
            && ReadPixels(depth, Fresh(depth), ByteBits(u.value.data), |pixels|) == Some(pixels)
  {
    hide ReadPixels, Padded, ByteBits, PixelCodes, ImageData, Unframe, BitsOf, Feed;
    var codes, last := PixelCodes(depth, pixels), Code(Degree(depth) + 1, After(depth, pixels).keySize);
    var b := CodeBits(ImageCodes(depth, pixels));
    var stop, pad := BitsOf(last.key, last.width), BitsOf(0, 8 * |Padded(b)| - |b|);
    assert ImageCodes(depth, pixels)[..|codes|] == codes;
    assert b == CodeBits(codes) + stop;
    UnframeImageData(b, []);
    assert ImageData(b) + [] == ImageData(b);
    BitsOfPadded(b);
    Assoc(CodeBits(codes), stop, pad);
    DecodeEncode(depth, pixels, stop + pad);
  }

  lemma ReadNothing(screen: Screen, zero: bool)
    requires GoodScreen(screen)
    ensures ReadBlocks(if zero then [0] else [], screen) == Some(View(screen, false))
  {
    assert [0][1..] == [];
  }

  lemma DescriptorOf(depth: nat, b: Box, data: seq<byte>)
    requires depth < 256 && b.x < 0x10000 && b.y < 0x10000 && b.w < 0x10000 && b.h < 0x10000
    ensures var s := [0x2C] + Num(b.x) + Num(b.y) + Num(b.w) + Num(b.h) + [0x00, depth] + data;
            && |s| >= 11 && s[0] == 0x2C && s[9] == 0 && s[10] == depth && s[11..] == data
            && b == Box(Word(s[5], s[6]), Word(s[7], s[8]), Word(s[1], s[2]), Word(s[3], s[4]))
  {
  }

  /** An image block read back paints the frame's box onto the canvas. */
  lemma ReadImageBytes(depth: nat, frame: seq<byte>, gw: nat, gh: nat, b: Box, screen: Screen)
    requires Encodable(depth, frame, gw, gh) && Inside(b, gw, gh) && b.h > 0
    requires GoodScreen(screen) && screen.gw == gw && screen.gh == gh
    ensures var m := Masked(depth, frame);
            var painted := Paint(screen.canvas, gw, gh, b, Rect(m, gw, gh, b));
            && painted.Some?
            && ReadBlocks(ImageBytes(depth, frame, gw, gh, b), screen)
            == Some(View(Shown(screen, painted.value), false))
  {
    hide ReadPixels, Unframe, ImageData, CodeBits, ImageCodes, Paint, Rect, ByteBits, Num, Word, Fresh;
    var m := Masked(depth, frame);
    var pixels := Rect(m, gw, gh, b);
    RectSize(m, gw, gh, b);
    RectInRange(depth, m, gw, gh, b);
    var bits := CodeBits(ImageCodes(depth, pixels));
    DescriptorOf(depth, b, ImageData(bits));
    DecodeImageData(depth, pixels);
    PaintRect(screen.canvas, gw, gh, b, m);
    var painted := Paint(screen.canvas, gw, gh, b, pixels);
    ReadNothing(Shown(screen, painted.value), |bits| % 2040 == 0);
  }

  /** The delay bytes announce exactly the delay asked for, and none when there is none. */
  lemma ReadDelay(delay: nat, screen: Screen)
    requires delay < 0x10000 && GoodScreen(screen) && screen.delay == 0
    ensures ReadBlocks(DelayBytes(delay), screen) == Some(View(screen.(delay := delay), false))
  {
    if delay != 0 {
      hide Unframe, Num;
      var s, block := DelayBytes(delay), [0x04] + Num(delay) + [0x00];
      assert s[2..] == [0x04] + block + [0x00];
      UnframeFour(block);
      NumIs(delay);
      assert ReadBlock(s, screen) == Some(Read(screen.(delay := delay), []));
    }
  }

  lemma UnframeFour(block: seq<byte>)
    requires |block| == 4
    ensures Unframe([0x04] + block + [0x00]) == Some(Unframed(block, []))
  {
    assert [0x00] == [0] + [] && block + [] == block;
    UnframeEnd([]);
    UnframeBlock(block, [0x00], Unframed([], []));
  }

  lemma NumIs(n: nat)
    requires n < 0x10000
    ensures |Num(n)| == 2 && Word(Num(n)[0], Num(n)[1]) == n
  {
  }

  /** Everywhere the two pictures differ lies inside the box. */
  ghost predicate Covers(frame: seq<byte>, back: seq<byte>, gw: nat, gh: nat, b: Box)
    requires Sized(frame, gw, gh) && Sized(back, gw, gh)
  {
    forall i, j | 0 <= i < gh && 0 <= j < gw ::
      At(gw, i, j) < |frame| && frame[At(gw, i, j)] != back[At(gw, i, j)] ==>
      b.y <= i < b.y + b.h && b.x <= j < b.x + b.w
  }

  lemma RowAndColumn(gw: nat, gh: nat, k: nat) returns (i: nat, j: nat)
    requires gw > 0 && k < gw * gh
    ensures i < gh && j < gw && k == At(gw, i, j)
  {
    i, j := k / gw, k % gw;
    MulMono(gh, i, gw);
  }

  /** Painting only the box that covers the changes is painting the whole frame. */
  lemma PaintCovered(depth: nat, frame: seq<byte>, back: seq<byte>, gw: nat, gh: nat, b: Box)
    requires Encodable(depth, frame, gw, gh) && Sized(back, gw, gh) && Inside(b, gw, gh)
    requires Covers(frame, back, gw, gh, b)
    ensures var m := Masked(depth, frame);
            Paint(Masked(depth, back), gw, gh, b, Rect(m, gw, gh, b)) == Some(m)
  {
    hide Paint, Rect;
    var m, c := Masked(depth, frame), Masked(depth, back);
    PaintRect(c, gw, gh, b, m);
    var r := Paint(c, gw, gh, b, Rect(m, gw, gh, b)).value;
    forall k | 0 <= k < |m|
      ensures r[k] == m[k]
    {
      if frame[k] == back[k] {
        assert c[k] == m[k];
      } else {
        var i, j := RowAndColumn(gw, gh, k);
      }
    }
    assert r == m;
  }

  lemma PaintWhole(depth: nat, frame: seq<byte>, gw: nat, gh: nat, c: seq<nat>)
    requires Encodable(depth, frame, gw, gh) && Sized(c, gw, gh)
    ensures var m := Masked(depth, frame);
            Paint(c, gw, gh, Box(gw, gh, 0, 0), Rect(m, gw, gh, Box(gw, gh, 0, 0))) == Some(m)
  {
    hide Paint, Rect;
    var m, b := Masked(depth, frame), Box(gw, gh, 0, 0);
    PaintRect(c, gw, gh, b, m);
    var r := Paint(c, gw, gh, b, Rect(m, gw, gh, b)).value;
    forall k | 0 <= k < |m|
      ensures r[k] == m[k]
    {
      var i, j := RowAndColumn(gw, gh, k);
    }
    assert r == m;
  }

  /** What one frame adds to the file makes a viewer show that frame next, for the delay asked for, when
      the box is the whole picture or covers the changes since what the canvas shows. */
  lemma ReadFrame(depth: nat, frame: seq<byte>, back: seq<byte>, gw: nat, gh: nat, b: Box,
                  delay: nat, screen: Screen)
    requires Encodable(depth, frame, gw, gh) && Sized(back, gw, gh) && delay < 0x10000
    requires Inside(b, gw, gh) && b.h > 0
    requires GoodScreen(screen) && screen.gw == gw && screen.gh == gh && screen.delay == 0
    requires b == Box(gw, gh, 0, 0)
          || (screen.canvas == Masked(depth, back) && Covers(frame, back, gw, gh, b))
    ensures ReadBlocks(FrameBytes(depth, frame, gw, gh, b, delay), screen)
         == Some(View(Shown(screen.(delay := delay), Masked(depth, frame)), false))
  {
    hide ReadBlocks, Paint, Rect, ImageBytes, DelayBytes, Shown;
    var next := screen.(delay := delay);
    ReadDelay(delay, screen);
    ReadImageBytes(depth, frame, gw, gh, b, next);
    ReadBlocksAppend(DelayBytes(delay), ImageBytes(depth, frame, gw, gh, b), screen, next);
    if b == Box(gw, gh, 0, 0) {
      PaintWhole(depth, frame, gw, gh, screen.canvas);
    } else {
      PaintCovered(depth, frame, back, gw, gh, b);
    }
  }

  // ---------- the file ----------

  function Blank(gw: nat, gh: nat, colours: seq<byte>): (s: Screen)
    requires gw > 0 && gh > 0
    ensures GoodScreen(s) && s.gw == gw && s.gh == gh && s.colours == colours
    ensures s.loops == None && s.delay == 0 && s.shown == []
  {
    Screen(gw, gh, colours, None, seq(gw * gh, _ => 0), 0, [])
  }

  /** Sections 17 to 19 of GIF89a, then the blocks. */
  function ReadFile(s: seq<byte>): Option<View> {
    if |s| < 13 || s[..6] != SIGNATURE then None
    else
      var gw, gh, flags: nat := Word(s[6], s[7]), Word(s[8], s[9]), s[10];
      var table := 13 + if flags >= 128 then 3 * Pow2(flags % 8 + 1) else 0;
      if gw == 0 || gh == 0 || |s| < table then None
      else ReadBlocks(s[table..], Blank(gw, gh, s[13..table]))
  }

  /** "GIF89a" */
  const SIGNATURE: seq<byte> := [0x47, 0x49, 0x46, 0x38, 0x39, 0x61]

  /** A header announcing a colour table of 2^bits entries. */
  function HeaderBytes(gw: nat, gh: nat, bits: nat, table: seq<byte>): seq<byte>
    requires gw < 0x10000 && gh < 0x10000 && 1 <= bits <= 8
  {
    SIGNATURE + Num(gw) + Num(gh) + [0xF0 + (bits - 1), 0x00, 0x00] + table
  }

  /** The application extension that makes viewers repeat the animation. */
  function LoopBytes(loop: int): seq<byte> {
    if 0 <= loop <= 0xFFFF then
      [0x21, 0xFF, 0x0B] + NETSCAPE + [0x03, 0x01] + Num(loop) + [0x00]
    else []
  }

  /** "NETSCAPE2.0" */
  const NETSCAPE: seq<byte> := [0x4E, 0x45, 0x54, 0x53, 0x43, 0x41, 0x50, 0x45, 0x32, 0x2E, 0x30]

  /** A viewer repeats as often as asked for, if that is a number of 16 bits. */
  function Looped(screen: Screen, loop: int): Screen {
    if 0 <= loop <= 0xFFFF then screen.(loops := Some(loop)) else screen
  }

  lemma ReadLoop(loop: int, screen: Screen)
    requires GoodScreen(screen)
    ensures ReadBlocks(LoopBytes(loop), screen) == Some(View(Looped(screen, loop), false))
  {
    if 0 <= loop <= 0xFFFF {
      var s, block := LoopBytes(loop), [0x01] + Num(loop);
      var t := [0x03] + block + [0x00];
      assert s[2..] == [0x0B] + NETSCAPE + t;
      assert [0x00] == [0] + [];
      UnframeEnd([]);
      UnframeBlock(block, [0x00], Unframed([], []));
      UnframeBlock(NETSCAPE, t, Unframed(block + [], []));
      var data := NETSCAPE + block;
      assert block + [] == block && data[..11] == NETSCAPE;
      assert data[11] == 1 && Word(data[12], data[13]) == loop;
      assert ReadBlock(s, screen) == Some(Read(Looped(screen, loop), []));
    }
  }

  lemma ReadHeader(gw: nat, gh: nat, bits: nat, table: seq<byte>, blocks: seq<byte>)
    requires 0 < gw < 0x10000 && 0 < gh < 0x10000 && 1 <= bits <= 8 && |table| == 3 * Pow2(bits)
    ensures ReadFile(HeaderBytes(gw, gh, bits, table) + blocks) == ReadBlocks(blocks, Blank(gw, gh, table))
  {
    hide ReadBlocks, Blank, Pow2, Num, Word, HeaderBytes;
    HeaderParts(gw, gh, bits, table, blocks);
  }

  lemma HeaderParts(gw: nat, gh: nat, bits: nat, table: seq<byte>, blocks: seq<byte>)
    requires gw < 0x10000 && gh < 0x10000 && 1 <= bits <= 8
    ensures var s := HeaderBytes(gw, gh, bits, table) + blocks;
            && |s| >= 13 + |table| && s[..6] == SIGNATURE && Word(s[6], s[7]) == gw && Word(s[8], s[9]) == gh
            && s[10] == 0xF0 + (bits - 1) && s[13..13 + |table|] == table && s[13 + |table|..] == blocks
  {
    hide Num, Word;
    NumIs(gw);
    NumIs(gh);
    var s := HeaderBytes(gw, gh, bits, table) + blocks;
    assert s[6..8] == Num(gw) && s[8..10] == Num(gh);
  }

  /** Reading a file with more blocks appended continues from the view of the file. */
  lemma ReadFileAppend(s: seq<byte>, t: seq<byte>, mid: Screen)
    requires ReadFile(s) == Some(View(mid, false)) && GoodScreen(mid)
    ensures ReadFile(s + t) == ReadBlocks(t, mid)
  {
    hide ReadBlocks, Blank, Pow2;
    var gw, gh, flags: nat := Word(s[6], s[7]), Word(s[8], s[9]), s[10];
    var table := 13 + if flags >= 128 then 3 * Pow2(flags % 8 + 1) else 0;
    ReadBlocksAppend(s[table..], t, Blank(gw, gh, s[13..table]), mid);
    assert (s + t)[table..] == s[table..] + t && (s + t)[13..table] == s[13..table];
    assert (s + t)[..6] == s[..6];
  }
}
