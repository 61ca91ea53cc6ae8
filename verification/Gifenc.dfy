/** The GIF encoder object: bit packer, trie, image writer and frame differ. */
module Gifenc {
  import opened Bits
  import opened GifBlocks
  import opened GifLzw
  import opened GifStream
  import opened Wrappers

  /** A trie node. A pixel with no child yet has a null entry. */
  class Node {
    const key: nat
    const children: array<Node?>

    constructor (key: nat, degree: nat)
      ensures this.key == key && fresh(children) && children.Length == degree
      ensures forall p :: 0 <= p < degree ==> children[p] == null
    {
      this.key := key;
      children := new Node?[degree](_ => null);
    }
  }

  ghost function Footprint(root: Node, nodes: map<nat, Node>): set<object> {
    {root.children} + set k | k in nodes :: nodes[k].children
  }

  /** The heap nodes stand for the trie edges: a child pointer is the lookup. */
  ghost predicate Trie(depth: nat, entries: seq<Entry>, root: Node, nodes: map<nat, Node>)
    reads Footprint(root, nodes)
  {
    && (forall k :: k in nodes <==> ValidKey(depth, entries, k))
    && root.children.Length == Degree(depth)
    && (forall k :: k in nodes ==> nodes[k].key == k && nodes[k].children.Length == Degree(depth)
                                   && nodes[k].children != root.children)
    && (forall k, l :: k in nodes && l in nodes && k != l ==> nodes[k].children != nodes[l].children)
    && (forall p :: 0 <= p < Degree(depth) ==> root.children[p] == nodes[p])
    && (forall k, p :: k in nodes && 0 <= p < Degree(depth) ==>
          nodes[k].children[p] ==
            match Child(depth, entries, k, p) case None => null case Some(c) => nodes[c])
  }

  lemma ChildExtend(depth: nat, entries: seq<Entry>, more: Entry, key: nat, pixel: nat)
    ensures Child(depth, entries + [more], key, pixel)
         == if more == Entry(key, pixel) then Some(NKeys(depth, entries)) else Child(depth, entries, key, pixel)
  {
    assert (entries + [more])[..|entries|] == entries;
  }

  /** A trie with one node per single pixel; two keys are skipped. */
  method NewTrie(depth: nat) returns (root: Node, nkeys: nat, ghost nodes: map<nat, Node>)
    ensures Trie(depth, [], root, nodes) && nkeys == NKeys(depth, [])
    ensures fresh(Footprint(root, nodes))
  {
    var degree := Degree(depth);
    root := new Node(0, degree);
    nodes := map[];
    nkeys := 0;
    while nkeys < degree
      invariant nkeys <= degree && fresh(root.children) && root.children.Length == degree
      invariant forall k :: k in nodes <==> 0 <= k < nkeys
      invariant forall k :: k in nodes ==>
        && nodes[k].key == k && fresh(nodes[k].children) && nodes[k].children.Length == degree
        && nodes[k].children != root.children && root.children[k] == nodes[k]
      invariant forall k, p :: k in nodes && 0 <= p < degree ==> nodes[k].children[p] == null
      invariant forall k, l :: k in nodes && l in nodes && k != l ==> nodes[k].children != nodes[l].children
    {
      var node := new Node(nkeys, degree);
      root.children[nkeys] := node;
      nodes := nodes[nkeys := node];
      nkeys := nkeys + 1;
    }
    nkeys := nkeys + 2;
  }

  /** The pending bits with a key placed above them. */
  lemma OrBits(p: nat, key: nat, s: nat, n: nat)
    requires p < Pow2(s) && key < Pow2(n)
    ensures var v := BitOr(p, key * Pow2(s));
            v < Pow2(s + n) && BitsOf(v, s + n) == BitsOf(p, s) + BitsOf(key, n)
  {
    hide BitOr, Pow2, BitsOf;
    OrDisjoint(p, key, s);
    SplitBits(key, p, s, n);
    Pow2Sum(s, n);
    ProductBound(p, key, Pow2(s), Pow2(n));
  }

  lemma ProductBound(p: nat, key: nat, a: nat, b: nat)
    requires p < a && key < b
    ensures p + key * a < a * b
  {
    MulMono(key + 1, b, a);
  }

  lemma LowByte(v: nat, n: nat)
    requires n >= 8 && v < Pow2(n)
    ensures BitAnd(v, 0xFF) == v % 256 && v / 256 < Pow2(n - 8)
    ensures BitsOf(v, n) == BitsOf(v % 256, 8) + BitsOf(v / 256, n - 8)
  {
    assert Pow2(8) == 256;
    AndMask(v, 8);
    Pow2Sum(8, n - 8);
    SplitBits(v / 256, v % 256, 8, n - 8);
  }

  lemma FullBlocksSnoc(d: seq<byte>, block: seq<byte>)
    requires |d| % 255 == 0 && |block| == 255
    ensures FullBlocks(d + block) == FullBlocks(d) + [255] + block
  {
    assert (d + block)[..|d|] == d && (d + block)[|d|..] == block;
  }

  /** A new child under a node; its key is the next one. */
  method AddChild(depth: nat, ghost entries: seq<Entry>, root: Node, ghost nodes: map<nat, Node>,
                  node: Node, pixel: nat, nkeys: nat)
    returns (ghost nodes': map<nat, Node>)
    requires WellFormed(depth, entries) && Trie(depth, entries, root, nodes)
    requires node.key in nodes && nodes[node.key] == node && pixel < Degree(depth)
    requires nkeys == NKeys(depth, entries) && Child(depth, entries, node.key, pixel).None?
    modifies node.children
    ensures Trie(depth, entries + [Entry(node.key, pixel)], root, nodes')
    ensures fresh(Footprint(root, nodes') - Footprint(root, nodes))
    ensures nodes' == nodes[nkeys := nodes'[nkeys]]
  {
    var child := new Node(nkeys, Degree(depth));
    node.children[pixel] := child;
    nodes' := nodes[nkeys := child];
    ghost var more := Entry(node.key, pixel);
    forall k, p | k in nodes' && 0 <= p < Degree(depth)
      ensures nodes'[k].children[p] ==
        match Child(depth, entries + [more], k, p) case None => null case Some(c) => nodes'[c]
    {
      ChildExtend(depth, entries, more, k, p);
      if k == nkeys {
        NoChildYet(depth, entries, k, p);
      }
    }
  }

  lemma TrieNode(depth: nat, entries: seq<Entry>, root: Node, nodes: map<nat, Node>, key: nat)
    requires Trie(depth, entries, root, nodes) && key in nodes
    ensures nodes[key].key == key
  {
  }

  lemma NoChildYet(depth: nat, entries: seq<Entry>, key: nat, pixel: nat)
    requires WellFormed(depth, entries) && key == NKeys(depth, entries)
    ensures Child(depth, entries, key, pixel).None?
  {
    forall i | 0 <= i < |entries|
      ensures entries[i].prefix != key
    {
      assert ValidKey(depth, entries[..i], entries[i].prefix);
    }
  }

  lemma AfterSnoc(depth: nat, seen: seq<nat>, pixel: nat)
    ensures After(depth, seen + [pixel])
         == if seen == [] then Start(depth, pixel) else Advance(depth, After(depth, seen), pixel)
  {
    assert (seen + [pixel])[..|seen|] == seen;
  }

  lemma PixelAt(depth: nat, frame: seq<byte>, gw: nat, gh: nat, b: Box, i: nat, j: nat)
    requires Sized(frame, gw, gh) && Inside(b, gw, gh)
    requires b.y <= i < b.y + b.h && b.x <= j < b.x + b.w
    ensures 0 <= i * gw + j < |frame|
    ensures var p := BitAnd(frame[i * gw + j], Degree(depth) - 1);
            p < Degree(depth) && p == Row(Masked(depth, frame), gw, gh, b.x, b.w, i)[j - b.x]
  {
    hide BitAnd;
    RowFits(gw, gh, i);
    AndMask(frame[i * gw + j], depth);
  }

  lemma {:induction false} RectSnoc(m: seq<nat>, gw: nat, gh: nat, b: Box, i: nat)
    requires Sized(m, gw, gh) && Inside(b, gw, gh) && b.y <= i < b.y + b.h
    ensures Rect(m, gw, gh, b.(h := i + 1 - b.y))
         == Rect(m, gw, gh, b.(h := i - b.y)) + Row(m, gw, gh, b.x, b.w, i)
    decreases i - b.y
  {
    hide Row;
    var row := Row(m, gw, gh, b.x, b.w, i);
    if i == b.y {
      assert Rect(m, gw, gh, NextRow(b.(h := 1))) == [];
      assert row + [] == row == [] + row;
    } else {
      var c := NextRow(b);
      RectSnoc(m, gw, gh, c, i);
      assert NextRow(b.(h := i + 1 - b.y)) == c.(h := i + 1 - c.y);
      assert NextRow(b.(h := i - b.y)) == c.(h := i - c.y);
      Assoc(Row(m, gw, gh, b.x, b.w, b.y), Rect(m, gw, gh, c.(h := i - c.y)), row);
    }
  }

  lemma RectNone(m: seq<nat>, gw: nat, gh: nat, b: Box)
    requires Sized(m, gw, gh) && Inside(b, gw, gh)
    ensures Rect(m, gw, gh, b.(h := 0)) == []
  {
  }

  /** The last phrase and the stop code fit the current width. */
  lemma LastCodes(depth: nat, pixels: seq<nat>)
    requires 2 <= depth <= 8 && pixels != [] && InRange(depth, pixels)
    ensures var e := After(depth, pixels);
            && e.node < Pow2(e.keySize) && Degree(depth) + 1 < Pow2(e.keySize) && e.keySize <= 12
            && CodeBits(ImageCodes(depth, pixels))
            == CodeBits(e.codes) + BitsOf(e.node, e.keySize) + BitsOf(Degree(depth) + 1, e.keySize)
  {
    hide BitsOf, CodeBits;
    var e := After(depth, pixels);
    AlwaysTracks(depth, pixels, |pixels|);
    CodeBitsSnoc(e.codes, Code(e.node, e.keySize));
    CodeBitsSnoc(PixelCodes(depth, pixels), Code(Degree(depth) + 1, e.keySize));
  }

  // ---------- the default colour table ----------

  const VGA: seq<byte> := [
    0x00, 0x00, 0x00, 0xAA, 0x00, 0x00, 0x00, 0xAA, 0x00, 0xAA, 0x55, 0x00,
    0x00, 0x00, 0xAA, 0xAA, 0x00, 0xAA, 0x00, 0xAA, 0xAA, 0xAA, 0xAA, 0xAA,
    0x55, 0x55, 0x55, 0xFF, 0x55, 0x55, 0x55, 0xFF, 0x55, 0xFF, 0xFF, 0x55,
    0x55, 0x55, 0xFF, 0xFF, 0x55, 0xFF, 0x55, 0xFF, 0xFF, 0xFF, 0xFF, 0xFF]

  /** Sixteen VGA colours, a 6x6x6 cube, then a ramp of greys. */
  function Colour(n: nat): (c: seq<byte>)
    requires n < 256
    ensures |c| == 3
  {
    if n < 16 then VGA[3 * n..3 * n + 3]
    else if n < 232 then
      var k := n - 16;
      [k / 36 * 51, k / 6 % 6 * 51, k % 6 * 51]
    else
      var v := (n - 231) * 0xFF / 25;
      [v, v, v]
  }

  function Colours(n: nat): (c: seq<byte>)
    requires n <= 256
    ensures |c| == 3 * n
  {
    if n == 0 then [] else Colours(n - 1) + Colour(n - 1)
  }

  lemma {:induction false} ColoursVga(n: nat)
    requires n <= 16
    ensures Colours(n) == VGA[..3 * n]
  {
    if n > 0 {
      ColoursVga(n - 1);
    }
  }

  lemma DepthSizes(depth: nat)
    requires 1 <= depth <= 8
    ensures Pow2(depth) == [2, 4, 8, 16, 32, 64, 128, 256][depth - 1]
  {
    assert Pow2(1) == 2 && Pow2(2) == 4 && Pow2(3) == 8 && Pow2(4) == 16;
    assert Pow2(5) == 32 && Pow2(6) == 64 && Pow2(7) == 128 && Pow2(8) == 256;
  }

  /** The table written when the caller gives none: exactly 2^depth colours. */
  method DefaultTable(depth: nat) returns (t: seq<byte>)
    requires 1 <= depth <= 8
    ensures Pow2(depth) <= 256 && t == Colours(Pow2(depth))
  {
    hide Colours, Colour, Pow2;
    DepthSizes(depth);
    if depth <= 4 {
      ColoursVga(Pow2(depth));
      return VGA[..3 * Pow2(depth)];
    }
    ColoursVga(16);
    t := VGA;
    var i, r: nat := 0x10, 0;
    while r < 6
      invariant r <= 6 && i == 16 + 36 * r && (i < Pow2(depth) || r == 0) && t == Colours(i)
    {
      var g: nat := 0;
      while g < 6
        invariant g <= 6 && i == 16 + 36 * r + 6 * g && i < Pow2(depth) && t == Colours(i)
      {
        var b: nat := 0;
        while b < 6
          invariant b <= 6 && i == 16 + 36 * r + 6 * g + b && i < Pow2(depth) && t == Colours(i)
        {
          CubeColour(r, g, b);
          t := t + [r * 51, g * 51, b * 51];
          i := i + 1;
          if i == Pow2(depth) {
            return;
          }
          b := b + 1;
        }
        g := g + 1;
      }
      r := r + 1;
    }
    i := 1;
    while i <= 24
      invariant 1 <= i <= 25 && t == Colours(231 + i)
    {
      GreyColour(i);
      var v := i * 0xFF / 25;
      t := t + [v, v, v];
      i := i + 1;
    }
  }

  lemma ColoursSnoc(n: nat)
    requires n < 256
    ensures Colours(n + 1) == Colours(n) + Colour(n)
  {
  }

  lemma CubeColour(r: nat, g: nat, b: nat)
    requires r < 6 && g < 6 && b < 6
    ensures var n := 16 + 36 * r + 6 * g + b;
            n < 232 && Colours(n + 1) == Colours(n) + [r * 51, g * 51, b * 51]
  {
    hide Colours;
    var k := 36 * r + 6 * g + b;
    DivModUnique(k, 36, r, 6 * g + b);
    DivModUnique(k, 6, 6 * r + g, b);
    DivModUnique(6 * r + g, 6, r, g);
    ColoursSnoc(16 + k);
  }

  lemma GreyColour(i: nat)
    requires 1 <= i <= 24
    ensures var v := i * 0xFF / 25;
            v < 256 && Colours(231 + i + 1) == Colours(231 + i) + [v, v, v]
  {
  }

  /** Signature, screen descriptor, colour table and loop extension. */
  method Header(width: nat, height: nat, palette: Option<seq<byte>>, depth: nat, loop: int)
    returns (out: seq<byte>)
    requires 0 < width < 0x10000 && 0 < height < 0x10000 && 1 <= depth <= 8
    requires palette.Some? ==> |palette.value| >= 3 * Pow2(depth)
    ensures Pow2(depth) <= 256
    ensures var table := match palette case Some(p) => p[..3 * Pow2(depth)] case None => Colours(Pow2(depth));
            out == HeaderBytes(width, height, depth, table) + LoopBytes(loop)
    ensures var table := match palette case Some(p) => p[..3 * Pow2(depth)] case None => Colours(Pow2(depth));
            ReadFile(out) == Some(View(Looped(Blank(width, height, table), loop), false))
  {
    hide Pow2, ReadBlocks, LoopBytes, Colours, Blank, ReadFile, Looped;
    DepthSizes(depth);
    out := SIGNATURE;
    out := out + Num(width);
    out := out + Num(height);
    out := out + [0xF0 + (depth - 1), 0x00, 0x00];
    var table;
    match palette {
      case Some(p) => table := p[..3 * Pow2(depth)];
      case None => table := DefaultTable(depth);
    }
    out := out + table;
    out := out + LoopBytes(loop);
    ReadHeader(width, height, depth, table, LoopBytes(loop));
    ReadLoop(loop, Blank(width, height, table));
  }

  lemma LoopedBlank(s: Screen, loop: int)
    ensures var t := Looped(s, loop);
            t.gw == s.gw && t.gh == s.gh && t.canvas == s.canvas && t.delay == s.delay && t.shown == s.shown
  {
  }

  /** Every pixel that is drawn has a colour in a table of 2^depth, unless the depth asked for is 1, for
      which pixels are masked as for 2. */
  lemma ColouredIff(depth: nat, used: nat)
    requires 1 <= depth <= 8 && used == if depth > 1 then depth else 2
    ensures (forall p: byte :: MaskPixel(used, p) < Pow2(depth)) <==> depth >= 2
  {
    assert Pow2(1) == 2 && Degree(2) == 4;
    if depth == 1 {
      assert MaskPixel(2, 3) == 3;
    }
  }

  class Gif {
    const w: nat
    const h: nat
    const depth: nat
    var offset: nat
    var nframes: nat
    var frame: array<byte>
    var back: array<byte>
    var partial: nat
    const buffer: array<byte>
    /** What has been written to the file. */
    var out: seq<byte>

    // The code stream of the image being written: the file before its first sub-block,
    // the bits put so far, and the complete bytes among them.
    ghost var head: seq<byte>
    ghost var packed: seq<bool>
    ghost var data: seq<byte>

    // What a viewer of the file shows.
    ghost var screen: Screen

    /** Complete bytes: full sub-blocks are in the file, the others in the buffer. */
    ghost predicate Filed(byteOffset: nat)
      reads this`data, this`out, this`head, buffer
    {
      var q := |data| / 255 * 255;
      && buffer.Length == 255
      && byteOffset == |data| % 255
      && out == head + FullBlocks(data[..q])
      && buffer[..byteOffset] == data[q..]
    }

    /** The packer holds the bits put so far, the incomplete byte in partial. */
    ghost predicate Packing()
      reads this, buffer
    {
      && Filed(|data| % 255)
      && Placed(|packed|, |data|, offset)
      && partial < Pow2(offset % 8)
      && packed == ByteBits(data) + BitsOf(partial, offset % 8)
    }

    /** A new file: header, colour table, and the loop extension when asked for. */
    constructor (width: nat, height: nat, palette: Option<seq<byte>>, depth: nat, loop: int)
      requires 0 < width < 0x10000 && 0 < height < 0x10000 && 1 <= depth <= 8
      requires palette.Some? ==> |palette.value| >= 3 * Pow2(depth)
      ensures Valid() && nframes == 0 && fresh(frame) && fresh(back) && fresh(buffer)
      ensures w == width && h == height && this.depth == if depth > 1 then depth else 2
      ensures Pow2(depth) <= 256
      ensures var table := match palette case Some(p) => p[..3 * Pow2(depth)] case None => Colours(Pow2(depth));
              && out == HeaderBytes(width, height, depth, table) + LoopBytes(loop)
              && screen == Looped(Blank(width, height, table), loop)
    {
      hide ReadFile, HeaderBytes, LoopBytes, Colours, Looped, Blank, Masked;
      w, h := width, height;
      this.depth := if depth > 1 then depth else 2;
      offset, nframes, partial := 0, 0, 0;
      frame := new byte[width * height](_ => 0);
      back := new byte[width * height](_ => 0);
      buffer := new byte[0xFF](_ => 0);
      out, head, packed, data := [], [], [], [];
      screen := Blank(width, height, []);
      new;
      out := Header(width, height, palette, depth, loop);
      ghost var table := match palette case Some(p) => p[..3 * Pow2(depth)] case None => Colours(Pow2(depth));
      screen := Looped(Blank(width, height, table), loop);
      LoopedBlank(Blank(width, height, table), loop);
    }

    /** Between images nothing is pending. */
    ghost predicate Idle()
      reads this, buffer
    {
      buffer.Length == 255 && offset == 0 && partial == 0
    }

    method PutByte(byteOffset: nat, b: byte) returns (next: nat)
      requires Filed(byteOffset)
      modifies this`out, this`data, buffer
      ensures data == old(data) + [b] && Filed(next)
    {
      hide FullBlocks;
      ghost var q := |data| / 255 * 255;
      ghost var d := data;
      data := data + [b];
      buffer[byteOffset] := b;
      next := byteOffset + 1;
      assert data[..q] == d[..q];
      assert buffer[..next] == data[q..];
      if next == 0xFF {
        FullBlocksSnoc(data[..q], data[q..]);
        assert data == data[..q] + data[q..];
        Assoc(head, FullBlocks(data[..q]), [255]);
        Assoc(head, FullBlocks(data[..q]) + [255], data[q..]);
        assert buffer[..] == buffer[..next];
        assert |data| / 255 * 255 == q + 255 && data[..q + 255] == data;
        out := out + [0xFF];
        out := out + buffer[..];
        next := 0;
      }
    }

    /** Adds a key of keySize bits to the code stream. */
    method PutKey(key: nat, keySize: nat)
      requires Packing() && key < Pow2(keySize) && keySize <= 12
      modifies this`offset, this`partial, this`out, this`packed, this`data, buffer
      ensures Packing() && packed == old(packed) + BitsOf(key, keySize)
    {
      hide BitOr, BitAnd, Pow2, BitsOf, ByteBits, FullBlocks, Filed, Placed;
      var byteOffset: nat := offset / 8;
      var bitOffset := offset % 8;
      PlacedNow(|packed|, |data|, offset);
      OrBits(partial, key, bitOffset, keySize);
      ghost var bits := packed + BitsOf(key, keySize);
      Assoc(ByteBits(data), BitsOf(partial, bitOffset), BitsOf(key, keySize));
      partial := BitOr(partial, key * Pow2(bitOffset));
      var bitsToWrite: nat := bitOffset + keySize;
      while bitsToWrite >= 8
        invariant offset == old(offset) && packed == old(packed)
        invariant partial < Pow2(bitsToWrite)
        invariant ByteBits(data) + BitsOf(partial, bitsToWrite) == bits
        invariant |bits| == 8 * |data| + bitsToWrite
        invariant Filed(byteOffset)
      {
        LowByte(partial, bitsToWrite);
        ByteBitsSnoc(data, partial % 256);
        Assoc(ByteBits(data), BitsOf(partial % 256, 8), BitsOf(partial / 256, bitsToWrite - 8));
        byteOffset := PutByte(byteOffset, BitAnd(partial, 0xFF));
        partial := partial / 256;
        bitsToWrite := bitsToWrite - 8;
      }
      FiledAt(byteOffset);
      PlacedNext(|packed|, |old(data)|, offset, keySize, |data|, bitsToWrite);
      packed := bits;
      offset := (offset + keySize) % (0xFF * 8);
    }

    lemma FiledAt(byteOffset: nat)
      requires Filed(byteOffset)
      ensures byteOffset == |data| % 255
    {
    }

    /** Ends the code stream: the last sub-block and the terminator. */
    method EndKey()
      requires Packing()
      modifies this`offset, this`partial, this`out, buffer
      ensures Idle() && out == head + ImageData(packed)
    {
      hide BitAnd, Pow2, BitsOf, ByteBits, FullBlocks, Padded;
      PlacedNow(|packed|, |data|, offset);
      PaddedOf(data, partial, offset % 8);
      ghost var q, d := |data| / 255 * 255, Padded(packed);
      var byteOffset := offset / 8;
      if offset % 8 != 0 {
        buffer[byteOffset] := BitAnd(partial, 0xFF);
        byteOffset := byteOffset + 1;
      }
      assert d[..q] == data[..q] && buffer[..byteOffset] == d[q..];
      out := out + [byteOffset];
      out := out + buffer[..byteOffset];
      out := out + [0];
      Assoc(head, FullBlocks(d[..q]), [byteOffset]);
      Assoc(head, FullBlocks(d[..q]) + [byteOffset], d[q..]);
      Assoc(head, FullBlocks(d[..q]) + [byteOffset] + d[q..], [0]);
      offset, partial := 0, 0;
    }

    // ---------- the image writer ----------

    /** The writer's locals stand for an encoder state. */
    ghost predicate Carries(e: Encoder, root: Node, nodes: map<nat, Node>, nkeys: nat, keySize: nat)
      reads this, buffer, Footprint(root, nodes)
    {
      && Packing() && packed == CodeBits(e.codes)
      && Trie(depth, e.entries, root, nodes)
      && nkeys == NKeys(depth, e.entries) && keySize == e.keySize
    }

    /** The locals after the pixels seen so far; before the first one the node is the root. */
    ghost predicate At(seen: seq<nat>, root: Node, node: Node, nodes: map<nat, Node>,
                       nkeys: nat, keySize: nat)
      reads this, buffer, Footprint(root, nodes)
    {
      if seen == [] then
        Carries(Start(depth, 0), root, nodes, nkeys, keySize) && node == root
      else
        var e := After(depth, seen);
        Carries(e, root, nodes, nkeys, keySize) && e.node in nodes && node == nodes[e.node]
    }

    lemma StartCode()
      requires 2 <= depth <= 8
      ensures Degree(depth) < Pow2(depth + 1)
      ensures CodeBits(Start(depth, 0).codes) == [] + BitsOf(Degree(depth), depth + 1)
    {
      DegreeBounds(depth);
      CodeBitsSnoc([], Code(Degree(depth), depth + 1));
      assert [] + [Code(Degree(depth), depth + 1)] == [Code(Degree(depth), depth + 1)];
    }

    lemma SoundAt(seen: seq<nat>)
      requires 2 <= depth <= 8 && seen != [] && InRange(depth, seen)
      ensures Sound(depth, After(depth, seen))
    {
      AlwaysTracks(depth, seen, |seen|);
    }

    /** A pixel with no child: emit the phrase, then grow the trie or start a new one. */
    method Emit(ghost e: Encoder, pixel: nat, root: Node, node: Node,
                ghost nodes: map<nat, Node>, nkeys: nat, keySize: nat)
      returns (root': Node, ghost nodes': map<nat, Node>, nkeys': nat, keySize': nat)
      requires 2 <= depth <= 8 && Sound(depth, e) && pixel < Degree(depth)
      requires buffer !in Footprint(root, nodes)
      requires Carries(e, root, nodes, nkeys, keySize) && e.node in nodes && node == nodes[e.node]
      requires Child(depth, e.entries, e.node, pixel).None?
      modifies this`offset, this`partial, this`out, this`packed, this`data, buffer, node.children
      ensures Carries(Advance(depth, e, pixel), root', nodes', nkeys', keySize')
      ensures fresh(Footprint(root', nodes') - Footprint(root, nodes))
    {
      hide Child, Phrase, CodeBits, BitsOf, Pow2, Packing, Trie;
      TrieNode(depth, e.entries, root, nodes, e.node);
      root', nodes', nkeys', keySize' := root, nodes, nkeys, keySize;
      ghost var c := Code(e.node, e.keySize);
      CodeBitsSnoc(e.codes, c);
      PutKey(node.key, keySize);
      if nkeys < 0x1000 {
        if nkeys == Pow2(keySize) {
          keySize' := keySize + 1;
        }
        nodes' := AddChild(depth, e.entries, root, nodes, node, pixel, nkeys);
        nkeys' := nkeys + 1;
      } else {
        CodeBitsSnoc(e.codes + [c], Code(Degree(depth), keySize));
        PutKey(Degree(depth), keySize);
        root', nkeys', nodes' := NewTrie(depth);
        keySize' := depth + 1;
      }
    }

    /** The body of the writer's inner loop. */
    method PutPixel(ghost seen: seq<nat>, pixel: nat, root: Node, node: Node,
                    ghost nodes: map<nat, Node>, nkeys: nat, keySize: nat)
      returns (root': Node, node': Node, ghost nodes': map<nat, Node>, nkeys': nat, keySize': nat)
      requires 2 <= depth <= 8 && InRange(depth, seen) && pixel < Degree(depth)
      requires buffer !in Footprint(root, nodes)
      requires At(seen, root, node, nodes, nkeys, keySize)
      modifies this`offset, this`partial, this`out, this`packed, this`data, buffer, node.children
      ensures At(seen + [pixel], root', node', nodes', nkeys', keySize')
      ensures node'.children in Footprint(root', nodes')
      ensures fresh(Footprint(root', nodes') - Footprint(root, nodes))
    {
      hide Phrase, CodeBits, BitsOf, Pow2, Packing;
      root', node', nodes', nkeys', keySize' := root, node, nodes, nkeys, keySize;
      AfterSnoc(depth, seen, pixel);
      ghost var e := if seen == [] then Start(depth, 0) else After(depth, seen);
      if seen != [] {
        SoundAt(seen);
      }
      var child := node.children[pixel];
      if child != null {
        node' := child;
      } else {
        root', nodes', nkeys', keySize' := Emit(e, pixel, root, node, nodes, nkeys, keySize);
        node' := root'.children[pixel];
      }
    }

    /** The trie shares nothing with the picture or the packer. */
    ghost predicate Separate(root: Node, nodes: map<nat, Node>)
      reads this
    {
      buffer !in Footprint(root, nodes) && frame !in Footprint(root, nodes) && back !in Footprint(root, nodes)
    }

    ghost predicate Shape()
      reads this`frame, this`back
    {
      && 2 <= depth <= 8 && 0 < w < 0x10000 && 0 < h < 0x10000
      && frame.Length == back.Length == w * h
      && frame != back && frame != buffer && back != buffer
    }

    /** One row of the box. */
    method PutRow(ghost before: seq<nat>, b: Box, i: nat, root0: Node, node0: Node,
                  ghost nodes0: map<nat, Node>, nkeys0: nat, keySize0: nat)
      returns (root: Node, node: Node, ghost nodes: map<nat, Node>, nkeys: nat, keySize: nat)
      requires Shape() && Inside(b, w, h) && b.y <= i < b.y + b.h
      requires InRange(depth, before)
      requires At(before, root0, node0, nodes0, nkeys0, keySize0)
      requires Separate(root0, nodes0) && node0.children in Footprint(root0, nodes0)
      modifies this`offset, this`partial, this`out, this`packed, this`data, buffer, Footprint(root0, nodes0)
      ensures var seen := before + Row(Masked(depth, frame[..]), w, h, b.x, b.w, i);
              InRange(depth, seen) && At(seen, root, node, nodes, nkeys, keySize)
      ensures fresh(Footprint(root, nodes) - Footprint(root0, nodes0))
      ensures Separate(root, nodes) && node.children in Footprint(root, nodes)
    {
      hide At, BitAnd, Row;
      ghost var seen := before;
      ghost var row := Row(Masked(depth, frame[..]), w, h, b.x, b.w, i);
      root, node, nodes, nkeys, keySize := root0, node0, nodes0, nkeys0, keySize0;
      var j: nat := b.x;
      while j < b.x + b.w
        invariant b.x <= j <= b.x + b.w
        invariant seen == before + row[..j - b.x] && InRange(depth, seen)
        invariant fresh(Footprint(root, nodes) - Footprint(root0, nodes0))
        invariant Separate(root, nodes) && node.children in Footprint(root, nodes)
        invariant At(seen, root, node, nodes, nkeys, keySize)
      {
        PixelAt(depth, frame[..], w, h, b, i, j);
        var pixel := BitAnd(frame[i * w + j], Degree(depth) - 1);
        root, node, nodes, nkeys, keySize := PutPixel(seen, pixel, root, node, nodes, nkeys, keySize);
        seen := seen + [pixel];
        j := j + 1;
      }
      assert row[..b.w] == row;
    }

    /** A new trie and the clear code. */
    method Begin() returns (root: Node, ghost nodes: map<nat, Node>, nkeys: nat, keySize: nat)
      requires 2 <= depth <= 8 && Idle()
      modifies this`offset, this`partial, this`out, this`head, this`packed, this`data, buffer
      ensures At([], root, root, nodes, nkeys, keySize) && head == old(out)
      ensures fresh(Footprint(root, nodes)) && buffer !in Footprint(root, nodes)
    {
      hide CodeBits, BitsOf, ByteBits, Trie, Packing, Pow2;
      head, packed, data := out, [], [];
      BeginPacking();
      root, nkeys, nodes := NewTrie(depth);
      keySize := depth + 1;
      StartCode();
      PutKey(Degree(depth), keySize);
    }

    lemma BeginPacking()
      requires Idle() && packed == [] && data == [] && out == head
      ensures Packing()
    {
      hide FullBlocks, Pow2, BitsOf, ByteBits, Filed, Placed;
      NoBits();
      PlacedStart();
      assert Filed(0) by {
        FiledStart();
      }
      assert |data| % 255 == 0 && offset % 8 == 0;
    }

    lemma FiledStart()
      requires buffer.Length == 255 && data == [] && out == head
      ensures Filed(0)
    {
      hide FullBlocks;
      NoBits();
      assert |data| / 255 * 255 == 0 && data[..0] == [] && data[0..] == [] && buffer[..0] == [];
      assert head + [] == head;
    }

    /** The last phrase, the stop code and the terminator. */
    method Finish(ghost seen: seq<nat>, root: Node, node: Node, ghost nodes: map<nat, Node>,
                  nkeys: nat, keySize: nat)
      requires 2 <= depth <= 8 && seen != [] && InRange(depth, seen)
      requires At(seen, root, node, nodes, nkeys, keySize)
      modifies this`offset, this`partial, this`out, this`packed, this`data, buffer
      ensures Idle() && out == head + ImageData(CodeBits(ImageCodes(depth, seen)))
    {
      hide BitsOf, Pow2, ImageData, After, Packing;
      LastCodes(depth, seen);
      PutKey(node.key, keySize);
      PutKey(Degree(depth) + 1, keySize);
      EndKey();
    }

    /** The code stream of one image, from the clear code to the terminator. */
    method PutCodes(b: Box)
      requires Shape() && Idle() && Inside(b, w, h) && b.h > 0
      modifies this`offset, this`partial, this`out, this`head, this`packed, this`data, buffer
      ensures Idle() && out == old(out) + ImageData(BoxBits(depth, frame[..], w, h, b))
    {
      hide Phrase, At, Rect, Row, ImageData, CodeBits, ImageCodes;
      ghost var m := Masked(depth, frame[..]);
      ghost var seen: seq<nat> := [];
      var root, nodes, nkeys, keySize := Begin();
      var node := root;
      var i: nat := b.y;
      RectNone(m, w, h, b);
      while i < b.y + b.h
        invariant b.y <= i <= b.y + b.h && head == old(out)
        invariant seen == Rect(m, w, h, b.(h := i - b.y)) && InRange(depth, seen)
        invariant fresh(Footprint(root, nodes)) && node.children in Footprint(root, nodes)
        invariant At(seen, root, node, nodes, nkeys, keySize)
      {
        RectSnoc(m, w, h, b, i);
        root, node, nodes, nkeys, keySize := PutRow(seen, b, i, root, node, nodes, nkeys, keySize);
        seen := seen + Row(m, w, h, b.x, b.w, i);
        i := i + 1;
      }
      Finish(seen, root, node, nodes, nkeys, keySize);
    }

    // ---------- the frame differ ----------

    ghost predicate Differs(i: nat, j: nat)
      requires Shape() && i < h && j < w
      reads this`frame, this`back, frame, back
    {
      RowFits(w, h, i);
      frame[GifStream.At(w, i, j)] != back[GifStream.At(w, i, j)]
    }

    /** The bounds of the differences among the pixels scanned before row i, column j. */
    ghost predicate Bounds(i: nat, j: nat, left: nat, right: nat, top: nat, bottom: nat)
      requires Shape() && i <= h && j <= w
      reads this`frame, this`back, frame, back
    {
      && (forall r, c | 0 <= r < h && 0 <= c < w && (r < i || (r == i && c < j)) :: Differs(r, c) ==>
            left <= c <= right && top <= r <= bottom)
      && ((left == w && top == h && right == 0 && bottom == 0) || Tight(left, right, top, bottom))
    }

    /** Every side of the box touches a difference. */
    ghost predicate Tight(left: nat, right: nat, top: nat, bottom: nat)
      requires Shape()
      reads this`frame, this`back, frame, back
    {
      && left <= right < w && top <= bottom < h
      && (exists r | 0 <= r < h :: Differs(r, left)) && (exists r | 0 <= r < h :: Differs(r, right))
      && (exists c | 0 <= c < w :: Differs(top, c)) && (exists c | 0 <= c < w :: Differs(bottom, c))
    }

    lemma Widen(i: nat, j: nat, left: nat, right: nat, top: nat, bottom: nat)
      requires Shape() && i < h && j < w
      requires Bounds(i, j, left, right, top, bottom) && Differs(i, j)
      ensures Bounds(i, j + 1, if j < left then j else left, if j > right then j else right,
                     if i < top then i else top, if i > bottom then i else bottom)
    {
    }

    /** The smallest box around the pixels that changed since the last frame. */
    method GetBbox() returns (changed: bool, b: Box)
      requires Shape()
      ensures !changed ==> frame[..] == back[..]
      ensures changed ==> && Inside(b, w, h) && b.h > 0 && Covers(frame[..], back[..], w, h, b)
                          && Tight(b.x, b.x + b.w - 1, b.y, b.y + b.h - 1)
    {
      hide Bounds, Tight;
      var left, right, top, bottom: nat := w, 0, h, 0;
      var k, i: nat := 0, 0;
      NoBounds();
      while i < h
        invariant i <= h && k == GifStream.At(w, i, 0) && Bounds(i, 0, left, right, top, bottom)
      {
        var j: nat := 0;
        while j < w
          invariant j <= w && k == GifStream.At(w, i, j) && Bounds(i, j, left, right, top, bottom)
        {
          RowFits(w, h, i);
          if frame[k] != back[k] {
            Widen(i, j, left, right, top, bottom);
            if j < left { left := j; }
            if j > right { right := j; }
            if i < top { top := i; }
            if i > bottom { bottom := i; }
          } else {
            Same(i, j, left, right, top, bottom);
          }
          j := j + 1;
          k := k + 1;
        }
        NextRowBounds(i, left, right, top, bottom);
        i := i + 1;
      }
      AllBounds(left, right, top, bottom);
      changed := left != w && top != h;
      if changed {
        b := Box(right - left + 1, bottom - top + 1, left, top);
      } else {
        b := Box(1, 1, 0, 0);
      }
    }

    lemma NoBounds()
      requires Shape()
      ensures Bounds(0, 0, w, 0, h, 0)
    {
    }

    lemma Same(i: nat, j: nat, left: nat, right: nat, top: nat, bottom: nat)
      requires Shape() && i < h && j < w
      requires Bounds(i, j, left, right, top, bottom) && !Differs(i, j)
      ensures Bounds(i, j + 1, left, right, top, bottom)
    {
    }

    lemma NextRowBounds(i: nat, left: nat, right: nat, top: nat, bottom: nat)
      requires Shape() && i < h && Bounds(i, w, left, right, top, bottom)
      ensures Bounds(i + 1, 0, left, right, top, bottom)
    {
    }

    lemma AllBounds(left: nat, right: nat, top: nat, bottom: nat)
      requires Shape() && Bounds(h, 0, left, right, top, bottom)
      ensures if left != w && top != h then
                Tight(left, right, top, bottom) && left <= right < w && top <= bottom < h
                && Covers(frame[..], back[..], w, h, Box(right - left + 1, bottom - top + 1, left, top))
              else frame[..] == back[..]
    {
      if left == w || top == h {
        forall k | 0 <= k < w * h
          ensures frame[k] == back[k]
        {
          var i, j := RowAndColumn(w, h, k);
          assert !Differs(i, j);
        }
      } else {
        forall i: nat, j: nat | i < h && j < w && GifStream.At(w, i, j) < frame.Length
            && frame[GifStream.At(w, i, j)] != back[GifStream.At(w, i, j)]
          ensures top <= i <= bottom && left <= j <= right
        {
          assert Differs(i, j);
        }
      }
    }

    // ---------- the file ----------

    /** Between calls: a viewer of the file so far has shown one picture per frame, and shows the last
        frame added, kept in back. */
    ghost predicate Valid()
      reads this, buffer, back
    {
      && Shape() && Idle() && GoodScreen(screen) && screen.gw == w && screen.gh == h
      && screen.delay == 0 && |screen.shown| == nframes
      && ReadFile(out) == Some(View(screen, false))
      && (nframes > 0 ==> screen.canvas == Masked(depth, back[..]))
    }

    method PutImage(b: Box)
      requires Shape() && Idle() && Inside(b, w, h) && b.h > 0
      modifies this`offset, this`partial, this`out, this`head, this`packed, this`data, buffer
      ensures Idle() && out == old(out) + ImageBytes(depth, frame[..], w, h, b)
    {
      hide ImageData, BoxBits;
      out := out + [0x2C];
      out := out + Num(b.x);
      out := out + Num(b.y);
      out := out + Num(b.w);
      out := out + Num(b.h);
      out := out + [0x00, depth];
      ghost var d := [0x2C] + Num(b.x) + Num(b.y) + Num(b.w) + Num(b.h) + [0x00, depth];
      assert out == old(out) + d;
      Assoc(old(out), d, ImageData(BoxBits(depth, frame[..], w, h, b)));
      PutCodes(b);
    }

    method SetDelay(delay: nat)
      requires 0 < delay < 0x10000
      modifies this`out
      ensures out == old(out) + DelayBytes(delay)
    {
      out := out + [0x21, 0xF9, 0x04, 0x04];
      out := out + Num(delay);
      out := out + [0x00, 0x00];
    }

    /** The whole picture first; then the smallest box around what changed, or one pixel. */
    ghost predicate Chosen(b: Box)
      requires Shape()
      reads this`frame, this`back, this`nframes, frame, back
    {
      if nframes == 0 then b == Box(w, h, 0, 0)
      else if frame[..] == back[..] then b == Box(1, 1, 0, 0)
      else
        && Inside(b, w, h) && b.h > 0 && Covers(frame[..], back[..], w, h, b)
        && Tight(b.x, b.x + b.w - 1, b.y, b.y + b.h - 1)
    }

    /** The box to draw. */
    method ChooseBox() returns (b: Box)
      requires Shape()
      ensures Chosen(b) && Inside(b, w, h) && b.h > 0
      ensures b == Box(w, h, 0, 0) || (nframes > 0 && Covers(frame[..], back[..], w, h, b))
    {
      hide Covers, Tight;
      b := Box(w, h, 0, 0);
      if nframes != 0 {
        var changed, box := GetBbox();
        b := if changed then box else Box(1, 1, 0, 0);
        if changed {
          TightDiffers(b.x, b.x + b.w - 1, b.y, b.y + b.h - 1);
        } else {
          SameCovered(frame[..], back[..], w, h, b);
        }
      }
    }

    lemma TightDiffers(left: nat, right: nat, top: nat, bottom: nat)
      requires Shape() && Tight(left, right, top, bottom)
      ensures frame[..] != back[..]
    {
      var r: nat :| r < h && Differs(r, left);
      RowFits(w, h, r);
      assert frame[..][GifStream.At(w, r, left)] != back[..][GifStream.At(w, r, left)];
    }

    /** Adds the current frame: a viewer of the file now shows it. The two buffers trade
        places, so the next frame is compared with this one. */
    method AddFrame(delay: nat)
      requires Valid() && delay < 0x10000
      modifies this, buffer
      ensures Valid() && nframes == old(nframes) + 1
      ensures var m := Masked(depth, old(frame[..]));
              screen == old(screen).(canvas := m, shown := old(screen).shown + [Picture(m, delay)])
      ensures frame == old(back) && back == old(frame)
      ensures frame[..] == old(back[..]) && back[..] == old(frame[..])
      ensures exists b ::
        && old(Chosen(b)) && Inside(b, w, h) && b.h > 0
        && out == old(out) + FrameBytes(depth, old(frame[..]), w, h, b, delay)
    {
      hide ImageBytes, DelayBytes, ReadFile, ReadBlocks, Covers, Masked, Gif.Chosen, Shown;
      if delay != 0 {
        SetDelay(delay);
      } else {
        NoDelay();
      }
      var b := ChooseBox();
      assert old(Chosen(b));
      PutImage(b);
      ghost var more := FrameBytes(depth, frame[..], w, h, b, delay);
      Assoc(old(out), DelayBytes(delay), ImageBytes(depth, frame[..], w, h, b));
      ReadFrame(depth, frame[..], back[..], w, h, b, delay, screen);
      ReadFileAppend(old(out), more, screen);
      ShownNext(screen.(delay := delay), Masked(depth, frame[..]));
      screen := Shown(screen.(delay := delay), Masked(depth, frame[..]));
      nframes := nframes + 1;
      var tmp := back;
      back := frame;
      frame := tmp;
    }

    lemma NoDelay()
      ensures out == out + DelayBytes(0)
    {
    }

    /** The trailer: the viewer stops with the last frame on the canvas. */
    method Close()
      requires Valid()
      modifies this`out
      ensures ReadFile(out) == Some(View(screen, true))
    {
      ReadFileAppend(out, [0x3B], screen);
      out := out + [0x3B];
    }
  }

  lemma NoBits()
    ensures FullBlocks([]) == [] && BitsOf(0, 0) == [] && ByteBits([]) == [] && Pow2(0) == 1
  {
  }

  lemma ShownNext(s: Screen, canvas: seq<nat>)
    ensures var t := Shown(s, canvas);
            t == s.(canvas := canvas, delay := 0, shown := s.shown + [Picture(canvas, s.delay)])
  {
  }

  lemma SameCovered(frame: seq<byte>, back: seq<byte>, gw: nat, gh: nat, b: Box)
    requires Sized(frame, gw, gh) && frame == back
    ensures Covers(frame, back, gw, gh, b)
  {
  }

  /** The bit offset repeats with every full sub-block of 255 bytes. */
  ghost predicate Placed(bits: nat, bytes: nat, offset: nat) {
    var full := bits / 2040;
    offset == bits - 2040 * full && bytes == 255 * full + offset / 8
  }

  lemma PlacedStart()
    ensures Placed(0, 0, 0)
  {
  }

  lemma PlacedNow(bits: nat, bytes: nat, offset: nat)
    requires Placed(bits, bytes, offset)
    ensures offset / 8 == bytes % 255 && bits == 8 * bytes + offset % 8
    ensures bits / 2040 == bytes / 255
  {
  }

  lemma PlacedNext(bits: nat, bytes: nat, offset: nat, more: nat, bytes': nat, rest: nat)
    requires Placed(bits, bytes, offset) && bits + more == 8 * bytes' + rest && rest < 8 && more <= 12
    ensures Placed(bits + more, bytes', (offset + more) % (0xFF * 8))
    ensures (offset + more) % (0xFF * 8) % 8 == rest
  {
    var full := bits / 2040;
    var wraps := offset + more >= 2040;
    var full', offset' := if wraps then full + 1 else full, if wraps then offset + more - 2040 else offset + more;
    var k := bytes' - 255 * full';
    assert offset' == 8 * k + rest;
    assert bits + more == full' * 2040 + offset';
    DivModUnique(bits + more, 2040, full', offset');
    DivModUnique(offset', 8, k, rest);
    DivModUnique(offset + more, 2040, if wraps then 1 else 0, offset');
  }
}
