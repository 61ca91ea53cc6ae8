/** The counter-mode random number generator: a table-driven AES-128 on little-endian
    words, against the cipher and key expansion of FIPS 197 on bytes. */
module Aes {
  import opened Bits

  type octet = bv8
  type word = bv32

  /** The S-box of the source's last-round table. */
  const SBOX: seq<octet> := [
    0x63, 0x7c, 0x77, 0x7b, 0xf2, 0x6b, 0x6f, 0xc5, 0x30, 0x01, 0x67, 0x2b, 0xfe, 0xd7, 0xab, 0x76,
    0xca, 0x82, 0xc9, 0x7d, 0xfa, 0x59, 0x47, 0xf0, 0xad, 0xd4, 0xa2, 0xaf, 0x9c, 0xa4, 0x72, 0xc0,
    0xb7, 0xfd, 0x93, 0x26, 0x36, 0x3f, 0xf7, 0xcc, 0x34, 0xa5, 0xe5, 0xf1, 0x71, 0xd8, 0x31, 0x15,
    0x04, 0xc7, 0x23, 0xc3, 0x18, 0x96, 0x05, 0x9a, 0x07, 0x12, 0x80, 0xe2, 0xeb, 0x27, 0xb2, 0x75,
    0x09, 0x83, 0x2c, 0x1a, 0x1b, 0x6e, 0x5a, 0xa0, 0x52, 0x3b, 0xd6, 0xb3, 0x29, 0xe3, 0x2f, 0x84,
    0x53, 0xd1, 0x00, 0xed, 0x20, 0xfc, 0xb1, 0x5b, 0x6a, 0xcb, 0xbe, 0x39, 0x4a, 0x4c, 0x58, 0xcf,
    0xd0, 0xef, 0xaa, 0xfb, 0x43, 0x4d, 0x33, 0x85, 0x45, 0xf9, 0x02, 0x7f, 0x50, 0x3c, 0x9f, 0xa8,
    0x51, 0xa3, 0x40, 0x8f, 0x92, 0x9d, 0x38, 0xf5, 0xbc, 0xb6, 0xda, 0x21, 0x10, 0xff, 0xf3, 0xd2,
    0xcd, 0x0c, 0x13, 0xec, 0x5f, 0x97, 0x44, 0x17, 0xc4, 0xa7, 0x7e, 0x3d, 0x64, 0x5d, 0x19, 0x73,
    0x60, 0x81, 0x4f, 0xdc, 0x22, 0x2a, 0x90, 0x88, 0x46, 0xee, 0xb8, 0x14, 0xde, 0x5e, 0x0b, 0xdb,
    0xe0, 0x32, 0x3a, 0x0a, 0x49, 0x06, 0x24, 0x5c, 0xc2, 0xd3, 0xac, 0x62, 0x91, 0x95, 0xe4, 0x79,
    0xe7, 0xc8, 0x37, 0x6d, 0x8d, 0xd5, 0x4e, 0xa9, 0x6c, 0x56, 0xf4, 0xea, 0x65, 0x7a, 0xae, 0x08,
    0xba, 0x78, 0x25, 0x2e, 0x1c, 0xa6, 0xb4, 0xc6, 0xe8, 0xdd, 0x74, 0x1f, 0x4b, 0xbd, 0x8b, 0x8a,
    0x70, 0x3e, 0xb5, 0x66, 0x48, 0x03, 0xf6, 0x0e, 0x61, 0x35, 0x57, 0xb9, 0x86, 0xc1, 0x1d, 0x9e,
    0xe1, 0xf8, 0x98, 0x11, 0x69, 0xd9, 0x8e, 0x94, 0x9b, 0x1e, 0x87, 0xe9, 0xce, 0x55, 0x28, 0xdf,
    0x8c, 0xa1, 0x89, 0x0d, 0xbf, 0xe6, 0x42, 0x68, 0x41, 0x99, 0x2d, 0x0f, 0xb0, 0x54, 0xbb, 0x16]

  function Sub(x: octet): octet {
    if x as nat < |SBOX| then SBOX[x as nat] else 0
  }

  // ---------- FIPS 197, on bytes ----------

  /** One column of the state, or one word of the key schedule. */
  datatype Col = Col(b0: octet, b1: octet, b2: octet, b3: octet)

  datatype Block = Block(c0: Col, c1: Col, c2: Col, c3: Col)

  /** Addition in GF(2^8), section 4.1. */
  function Plus(a: octet, b: octet): octet {
    a ^ b
  }

  function XorCol(a: Col, b: Col): Col {
    Col(Plus(a.b0, b.b0), Plus(a.b1, b.b1), Plus(a.b2, b.b2), Plus(a.b3, b.b3))
  }

  /** Multiplication by x in GF(2^8), section 4.2.1. */
  function XTime(x: octet): octet {
    if x & 0x80 != 0 then (x << 1) ^ 0x1b else x << 1
  }

  function SubCol(c: Col): Col {
    Col(Sub(c.b0), Sub(c.b1), Sub(c.b2), Sub(c.b3))
  }

  /** Section 5.1.1. */
  function SubBytes(s: Block): Block {
    Block(SubCol(s.c0), SubCol(s.c1), SubCol(s.c2), SubCol(s.c3))
  }

  /** Section 5.1.2: row r moves r columns to the left. */
  function ShiftRows(s: Block): Block {
    Block(Col(s.c0.b0, s.c1.b1, s.c2.b2, s.c3.b3),
          Col(s.c1.b0, s.c2.b1, s.c3.b2, s.c0.b3),
          Col(s.c2.b0, s.c3.b1, s.c0.b2, s.c1.b3),
          Col(s.c3.b0, s.c0.b1, s.c1.b2, s.c2.b3))
  }

  function Plus4(a: octet, b: octet, c: octet, d: octet): octet {
    Plus(Plus(Plus(a, b), c), d)
  }

  /** {03} x */
  function Thrice(x: octet): octet {
    Plus(XTime(x), x)
  }

  /** Section 5.1.3, one column. */
  function MixCol(c: Col): Col {
    Col(Plus4(XTime(c.b0), Thrice(c.b1), c.b2, c.b3),
        Plus4(c.b0, XTime(c.b1), Thrice(c.b2), c.b3),
        Plus4(c.b0, c.b1, XTime(c.b2), Thrice(c.b3)),
        Plus4(Thrice(c.b0), c.b1, c.b2, XTime(c.b3)))
  }

  function MixColumns(s: Block): Block {
    Block(MixCol(s.c0), MixCol(s.c1), MixCol(s.c2), MixCol(s.c3))
  }

  /** Section 5.1.4. */
  function AddRoundKey(s: Block, k: Block): Block {
    Block(XorCol(s.c0, k.c0), XorCol(s.c1, k.c1), XorCol(s.c2, k.c2), XorCol(s.c3, k.c3))
  }

  function RotWord(c: Col): Col {
    Col(c.b1, c.b2, c.b3, c.b0)
  }

  function Rcon(i: nat): octet {
    if i == 0 then 1 else XTime(Rcon(i - 1))
  }

  /** Section 5.2 for 128-bit keys: word i of the expanded key. */
  function Expanded(key: Block, i: nat): Col {
    if i == 0 then key.c0 else if i == 1 then key.c1
    else if i == 2 then key.c2 else if i == 3 then key.c3
    else if i % 4 == 0 then
      XorCol(Expanded(key, i - 4), XorCol(SubCol(RotWord(Expanded(key, i - 1))), Col(Rcon(i / 4 - 1), 0, 0, 0)))
    else XorCol(Expanded(key, i - 4), Expanded(key, i - 1))
  }

  function RoundKey(key: Block, r: nat): Block {
    Block(Expanded(key, 4 * r), Expanded(key, 4 * r + 1), Expanded(key, 4 * r + 2), Expanded(key, 4 * r + 3))
  }

  /** The state after r of the rounds that mix columns. */
  function AfterRounds(key: Block, s: Block, r: nat): Block {
    if r == 0 then AddRoundKey(s, RoundKey(key, 0))
    else AddRoundKey(MixColumns(ShiftRows(SubBytes(AfterRounds(key, s, r - 1)))), RoundKey(key, r))
  }

  /** Section 5.1 with ten rounds. */
  function Cipher(key: Block, s: Block): Block {
    AddRoundKey(ShiftRows(SubBytes(AfterRounds(key, s, 9))), RoundKey(key, 10))
  }

  // ---------- words and tables ----------

  /** A column as a word, first byte least significant. */
  function Pack(c: Col): word {
    (c.b0 as word) | ((c.b1 as word) << 8) | ((c.b2 as word) << 16) | ((c.b3 as word) << 24)
  }

  function Unpack(w: word): Col {
    Col(GetByte0(w), GetByte1(w), GetByte2(w), GetByte3(w))
  }

  function GetByte0(w: word): octet { (w & 0xff) as octet }
  function GetByte1(w: word): octet { ((w >> 8) & 0xff) as octet }
  function GetByte2(w: word): octet { ((w >> 16) & 0xff) as octet }
  function GetByte3(w: word): octet { ((w >> 24) & 0xff) as octet }

  function Xor(a: word, b: word): word {
    a ^ b
  }

  function Ror8(w: word): word {
    (w >> 8) | (w << 24)
  }

  // crypto_ft_tab: rotations of {02}s, s, s, {03}s. crypto_fl_tab: s alone, in place.

  function FtCol0(s: octet): Col { Col(XTime(s), s, s, Thrice(s)) }
  function FtCol1(s: octet): Col { Col(Thrice(s), XTime(s), s, s) }
  function FtCol2(s: octet): Col { Col(s, Thrice(s), XTime(s), s) }
  function FtCol3(s: octet): Col { Col(s, s, Thrice(s), XTime(s)) }

  function FtTab0(x: octet): word { Pack(FtCol0(Sub(x))) }
  function FtTab1(x: octet): word { Pack(FtCol1(Sub(x))) }
  function FtTab2(x: octet): word { Pack(FtCol2(Sub(x))) }
  function FtTab3(x: octet): word { Pack(FtCol3(Sub(x))) }

  function FlTab0(x: octet): word { Pack(Col(Sub(x), 0, 0, 0)) }
  function FlTab1(x: octet): word { Pack(Col(0, Sub(x), 0, 0)) }
  function FlTab2(x: octet): word { Pack(Col(0, 0, Sub(x), 0)) }
  function FlTab3(x: octet): word { Pack(Col(0, 0, 0, Sub(x))) }

  const RCO_TAB: seq<word> := [1, 2, 4, 8, 16, 32, 64, 128, 27, 54]

  lemma UnpackPack(c: Col)
    ensures GetByte0(Pack(c)) == c.b0 && GetByte1(Pack(c)) == c.b1
    ensures GetByte2(Pack(c)) == c.b2 && GetByte3(Pack(c)) == c.b3
  {
  }

  lemma PackXor(a: Col, b: Col)
    ensures Xor(Pack(a), Pack(b)) == Pack(XorCol(a, b))
  {
  }

  lemma RorPack(c: Col)
    ensures Ror8(Pack(c)) == Pack(RotWord(c))
  {
  }

  // ---------- the tables compute the rounds ----------

  /** The macro f_rn before its key word: four lookups, one byte from each of four words. */
  function FtWord(a: word, b: word, c: word, d: word): word {
    Xor(Xor(Xor(FtTab0(GetByte0(a)), FtTab1(GetByte1(b))), FtTab2(GetByte2(c))), FtTab3(GetByte3(d)))
  }

  /** The macro f_rl, and ls_box when all four words are one. */
  function FlWord(a: word, b: word, c: word, d: word): word {
    Xor(Xor(Xor(FlTab0(GetByte0(a)), FlTab1(GetByte1(b))), FlTab2(GetByte2(c))), FlTab3(GetByte3(d)))
  }

  lemma FourPacked(a: Col, b: Col, c: Col, d: Col)
    ensures Xor(Xor(Xor(Pack(a), Pack(b)), Pack(c)), Pack(d)) == Pack(XorCol(XorCol(XorCol(a, b), c), d))
  {
    hide Pack, Xor;
    PackXor(a, b);
    PackXor(XorCol(a, b), c);
    PackXor(XorCol(XorCol(a, b), c), d);
  }

  lemma MixOfParts(p: octet, q: octet, r: octet, s: octet)
    ensures XorCol(XorCol(XorCol(FtCol0(p), FtCol1(q)), FtCol2(r)), FtCol3(s)) == MixCol(Col(p, q, r, s))
  {
    hide XTime, Plus, Thrice;
  }

  lemma PlusZero(x: octet)
    ensures Plus(x, 0) == x && Plus(0, x) == x
  {
  }

  lemma ColOfParts(p: octet, q: octet, r: octet, s: octet)
    ensures XorCol(XorCol(XorCol(Col(p, 0, 0, 0), Col(0, q, 0, 0)), Col(0, 0, r, 0)), Col(0, 0, 0, s)) ==
              Col(p, q, r, s)
  {
    hide Plus;
    PlusZero(p);
    PlusZero(q);
    PlusZero(r);
    PlusZero(s);
    PlusZero(0);
  }

  lemma FtWordMixes(a: Col, b: Col, c: Col, d: Col)
    ensures FtWord(Pack(a), Pack(b), Pack(c), Pack(d)) == Pack(MixCol(SubCol(Col(a.b0, b.b1, c.b2, d.b3))))
  {
    hide Pack, Xor, XorCol, MixCol, Sub, FtCol0, FtCol1, FtCol2, FtCol3, GetByte0, GetByte1, GetByte2, GetByte3;
    UnpackPack(a);
    UnpackPack(b);
    UnpackPack(c);
    UnpackPack(d);
    var p, q, r, s := Sub(a.b0), Sub(b.b1), Sub(c.b2), Sub(d.b3);
    FourPacked(FtCol0(p), FtCol1(q), FtCol2(r), FtCol3(s));
    MixOfParts(p, q, r, s);
  }

  lemma FlWordSubstitutes(a: Col, b: Col, c: Col, d: Col)
    ensures FlWord(Pack(a), Pack(b), Pack(c), Pack(d)) == Pack(SubCol(Col(a.b0, b.b1, c.b2, d.b3)))
  {
    hide Pack, Xor, XorCol, Sub, GetByte0, GetByte1, GetByte2, GetByte3;
    UnpackPack(a);
    UnpackPack(b);
    UnpackPack(c);
    UnpackPack(d);
    var p, q, r, s := Sub(a.b0), Sub(b.b1), Sub(c.b2), Sub(d.b3);
    FourPacked(Col(p, 0, 0, 0), Col(0, q, 0, 0), Col(0, 0, r, 0), Col(0, 0, 0, s));
    ColOfParts(p, q, r, s);
  }

  lemma RoundConstants(i: nat)
    requires i < 10
    ensures RCO_TAB[i] == Pack(Col(Rcon(i), 0, 0, 0))
  {
    var c0 := Rcon(0);
    assert c0 == 1;
    var c1 := Rcon(1);
    assert c1 == XTime(c0) == 2;
    var c2 := Rcon(2);
    assert c2 == XTime(c1) == 4;
    var c3 := Rcon(3);
    assert c3 == XTime(c2) == 8;
    var c4 := Rcon(4);
    assert c4 == XTime(c3) == 16;
    var c5 := Rcon(5);
    assert c5 == XTime(c4) == 32;
    var c6 := Rcon(6);
    assert c6 == XTime(c5) == 64;
    var c7 := Rcon(7);
    assert c7 == XTime(c6) == 128;
    var c8 := Rcon(8);
    assert c8 == XTime(c7) == 27;
    var c9 := Rcon(9);
    assert c9 == XTime(c8) == 54;
  }

  // ---------- key expansion and encryption ----------

  /** The four words from position i hold the block b. */
  predicate Holds(w: seq<word>, i: nat, b: Block) {
    && i + 4 <= |w|
    && w[i] == Pack(b.c0) && w[i + 1] == Pack(b.c1)
    && w[i + 2] == Pack(b.c2) && w[i + 3] == Pack(b.c3)
  }

  /** The first n words of the expanded key are in place. */
  predicate Schedules(enc: seq<word>, key: Block, n: nat) {
    && n <= |enc|
    && forall j: nat :: j < n ==> enc[j] == Pack(Expanded(key, j))
  }

  /** Column c of a block laid out as sixteen bytes, section 3.4 of FIPS 197. */
  function ColAt(bytes: seq<octet>, c: nat): Col
    requires 4 * c + 4 <= |bytes|
  {
    Col(bytes[4 * c], bytes[4 * c + 1], bytes[4 * c + 2], bytes[4 * c + 3])
  }

  function BlockOf(bytes: seq<octet>): Block
    requires |bytes| == 16
  {
    Block(ColAt(bytes, 0), ColAt(bytes, 1), ColAt(bytes, 2), ColAt(bytes, 3))
  }

  function LsBox(x: word): word {
    FlWord(x, x, x, x)
  }

  lemma LsBoxSubstitutes(c: Col)
    ensures LsBox(Pack(c)) == Pack(SubCol(c))
  {
    hide Pack, SubCol, FlWord;
    FlWordSubstitutes(c, c, c, c);
  }

  lemma XorColSym(a: Col, b: Col)
    ensures XorCol(a, b) == XorCol(b, a)
  {
    PlusSym(a.b0, b.b0);
    PlusSym(a.b1, b.b1);
    PlusSym(a.b2, b.b2);
    PlusSym(a.b3, b.b3);
    hide Plus;
  }

  lemma PlusSym(a: octet, b: octet)
    ensures Plus(a, b) == Plus(b, a)
  {
  }

  /** The macro loop4 computes the four words of one more round key. */
  lemma NextRoundKey(key: Block, i: nat)
    requires i < 10
    ensures Xor(Xor(LsBox(Ror8(Pack(Expanded(key, 4 * i + 3)))), RCO_TAB[i]), Pack(Expanded(key, 4 * i)))
         == Pack(Expanded(key, 4 * i + 4))
    ensures Xor(Pack(Expanded(key, 4 * i + 4)), Pack(Expanded(key, 4 * i + 1))) == Pack(Expanded(key, 4 * i + 5))
    ensures Xor(Pack(Expanded(key, 4 * i + 5)), Pack(Expanded(key, 4 * i + 2))) == Pack(Expanded(key, 4 * i + 6))
    ensures Xor(Pack(Expanded(key, 4 * i + 6)), Pack(Expanded(key, 4 * i + 3))) == Pack(Expanded(key, 4 * i + 7))
  {
    hide Expanded, Pack, Xor, LsBox, Ror8;
    FirstWord(key, i);
    NextWord(key, 4 * i + 5);
    NextWord(key, 4 * i + 6);
    NextWord(key, 4 * i + 7);
  }

  lemma FirstWord(key: Block, i: nat)
    requires i < 10
    ensures Xor(Xor(LsBox(Ror8(Pack(Expanded(key, 4 * i + 3)))), RCO_TAB[i]), Pack(Expanded(key, 4 * i)))
         == Pack(Expanded(key, 4 * i + 4))
  {
    hide Expanded, Pack, Xor, XorCol, LsBox, Ror8, Rcon, SubCol, RotWord;
    var prev := Expanded(key, 4 * i + 3);
    var mixed, rcon := SubCol(RotWord(prev)), Col(Rcon(i), 0, 0, 0);
    RorPack(prev);
    LsBoxSubstitutes(RotWord(prev));
    RoundConstants(i);
    PackXor(mixed, rcon);
    PackXor(XorCol(mixed, rcon), Expanded(key, 4 * i));
    XorColSym(XorCol(mixed, rcon), Expanded(key, 4 * i));
    ExpandedFirst(key, i);
  }

  lemma ExpandedFirst(key: Block, i: nat)
    ensures Expanded(key, 4 * i + 4)
         == XorCol(Expanded(key, 4 * i), XorCol(SubCol(RotWord(Expanded(key, 4 * i + 3))), Col(Rcon(i), 0, 0, 0)))
  {
    hide XorCol, SubCol, RotWord, Rcon;
    assert (4 * i + 4) / 4 - 1 == i;
  }

  lemma NextWord(key: Block, j: nat)
    requires j >= 4 && j % 4 != 0
    ensures Xor(Pack(Expanded(key, j - 1)), Pack(Expanded(key, j - 4))) == Pack(Expanded(key, j))
  {
    hide Pack, Xor, XorCol;
    PackXor(Expanded(key, j - 1), Expanded(key, j - 4));
    XorColSym(Expanded(key, j - 1), Expanded(key, j - 4));
  }

  lemma LoadedBlock(bytes: seq<octet>, w: seq<word>)
    requires |bytes| == 16 && 4 <= |w|
    requires forall c: nat :: c < 4 ==> w[c] == Pack(ColAt(bytes, c))
    ensures Holds(w, 0, BlockOf(bytes))
  {
    hide Pack, ColAt;
  }

  lemma ScheduleHolds(enc: seq<word>, key: Block, r: nat)
    requires Schedules(enc, key, 44) && r <= 10
    ensures Holds(enc, 4 * r, RoundKey(key, r))
  {
    hide Expanded, Pack;
  }

  lemma ScheduleStarts(enc: seq<word>, key: Block)
    requires Holds(enc, 0, key)
    ensures Schedules(enc, key, 4)
  {
    hide Pack;
    forall j: nat | j < 4 ensures enc[j] == Pack(Expanded(key, j)) {
      FirstColumns(key, j);
    }
  }

  lemma FirstColumns(key: Block, j: nat)
    requires j < 4
    ensures Expanded(key, j) ==
              (if j == 0 then key.c0 else if j == 1 then key.c1 else if j == 2 then key.c2 else key.c3)
  {
  }

  lemma ScheduleGrows(enc: seq<word>, enc': seq<word>, key: Block, n: nat)
    requires Schedules(enc, key, n) && n + 4 <= |enc'| && enc'[..n] == enc[..n]
    requires enc'[n] == Pack(Expanded(key, n)) && enc'[n + 1] == Pack(Expanded(key, n + 1))
    requires enc'[n + 2] == Pack(Expanded(key, n + 2)) && enc'[n + 3] == Pack(Expanded(key, n + 3))
    ensures Schedules(enc', key, n + 4)
  {
    hide Expanded, Pack;
    forall j: nat | j < n + 4 ensures enc'[j] == Pack(Expanded(key, j)) {
      if j < n {
        assert enc'[j] == enc'[..n][j];
      }
    }
  }

  /** The 128-bit path of AES_ExpandKey: the schedule of section 5.2. */
  method ExpandKey(keyEnc: array<word>, inKey: seq<octet>)
    requires keyEnc.Length == 60 && |inKey| == 16
    modifies keyEnc
    ensures Schedules(keyEnc[..], BlockOf(inKey), 44)
  {
    hide Schedules, Expanded, Pack, Xor, LsBox, Ror8, ColAt;
    ghost var key := BlockOf(inKey);
    keyEnc[0] := Pack(ColAt(inKey, 0));
    keyEnc[1] := Pack(ColAt(inKey, 1));
    keyEnc[2] := Pack(ColAt(inKey, 2));
    keyEnc[3] := Pack(ColAt(inKey, 3));
    ScheduleStarts(keyEnc[..], key);
    var t := keyEnc[3];
    FirstColumns(key, 3);
    var i := 0;
    while i < 10
      invariant 0 <= i <= 10
      invariant Schedules(keyEnc[..], key, 4 * i + 4)
      invariant t == Pack(Expanded(key, 4 * i + 3))
    {
      t := Loop4(keyEnc, t, i, key);
      i := i + 1;
    }
  }

  /** The macro loop4. */
  method Loop4(keyEnc: array<word>, t: word, i: nat, ghost key: Block) returns (t': word)
    requires keyEnc.Length == 60 && i < 10
    requires Schedules(keyEnc[..], key, 4 * i + 4) && t == Pack(Expanded(key, 4 * i + 3))
    modifies keyEnc
    ensures Schedules(keyEnc[..], key, 4 * i + 8) && t' == Pack(Expanded(key, 4 * i + 7))
  {
    hide Expanded, Pack, Xor, LsBox, Ror8;
    ghost var enc := keyEnc[..];
    NextRoundKey(key, i);
    t' := Ror8(t);
    t' := Xor(LsBox(t'), RCO_TAB[i]);
    t' := Xor(t', keyEnc[4 * i]);
    keyEnc[4 * i + 4] := t';
    t' := Xor(t', keyEnc[4 * i + 1]);
    keyEnc[4 * i + 5] := t';
    t' := Xor(t', keyEnc[4 * i + 2]);
    keyEnc[4 * i + 6] := t';
    t' := Xor(t', keyEnc[4 * i + 3]);
    keyEnc[4 * i + 7] := t';
    ScheduleGrows(enc, keyEnc[..], key, 4 * i + 4);
  }

  lemma NormalRoundWord(a: Col, b: Col, c: Col, d: Col, k: Col)
    ensures Xor(FtWord(Pack(a), Pack(b), Pack(c), Pack(d)), Pack(k))
         == Pack(XorCol(MixCol(SubCol(Col(a.b0, b.b1, c.b2, d.b3))), k))
  {
    hide Pack, Xor, XorCol, MixCol, SubCol, FtWord;
    FtWordMixes(a, b, c, d);
    PackXor(MixCol(SubCol(Col(a.b0, b.b1, c.b2, d.b3))), k);
  }

  lemma LastRoundWord(a: Col, b: Col, c: Col, d: Col, k: Col)
    ensures Xor(FlWord(Pack(a), Pack(b), Pack(c), Pack(d)), Pack(k))
         == Pack(XorCol(SubCol(Col(a.b0, b.b1, c.b2, d.b3)), k))
  {
    hide Pack, Xor, XorCol, SubCol, FlWord;
    FlWordSubstitutes(a, b, c, d);
    PackXor(SubCol(Col(a.b0, b.b1, c.b2, d.b3)), k);
  }

  function NormalRound(s: Block, k: Block): Block {
    AddRoundKey(MixColumns(ShiftRows(SubBytes(s))), k)
  }

  function LastRound(s: Block, k: Block): Block {
    AddRoundKey(ShiftRows(SubBytes(s)), k)
  }

  /** The macro f_nround: one full round from bi into bo. */
  method NormalRoundInto(bo: array<word>, bi: array<word>, keyEnc: array<word>, kp: nat, ghost s: Block, ghost k: Block)
    returns (kp': nat)
    requires bo.Length == bi.Length == 4 && bo != bi && bo != keyEnc
    requires Holds(bi[..], 0, s) && Holds(keyEnc[..], kp, k)
    modifies bo
    ensures Holds(bo[..], 0, NormalRound(s, k)) && kp' == kp + 4
  {
    hide Pack, Xor, XorCol, MixCol, SubCol, FtWord;
    NormalRoundWord(s.c0, s.c1, s.c2, s.c3, k.c0);
    NormalRoundWord(s.c1, s.c2, s.c3, s.c0, k.c1);
    NormalRoundWord(s.c2, s.c3, s.c0, s.c1, k.c2);
    NormalRoundWord(s.c3, s.c0, s.c1, s.c2, k.c3);
    bo[0] := Xor(FtWord(bi[0], bi[1], bi[2], bi[3]), keyEnc[kp]);
    bo[1] := Xor(FtWord(bi[1], bi[2], bi[3], bi[0]), keyEnc[kp + 1]);
    bo[2] := Xor(FtWord(bi[2], bi[3], bi[0], bi[1]), keyEnc[kp + 2]);
    bo[3] := Xor(FtWord(bi[3], bi[0], bi[1], bi[2]), keyEnc[kp + 3]);
    ShiftThenSub(s);
    kp' := kp + 4;
  }

  lemma ShiftThenSub(s: Block)
    ensures ShiftRows(SubBytes(s))
         == Block(SubCol(Col(s.c0.b0, s.c1.b1, s.c2.b2, s.c3.b3)), SubCol(Col(s.c1.b0, s.c2.b1, s.c3.b2, s.c0.b3)),
                  SubCol(Col(s.c2.b0, s.c3.b1, s.c0.b2, s.c1.b3)), SubCol(Col(s.c3.b0, s.c0.b1, s.c1.b2, s.c2.b3)))
  {
    hide Sub;
  }

  /** The macro f_lround: the final round, without mixing. */
  method LastRoundInto(bo: array<word>, bi: array<word>, keyEnc: array<word>, kp: nat, ghost s: Block, ghost k: Block)
    requires bo.Length == bi.Length == 4 && bo != bi && bo != keyEnc
    requires Holds(bi[..], 0, s) && Holds(keyEnc[..], kp, k)
    modifies bo
    ensures Holds(bo[..], 0, LastRound(s, k))
  {
    hide Pack, Xor, XorCol, SubCol, FlWord;
    LastRoundWord(s.c0, s.c1, s.c2, s.c3, k.c0);
    LastRoundWord(s.c1, s.c2, s.c3, s.c0, k.c1);
    LastRoundWord(s.c2, s.c3, s.c0, s.c1, k.c2);
    LastRoundWord(s.c3, s.c0, s.c1, s.c2, k.c3);
    bo[0] := Xor(FlWord(bi[0], bi[1], bi[2], bi[3]), keyEnc[kp]);
    bo[1] := Xor(FlWord(bi[1], bi[2], bi[3], bi[0]), keyEnc[kp + 1]);
    bo[2] := Xor(FlWord(bi[2], bi[3], bi[0], bi[1]), keyEnc[kp + 2]);
    bo[3] := Xor(FlWord(bi[3], bi[0], bi[1], bi[2]), keyEnc[kp + 3]);
    ShiftThenSub(s);
  }

  lemma OneMoreRound(key: Block, s: Block, r: nat)
    ensures AfterRounds(key, s, r + 1) == NormalRound(AfterRounds(key, s, r), RoundKey(key, r + 1))
  {
    hide RoundKey, AddRoundKey, MixColumns, ShiftRows, SubBytes;
  }

  method AddFirstKey(b0: array<word>, keyEnc: array<word>, inp: seq<octet>, ghost key: Block)
    requires b0.Length == 4 && |inp| == 16 && b0 != keyEnc && Schedules(keyEnc[..], key, 44)
    modifies b0
    ensures Holds(b0[..], 0, AfterRounds(key, BlockOf(inp), 0))
  {
    hide Pack, Xor, XorCol, ColAt, Schedules, RoundKey;
    ghost var s, k := BlockOf(inp), RoundKey(key, 0);
    ScheduleHolds(keyEnc[..], key, 0);
    PackXor(s.c0, k.c0);
    PackXor(s.c1, k.c1);
    PackXor(s.c2, k.c2);
    PackXor(s.c3, k.c3);
    b0[0] := Xor(Pack(ColAt(inp, 0)), keyEnc[0]);
    b0[1] := Xor(Pack(ColAt(inp, 1)), keyEnc[1]);
    b0[2] := Xor(Pack(ColAt(inp, 2)), keyEnc[2]);
    b0[3] := Xor(Pack(ColAt(inp, 3)), keyEnc[3]);
  }

  /** f_nround for round r + 1 of the encryption of s. */
  method NextRound(bo: array<word>, bi: array<word>, keyEnc: array<word>, kp: nat, ghost key: Block, ghost s: Block,
                   ghost r: nat)
    returns (kp': nat)
    requires bo.Length == bi.Length == 4 && bo != bi && bo != keyEnc
    requires r < 9 && kp == 4 * (r + 1) && Schedules(keyEnc[..], key, 44)
    requires Holds(bi[..], 0, AfterRounds(key, s, r))
    modifies bo
    ensures Holds(bo[..], 0, AfterRounds(key, s, r + 1)) && kp' == kp + 4
  {
    hide Holds, Schedules, AfterRounds, RoundKey, NormalRound;
    ScheduleHolds(keyEnc[..], key, r + 1);
    OneMoreRound(key, s, r);
    kp' := NormalRoundInto(bo, bi, keyEnc, kp, AfterRounds(key, s, r), RoundKey(key, r + 1));
  }

  method StoreWord(out: array<octet>, c: nat, w: word)
    requires c < 4 && out.Length == 16
    modifies out
    ensures ColAt(out[..], c) == Unpack(w)
    ensures forall d: nat :: d < 4 && d != c ==> ColAt(out[..], d) == old(ColAt(out[..], d))
  {
    hide GetByte0, GetByte1, GetByte2, GetByte3;
    out[4 * c], out[4 * c + 1], out[4 * c + 2], out[4 * c + 3] := GetByte0(w), GetByte1(w), GetByte2(w), GetByte3(w);
  }

  /** AES_Encrypt with a 128-bit key computes Cipher. */
  method Encrypt(keyEnc: array<word>, out: array<octet>, inp: array<octet>, ghost key: Block)
    requires keyEnc.Length == 60 && out.Length == 16 && inp.Length == 16
    requires Schedules(keyEnc[..], key, 44)
    modifies out
    ensures BlockOf(out[..]) == Cipher(key, old(BlockOf(inp[..])))
  {
    hide Holds, Schedules, AfterRounds, RoundKey, LastRound, Pack, Unpack, ColAt, AddRoundKey, ShiftRows, SubBytes;
    ghost var s := BlockOf(inp[..]);
    var b0, b1 := new word[4], new word[4];
    AddFirstKey(b0, keyEnc, inp[..], key);
    var kp := 4;
    kp := NextRound(b1, b0, keyEnc, kp, key, s, 0);
    kp := NextRound(b0, b1, keyEnc, kp, key, s, 1);
    kp := NextRound(b1, b0, keyEnc, kp, key, s, 2);
    kp := NextRound(b0, b1, keyEnc, kp, key, s, 3);
    kp := NextRound(b1, b0, keyEnc, kp, key, s, 4);
    kp := NextRound(b0, b1, keyEnc, kp, key, s, 5);
    kp := NextRound(b1, b0, keyEnc, kp, key, s, 6);
    kp := NextRound(b0, b1, keyEnc, kp, key, s, 7);
    kp := NextRound(b1, b0, keyEnc, kp, key, s, 8);
    ScheduleHolds(keyEnc[..], key, 10);
    LastRoundInto(b0, b1, keyEnc, kp, AfterRounds(key, s, 9), RoundKey(key, 10));
    ghost var r := Cipher(key, s);
    CipherIsLastRound(key, s);
    HeldWords(b0[..], r);
    StoreWord(out, 0, b0[0]);
    StoreWord(out, 1, b0[1]);
    StoreWord(out, 2, b0[2]);
    StoreWord(out, 3, b0[3]);
  }

  lemma CipherIsLastRound(key: Block, s: Block)
    ensures Cipher(key, s) == LastRound(AfterRounds(key, s, 9), RoundKey(key, 10))
  {
    hide AfterRounds, RoundKey, AddRoundKey, ShiftRows, SubBytes;
  }

  lemma HeldWords(w: seq<word>, b: Block)
    requires Holds(w, 0, b) && |w| == 4
    ensures Unpack(w[0]) == b.c0 && Unpack(w[1]) == b.c1 && Unpack(w[2]) == b.c2 && Unpack(w[3]) == b.c3
  {
    hide Pack, GetByte0, GetByte1, GetByte2, GetByte3;
    UnpackPack(b.c0);
    UnpackPack(b.c1);
    UnpackPack(b.c2);
    UnpackPack(b.c3);
  }

  // ---------- the generator ----------

  const COUNTERS: nat := 0x1_0000_0000

  /** The four little-endian bytes of an unsigned 32-bit counter after c increments from 0. */
  function CounterCol(c: nat): Col {
    var v := c % COUNTERS;
    Col(ByteOf(v, 1), ByteOf(v, 0x100), ByteOf(v, 0x1_0000), ByteOf(v, 0x100_0000))
  }

  function ByteOf(v: nat, unit: nat): octet
    requires unit > 0
  {
    (v / unit % 256) as octet
  }

  /** The four bytes, least significant first, are the counter modulo 2^32. */
  lemma CounterValue(c: nat)
    ensures var b := CounterCol(c);
            b.b0 as nat + 0x100 * b.b1 as nat + 0x1_0000 * b.b2 as nat + 0x100_0000 * b.b3 as nat == c % COUNTERS
  {
    hide ByteOf;
    var v := c % COUNTERS;
    ByteBack(v, 1);
    ByteBack(v, 0x100);
    ByteBack(v, 0x1_0000);
    ByteBack(v, 0x100_0000);
    FourBytes(v);
  }

  lemma ByteBack(v: nat, unit: nat)
    requires unit > 0
    ensures ByteOf(v, unit) as nat == v / unit % 256
  {
    OctetBack(v / unit % 256);
  }

  lemma FourBytes(v: nat)
    requires v < COUNTERS
    ensures v / 1 % 256 + 0x100 * (v / 0x100 % 256) + 0x1_0000 * (v / 0x1_0000 % 256)
            + 0x100_0000 * (v / 0x100_0000 % 256) == v
  {
    var a, b, c := v / 0x100, v / 0x1_0000, v / 0x100_0000;
    assert b == a / 0x100 && c == b / 0x100;
  }

  function CounterBlock(c: nat): Block {
    Block(CounterCol(c), CounterCol(c + 1), CounterCol(c + 2), CounterCol(c + 3))
  }

  function ColumnOf(b: Block, i: nat): Col {
    if i == 0 then b.c0 else if i == 1 then b.c1 else if i == 2 then b.c2 else b.c3
  }

  /** Draw n of the generator with this key. */
  function Stream(key: Block, n: nat): word {
    Pack(ColumnOf(Cipher(key, CounterBlock(n - n % 4)), n % 4))
  }

  lemma SameCounter(c: nat, d: nat)
    requires c % COUNTERS == d % COUNTERS
    ensures CounterCol(c) == CounterCol(d) && (c + 1) % COUNTERS == (d + 1) % COUNTERS
  {
    hide ByteOf;
    SameSuccessor(c, d, COUNTERS);
  }

  lemma SameSuccessor(c: nat, d: nat, m: nat)
    requires m > 1 && c % m == d % m
    ensures (c + 1) % m == (d + 1) % m
  {
    SuccessorMod(c, m);
    SuccessorMod(d, m);
  }

  lemma SuccessorMod(c: nat, m: nat)
    requires m > 1
    ensures (c + 1) % m == if c % m + 1 == m then 0 else c % m + 1
  {
    var q, r := c / m, c % m;
    assert c == q * m + r;
    if r + 1 == m {
      assert c + 1 == (q + 1) * m + 0;
      DivModUnique(c + 1, m, q + 1, 0);
    } else {
      DivModUnique(c + 1, m, q, r + 1);
    }
  }

  /** The stream has period 2^32: the counters wrap between two blocks, never inside one. */
  lemma StreamRepeats(key: Block, n: nat)
    ensures Stream(key, n + COUNTERS) == Stream(key, n)
  {
    hide CounterCol, Cipher, Pack;
    var c := n - n % 4;
    assert (n + COUNTERS) - (n + COUNTERS) % 4 == c + COUNTERS && (n + COUNTERS) % 4 == n % 4;
    SameCounter(c, c + COUNTERS);
    SameCounter(c + 1, c + 1 + COUNTERS);
    SameCounter(c + 2, c + 2 + COUNTERS);
    SameCounter(c + 3, c + 3 + COUNTERS);
  }

  /** After n draws, the next word to hand out and the next counter to encrypt. */
  predicate InStep(n: nat, index: nat, counter: nat) {
    && 1 <= index <= 4 && (n - index) % 4 == 0
    && counter == (n - index + 4) % COUNTERS
  }

  lemma NextDraw(n: nat, index: nat, counter: nat)
    requires InStep(n, index, counter)
    ensures if index == 4 then n % 4 == 0 && counter == n % COUNTERS && InStep(n + 1, 1, (n + 4) % COUNTERS)
            else n >= index == n % 4 && InStep(n + 1, index + 1, counter)
  {
    var q := (n - index) / 4;
    assert n == 4 * q + index;
    if index == 4 {
      assert n - n % 4 == n;
    }
  }

  class Prng {
    var enabled: bool
    const keyEnc: array<word>
    const values: array<word>
    var inputCounter: nat
    var valueIndex: nat
    /** The key of the last start and the number of draws since. */
    ghost var key: Block
    ghost var drawn: nat

    ghost predicate Valid()
      reads this, keyEnc, values
    {
      && keyEnc.Length == 60 && values.Length == 4 && keyEnc != values
      && (enabled ==>
            && Schedules(keyEnc[..], key, 44)
            && InStep(drawn, valueIndex, inputCounter)
            && (valueIndex < 4 ==>
                  drawn >= valueIndex && Holds(values[..], 0, Cipher(key, CounterBlock(drawn - valueIndex)))))
    }

    constructor ()
      ensures Valid() && !enabled && fresh(keyEnc) && fresh(values)
    {
      enabled, inputCounter, valueIndex := false, 0, 0;
      keyEnc, values := new word[60], new word[4];
    }

    /** PRNG_Start */
    method Start(seed: seq<octet>)
      requires Valid() && |seed| == 16
      modifies this, keyEnc
      ensures Valid() && enabled && key == BlockOf(seed) && drawn == 0
    {
      hide Schedules, BlockOf, Holds;
      ExpandKey(keyEnc, seed);
      valueIndex, inputCounter, enabled := 4, 0, true;
      key, drawn := BlockOf(seed), 0;
    }

    /** PRNG_Stop */
    method Stop()
      requires Valid()
      modifies this
      ensures Valid() && !enabled
    {
      enabled := false;
    }

    /** PRNG_Random: the draws since the start are the stream of the key, in order. */
    method Random() returns (result: word)
      requires Valid()
      modifies this, values
      ensures Valid() && enabled == old(enabled) && key == old(key)
      ensures if old(enabled) then result == Stream(key, old(drawn)) && drawn == old(drawn) + 1
              else result == 0 && drawn == old(drawn)
    {
      hide Schedules, Cipher, CounterBlock, Pack, InStep;
      if !enabled {
        return 0;
      }
      NextDraw(drawn, valueIndex, inputCounter);
      if valueIndex >= 4 {
        Generate();
      }
      result := values[valueIndex];
      valueIndex := valueIndex + 1;
      drawn := drawn + 1;
    }

    /** PRNG_Generate, called when the last block is used up. */
    method Generate()
      requires Valid() && enabled && valueIndex == 4
      modifies this, values
      ensures keyEnc.Length == 60 && values.Length == 4 && Schedules(keyEnc[..], key, 44)
      ensures enabled && key == old(key) && drawn == old(drawn)
      ensures valueIndex == 0 && inputCounter == (drawn + 4) % COUNTERS
      ensures Holds(values[..], 0, Cipher(key, CounterBlock(drawn)))
    {
      hide Schedules, Cipher, Pack, CounterCol, InStep;
      NextDraw(drawn, valueIndex, inputCounter);
      var input, output := new octet[16], new octet[16];
      ghost var c := drawn;
      var i := 0;
      while i < 4
        invariant 0 <= i <= 4 && inputCounter == (c + i) % COUNTERS
        invariant enabled && key == old(key) && drawn == c && Schedules(keyEnc[..], key, 44)
        invariant forall j: nat :: j < i ==> ColAt(input[..], j) == CounterCol(c + j)
      {
        PutCounter(input, i, inputCounter);
        SameCounter(inputCounter, c + i);
        inputCounter := (inputCounter + 1) % COUNTERS;
        i := i + 1;
      }
      BlockOfCounters(input[..], c);
      Encrypt(keyEnc, output, input, key);
      i := 0;
      while i < 4
        invariant 0 <= i <= 4 && inputCounter == (c + 4) % COUNTERS
        invariant enabled && key == old(key) && drawn == c && Schedules(keyEnc[..], key, 44)
        invariant BlockOf(output[..]) == Cipher(key, CounterBlock(c))
        invariant forall j: nat :: j < i ==> values[j] == Pack(ColAt(output[..], j))
      {
        values[i] := Pack(ColAt(output[..], i));
        i := i + 1;
      }
      LoadedBlock(output[..], values[..]);
      valueIndex := 0;
    }
  }

  method PutCounter(input: array<octet>, i: nat, counter: nat)
    requires input.Length == 16 && i < 4 && counter < COUNTERS
    modifies input
    ensures ColAt(input[..], i) == CounterCol(counter)
    ensures forall d: nat :: d < 4 && d != i ==> ColAt(input[..], d) == old(ColAt(input[..], d))
  {
    hide ByteOf;
    input[4 * i], input[4 * i + 1], input[4 * i + 2], input[4 * i + 3] :=
      ByteOf(counter, 1), ByteOf(counter, 0x100), ByteOf(counter, 0x1_0000), ByteOf(counter, 0x100_0000);
  }

  lemma BlockOfCounters(bytes: seq<octet>, c: nat)
    requires |bytes| == 16
    requires forall j: nat :: j < 4 ==> ColAt(bytes, j) == CounterCol(c + j)
    ensures BlockOf(bytes) == CounterBlock(c)
  {
    hide ColAt, CounterCol;
  }
}
