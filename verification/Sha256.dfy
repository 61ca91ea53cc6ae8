/** SHA-256 as sections 5 and 6.2 of FIPS 180-4 define it, the byte-by-byte context that
    computes it, and the demo digest built on it. */
module Sha256 {
  import opened Bits
  import opened Wrappers

  type octet = bv8
  type word = bv32

  const K: seq<word> := [
    0x428a2f98, 0x71374491, 0xb5c0fbcf, 0xe9b5dba5, 0x3956c25b, 0x59f111f1, 0x923f82a4, 0xab1c5ed5,
    0xd807aa98, 0x12835b01, 0x243185be, 0x550c7dc3, 0x72be5d74, 0x80deb1fe, 0x9bdc06a7, 0xc19bf174,
    0xe49b69c1, 0xefbe4786, 0x0fc19dc6, 0x240ca1cc, 0x2de92c6f, 0x4a7484aa, 0x5cb0a9dc, 0x76f988da,
    0x983e5152, 0xa831c66d, 0xb00327c8, 0xbf597fc7, 0xc6e00bf3, 0xd5a79147, 0x06ca6351, 0x14292967,
    0x27b70a85, 0x2e1b2138, 0x4d2c6dfc, 0x53380d13, 0x650a7354, 0x766a0abb, 0x81c2c92e, 0x92722c85,
    0xa2bfe8a1, 0xa81a664b, 0xc24b8b70, 0xc76c51a3, 0xd192e819, 0xd6990624, 0xf40e3585, 0x106aa070,
    0x19a4c116, 0x1e376c08, 0x2748774c, 0x34b0bcb5, 0x391c0cb3, 0x4ed8aa4a, 0x5b9cca4f, 0x682e6ff3,
    0x748f82ee, 0x78a5636f, 0x84c87814, 0x8cc70208, 0x90befffa, 0xa4506ceb, 0xbef9a3f7, 0xc67178f2]

  // ---------- the standard ----------

  /** Addition modulo 2^32. */
  function Add(a: word, b: word): word {
    a + b
  }

  function Ror(v: word, n: nat): word
    requires 0 < n < 32
  {
    (v >> n) | (v << (32 - n))
  }

  function SmallSigma0(x: word): word {
    Ror(x, 7) ^ Ror(x, 18) ^ (x >> 3)
  }

  function SmallSigma1(x: word): word {
    Ror(x, 17) ^ Ror(x, 19) ^ (x >> 10)
  }

  function BigSigma0(x: word): word {
    Ror(x, 2) ^ Ror(x, 13) ^ Ror(x, 22)
  }

  function BigSigma1(x: word): word {
    Ror(x, 6) ^ Ror(x, 11) ^ Ror(x, 25)
  }

  function Ch(x: word, y: word, z: word): word {
    (x & y) ^ (!x & z)
  }

  function Maj(x: word, y: word, z: word): word {
    (x & y) ^ (x & z) ^ (y & z)
  }

  /** Ch takes bits of y where x has ones, and of z elsewhere. */
  lemma Choose(x: word, y: word, z: word)
    ensures Ch(x, y, z) & x == y & x && Ch(x, y, z) & !x == z & !x
  {
  }

  /** Maj takes what two of the three agree on. */
  lemma Majority(x: word, y: word)
    ensures Maj(x, x, y) == x && Maj(x, y, x) == x && Maj(y, x, x) == x
  {
  }

  /** Four octets as a word, most significant first. */
  function Word(a: octet, b: octet, c: octet, d: octet): word {
    ((a as word) << 24) | ((b as word) << 16) | ((c as word) << 8) | (d as word)
  }

  /** The first octet is the highest, and octets written come back. */
  lemma WordIsBigEndian(a: octet, b: octet, c: octet, d: octet)
    ensures Word(a, b, c, d) >> 24 == a as word && (Word(a, b, c, d) >> 16) & 0xff == b as word
    ensures (Word(a, b, c, d) >> 8) & 0xff == c as word && Word(a, b, c, d) & 0xff == d as word
    ensures WordOctets(Word(a, b, c, d)) == [a, b, c, d]
  {
  }

  /** The message schedule of section 6.2.2, step 1. */
  function Schedule(block: seq<octet>, t: nat): word
    requires |block| == 64
  {
    if t < 16 then Word(block[4 * t], block[4 * t + 1], block[4 * t + 2], block[4 * t + 3])
    else
      Add(Add(Add(Schedule(block, t - 16), SmallSigma0(Schedule(block, t - 15))), Schedule(block, t - 7)),
          SmallSigma1(Schedule(block, t - 2)))
  }

  datatype Regs = Regs(a: word, b: word, c: word, d: word, e: word, f: word, g: word, h: word)

  /** One round of section 6.2.2, step 3. */
  function Round(r: Regs, k: word, w: word): Regs {
    var t1 := Add(Add(Add(Add(r.h, BigSigma1(r.e)), Ch(r.e, r.f, r.g)), k), w);
    var t2 := Add(BigSigma0(r.a), Maj(r.a, r.b, r.c));
    Regs(Add(t1, t2), r.a, r.b, r.c, Add(r.d, t1), r.e, r.f, r.g)
  }

  function Rounds(r: Regs, block: seq<octet>, t: nat): Regs
    requires |block| == 64 && t <= |K|
  {
    if t == 0 then r else Round(Rounds(r, block, t - 1), K[t - 1], Schedule(block, t - 1))
  }

  function Plus(r: Regs, s: Regs): Regs {
    Regs(Add(r.a, s.a), Add(r.b, s.b), Add(r.c, s.c), Add(r.d, s.d),
         Add(r.e, s.e), Add(r.f, s.f), Add(r.g, s.g), Add(r.h, s.h))
  }

  function Compress(r: Regs, block: seq<octet>): Regs
    requires |block| == 64
  {
    Plus(r, Rounds(r, block, |K|))
  }

  const IV: Regs := Regs(0x6a09e667, 0xbb67ae85, 0x3c6ef372, 0xa54ff53a,
                         0x510e527f, 0x9b05688c, 0x1f83d9ab, 0x5be0cd19)

  /** The hash value after the complete blocks of a message. */
  function HashBlocks(m: seq<octet>): Regs
    requires |m| % 64 == 0
  {
    if m == [] then IV
    else Compress(HashBlocks(m[..|m| - 64]), m[|m| - 64..])
  }

  /** Number of zero octets in the padding of section 5.1.1. */
  function Zeros(n: nat): (z: nat)
    ensures z < 64 && (n + 1 + z + 8) % 64 == 0
  {
    (119 - n % 64) % 64
  }

  const TWO_64: nat := 0x1_0000_0000_0000_0000

  /** Octet i of a 64-bit number, most significant first. */
  function LengthOctet(bits: nat, i: nat): octet
    requires i < 8
  {
    (bits / [0x100_0000_0000_0000, 0x1_0000_0000_0000, 0x100_0000_0000, 0x1_0000_0000,
             0x100_0000, 0x1_0000, 0x100, 1][i] % 256) as octet
  }

  function BigEndian(s: seq<octet>): nat {
    if s == [] then 0 else 256 * BigEndian(s[..|s| - 1]) + s[|s| - 1] as nat
  }

  /** The octets of a length are those of the number in base 256, most significant first. */
  lemma LengthValue(bits: nat)
    requires bits < TWO_64
    ensures BigEndian(LengthOctets(bits)) == bits
  {
    assert LengthOctets(bits)[..8] == LengthOctets(bits);
    LengthPrefix(bits, 8);
  }

  /** The first i octets. */
  function Upper(bits: nat, i: nat): nat
    requires i <= 8
  {
    bits / [TWO_64, 0x100_0000_0000_0000, 0x1_0000_0000_0000, 0x100_0000_0000, 0x1_0000_0000,
            0x100_0000, 0x1_0000, 0x100, 1][i]
  }

  lemma {:induction false} LengthPrefix(bits: nat, i: nat)
    requires bits < TWO_64 && i <= 8
    ensures BigEndian(LengthOctets(bits)[..i]) == Upper(bits, i)
  {
    if i == 0 {
      assert Upper(bits, 0) == 0;
    } else {
      hide Upper, LengthOctet, BigEndian;
      var t, o := LengthOctets(bits)[..i - 1], LengthOctet(bits, i - 1);
      assert LengthOctets(bits)[..i] == t + [o];
      LengthPrefix(bits, i - 1);
      BigEndianSnoc(t, o);
      OctetAt(bits, i - 1);
      UpperStep(bits, i - 1);
    }
  }

  lemma BigEndianSnoc(t: seq<octet>, o: octet)
    ensures BigEndian(t + [o]) == 256 * BigEndian(t) + o as nat
  {
  }

  lemma OctetAt(bits: nat, i: nat)
    requires i < 8
    ensures LengthOctet(bits, i) as nat == Upper(bits, i + 1) % 256
  {
    OctetBack(Upper(bits, i + 1) % 256);
  }

  lemma UpperStep(bits: nat, i: nat)
    requires i < 8
    ensures Upper(bits, i) == Upper(bits, i + 1) / 256
  {
    if i == 0 {
      assert bits / TWO_64 == bits / 0x100_0000_0000_0000 / 256;
    } else if i == 1 {
      assert bits / 0x100_0000_0000_0000 == bits / 0x1_0000_0000_0000 / 256;
    }
  }

  function LengthOctets(bits: nat): (s: seq<octet>)
    ensures |s| == 8
  {
    seq(8, i requires 0 <= i < 8 => LengthOctet(bits, i))
  }

  /** The message length in bits as eight octets, modulo 2^64. */
  function Length(n: nat): (s: seq<octet>)
    ensures |s| == 8
  {
    LengthOctets(8 * n % TWO_64)
  }

  function ZeroOctets(n: nat): (s: seq<octet>)
    ensures |s| == n
  {
    seq(n, _ => 0)
  }

  function Pad(m: seq<octet>): (p: seq<octet>)
    ensures |p| % 64 == 0
  {
    m + [0x80] + ZeroOctets(Zeros(|m|)) + Length(|m|)
  }

  function WordOctets(x: word): (s: seq<octet>)
    ensures |s| == 4
  {
    [((x >> 24) & 0xff) as octet, ((x >> 16) & 0xff) as octet, ((x >> 8) & 0xff) as octet, (x & 0xff) as octet]
  }

  function AllOctets(words: seq<word>): (s: seq<octet>)
    ensures |s| == 4 * |words|
  {
    if words == [] then [] else AllOctets(words[..|words| - 1]) + WordOctets(words[|words| - 1])
  }

  function Octets(r: Regs): (s: seq<octet>)
    ensures |s| == 32
  {
    AllOctets([r.a, r.b, r.c, r.d, r.e, r.f, r.g, r.h])
  }

  function Digest(m: seq<octet>): (s: seq<octet>)
    ensures |s| == 32
  {
    Octets(HashBlocks(Pad(m)))
  }

  // ---------- the context ----------

  class Context {
    const state: array<word>
    var bits: nat
    const block: array<octet>
    var used: nat
    /** Everything hashed so far. */
    ghost var message: seq<octet>

    ghost function State(): Regs
      requires state.Length == 8
      reads state
    {
      Regs(state[0], state[1], state[2], state[3], state[4], state[5], state[6], state[7])
    }

    /** The state covers the complete blocks; the block holds the rest. */
    ghost predicate Valid()
      reads this`used, this`message, state, block
    {
      && state.Length == 8 && block.Length == 64
      && used == |message| % 64
      && block[..used] == message[|message| - used..]
      && State() == HashBlocks(message[..|message| - used])
    }

    /** The bit count, modulo 2^64. */
    ghost predicate Counted()
      reads this
    {
      bits == 8 * |message| % TWO_64
    }

    constructor ()
      ensures Valid() && Counted() && message == [] && bits == 0 && fresh(state) && fresh(block)
    {
      hide HashBlocks, Context.Valid, Context.Counted;
      state := new word[] [0x6a09e667, 0xbb67ae85, 0x3c6ef372, 0xa54ff53a,
                           0x510e527f, 0x9b05688c, 0x1f83d9ab, 0x5be0cd19];
      block := new octet[64];
      bits, used, message := 0, 0, [];
      new;
      StartsValid();
      StartsCounted();
    }

    lemma StartsValid()
      requires state.Length == 8 && block.Length == 64 && State() == IV
      requires message == [] && used == 0
      ensures Valid()
    {
      hide HashBlocks;
      NoBlocks(message[..|message| - used]);
    }

    lemma StartsCounted()
      requires message == [] && bits == 0
      ensures Counted()
    {
    }

    static lemma NoBlocks(m: seq<octet>)
      requires m == []
      ensures HashBlocks(m) == IV
    {
      hide Compress;
    }

    method ComputeSchedule(p: seq<octet>) returns (w: array<word>)
      requires |p| == 64
      ensures fresh(w) && w.Length == 64 && forall t :: 0 <= t < 64 ==> w[t] == Schedule(p, t)
    {
      hide Schedule, Word, SmallSigma0, SmallSigma1, Add;
      w := new word[64];
      var i := 0;
      while i < 16
        invariant i <= 16 && forall t :: 0 <= t < i ==> w[t] == Schedule(p, t)
      {
        FirstWords(p, i);
        w[i] := Word(p[i * 4], p[i * 4 + 1], p[i * 4 + 2], p[i * 4 + 3]);
        i := i + 1;
      }
      while i < 64
        invariant 16 <= i <= 64 && forall t :: 0 <= t < i ==> w[t] == Schedule(p, t)
      {
        LaterWord(p, i);
        w[i] := Add(Add(Add(w[i - 16], SmallSigma0(w[i - 15])), w[i - 7]), SmallSigma1(w[i - 2]));
        i := i + 1;
      }
    }

    /** Folds one block into the state. */
    method CompressBlock()
      requires state.Length == 8 && block.Length == 64
      modifies state
      ensures State() == Compress(old(State()), block[..])
    {
      hide Round, Rounds, Schedule, Add;
      KSize();
      ghost var p, r0 := block[..], State();
      var w := ComputeSchedule(block[..]);
      var r := Regs(state[0], state[1], state[2], state[3], state[4], state[5], state[6], state[7]);
      var i := 0;
      NoRounds(r0, p);
      while i < 64
        invariant i <= 64 && r == Rounds(r0, p, i)
        modifies {}
      {
        OneRound(r0, p, i);
        r := StepRound(r, K[i], w[i]);
        i := i + 1;
      }
      state[0] := Add(state[0], r.a);
      state[1] := Add(state[1], r.b);
      state[2] := Add(state[2], r.c);
      state[3] := Add(state[3], r.d);
      state[4] := Add(state[4], r.e);
      state[5] := Add(state[5], r.f);
      state[6] := Add(state[6], r.g);
      state[7] := Add(state[7], r.h);
    }

    /** One octet; a full block is folded in at once. */
    method Push(b: octet)
      requires Valid()
      modifies this`used, this`message, state, block
      ensures Valid() && message == old(message) + [b]
    {
      hide HashBlocks, Compress;
      NextOctet(message, b);
      block[used] := b;
      used := used + 1;
      message := message + [b];
      assert block[..used] == message[|message| - used..];
      if used == 64 {
        assert block[..] == block[..used];
        CompressBlock();
        used := 0;
        OneBlock(message);
        assert message[..|message|] == message;
      }
    }

    lemma OneBlock(m: seq<octet>)
      requires |m| % 64 == 0 && m != []
      ensures HashBlocks(m) == Compress(HashBlocks(m[..|m| - 64]), m[|m| - 64..])
    {
      hide Compress;
    }

    lemma NextOctet(m: seq<octet>, b: octet)
      ensures (|m| + 1) % 64 == if |m| % 64 == 63 then 0 else |m| % 64 + 1
      ensures (m + [b])[..|m| - |m| % 64] == m[..|m| - |m| % 64]
    {
    }

    /** Any number of octets. */
    method Update(data: seq<octet>)
      requires Valid()
      modifies this, state, block
      ensures Valid() && message == old(message) + data
      ensures bits == (old(bits) + 8 * |data|) % TWO_64
      ensures old(Counted()) ==> Counted()
    {
      hide HashBlocks;
      var i := 0;
      while i < |data|
        invariant i <= |data| && Valid() && message == old(message) + data[..i] && bits == old(bits)
      {
        Push(data[i]);
        assert data[..i + 1] == data[..i] + [data[i]];
        i := i + 1;
      }
      assert data[..i] == data;
      AddModulo(8 * |old(message)|, 8 * |data|);
      bits := (bits + |data| * 8) % TWO_64;
    }

    /** The padding: a one bit, zeros up to the length, the length itself. */
    method AddPadding()
      requires Valid() && Counted()
      modifies this, state, block
      ensures Valid() && message == Pad(old(message))
    {
      hide HashBlocks, LengthOctets, ZeroOctets, Zeros, Context.Valid;
      ghost var m := message;
      var bits0 := bits;
      Update([0x80]);
      bits := bits0;
      ghost var z := 0;
      OneMoreZero(0);
      while used != 56
        invariant Valid() && z <= Zeros(|m|) && message == m + [0x80] + ZeroOctets(z)
        decreases Zeros(|m|) - z
      {
        UsedIs();
        ZerosLeft(|m|, z);
        Update([0x00]);
        bits := bits0;
        OneMoreZero(z);
        Assoc(m + [0x80], ZeroOctets(z), [0x00]);
        z := z + 1;
      }
      UsedIs();
      ZerosDone(|m|, z);
      var length := LengthOctets(bits0);
      Update(length);
    }

    lemma UsedIs()
      requires Valid()
      ensures used == |message| % 64
    {
    }

    /** Pads, and gives the hash value. */
    method Final() returns (out: seq<octet>)
      requires Valid() && Counted()
      modifies this, state, block
      ensures out == Digest(old(message))
    {
      hide HashBlocks, WordOctets, Pad;
      AddPadding();
      assert message[..|message|] == message;
      assert state[..] == [state[0], state[1], state[2], state[3], state[4], state[5], state[6], state[7]];
      out := [];
      var i := 0;
      while i < 8
        invariant i <= 8 && out == AllOctets(state[..i])
        modifies {}
      {
        assert state[..i + 1] == state[..i] + [state[i]];
        out := out + WordOctets(state[i]);
        i := i + 1;
      }
      assert state[..i] == state[..];
    }
  }

  /** The padding loop stops at the sixth-last word boundary, and not before. */
  lemma ZerosLeft(n: nat, z: nat)
    requires z <= Zeros(n) && (n + 1 + z) % 64 != 56
    ensures z < Zeros(n)
  {
  }

  lemma OneMoreZero(z: nat)
    ensures ZeroOctets(0) == [] && ZeroOctets(z) + [0x00] == ZeroOctets(z + 1)
  {
  }

  lemma ZerosDone(n: nat, z: nat)
    requires z <= Zeros(n) && (n + 1 + z) % 64 == 56
    ensures z == Zeros(n)
  {
  }

  lemma FirstWords(p: seq<octet>, t: nat)
    requires |p| == 64 && t < 16
    ensures Schedule(p, t) == Word(p[t * 4], p[t * 4 + 1], p[t * 4 + 2], p[t * 4 + 3])
  {
    hide Word;
  }

  lemma LaterWord(p: seq<octet>, t: nat)
    requires |p| == 64 && t >= 16
    ensures Schedule(p, t) == Add(Add(Add(Schedule(p, t - 16), SmallSigma0(Schedule(p, t - 15))), Schedule(p, t - 7)),
                                  SmallSigma1(Schedule(p, t - 2)))
  {
    hide Word, SmallSigma0, SmallSigma1, Add;
  }

  lemma AddModulo(a: nat, b: nat)
    ensures (a % TWO_64 + b) % TWO_64 == (a + b) % TWO_64
  {
  }

  lemma KSize()
    ensures |K| == 64
  {
  }

  lemma NoRounds(r: Regs, block: seq<octet>)
    requires |block| == 64
    ensures Rounds(r, block, 0) == r
  {
  }

  lemma OneRound(r: Regs, block: seq<octet>, t: nat)
    requires |block| == 64 && t < |K|
    ensures Rounds(r, block, t + 1) == Round(Rounds(r, block, t), K[t], Schedule(block, t))
  {
    hide Round, Schedule;
  }

  /** The assignments of one round, in the order the loop makes them. */
  method StepRound(r: Regs, k: word, w: word) returns (next: Regs)
    ensures next == Round(r, k, w)
  {
    hide Add, BigSigma0, BigSigma1, Ch, Maj;
    var a, b, c, d, e, f, g, h := r.a, r.b, r.c, r.d, r.e, r.f, r.g, r.h;
    var s1 := BigSigma1(e);
    var ch := Ch(e, f, g);
    var t1 := Add(Add(Add(Add(h, s1), ch), k), w);
    var s0 := BigSigma0(a);
    var maj := Maj(a, b, c);
    var t2 := Add(s0, maj);
    h := g;
    g := f;
    f := e;
    e := Add(d, t1);
    d := c;
    c := b;
    b := a;
    a := Add(t1, t2);
    next := Regs(a, b, c, d, e, f, g, h);
  }

  // ---------- the demo digest ----------

  const DEMO_HEADER_LEN: nat := 13
  const DEMO_CONSOLEPLAYER_OFFSET: nat := 8
  const DEMO_CANARY_DIGEST_LEN: nat := 65

  function HexDigit(n: octet): char {
    match n
    case 0 => '0' case 1 => '1' case 2 => '2' case 3 => '3'
    case 4 => '4' case 5 => '5' case 6 => '6' case 7 => '7'
    case 8 => '8' case 9 => '9' case 10 => 'a' case 11 => 'b'
    case 12 => 'c' case 13 => 'd' case 14 => 'e' case _ => 'f'
  }

  /** Two lower-case digits. */
  function HexOctet(o: octet): (h: string)
    ensures |h| == 2
  {
    [HexDigit(o >> 4), HexDigit(o & 0x0f)]
  }

  function Hex(s: seq<octet>): (h: string)
    ensures |h| == 2 * |s|
  {
    if s == [] then [] else Hex(s[..|s| - 1]) + HexOctet(s[|s| - 1])
  }

  lemma SameOctet(o: octet, p: octet)
    requires HexOctet(o) == HexOctet(p)
    ensures o == p
  {
    assert HexOctet(o)[0] == HexDigit(o >> 4) && HexOctet(o)[1] == HexDigit(o & 0x0f);
    assert HexOctet(p)[0] == HexDigit(p >> 4) && HexOctet(p)[1] == HexDigit(p & 0x0f);
    SameDigit(o >> 4, p >> 4);
    SameDigit(o & 0x0f, p & 0x0f);
  }

  lemma SameDigit(m: octet, n: octet)
    requires m < 16 && n < 16 && HexDigit(m) == HexDigit(n)
    ensures m == n
  {
  }

  /** Two digests print the same only if they are the same. */
  lemma {:induction false} HexInjective(a: seq<octet>, b: seq<octet>)
    requires Hex(a) == Hex(b)
    ensures a == b
  {
    hide HexOctet;
    if a != [] {
      var x, y := a[..|a| - 1], b[..|b| - 1];
      assert Hex(a)[..|Hex(x)|] == Hex(x) && Hex(b)[..|Hex(y)|] == Hex(y);
      assert Hex(a)[|Hex(x)|..] == HexOctet(a[|a| - 1]) && Hex(b)[|Hex(y)|..] == HexOctet(b[|b| - 1]);
      SameOctet(a[|a| - 1], b[|b| - 1]);
      HexInjective(x, y);
      assert a == x + [a[|a| - 1]] && b == y + [b[|b| - 1]];
    }
  }

  method DigestToHex(digest: seq<octet>) returns (out: string)
    ensures out == Hex(digest)
  {
    hide HexOctet;
    out := [];
    var i := 0;
    while i < |digest|
      invariant i <= |digest| && out == Hex(digest[..i])
    {
      assert digest[..i + 1] == digest[..i] + [digest[i]];
      out := out + HexOctet(digest[i]);
      i := i + 1;
    }
    assert digest[..i] == digest;
  }

  method DemoCanaryRawDigest(data: seq<octet>, outLen: nat) returns (out: Option<string>)
    ensures out == if outLen < DEMO_CANARY_DIGEST_LEN then None else Some(Hex(Digest(data)))
  {
    hide Digest, Hex, Context.Valid, Context.Counted;
    if outLen < DEMO_CANARY_DIGEST_LEN {
      return None;
    }
    var ctx := new Context();
    assert [] + data == data;
    ctx.Update(data);
    var digest := ctx.Final();
    var hex := DigestToHex(digest);
    return Some(hex);
  }

  /** The recording up to the anchor, with the console player's index zeroed. */
  function Normalized(demo: seq<octet>, anchorLen: nat): seq<octet>
    requires DEMO_CONSOLEPLAYER_OFFSET < anchorLen <= |demo|
  {
    demo[..anchorLen][DEMO_CONSOLEPLAYER_OFFSET := 0]
  }

  lemma NormalizedParts(demo: seq<octet>, anchorLen: nat)
    requires DEMO_CONSOLEPLAYER_OFFSET < anchorLen <= |demo|
    ensures [] + demo[..DEMO_CONSOLEPLAYER_OFFSET] + [0] + demo[DEMO_CONSOLEPLAYER_OFFSET + 1..anchorLen]
         == Normalized(demo, anchorLen)
  {
  }

  method DemoCanaryDigest(demo: seq<octet>, anchorLen: nat, outLen: nat) returns (out: Option<string>)
    requires anchorLen <= |demo|
    ensures anchorLen < DEMO_HEADER_LEN || outLen < DEMO_CANARY_DIGEST_LEN ==> out == None
    ensures anchorLen >= DEMO_HEADER_LEN && outLen >= DEMO_CANARY_DIGEST_LEN ==>
      out == Some(Hex(Digest(Normalized(demo, anchorLen))))
  {
    hide Digest, Hex, Normalized, Context.Valid, Context.Counted;
    if anchorLen < DEMO_HEADER_LEN {
      return None;
    }
    if outLen < DEMO_CANARY_DIGEST_LEN {
      return None;
    }
    var ctx := new Context();
    ctx.Update(demo[..DEMO_CONSOLEPLAYER_OFFSET]);
    ctx.Update([0]);
    ctx.Update(demo[DEMO_CONSOLEPLAYER_OFFSET + 1..anchorLen]);
    NormalizedParts(demo, anchorLen);
    var digest := ctx.Final();
    var hex := DigestToHex(digest);
    return Some(hex);
  }

  /** Two recordings are hashed alike exactly when they agree up to the anchor, save for
      whose machine recorded them. */
  lemma NormalizedAgree(a: seq<octet>, b: seq<octet>, m: nat, n: nat)
    requires DEMO_HEADER_LEN <= m <= |a| && DEMO_HEADER_LEN <= n <= |b|
    ensures Normalized(a, m) == Normalized(b, n) <==>
      m == n && forall k :: 0 <= k < m && k != DEMO_CONSOLEPLAYER_OFFSET ==> a[k] == b[k]
  {
    var x, y := Normalized(a, m), Normalized(b, n);
    if x == y {
      assert |x| == m && |y| == n;
      forall k | 0 <= k < m && k != DEMO_CONSOLEPLAYER_OFFSET
        ensures a[k] == b[k]
      {
        assert x[k] == a[k] && y[k] == b[k];
      }
    }
  }
}
