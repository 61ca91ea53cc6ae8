/** One operator slot of the chip: envelope generator, waveforms, and the sums they enter. */
module OplSlot {
  import opened Bits

  // ---------- waveforms ----------

  type logsin = x: int | 0 <= x <= 0x859
  type mantissa = x: int | 0x400 <= x <= 0x7fa witness 0x400
  type phase10 = x: int | 0 <= x < 1024

  const LOGSINROM: seq<logsin> :=
    [0x859, 0x6c3, 0x607, 0x58b, 0x52e, 0x4e4, 0x4a6, 0x471, 0x443, 0x41a, 0x3f5, 0x3d3, 0x3b5, 0x398, 0x37e, 0x365] +
    [0x34e, 0x339, 0x324, 0x311, 0x2ff, 0x2ed, 0x2dc, 0x2cd, 0x2bd, 0x2af, 0x2a0, 0x293, 0x286, 0x279, 0x26d, 0x261] +
    [0x256, 0x24b, 0x240, 0x236, 0x22c, 0x222, 0x218, 0x20f, 0x206, 0x1fd, 0x1f5, 0x1ec, 0x1e4, 0x1dc, 0x1d4, 0x1cd] +
    [0x1c5, 0x1be, 0x1b7, 0x1b0, 0x1a9, 0x1a2, 0x19b, 0x195, 0x18f, 0x188, 0x182, 0x17c, 0x177, 0x171, 0x16b, 0x166] +
    [0x160, 0x15b, 0x155, 0x150, 0x14b, 0x146, 0x141, 0x13c, 0x137, 0x133, 0x12e, 0x129, 0x125, 0x121, 0x11c, 0x118] +
    [0x114, 0x10f, 0x10b, 0x107, 0x103, 0xff, 0xfb, 0xf8, 0xf4, 0xf0, 0xec, 0xe9, 0xe5, 0xe2, 0xde, 0xdb] +
    [0xd7, 0xd4, 0xd1, 0xcd, 0xca, 0xc7, 0xc4, 0xc1, 0xbe, 0xbb, 0xb8, 0xb5, 0xb2, 0xaf, 0xac, 0xa9] +
    [0xa7, 0xa4, 0xa1, 0x9f, 0x9c, 0x99, 0x97, 0x94, 0x92, 0x8f, 0x8d, 0x8a, 0x88, 0x86, 0x83, 0x81] +
    [0x7f, 0x7d, 0x7a, 0x78, 0x76, 0x74, 0x72, 0x70, 0x6e, 0x6c, 0x6a, 0x68, 0x66, 0x64, 0x62, 0x60] +
    [0x5e, 0x5c, 0x5b, 0x59, 0x57, 0x55, 0x53, 0x52, 0x50, 0x4e, 0x4d, 0x4b, 0x4a, 0x48, 0x46, 0x45] +
    [0x43, 0x42, 0x40, 0x3f, 0x3e, 0x3c, 0x3b, 0x39, 0x38, 0x37, 0x35, 0x34, 0x33, 0x31, 0x30, 0x2f] +
    [0x2e, 0x2d, 0x2b, 0x2a, 0x29, 0x28, 0x27, 0x26, 0x25, 0x24, 0x23, 0x22, 0x21, 0x20, 0x1f, 0x1e] +
    [0x1d, 0x1c, 0x1b, 0x1a, 0x19, 0x18, 0x17, 0x17, 0x16, 0x15, 0x14, 0x14, 0x13, 0x12, 0x11, 0x11] +
    [0x10, 0xf, 0xf, 0xe, 0xd, 0xd, 0xc, 0xc, 0xb, 0xa, 0xa, 0x9, 0x9, 0x8, 0x8, 0x7] +
    [0x7, 0x7, 0x6, 0x6, 0x5, 0x5, 0x5, 0x4, 0x4, 0x4, 0x3, 0x3, 0x3, 0x2, 0x2, 0x2] +
    [0x2, 0x1, 0x1, 0x1, 0x1, 0x1, 0x1, 0x1, 0x0, 0x0, 0x0, 0x0, 0x0, 0x0, 0x0, 0x0]

  const EXPROM: seq<mantissa> :=
    [0x7fa, 0x7f5, 0x7ef, 0x7ea, 0x7e4, 0x7df, 0x7da, 0x7d4, 0x7cf, 0x7c9, 0x7c4, 0x7bf, 0x7b9, 0x7b4, 0x7ae, 0x7a9] +
    [0x7a4, 0x79f, 0x799, 0x794, 0x78f, 0x78a, 0x784, 0x77f, 0x77a, 0x775, 0x770, 0x76a, 0x765, 0x760, 0x75b, 0x756] +
    [0x751, 0x74c, 0x747, 0x742, 0x73d, 0x738, 0x733, 0x72e, 0x729, 0x724, 0x71f, 0x71a, 0x715, 0x710, 0x70b, 0x706] +
    [0x702, 0x6fd, 0x6f8, 0x6f3, 0x6ee, 0x6e9, 0x6e5, 0x6e0, 0x6db, 0x6d6, 0x6d2, 0x6cd, 0x6c8, 0x6c4, 0x6bf, 0x6ba] +
    [0x6b5, 0x6b1, 0x6ac, 0x6a8, 0x6a3, 0x69e, 0x69a, 0x695, 0x691, 0x68c, 0x688, 0x683, 0x67f, 0x67a, 0x676, 0x671] +
    [0x66d, 0x668, 0x664, 0x65f, 0x65b, 0x657, 0x652, 0x64e, 0x649, 0x645, 0x641, 0x63c, 0x638, 0x634, 0x630, 0x62b] +
    [0x627, 0x623, 0x61e, 0x61a, 0x616, 0x612, 0x60e, 0x609, 0x605, 0x601, 0x5fd, 0x5f9, 0x5f5, 0x5f0, 0x5ec, 0x5e8] +
    [0x5e4, 0x5e0, 0x5dc, 0x5d8, 0x5d4, 0x5d0, 0x5cc, 0x5c8, 0x5c4, 0x5c0, 0x5bc, 0x5b8, 0x5b4, 0x5b0, 0x5ac, 0x5a8] +
    [0x5a4, 0x5a0, 0x59c, 0x599, 0x595, 0x591, 0x58d, 0x589, 0x585, 0x581, 0x57e, 0x57a, 0x576, 0x572, 0x56f, 0x56b] +
    [0x567, 0x563, 0x560, 0x55c, 0x558, 0x554, 0x551, 0x54d, 0x549, 0x546, 0x542, 0x53e, 0x53b, 0x537, 0x534, 0x530] +
    [0x52c, 0x529, 0x525, 0x522, 0x51e, 0x51b, 0x517, 0x514, 0x510, 0x50c, 0x509, 0x506, 0x502, 0x4ff, 0x4fb, 0x4f8] +
    [0x4f4, 0x4f1, 0x4ed, 0x4ea, 0x4e7, 0x4e3, 0x4e0, 0x4dc, 0x4d9, 0x4d6, 0x4d2, 0x4cf, 0x4cc, 0x4c8, 0x4c5, 0x4c2] +
    [0x4be, 0x4bb, 0x4b8, 0x4b5, 0x4b1, 0x4ae, 0x4ab, 0x4a8, 0x4a4, 0x4a1, 0x49e, 0x49b, 0x498, 0x494, 0x491, 0x48e] +
    [0x48b, 0x488, 0x485, 0x482, 0x47e, 0x47b, 0x478, 0x475, 0x472, 0x46f, 0x46c, 0x469, 0x466, 0x463, 0x460, 0x45d] +
    [0x45a, 0x457, 0x454, 0x451, 0x44e, 0x44b, 0x448, 0x445, 0x442, 0x43f, 0x43c, 0x439, 0x436, 0x433, 0x430, 0x42d] +
    [0x42a, 0x428, 0x425, 0x422, 0x41f, 0x41c, 0x419, 0x416, 0x414, 0x411, 0x40e, 0x40b, 0x408, 0x406, 0x403, 0x400]

  function LogSin(i: nat): (r: nat)
    requires i < 256
    ensures r <= 0x859
  {
    LOGSINROM[i]
  }

  function Mantissa(i: nat): (r: nat)
    requires i < 256
    ensures r <= 0x7fa
  {
    EXPROM[i]
  }

  function Exp(level: nat): (r: nat)
    ensures r <= 4084 && (level >= 0x1000 ==> r == 0)
  {
    var l := if level > 0x1fff then 0x1fff else level;
    ShiftedDown(Mantissa(l % 256), l / 256)
  }

  /** (m << 1) >> k */
  function ShiftedDown(m: nat, k: nat): (r: nat)
    requires m <= 0x7fa
    ensures r <= 4084 && (k >= 16 ==> r == 0)
  {
    ShiftRange(m * 2, k);
    m * 2 / Pow2(k)
  }

  lemma ShiftRange(a: nat, k: nat)
    ensures a / Pow2(k) <= a && (k >= 16 && a < 0x1_0000 ==> a / Pow2(k) == 0)
  {
    QuotientSmaller(a, Pow2(k));
    if k >= 16 {
      ExpTail(k);
    }
  }

  lemma QuotientSmaller(a: nat, d: nat)
    requires d > 0
    ensures a / d <= a && (a < d ==> a / d == 0)
  {
    var q, r := a / d, a % d;
    assert a == q * d + r;
    ProductGrows(q, d);
    if a < d {
      DivModUnique(a, d, 0, a);
    }
  }

  lemma {:induction false} ProductGrows(q: nat, d: nat)
    requires d > 0
    ensures q <= q * d
  {
    if d > 1 {
      ProductGrows(q, d - 1);
      assert q * d == q * (d - 1) + q;
    }
  }

  lemma {:induction false} ExpTail(k: nat)
    requires k >= 16
    ensures Pow2(k) >= 0x1_0000
  {
    if k > 16 {
      ExpTail(k - 1);
    } else {
      assert Pow2(2) == 4;
      Pow2Sum(2, 2);
      Pow2Sum(4, 4);
      Pow2Sum(8, 8);
    }
  }

  /** A 16-bit exclusive or with 0xffff, read as a signed number. */
  function Inverted(x: int): int {
    -x - 1
  }

  /** The phase within a quarter wave, mirrored in the second and fourth quarter. */
  function Quarter(p: phase10): (r: nat)
    ensures r < 256
  {
    if p / 256 % 2 == 1 then 255 - p % 256 else p % 256
  }

  /** The same at twice the speed, for waveforms 4 and 5. */
  function Eighth(p: phase10): (r: nat)
    ensures r < 256
  {
    if p / 128 % 2 == 1 then (255 - p % 256) * 2 % 256 else p % 256 * 2
  }

  function Sin0(p: phase10, envelope: nat): int {
    var e := Exp(LogSin(Quarter(p)) + 8 * envelope);
    if p >= 512 then Inverted(e) else e
  }

  function Sin1(p: phase10, envelope: nat): int {
    Exp((if p >= 512 then 0x1000 else LogSin(Quarter(p))) + 8 * envelope)
  }

  function Sin2(p: phase10, envelope: nat): int {
    Exp(LogSin(Quarter(p)) + 8 * envelope)
  }

  function Sin3(p: phase10, envelope: nat): int {
    Exp((if p / 256 % 2 == 1 then 0x1000 else LogSin(p % 256)) + 8 * envelope)
  }

  function Sin4(p: phase10, envelope: nat): int {
    var e := Exp((if p >= 512 then 0x1000 else LogSin(Eighth(p))) + 8 * envelope);
    if p / 256 == 1 then Inverted(e) else e
  }

  function Sin5(p: phase10, envelope: nat): int {
    Exp((if p >= 512 then 0x1000 else LogSin(Eighth(p))) + 8 * envelope)
  }

  function Sin6(p: phase10, envelope: nat): int {
    var e := Exp(8 * envelope);
    if p >= 512 then Inverted(e) else e
  }

  function Sin7(p: phase10, envelope: nat): int {
    var e := Exp(8 * (if p >= 512 then 511 - p % 512 else p) + 8 * envelope);
    if p >= 512 then Inverted(e) else e
  }

  /** The waveform with number wf at a 16-bit phase, of which the low ten bits count. */
  function Wave(wf: nat, phase: int, envelope: nat): int
    requires wf < 8
  {
    var p := phase % 1024;
    if wf == 0 then Sin0(p, envelope) else if wf == 1 then Sin1(p, envelope)
    else if wf == 2 then Sin2(p, envelope) else if wf == 3 then Sin3(p, envelope)
    else if wf == 4 then Sin4(p, envelope) else if wf == 5 then Sin5(p, envelope)
    else if wf == 6 then Sin6(p, envelope) else Sin7(p, envelope)
  }

  predicate InRange(out: int) {
    -4085 <= out <= 4084
  }

  /** Every waveform stays in the range of a slot output. */
  lemma WaveInRange(wf: nat, phase: int, envelope: nat)
    requires wf < 8
    ensures InRange(Wave(wf, phase, envelope))
  {
    hide Exp, LogSin, Quarter, Eighth;
  }

  /** Only the low ten bits of the phase count. */
  lemma Periodic(wf: nat, phase: int, envelope: nat)
    requires wf < 8
    ensures Wave(wf, phase + 1024, envelope) == Wave(wf, phase, envelope)
  {
    hide Sin0, Sin1, Sin2, Sin3, Sin4, Sin5, Sin6, Sin7;
    assert (phase + 1024) % 1024 == phase % 1024;
  }

  /** Both ends of the range are reached. */
  lemma RangeIsExact()
    ensures Wave(6, 0, 0) == 4084 && Wave(6, 512, 0) == -4085
  {
    assert Mantissa(0) == 0x7fa;
    assert Exp(0) == ShiftedDown(0x7fa, 0) == 0x7fa * 2 / Pow2(0);
    assert Pow2(0) == 1;
  }

  /** The half sine of waveform 1. */
  lemma HalfSine(p: phase10, envelope: nat)
    ensures Wave(1, p, envelope) == if p < 512 then Wave(0, p, envelope) else 0
  {
    hide Exp, LogSin, Quarter;
  }

  /** The rectified sine of waveform 2. */
  lemma RectifiedSine(p: phase10, envelope: nat)
    ensures var sine := Wave(0, p, envelope);
            Wave(2, p, envelope) == if sine >= 0 then sine else Inverted(sine)
  {
    hide Exp, LogSin, Quarter;
  }

  /** Waveform 3 keeps the rising quarters of the rectified sine. */
  lemma QuarterSine(p: phase10, envelope: nat)
    ensures Wave(3, p, envelope) == if p / 256 % 2 == 0 then Wave(2, p, envelope) else 0
  {
    hide Exp, LogSin;
  }

  /** Half a period later the sine is inverted; mirrored within a half period it is the same. */
  lemma SineSymmetry(p: phase10, envelope: nat)
    requires p < 512
    ensures Wave(0, p + 512, envelope) == Inverted(Wave(0, p, envelope))
    ensures Wave(0, 511 - p, envelope) == Wave(0, p, envelope)
  {
    hide Exp, LogSin, Quarter;
    QuarterSymmetry(p);
  }

  /** The double-speed sine of waveform 4, rectified, is waveform 5. */
  lemma RectifiedDoubleSine(p: phase10, envelope: nat)
    ensures var sine := Wave(4, p, envelope);
            Wave(5, p, envelope) == if sine >= 0 then sine else Inverted(sine)
    ensures p >= 512 ==> Wave(4, p, envelope) == 0
  {
    hide Exp, LogSin, Eighth;
  }

  /** In its first eighth waveform 4 is the sine at twice the phase; it is mirrored within a quarter
      of the period and inverted in the next. */
  lemma DoubleSine(p: phase10, envelope: nat)
    requires p < 256
    ensures Wave(4, p + 256, envelope) == Inverted(Wave(4, p, envelope))
    ensures Wave(4, 255 - p, envelope) == Wave(4, p, envelope)
    ensures p < 128 ==> Wave(4, p, envelope) == Wave(0, 2 * p, envelope)
  {
    hide Exp, LogSin, Eighth, Quarter;
    EighthSymmetry(p);
  }

  lemma EighthSymmetry(p: phase10)
    requires p < 256
    ensures Eighth(p + 256) == Eighth(p) == Eighth(255 - p) && (p < 128 ==> Eighth(p) == Quarter(2 * p))
  {
    hide Eighth, Quarter;
    EighthIs(p);
    EighthIs(p + 256);
    EighthIs(255 - p);
    if p < 128 {
      QuarterIs(2 * p);
    }
  }

  lemma EighthIs(p: phase10)
    requires p < 512
    ensures Eighth(p) == if p < 128 then 2 * p else if p < 256 then 510 - 2 * p
                         else if p < 384 then 2 * p - 512 else 1022 - 2 * p
  {
    if p < 128 {
      assert p / 128 == 0 && p % 256 == p;
    } else if p < 256 {
      assert p / 128 == 1 && p % 256 == p;
    } else if p < 384 {
      assert p / 128 == 2 && p % 256 == p - 256;
    } else {
      assert p / 128 == 3 && p % 256 == p - 256;
    }
  }

  /** The logarithmic saw of waveform 7 runs back inverted; waveform 6 only has the sign. */
  lemma SawAndSquare(p: phase10, envelope: nat)
    ensures p < 512 ==> Wave(7, p, envelope) == Exp(8 * p + 8 * envelope)
    ensures Wave(7, 1023 - p, envelope) == Inverted(Wave(7, p, envelope))
    ensures Wave(6, 1023 - p, envelope) == Inverted(Wave(6, p, envelope))
    ensures p < 512 ==> Wave(6, p, envelope) == Wave(7, 0, envelope)
  {
    hide Exp, Sin6, Sin7;
    Saw(p, envelope);
    Square(p, envelope);
  }

  lemma Saw(p: phase10, envelope: nat)
    ensures p < 512 ==> Sin7(p, envelope) == Exp(8 * p + 8 * envelope)
    ensures Sin7(1023 - p, envelope) == Inverted(Sin7(p, envelope))
  {
    hide Exp;
  }

  lemma Square(p: phase10, envelope: nat)
    ensures Sin6(1023 - p, envelope) == Inverted(Sin6(p, envelope))
    ensures p < 512 ==> Sin6(p, envelope) == Sin7(0, envelope)
  {
    hide Exp;
  }

  lemma QuarterSymmetry(p: phase10)
    requires p < 512
    ensures Quarter(p + 512) == Quarter(p) == Quarter(511 - p)
  {
    hide Quarter;
    QuarterIs(p);
    QuarterIs(p + 512);
    QuarterIs(511 - p);
  }

  lemma QuarterIs(p: phase10)
    ensures Quarter(p) == if p < 256 then p else if p < 512 then 511 - p else if p < 768 then p - 512 else 1023 - p
  {
    assert p / 256 == if p < 256 then 0 else if p < 512 then 1 else if p < 768 then 2 else 3;
  }

  // ---------- the envelope generator, without masks ----------

  datatype Phase = Attack | Decay | Sustain | Release

  /** Attenuation runs from 0, loudest, to 511, silent. */
  type attenuation = x: int | 0 <= x <= 0x1ff

  datatype Envelope = Envelope(phase: Phase, level: attenuation)

  /** What one step of the generator depends on. */
  datatype Drive = Drive(key: bool, sustain: nat, rateHi: nat, shift: nat)

  ghost predicate Sane(d: Drive) {
    d.rateHi <= 15 && d.shift <= 3
  }

  predicate Silent(level: attenuation) {
    level >= 0x1f8
  }

  /** The attack comes closer to 0 by a part of what is left, at least by 1. */
  function AttackDrop(level: attenuation, shift: nat): (r: nat)
    requires shift <= 3
    ensures level > 0 ==> r <= level && (r == 0 <==> shift == 0)
  {
    if shift == 0 then 0
    else ((level + 1) * (if shift == 1 then 2 else if shift == 2 then 4 else 8) + 15) / 16
  }

  /** The attack of the source: the complement of the level, shifted. */
  function AttackInc(level: nat, shift: nat): int {
    (-1 - level) * (if shift == 1 then 2 else if shift == 2 then 4 else 8) / 16
  }

  lemma AttackUnmasked(level: attenuation, shift: nat)
    requires 0 < shift <= 3 && level > 0
    ensures AttackInc(level, shift) + AttackDrop(level, shift) == 0
  {
  }

  function StepInc(shift: nat): nat {
    if shift == 1 then 1 else if shift == 2 then 2 else 4
  }

  function Fade(level: attenuation, shift: nat): attenuation
    requires shift <= 3
  {
    if Silent(level) then 0x1ff
    else level + (if shift == 0 then 0 else if shift == 1 then 1 else if shift == 2 then 2 else 4)
  }

  lemma FadeUnmasked(level: attenuation, shift: nat)
    requires shift <= 3
    ensures Fade(level, shift) == if Silent(level) then 0x1ff else if shift == 0 then level else level + StepInc(shift)
  {
  }

  function Next(e: Envelope, d: Drive): Envelope
    requires Sane(d)
  {
    var moved :=
      match e.phase
      case Attack =>
        if e.level == 0 then Envelope(Decay, 0)
        else Envelope(Attack, if d.key && d.rateHi != 15 then e.level - AttackDrop(e.level, d.shift) else e.level)
      case Decay =>
        if e.level / 16 == d.sustain then Envelope(Sustain, if Silent(e.level) then 0x1ff else e.level)
        else Envelope(Decay, Fade(e.level, d.shift))
      case Sustain => Envelope(Sustain, Fade(e.level, d.shift))
      case Release =>
        if d.key then Envelope(Attack, if d.rateHi == 15 then 0 else e.level)
        else Envelope(Release, Fade(e.level, d.shift));
    if d.key then moved else moved.(phase := Release)
  }

  /** The step, phase by phase. */
  lemma NextInPhase(level: attenuation, d: Drive)
    requires Sane(d)
    ensures Next(Envelope(Attack, level), d) ==
              Envelope(if !d.key then Release else if level == 0 then Decay else Attack,
                       if level > 0 && d.key && d.rateHi != 15 then level - AttackDrop(level, d.shift) else level)
    ensures Next(Envelope(Decay, level), d) ==
              Envelope(if !d.key then Release else if level / 16 == d.sustain then Sustain else Decay,
                       if level / 16 != d.sustain then Fade(level, d.shift) else if Silent(level) then 0x1ff else level)
    ensures Next(Envelope(Sustain, level), d) ==
              Envelope(if d.key then Sustain else Release, Fade(level, d.shift))
    ensures Next(Envelope(Release, level), d) ==
              if d.key then Envelope(Attack, if d.rateHi == 15 then 0 else level)
              else Envelope(Release, Fade(level, d.shift))
  {
    hide AttackDrop, Fade, Silent;
  }

  /** The six top bits, which the source compares, are all set from level 0x1f8 on. */
  lemma TopBits(level: attenuation)
    ensures level / 8 % 64 == 63 <==> Silent(level)
  {
  }

  /** The level that the assignments of the source compute, before the mask, is that of the step. */
  lemma LevelIs(e: Envelope, d: Drive, reset: bool, off: bool, rout: int, inc: int)
    requires Sane(d) && reset == (d.key && e.phase == Release) && off == (e.level / 8 % 64 == 63)
    requires rout == if e.phase != Attack && !reset && off then 0x1ff
                     else if reset && d.rateHi == 15 then 0 else e.level
    requires inc == if e.phase == Attack then
                      if e.level > 0 && d.key && d.shift > 0 && d.rateHi != 15 then AttackInc(e.level, d.shift) else 0
                    else if (e.phase != Decay || e.level / 16 != d.sustain) && !off && !reset && d.shift > 0 then
                      StepInc(d.shift)
                    else 0
    ensures 0 <= rout + inc < 0x200 && Next(e, d).level == rout + inc
    ensures Next(e, d).phase == if !d.key then Release
                                else if e.phase == Release then Attack
                                else if e.phase == Attack && e.level == 0 then Decay
                                else if e.phase == Decay && e.level / 16 == d.sustain then Sustain
                                else e.phase
  {
    hide Next, AttackDrop, Fade, AttackInc;
    NextInPhase(e.level, d);
    FadeUnmasked(e.level, d.shift);
    TopBits(e.level);
    if e.level > 0 && d.shift > 0 {
      AttackUnmasked(e.level, d.shift);
      DropIsSmall(e.level, d.shift);
    }
    if d.shift == 0 {
      NoDrop(e.level);
    }
  }

  lemma DropIsSmall(level: attenuation, shift: nat)
    requires shift <= 3 && level > 0
    ensures AttackDrop(level, shift) <= level
  {
  }

  lemma NoDrop(level: attenuation)
    ensures AttackDrop(level, 0) == 0
  {
  }

  function After(e: Envelope, ds: seq<Drive>): Envelope
    requires forall i :: 0 <= i < |ds| ==> Sane(ds[i])
  {
    if ds == [] then e else Next(After(e, ds[..|ds| - 1]), ds[|ds| - 1])
  }

  /** Only an attack makes a voice louder, and only a key-on starts one. */
  lemma LouderOnlyInAttack(e: Envelope, d: Drive)
    requires Sane(d)
    ensures Next(e, d).level < e.level ==>
              d.key && (e.phase == Attack || (e.phase == Release && Next(e, d) == Envelope(Attack, 0)))
    ensures e.phase == Attack ==> Next(e, d).level <= e.level
    ensures e.phase == Attack && d.key && e.level > 0 && d.shift > 0 && d.rateHi != 15 ==> Next(e, d).level < e.level
    ensures Next(e, d).phase == Attack && e.phase != Attack ==> d.key && e.phase == Release
  {
  }

  /** A fixed sustain level as register 80 stores it. */
  ghost predicate Steady(ds: seq<Drive>, sustain: nat) {
    forall i :: 0 <= i < |ds| ==> Sane(ds[i]) && ds[i].sustain == sustain
  }

  /** In decay the level never overshoots the sustain level: from 0 by steps of at most 4 it
      cannot jump the window of 16 in which decay ends. */
  lemma {:induction false} DecayStopsAtSustain(e: Envelope, ds: seq<Drive>, sustain: nat)
    requires Steady(ds, sustain) && sustain <= 31
    requires e.phase == Decay ==> e.level / 16 <= sustain
    ensures After(e, ds).phase == Decay ==> After(e, ds).level / 16 <= sustain
  {
    if ds != [] {
      DecayStopsAtSustain(e, ds[..|ds| - 1], sustain);
      DecayStep(After(e, ds[..|ds| - 1]), ds[|ds| - 1]);
    }
  }

  lemma DecayStep(e: Envelope, d: Drive)
    requires Sane(d) && d.sustain <= 31
    requires e.phase == Decay ==> e.level / 16 <= d.sustain
    ensures Next(e, d).phase == Decay ==> Next(e, d).level / 16 <= d.sustain
    ensures Next(e, d).phase == Sustain && e.phase != Sustain ==> Next(e, d).level / 16 == d.sustain
  {
  }

  /** While a key is held, phases only advance: attack, decay, sustain, and there it stays. */
  function Rank(p: Phase): nat {
    match p
    case Release => 0
    case Attack => 1
    case Decay => 2
    case Sustain => 3
  }

  lemma {:induction false} HeldPhasesAdvance(e: Envelope, ds: seq<Drive>)
    requires forall i :: 0 <= i < |ds| ==> Sane(ds[i]) && ds[i].key
    ensures Rank(e.phase) <= Rank(After(e, ds).phase)
    ensures e.phase == Sustain && (forall i :: 0 <= i < |ds| ==> ds[i].shift == 0) && !Silent(e.level) ==>
              After(e, ds) == e
  {
    if ds != [] {
      HeldPhasesAdvance(e, ds[..|ds| - 1]);
    }
  }

  /** After a key-off the voice never gets louder, and enough moving steps silence it. */
  function Moves(ds: seq<Drive>): nat {
    if ds == [] then 0 else Moves(ds[..|ds| - 1]) + (if ds[|ds| - 1].shift > 0 then 1 else 0)
  }

  lemma {:induction false} ReleaseDies(e: Envelope, ds: seq<Drive>)
    requires forall i :: 0 <= i < |ds| ==> Sane(ds[i]) && !ds[i].key
    requires e.phase == Release
    ensures After(e, ds).phase == Release && After(e, ds).level >= e.level
    ensures Silent(After(e, ds).level) || After(e, ds).level >= e.level + Moves(ds)
    ensures Moves(ds) >= 512 ==> Silent(After(e, ds).level)
  {
    if ds != [] {
      ReleaseDies(e, ds[..|ds| - 1]);
    }
  }

  /** A held key with a moving attack is at full level after at most 511 moving steps. */
  lemma {:induction false} AttackArrives(e: Envelope, ds: seq<Drive>)
    requires forall i :: 0 <= i < |ds| ==> Sane(ds[i]) && ds[i].key && ds[i].rateHi != 15
    requires e.phase == Attack
    ensures After(e, ds).phase == Attack ==> After(e, ds).level == 0 || After(e, ds).level + Moves(ds) <= e.level
    ensures Moves(ds) >= 511 ==> After(e, ds).phase != Attack || After(e, ds).level == 0
  {
    if ds != [] {
      AttackArrives(e, ds[..|ds| - 1]);
      HeldPhasesAdvance(e, ds[..|ds| - 1]);
    }
  }

  // ---------- the registers and the generator as the chip runs them ----------

  const EG_INCSTEP: seq<seq<nat>> := [[0, 0, 0, 0], [1, 0, 0, 0], [1, 0, 1, 0], [1, 1, 1, 0]]

  /** Of every four steps, as many are longer as the low bits of the rate say. */
  lemma IncSteps(lo: nat)
    requires lo < 4
    ensures EG_INCSTEP[lo][0] + EG_INCSTEP[lo][1] + EG_INCSTEP[lo][2] + EG_INCSTEP[lo][3] == lo
    ensures forall t :: 0 <= t < 4 ==> EG_INCSTEP[lo][t] <= 1
  {
  }

  /** At rates below 48 the level moves when the envelope timer has reached the right bit. */
  function SlowShift(hi: nat, lo: nat, add: nat): (r: nat)
    requires lo < 4
    ensures r <= 1
  {
    if hi + add == 12 then 1
    else if hi + add == 13 then lo / 2
    else if hi + add == 14 then lo % 2
    else 0
  }

  /** At rates from 48 on it moves in every step, in some by twice as much. */
  function FastShift(hi: nat, lo: nat, step: nat, state: nat): (r: nat)
    requires lo < 4 && step < 4 && state <= 1
    ensures r <= 3
  {
    var shift := hi % 4 + EG_INCSTEP[lo][step];
    if shift >= 4 then 3 else if shift == 0 then state else shift
  }

  /** Each bit of the timer is lowest half as often as the one below it, so that in one period of the
      highest of the three bits a slow rate moves the level 4 + lo times; the rate 4 higher has half
      the period. */
  lemma SlowSteps(hi: nat, lo: nat)
    requires hi < 12 && lo < 4
    ensures 4 * SlowShift(hi, lo, 12 - hi) + 2 * SlowShift(hi, lo, 13 - hi) + SlowShift(hi, lo, 14 - hi) == 4 + lo
    ensures forall add :: 0 <= add && !(12 - hi <= add <= 14 - hi) ==> SlowShift(hi, lo, add) == 0
    ensures hi > 0 ==> forall add :: 0 <= add ==> SlowShift(hi - 1, lo, add + 1) == SlowShift(hi, lo, add)
  {
  }

  /** Four steps of a fast rate shift by 4 more than those of the rate 4 below; 15 is the limit. */
  lemma FastSteps(lo: nat, state: nat)
    requires lo < 4 && state <= 1
    ensures forall hi :: 13 <= hi <= 14 ==>
              FastShift(hi, lo, 0, state) + FastShift(hi, lo, 1, state) + FastShift(hi, lo, 2, state)
              + FastShift(hi, lo, 3, state) == 4 * (hi - 12) + lo
    ensures forall step :: 0 <= step < 4 ==>
              && FastShift(15, lo, step, state) == 3
              && FastShift(12, lo, step, state) == if EG_INCSTEP[lo][step] == 1 then 1 else state
  {
  }

  const KSLROM: seq<nat> := [0, 32, 40, 45, 48, 51, 53, 55, 56, 58, 59, 60, 61, 62, 63, 64]

  /** The clocks of the chip that the slots read. */
  class Clock {
    var timer: nat
    var egTimer: nat
    var egTimerRem: bool
    var egState: nat
    var egAdd: nat
    var tremolo: nat
    var tremoloPos: nat
    var tremoloShift: nat
    var vibPos: nat

    ghost predicate Valid()
      reads this
    {
      && timer < 0x1_0000 && egState <= 1 && egAdd <= 13
      && tremoloPos < 210 && vibPos < 8 && (tremoloShift == 2 || tremoloShift == 4) && tremolo <= 26
    }

    constructor ()
      ensures Valid()
    {
      timer, egTimer, egTimerRem, egState, egAdd := 0, 0, false, 0, 0;
      tremolo, tremoloPos, tremoloShift, vibPos := 0, 0, 4, 0;
    }

    /** The end of OPL3_Generate: tremolo, timer and envelope clock. */
    method Tick()
      requires Valid()
      modifies this
      ensures Valid() && egState == 1 - old(egState) && timer == (old(timer) + 1) % 0x1_0000
      ensures tremoloShift == old(tremoloShift)
              && tremoloPos == (old(tremoloPos) + (if old(timer) % 64 == 63 then 1 else 0)) % 210
              && tremolo == Triangle(tremoloPos) / (if tremoloShift == 2 then 4 else 16)
      ensures vibPos == (old(vibPos) + (if old(timer) % 1024 == 1023 then 1 else 0)) % 8
      ensures Advanced(old(egTimer), old(egTimerRem), old(egState), egTimer, egTimerRem, egAdd)
    {
      hide Advanced, Pow2;
      TickTremolo();
      if timer % 1024 == 1023 {
        vibPos := (vibPos + 1) % 8;
      }
      timer := (timer + 1) % 0x1_0000;
      TickEnvelope();
      egState := 1 - egState;
    }

    /** The distance of a position from the nearest end of the 210: up, then down again. */
    function Triangle(pos: nat): (r: nat)
      requires pos < 210
      ensures r <= 105 && (r == pos || r + pos == 210) && r <= 210 - pos && r <= pos
    {
      if pos < 105 then pos else 210 - pos
    }

    /** The tremolo rises and falls over 210 positions and never exceeds 26. */
    method TickTremolo()
      requires tremoloPos < 210 && (tremoloShift == 2 || tremoloShift == 4)
      modifies this`tremolo, this`tremoloPos
      ensures tremoloPos == (old(tremoloPos) + (if timer % 64 == 63 then 1 else 0)) % 210
      ensures tremolo == Triangle(tremoloPos) / (if tremoloShift == 2 then 4 else 16) && tremolo <= 26
    {
      if timer % 64 == 63 {
        tremoloPos := (tremoloPos + 1) % 210;
      }
      tremolo := (if tremoloPos < 105 then tremoloPos else 210 - tremoloPos) / (if tremoloShift == 2 then 4 else 16);
    }

    /** eg_add tells the position of the lowest set bit; the timer itself runs at half the rate. */
    method TickEnvelope()
      requires egState <= 1
      modifies this`egAdd, this`egTimer, this`egTimerRem
      ensures egAdd <= 13 && Advanced(old(egTimer), old(egTimerRem), egState, egTimer, egTimerRem, egAdd)
    {
      hide Pow2;
      egAdd := 0;
      if egTimer != 0 {
        var shift := LowestSet(egTimer);
        egAdd := if shift > 12 then 0 else shift + 1;
        LowThirteen(egTimer, shift);
      } else {
        NothingSet();
      }
      if egTimerRem || egState != 0 {
        if egTimer == 0xfffffffff {
          egTimer, egTimerRem := 0, true;
        } else {
          egTimer, egTimerRem := egTimer + 1, false;
        }
      }
    }
  }

  ghost predicate Advanced(t: nat, rem: bool, state: nat, t': nat, rem': bool, add: nat) {
    && (add == 0 <==> t % Pow2(13) == 0)
    && (add > 0 ==> add <= 13 && t % Pow2(add - 1) == 0 && t / Pow2(add - 1) % 2 == 1)
    && (if !(rem || state != 0) then t' == t && rem' == rem
        else if t == 0xfffffffff then t' == 0 && rem' else t' == t + 1 && !rem')
  }

  method LowestSet(x: nat) returns (shift: nat)
    ensures shift <= 36 && x % Pow2(shift) == 0
    ensures shift < 36 ==> x / Pow2(shift) % 2 == 1
  {
    shift := 0;
    while shift < 36 && x / Pow2(shift) % 2 == 0
      invariant shift <= 36 && x % Pow2(shift) == 0
    {
      LowBitsZero(x, shift);
      shift := shift + 1;
    }
  }

  lemma NothingSet()
    ensures 0 % Pow2(13) == 0
  {
    DivModUnique(0, Pow2(13), 0, 0);
  }

  /** A number with lowest set bit shift is a multiple of 2^13 exactly when shift is 13 or more. */
  lemma LowThirteen(x: nat, shift: nat)
    requires x % Pow2(shift) == 0 && (shift <= 12 ==> x / Pow2(shift) % 2 == 1)
    ensures x % Pow2(13) == 0 <==> shift > 12
  {
    if shift > 12 {
      LowerPower(x, shift, 13);
    } else {
      LowerPower(x, 13, shift + 1);
      EvenQuotient(x, Pow2(shift));
    }
  }

  lemma LowerPower(x: nat, m: nat, n: nat)
    requires n <= m
    ensures x % Pow2(m) == 0 ==> x % Pow2(n) == 0
  {
    Pow2Sum(n, m - n);
    hide Pow2;
    MultipleOfProduct(x, Pow2(n), Pow2(m - n));
  }

  lemma LowBitsZero(x: nat, n: nat)
    requires x % Pow2(n) == 0 && x / Pow2(n) % 2 == 0
    ensures x % Pow2(n + 1) == 0
  {
    var q := x / Pow2(n) / 2;
    assert x == 2 * q * Pow2(n) == q * Pow2(n + 1);
    DivModUnique(x, Pow2(n + 1), q, 0);
  }

  class Channel {
    var fNum: nat
    var block: nat
    var ksv: nat

    ghost predicate Valid()
      reads this
    {
      fNum < 1024 && block < 8 && ksv < 16
    }

    constructor ()
      ensures Valid()
    {
      fNum, block, ksv := 0, 0, 0;
    }

    /** Register A0: the low eight bits of the frequency number. */
    method WriteA0(data: byte, nts: nat)
      requires Valid() && nts <= 1
      modifies this
      ensures Valid() && fNum % 256 == data && fNum / 256 == old(fNum) / 256 && block == old(block)
      ensures ksv / 2 == block && ksv % 2 == (if nts == 0 then fNum / 512 else fNum / 256 % 2)
    {
      fNum := fNum / 256 * 256 + data;
      ksv := block * 2 + (if nts == 0 then fNum / 512 else fNum / 256) % 2;
    }

    /** Register B0: block and the high two bits. */
    method WriteB0(data: byte, nts: nat)
      requires Valid() && nts <= 1
      modifies this
      ensures Valid() && fNum / 256 == data % 4 && fNum % 256 == old(fNum) % 256 && block == data / 4 % 8
      ensures ksv / 2 == block && ksv % 2 == (if nts == 0 then fNum / 512 else fNum / 256 % 2)
    {
      fNum := data % 4 * 256 + fNum % 256;
      block := data / 4 % 8;
      ksv := block * 2 + (if nts == 0 then fNum / 512 else fNum / 256) % 2;
    }
  }

  class Slot {
    const channel: Channel
    const clock: Clock
    var egRout: int
    var egOut: int
    var egGen: Phase
    var egKsl: nat
    var trem: bool
    var vib: bool
    var regMult: nat
    var regType: bool
    var regKsr: bool
    var regKsl: nat
    var regTl: nat
    var regAr: nat
    var regDr: nat
    var regSl: nat
    var regRr: nat
    var regWf: nat
    var keyNorm: bool
    var keyDrum: bool
    var pgReset: bool
    var out: int
    var prout: int
    var fbmod: int

    ghost predicate Valid()
      reads this, channel, clock
    {
      && channel.Valid() && clock.Valid()
      && 0 <= egRout <= 0x1ff && 0 <= egOut <= 1013 && egKsl <= 224
      && regKsl < 4 && regTl < 64 && regAr < 16 && regDr < 16 && regRr < 16 && regWf < 8
      && (regSl < 15 || regSl == 0x1f)
      && InRange(out) && InRange(prout) && -2043 <= fbmod <= 2042
    }

    function Key(): bool
      reads this`keyNorm, this`keyDrum
    {
      keyNorm || keyDrum
    }

    ghost function Env(): Envelope
      reads this, channel, clock
      requires Valid()
    {
      Envelope(egGen, egRout)
    }

    constructor (ch: Channel, c: Clock)
      requires ch.Valid() && c.Valid()
      ensures Valid() && channel == ch && clock == c && Env() == Envelope(Release, 0x1ff)
    {
      channel, clock := ch, c;
      egRout, egOut, egGen, egKsl := 0x1ff, 0x1ff, Release, 0;
      trem, vib, regMult, regType, regKsr, regKsl, regTl := false, false, 0, false, false, 0, 0;
      regAr, regDr, regSl, regRr, regWf := 0, 0, 0, 0, 0;
      keyNorm, keyDrum, pgReset, out, prout, fbmod := false, false, false, 0, 0, 0;
    }

    method Write20(data: byte)
      requires Valid()
      modifies this
      ensures Valid() && Env() == old(Env()) && Key() == old(Key())
      ensures regMult < 16
      ensures data == regMult + (if regKsr then 16 else 0) + (if regType then 32 else 0)
                      + (if vib then 64 else 0) + (if trem then 128 else 0)
    {
      FlagBits(data);
      trem, vib, regType := data / 128 % 2 == 1, data / 64 % 2 == 1, data / 32 % 2 == 1;
      regKsr, regMult := data / 16 % 2 == 1, data % 16;
    }

    method Write40(data: byte)
      requires Valid()
      modifies this
      ensures Valid() && Env() == old(Env()) && Key() == old(Key()) && regTl == data % 64
    {
      regKsl, regTl := data / 64, data % 64;
      UpdateKsl();
    }

    /** OPL3_EnvelopeUpdateKSL: the result fits its eight bits. */
    method UpdateKsl()
      requires Valid() || (channel.Valid() && clock.Valid())
      modifies this`egKsl
      ensures egKsl <= 224 && (egKsl == 0 || egKsl == KSLROM[channel.fNum / 64] * 4 - (8 - channel.block) * 32)
      ensures KSLROM[channel.fNum / 64] * 4 - (8 - channel.block) * 32 <= egKsl
    {
      var ksl := KSLROM[channel.fNum / 64] * 4 - (8 - channel.block) * 32;
      egKsl := if ksl < 0 then 0 else ksl;
    }

    method Write60(data: byte)
      requires Valid()
      modifies this
      ensures Valid() && Env() == old(Env()) && Key() == old(Key()) && regAr == data / 16 && regDr == data % 16
    {
      regAr, regDr := data / 16, data % 16;
    }

    method Write80(data: byte)
      requires Valid()
      modifies this
      ensures Valid() && Env() == old(Env()) && Key() == old(Key()) && regRr == data % 16
      ensures regSl == if data / 16 == 15 then 0x1f else data / 16
    {
      regSl := data / 16;
      if regSl == 0x0f {
        regSl := 0x1f;
      }
      regRr := data % 16;
    }

    method WriteE0(data: byte, newm: bool)
      requires Valid()
      modifies this
      ensures Valid() && Env() == old(Env()) && Key() == old(Key()) && regWf == if newm then data % 8 else data % 4
    {
      regWf := data % 8;
      if !newm {
        regWf := regWf % 4;
      }
    }

    /** The rate register that the current phase uses. */
    function RegRate(): nat
      reads this`keyNorm, this`keyDrum, this`egGen, this`regType, this`regAr, this`regDr, this`regRr
    {
      if Key() && egGen == Release then regAr
      else match egGen
           case Attack => regAr
           case Decay => regDr
           case Sustain => if regType then 0 else regRr
           case Release => regRr
    }

    function Rate(): nat
      reads this`keyNorm, this`keyDrum, this`egGen, this`regType, this`regAr, this`regDr, this`regRr, this`regKsr,
            channel
    {
      (if regKsr then channel.ksv else channel.ksv / 4) + 4 * RegRate()
    }

    function RateHi(): (r: nat)
      reads this`keyNorm, this`keyDrum, this`egGen, this`regType, this`regAr, this`regDr, this`regRr, this`regKsr,
            channel
      ensures r <= 15
    {
      if Rate() / 4 >= 16 then 15 else Rate() / 4
    }

    /** A key-on and the attack run at the attack rate, decay at the decay rate, release at the release
        rate, and so does a sustain that is not held: at rate 0 the level stands still, at 15 it moves
        as fast as it can. */
    lemma RateOfPhase()
      requires Valid()
      ensures var attacking := egGen == Attack || (Key() && egGen == Release);
              var releasing := (egGen == Release && !Key()) || (egGen == Sustain && !regType);
              && (attacking && regAr == 0 ==> Shift() == 0) && (attacking && regAr == 15 ==> RateHi() == 15)
              && (egGen == Decay && regDr == 0 ==> Shift() == 0) && (egGen == Decay && regDr == 15 ==> RateHi() == 15)
              && (releasing && regRr == 0 ==> Shift() == 0) && (releasing && regRr == 15 ==> RateHi() == 15)
      ensures egGen == Sustain && regType ==> Shift() == 0
    {
    }

    /** How fast the level moves in this step. */
    function Shift(): (r: nat)
      reads this`keyNorm, this`keyDrum, this`egGen, this`regType, this`regAr, this`regDr, this`regRr, this`regKsr,
            channel, clock
      requires clock.egState <= 1
      ensures r <= 3
    {
      var lo := Rate() % 4;
      if RegRate() == 0 then 0
      else if RateHi() < 12 then
        if clock.egState == 0 then 0 else SlowShift(RateHi(), lo, clock.egAdd)
      else FastShift(RateHi(), lo, clock.timer % 4, clock.egState)
    }

    ghost function Driven(): (d: Drive)
      reads this, channel, clock
      requires Valid()
      ensures Sane(d)
    {
      Drive(Key(), regSl, RateHi(), Shift())
    }

    /** OPL3_EnvelopeCalc: its nine-bit mask never changes the level. */
    method EnvelopeCalc()
      requires Valid()
      modifies this
      ensures Valid() && Env() == Next(old(Env()), old(Driven()))
      ensures egOut == old(egRout) + 4 * regTl
                     + (if regKsl == 0 then 0 else if regKsl == 1 then egKsl / 2
                        else if regKsl == 2 then egKsl / 4 else egKsl)
                     + (if trem then clock.tremolo else 0)
      ensures pgReset == old(Key() && egGen == Release)
      ensures Key() == old(Key()) && regSl == old(regSl) && out == old(out)
    {
      hide RateHi, Shift, Next;
      UpdateOut();
      var rateHi, shift := RateHi(), Shift();
      pgReset := Key() && egGen == Release;
      StepLevel(rateHi, shift);
    }

    method UpdateOut()
      requires Valid()
      modifies this`egOut
      ensures 0 <= egOut <= 1013
      ensures egOut == egRout + 4 * regTl
                     + (if regKsl == 0 then 0 else if regKsl == 1 then egKsl / 2
                        else if regKsl == 2 then egKsl / 4 else egKsl)
                     + (if trem then clock.tremolo else 0)
    {
      var kslShifted := egKsl / (if regKsl == 0 then 256 else if regKsl == 1 then 2 else if regKsl == 2 then 4 else 1);
      egOut := egRout + regTl * 4 + kslShifted + (if trem then clock.tremolo else 0);
    }

    method StepLevel(rateHi: nat, shift: nat)
      requires Valid() && rateHi <= 15 && shift <= 3
      modifies this`egRout, this`egGen
      ensures 0 <= egRout <= 0x1ff
      ensures Envelope(egGen, egRout) == Next(old(Env()), Drive(Key(), regSl, rateHi, shift))
    {
      hide Next, AttackInc, StepInc;
      ghost var e, d := Env(), Drive(Key(), regSl, rateHi, shift);
      var reset := Key() && egGen == Release;
      var rout, inc, off := egRout, 0, false;
      if reset && rateHi == 15 {
        rout := 0;
      }
      if egRout / 8 % 64 == 63 {
        off := true;
      }
      if egGen != Attack && !reset && off {
        rout := 0x1ff;
      }
      match egGen {
        case Attack =>
          if egRout == 0 {
            egGen := Decay;
          } else if Key() && shift > 0 && rateHi != 15 {
            inc := AttackInc(egRout, shift);
          }
        case Decay =>
          if egRout / 16 == regSl {
            egGen := Sustain;
          } else if !off && !reset && shift > 0 {
            inc := StepInc(shift);
          }
        case _ =>
          if !off && !reset && shift > 0 {
            inc := StepInc(shift);
          }
      }
      LevelIs(e, d, reset, off, rout, inc);
      egRout := (rout + inc) % 0x200;
      if reset {
        egGen := Attack;
      }
      if !Key() {
        egGen := Release;
      }
    }

    /** OPL3_SlotGenerate, with the phase of the phase generator and the modulation input. */
    method Generate(phaseOut: nat, mod: int)
      requires Valid()
      modifies this`out
      ensures Valid() && out == Wave(regWf, phaseOut + mod, egOut)
    {
      hide Wave;
      WaveInRange(regWf, phaseOut + mod, egOut);
      out := Wave(regWf, phaseOut + mod, egOut);
    }

    /** OPL3_SlotCalcFB */
    method CalcFeedback(fb: nat)
      requires Valid() && fb < 8
      modifies this`fbmod, this`prout
      ensures Valid() && prout == out && fbmod == if fb == 0 then 0 else (old(prout) + out) / Pow2(9 - fb)
    {
      if fb != 0 {
        FeedbackRange(prout + out, 9 - fb);
        fbmod := (prout + out) / Pow2(9 - fb);
      } else {
        fbmod := 0;
      }
      prout := out;
    }
  }

  lemma FlagBits(data: byte)
    ensures data == data % 16 + (if data / 16 % 2 == 1 then 16 else 0) + (if data / 32 % 2 == 1 then 32 else 0)
                    + (if data / 64 % 2 == 1 then 64 else 0) + (if data / 128 % 2 == 1 then 128 else 0)
  {
    var a, b, c, d := data / 16, data / 32, data / 64, data / 128;
    assert b == a / 2 && c == b / 2 && d == c / 2 && d < 2;
  }

  lemma FeedbackRange(x: int, k: nat)
    requires -8170 <= x <= 8168 && 2 <= k <= 8
    ensures -2043 <= x / Pow2(k) <= 2042
  {
    var d := Pow2(k);
    assert Pow2(2) == 4;
    assert Pow2(4) == 4 * Pow2(2);
    assert Pow2(6) == 4 * Pow2(4);
    assert Pow2(8) == 4 * Pow2(6);
    assert d == (if k == 2 then 4 else if k == 3 then 8 else if k == 4 then 16 else if k == 5 then 32
                 else if k == 6 then 64 else if k == 7 then 128 else 256);
  }

  // ---------- the mix ----------

  function Signed16(x: int): int {
    (x + 0x8000) % 0x1_0000 - 0x8000
  }

  function Sum(xs: seq<int>): int {
    if xs == [] then 0 else Sum(xs[..|xs| - 1]) + xs[|xs| - 1]
  }

  lemma {:induction false} SumBounds(xs: seq<int>, lo: int, hi: int)
    requires forall i :: 0 <= i < |xs| ==> lo <= xs[i] <= hi
    ensures lo * |xs| <= Sum(xs) <= hi * |xs|
  {
    if xs != [] {
      SumBounds(xs[..|xs| - 1], lo, hi);
      OneMore(lo, |xs| - 1);
      OneMore(hi, |xs| - 1);
    }
  }

  lemma OneMore(x: int, n: nat)
    ensures x * (n + 1) == x * n + x
  {
  }

  /** What channel outs add to one side of the stereo mix. */
  function Contribution(outs: seq<int>, on: bool): int {
    if on then Sum(outs) else 0
  }

  function Contributions(outs: seq<seq<int>>, on: seq<bool>): seq<int>
    requires |outs| == |on|
  {
    seq(|outs|, i requires 0 <= i < |outs| => Contribution(outs[i], on[i]))
  }

  function Clip(x: int): int {
    if x > 32767 then 32767 else if x < -32768 then -32768 else x
  }

  /** One side of the mix of OPL3_Generate: however the four outputs of each channel are wired to
      slots, the 16-bit and 32-bit accumulators do not wrap, so the sample is the clipped true sum. */
  method MixSide(outs: seq<seq<int>>, on: seq<bool>) returns (sample: int)
    requires |outs| == |on| == 18
    requires forall i :: 0 <= i < 18 ==> |outs[i]| == 4 && forall j :: 0 <= j < 4 ==> InRange(outs[i][j])
    ensures sample == Clip(Sum(Contributions(outs, on)))
    ensures -294120 <= Sum(Contributions(outs, on)) <= 294048
  {
    hide Sum;
    var mix := 0;
    ghost var all := Contributions(outs, on);
    SumNil();
    for ii := 0 to 18
      invariant mix == Sum(all[..ii])
    {
      var accm := 0;
      for jj := 0 to 4
        invariant accm == Sum(outs[ii][..jj])
      {
        SumSnoc(outs[ii], jj);
        SumBounds(outs[ii][..jj + 1], -4085, 4084);
        accm := Signed16(accm + outs[ii][jj]);
      }
      assert outs[ii][..4] == outs[ii];
      SumSnoc(all, ii);
      mix := mix + (if on[ii] then accm else 0);
    }
    assert all[..18] == all;
    ContributionBounds(outs, on);
    SumBounds(all, -16340, 16336);
    sample := Clip(mix);
  }

  lemma SumNil()
    ensures forall xs: seq<int> :: Sum(xs[..0]) == 0
  {
  }

  lemma SumSnoc(xs: seq<int>, i: nat)
    requires i < |xs|
    ensures Sum(xs[..i + 1]) == Sum(xs[..i]) + xs[i]
  {
    assert xs[..i + 1][..i] == xs[..i];
  }

  lemma ContributionBounds(outs: seq<seq<int>>, on: seq<bool>)
    requires |outs| == |on|
    requires forall i :: 0 <= i < |outs| ==> |outs[i]| == 4 && forall j :: 0 <= j < 4 ==> InRange(outs[i][j])
    ensures forall i :: 0 <= i < |outs| ==> -16340 <= Contributions(outs, on)[i] <= 16336
  {
    forall i | 0 <= i < |outs| ensures -16340 <= Contributions(outs, on)[i] <= 16336 {
      SumBounds(outs[i], -4085, 4084);
    }
  }
}
