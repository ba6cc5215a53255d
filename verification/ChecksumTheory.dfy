/** What the value of `Checksum` detects and what it is: the remainder of long division of coefficient
    sequences over two elements, a definition that shares no code with the register. */
module ChecksumTheory {
  import opened Fold
  import opened Checksum

  // ---------------------------------------------------------------- error detection

  lemma {:induction false} MessageBitsAppend(a: seq<Octet>, b: seq<Octet>)
    ensures MessageBits(a + b) == MessageBits(a) + MessageBits(b)
  {
    hide BitsOf;
    if a == [] {
      assert a + b == b;
    } else {
      assert (a + b)[1..] == a[1..] + b;
      MessageBitsAppend(a[1..], b);
    }
  }

  lemma BitsOfIsInjective(a: Octet, b: Octet)
    requires BitsOf(a) == BitsOf(b)
    ensures a == b
  {
    var s, t := BitsOf(a), BitsOf(b);
    assert s[0] == t[0] && s[1] == t[1] && s[2] == t[2] && s[3] == t[3];
    assert s[4] == t[4] && s[5] == t[5] && s[6] == t[6] && s[7] == t[7];
  }

  lemma {:induction false} MessageBitsInjective(a: seq<Octet>, b: seq<Octet>)
    requires |a| == |b| && MessageBits(a) == MessageBits(b)
    ensures a == b
  {
    hide BitsOf;
    if a != [] {
      var s, t := MessageBits(a), MessageBits(b);
      assert s[..8] == BitsOf(a[0]) && t[..8] == BitsOf(b[0]);
      assert s[8..] == MessageBits(a[1..]) && t[8..] == MessageBits(b[1..]);
      BitsOfIsInjective(a[0], b[0]);
      MessageBitsInjective(a[1..], b[1..]);
      assert a == [a[0]] + a[1..] && b == [b[0]] + b[1..];
    }
  }

  /** Two windows of at most 32 bits that take one register to the same place are the same window. */
  lemma FeedDistinguishes(c: bv32, w: seq<bool>, v: seq<bool>)
    requires |w| == |v| <= 32
    requires Run(FeedBit, c, w) == Run(FeedBit, c, v)
    ensures w == v
  {
    hide *;
    FeedPacked(c, w);
    FeedPacked(c, v);
    ShiftIsInjective();
    IterateInjective(Shift, Plus(c, Pack(w)), Plus(c, Pack(v)), |w|);
    PlusCommutes(c, Pack(w));
    PlusCommutes(c, Pack(v));
    PlusUndone(Pack(w), Pack(v), c);
    PackIsInjective(w, v);
  }

  lemma SameCrcSameRegister(a: seq<Octet>, b: seq<Octet>)
    requires Crc(a) == Crc(b)
    ensures Run(FeedBit, SEED, MessageBits(a)) == Run(FeedBit, SEED, MessageBits(b))
  {
    hide FeedBit, MessageBits;
    PlusUndone(Feed(SEED, a), Feed(SEED, b), SEED);
  }

  lemma CommonEndsPeelOff(p: seq<bool>, w: seq<bool>, v: seq<bool>, s: seq<bool>)
    requires |w| == |v| <= 32
    requires Run(FeedBit, SEED, p + w + s) == Run(FeedBit, SEED, p + v + s)
    ensures w == v
  {
    hide *;
    RunAppends(FeedBit, SEED, p + w, s);
    RunAppends(FeedBit, SEED, p, w);
    RunAppends(FeedBit, SEED, p + v, s);
    RunAppends(FeedBit, SEED, p, v);
    var c := Run(FeedBit, SEED, p);
    FeedBitIsInjectiveInState();
    RunInjectiveInState(FeedBit, Run(FeedBit, c, w), Run(FeedBit, c, v), s);
    FeedDistinguishes(c, w, v);
  }

  /** Two bit strings that agree outside one window of 32 and leave the same register are equal. */
  lemma WindowDetected(xs: seq<bool>, ys: seq<bool>, from: nat)
    requires |xs| == |ys|
    requires forall i :: 0 <= i < |xs| && !(from <= i < from + 32) ==> xs[i] == ys[i]
    requires Run(FeedBit, SEED, xs) == Run(FeedBit, SEED, ys)
    ensures xs == ys
  {
    hide *;
    var lo := if from <= |xs| then from else |xs|;
    var hi := if lo + 32 <= |xs| then lo + 32 else |xs|;
    var p, w, v, s := xs[..lo], xs[lo..hi], ys[lo..hi], xs[hi..];
    assert ys[..lo] == p && ys[hi..] == s;
    Cut(xs, lo, hi);
    Cut(ys, lo, hi);
    CommonEndsPeelOff(p, w, v, s);
  }

  lemma Cut(xs: seq<bool>, lo: nat, hi: nat)
    requires lo <= hi <= |xs|
    ensures xs == xs[..lo] + xs[lo..hi] + xs[hi..]
  {}

  /** Every burst error of at most 32 bits, wherever it starts, changes the checksum. */
  lemma BurstDetected(a: seq<Octet>, b: seq<Octet>, from: nat)
    requires |a| == |b| && a != b
    requires forall i :: 0 <= i < 8 * |a| && !(from <= i < from + 32) ==> MessageBits(a)[i] == MessageBits(b)[i]
    ensures Crc(a) != Crc(b)
  {
    hide FeedBit, MessageBits, Crc, Run;
    if Crc(a) == Crc(b) {
      SameCrcSameRegister(a, b);
      WindowDetected(MessageBits(a), MessageBits(b), from);
      MessageBitsInjective(a, b);
    }
  }

  /** Equal-length inputs that differ in exactly one byte never collide. */
  lemma OneByteDetected(before: seq<Octet>, x: Octet, y: Octet, after: seq<Octet>)
    requires x != y
    ensures Crc(before + [x] + after) != Crc(before + [y] + after)
  {
    hide BitsOf, Crc;
    var a, b := before + [x] + after, before + [y] + after;
    MessageBitsAppend(before + [x], after);
    MessageBitsAppend(before + [y], after);
    MessageBitsAppend(before, [x]);
    MessageBitsAppend(before, [y]);
    assert a[|before|] != b[|before|];
    BurstDetected(a, b, 8 * |before|);
  }

  // ---------------------------------------------------------------- polynomial division

  /** The exponents of the generator in section 3.4 of RFC 2083. */
  const EXPONENTS: set<int> := {32, 26, 23, 22, 16, 12, 11, 10, 8, 7, 5, 4, 2, 1, 0}

  /** The generator's 33 coefficients, highest power first. */
  const DIVISOR: seq<bool> := [true] + DIVISOR_TAIL

  const DIVISOR_TAIL: seq<bool> :=
    [false, false, false, false] + ([false, true, false, false] + (
      [true, true, false, false] + ([false, false, false, true] + (
      [false, false, false, true] + ([true, true, false, true] + (
      [true, false, true, true] + [false, true, true, true]))))))

  lemma DivisorHasExponents(i: nat)
    requires i <= 32
    ensures |DIVISOR| == 33 && (DIVISOR[i] <==> 32 - i in EXPONENTS)
  {}

  /** Schoolbook long division over GF(2) on coefficients, highest power first: what is left when
      fewer than 33 remain. */
  function Remainder(p: seq<bool>): (r: seq<bool>)
    decreases |p|
  {
    if |p| < 33 then p
    else if p[0] then Remainder(Xored(p[1..33], DIVISOR[1..]) + p[33..])
    else Remainder(p[1..])
  }

  /** A register as the 32 coefficients it holds, highest power first. */
  function Coefficients(v: bv32): (p: seq<bool>)
    ensures |p| == 32
  {
    seq(32, i requires 0 <= i < 32 => BitAt(v, i))
  }

  predicate BitAt(v: bv32, i: nat)
    decreases i
  {
    if i == 0 then v & 1 == 1 else BitAt(Half(v), i - 1)
  }

  /** The message times x^32, with its 32 highest coefficients inverted by the seed. */
  function Dividend(bits: seq<bool>): (p: seq<bool>)
    ensures |p| == |bits| + 32
  {
    Xored(bits + Zeros(32), Ones(32) + Zeros(|bits|))
  }

  /** Long division with the running remainder in a register: bring down one coefficient. */
  function DivStep(r: bv32, b: bool): bv32 {
    Plus(Shift(r), TopBit(b))
  }

  function TopBit(b: bool): bv32 {
    if b then TOP else 0
  }

  /** `bits` lists a register's coefficients, highest power first. */
  predicate Spelled(v: bv32, bits: seq<bool>) {
    bits == [] || ((v & 1 == 1) == bits[0] && Spelled(Half(v), bits[1..]))
  }

  lemma {:induction false} SpelledBits(v: bv32, bits: seq<bool>, i: nat)
    requires Spelled(v, bits) && i < |bits|
    ensures BitAt(v, i) == bits[i]
    decreases i
  {
    if i > 0 {
      SpelledBits(Half(v), bits[1..], i - 1);
    }
  }

  lemma NibbleHalves(v: bv32)
    ensures Half(Half(Half(Half(v)))) == v >> 4
    ensures Half(v) & 1 == 1 <==> v & 2 != 0
    ensures Half(Half(v)) & 1 == 1 <==> v & 4 != 0
    ensures Half(Half(Half(v))) & 1 == 1 <==> v & 8 != 0
  {}

  lemma SpelledNibble(v: bv32, a: bool, b: bool, c: bool, d: bool, rest: seq<bool>)
    requires a == (v & 1 == 1) && b == (v & 2 != 0) && c == (v & 4 != 0) && d == (v & 8 != 0)
    requires Spelled(v >> 4, rest)
    ensures Spelled(v, [a, b, c, d] + rest)
  {
    NibbleHalves(v);
    hide Half, Spelled;
    SpelledOn(Half(Half(Half(v))), d, rest);
    SpelledOn(Half(Half(v)), c, [d] + rest);
    SpelledOn(Half(v), b, [c] + ([d] + rest));
    SpelledOn(v, a, [b] + ([c] + ([d] + rest)));
    assert [a] + ([b] + ([c] + ([d] + rest))) == [a, b, c, d] + rest;
  }

  lemma SpelledOn(v: bv32, b: bool, rest: seq<bool>)
    requires b == (v & 1 == 1) && Spelled(Half(v), rest)
    ensures Spelled(v, [b] + rest)
  {
    hide Half;
    assert ([b] + rest)[1..] == rest;
  }

  lemma GeneratorSpelled()
    ensures Spelled(POLYNOMIAL, DIVISOR_TAIL)
  {
    SpelledNothing();
    hide Spelled;
    var p7 := [false, true, true, true];
    assert p7 == p7 + [];
    SpelledNibble(0xe, false, true, true, true, []);
    var p6 := [true, false, true, true] + p7;
    SpelledNibble(0xed, true, false, true, true, p7);
    var p5 := [true, true, false, true] + p6;
    SpelledNibble(0xedb, true, true, false, true, p6);
    var p4 := [false, false, false, true] + p5;
    SpelledNibble(0xedb8, false, false, false, true, p5);
    var p3 := [false, false, false, true] + p4;
    SpelledNibble(0xedb88, false, false, false, true, p4);
    var p2 := [true, true, false, false] + p3;
    SpelledNibble(0xedb883, true, true, false, false, p3);
    var p1 := [false, true, false, false] + p2;
    SpelledNibble(0xedb8832, false, true, false, false, p2);
    var p0 := [false, false, false, false] + p1;
    SpelledNibble(0xedb88320, false, false, false, false, p1);
  }

  lemma SpelledNothing()
    ensures forall v :: Spelled(v, [])
  {}

  lemma TopSpelled()
    ensures Spelled(TOP, Zeros(31) + [true])
  {
    SpelledNothing();
    hide Spelled;
    var p7 := [false, false, false, true];
    assert p7 == p7 + [];
    SpelledNibble(0x8, false, false, false, true, []);
    var p6 := [false, false, false, false] + p7;
    SpelledNibble(0x80, false, false, false, false, p7);
    var p5 := [false, false, false, false] + p6;
    SpelledNibble(0x800, false, false, false, false, p6);
    var p4 := [false, false, false, false] + p5;
    SpelledNibble(0x8000, false, false, false, false, p5);
    var p3 := [false, false, false, false] + p4;
    SpelledNibble(0x80000, false, false, false, false, p4);
    var p2 := [false, false, false, false] + p3;
    SpelledNibble(0x800000, false, false, false, false, p3);
    var p1 := [false, false, false, false] + p2;
    SpelledNibble(0x8000000, false, false, false, false, p2);
    var p0 := [false, false, false, false] + p1;
    SpelledNibble(0x80000000, false, false, false, false, p1);
    assert p0 == Zeros(31) + [true];
  }

  lemma GeneratorCoefficient(i: nat)
    requires i < 32
    ensures BitAt(POLYNOMIAL, i) <==> DIVISOR[i + 1]
  {
    GeneratorSpelled();
    SpelledBits(POLYNOMIAL, DIVISOR_TAIL, i);
  }

  lemma {:induction false} ZeroHasNoBits(i: nat)
    ensures !BitAt(0, i)
  {
    if i > 0 {
      ZeroHasNoBits(i - 1);
    }
  }

  lemma TopBits(b: bool, i: nat)
    requires i < 32
    ensures BitAt(TopBit(b), i) <==> b && i == 31
  {
    TopSpelled();
    SpelledBits(TOP, Zeros(31) + [true], i);
    ZeroHasNoBits(i);
  }

  lemma {:induction false} PlusBits(x: bv32, y: bv32, i: nat)
    ensures BitAt(Plus(x, y), i) <==> BitAt(x, i) != BitAt(y, i)
    decreases i
  {
    hide Plus, Half;
    if i == 0 {
      PlusLowBit(x, y);
    } else {
      PlusHalves(x, y);
      PlusBits(Half(x), Half(y), i - 1);
    }
  }

  // A register has no coefficient beyond its 32.

  function Below(k: nat): bv32 {
    if k == 0 then SEED else Half(Below(k - 1))
  }

  lemma HalfIsMonotone(x: bv32, m: bv32)
    requires x <= m
    ensures Half(x) <= Half(m)
  {}

  lemma BelowHalves(k: nat)
    ensures Below(k + 1) == Half(Below(k))
  {}

  lemma FourBelow(k: nat)
    ensures Below(k + 4) == Below(k) >> 4
  {
    NibbleHalves(Below(k));
    hide Half;
    assert Below(k + 2) == Half(Half(Below(k)));
    assert Below(k + 4) == Half(Half(Below(k + 2)));
  }

  lemma BelowEnds()
    ensures Below(32) == 0
  {
    FourBelow(0);
    FourBelow(4);
    FourBelow(8);
    FourBelow(12);
    FourBelow(16);
    FourBelow(20);
    FourBelow(24);
    FourBelow(28);
  }

  lemma {:induction false} SmallHasNoBit(x: bv32, i: nat)
    requires i <= 32 && x <= Below(32 - i)
    ensures !BitAt(x, i)
    decreases i
  {
    hide Half, Below;
    if i == 0 {
      BelowEnds();
    } else {
      HalfIsMonotone(x, Below(32 - i));
      BelowHalves(32 - i);
      SmallHasNoBit(Half(x), i - 1);
    }
  }

  lemma HalfHasNoTop(r: bv32)
    ensures !BitAt(Half(r), 31)
  {
    HalfIsMonotone(r, SEED);
    SmallHasNoBit(Half(r), 31);
  }

  lemma DivStepBits(r: bv32, b: bool, i: nat)
    requires i < 32
    ensures BitAt(DivStep(r, b), i)
       <==> (if i < 31 then BitAt(r, i + 1) else b) != (BitAt(r, 0) && BitAt(POLYNOMIAL, i))
  {
    hide Plus, Half, TopBit;
    PlusBits(Shift(r), TopBit(b), i);
    PlusBits(POLYNOMIAL, Half(r), i);
    HalfHasNoTop(r);
    TopBits(b, i);
  }

  lemma DivStepCoefficients(r: bv32, b: bool)
    ensures Coefficients(DivStep(r, b)) ==
            if Coefficients(r)[0] then Xored(Coefficients(r)[1..] + [b], DIVISOR[1..])
            else Coefficients(r)[1..] + [b]
  {
    hide DivStep, BitAt;
    var d := DivStep(r, b);
    forall i: nat | i < 32
      ensures Coefficients(d)[i] == ((Coefficients(r)[1..] + [b])[i] != (Coefficients(r)[0] && DIVISOR[1..][i]))
    {
      GeneratorCoefficient(i);
      DivStepBits(r, b, i);
    }
  }

  lemma {:induction false} RegisterDivides(r: bv32, rest: seq<bool>)
    ensures Remainder(Coefficients(r) + rest) == Coefficients(Run(DivStep, r, rest))
    decreases rest
  {
    hide DivStep, Coefficients;
    var p := Coefficients(r) + rest;
    if rest == [] {
      assert p == Coefficients(r);
    } else {
      var b := rest[0];
      DivStepCoefficients(r, b);
      assert p[1..33] == Coefficients(r)[1..] + [b];
      assert p[33..] == rest[1..];
      assert p[1..] == (Coefficients(r)[1..] + [b]) + rest[1..];
      RegisterDivides(DivStep(r, b), rest[1..]);
    }
  }

  lemma {:induction false} LeadingZerosVanish(n: nat, p: seq<bool>)
    requires |p| >= 32
    ensures Remainder(Zeros(n) + p) == Remainder(p)
  {
    if n == 0 {
      assert Zeros(0) + p == p;
    } else {
      assert (Zeros(n) + p)[1..] == Zeros(n - 1) + p;
      LeadingZerosVanish(n - 1, p);
    }
  }

  // Long division keeps pace with the register: after the same message the register holds the
  // running remainder times x^32.

  function TimesX32(r: bv32): bv32 {
    Iterate(Shift, r, 32)
  }

  lemma TopReachesBottom()
    ensures TimesX32(TOP) == Shift(1)
  {
    hide Shift;
    assert Iterate(Shift, TOP, 31) == 1 by {
      PackShiftsTop();
    }
    IterateAppends(Shift, TOP, 31, 1);
  }

  lemma PackShiftsTop()
    ensures Iterate(Shift, TOP, 31) == 1
  {
    assert Iterate(Shift, 0x8000_0000, 8) == 0x80_0000;
    assert Iterate(Shift, 0x80_0000, 8) == 0x8000;
    assert Iterate(Shift, 0x8000, 8) == 0x80;
    assert Iterate(Shift, 0x80, 7) == 1;
    IterateAppends(Shift, TOP, 8, 23);
    IterateAppends(Shift, 0x80_0000, 8, 15);
    IterateAppends(Shift, 0x8000, 8, 7);
  }

  lemma TimesX32OfTopBit(b: bool)
    ensures TimesX32(TopBit(b)) == Shift(Bit(b))
  {
    hide Shift;
    if b {
      TopReachesBottom();
    } else {
      ShiftNothing(32);
    }
  }

  lemma {:induction false} ShiftNothing(n: nat)
    ensures Iterate(Shift, 0, n) == 0 && Shift(0) == 0
  {
    assert Shift(0) == 0;
    if n > 0 {
      ShiftNothing(n - 1);
    }
  }

  lemma TimesX32Commutes(r: bv32)
    ensures TimesX32(Shift(r)) == Shift(TimesX32(r))
  {
    hide Shift;
    IterateAppends(Shift, r, 1, 32);
    IterateAppends(Shift, r, 32, 1);
    assert Iterate(Shift, r, 1) == Iterate(Shift, Shift(r), 0);
  }

  lemma RegisterSimulatesDivision()
    ensures Simulates(FeedBit, DivStep, TimesX32)
  {
    hide FeedBit, DivStep, TimesX32;
    forall r, b ensures FeedBit(TimesX32(r), b) == TimesX32(DivStep(r, b)) {
      RegisterKeepsPace(r, b);
    }
  }

  lemma RegisterKeepsPace(r: bv32, b: bool)
    ensures FeedBit(TimesX32(r), b) == TimesX32(DivStep(r, b))
  {
    ShiftIsAdditive();
    hide Shift, Plus, Bit, TopBit;
    IterateAdditive(Shift, Plus, Shift(r), TopBit(b), 32);
    TimesX32Commutes(r);
    TimesX32OfTopBit(b);
  }

  lemma DivStepSuperposes()
    ensures Superposes(DivStep, Plus)
  {
    hide DivStep, Plus;
    forall x, y, a, b ensures DivStep(Plus(x, y), a != b) == Plus(DivStep(x, a), DivStep(y, b)) {
      DivStepsAdd(x, y, a, b);
    }
  }

  lemma DivStepsAdd(x: bv32, y: bv32, a: bool, b: bool)
    ensures DivStep(Plus(x, y), a != b) == Plus(DivStep(x, a), DivStep(y, b))
  {
    TopBitsXor(a, b);
    hide Shift, Plus, TopBit;
    ShiftIsLinear(x, y);
    PlusInterchange(Shift(x), Shift(y), TopBit(a), TopBit(b));
  }

  lemma TopBitsXor(a: bool, b: bool)
    ensures TopBit(a != b) == Plus(TopBit(a), TopBit(b))
  {}

  lemma DivStepZero()
    ensures forall r :: DivStep(r, false) == Shift(r)
  {
    hide Shift;
  }

  lemma FeedBitZero()
    ensures forall r :: FeedBit(r, false) == Shift(r)
  {
    hide Shift;
  }

  /** Dividing 32 ones leaves them in the register. */
  lemma {:induction false} OnesLoad(k: nat)
    requires k <= 32
    ensures Run(DivStep, Above(k), Ones(k)) == SEED
    decreases k
  {
    hide DivStep;
    if k > 0 {
      LoadOne(k);
      assert Ones(k)[1..] == Ones(k - 1);
      OnesLoad(k - 1);
    }
  }

  lemma LoadOne(k: nat)
    requires 0 < k <= 32
    ensures DivStep(Above(k), true) == Above(k - 1)
  {
    hide Plus, Half, Double;
    AboveHasTop(k - 1);
    HalfOfDouble(Above(k - 1));
  }

  lemma HalfOfDouble(x: bv32)
    requires x & TOP == TOP
    ensures Double(x) & 1 == 0
    ensures Plus(Half(Double(x)), TOP) == x
  {}

  lemma MessageRemainder(bits: seq<bool>)
    ensures Run(DivStep, 0, bits + Zeros(32)) == Run(FeedBit, 0, bits)
  {
    DivStepZero();
    ShiftNothing(32);
    hide *;
    RunAppends(DivStep, 0, bits, Zeros(32));
    RunZeros(DivStep, Shift, Run(DivStep, 0, bits), 32);
    RegisterSimulatesDivision();
    RunSimulates(FeedBit, DivStep, TimesX32, 0, bits);
    TimesX32Is(0);
    TimesX32Is(Run(DivStep, 0, bits));
  }

  lemma TimesX32Is(r: bv32)
    ensures TimesX32(r) == Iterate(Shift, r, 32)
  {}

  lemma SeedRemainder(n: nat)
    ensures Run(DivStep, 0, Ones(32) + Zeros(n)) == Iterate(Shift, SEED, n)
  {
    AboveEnds();
    DivStepZero();
    hide *;
    OnesLoad(32);
    RunAppends(DivStep, 0, Ones(32), Zeros(n));
    RunZeros(DivStep, Shift, SEED, n);
  }

  lemma SeedShifts(n: nat)
    ensures Run(FeedBit, SEED, Zeros(n)) == Iterate(Shift, SEED, n)
  {
    FeedBitZero();
    hide *;
    RunZeros(FeedBit, Shift, SEED, n);
  }

  lemma SeededRegister(bits: seq<bool>)
    ensures Run(FeedBit, SEED, bits) == Plus(Run(FeedBit, 0, bits), Iterate(Shift, SEED, |bits|))
  {
    PlusSeed();
    hide *;
    FeedBitSuperposes();
    XoredZeros(bits);
    SeedShifts(|bits|);
    RunSuperposes(FeedBit, Plus, 0, SEED, bits, Zeros(|bits|));
  }

  lemma XoredZeros(bits: seq<bool>)
    ensures Xored(bits, Zeros(|bits|)) == bits
  {}

  lemma PlusSeed()
    ensures Plus(0, SEED) == SEED && Plus(0, 0) == 0
  {}

  /** The value `crc32` returns is the complement of the remainder that long division by the
      generator leaves of the seeded message. */
  lemma CrcIsPolynomialRemainder(bytes: seq<Octet>)
    ensures Remainder(Dividend(MessageBits(bytes))) == Coefficients(Plus(Crc(bytes), SEED))
  {
    var bits := MessageBits(bytes);
    var p, q := bits + Zeros(32), Ones(32) + Zeros(|bits|);
    PlusSeed();
    CrcComplement(bytes);
    hide *;
    DivStepSuperposes();
    RunSuperposes(DivStep, Plus, 0, 0, p, q);
    MessageRemainder(bits);
    SeedRemainder(|bits|);
    SeededRegister(bits);
    DividendIs(bits);
    ZeroRegister();
    LeadingZerosVanish(32, Dividend(bits));
    RegisterDivides(0, Dividend(bits));
  }

  lemma CrcComplement(bytes: seq<Octet>)
    ensures Plus(Crc(bytes), SEED) == Run(FeedBit, SEED, MessageBits(bytes))
  {
    assert (Feed(SEED, bytes) ^ SEED) ^ SEED == Feed(SEED, bytes);
  }

  lemma DividendIs(bits: seq<bool>)
    ensures Dividend(bits) == Xored(bits + Zeros(32), Ones(32) + Zeros(|bits|))
  {}

  lemma ZeroRegister()
    ensures Coefficients(0) == Zeros(32)
  {
    forall i: nat | i < 32 ensures !BitAt(0, i) {
      ZeroHasNoBits(i);
    }
  }
}
