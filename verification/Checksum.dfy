/** The checksum of `apps/dashboard/tools/png.ts`: a 256-entry table built by two nested loops, and a
    byte-at-a-time loop over it. `Crc` is the bit-at-a-time register of section 3.4 of RFC 2083, and
    `Crc32`, the loop, is proved to compute it. What the value means is in `ChecksumTheory`. */
module Checksum {
  import opened Fold

  type Octet = bv8

  const POLYNOMIAL: bv32 := 0xEDB8_8320
  const SEED: bv32 := 0xFFFF_FFFF
  const BYTE_VALUES := 256
  const BITS_PER_BYTE := 8

  /** The coefficient of x^0 in a register, whose lowest bit is the coefficient of x^31. */
  const TOP: bv32 := 0x8000_0000

  // ---------------------------------------------------------------- the register

  /** The inner statement of the table loop: multiply by x, and reduce if a bit fell out. */
  function Shift(v: bv32): bv32 {
    if v & 1 == 1 then Plus(POLYNOMIAL, Half(v)) else Half(v)
  }

  function Half(v: bv32): bv32 {
    v >> 1
  }

  function Plus(a: bv32, b: bv32): bv32 {
    a ^ b
  }

  function Bit(b: bool): bv32 {
    if b then 1 else 0
  }

  /** One message bit entering the register. */
  function FeedBit(c: bv32, b: bool): bv32 {
    Shift(Plus(c, Bit(b)))
  }

  /** A byte's bits in the order RFC 2083 processes them: least significant first. */
  function BitsOf(b: Octet): (bits: seq<bool>)
    ensures |bits| == 8
  {
    [b & 1 != 0, b & 2 != 0, b & 4 != 0, b & 8 != 0,
     b & 16 != 0, b & 32 != 0, b & 64 != 0, b & 128 != 0]
  }

  function MessageBits(bytes: seq<Octet>): (bits: seq<bool>)
    ensures |bits| == 8 * |bytes|
  {
    if bytes == [] then [] else BitsOf(bytes[0]) + MessageBits(bytes[1..])
  }

  /** The register after every bit of a message. */
  function Feed(c: bv32, bytes: seq<Octet>): bv32 {
    Run(FeedBit, c, MessageBits(bytes))
  }

  /** RFC 2083, section 3.4: all ones, every bit of every byte, one's complement. */
  function Crc(bytes: seq<Octet>): bv32 {
    Feed(SEED, bytes) ^ SEED
  }

  // ---------------------------------------------------------------- the algebra of one step

  lemma PlusHalves(a: bv32, b: bv32)
    ensures Half(Plus(a, b)) == Plus(Half(a), Half(b))
  {}

  lemma PlusLowBit(a: bv32, b: bv32)
    ensures Plus(a, b) & 1 == 1 <==> (a & 1 == 1) != (b & 1 == 1)
  {}

  lemma PlusAssoc(x: bv32, y: bv32, z: bv32)
    ensures Plus(Plus(x, y), z) == Plus(x, Plus(y, z))
  {}

  lemma PlusCommutes(x: bv32, y: bv32)
    ensures Plus(x, y) == Plus(y, x)
  {}

  lemma PlusInterchange(a: bv32, b: bv32, c: bv32, d: bv32)
    ensures Plus(Plus(a, b), Plus(c, d)) == Plus(Plus(a, c), Plus(b, d))
  {
    hide Plus;
    PlusAssoc(a, b, Plus(c, d));
    PlusAssoc(b, c, d);
    PlusCommutes(b, c);
    PlusAssoc(c, b, d);
    PlusAssoc(a, c, Plus(b, d));
  }

  lemma PlusWithItself(x: bv32)
    ensures Plus(x, x) == 0 && Plus(0, x) == x
  {}

  lemma PlusCancels(p: bv32, x: bv32, y: bv32)
    ensures Plus(Plus(p, x), Plus(p, y)) == Plus(x, y)
  {
    hide Plus;
    PlusInterchange(p, x, p, y);
    PlusWithItself(p);
    PlusWithItself(Plus(x, y));
  }

  lemma PlusUndone(c: bv32, d: bv32, x: bv32)
    requires Plus(c, x) == Plus(d, x)
    ensures c == d
  {
    assert (c ^ x) ^ x == c;
    assert (d ^ x) ^ x == d;
  }

  /** The bit step is linear over xor: the fact every result below rests on. */
  lemma ShiftIsLinear(a: bv32, b: bv32)
    ensures Shift(Plus(a, b)) == Plus(Shift(a), Shift(b))
  {
    hide Plus, Half;
    PlusHalves(a, b);
    PlusLowBit(a, b);
    var x, y := Half(a), Half(b);
    if a & 1 == 1 && b & 1 == 1 {
      PlusCancels(POLYNOMIAL, x, y);
    } else if a & 1 == 1 {
      PlusAssoc(POLYNOMIAL, x, y);
    } else if b & 1 == 1 {
      PlusAssoc(x, POLYNOMIAL, y);
      PlusCommutes(x, POLYNOMIAL);
      PlusAssoc(POLYNOMIAL, x, y);
    }
  }

  lemma ShiftIsAdditive()
    ensures Additive(Shift, Plus)
  {
    forall x, y ensures Shift(Plus(x, y)) == Plus(Shift(x), Shift(y)) {
      ShiftIsLinear(x, y);
    }
  }

  /** The polynomial has its x^0 term, so a step can be undone. */
  lemma ShiftIsInjective()
    ensures Injective(Shift)
  {
    forall x, y | Shift(x) == Shift(y) ensures x == y {
      ShiftUndone(x, y);
    }
  }

  lemma ShiftUndone(x: bv32, y: bv32)
    requires Shift(x) == Shift(y)
    ensures x == y
  {}

  lemma FeedBitIsInjectiveInState()
    ensures InjectiveInState(FeedBit)
  {
    hide FeedBit;
    forall x, y, a | FeedBit(x, a) == FeedBit(y, a) ensures x == y {
      FeedBitUndone(x, y, a);
    }
  }

  lemma FeedBitUndone(x: bv32, y: bv32, a: bool)
    requires FeedBit(x, a) == FeedBit(y, a)
    ensures x == y
  {
    hide Shift, Plus, Bit;
    ShiftUndone(Plus(x, Bit(a)), Plus(y, Bit(a)));
    PlusUndone(x, y, Bit(a));
  }

  lemma BitsXor(a: bool, b: bool)
    ensures Bit(a != b) == Plus(Bit(a), Bit(b))
  {}

  lemma FeedBitSuperposes()
    ensures Superposes(FeedBit, Plus)
  {
    hide FeedBit, Plus;
    forall x, y, a, b ensures FeedBit(Plus(x, y), a != b) == Plus(FeedBit(x, a), FeedBit(y, b)) {
      FeedBitsAdd(x, y, a, b);
    }
  }

  lemma FeedBitsAdd(x: bv32, y: bv32, a: bool, b: bool)
    ensures FeedBit(Plus(x, y), a != b) == Plus(FeedBit(x, a), FeedBit(y, b))
  {
    hide Shift, Bit, Plus;
    BitsXor(a, b);
    PlusInterchange(x, y, Bit(a), Bit(b));
    ShiftIsLinear(Plus(x, Bit(a)), Plus(y, Bit(b)));
  }

  // ---------------------------------------------------------------- up to 32 bits at once

  function Double(x: bv32): bv32 {
    x << 1
  }

  /** At most 32 message bits as one register value, first bit lowest. */
  function Pack(bits: seq<bool>): bv32 {
    if bits == [] then 0 else Plus(Bit(bits[0]), Double(Pack(bits[1..])))
  }

  /** The bits of a register at or above position `k`. */
  function Above(k: nat): bv32 {
    if k == 0 then SEED else Double(Above(k - 1))
  }

  lemma FourDoubles(v: bv32)
    ensures Double(Double(Double(Double(v)))) == v << 4
  {}

  lemma FourAbove(k: nat)
    ensures Above(k + 4) == Above(k) << 4
  {
    FourDoubles(Above(k));
    hide Double;
    assert Above(k + 2) == Double(Double(Above(k)));
    assert Above(k + 4) == Double(Double(Above(k + 2)));
  }

  lemma AboveEnds()
    ensures Above(31) == TOP && Above(32) == 0
  {
    FourAbove(0);
    FourAbove(4);
    FourAbove(8);
    FourAbove(12);
    FourAbove(16);
    FourAbove(20);
    FourAbove(24);
    FourAbove(28);
    assert Above(28) == 0xf000_0000;
    assert Above(29) == Double(Above(28)) && Above(30) == Double(Above(29));
  }

  lemma DoubleStaysWithin(x: bv32)
    requires Double(x) & x == Double(x)
    ensures Double(Double(x)) & Double(x) == Double(Double(x))
  {}

  lemma {:induction false} AboveNests(k: nat)
    ensures Above(k + 1) & Above(k) == Above(k + 1)
  {
    if k > 0 {
      AboveNests(k - 1);
      DoubleStaysWithin(Above(k - 1));
    }
  }

  lemma WithinHasTop(x: bv32, y: bv32)
    requires y & x == y && y & TOP == TOP
    ensures x & TOP == TOP
  {}

  lemma {:induction false} AboveHasTop(k: nat)
    requires k <= 31
    ensures Above(k) & TOP == TOP
    decreases 31 - k
  {
    hide Above;
    if k == 31 {
      AboveEnds();
    } else {
      AboveHasTop(k + 1);
      AboveNests(k);
      WithinHasTop(Above(k), Above(k + 1));
    }
  }

  lemma DoubledFits(b: bool, x: bv32, z: bv32)
    requires x & z == 0
    ensures Plus(Bit(b), Double(x)) & Double(z) == 0
  {}

  lemma {:induction false} PackFits(bits: seq<bool>)
    requires |bits| <= 31
    ensures Pack(bits) & Above(|bits|) == 0
  {
    hide Plus, Double, Bit;
    if bits != [] {
      PackFits(bits[1..]);
      DoubledFits(bits[0], Pack(bits[1..]), Above(|bits| - 1));
    }
  }

  lemma FitsClearsTop(x: bv32, z: bv32)
    requires x & z == 0 && z & TOP == TOP
    ensures x & TOP == 0
  {}

  lemma DoubledHalves(b: bool, x: bv32)
    requires x & TOP == 0
    ensures Plus(Bit(b), Double(x)) >> 1 == x
    ensures Plus(Bit(b), Double(x)) & 1 == Bit(b)
  {}

  lemma DoubledShifts(x: bv32)
    requires x & TOP == 0
    ensures Shift(Double(x)) == x
  {}

  lemma PackShifts(bits: seq<bool>)
    requires |bits| < 32
    ensures Pack(bits) & TOP == 0
    ensures Shift(Double(Pack(bits))) == Pack(bits)
  {
    hide Pack, Above, Double, Shift;
    PackFits(bits);
    AboveHasTop(|bits|);
    FitsClearsTop(Pack(bits), Above(|bits|));
    DoubledShifts(Pack(bits));
  }

  lemma PlusIsAssociative()
    ensures Associative(Plus) && RightUnit(Plus, 0)
  {
    forall x, y, z ensures Plus(Plus(x, y), z) == Plus(x, Plus(y, z)) {
      PlusAssoc(x, y, z);
    }
  }

  lemma FeedBitShifts()
    ensures AddsThenShifts(FeedBit, Shift, Plus, Bit)
  {
    hide Shift, Plus, Bit;
  }

  lemma PackPacks()
    ensures PacksBits(Pack, Plus, Bit, Double) && Pack([]) == 0
    ensures HalvesPacked(Pack, Shift, Double, 32)
  {
    hide Shift, Plus, Bit, Double;
    forall w: seq<bool> | |w| < 32 ensures Shift(Double(Pack(w))) == Pack(w) {
      PackShifts(w);
    }
  }

  /** Feeding up to 32 bits one at a time is adding them in together and shifting once for each. */
  lemma FeedPacked(c: bv32, bits: seq<bool>)
    requires |bits| <= 32
    ensures Run(FeedBit, c, bits) == Iterate(Shift, Plus(c, Pack(bits)), |bits|)
  {
    hide *;
    ShiftIsAdditive();
    PlusIsAssociative();
    FeedBitShifts();
    PackPacks();
    RunPacked(FeedBit, Shift, Plus, Bit, Double, Pack, 32, c, bits);
  }

  lemma HeadsAgree(b: bool, d: bool, x: bv32, y: bv32)
    requires Plus(Bit(b), Double(x)) == Plus(Bit(d), Double(y))
    requires x & TOP == 0 && y & TOP == 0
    ensures b == d && x == y
  {
    DoubledHalves(b, x);
    DoubledHalves(d, y);
  }

  lemma {:induction false} PackIsInjective(xs: seq<bool>, ys: seq<bool>)
    requires |xs| == |ys| <= 32
    requires Pack(xs) == Pack(ys)
    ensures xs == ys
  {
    hide Plus, Double, Bit, Shift;
    if xs != [] {
      PackShifts(xs[1..]);
      PackShifts(ys[1..]);
      HeadsAgree(xs[0], ys[0], Pack(xs[1..]), Pack(ys[1..]));
      PackIsInjective(xs[1..], ys[1..]);
      assert xs == [xs[0]] + xs[1..] && ys == [ys[0]] + ys[1..];
    }
  }

  // ---------------------------------------------------------------- the table

  /** What the inner loop leaves in one table slot. */
  function TableEntry(index: bv32): bv32 {
    Iterate(Shift, index, BITS_PER_BYTE)
  }

  function SlotSeed(index: nat): bv32
    requires index < BYTE_VALUES
  {
    index as bv32
  }

  function SlotEntry(index: nat): bv32
    requires index < BYTE_VALUES
  {
    TableEntry(SlotSeed(index))
  }

  lemma ShiftIs(v: bv32)
    ensures Shift(v) == if v & 1 == 1 then Plus(POLYNOMIAL, Half(v)) else Half(v)
  {}

  lemma SeedOfIndex(x: bv32)
    requires x <= 0xff
    ensures (x as int) < BYTE_VALUES && SlotSeed(x as int) == x
  {}

  ghost predicate IsTable(table: array<bv32>)
    reads table
  {
    table.Length == BYTE_VALUES &&
    forall k: nat :: k < BYTE_VALUES ==> table[k] == SlotEntry(k)
  }

  /** The module-level table: each index shifted eight times. */
  method BuildTable() returns (table: array<bv32>)
    ensures fresh(table) && IsTable(table)
  {
    hide Plus, Half, Shift, Iterate, SlotEntry, SlotSeed;
    table := new bv32[BYTE_VALUES];
    for index := 0 to BYTE_VALUES
      invariant forall k: nat :: k < index ==> table[k] == SlotEntry(k)
    {
      var value := SlotSeed(index);
      SlotIs(index);
      for bit := 0 to BITS_PER_BYTE
        invariant forall k: nat :: k < index ==> table[k] == SlotEntry(k)
        invariant SlotEntry(index) == Iterate(Shift, value, BITS_PER_BYTE - bit)
      {
        OneShift(value, BITS_PER_BYTE - bit);
        value := if value & 1 == 1 then Plus(POLYNOMIAL, Half(value)) else Half(value);
      }
      NoShift(value);
      table[index] := value;
    }
  }

  lemma SlotIs(index: nat)
    requires index < BYTE_VALUES
    ensures SlotEntry(index) == Iterate(Shift, SlotSeed(index), BITS_PER_BYTE)
  {}

  lemma OneShift(v: bv32, n: nat)
    requires n > 0
    ensures Iterate(Shift, v, n)
         == Iterate(Shift, if v & 1 == 1 then Plus(POLYNOMIAL, Half(v)) else Half(v), n - 1)
  {
    ShiftIs(v);
    hide Shift, Plus, Half;
  }

  lemma NoShift(v: bv32)
    ensures Iterate(Shift, v, 0) == v
  {}

  lemma PackIsByte(b: Octet)
    ensures Pack(BitsOf(b)) == Widen(b)
  {
    var s := BitsOf(b);
    PackEight(s);
    BitsAssemble(b);
  }

  lemma PackEight(s: seq<bool>)
    requires |s| == 8
    ensures Pack(s) == Under(s[0], Under(s[1], Under(s[2], Under(s[3], Under(s[4], Under(s[5],
                         Under(s[6], Under(s[7], 0))))))))
  {
    hide Plus, Double, Bit;
    assert Pack(s[7..]) == Under(s[7], 0);
    assert Pack(s[6..]) == Under(s[6], Pack(s[7..])) by { assert s[6..][1..] == s[7..]; }
    assert Pack(s[5..]) == Under(s[5], Pack(s[6..])) by { assert s[5..][1..] == s[6..]; }
    assert Pack(s[4..]) == Under(s[4], Pack(s[5..])) by { assert s[4..][1..] == s[5..]; }
    assert Pack(s[3..]) == Under(s[3], Pack(s[4..])) by { assert s[3..][1..] == s[4..]; }
    assert Pack(s[2..]) == Under(s[2], Pack(s[3..])) by { assert s[2..][1..] == s[3..]; }
    assert Pack(s[1..]) == Under(s[1], Pack(s[2..])) by { assert s[1..][1..] == s[2..]; }
  }

  function Under(b: bool, x: bv32): bv32 {
    Plus(Bit(b), Double(x))
  }

  lemma BitsAssemble(b: Octet)
    ensures var s := BitsOf(b);
            Under(s[0], Under(s[1], Under(s[2], Under(s[3], Under(s[4], Under(s[5], Under(s[6],
              Under(s[7], 0)))))))) == Widen(b)
  {
    HighNibble(b);
    LowNibble(b);
    hide Under, Widen;
  }

  lemma HighNibble(b: Octet)
    ensures var s := BitsOf(b);
            Under(s[4], Under(s[5], Under(s[6], Under(s[7], 0)))) == Widen(b >> 4)
  {}

  lemma LowNibble(b: Octet)
    ensures var s := BitsOf(b);
            Under(s[0], Under(s[1], Under(s[2], Under(s[3], Widen(b >> 4))))) == Widen(b)
  {}

  function LowByte(x: bv32): (low: bv32)
    ensures low <= 0xff
  {
    x & 0xff
  }

  function HighBytes(x: bv32): bv32 {
    x & 0xffff_ff00
  }

  function DropByte(x: bv32): bv32 {
    x >> 8
  }

  function Widen(b: Octet): bv32 {
    b as bv32
  }

  /** The loop body of `crc32`. */
  function Update(crc: bv32, b: Octet): bv32 {
    Plus(TableEntry(LowByte(Plus(crc, Widen(b)))), DropByte(crc))
  }

  /** The lowest `n` bits are clear. */
  predicate LowClear(v: bv32, n: nat)
    decreases n
  {
    n == 0 || (v & 1 == 0 && LowClear(Half(v), n - 1))
  }

  /** Bits that never reach the low end are only moved. */
  lemma {:induction false} ClearBitsMove(v: bv32, n: nat)
    requires LowClear(v, n)
    ensures Iterate(Shift, v, n) == Iterate(Half, v, n)
    decreases n
  {
    hide Half;
    if n > 0 {
      ClearBitsMove(Half(v), n - 1);
    }
  }

  function DropNibble(v: bv32): bv32 {
    v >> 4
  }

  predicate NibbleClear(v: bv32) {
    v & 0xf == 0
  }

  lemma ClearNibble(v: bv32)
    requires NibbleClear(v)
    ensures v & 1 == 0 && Half(v) & 1 == 0 && Half(Half(v)) & 1 == 0 && Half(Half(Half(v))) & 1 == 0
    ensures Half(Half(Half(Half(v)))) == DropNibble(v)
  {}

  lemma NibbleMoves(v: bv32)
    requires NibbleClear(v)
    ensures Iterate(Shift, v, 4) == DropNibble(v)
  {
    ClearNibble(v);
    hide Half, DropNibble, NibbleClear, Shift;
    FourClear(v);
    ClearBitsMove(v, 4);
    FourTimes(v);
  }

  lemma FourClear(v: bv32)
    requires v & 1 == 0 && Half(v) & 1 == 0 && Half(Half(v)) & 1 == 0 && Half(Half(Half(v))) & 1 == 0
    ensures LowClear(v, 4)
  {
    hide Half;
    assert LowClear(Half(Half(v)), 2);
  }

  lemma FourTimes(v: bv32)
    ensures Iterate(Half, v, 4) == Half(Half(Half(Half(v))))
  {
    hide Half;
    assert Iterate(Half, Half(Half(v)), 2) == Half(Half(Half(Half(v))));
  }

  lemma TwoNibbles(x: bv32)
    ensures NibbleClear(HighBytes(x)) && NibbleClear(DropNibble(HighBytes(x)))
    ensures DropNibble(DropNibble(HighBytes(x))) == DropByte(x)
  {}

  lemma HighBitsMove(x: bv32)
    ensures Iterate(Shift, HighBytes(x), 8) == DropByte(x)
  {
    hide *;
    var y := HighBytes(x);
    TwoNibbles(x);
    NibbleMoves(y);
    NibbleMoves(DropNibble(y));
    IterateAppends(Shift, y, 4, 4);
  }

  lemma SplitLowByte(x: bv32)
    ensures Plus(LowByte(x), HighBytes(x)) == x
  {}

  lemma ByteLeavesHighBits(crc: bv32, b: Octet)
    ensures DropByte(Plus(crc, Widen(b))) == DropByte(crc)
  {}

  /** One table step is eight bit steps. */
  lemma UpdateIsEightBits(crc: bv32, b: Octet)
    ensures Update(crc, b) == Run(FeedBit, crc, BitsOf(b))
  {
    hide Shift, FeedBit, Pack, Plus, LowByte, HighBytes, DropByte, BitsOf;
    var x := Plus(crc, Widen(b));
    FeedPacked(crc, BitsOf(b));
    PackIsByte(b);
    SplitLowByte(x);
    ShiftIsAdditive();
    IterateAdditive(Shift, Plus, LowByte(x), HighBytes(x), 8);
    HighBitsMove(x);
    ByteLeavesHighBits(crc, b);
  }

  lemma FeedUpdates(c: bv32, bytes: seq<Octet>, i: nat)
    requires i < |bytes|
    ensures Feed(c, bytes[i..]) == Feed(Update(c, bytes[i]), bytes[i + 1..])
  {
    hide FeedBit, BitsOf, Update;
    UpdateIsEightBits(c, bytes[i]);
    assert bytes[i..][1..] == bytes[i + 1..];
    RunAppends(FeedBit, c, BitsOf(bytes[i]), MessageBits(bytes[i + 1..]));
  }

  /** `crc32`: the table-driven loop computes the register of RFC 2083, section 3.4. */
  method Crc32(table: array<bv32>, bytes: seq<Octet>) returns (r: bv32)
    requires IsTable(table)
    ensures r == Crc(bytes)
  {
    hide Feed, TableEntry, Plus, Widen, DropByte, LowByte, SlotSeed;
    var crc := SEED;
    for i := 0 to |bytes|
      invariant Feed(SEED, bytes) == Feed(crc, bytes[i..])
    {
      FeedUpdates(crc, bytes, i);
      var index := LowByte(Plus(crc, Widen(bytes[i])));
      SeedOfIndex(index);
      crc := Plus(table[index as int], DropByte(crc));
    }
    assert bytes[|bytes|..] == [];
    FeedNothing(crc);
    r := crc ^ SEED;
  }

  lemma FeedNothing(c: bv32)
    ensures Feed(c, []) == c
  {}
}
