/** A PNG reader written from RFC 2083, sections 2.3, 3.2, 3.4, 4.1 and 6.2, and what it makes of the
    files `Png` writes. It shares no framing with the writer: it cuts chunks, checks each checksum,
    inflates and strips filter bytes. Inflate is a parameter. */
module PngReader {
  import opened Options
  import opened Checksum
  import opened ChecksumTheory
  import opened Png

  datatype RawChunk = RawChunk(name: seq<Octet>, payload: seq<Octet>)

  datatype Image = Image(width: nat, height: nat, pixels: seq<Octet>)

  function ReadBe32(s: seq<Octet>): (n: nat)
    requires |s| == 4
    ensures n < U32
  {
    Value(s[0]) * 0x100_0000 + Value(s[1]) * 0x1_0000 + Value(s[2]) * 0x100 + Value(s[3])
  }

  function ReadWord(s: seq<Octet>): bv32
    requires |s| == 4
  {
    (s[0] as bv32 << 24) | (s[1] as bv32 << 16) | (s[2] as bv32 << 8) | (s[3] as bv32)
  }

  /** One chunk off the front (section 3.2), or nothing when it is cut short or its checksum
      (section 3.4) does not match. */
  function ParseChunk(bytes: seq<Octet>): (r: Option<(RawChunk, seq<Octet>)>)
    ensures r.Some? ==> |r.value.1| < |bytes|
  {
    if |bytes| < 12 then None
    else
      var end := 8 + ReadBe32(bytes[..4]);
      if |bytes| < end + 4 then None
      else
        var body := bytes[4..end];
        if ReadWord(bytes[end..end + 4]) != Crc(body) then None
        else Some((RawChunk(body[..4], body[4..]), bytes[end + 4..]))
  }

  /** Every chunk, with nothing left over. */
  function ParseChunks(bytes: seq<Octet>): Option<seq<RawChunk>>
    decreases |bytes|
  {
    if bytes == [] then Some([])
    else
      match ParseChunk(bytes)
      case None => None
      case Some((chunk, rest)) =>
        match ParseChunks(rest)
        case None => None
        case Some(chunks) => Some([chunk] + chunks)
  }

  /** The payloads of a run of IDAT chunks (section 4.1.3), or nothing if another kind is among them. */
  function ImageData(chunks: seq<RawChunk>): Option<seq<Octet>> {
    if chunks == [] then Some([])
    else if chunks[0].name != [0x49, 0x44, 0x41, 0x54] then None
    else
      match ImageData(chunks[1..])
      case None => None
      case Some(rest) => Some(chunks[0].payload + rest)
  }

  /** The rows without their filter bytes (section 6.2: type 0 leaves a row as it is). */
  function StripFilters(stride: nat, height: nat, raw: seq<Octet>): (r: Option<seq<Octet>>) {
    if |raw| != (stride + 1) * height then None
    else if height == 0 then Some([])
    else
      RowBounds(stride, height);
      var last := raw[(stride + 1) * (height - 1)..];
      if last[0] != 0 then None
      else
        match StripFilters(stride, height - 1, raw[..(stride + 1) * (height - 1)])
        case None => None
        case Some(rows) => Some(rows + last[1..])
  }

  /** Filtered rows under the sides a header announced. */
  function Framed(width: nat, height: nat, raw: seq<Octet>): Option<Image> {
    match StripFilters(width * 4, height, raw)
    case None => None
    case Some(pixels) => Some(Image(width, height, pixels))
  }

  /** Header first, image data between, end last (sections 4.1.1 to 4.1.4). */
  function Assemble(chunks: seq<RawChunk>, inflate: seq<Octet> -> Option<seq<Octet>>): Option<Image> {
    if |chunks| < 2 then None
    else
      var head, last := chunks[0], chunks[|chunks| - 1];
      if head.name != [0x49, 0x48, 0x44, 0x52] || |head.payload| != 13 then None
      else if head.payload[8..] != [8, 6, 0, 0, 0] then None
      else if last != RawChunk([0x49, 0x45, 0x4E, 0x44], []) then None
      else
        match ImageData(chunks[1..|chunks| - 1])
        case None => None
        case Some(data) =>
          match inflate(data)
          case None => None
          case Some(raw) =>
            Framed(ReadBe32(head.payload[..4]), ReadBe32(head.payload[4..8]), raw)
  }

  function Decode(file: seq<Octet>, inflate: seq<Octet> -> Option<seq<Octet>>): Option<Image> {
    if |file| < 8 || file[..8] != [0x89, 0x50, 0x4E, 0x47, 0x0D, 0x0A, 0x1A, 0x0A] then None
    else
      match ParseChunks(file[8..])
      case None => None
      case Some(chunks) => Assemble(chunks, inflate)
  }

  // ---------------------------------------------------------------- reading back what was written

  lemma ReadsBack(n: nat)
    ensures ReadBe32(Be32(n)) == Wrapped(n)
  {
    hide Value, Byte;
    FourDigits(n);
  }

  lemma FourDigits(n: nat)
    ensures n / 0x100_0000 % 0x100 * 0x100_0000 + n / 0x1_0000 % 0x100 * 0x1_0000
              + n / 0x100 % 0x100 * 0x100 + n % 0x100 == Wrapped(n)
  {
    LowDigit(n);
    SecondDigit(n);
    ThirdDigit(n);
  }

  lemma LowDigit(n: nat)
    ensures n / 0x100 == 0x100 * (n / 0x1_0000) + n / 0x100 % 0x100
  {}

  lemma SecondDigit(n: nat)
    ensures n / 0x1_0000 == 0x100 * (n / 0x100_0000) + n / 0x1_0000 % 0x100
  {}

  lemma ThirdDigit(n: nat)
    ensures n / 0x100_0000 == 0x100 * (n / U32) + n / 0x100_0000 % 0x100
  {}

  lemma WordReadsBack(w: bv32)
    ensures ReadWord(WordBytes(w)) == w
  {}

  /** A chunk is read off the front of whatever follows it. */
  lemma ChunkReadsBack(name: string, payload: seq<Octet>, rest: seq<Octet>)
    requires |name| == TYPE_BYTES && |payload| < U32
    ensures ParseChunk(ChunkBytes(name, payload) + rest) == Some((RawChunk(TypeBytes(name), payload), rest))
  {
    hide Be32, ReadBe32, TypeBytes, Crc, ReadWord, WordBytes;
    var bytes := ChunkBytes(name, payload) + rest;
    var body := TypeBytes(name) + payload;
    ReadsBack(|payload|);
    WordReadsBack(Crc(body));
    assert bytes[..4] == Be32(|payload|);
    assert bytes[4..8 + |payload|] == body;
    assert bytes[8 + |payload|..12 + |payload|] == CrcField(body);
    assert bytes[12 + |payload|..] == rest;
    assert body[..4] == TypeBytes(name) && body[4..] == payload;
  }

  lemma OneMoreChunk(bytes: seq<Octet>, chunk: RawChunk, rest: seq<Octet>, chunks: seq<RawChunk>)
    requires ParseChunk(bytes) == Some((chunk, rest)) && ParseChunks(rest) == Some(chunks)
    ensures ParseChunks(bytes) == Some([chunk] + chunks)
  {
    hide ParseChunk;
    assert bytes != [];
  }

  lemma FileReadsBack(width: nat, height: nat, data: seq<Octet>)
    requires |data| < U32
    ensures PngBytes(width, height, data)[..8] == SIGNATURE
    ensures ParseChunks(PngBytes(width, height, data)[8..])
         == Some([RawChunk(TypeBytes("IHDR"), HeaderBytes(width, height)), RawChunk(TypeBytes("IDAT"), data),
                  RawChunk(TypeBytes("IEND"), [])])
  {
    hide ChunkBytes, TypeBytes, HeaderBytes, ParseChunk;
    var ihdr := ChunkBytes("IHDR", HeaderBytes(width, height));
    var idat := ChunkBytes("IDAT", data);
    var iend := ChunkBytes("IEND", []);
    ChunkReadsBack("IEND", [], []);
    assert iend + [] == iend;
    ChunkReadsBack("IDAT", data, iend);
    ChunkReadsBack("IHDR", HeaderBytes(width, height), idat + iend);
    assert PngBytes(width, height, data)[8..] == ihdr + (idat + iend);
    var head := RawChunk(TypeBytes("IHDR"), HeaderBytes(width, height));
    var image, last := RawChunk(TypeBytes("IDAT"), data), RawChunk(TypeBytes("IEND"), []);
    assert ParseChunks([]) == Some([]);
    assert ParseChunks(iend) == Some([last] + []);
    assert [last] + [] == [last];
    OneMoreChunk(idat + iend, image, iend, [last]);
    OneMoreChunk(ihdr + (idat + iend), head, idat + iend, [image] + [last]);
    assert [head] + ([image] + [last]) == [head, image, last];
  }

  lemma {:induction false} StripUndoesFilter(stride: nat, height: nat, pixels: seq<Octet>)
    requires |pixels| == stride * height
    ensures StripFilters(stride, height, FilteredRows(stride, height, pixels)) == Some(pixels)
  {
    if height > 0 {
      RowBounds(stride, height);
      var split := stride * (height - 1);
      var raw := FilteredRows(stride, height, pixels);
      var above := FilteredRows(stride, height - 1, pixels[..split]);
      assert raw[..(stride + 1) * (height - 1)] == above;
      assert raw[(stride + 1) * (height - 1)..] == [0] + pixels[split..];
      StripUndoesFilter(stride, height - 1, pixels[..split]);
      assert pixels == pixels[..split] + pixels[split..];
    }
  }

  lemma HeaderReadsBack(width: nat, height: nat)
    ensures ReadBe32(HeaderBytes(width, height)[..4]) == Wrapped(width)
    ensures ReadBe32(HeaderBytes(width, height)[4..8]) == Wrapped(height)
    ensures HeaderBytes(width, height)[8..] == [8, 6, 0, 0, 0]
  {
    hide Be32, ReadBe32, Byte;
    ReadsBack(width);
    ReadsBack(height);
    assert HeaderBytes(width, height)[..4] == Be32(width);
    assert HeaderBytes(width, height)[4..8] == Be32(height);
  }

  /** What the reader makes of a written file whose pixel data it can inflate. */
  lemma DecodeOfFile(width: nat, height: nat, data: seq<Octet>, raw: seq<Octet>,
                     inflate: seq<Octet> -> Option<seq<Octet>>)
    requires |data| < U32
    requires inflate(data) == Some(raw)
    ensures Decode(PngBytes(width, height, data), inflate) == Framed(Wrapped(width), Wrapped(height), raw)
  {
    hide PngBytes, ParseChunks, TypeBytes, HeaderBytes, ReadBe32, Framed;
    FileReadsBack(width, height, data);
    HeaderReadsBack(width, height);
    ChunkNames();
    var idat := RawChunk(TypeBytes("IDAT"), data);
    assert ImageData([idat][1..]) == Some([]);
    assert ImageData([idat]) == Some(data + []);
    assert data + [] == data;
    var chunks := [RawChunk(TypeBytes("IHDR"), HeaderBytes(width, height)), idat, RawChunk(TypeBytes("IEND"), [])];
    assert chunks[1..2] == [idat];
    assert |PngBytes(width, height, data)| >= 8 by { FileIsLongEnough(width, height, data); }
  }

  lemma FileIsLongEnough(width: nat, height: nat, data: seq<Octet>)
    ensures |PngBytes(width, height, data)| >= 8
  {}

  function Sum(c: Octet): (n: nat)
    ensures n < 256
  {
    OneFor(c & 1 != 0) + 2 * OneFor(c & 2 != 0) + 4 * OneFor(c & 4 != 0) + 8 * OneFor(c & 8 != 0)
      + 16 * OneFor(c & 16 != 0) + 32 * OneFor(c & 32 != 0) + 64 * OneFor(c & 64 != 0) + 128 * OneFor(c & 128 != 0)
  }

  lemma {:induction false} WeighTellsApart(a: seq<bool>, b: seq<bool>)
    requires |a| == |b| && Weigh(a) == Weigh(b)
    ensures a == b
  {
    if a != [] {
      WeighTellsApart(a[1..], b[1..]);
      assert a == [a[0]] + a[1..] && b == [b[0]] + b[1..];
    }
  }

  function OneFor(b: bool): nat {
    if b then 1 else 0
  }

  lemma WeighTwo(a: bool, b: bool, rest: seq<bool>)
    ensures Weigh([a, b] + rest) == OneFor(a) + 2 * OneFor(b) + 4 * Weigh(rest)
  {
    assert ([a, b] + rest)[1..] == [b] + rest && ([b] + rest)[1..] == rest;
  }

  lemma WeighEight(a: bool, b: bool, c: bool, d: bool, e: bool, f: bool, g: bool, h: bool)
    ensures Weigh([a, b] + ([c, d] + ([e, f] + ([g, h] + []))))
         == OneFor(a) + 2 * OneFor(b) + 4 * OneFor(c) + 8 * OneFor(d)
            + 16 * OneFor(e) + 32 * OneFor(f) + 64 * OneFor(g) + 128 * OneFor(h)
  {
    WeighNothing();
    hide *;
    WeighTwo(a, b, [c, d] + ([e, f] + ([g, h] + [])));
    WeighTwo(c, d, [e, f] + ([g, h] + []));
    WeighTwo(e, f, [g, h] + []);
    WeighTwo(g, h, []);
  }

  lemma Paired(s: seq<bool>)
    requires |s| == 8
    ensures s == [s[0], s[1]] + ([s[2], s[3]] + ([s[4], s[5]] + ([s[6], s[7]] + [])))
  {}

  lemma SumIsValue(c: Octet)
    ensures Value(c) == Sum(c)
  {
    var s := BitsOf(c);
    Paired(s);
    hide Weigh, OneFor;
    WeighEight(s[0], s[1], s[2], s[3], s[4], s[5], s[6], s[7]);
  }

  lemma WeighNothing()
    ensures Weigh([]) == 0
  {}

  lemma BitsTellApart(a: Octet, b: Octet)
    requires BitsOf(a) == BitsOf(b)
    ensures a == b
  {
    assert FromBits(BitsOf(a)) == a && FromBits(BitsOf(b)) == b;
  }

  /** The byte of a number is the one whose bits add up to it. */
  lemma ByteIs(c: Octet)
    ensures Byte(Sum(c)) == c
  {
    SumIsValue(c);
    hide Sum, BitsOf, Weigh, Byte;
    var b := Byte(Sum(c));
    assert Value(b) == Value(c);
    WeighTellsApart(BitsOf(b), BitsOf(c));
    BitsTellApart(b, c);
  }

  lemma LetterI()
    ensures Byte('I' as int) == 0x49
  {
    hide Byte;
    ByteIs(0x49);
  }

  lemma LetterH()
    ensures Byte('H' as int) == 0x48
  {
    hide Byte;
    ByteIs(0x48);
  }

  lemma LetterD()
    ensures Byte('D' as int) == 0x44
  {
    hide Byte;
    ByteIs(0x44);
  }

  lemma LetterR()
    ensures Byte('R' as int) == 0x52
  {
    hide Byte;
    ByteIs(0x52);
  }

  lemma LetterA()
    ensures Byte('A' as int) == 0x41
  {
    hide Byte;
    ByteIs(0x41);
  }

  lemma LetterT()
    ensures Byte('T' as int) == 0x54
  {
    hide Byte;
    ByteIs(0x54);
  }

  lemma LetterE()
    ensures Byte('E' as int) == 0x45
  {
    hide Byte;
    ByteIs(0x45);
  }

  lemma LetterN()
    ensures Byte('N' as int) == 0x4E
  {
    hide Byte;
    ByteIs(0x4E);
  }

  lemma NameBytes(name: string, a: Octet, b: Octet, c: Octet, d: Octet)
    requires |name| == 4
    requires Byte(name[0] as int) == a && Byte(name[1] as int) == b
    requires Byte(name[2] as int) == c && Byte(name[3] as int) == d
    ensures TypeBytes(name) == [a, b, c, d]
  {
    hide Byte;
  }

  lemma ChunkNames()
    ensures TypeBytes("IHDR") == [0x49, 0x48, 0x44, 0x52]
    ensures TypeBytes("IDAT") == [0x49, 0x44, 0x41, 0x54]
    ensures TypeBytes("IEND") == [0x49, 0x45, 0x4E, 0x44]
  {
    hide *;
    LetterI();
    LetterH();
    LetterD();
    LetterR();
    LetterA();
    LetterT();
    LetterE();
    LetterN();
    NameBytes("IHDR", 0x49, 0x48, 0x44, 0x52);
    NameBytes("IDAT", 0x49, 0x44, 0x41, 0x54);
    NameBytes("IEND", 0x49, 0x45, 0x4E, 0x44);
  }

  /** Reading a written file gives back the image exactly when its sides fit the four bytes the
      header has for each. */
  lemma RoundTrip(width: nat, height: nat, pixels: seq<Octet>,
                  deflate: seq<Octet> -> seq<Octet>, inflate: seq<Octet> -> Option<seq<Octet>>)
    requires |pixels| == width * height * CHANNELS
    requires forall raw :: inflate(deflate(raw)) == Some(raw)
    requires |deflate(FilteredRows(width * CHANNELS, height, pixels))| < U32
    ensures Decode(Encoded(width, height, pixels, deflate), inflate) == Some(Image(width, height, pixels))
       <==> width < U32 && height < U32
  {
    hide Decode, PngBytes, StripFilters, FilteredRows, Framed;
    SameArea(width, height);
    var raw := FilteredRows(width * CHANNELS, height, pixels);
    DecodeOfFile(width, height, deflate(raw), raw, inflate);
    StripUndoesFilter(width * CHANNELS, height, pixels);
    FramedWhenItFits(width, height, raw, pixels);
  }

  lemma FramedWhenItFits(width: nat, height: nat, raw: seq<Octet>, pixels: seq<Octet>)
    requires StripFilters(width * CHANNELS, height, raw) == Some(pixels)
    ensures Framed(Wrapped(width), Wrapped(height), raw) == Some(Image(width, height, pixels))
       <==> width < U32 && height < U32
  {
    hide StripFilters;
    FitsWhenUnchanged(width);
    FitsWhenUnchanged(height);
  }

  lemma FitsWhenUnchanged(n: nat)
    ensures Wrapped(n) == n <==> n < U32
  {}

  /** A burst of at most 32 damaged bits inside a chunk's name and payload makes the reader refuse it. */
  lemma DamagedChunkRefused(name: string, payload: seq<Octet>, damaged: seq<Octet>, from: nat, rest: seq<Octet>)
    requires |name| == TYPE_BYTES && |payload| < U32
    requires var body := TypeBytes(name) + payload;
             |damaged| == |body| && damaged != body &&
             forall i :: 0 <= i < 8 * |body| && !(from <= i < from + 32) ==>
               MessageBits(damaged)[i] == MessageBits(body)[i]
    ensures ParseChunk(Be32(|payload|) + damaged + CrcField(TypeBytes(name) + payload) + rest) == None
  {
    hide Be32, ReadBe32, TypeBytes, Crc, MessageBits, ReadWord, WordBytes;
    var body := TypeBytes(name) + payload;
    var bytes := Be32(|payload|) + damaged + CrcField(body) + rest;
    BurstDetected(damaged, body, from);
    ReadsBack(|payload|);
    WordReadsBack(Crc(body));
    assert bytes[..4] == Be32(|payload|);
    assert bytes[4..8 + |payload|] == damaged;
    assert bytes[8 + |payload|..12 + |payload|] == CrcField(body);
  }
}
