/** The PNG writer of `apps/dashboard/tools/png.ts`: chunk framing, header, filtered rows and the file,
    each written into byte arrays in place as there. Deflate is a parameter. `PngReader` reads the
    files back. */
module Png {
  import opened Options
  import opened Checksum

  const SIGNATURE: seq<Octet> := [137, 80, 78, 71, 13, 10, 26, 10]
  const CHANNELS := 4
  const BIT_DEPTH: Octet := 8
  const COLOR_TYPE_RGBA: Octet := 6
  const HEADER_BYTES := 13
  const LENGTH_BYTES := 4
  const TYPE_BYTES := 4
  const CRC_BYTES := 4
  const U32 := 0x1_0000_0000

  /** What four bytes keep of a number. */
  function Wrapped(n: nat): (r: nat)
    ensures r < U32
  {
    n % U32
  }

  // ---------------------------------------------------------------- what is written

  function Pow2(k: nat): (p: nat) {
    if k == 0 then 1 else 2 * Pow2(k - 1)
  }

  /** The number some bits spell, lowest first. */
  function Weigh(bits: seq<bool>): (n: nat)
    ensures n < Pow2(|bits|)
  {
    if bits == [] then 0 else (if bits[0] then 1 else 0) + 2 * Weigh(bits[1..])
  }

  function Digits(n: nat, k: nat): (bits: seq<bool>)
    ensures |bits| == k
    decreases k
  {
    if k == 0 then [] else [n % 2 == 1] + Digits(n / 2, k - 1)
  }

  lemma {:induction false} DigitsWeigh(n: nat, k: nat)
    requires n < Pow2(k)
    ensures Weigh(Digits(n, k)) == n
    decreases k
  {
    if k > 0 {
      DigitsWeigh(n / 2, k - 1);
      assert Digits(n, k)[1..] == Digits(n / 2, k - 1);
    }
  }

  /** The number a byte stands for. */
  function Value(b: Octet): (n: nat)
    ensures n < 256
  {
    hide BitsOf;
    EightBits();
    Weigh(BitsOf(b))
  }

  lemma EightBits()
    ensures Pow2(8) == 256
  {
    assert Pow2(4) == 16;
  }

  function Flag(b: bool, m: Octet): Octet {
    if b then m else 0
  }

  function FromBits(s: seq<bool>): Octet
    requires |s| == 8
  {
    Flag(s[0], 1) | Flag(s[1], 2) | Flag(s[2], 4) | Flag(s[3], 8)
      | Flag(s[4], 16) | Flag(s[5], 32) | Flag(s[6], 64) | Flag(s[7], 128)
  }

  lemma BitsBack(s: seq<bool>)
    requires |s| == 8
    ensures BitsOf(FromBits(s)) == s
  {}

  /** The byte that stands for a number. */
  function OctetOf(n: nat): (b: Octet)
    requires n < 256
    ensures Value(b) == n
  {
    hide FromBits, BitsOf;
    BitsBack(Digits(n, 8));
    EightBits();
    DigitsWeigh(n, 8);
    FromBits(Digits(n, 8))
  }

  /** What a byte array keeps of a number. */
  function Byte(n: nat): (b: Octet)
    ensures Value(b) == n % 256
  {
    OctetOf(n % 256)
  }

  /** What `setUint32` stores: the low 32 bits, big end first. */
  function Be32(n: nat): (s: seq<Octet>)
    ensures |s| == 4
  {
    [Byte(n / 0x100_0000), Byte(n / 0x1_0000), Byte(n / 0x100), Byte(n)]
  }

  /** What `charCodeAt` stored in a byte array leaves of a chunk's name. */
  function TypeBytes(name: string): (s: seq<Octet>)
    requires |name| == TYPE_BYTES
    ensures |s| == TYPE_BYTES
  {
    [Byte(name[0] as int), Byte(name[1] as int), Byte(name[2] as int), Byte(name[3] as int)]
  }

  /** The same for a value that is already a 32-bit word. */
  function WordBytes(w: bv32): (s: seq<Octet>)
    ensures |s| == 4
  {
    [((w >> 24) & 0xff) as Octet, ((w >> 16) & 0xff) as Octet, ((w >> 8) & 0xff) as Octet, (w & 0xff) as Octet]
  }

  function CrcField(body: seq<Octet>): (s: seq<Octet>)
    ensures |s| == CRC_BYTES
  {
    WordBytes(Crc(body))
  }

  /** Length, name, payload, and the checksum of name and payload. */
  function ChunkBytes(name: string, payload: seq<Octet>): (s: seq<Octet>)
    requires |name| == TYPE_BYTES
    ensures |s| == LENGTH_BYTES + TYPE_BYTES + |payload| + CRC_BYTES
  {
    Be32(|payload|) + (TypeBytes(name) + payload) + CrcField(TypeBytes(name) + payload)
  }

  function HeaderBytes(width: nat, height: nat): (s: seq<Octet>)
    ensures |s| == HEADER_BYTES
  {
    Be32(width) + Be32(height) + [BIT_DEPTH, COLOR_TYPE_RGBA, 0, 0, 0]
  }

  /** Every row of pixels behind a zero filter byte. */
  function FilteredRows(stride: nat, height: nat, pixels: seq<Octet>): (s: seq<Octet>)
    requires |pixels| == stride * height
    ensures |s| == (stride + 1) * height
  {
    if height == 0 then []
    else
      RowBounds(stride, height);
      FilteredRows(stride, height - 1, pixels[..stride * (height - 1)])
        + [0] + pixels[stride * (height - 1)..]
  }

  lemma RowBounds(stride: nat, height: nat)
    requires height > 0
    ensures 0 <= stride * (height - 1) <= stride * height
    ensures stride * height - stride * (height - 1) == stride
    ensures (stride + 1) * height == (stride + 1) * (height - 1) + stride + 1
    ensures 0 <= (stride + 1) * (height - 1) <= (stride + 1) * height
  {}

  function PngBytes(width: nat, height: nat, data: seq<Octet>): seq<Octet> {
    SIGNATURE + ChunkBytes("IHDR", HeaderBytes(width, height)) + ChunkBytes("IDAT", data) + ChunkBytes("IEND", [])
  }

  // ---------------------------------------------------------------- writing it

  /** `DataView.setUint32`, big-endian. */
  method SetUint32(a: array<Octet>, at: nat, n: nat)
    requires at + 4 <= a.Length
    modifies a
    ensures a[..] == old(a[..at]) + Be32(n) + old(a[at + 4..])
  {
    hide Be32;
    var s := Be32(n);
    a[at], a[at + 1], a[at + 2], a[at + 3] := s[0], s[1], s[2], s[3];
    assert s == [s[0], s[1], s[2], s[3]];
  }

  /** `Uint8Array.set`. */
  method Set(a: array<Octet>, bytes: seq<Octet>, at: nat)
    requires at + |bytes| <= a.Length
    modifies a
    ensures a[..] == old(a[..at]) + bytes + old(a[at + |bytes|..])
  {
    forall i | 0 <= i < |bytes| {
      a[at + i] := bytes[i];
    }
  }

  /** The loop of `chunk`: the four letters of a name. */
  method WriteName(framed: array<Octet>, name: string)
    requires |name| == TYPE_BYTES && LENGTH_BYTES + TYPE_BYTES <= framed.Length
    modifies framed
    ensures framed[..] == old(framed[..LENGTH_BYTES]) + TypeBytes(name) + old(framed[LENGTH_BYTES + TYPE_BYTES..])
  {
    hide TypeBytes, Byte;
    TypeBytesAre(name);
    for index := 0 to TYPE_BYTES
      invariant framed[..LENGTH_BYTES + index] == old(framed[..LENGTH_BYTES]) + TypeBytes(name)[..index]
      invariant framed[LENGTH_BYTES + TYPE_BYTES..] == old(framed[LENGTH_BYTES + TYPE_BYTES..])
    {
      framed[LENGTH_BYTES + index] := Byte(name[index] as int);
    }
  }

  method Chunk(table: array<bv32>, name: string, payload: seq<Octet>) returns (framed: array<Octet>)
    requires IsTable(table) && |name| == TYPE_BYTES
    ensures fresh(framed)
    ensures framed[..] == ChunkBytes(name, payload)
  {
    hide Be32, TypeBytes, Crc, Byte, WordBytes, ChunkBytes, IsTable;
    framed := new Octet[LENGTH_BYTES + TYPE_BYTES + |payload| + CRC_BYTES](_ => 0);
    ghost var length, body := Be32(|payload|), TypeBytes(name) + payload;
    var end := LENGTH_BYTES + TYPE_BYTES + |payload|;
    SetUint32(framed, 0, |payload|);
    assert framed[..LENGTH_BYTES] == length;
    WriteName(framed, name);
    assert framed[..LENGTH_BYTES + TYPE_BYTES] == length + TypeBytes(name);
    Set(framed, payload, LENGTH_BYTES + TYPE_BYTES);
    BodyFollows(framed[..end], length, TypeBytes(name), payload);
    assert framed[LENGTH_BYTES..end] == framed[..end][LENGTH_BYTES..];
    var crc := Crc32(table, framed[LENGTH_BYTES..end]);
    Set(framed, WordBytes(crc), end);
    ChunkIs(name, payload, crc);
  }

  lemma BodyFollows(written: seq<Octet>, length: seq<Octet>, name: seq<Octet>, payload: seq<Octet>)
    requires written == length + name + payload
    ensures written == length + (name + payload) && written[|length|..] == name + payload
  {}

  lemma ChunkIs(name: string, payload: seq<Octet>, crc: bv32)
    requires |name| == TYPE_BYTES && crc == Crc(TypeBytes(name) + payload)
    ensures ChunkBytes(name, payload) == Be32(|payload|) + (TypeBytes(name) + payload) + WordBytes(crc)
  {
    hide Be32, TypeBytes, Crc, WordBytes;
  }

  lemma TypeBytesAre(name: string)
    requires |name| == TYPE_BYTES
    ensures forall j :: 0 <= j < TYPE_BYTES ==> TypeBytes(name)[j] == Byte(name[j] as int)
  {
    hide Byte;
  }

  method Header(width: nat, height: nat) returns (payload: array<Octet>)
    ensures fresh(payload)
    ensures payload[..] == HeaderBytes(width, height)
  {
    hide Be32;
    payload := new Octet[HEADER_BYTES](_ => 0);
    SetUint32(payload, 0, width);
    assert payload[..4] == Be32(width) && forall i :: 4 <= i < HEADER_BYTES ==> payload[i] == 0;
    SetUint32(payload, LENGTH_BYTES, height);
    assert forall i :: 8 <= i < HEADER_BYTES ==> payload[i] == 0;
    payload[8] := BIT_DEPTH;
    payload[9] := COLOR_TYPE_RGBA;
    assert payload[..4] == Be32(width) && payload[4..8] == Be32(height);
    assert payload[10] == 0 && payload[11] == 0 && payload[12] == 0;
    assert payload[8..] == [BIT_DEPTH, COLOR_TYPE_RGBA, 0, 0, 0];
  }

  method Scanlines(width: nat, height: nat, pixels: seq<Octet>) returns (raw: array<Octet>)
    requires |pixels| == width * CHANNELS * height
    ensures fresh(raw)
    ensures raw[..] == FilteredRows(width * CHANNELS, height, pixels)
  {
    hide FilteredRows;
    var stride := width * CHANNELS;
    raw := new Octet[(stride + 1) * height](_ => 0);
    NoRows(stride);
    NothingTimes(stride);
    assert raw[..0] == [] && pixels[..0] == [];
    for row := 0 to height
      invariant stride * row <= |pixels| && (stride + 1) * row <= raw.Length
      invariant raw[..(stride + 1) * row] == FilteredRows(stride, row, pixels[..stride * row])
    {
      RowFits(stride, row, height);
      WriteRow(raw, stride, row, pixels);
    }
    assert pixels[..stride * height] == pixels;
    assert raw[..(stride + 1) * height] == raw[..];
  }

  lemma NothingTimes(stride: nat)
    ensures stride * 0 == 0 && (stride + 1) * 0 == 0
  {}

  /** The loop body of `scanlines`: a zero filter byte and one row behind it. */
  method WriteRow(raw: array<Octet>, stride: nat, row: nat, pixels: seq<Octet>)
    requires stride * row <= stride * (row + 1) <= |pixels|
    requires (stride + 1) * row <= (stride + 1) * (row + 1) <= raw.Length
    requires raw[..(stride + 1) * row] == FilteredRows(stride, row, pixels[..stride * row])
    modifies raw
    ensures raw[..(stride + 1) * (row + 1)] == FilteredRows(stride, row + 1, pixels[..stride * (row + 1)])
  {
    hide FilteredRows;
    OneMoreRow(stride, row, pixels);
    RowBounds(stride, row + 1);
    var at, from, to := row * (stride + 1), row * stride, (row + 1) * stride;
    ghost var done := raw[..at];
    var end := at + 1 + (to - from);
    raw[at] := 0;
    Set(raw, pixels[from..to], at + 1);
    assert raw[..end] == done + [0] + pixels[from..to];
  }

  lemma NoRows(stride: nat)
    ensures FilteredRows(stride, 0, []) == []
  {}

  lemma OneMoreRow(stride: nat, row: nat, pixels: seq<Octet>)
    requires stride * row <= stride * (row + 1) <= |pixels|
    ensures FilteredRows(stride, row + 1, pixels[..stride * (row + 1)])
         == FilteredRows(stride, row, pixels[..stride * row]) + [0] + pixels[stride * row..stride * (row + 1)]
  {
    var before := pixels[..stride * (row + 1)];
    assert before[..stride * row] == pixels[..stride * row];
    assert before[stride * row..] == pixels[stride * row..stride * (row + 1)];
  }

  lemma RowFits(stride: nat, row: nat, height: nat)
    requires row < height
    ensures 0 <= stride * row <= stride * (row + 1) <= stride * height
    ensures 0 <= (stride + 1) * row <= (stride + 1) * (row + 1) <= (stride + 1) * height
  {}

  /** The parts one after another. */
  function Joined(parts: seq<seq<Octet>>): seq<Octet> {
    if parts == [] then [] else Joined(parts[..|parts| - 1]) + parts[|parts| - 1]
  }

  lemma {:induction false} JoinedGrows(parts: seq<seq<Octet>>, i: nat)
    requires i <= |parts|
    ensures |Joined(parts[..i])| <= |Joined(parts)|
    decreases |parts|
  {
    if i < |parts| {
      var init := parts[..|parts| - 1];
      assert init[..i] == parts[..i];
      JoinedGrows(init, i);
    } else {
      assert parts[..i] == parts;
    }
  }

  /** The end of `encodePng`: one array of the total length, filled at a running offset. */
  method Concatenate(parts: seq<seq<Octet>>) returns (file: array<Octet>)
    ensures fresh(file) && file[..] == Joined(parts)
  {
    var total := 0;
    for i := 0 to |parts|
      invariant total == |Joined(parts[..i])|
    {
      assert parts[..i + 1][..i] == parts[..i];
      total := total + |parts[i]|;
    }
    assert parts[..|parts|] == parts;
    file := new Octet[total](_ => 0);
    var at := 0;
    for i := 0 to |parts|
      invariant at == |Joined(parts[..i])| <= file.Length
      invariant file[..at] == Joined(parts[..i])
    {
      assert parts[..i + 1][..i] == parts[..i];
      JoinedGrows(parts, i + 1);
      ghost var done := file[..at];
      Set(file, parts[i], at);
      assert file[..at + |parts[i]|] == done + parts[i];
      at := at + |parts[i]|;
    }
  }

  lemma JoinedFour(a: seq<Octet>, b: seq<Octet>, c: seq<Octet>, d: seq<Octet>)
    ensures Joined([a, b, c, d]) == a + b + c + d
  {
    assert [a, b, c, d][..3] == [a, b, c];
    assert [a, b, c][..2] == [a, b];
    assert [a, b][..1] == [a];
    assert [a][..0] == [];
    assert Joined([a]) == a;
    assert Joined([a, b]) == a + b;
    assert Joined([a, b, c]) == a + b + c;
  }

  /** The whole file, or the error `encodePng` throws for a pixel buffer of the wrong size. */
  method EncodePng(table: array<bv32>, width: nat, height: nat, pixels: seq<Octet>,
                   deflate: seq<Octet> -> seq<Octet>) returns (r: Option<array<Octet>>)
    requires IsTable(table)
    ensures r.None? <==> |pixels| != width * height * CHANNELS
    ensures r.Some? ==> r.value[..] == Encoded(width, height, pixels, deflate)
  {
    hide *;
    if |pixels| != width * height * CHANNELS {
      return None;
    }
    SameArea(width, height);
    EncodedIs(width, height, pixels, deflate);
    var raw := Scanlines(width, height, pixels);
    var file := WriteFile(table, width, height, deflate(raw[..]));
    return Some(file);
  }

  lemma EncodedIs(width: nat, height: nat, pixels: seq<Octet>, deflate: seq<Octet> -> seq<Octet>)
    requires |pixels| == width * height * CHANNELS
    ensures |pixels| == width * CHANNELS * height
    ensures Encoded(width, height, pixels, deflate)
         == PngBytes(width, height, deflate(FilteredRows(width * CHANNELS, height, pixels)))
  {
    hide PngBytes, FilteredRows;
    SameArea(width, height);
  }

  /** The rest of `encodePng`, once the pixels are compressed. */
  method WriteFile(table: array<bv32>, width: nat, height: nat, data: seq<Octet>) returns (file: array<Octet>)
    requires IsTable(table)
    ensures fresh(file) && file[..] == PngBytes(width, height, data)
  {
    hide ChunkBytes, HeaderBytes, Joined;
    var payload := Header(width, height);
    var ihdr := Chunk(table, "IHDR", payload[..]);
    var idat := Chunk(table, "IDAT", data);
    var iend := Chunk(table, "IEND", []);
    JoinedFour(SIGNATURE, ihdr[..], idat[..], iend[..]);
    file := Concatenate([SIGNATURE, ihdr[..], idat[..], iend[..]]);
  }

  lemma SameArea(width: nat, height: nat)
    ensures width * height * CHANNELS == width * CHANNELS * height
  {}

  function Encoded(width: nat, height: nat, pixels: seq<Octet>, deflate: seq<Octet> -> seq<Octet>): seq<Octet>
    requires |pixels| == width * height * CHANNELS
  {
    SameArea(width, height);
    PngBytes(width, height, deflate(FilteredRows(width * CHANNELS, height, pixels)))
  }
}
