/** Bytes read as text and measured again: the UTF-8 decoder of the WHATWG Encoding Standard, section
    8.1.1, which puts U+FFFD in the place of every piece that is not well formed. */
module Utf8 {

  type Byte = n: nat | n < 256

  const NEWLINE: Byte := 0x0A

  /** A run of bytes that became one character: itself, or U+FFFD when it is not well formed. */
  datatype Piece = Piece(bytes: seq<Byte>, wellFormed: bool)

  type Text = seq<Piece>

  const LINE_END := Piece([NEWLINE], true)

  /** How many bytes follow a first byte; none follow an ASCII byte or one that begins nothing. */
  function Following(first: Byte): (r: nat)
    ensures r <= 3
  {
    if 0xC2 <= first <= 0xDF then 1
    else if 0xE0 <= first <= 0xEF then 2
    else if 0xF0 <= first <= 0xF4 then 3
    else 0
  }

  /** Where the second byte must lie, and every later one between 0x80 and 0xBF. */
  predicate MayFollow(first: Byte, at: nat, next: Byte) {
    if at > 0 then 0x80 <= next <= 0xBF
    else
      && (if first == 0xE0 then 0xA0 else if first == 0xF0 then 0x90 else 0x80) <= next
      && next <= (if first == 0xED then 0x9F else if first == 0xF4 then 0x8F else 0xBF)
  }

  /** How many of the bytes that should follow do. */
  function Followed(first: Byte, rest: seq<Byte>, at: nat): (r: nat)
    requires at <= Following(first) && at <= |rest|
    ensures at <= r <= Following(first) && r <= |rest|
    decreases Following(first) - at
  {
    if at < Following(first) && at < |rest| && MayFollow(first, at, rest[at]) then Followed(first, rest, at + 1) else at
  }

  /** The first character of a text. */
  function FirstPiece(bytes: seq<Byte>): (r: Piece)
    requires bytes != []
    ensures r.bytes != [] && r.bytes <= bytes
    ensures !r.wellFormed ==> |r.bytes| <= 3
  {
    var n := Followed(bytes[0], bytes[1..], 0);
    Piece(bytes[..1 + n], if Following(bytes[0]) == 0 then bytes[0] < 0x80 else n == Following(bytes[0]))
  }

  function Decode(bytes: seq<Byte>): Text
    decreases |bytes|
  {
    if bytes == [] then []
    else
      var first := FirstPiece(bytes);
      [first] + Decode(bytes[|first.bytes|..])
  }

  /** `Buffer.byteLength` of one character: U+FFFD takes three bytes. */
  function WidthOf(piece: Piece): nat {
    if piece.wellFormed then |piece.bytes| else 3
  }

  function ByteLength(text: Text): nat {
    if text == [] then 0 else WidthOf(text[0]) + ByteLength(text[1..])
  }

  /** A piece that measures more than it was: not well formed, and shorter than what stands for it. */
  predicate Short(piece: Piece) {
    !piece.wellFormed && |piece.bytes| < 3
  }

  predicate NothingShort(text: Text) {
    forall p :: p in text ==> !Short(p)
  }

  // ---------------------------------------------------------------- measuring

  /** Text read from bytes never measures less than they, and as much exactly when nothing in it is
      short. */
  lemma {:induction false} Measured(bytes: seq<Byte>)
    ensures ByteLength(Decode(bytes)) >= |bytes|
    ensures ByteLength(Decode(bytes)) == |bytes| <==> NothingShort(Decode(bytes))
    decreases |bytes|
  {
    if bytes != [] {
      var first := FirstPiece(bytes);
      var rest := bytes[|first.bytes|..];
      Measured(rest);
      assert Decode(bytes)[1..] == Decode(rest) && Decode(bytes)[0] == first;
      assert NothingShort(Decode(bytes)) <==> !Short(first) && NothingShort(Decode(rest));
    }
  }

  // ---------------------------------------------------------------- line ends

  lemma {:induction false} FollowedStays(first: Byte, rest: seq<Byte>, more: seq<Byte>, at: nat)
    requires at <= Following(first) && at <= |rest|
    requires exists k :: at <= k < |rest| && rest[k] == NEWLINE
    ensures Followed(first, rest + more, at) == Followed(first, rest, at)
    decreases Following(first) - at
  {
    assert (rest + more)[at] == rest[at];
    if at < Following(first) && MayFollow(first, at, rest[at]) {
      assert rest[at] != NEWLINE;
      FollowedStays(first, rest, more, at + 1);
    }
  }

  /** Bytes that end a line are read the same whatever comes behind them. */
  lemma {:induction false} LinesSplit(a: seq<Byte>, b: seq<Byte>)
    requires a == [] || a[|a| - 1] == NEWLINE
    ensures Decode(a + b) == Decode(a) + Decode(b)
    decreases |a|
  {
    hide FirstPiece, Decode;
    if a == [] {
      DecodeNothing();
      assert a + b == b;
    } else {
      FirstPieceStays(a, b);
      var first := FirstPiece(a);
      var rest := a[|first.bytes|..];
      assert a == first.bytes + rest;
      assert rest == [] || rest[|rest| - 1] == NEWLINE;
      LinesSplit(rest, b);
      DecodeHead(a);
      DecodeHead(a + b);
      assert (a + b)[|first.bytes|..] == rest + b;
    }
  }

  lemma DecodeHead(bytes: seq<Byte>)
    requires bytes != []
    ensures Decode(bytes) == [FirstPiece(bytes)] + Decode(bytes[|FirstPiece(bytes).bytes|..])
  {}

  lemma FirstPieceStays(a: seq<Byte>, b: seq<Byte>)
    requires a != [] && a[|a| - 1] == NEWLINE
    ensures FirstPiece(a + b) == FirstPiece(a)
  {
    assert (a + b)[1..] == a[1..] + b;
    if |a| > 1 {
      assert a[1..][|a| - 2] == NEWLINE;
      FollowedStays(a[0], a[1..], b, 0);
    }
    var n := Followed(a[0], a[1..], 0);
    assert (a + b)[..1 + n] == a[..1 + n];
  }

  /** A piece holds a newline only when it is one, and bytes hold one exactly when their text does. */
  lemma FirstPieceEndsLine(bytes: seq<Byte>)
    requires bytes != []
    ensures bytes[0] == NEWLINE ==> FirstPiece(bytes) == LINE_END
    ensures NEWLINE in FirstPiece(bytes).bytes ==> bytes[0] == NEWLINE
  {
    FollowedHasNoLineEnd(bytes[0], bytes[1..], 0);
    var n := Followed(bytes[0], bytes[1..], 0);
    assert bytes[..1 + n] == [bytes[0]] + bytes[1..][..n];
  }

  lemma {:induction false} FollowedHasNoLineEnd(first: Byte, rest: seq<Byte>, at: nat)
    requires at <= Following(first) && at <= |rest|
    ensures NEWLINE !in rest[at..Followed(first, rest, at)]
    decreases Following(first) - at
  {
    if at < Following(first) && at < |rest| && MayFollow(first, at, rest[at]) {
      FollowedHasNoLineEnd(first, rest, at + 1);
      var r := Followed(first, rest, at);
      assert rest[at..r] == [rest[at]] + rest[at + 1..r];
    }
  }

  lemma {:induction false} LineEndsStay(bytes: seq<Byte>)
    ensures LINE_END in Decode(bytes) <==> NEWLINE in bytes
    ensures bytes != [] && bytes[|bytes| - 1] == NEWLINE ==>
              Decode(bytes) != [] && Decode(bytes)[|Decode(bytes)| - 1] == LINE_END
    decreases |bytes|
  {
    hide FirstPiece, Decode;
    if bytes == [] {
      DecodeNothing();
    } else {
      var first := FirstPiece(bytes);
      var rest := bytes[|first.bytes|..];
      DecodeHead(bytes);
      FirstPieceEndsLine(bytes);
      LineEndsStay(rest);
      if rest == [] {
        DecodeNothing();
      }
      OnePieceOn(first, rest, Decode(rest));
      assert bytes == first.bytes + rest;
    }
  }

  /** What holds of the bytes behind a piece and their text holds with the piece before both. */
  lemma OnePieceOn(first: Piece, rest: seq<Byte>, text: Text)
    requires first.bytes != [] && (NEWLINE in first.bytes ==> first == LINE_END)
    requires LINE_END in text <==> NEWLINE in rest
    requires rest == [] ==> text == []
    requires rest != [] && rest[|rest| - 1] == NEWLINE ==> text != [] && text[|text| - 1] == LINE_END
    ensures LINE_END in [first] + text <==> NEWLINE in first.bytes + rest
    ensures (first.bytes + rest)[|first.bytes + rest| - 1] == NEWLINE ==> ([first] + text)[|text|] == LINE_END
  {
    var bytes := first.bytes + rest;
    assert first == LINE_END ==> NEWLINE in first.bytes;
    if rest == [] {
      assert bytes == first.bytes && bytes[|bytes| - 1] in first.bytes;
    } else {
      assert bytes[|bytes| - 1] == rest[|rest| - 1];
    }
  }

  /** A byte that begins nothing and may follow nothing is a piece by itself. */
  lemma FirstPieceHoldsNoStray(bytes: seq<Byte>)
    requires bytes != []
    ensures 0xFF in FirstPiece(bytes).bytes ==> Short(FirstPiece(bytes))
  {
    FollowedHasNoStray(bytes[0], bytes[1..], 0);
    var n := Followed(bytes[0], bytes[1..], 0);
    assert bytes[..1 + n] == [bytes[0]] + bytes[1..][..n];
  }

  lemma {:induction false} FollowedHasNoStray(first: Byte, rest: seq<Byte>, at: nat)
    requires at <= Following(first) && at <= |rest|
    ensures 0xFF !in rest[at..Followed(first, rest, at)]
    decreases Following(first) - at
  {
    if at < Following(first) && at < |rest| && MayFollow(first, at, rest[at]) {
      FollowedHasNoStray(first, rest, at + 1);
      var r := Followed(first, rest, at);
      assert rest[at..r] == [rest[at]] + rest[at + 1..r];
    }
  }

  lemma DecodeNothing()
    ensures Decode([]) == []
  {}
}
