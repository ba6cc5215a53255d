/** The UTF-8 encoder, written by ranges of code points (RFC 3629, section 3), and what it says of the
    decoder: which pieces are well formed, where the others end, and that decoding undoes encoding. */
module Utf8Encoding {
  import opened Utf8

  /** A Unicode scalar value: a code point that is no surrogate. */
  type Scalar = c: int | 0 <= c < 0x11_0000 && !(0xD800 <= c < 0xE000)

  const REPLACEMENT: Scalar := 0xFFFD

  function Encode(c: Scalar): (r: seq<Byte>)
    ensures 1 <= |r| <= 4
  {
    if c < 0x80 then [c]
    else if c < 0x800 then [0xC0 + c / 64, 0x80 + c % 64]
    else if c < 0x1_0000 then [0xE0 + c / 4096, 0x80 + c / 64 % 64, 0x80 + c % 64]
    else [0xF0 + c / 262144, 0x80 + c / 4096 % 64, 0x80 + c / 64 % 64, 0x80 + c % 64]
  }

  function EncodeAll(cs: seq<Scalar>): seq<Byte> {
    if cs == [] then [] else Encode(cs[0]) + EncodeAll(cs[1..])
  }

  /** These bytes are the first of some encoding, or all of it. */
  ghost predicate Begins(bytes: seq<Byte>) {
    exists c: Scalar :: bytes <= Encode(c)
  }

  // ---------------------------------------------------------------- what an encoding looks like to the decoder

  ghost predicate AllFollow(bytes: seq<Byte>) {
    && bytes != []
    && |bytes| <= 1 + Following(bytes[0])
    && (Following(bytes[0]) == 0 ==> bytes[0] < 0x80)
    && forall j :: 1 <= j < |bytes| ==> MayFollow(bytes[0], j - 1, bytes[j])
  }

  lemma EncodedFollows(c: Scalar)
    ensures AllFollow(Encode(c)) && |Encode(c)| == 1 + Following(Encode(c)[0])
  {
    if 0x800 <= c < 0x1_0000 {
      Threes(c);
    } else if 0x1_0000 <= c {
      Fours(c);
    }
  }

  lemma Threes(c: Scalar)
    requires 0x800 <= c < 0x1_0000
    ensures var e := Encode(c);
            && 0xE0 <= e[0] <= 0xEF && MayFollow(e[0], 0, e[1]) && MayFollow(e[0], 1, e[2])
  {
    assert c == 4096 * (c / 4096) + 64 * (c / 64 % 64) + c % 64;
  }

  lemma Fours(c: Scalar)
    requires 0x1_0000 <= c
    ensures var e := Encode(c);
            && 0xF0 <= e[0] <= 0xF4 && MayFollow(e[0], 0, e[1]) && MayFollow(e[0], 1, e[2]) && MayFollow(e[0], 2, e[3])
  {
    var high, low := c / 262144, c / 4096 % 64;
    assert c / 4096 == 64 * high + low;
    assert high == 0 ==> low >= 16;
    assert high <= 4 && (high == 4 ==> low < 16);
  }

  /** Bytes that all follow as they should are the encoding of some scalar, when there are enough. */
  lemma FullScalar(bytes: seq<Byte>) returns (c: Scalar)
    requires AllFollow(bytes) && |bytes| == 1 + Following(bytes[0])
    ensures Encode(c) == bytes
  {
    if |bytes| == 1 {
      c := bytes[0];
    } else if |bytes| == 2 {
      var first, second := bytes[0], bytes[1];
      assert MayFollow(first, 0, second);
      var p: int, q: int := first - 0xC0, second - 0x80;
      c := p * 64 + q;
      assert c / 64 == p && c % 64 == q;
    } else if |bytes| == 3 {
      c := OfThree(bytes);
    } else {
      c := OfFour(bytes);
    }
  }

  lemma SixBits(x: nat, y: nat)
    requires y < 64
    ensures (x * 64 + y) / 64 == x && (x * 64 + y) % 64 == y
  {}

  lemma DividedTwice(c: nat)
    ensures c / 4096 == c / 64 / 64 && c / 262144 == c / 64 / 64 / 64
  {}

  lemma OfThree(bytes: seq<Byte>) returns (c: Scalar)
    requires AllFollow(bytes) && |bytes| == 3 && Following(bytes[0]) == 2
    ensures Encode(c) == bytes
  {
    var first, second, third := bytes[0], bytes[1], bytes[2];
    assert MayFollow(first, 0, second) && MayFollow(first, 1, third);
    var p: nat, q: nat, r: nat := first - 0xE0, second - 0x80, third - 0x80;
    c := (p * 64 + q) * 64 + r;
    SixBits(p * 64 + q, r);
    SixBits(p, q);
    DividedTwice(c);
  }

  lemma OfFour(bytes: seq<Byte>) returns (c: Scalar)
    requires AllFollow(bytes) && |bytes| == 4 && Following(bytes[0]) == 3
    ensures Encode(c) == bytes
  {
    var first, second, third, fourth := bytes[0], bytes[1], bytes[2], bytes[3];
    assert MayFollow(first, 0, second) && MayFollow(first, 1, third) && MayFollow(first, 2, fourth);
    assert 0xF0 <= first <= 0xF4;
    var p: nat, q: nat, r: nat, s: nat := first - 0xF0, second - 0x80, third - 0x80, fourth - 0x80;
    assert (p == 0 ==> q >= 16) && p <= 4 && (p == 4 ==> q < 16) && q < 64 && r < 64 && s < 64;
    hide AllFollow, MayFollow, Following, Encode;
    c := FromSixes(p, q, r, s);
    assert bytes == [first, second, third, fourth];
  }

  lemma FromSixes(p: nat, q: nat, r: nat, s: nat) returns (c: Scalar)
    requires (p == 0 ==> q >= 16) && p <= 4 && (p == 4 ==> q < 16) && q < 64 && r < 64 && s < 64
    ensures Encode(c) == [0xF0 + p, 0x80 + q, 0x80 + r, 0x80 + s]
  {
    c := ((p * 64 + q) * 64 + r) * 64 + s;
    SixBits((p * 64 + q) * 64 + r, s);
    SixBits(p * 64 + q, r);
    SixBits(p, q);
    DividedTwice(c);
  }

  /** A byte that may come next. */
  function NextByte(first: Byte, at: nat): Byte {
    if at == 0 && first == 0xE0 then 0xA0 else if at == 0 && first == 0xF0 then 0x90 else 0x80
  }

  lemma {:induction false} SomeScalar(bytes: seq<Byte>) returns (c: Scalar)
    requires AllFollow(bytes)
    ensures bytes <= Encode(c)
    decreases 4 - |bytes|
  {
    if |bytes| == 1 + Following(bytes[0]) {
      c := FullScalar(bytes);
    } else {
      var longer := bytes + [NextByte(bytes[0], |bytes| - 1)];
      assert forall j :: 1 <= j < |bytes| ==> longer[j] == bytes[j];
      c := SomeScalar(longer);
    }
  }

  /** So the bytes that begin an encoding are those that all follow as they should. */
  lemma BeginsIs(bytes: seq<Byte>)
    requires bytes != []
    ensures Begins(bytes) <==> AllFollow(bytes)
  {
    if AllFollow(bytes) {
      var c := SomeScalar(bytes);
    }
    if Begins(bytes) {
      var c: Scalar :| bytes <= Encode(c);
      EncodedFollows(c);
      hide Encode, MayFollow, Following;
      assert forall j :: 0 <= j < |bytes| ==> bytes[j] == Encode(c)[j];
    }
  }

  // ---------------------------------------------------------------- what the decoder takes

  lemma {:induction false} FollowedFollows(first: Byte, rest: seq<Byte>, at: nat)
    requires at <= Following(first) && at <= |rest|
    ensures var n := Followed(first, rest, at);
            && (forall j :: at <= j < n ==> MayFollow(first, j, rest[j]))
            && (n < Following(first) && n < |rest| ==> !MayFollow(first, n, rest[n]))
    decreases Following(first) - at
  {
    hide MayFollow, Following;
    if at < Following(first) && at < |rest| && MayFollow(first, at, rest[at]) {
      FollowedFollows(first, rest, at + 1);
    }
  }

  lemma PieceIsLongest(bytes: seq<Byte>)
    requires bytes != []
    ensures var p := FirstPiece(bytes);
            && p.bytes == bytes[..|p.bytes|] && |p.bytes| <= 1 + Following(bytes[0])
            && (AllFollow(p.bytes) || (|p.bytes| == 1 && !p.wellFormed))
            && (p.wellFormed <==> AllFollow(p.bytes) && |p.bytes| == 1 + Following(bytes[0]))
            && forall k :: 1 <= k <= |bytes| && AllFollow(bytes[..k]) ==> k <= |p.bytes|
  {
    var p, rest := FirstPiece(bytes), bytes[1..];
    var n := Followed(bytes[0], rest, 0);
    FollowedFollows(bytes[0], rest, 0);
    assert |p.bytes| == 1 + n && p.bytes == bytes[..1 + n];
    hide Followed, Following, MayFollow;
    assert forall j :: 1 <= j < |p.bytes| ==> p.bytes[j] == rest[j - 1];
    hide AllFollow;
    forall k | 1 + n < k <= |bytes| ensures !AllFollow(bytes[..k]) {
      StopsThere(bytes, n, k);
    }
  }

  lemma StopsThere(bytes: seq<Byte>, n: nat, k: nat)
    requires 1 + n < k <= |bytes|
    requires n < Following(bytes[0]) ==> !MayFollow(bytes[0], n, bytes[n + 1])
    ensures !AllFollow(bytes[..k])
  {
    hide Following, MayFollow;
    assert bytes[..k][n + 1] == bytes[n + 1] && bytes[..k][0] == bytes[0];
  }

  /** The first piece of a text: the encoding it starts with, if it starts with one; or else the longest
      beginning of an encoding it starts with, or its first byte, which begins none. */
  lemma FirstPieceIs(bytes: seq<Byte>)
    requires bytes != []
    ensures var p := FirstPiece(bytes);
            && (p.wellFormed <==> exists c: Scalar :: Encode(c) <= bytes)
            && (p.wellFormed ==> exists c: Scalar :: Encode(c) == p.bytes)
            && (!p.wellFormed ==> |p.bytes| == 1 || Begins(p.bytes))
            && (!p.wellFormed ==> forall k :: |p.bytes| < k <= |bytes| ==> !Begins(bytes[..k]))
  {
    var p := FirstPiece(bytes);
    PieceIsLongest(bytes);
    hide FirstPiece, AllFollow, Following, Encode;
    if p.wellFormed {
      var c := FullScalar(p.bytes);
      assert Encode(c) <= bytes;
    }
    forall c: Scalar | Encode(c) <= bytes ensures p.wellFormed && p.bytes == Encode(c) {
      EncodingIsThePiece(bytes, c);
    }
    if !p.wellFormed {
      if |p.bytes| > 1 {
        BeginsIs(p.bytes);
      }
      forall k | |p.bytes| < k <= |bytes| ensures !Begins(bytes[..k]) {
        BeginsIs(bytes[..k]);
      }
    }
  }

  lemma EncodingIsThePiece(bytes: seq<Byte>, c: Scalar)
    requires Encode(c) <= bytes
    ensures FirstPiece(bytes) == Piece(Encode(c), true)
  {
    var e := Encode(c);
    EncodedFollows(c);
    hide Encode, FirstPiece, Following;
    assert bytes[..|e|] == e && bytes[0] == e[0];
    PieceIsLongest(bytes);
  }

  // ---------------------------------------------------------------- round trips

  function PiecesOf(cs: seq<Scalar>): (r: Text)
    ensures |r| == |cs| && forall i :: 0 <= i < |cs| ==> r[i] == Piece(Encode(cs[i]), true)
  {
    seq(|cs|, i requires 0 <= i < |cs| => Piece(Encode(cs[i]), true))
  }

  /** Decoding what was encoded gives one well-formed piece for each scalar, holding just its bytes. */
  lemma {:induction false} DecodeUndoesEncode(cs: seq<Scalar>)
    ensures Decode(EncodeAll(cs)) == PiecesOf(cs)
  {
    hide Encode, Decode;
    if cs == [] {
      DecodeNothing();
    } else {
      var bytes, rest := EncodeAll(cs), EncodeAll(cs[1..]);
      assert bytes == Encode(cs[0]) + rest;
      hide EncodeAll;
      EncodingIsThePiece(bytes, cs[0]);
      DecodeHead(bytes);
      assert bytes[|Encode(cs[0])|..] == rest;
      DecodeUndoesEncode(cs[1..]);
      assert PiecesOf(cs) == [Piece(Encode(cs[0]), true)] + PiecesOf(cs[1..]);
    }
  }

  /** What the text is when it is written again: U+FFFD stands for every malformed piece. */
  function Written(text: Text): seq<Byte> {
    if text == [] then []
    else (if text[0].wellFormed then text[0].bytes else Encode(REPLACEMENT)) + Written(text[1..])
  }

  /** `Buffer.byteLength` of a text is the length of its bytes when written. */
  lemma {:induction false} ByteLengthIsWritten(text: Text)
    ensures ByteLength(text) == |Written(text)|
  {
    if text != [] {
      ByteLengthIsWritten(text[1..]);
    }
  }

  lemma {:induction false} EncodeBoth(a: seq<Scalar>, b: seq<Scalar>)
    ensures EncodeAll(a + b) == EncodeAll(a) + EncodeAll(b)
  {
    hide Encode;
    if a == [] {
      assert a + b == b;
    } else {
      EncodeBoth(a[1..], b);
      assert (a + b)[1..] == a[1..] + b && (a + b)[0] == a[0];
    }
  }
}
