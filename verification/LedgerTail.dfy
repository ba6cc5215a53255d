/** Following ledger files that only grow (`drainFile` and `runFollow` in `scripts/logs.ts`): each poll
    reads past an offset, hands on the lines that have ended, and moves the offset by what their text
    measures. */
module LedgerTail {
  import opened Options
  import opened Utf8

  /** A line's event row, or none where the line carries none of the marker asked for. */
  type Parser<!R> = Text -> Option<R>

  // ---------------------------------------------------------------- lines

  function LastIndexOf(text: Text, piece: Piece): (r: int)
    ensures -1 <= r < |text|
    ensures r >= 0 ==> text[r] == piece
  {
    if text == [] then -1
    else if text[|text| - 1] == piece then |text| - 1
    else LastIndexOf(text[..|text| - 1], piece)
  }

  /** `split("\n")`; `line` is the one being read. */
  function SplitLines(text: Text, line: Text): seq<Text> {
    if text == [] then [line]
    else if text[0] == LINE_END then [line] + SplitLines(text[1..], [])
    else SplitLines(text[1..], line + [text[0]])
  }

  function RowOf<R>(line: Text, parse: Parser<R>): seq<R> {
    match parse(line) case None => [] case Some(row) => [row]
  }

  /** The rows of the lines that end in the text, in order. */
  function RowsIn<R>(text: Text, line: Text, parse: Parser<R>): seq<R> {
    if text == [] then []
    else if text[0] == LINE_END then RowOf(line, parse) + RowsIn(text[1..], [], parse)
    else RowsIn(text[1..], line + [text[0]], parse)
  }

  function RowsOf<R>(lines: seq<Text>, parse: Parser<R>): seq<R> {
    if lines == [] then [] else RowsOf(lines[..|lines| - 1], parse) + RowOf(lines[|lines| - 1], parse)
  }

  lemma {:induction false} RowsOfFirst<R>(line: Text, lines: seq<Text>, parse: Parser<R>)
    ensures RowsOf([line] + lines, parse) == RowOf(line, parse) + RowsOf(lines, parse)
    decreases |lines|
  {
    var all := [line] + lines;
    if lines == [] {
      assert all[..0] == [];
    } else {
      var n := |lines| - 1;
      assert all[..|all| - 1] == [line] + lines[..n];
      RowsOfFirst(line, lines[..n], parse);
    }
  }

  /** Splitting what stands before the last line end gives the lines that have ended. */
  lemma {:induction false} SplitGivesEndedLines<R>(text: Text, line: Text, parse: Parser<R>)
    ensures RowsOf(SplitLines(text, line), parse) == RowsIn(text + [LINE_END], line, parse)
    decreases |text|
  {
    if text == [] {
      RowsOfFirst(line, [], parse);
      assert [line] + [] == [line];
      assert (text + [LINE_END])[1..] == [];
    } else {
      assert (text + [LINE_END])[1..] == text[1..] + [LINE_END];
      if text[0] == LINE_END {
        SplitGivesEndedLines(text[1..], [], parse);
        RowsOfFirst(line, SplitLines(text[1..], []), parse);
      } else {
        SplitGivesEndedLines(text[1..], line + [text[0]], parse);
      }
    }
  }

  lemma {:induction false} RowsAppend<R>(a: Text, b: Text, line: Text, parse: Parser<R>)
    requires a == [] || a[|a| - 1] == LINE_END
    requires a == [] ==> line == []
    ensures RowsIn(a + b, line, parse) == RowsIn(a, line, parse) + RowsIn(b, [], parse)
    decreases |a|
  {
    if a == [] {
      assert a + b == b;
    } else {
      assert (a + b)[1..] == a[1..] + b;
      if a[0] == LINE_END {
        RowsAppend(a[1..], b, [], parse);
      } else {
        RowsAppend(a[1..], b, line + [a[0]], parse);
      }
    }
  }

  // ---------------------------------------------------------------- one poll

  /** How many of the bytes stand up to and with the last newline. */
  function CutOf(bytes: seq<Byte>): (r: nat)
    ensures r <= |bytes| && NEWLINE !in bytes[r..]
    ensures r > 0 ==> bytes[r - 1] == NEWLINE
  {
    if bytes == [] then 0
    else if bytes[|bytes| - 1] == NEWLINE then |bytes|
    else
      var front := bytes[..|bytes| - 1];
      var r := CutOf(front);
      assert bytes[r..] == front[r..] + [bytes[|bytes| - 1]];
      r
  }

  function Ended(bytes: seq<Byte>): (r: seq<Byte>)
    ensures r == [] || r[|r| - 1] == NEWLINE
  {
    bytes[..CutOf(bytes)]
  }

  /** A file shorter than the offset was truncated, and is read from its start. */
  function ReadFrom(file: seq<Byte>, offset: nat): (r: nat)
    ensures r <= |file|
  {
    if |file| < offset then 0 else offset
  }

  datatype Poll<+R> = Poll(rows: seq<R>, offset: nat)

  /** What a poll hands on and where it leaves the offset. */
  function Drained<R>(file: seq<Byte>, offset: nat, parse: Parser<R>): Poll<R> {
    var from := ReadFrom(file, offset);
    var text := Decode(Ended(file[from..]));
    Poll(RowsIn(text, [], parse), from + ByteLength(text))
  }

  /** The text up to its last line end is the text of the bytes up to their last newline. */
  lemma LastLineEnd(bytes: seq<Byte>)
    ensures var text := Decode(bytes);
            var at := LastIndexOf(text, LINE_END);
            text[..at + 1] == Decode(Ended(bytes)) && (at == -1 <==> Ended(bytes) == [])
  {
    var ended, rest := Ended(bytes), bytes[CutOf(bytes)..];
    assert bytes == ended + rest;
    LinesSplit(ended, rest);
    LineEndsStay(ended);
    LineEndsStay(rest);
    if ended == [] {
      DecodeNothing();
    }
    hide Decode, CutOf;
    LastOf(Decode(ended), Decode(rest));
  }

  lemma {:induction false} LastOf(a: Text, b: Text)
    requires a == [] || a[|a| - 1] == LINE_END
    requires LINE_END !in b
    ensures LastIndexOf(a + b, LINE_END) == |a| - 1
    ensures (a + b)[..|a|] == a
    decreases |b|
  {
    var text := a + b;
    if b == [] {
      assert text == a;
    } else {
      var last := b[|b| - 1];
      assert last in b && text[|text| - 1] == last;
      assert text[..|text| - 1] == a + b[..|b| - 1];
      LastOf(a, b[..|b| - 1]);
    }
  }

  /** One poll, from the file's size to the offset it leaves. */
  method DrainFile<R>(file: seq<Byte>, state: nat, parse: Parser<R>) returns (rows: seq<R>, offset: nat)
    requires parse([]) == None
    ensures Poll(rows, offset) == Drained(file, state, parse)
  {
    rows, offset := [], state;
    var size := |file|;
    if size < offset {
      offset := 0;
    }
    assert offset == ReadFrom(file, state);
    hide *;
    if size <= offset {
      NothingNew(file, state, parse);
      return;
    }
    var text := Decode(file[offset..]);
    var lastNl := LastIndexOf(text, LINE_END);
    var consumable := if lastNl == -1 then [] else text[..lastNl];
    var lines := SplitLines(consumable, []);
    DrainedIs(file, state, parse);
    rows := ParseLines(lines, parse);
    offset := offset + ByteLength(if lastNl == -1 then [] else consumable + [LINE_END]);
  }

  method ParseLines<R>(lines: seq<Text>, parse: Parser<R>) returns (rows: seq<R>)
    ensures rows == RowsOf(lines, parse)
  {
    hide *;
    rows := [];
    assert lines[..0] == [] && RowsOf(lines[..0], parse) == [] by { RowsOfNothing(parse); }
    for i := 0 to |lines|
      invariant rows == RowsOf(lines[..i], parse)
    {
      RowsOfNext(lines, i, parse);
      var row := parse(lines[i]);
      if row.Some? {
        rows := rows + [row.value];
      }
    }
    assert lines[..|lines|] == lines;
  }

  lemma NothingNew<R>(file: seq<Byte>, offset: nat, parse: Parser<R>)
    requires ReadFrom(file, offset) == |file|
    ensures Drained(file, offset, parse) == Poll([], |file|)
  {
    assert file[|file|..] == [];
    DecodeNothing();
  }

  lemma RowsOfNothing<R>(parse: Parser<R>)
    ensures RowsOf([], parse) == []
  {}

  lemma RowsOfNext<R>(lines: seq<Text>, i: nat, parse: Parser<R>)
    requires i < |lines|
    ensures RowsOf(lines[..i + 1], parse)
         == RowsOf(lines[..i], parse) + (if parse(lines[i]).Some? then [parse(lines[i]).value] else [])
  {
    assert lines[..i + 1][..i] == lines[..i];
  }

  /** What the text says of a poll is what the bytes do. */
  lemma DrainedIs<R>(file: seq<Byte>, offset: nat, parse: Parser<R>)
    requires parse([]) == None
    ensures var from := ReadFrom(file, offset);
            var text := Decode(file[from..]);
            var lastNl := LastIndexOf(text, LINE_END);
            var consumable := if lastNl == -1 then [] else text[..lastNl];
            && Drained(file, offset, parse).rows == RowsOf(SplitLines(consumable, []), parse)
            && Drained(file, offset, parse).offset
                 == from + ByteLength(if lastNl == -1 then [] else consumable + [LINE_END])
  {
    hide Decode, Ended, SplitLines, RowsIn, RowsOf, ByteLength, LastIndexOf, ReadFrom;
    var from := ReadFrom(file, offset);
    var text := Decode(file[from..]);
    LastLineEnd(file[from..]);
    ConsumedRows(text, LastIndexOf(text, LINE_END), parse);
  }

  lemma ConsumedRows<R>(text: Text, lastNl: int, parse: Parser<R>)
    requires parse([]) == None
    requires -1 <= lastNl < |text| && (lastNl >= 0 ==> text[lastNl] == LINE_END)
    ensures var consumable := if lastNl == -1 then [] else text[..lastNl];
            && RowsOf(SplitLines(consumable, []), parse) == RowsIn(text[..lastNl + 1], [], parse)
            && (if lastNl == -1 then [] else consumable + [LINE_END]) == text[..lastNl + 1]
  {
    if lastNl == -1 {
      var blank: seq<Text> := [[]];
      assert RowsOf(blank, parse) == [] by { assert blank[..0] == []; }
    } else {
      assert text[..lastNl] + [LINE_END] == text[..lastNl + 1];
      SplitGivesEndedLines(text[..lastNl], [], parse);
    }
  }

  // ---------------------------------------------------------------- any number of polls

  /** The file as each poll finds it: it only grows, and the tail starts within it. */
  predicate Growing(files: seq<seq<Byte>>, start: nat) {
    forall i :: 0 <= i < |files| ==> start <= |files[i]| && (i > 0 ==> files[i - 1] <= files[i])
  }

  /** Everything these polls hand on, and where they leave the offset. */
  function Polled<R>(files: seq<seq<Byte>>, start: nat, parse: Parser<R>): Poll<R>
    decreases |files|
  {
    if files == [] then Poll([], start)
    else
      var before := Polled(files[..|files| - 1], start, parse);
      var last := Drained(files[|files| - 1], before.offset, parse);
      Poll(before.rows + last.rows, last.offset)
  }

  /** The offset stands just past the last newline there has been since the start. */
  predicate InStep(file: seq<Byte>, start: nat, offset: nat) {
    start <= |file| && offset == start + CutOf(file[start..])
  }

  /** It does after every poll. */
  predicate AlwaysInStep<R>(files: seq<seq<Byte>>, start: nat, parse: Parser<R>)
    decreases |files|
  {
    files == [] ||
    (AlwaysInStep(files[..|files| - 1], start, parse)
     && InStep(files[|files| - 1], start, Polled(files, start, parse).offset))
  }

  lemma CutGrows(a: seq<Byte>, b: seq<Byte>)
    requires a == [] || a[|a| - 1] == NEWLINE
    ensures CutOf(a + b) == |a| + CutOf(b)
    ensures Ended(a + b) == a + Ended(b)
  {
    CutIs(a, b);
    hide CutOf;
    assert (a + b)[..|a| + CutOf(b)] == a + b[..CutOf(b)];
  }

  lemma {:induction false} CutIs(a: seq<Byte>, b: seq<Byte>)
    requires a == [] || a[|a| - 1] == NEWLINE
    ensures CutOf(a + b) == |a| + CutOf(b)
    decreases |b|
  {
    var bytes := a + b;
    if b == [] {
      assert bytes == a;
    } else {
      var front := b[..|b| - 1];
      assert bytes[..|bytes| - 1] == a + front && bytes[|bytes| - 1] == b[|b| - 1];
      CutIs(a, front);
    }
  }

  /** One poll of a tail in step: what has ended in the file since the start is what had, and what it
      reads; it stays in step exactly when nothing it reads is short. */
  lemma PollInStep<R>(before: seq<Byte>, file: seq<Byte>, start: nat, offset: nat, parse: Parser<R>)
    requires start <= |before| && before <= file && InStep(before, start, offset)
    ensures offset <= |file|
    ensures Ended(file[start..]) == Ended(before[start..]) + Ended(file[offset..])
    ensures InStep(file, start, Drained(file, offset, parse).offset) <==> NothingShort(Decode(Ended(file[offset..])))
    ensures Drained(file, offset, parse).rows == RowsIn(Decode(Ended(file[offset..])), [], parse)
  {
    var done := Ended(before[start..]);
    assert file[start..] == done + file[offset..] by {
      assert before[start..][..|done|] == done;
      assert file[start..][..|done|] == done;
    }
    CutGrows(done, file[offset..]);
    Measured(Ended(file[offset..]));
    hide Decode, CutOf, RowsIn, NothingShort;
  }

  lemma LastInStep<R>(files: seq<seq<Byte>>, start: nat, parse: Parser<R>)
    requires files != [] && AlwaysInStep(files, start, parse)
    ensures InStep(files[|files| - 1], start, Polled(files, start, parse).offset)
  {}

  lemma ShortSplits(a: seq<Byte>, b: seq<Byte>)
    requires a == [] || a[|a| - 1] == NEWLINE
    ensures NothingShort(Decode(a + b)) <==> NothingShort(Decode(a)) && NothingShort(Decode(b))
  {
    LinesSplit(a, b);
    hide Decode, Short;
  }

  lemma EndedGrows(a: seq<Byte>, b: seq<Byte>)
    requires a <= b
    ensures NothingShort(Decode(Ended(b))) ==> NothingShort(Decode(Ended(a)))
  {
    var done := Ended(a);
    assert b == done + b[|done|..] by { assert b[..|done|] == a[..|done|]; }
    CutGrows(done, b[|done|..]);
    ShortSplits(done, Ended(b[|done|..]));
    hide Decode, NothingShort, Ended;
  }

  lemma FirstPoll<R>(file: seq<Byte>, start: nat, parse: Parser<R>)
    requires start <= |file|
    ensures InStep(file, start, Drained(file, start, parse).offset) <==> NothingShort(Decode(Ended(file[start..])))
    ensures Drained(file, start, parse).rows == RowsIn(Decode(Ended(file[start..])), [], parse)
  {
    Measured(Ended(file[start..]));
    hide Decode, NothingShort, RowsIn;
  }

  /** A tail that starts anywhere in a growing file is in step after every poll exactly when no piece of
      an ended line is short; and then every line that has ended is handed on once, whole and in order. */
  lemma {:induction false} TailIsExact<R>(files: seq<seq<Byte>>, start: nat, parse: Parser<R>)
    requires files != [] && Growing(files, start)
    ensures var ended := Decode(Ended(files[|files| - 1][start..]));
            && (AlwaysInStep(files, start, parse) <==> NothingShort(ended))
            && (NothingShort(ended) ==> Polled(files, start, parse).rows == RowsIn(ended, [], parse))
    decreases |files|
  {
    var n := |files| - 1;
    hide Decode, Ended, Drained, RowsIn, NothingShort, InStep;
    if n == 0 {
      assert files[..0] == [];
      assert AlwaysInStep(files[..0], start, parse) && Polled(files[..0], start, parse) == Poll([], start);
      FirstPoll(files[0], start, parse);
    } else {
      var earlier := files[..n];
      TailIsExact(earlier, start, parse);
      var offset := Polled(earlier, start, parse).offset;
      if AlwaysInStep(earlier, start, parse) {
        LastInStep(earlier, start, parse);
        NextPoll(files[n - 1], files[n], start, offset, parse);
      } else {
        EndedGrows(files[n - 1][start..], files[n][start..]);
      }
    }
  }

  /** The poll after a tail in step adds what has ended since. */
  lemma NextPoll<R>(before: seq<Byte>, file: seq<Byte>, start: nat, offset: nat, parse: Parser<R>)
    requires start <= |before| && before <= file && InStep(before, start, offset)
    ensures var ended, now := Decode(Ended(before[start..])), Decode(Ended(file[start..]));
            && (NothingShort(now) <==> NothingShort(ended) && InStep(file, start, Drained(file, offset, parse).offset))
            && RowsIn(now, [], parse) == RowsIn(ended, [], parse) + Drained(file, offset, parse).rows
  {
    hide *;
    PollInStep(before, file, start, offset, parse);
    var done, read := Ended(before[start..]), Ended(file[offset..]);
    ShortSplits(done, read);
    LinesSplit(done, read);
    LineEndsStay(done);
    if done == [] {
      DecodeNothing();
    }
    RowsAppend(Decode(done), Decode(read), [], parse);
  }

  // ---------------------------------------------------------------- past the end of the file

  /** A poll that reads from here leaves its offset past the end of the file. */
  predicate Overshoots(file: seq<Byte>, from: nat)
    requires from <= |file|
  {
    from + ByteLength(Decode(Ended(file[from..]))) > |file|
  }

  /** Of a file whose last line has ended, a poll does so exactly when something it reads is short. */
  lemma ShortOvershoots(file: seq<Byte>, from: nat)
    requires file != [] && file[|file| - 1] == NEWLINE && from <= |file|
    ensures Overshoots(file, from) <==> !NothingShort(Decode(file[from..]))
  {
    Measured(file[from..]);
    assert from < |file| ==> file[from..][|file| - from - 1] == NEWLINE;
    assert Ended(file[from..]) == file[from..];
    hide Decode, CutOf, NothingShort;
  }

  /** The byte 0xFF stands in no well-formed piece, so a line that holds one anywhere, in a quoted field
      for one, is enough. */
  lemma {:induction false} StrayByteIsShort(bytes: seq<Byte>)
    requires 0xFF in bytes
    ensures !NothingShort(Decode(bytes))
    decreases |bytes|
  {
    var first := FirstPiece(bytes);
    var rest := bytes[|first.bytes|..];
    DecodeHead(bytes);
    FirstPieceHoldsNoStray(bytes);
    assert bytes == first.bytes + rest;
    assert first in Decode(bytes) && forall p :: p in Decode(rest) ==> p in Decode(bytes);
    hide FirstPiece, Decode;
    if 0xFF in rest {
      StrayByteIsShort(rest);
    }
  }

  /** A tail that starts where a line does reads what a reading from the first byte also reads, so there
      is no second case below. */
  lemma LineStartOvershootsAlways(file: seq<Byte>, start: nat)
    requires file != [] && file[|file| - 1] == NEWLINE && start <= |file|
    requires start == 0 || file[start - 1] == NEWLINE
    requires Overshoots(file, start)
    ensures Overshoots(file, 0)
  {
    ShortOvershoots(file, start);
    ShortOvershoots(file, 0);
    hide *;
    assert file[0..] == file;
    ShortFromALineStart(file, start);
  }

  lemma ShortFromALineStart(file: seq<Byte>, start: nat)
    requires start <= |file| && (start == 0 || file[start - 1] == NEWLINE)
    ensures NothingShort(Decode(file)) ==> NothingShort(Decode(file[start..]))
  {
    hide *;
    var before := file[..start];
    assert before == [] || before[|before| - 1] == file[start - 1];
    assert file == before + file[start..];
    ShortSplits(before, file[start..]);
  }

  /** The other case: a tail that starts inside a character of well-formed text. */
  lemma SplitCharacterOvershootsOnce()
    ensures var file := [0xC3, 0xA9, NEWLINE];
            Overshoots(file, 1) && !Overshoots(file, 0)
  {
    var file: seq<Byte> := [0xC3, 0xA9, NEWLINE];
    var letter, stray := Piece([0xC3, 0xA9], true), Piece([0xA9], false);
    SplitCharacterReads();
    hide *;
    assert file[0..] == file && file[1..] == [0xA9, NEWLINE];
    ShortOvershoots(file, 0);
    ShortOvershoots(file, 1);
    OneShort([letter, LINE_END], [stray, LINE_END]);
  }

  lemma OneShort(fine: Text, spoilt: Text)
    requires fine == [Piece([0xC3, 0xA9], true), LINE_END] && spoilt == [Piece([0xA9], false), LINE_END]
    ensures NothingShort(fine) && !NothingShort(spoilt)
  {
    assert Short(spoilt[0]) && spoilt[0] in spoilt;
  }

  lemma SplitCharacterReads()
    ensures Decode([0xC3, 0xA9, NEWLINE]) == [Piece([0xC3, 0xA9], true), LINE_END]
    ensures Decode([0xA9, NEWLINE]) == [Piece([0xA9], false), LINE_END]
  {
    var file, tail, end: seq<Byte> := [0xC3, 0xA9, NEWLINE], [0xA9, NEWLINE], [NEWLINE];
    assert file[1..] == tail && file[2..] == end && tail[1..] == end && end[1..] == [];
    assert Followed(0xC3, tail, 1) == 1;
    assert FirstPiece(file) == Piece([0xC3, 0xA9], true) && FirstPiece(tail) == Piece([0xA9], false);
    assert FirstPiece(end) == LINE_END;
    hide FirstPiece, Decode;
    DecodeHead(file);
    DecodeHead(tail);
    DecodeHead(end);
    DecodeNothing();
  }

  function Repeated<R>(rows: seq<R>, times: nat): seq<R> {
    if times == 0 then [] else Repeated(rows, times - 1) + rows
  }

  /** A poll that overshoots makes the next one take the file for truncated and start again from its
      first byte. A file that stays as it is, its history before `start` included, is then handed on
      again by every poll from the second on, or by the second alone where reading from the first byte
      does not overshoot. */
  lemma {:induction false} OvershootReprints<R>(files: seq<seq<Byte>>, file: seq<Byte>, start: nat, parse: Parser<R>)
    requires |files| >= 2 && forall i :: 0 <= i < |files| ==> files[i] == file
    requires start <= |file| && Overshoots(file, start)
    ensures var polled := Polled(files, start, parse);
            var once := RowsIn(Decode(Ended(file[start..])), [], parse);
            var whole := RowsIn(Decode(Ended(file)), [], parse);
            && polled.rows == once + Repeated(whole, if Overshoots(file, 0) then |files| - 1 else 1)
            && (polled.offset > |file| <==> Overshoots(file, 0))
            && polled.offset == ByteLength(Decode(Ended(file)))
    decreases |files|
  {
    hide *;
    var n := |files| - 1;
    var earlier := files[..n];
    var whole := RowsIn(Decode(Ended(file)), [], parse);
    PolledNext(files, start, parse);
    RepeatedOnce(whole);
    if n == 1 {
      assert earlier == [file];
      PolledOnce(file, start, parse);
      PollAfterOvershoot(file, Polled(earlier, start, parse).offset, parse);
    } else {
      OvershootReprints(earlier, file, start, parse);
      if Overshoots(file, 0) {
        PollAfterOvershoot(file, Polled(earlier, start, parse).offset, parse);
        RepeatedMore(whole, n - 1);
      } else {
        PollWithNothingLeft(file, parse);
      }
    }
  }

  lemma PolledNext<R>(files: seq<seq<Byte>>, start: nat, parse: Parser<R>)
    requires files != []
    ensures var before := Polled(files[..|files| - 1], start, parse);
            var last := Drained(files[|files| - 1], before.offset, parse);
            Polled(files, start, parse) == Poll(before.rows + last.rows, last.offset)
  {}

  lemma PolledOnce<R>(file: seq<Byte>, start: nat, parse: Parser<R>)
    requires start <= |file|
    ensures Polled([file], start, parse).rows == RowsIn(Decode(Ended(file[start..])), [], parse)
    ensures Polled([file], start, parse).offset > |file| <==> Overshoots(file, start)
  {
    hide Decode, Ended, RowsIn, ByteLength;
    PolledNext([file], start, parse);
    assert [file][..0] == [];
    assert Polled([], start, parse) == Poll([], start);
  }

  lemma RepeatedOnce<R>(rows: seq<R>)
    ensures Repeated(rows, 1) == rows
  {
    assert Repeated(rows, 0) == [];
  }

  lemma RepeatedMore<R>(rows: seq<R>, times: nat)
    ensures Repeated(rows, times + 1) == Repeated(rows, times) + rows
  {}

  // ---------------------------------------------------------------- growing past the offset

  /** Polls can be taken apart after the first. */
  lemma {:induction false} PolledSplits<R>(first: seq<Byte>, files: seq<seq<Byte>>, start: nat, parse: Parser<R>)
    ensures var one := Drained(first, start, parse);
            var rest := Polled(files, one.offset, parse);
            Polled([first] + files, start, parse) == Poll(one.rows + rest.rows, rest.offset)
    decreases |files|
  {
    hide Drained;
    var all := [first] + files;
    PolledNext(all, start, parse);
    if files == [] {
      assert all[..0] == [];
    } else {
      var n := |files| - 1;
      assert all[..|all| - 1] == [first] + files[..n];
      PolledSplits(first, files[..n], start, parse);
      PolledNext(files, Drained(first, start, parse).offset, parse);
    }
  }

  /** Where the file has grown to the overshot offset before it is polled again, nothing tells the tail
      that it overshot: it goes on as one that started at that offset, and the bytes between the old end
      and the offset are in none of the lines it hands on. */
  lemma GrowthPastTheOffsetIsSkipped<R>(first: seq<Byte>, files: seq<seq<Byte>>, start: nat, parse: Parser<R>)
    requires start <= |first| && Overshoots(first, start) && files != []
    requires Growing(files, Drained(first, start, parse).offset) && first <= files[0]
    ensures var offset := Drained(first, start, parse).offset;
            var ended := Decode(Ended(files[|files| - 1][offset..]));
            var polled := Polled([first] + files, start, parse);
            && offset > |first|
            && polled.rows == RowsIn(Decode(Ended(first[start..])), [], parse) + Polled(files, offset, parse).rows
            && (NothingShort(ended) ==>
                  polled.rows == RowsIn(Decode(Ended(first[start..])), [], parse) + RowsIn(ended, [], parse))
  {
    hide Decode, Ended, RowsIn, ByteLength, NothingShort, Polled;
    PolledSplits(first, files, start, parse);
    TailIsExact(files, Drained(first, start, parse).offset, parse);
  }

  /** So a line as long as the overshoot is lost, whatever it says. */
  lemma LineInTheOvershootIsLost<R>(first: seq<Byte>, line: seq<Byte>, start: nat, parse: Parser<R>)
    requires start <= |first| && Overshoots(first, start)
    requires |first| + |line| == Drained(first, start, parse).offset
    ensures Polled([first, first + line], start, parse)
         == Poll(RowsIn(Decode(Ended(first[start..])), [], parse), |first| + |line|)
  {
    hide Decode, Ended, RowsIn, ByteLength, Drained;
    var offset := Drained(first, start, parse).offset;
    PolledSplits(first, [first + line], start, parse);
    PolledNext([first + line], offset, parse);
    assert [first + line][..0] == [];
    NothingNew(first + line, offset, parse);
    assert [first] + [first + line] == [first, first + line];
    assert Drained(first, start, parse).rows == RowsIn(Decode(Ended(first[start..])), [], parse) by {
      DrainedRows(first, start, parse);
    }
  }

  lemma DrainedRows<R>(file: seq<Byte>, start: nat, parse: Parser<R>)
    requires start <= |file|
    ensures Drained(file, start, parse).rows == RowsIn(Decode(Ended(file[start..])), [], parse)
  {}

  lemma PollAfterOvershoot<R>(file: seq<Byte>, offset: nat, parse: Parser<R>)
    requires offset > |file|
    ensures Drained(file, offset, parse)
         == Poll(RowsIn(Decode(Ended(file)), [], parse), ByteLength(Decode(Ended(file))))
    ensures ByteLength(Decode(Ended(file))) > |file| <==> Overshoots(file, 0)
  {
    assert file[0..] == file;
    hide Decode, Ended, RowsIn, ByteLength;
  }

  /** Read from the first byte to where its measure ends, a file has no line left that has ended. */
  lemma PollWithNothingLeft<R>(file: seq<Byte>, parse: Parser<R>)
    requires !Overshoots(file, 0)
    ensures var offset := ByteLength(Decode(Ended(file)));
            Drained(file, offset, parse) == Poll([], offset)
  {
    var offset := ByteLength(Decode(Ended(file)));
    assert file[0..] == file;
    Measured(Ended(file));
    hide Decode, ByteLength;
    NothingEndsAfter(file, offset);
    DecodeNothing();
    hide Ended;
    assert ByteLength([]) == 0 && RowsIn([], [], parse) == [] by { NothingIn(parse); }
  }

  lemma NothingIn<R>(parse: Parser<R>)
    ensures ByteLength([]) == 0 && RowsIn([], [], parse) == []
  {}

  lemma NothingEndsAfter(file: seq<Byte>, offset: nat)
    requires CutOf(file) <= offset <= |file|
    ensures Ended(file[offset..]) == []
  {
    hide CutOf, Ended;
    var after, k := file[CutOf(file)..], offset - CutOf(file);
    TailOfTail(file, CutOf(file), offset);
    NoneEnds(after, k);
  }

  lemma TailOfTail(s: seq<Byte>, a: nat, b: nat)
    requires a <= b <= |s|
    ensures s[b..] == s[a..][b - a..]
  {}

  lemma NoneEnds(bytes: seq<Byte>, k: nat)
    requires NEWLINE !in bytes && k <= |bytes|
    ensures Ended(bytes[k..]) == []
  {
    var rest := bytes[k..];
    assert forall i :: 0 <= i < |rest| ==> rest[i] == bytes[k + i] && bytes[k + i] in bytes;
    hide CutOf;
  }

  // ---------------------------------------------------------------- every file of the directory

  /** Where a file's tail stands: a file seen for the first time starts at its end. */
  function OffsetOf(states: map<string, nat>, file: string, contents: seq<Byte>): nat {
    if file in states then states[file] else |contents|
  }

  /** These of the files have been polled, and the others have not been touched. */
  ghost predicate Ticked<R>(before: map<string, nat>, files: map<string, seq<Byte>>, states: map<string, nat>,
                            rows: map<string, seq<R>>, parse: Parser<R>)
  {
    && rows.Keys <= files.Keys && states.Keys == before.Keys + rows.Keys
    && (forall f :: f in rows ==> Polls(before, files, f, parse, rows[f], states[f]))
    && (forall f :: f in before && f !in rows ==> states[f] == before[f])
  }

  /** One file's poll, from where its tail stood before. */
  ghost predicate Polls<R>(before: map<string, nat>, files: map<string, seq<Byte>>, file: string, parse: Parser<R>,
                           rows: seq<R>, offset: nat)
  {
    file in files && Poll(rows, offset) == Drained(files[file], OffsetOf(before, file, files[file]), parse)
  }

  lemma TickOne<R>(before: map<string, nat>, files: map<string, seq<Byte>>, states: map<string, nat>,
                   rows: map<string, seq<R>>, parse: Parser<R>, file: string, printed: seq<R>, next: nat)
    requires Ticked(before, files, states, rows, parse) && file in files && file !in rows
    requires Polls(before, files, file, parse, printed, next)
    ensures Ticked(before, files, states[file := next], rows[file := printed], parse)
  {
    hide Polls;
  }

  /** A file not yet polled stands where it stood before the tick. */
  lemma StandsWhereItStood<R>(before: map<string, nat>, files: map<string, seq<Byte>>, states: map<string, nat>,
                              rows: map<string, seq<R>>, parse: Parser<R>, file: string)
    requires Ticked(before, files, states, rows, parse) && file in files && file !in rows
    ensures OffsetOf(states, file, files[file]) == OffsetOf(before, file, files[file])
  {
    hide Polls;
  }

  lemma PollsIs<R>(before: map<string, nat>, files: map<string, seq<Byte>>, file: string, parse: Parser<R>,
                   rows: seq<R>, offset: nat)
    requires file in files
    requires Poll(rows, offset) == Drained(files[file], OffsetOf(before, file, files[file]), parse)
    ensures Polls(before, files, file, parse, rows, offset)
  {
    hide Drained, OffsetOf;
  }

  lemma TickNone<R>(states: map<string, nat>, files: map<string, seq<Byte>>, parse: Parser<R>)
    ensures Ticked(states, files, states, map[], parse)
  {}

  lemma TickedAll<R>(before: map<string, nat>, files: map<string, seq<Byte>>, states: map<string, nat>,
                     rows: map<string, seq<R>>, parse: Parser<R>)
    requires Ticked(before, files, states, rows, parse) && forall f :: f in files.Keys ==> f in rows
    ensures rows.Keys == files.Keys
  {}

  /** A file seen for the first time hands on none of its history. */
  lemma FirstSight<R>(before: map<string, nat>, files: map<string, seq<Byte>>, states: map<string, nat>,
                      rows: map<string, seq<R>>, parse: Parser<R>, file: string)
    requires Ticked(before, files, states, rows, parse) && file in rows && file !in before
    ensures file in files && rows[file] == [] && states[file] == |files[file]|
  {
    assert Polls(before, files, file, parse, rows[file], states[file]);
    hide Drained;
    NothingNew(files[file], |files[file]|, parse);
  }

  lemma FirstSights<R>(before: map<string, nat>, files: map<string, seq<Byte>>, states: map<string, nat>,
                       rows: map<string, seq<R>>, parse: Parser<R>)
    requires Ticked(before, files, states, rows, parse) && rows.Keys == files.Keys
    ensures forall f :: f in files && f !in before ==> rows[f] == [] && states[f] == |files[f]|
  {
    forall f | f in files && f !in before ensures f in rows && rows[f] == [] && states[f] == |files[f]| {
      assert f in rows.Keys;
      FirstSight(before, files, states, rows, parse, f);
    }
  }

  class Follow<!R> {
    var states: map<string, nat>

    constructor ()
      ensures states == map[]
    {
      states := map[];
    }

    /** One tick polls every file there is; a file that is gone keeps its place. */
    method Tick(files: map<string, seq<Byte>>, parse: Parser<R>) returns (rows: map<string, seq<R>>)
      requires parse([]) == None
      modifies this
      ensures rows.Keys == files.Keys && Ticked(old(states), files, states, rows, parse)
      ensures forall f :: f in files && f !in old(states) ==> rows[f] == [] && states[f] == |files[f]|
    {
      rows := map[];
      TickNone(states, files, parse);
      hide *;
      ghost var before := states;
      var left := files.Keys;
      while left != {}
        invariant left <= files.Keys
        invariant forall f :: f in left ==> f !in rows
        invariant forall f :: f in files.Keys && f !in left ==> f in rows
        invariant Ticked(before, files, states, rows, parse)
        decreases |left|
      {
        var file :| file in left;
        var offset := OffsetOf(states, file, files[file]);
        var printed, next := DrainFile(files[file], offset, parse);
        StandsWhereItStood(before, files, states, rows, parse, file);
        PollsIs(before, files, file, parse, printed, next);
        TickOne(before, files, states, rows, parse, file, printed, next);
        rows := rows[file := printed];
        states := states[file := next];
        left := left - {file};
      }
      TickedAll(before, files, states, rows, parse);
      FirstSights(before, files, states, rows, parse);
    }
  }
}
