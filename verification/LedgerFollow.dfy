/** `follow` over whole runs of ticks, and over ledgers that are UTF-8 (`scripts/logs.ts`). */
module LedgerFollow {
  import opened Utf8
  import opened Utf8Encoding
  import opened LedgerTail

  // ---------------------------------------------------------------- text that was encoded

  /** Encoded text is never short, and measures just its bytes. */
  lemma EncodedIsNotShort(cs: seq<Scalar>)
    ensures NothingShort(Decode(EncodeAll(cs))) && ByteLength(Decode(EncodeAll(cs))) == |EncodeAll(cs)|
  {
    DecodeUndoesEncode(cs);
    Measured(EncodeAll(cs));
  }

  /** The rows of a ledger written in UTF-8, followed from the end of any character, are handed on whole, once
      and in order, whatever its last line has of a character yet, and the tail is always in step. */
  lemma EncodedTailIsExact<R>(files: seq<seq<Byte>>, before: seq<Scalar>, cs: seq<Scalar>, torn: seq<Byte>,
                              parse: Parser<R>)
    requires files != [] && Growing(files, |EncodeAll(before)|)
    requires files[|files| - 1] == EncodeAll(before + cs) + torn && NEWLINE !in torn
    ensures AlwaysInStep(files, |EncodeAll(before)|, parse)
    ensures Polled(files, |EncodeAll(before)|, parse).rows == RowsIn(Decode(Ended(EncodeAll(cs))), [], parse)
  {
    hide *;
    var start := |EncodeAll(before)|;
    EncodeBoth(before, cs);
    BehindTheFirst(EncodeAll(before), EncodeAll(cs), torn);
    TornAddsNothing(EncodeAll(cs), torn);
    EncodedIsNotShort(cs);
    EndedIsNotShort(EncodeAll(cs));
    TailIsExact(files, start, parse);
  }

  lemma BehindTheFirst(first: seq<Byte>, second: seq<Byte>, third: seq<Byte>)
    ensures (first + second + third)[|first|..] == second + third
  {}

  lemma {:induction false} TornAddsNothing(bytes: seq<Byte>, torn: seq<Byte>)
    requires NEWLINE !in torn
    ensures Ended(bytes + torn) == Ended(bytes)
    decreases |torn|
  {
    if torn == [] {
      assert bytes + torn == bytes;
    } else {
      var front, whole := torn[..|torn| - 1], bytes + torn;
      assert whole[..|whole| - 1] == bytes + front && whole[|whole| - 1] == torn[|torn| - 1];
      TornAddsNothing(bytes, front);
      OneMoreNotEnded(whole);
    }
  }

  lemma OneMoreNotEnded(bytes: seq<Byte>)
    requires bytes != [] && bytes[|bytes| - 1] != NEWLINE
    ensures Ended(bytes) == Ended(bytes[..|bytes| - 1])
  {
    assert bytes[..|bytes| - 1][..CutOf(bytes[..|bytes| - 1])] == bytes[..CutOf(bytes[..|bytes| - 1])];
  }

  /** Where nothing is short, nothing of the lines that have ended is. */
  lemma EndedIsNotShort(bytes: seq<Byte>)
    requires NothingShort(Decode(bytes))
    ensures NothingShort(Decode(Ended(bytes)))
  {
    hide Decode;
    var ended, rest := Ended(bytes), bytes[|Ended(bytes)|..];
    assert bytes == ended + rest;
    LinesSplit(ended, rest);
    hide CutOf;
    assert forall p :: p in Decode(ended) ==> p in Decode(bytes);
  }

  // ---------------------------------------------------------------- runs of ticks

  /** What a run of ticks leaves and hands on, tick by tick. */
  ghost predicate TickedRun<R>(states: seq<map<string, nat>>, files: seq<map<string, seq<Byte>>>,
                               rows: seq<map<string, seq<R>>>, parse: Parser<R>)
  {
    && |states| == |files| + 1 && |rows| == |files|
    && forall k :: 0 <= k < |files| ==>
         rows[k].Keys == files[k].Keys && Ticked(states[k], files[k], states[k + 1], rows[k], parse)
  }

  function ContentsOf(files: seq<map<string, seq<Byte>>>, file: string): (r: seq<seq<Byte>>)
    requires forall k :: 0 <= k < |files| ==> file in files[k]
    ensures |r| == |files| && forall k :: 0 <= k < |files| ==> r[k] == files[k][file]
  {
    seq(|files|, k requires 0 <= k < |files| => files[k][file])
  }

  function HandedOn<R>(rows: seq<map<string, seq<R>>>, file: string): seq<R>
    requires forall k :: 0 <= k < |rows| ==> file in rows[k]
  {
    if rows == [] then [] else HandedOn(rows[..|rows| - 1], file) + rows[|rows| - 1][file]
  }

  /** Over any ticks, a file that was not known at the first is polled as one tail from the end it had then. */
  lemma {:induction false} FollowIsATail<R>(
      states: seq<map<string, nat>>, files: seq<map<string, seq<Byte>>>, rows: seq<map<string, seq<R>>>,
      parse: Parser<R>, file: string)
    requires TickedRun(states, files, rows, parse) && files != [] && file !in states[0]
    requires forall k :: 0 <= k < |files| ==> file in files[k]
    ensures file in states[|files|]
    ensures Poll(HandedOn(rows, file), states[|files|][file])
         == Polled(ContentsOf(files, file), |files[0][file]|, parse)
    decreases |files|
  {
    var n := |files| - 1;
    var contents, start := ContentsOf(files, file), |files[0][file]|;
    assert contents[..n] == ContentsOf(files[..n], file);
    hide *;
    EarlierTicks(states, files, rows, parse);
    PolledNext(contents, start, parse);
    HandedOnNext(rows, file);
    if n == 0 {
      PolledNone(start, parse);
      HandedOnNone<R>(file);
      assert rows[..0] == [] && contents[..0] == [];
      LastTick(states, files, rows, parse, file, start);
    } else {
      FollowIsATail(states[..n + 1], files[..n], rows[..n], parse, file);
      LastTick(states, files, rows, parse, file, states[n][file]);
    }
  }

  lemma EarlierTicks<R>(states: seq<map<string, nat>>, files: seq<map<string, seq<Byte>>>,
                        rows: seq<map<string, seq<R>>>, parse: Parser<R>)
    requires TickedRun(states, files, rows, parse) && files != []
    ensures |states| == |files| + 1 && |rows| == |files|
    ensures TickedRun(states[..|files|], files[..|files| - 1], rows[..|files| - 1], parse)
    ensures forall k :: 0 <= k < |files| ==> rows[k].Keys == files[k].Keys
  {
    hide Ticked;
  }

  lemma LastTick<R>(states: seq<map<string, nat>>, files: seq<map<string, seq<Byte>>>,
                    rows: seq<map<string, seq<R>>>, parse: Parser<R>, file: string, offset: nat)
    requires TickedRun(states, files, rows, parse) && files != [] && file in files[|files| - 1]
    requires offset == OffsetOf(states[|files| - 1], file, files[|files| - 1][file])
    ensures file in rows[|files| - 1] && file in states[|files|]
    ensures Poll(rows[|files| - 1][file], states[|files|][file]) == Drained(files[|files| - 1][file], offset, parse)
  {
    var n := |files| - 1;
    assert rows[n].Keys == files[n].Keys && Ticked(states[n], files[n], states[n + 1], rows[n], parse);
    assert file in rows[n].Keys && file in states[n + 1].Keys;
    hide Drained, OffsetOf, TickedRun;
    assert Polls(states[n], files[n], file, parse, rows[n][file], states[n + 1][file]);
  }

  lemma HandedOnNext<R>(rows: seq<map<string, seq<R>>>, file: string)
    requires rows != [] && forall k :: 0 <= k < |rows| ==> file in rows[k]
    ensures HandedOn(rows, file) == HandedOn(rows[..|rows| - 1], file) + rows[|rows| - 1][file]
  {}

  lemma PolledNone<R>(start: nat, parse: Parser<R>)
    ensures Polled([], start, parse) == Poll([], start)
  {}

  lemma HandedOnNone<R>(file: string)
    ensures HandedOn<R>([], file) == []
  {}

  /** So `follow` hands on none of a file's history, and of what is appended to it each ended line once. */
  lemma FollowHandsOnWhatIsAppended<R>(
      states: seq<map<string, nat>>, files: seq<map<string, seq<Byte>>>, rows: seq<map<string, seq<R>>>,
      parse: Parser<R>, file: string)
    requires TickedRun(states, files, rows, parse) && files != [] && file !in states[0]
    requires forall k :: 0 <= k < |files| ==> file in files[k]
    requires forall k :: 0 < k < |files| ==> files[k - 1][file] <= files[k][file]
    ensures rows[0][file] == []
    ensures |files[0][file]| <= |files[|files| - 1][file]|
    ensures var appended := Decode(Ended(files[|files| - 1][file][|files[0][file]|..]));
            NothingShort(appended) ==> HandedOn(rows, file) == RowsIn(appended, [], parse)
  {
    hide *;
    var contents := ContentsOf(files, file);
    ContentsGrow(files, file);
    FirstTick(states, files, rows, parse, file);
    FollowIsATail(states, files, rows, parse, file);
    TailIsExact(contents, |files[0][file]|, parse);
  }

  lemma FirstTick<R>(states: seq<map<string, nat>>, files: seq<map<string, seq<Byte>>>,
                     rows: seq<map<string, seq<R>>>, parse: Parser<R>, file: string)
    requires TickedRun(states, files, rows, parse) && files != [] && file in files[0] && file !in states[0]
    ensures file in rows[0] && rows[0][file] == []
  {
    assert rows[0].Keys == files[0].Keys && Ticked(states[0], files[0], states[1], rows[0], parse);
    hide TickedRun, Ticked;
    assert file in rows[0].Keys;
    FirstSight(states[0], files[0], states[1], rows[0], parse, file);
  }

  lemma ContentsGrow(files: seq<map<string, seq<Byte>>>, file: string)
    requires files != [] && forall k :: 0 <= k < |files| ==> file in files[k]
    requires forall k :: 0 < k < |files| ==> files[k - 1][file] <= files[k][file]
    ensures var contents := ContentsOf(files, file);
            && Growing(contents, |files[0][file]|)
            && |files[0][file]| <= |files[|files| - 1][file]|
            && contents[0] == files[0][file] && contents[|contents| - 1] == files[|files| - 1][file]
  {
    hide Growing;
    GrowsFromTheFirst(ContentsOf(files, file));
  }

  lemma {:induction false} GrowsFromTheFirst(contents: seq<seq<Byte>>)
    requires contents != [] && forall k :: 0 < k < |contents| ==> contents[k - 1] <= contents[k]
    ensures Growing(contents, |contents[0]|) && |contents[0]| <= |contents[|contents| - 1]|
    decreases |contents|
  {
    var n := |contents| - 1;
    if n > 0 {
      GrowsFromTheFirst(contents[..n]);
      assert forall k :: 0 <= k < n ==> contents[..n][k] == contents[k];
      assert contents[..n][n - 1] == contents[n - 1] && contents[n - 1] <= contents[n];
    }
  }
}
