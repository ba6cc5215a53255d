/** The live tail of a run's timeline (`apps/gateway/src/sse.ts`): what a page read returns, the
    drain as the source writes it, and the whole subscription as a step machine against an
    environment that appends rows, ends or deletes the run, and loses, repeats and reorders
    notices. */
module RunTail {
  import opened Options

  // ---------------------------------------------------------------- the log and its pages

  datatype Kind =
    | Started | AssistantMessage | Reasoning | ToolCall | ToolResult | Usage | Log | Error
    | Finished | Failed | Stopped

  datatype RunEvent = RunEvent(ordinal: nat, kind: Kind, body: string)

  const DRAIN_PAGE := 500

  predicate IsTerminal(event: RunEvent) {
    event.kind in {Failed, Finished, Stopped}
  }

  /** A cursor is absent until something has been read from the beginning. */
  type Cursor = Option<int>

  predicate Past(cursor: Cursor, ordinal: int) {
    cursor.None? || ordinal > cursor.value
  }

  /** The rows of one run as they become visible: ordinals grow, and a terminus is the last. */
  ghost predicate Timeline(log: seq<RunEvent>) {
    (forall i, j :: 0 <= i < j < |log| ==> log[i].ordinal < log[j].ordinal) &&
    (forall i :: 0 <= i < |log| - 1 ==> !IsTerminal(log[i]))
  }

  /** The rows a query after the cursor selects. */
  function After(log: seq<RunEvent>, cursor: Cursor): (rows: seq<RunEvent>)
    ensures |rows| <= |log|
  {
    if log == [] then []
    else
      var rest := After(log[1..], cursor);
      if Past(cursor, log[0].ordinal) then [log[0]] + rest else rest
  }

  /** What `listByRun` answers: the first rows after the cursor, up to the limit. */
  function PageOf(log: seq<RunEvent>, cursor: Cursor): (page: seq<RunEvent>)
    ensures |page| <= DRAIN_PAGE
  {
    var rows := After(log, cursor);
    if |rows| <= DRAIN_PAGE then rows else rows[..DRAIN_PAGE]
  }

  function CursorAfter(cursor: Cursor, page: seq<RunEvent>): Cursor {
    if page == [] then cursor else Some(page[|page| - 1].ordinal)
  }

  /** The rows a cursor has moved over since it stood at `from`. */
  function Covered(log: seq<RunEvent>, from: Cursor, to: Cursor): seq<RunEvent> {
    if log == [] then []
    else
      var rest := Covered(log[1..], from, to);
      if Past(from, log[0].ordinal) && !Past(to, log[0].ordinal) then [log[0]] + rest else rest
  }

  // The rows after a cursor are a suffix of the log, which is what lets pages be cut from it.

  function Seen(log: seq<RunEvent>, cursor: Cursor): (n: nat)
    ensures n <= |log|
  {
    |log| - |After(log, cursor)|
  }

  lemma TailIsTimeline(log: seq<RunEvent>)
    requires Timeline(log) && log != []
    ensures Timeline(log[1..])
  {}

  lemma {:induction false} AfterAll(log: seq<RunEvent>, cursor: Cursor)
    requires forall e :: e in log ==> Past(cursor, e.ordinal)
    ensures After(log, cursor) == log
  {
    if log != [] {
      AfterAll(log[1..], cursor);
      assert log == [log[0]] + log[1..];
    }
  }

  lemma {:induction false} AfterIsSuffix(log: seq<RunEvent>, cursor: Cursor)
    requires Timeline(log)
    ensures After(log, cursor) == log[Seen(log, cursor)..]
    ensures forall i :: 0 <= i < Seen(log, cursor) ==> !Past(cursor, log[i].ordinal)
    ensures forall i :: Seen(log, cursor) <= i < |log| ==> Past(cursor, log[i].ordinal)
  {
    if log != [] {
      TailIsTimeline(log);
      if Past(cursor, log[0].ordinal) {
        AfterAll(log, cursor);
        assert Seen(log, cursor) == 0;
      } else {
        AfterIsSuffix(log[1..], cursor);
        assert Seen(log, cursor) == 1 + Seen(log[1..], cursor);
      }
    }
  }

  lemma {:induction false} CoveredSplits(a: seq<RunEvent>, b: seq<RunEvent>, from: Cursor, to: Cursor)
    ensures Covered(a + b, from, to) == Covered(a, from, to) + Covered(b, from, to)
  {
    if a == [] {
      assert a + b == b;
    } else {
      assert (a + b)[1..] == a[1..] + b && (a + b)[0] == a[0];
      CoveredSplits(a[1..], b, from, to);
      var rest, last := Covered(a[1..], from, to), Covered(b, from, to);
      assert [a[0]] + (rest + last) == ([a[0]] + rest) + last;
    }
  }

  lemma {:induction false} AfterSplits(a: seq<RunEvent>, b: seq<RunEvent>, cursor: Cursor)
    ensures After(a + b, cursor) == After(a, cursor) + After(b, cursor)
  {
    if a == [] {
      assert a + b == b;
    } else {
      assert (a + b)[1..] == a[1..] + b && (a + b)[0] == a[0];
      AfterSplits(a[1..], b, cursor);
      var rest, last := After(a[1..], cursor), After(b, cursor);
      assert [a[0]] + (rest + last) == ([a[0]] + rest) + last;
    }
  }

  lemma {:induction false} CoveredIsAfter(log: seq<RunEvent>, from: Cursor, to: Cursor)
    requires forall e :: e in log ==> !Past(to, e.ordinal)
    ensures Covered(log, from, to) == After(log, from)
  {
    if log != [] {
      CoveredIsAfter(log[1..], from, to);
    }
  }

  lemma {:induction false} CoveredNone(log: seq<RunEvent>, from: Cursor, to: Cursor)
    requires forall e :: e in log ==> Past(to, e.ordinal)
    ensures Covered(log, from, to) == []
  {
    if log != [] {
      CoveredNone(log[1..], from, to);
    }
  }

  /** What is covered is what was after the start, up to where the cursor stands. */
  lemma CoveredIsPrefix(log: seq<RunEvent>, from: Cursor, to: Cursor)
    requires Timeline(log)
    ensures Covered(log, from, to) == After(log[..Seen(log, to)], from)
  {
    var n := Seen(log, to);
    AfterIsSuffix(log, to);
    assert log == log[..n] + log[n..];
    CoveredSplits(log[..n], log[n..], from, to);
    CoveredIsAfter(log[..n], from, to);
    CoveredNone(log[n..], from, to);
  }

  predicate NotBehind(from: Cursor, to: Cursor) {
    from.Some? ==> to.Some? && from.value <= to.value
  }

  lemma PageIsSlice(log: seq<RunEvent>, cursor: Cursor)
    requires Timeline(log)
    ensures var page := PageOf(log, cursor);
            var n := Seen(log, cursor);
            var next := CursorAfter(cursor, page);
            && |page| == (if |log| - n > 500 then 500 else |log| - n) && page == log[n..n + |page|]
            && NotBehind(cursor, next)
            && Seen(log, next) == n + |page|
  {
    hide After;
    AfterIsSuffix(log, cursor);
    var page := PageOf(log, cursor);
    var next := CursorAfter(cursor, page);
    AfterIsSuffix(log, next);
    if page != [] {
      var m := Seen(log, cursor) + |page|;
      assert page[|page| - 1] == log[m - 1];
      assert !Past(next, log[m - 1].ordinal) && (m < |log| ==> Past(next, log[m].ordinal));
      assert Past(cursor, log[m - 1].ordinal);
      assert Seen(log, next) == m;
    }
  }

  /** One page read moves the cursor over exactly the page. */
  lemma PageAdvances(log: seq<RunEvent>, from: Cursor, cursor: Cursor)
    requires Timeline(log) && NotBehind(from, cursor)
    ensures var page := PageOf(log, cursor);
            var next := CursorAfter(cursor, page);
            && NotBehind(cursor, next)
            && Covered(log, from, next) == Covered(log, from, cursor) + page
            && After(log, next) == After(log, cursor)[|page|..]
  {
    PageIsSlice(log, cursor);
    AfterIsSuffix(log, cursor);
    AfterIsSuffix(log, CursorAfter(cursor, PageOf(log, cursor)));
    CoveredIsPrefix(log, from, CursorAfter(cursor, PageOf(log, cursor)));
    CoveredIsPrefix(log, from, cursor);
    hide Covered, PageOf, After, CursorAfter, Timeline;
    var page := PageOf(log, cursor);
    var n := Seen(log, cursor);
    SliceIsAfter(log, from, n, n + |page|);
    assert log[n..][|page|..] == log[n + |page|..];
  }

  lemma SliceIsAfter(log: seq<RunEvent>, from: Cursor, n: nat, m: nat)
    requires n <= m <= |log|
    requires forall i :: n <= i < m ==> Past(from, log[i].ordinal)
    ensures After(log[..m], from) == After(log[..n], from) + log[n..m]
  {
    hide After;
    assert log[..m] == log[..n] + log[n..m];
    AfterSplits(log[..n], log[n..m], from);
    AfterAll(log[n..m], from);
  }

  // ---------------------------------------------------------------- the drain

  function Flat(batches: seq<seq<RunEvent>>): seq<RunEvent> {
    if batches == [] then [] else Flat(batches[..|batches| - 1]) + batches[|batches| - 1]
  }

  /** Whether a drain over a still log closes the stream: on a terminus it reads, or, when the last
      page it reads is empty, on the run being over. */
  predicate Closes(rows: seq<RunEvent>, ended: bool) {
    EndsTerminal(rows) || (|rows| % DRAIN_PAGE == 0 && ended)
  }

  lemma OnlyLastIsTerminal(log: seq<RunEvent>, cursor: Cursor, n: nat)
    requires Timeline(log)
    requires n < |After(log, cursor)| && IsTerminal(After(log, cursor)[n])
    ensures n == |After(log, cursor)| - 1
  {
    AfterIsSuffix(log, cursor);
  }

  /** Whether a turn of the paginate loop closes the stream: on a page, what its last row is; on no page,
      what `hasEnded` answers. */
  predicate TurnCloses(page: seq<RunEvent>, ended: bool) {
    if page == [] then ended else IsTerminal(page[|page| - 1])
  }

  /** Whether another page is read in the same drain. */
  predicate TurnGoesOn(page: seq<RunEvent>, ended: bool) {
    !TurnCloses(page, ended) && |page| == DRAIN_PAGE
  }

  /** One subscriber: the `cursor` ref and the reads that move it. */
  class Subscriber {
    var cursor: Cursor

    constructor (afterSeq: Cursor)
      ensures cursor == afterSeq
    {
      cursor := afterSeq;
    }

    /** One turn of the paginate loop, with what `hasEnded` answers if it is asked. */
    method NextPage(log: seq<RunEvent>, ended: bool) returns (batch: seq<RunEvent>, closed: bool, more: bool)
      modifies this
      ensures batch == PageOf(log, old(cursor)) && cursor == CursorAfter(old(cursor), batch)
      ensures closed == TurnCloses(batch, ended) && more == TurnGoesOn(batch, ended)
    {
      batch := PageOf(log, cursor);
      if batch != [] {
        cursor := Some(batch[|batch| - 1].ordinal);
      }
      closed := if batch == [] then ended else IsTerminal(batch[|batch| - 1]);
      more := !closed && |batch| == DRAIN_PAGE;
    }

    /** `pagesAfter` over a log nothing is appended to meanwhile: every row after the cursor, once,
        in order, in pages, and the cursor past them all. */
    method PagesAfter(log: seq<RunEvent>, ended: bool) returns (batches: seq<seq<RunEvent>>, closed: bool)
      requires Timeline(log)
      modifies this
      ensures Flat(batches) == After(log, old(cursor))
      ensures forall b :: b in batches ==> |b| <= DRAIN_PAGE
      ensures After(log, cursor) == [] && NotBehind(old(cursor), cursor)
      ensures closed <==> Closes(After(log, old(cursor)), ended)
    {
      hide *;
      batches, closed := [], false;
      var more := true;
      DrainStarts(log, cursor, ended);
      while more
        invariant DrainState(log, old(cursor), cursor, Flat(batches), more, closed, ended)
        invariant more ==> !closed
        invariant forall b :: b in batches ==> |b| <= DRAIN_PAGE
        decreases |After(log, cursor)| + if more then 1 else 0
      {
        DrainTurn(log, old(cursor), cursor, Flat(batches), ended);
        FlatGrows(batches, PageOf(log, cursor));
        OpenIfItGoesOn(PageOf(log, cursor), ended);
        var batch;
        batch, closed, more := NextPage(log, ended);
        batches := batches + [batch];
      }
      DrainEnds(log, old(cursor), cursor, Flat(batches), closed, ended);
    }
  }

  lemma OpenIfItGoesOn(page: seq<RunEvent>, ended: bool)
    ensures TurnGoesOn(page, ended) ==> !TurnCloses(page, ended)
  {}

  lemma FlatGrows(batches: seq<seq<RunEvent>>, batch: seq<RunEvent>)
    ensures Flat(batches + [batch]) == Flat(batches) + batch
  {
    assert (batches + [batch])[..|batches|] == batches;
  }

  predicate EndsTerminal(rows: seq<RunEvent>) {
    rows != [] && IsTerminal(rows[|rows| - 1])
  }

  /** Between two turns of the loop: what was handed out and what is left make up the rows there
      were, only whole pages have been handed out while there is more, and no terminus among them. */
  ghost predicate DrainState(log: seq<RunEvent>, start: Cursor, cursor: Cursor, flat: seq<RunEvent>,
                             more: bool, closed: bool, ended: bool)
  {
    && flat + After(log, cursor) == After(log, start)
    && NotBehind(start, cursor)
    && (more ==> |flat| % DRAIN_PAGE == 0 && !closed && !EndsTerminal(flat))
    && (!more ==> After(log, cursor) == [] && (closed <==> Closes(After(log, start), ended)))
  }

  lemma DrainStarts(log: seq<RunEvent>, cursor: Cursor, ended: bool)
    ensures DrainState(log, cursor, cursor, [], true, false, ended) && Flat([]) == []
  {}

  lemma DrainEnds(log: seq<RunEvent>, start: Cursor, cursor: Cursor, flat: seq<RunEvent>, closed: bool, ended: bool)
    requires DrainState(log, start, cursor, flat, false, closed, ended)
    ensures flat == After(log, start) && After(log, cursor) == [] && NotBehind(start, cursor)
    ensures closed <==> Closes(After(log, start), ended)
  {}

  /** One turn keeps the drain's state, and what is unread shrinks unless the drain is over. */
  lemma DrainTurn(log: seq<RunEvent>, start: Cursor, cursor: Cursor, flat: seq<RunEvent>, ended: bool)
    requires Timeline(log) && DrainState(log, start, cursor, flat, true, false, ended)
    ensures var batch := PageOf(log, cursor);
            var next := CursorAfter(cursor, batch);
            var closed, more := TurnCloses(batch, ended), TurnGoesOn(batch, ended);
            && |batch| <= DRAIN_PAGE
            && DrainState(log, start, next, flat + batch, more, closed, ended)
            && |After(log, next)| + (if more then 1 else 0) < |After(log, cursor)| + 1
  {
    PageCuts(log, cursor);
    hide After, PageOf, CursorAfter, IsTerminal, Closes;
    var batch := PageOf(log, cursor);
    var rest := After(log, CursorAfter(cursor, batch));
    assert flat + (batch + rest) == (flat + batch) + rest;
    if batch != [] {
      LastOfPage(After(log, start), flat, batch, rest, log, start);
    }
    TurnDecides(flat, batch, rest, ended);
  }

  lemma TurnDecides(flat: seq<RunEvent>, batch: seq<RunEvent>, rest: seq<RunEvent>, ended: bool)
    requires |flat| % DRAIN_PAGE == 0 && !EndsTerminal(flat) && |batch| <= DRAIN_PAGE
    requires EndsTerminal(batch) || |batch| < DRAIN_PAGE ==> rest == []
    ensures var closed, more := TurnCloses(batch, ended), TurnGoesOn(batch, ended);
            && (more ==> |flat + batch| % DRAIN_PAGE == 0 && !EndsTerminal(flat + batch))
            && (!more ==> rest == [] && (closed <==> Closes(flat + batch + rest, ended)))
  {
    hide IsTerminal;
    if batch == [] {
      assert flat + batch + rest == flat;
    } else {
      WholePages(|flat|, |batch|);
      assert (flat + batch)[|flat + batch| - 1] == batch[|batch| - 1];
      assert rest == [] ==> flat + batch + rest == flat + batch;
    }
  }

  lemma WholePages(done: nat, page: nat)
    requires done % DRAIN_PAGE == 0 && 0 < page <= DRAIN_PAGE
    ensures (done + page) % DRAIN_PAGE == 0 <==> page == DRAIN_PAGE
  {}

  lemma PageCuts(log: seq<RunEvent>, cursor: Cursor)
    requires Timeline(log)
    ensures var batch := PageOf(log, cursor);
            var next := CursorAfter(cursor, batch);
            && After(log, cursor) == batch + After(log, next)
            && NotBehind(cursor, next)
            && |batch| <= DRAIN_PAGE
            && (|batch| < DRAIN_PAGE ==> After(log, next) == [])
  {
    PageAdvances(log, cursor, cursor);
    PageIsHead(log, cursor);
    hide After, PageOf, CursorAfter, Covered;
  }

  lemma PageIsHead(log: seq<RunEvent>, cursor: Cursor)
    ensures var rows := After(log, cursor);
            PageOf(log, cursor) == if |rows| <= DRAIN_PAGE then rows else rows[..DRAIN_PAGE]
  {}

  lemma LastOfPage(rows: seq<RunEvent>, done: seq<RunEvent>, batch: seq<RunEvent>, rest: seq<RunEvent>,
                   log: seq<RunEvent>, cursor: Cursor)
    requires Timeline(log) && rows == After(log, cursor)
    requires rows == done + (batch + rest) && batch != []
    ensures IsTerminal(batch[|batch| - 1]) ==> rest == []
    ensures rest == [] ==> rows[|rows| - 1] == batch[|batch| - 1]
  {
    hide After;
    var n := |done| + |batch| - 1;
    assert rows[n] == batch[|batch| - 1];
    if IsTerminal(batch[|batch| - 1]) {
      OnlyLastIsTerminal(log, cursor, n);
    }
  }
}
