/** One subscription to a run's timeline as a step machine (`liveEvents` in
    `apps/gateway/src/sse.ts`): any interleaving of rows becoming visible, status changes, a
    deletion, notices for this run or another, ticks, and the consumer's own steps. A lost notice is
    a `Notify` that does not occur, a duplicated one occurs twice. */
module RunTailMachine {
  import opened Options
  import opened RunTail

  datatype Subscription = Subscription(afterSeq: Cursor, runId: string, taskId: string, workspaceId: string)

  datatype Notice = Notice(runId: string, taskId: string, workspaceId: string)

  predicate IsMine(sub: Subscription, notice: Notice) {
    notice.runId == sub.runId && notice.taskId == sub.taskId && notice.workspaceId == sub.workspaceId
  }

  datatype RunStatus = Queued | Running | RunFinished | RunFailed | Interrupted

  /** `hasEnded`: a run that is not live, or whose row is gone, is over. */
  predicate HasEnded(row: Option<RunStatus>) {
    row.None? || row.value !in {Queued, Running}
  }

  /** Where the one consumer stands. `Emitting` is a batch read and not yet handed on. */
  datatype Phase =
    | Waiting
    | Reading
    | Checking
    | Emitting(batch: seq<RunEvent>, closing: bool, more: bool)
    | Closed

  /** The world of one subscriber. `log` holds every row that ever became visible; a deleted run's
      rows are deleted with it, so reads then find none. `owed` and `seen` are history: how many
      rows were visible at the last wake-up delivered, and which at the last page read. */
  datatype State = State(
    log: seq<RunEvent>, row: Option<RunStatus>, slot: bool, cursor: Cursor, phase: Phase,
    emitted: seq<RunEvent>, owed: nat, seen: seq<RunEvent>)

  datatype Step =
    | Append(event: RunEvent)
    | SetStatus(status: RunStatus)
    | DeleteRun
    | Notify(notice: Notice)
    | Tick
    | Wake
    | ReadPage
    | CheckRun
    | Emit

  function Visible(s: State): seq<RunEvent> {
    if s.row.None? then [] else s.log
  }

  /** The tick emits once at once, so the slot starts full. */
  ghost predicate Initial(sub: Subscription, s: State) {
    && Timeline(s.log)
    && s == State(s.log, s.row, true, sub.afterSeq, Waiting, [], |Visible(s)|, [])
  }

  ghost predicate Enabled(s: State, step: Step) {
    match step
    case Append(event) => s.row.Some? && Timeline(s.log + [event])
    case SetStatus(_) => s.row.Some?
    case DeleteRun => s.row.Some?
    case Notify(_) => true
    case Tick => true
    case Wake => s.phase.Waiting? && s.slot
    case ReadPage => s.phase.Reading?
    case CheckRun => s.phase.Checking?
    case Emit => s.phase.Emitting?
  }

  /** The sliding slot keeps the newest nudge, and every nudge says the same thing. */
  function Woken(s: State): State {
    s.(slot := true, owed := if s.row.Some? then |s.log| else s.owed)
  }

  function AfterRead(s: State): State {
    var page := PageOf(Visible(s), s.cursor);
    s.(cursor := CursorAfter(s.cursor, page), seen := Visible(s),
       phase := if page == [] then Checking else Turned(page, false))
  }

  /** A turn decided; what `hasEnded` answers counts for an empty page only. */
  function Turned(page: seq<RunEvent>, ended: bool): Phase {
    Emitting(page, TurnCloses(page, ended), TurnGoesOn(page, ended))
  }

  function AfterEmit(s: State): State
    requires s.phase.Emitting?
  {
    s.(emitted := s.emitted + s.phase.batch,
       phase := if s.phase.closing then Closed else if s.phase.more then Reading else Waiting)
  }

  function Apply(sub: Subscription, s: State, step: Step): State
    requires step.Emit? ==> s.phase.Emitting?
  {
    match step
    case Append(event) => s.(log := s.log + [event])
    case SetStatus(status) => s.(row := Some(status))
    case DeleteRun => s.(row := None)
    case Notify(notice) => if IsMine(sub, notice) then Woken(s) else s
    case Tick => Woken(s)
    case Wake => s.(slot := false, phase := Reading)
    case ReadPage => AfterRead(s)
    case CheckRun => s.(phase := Turned([], HasEnded(s.row)))
    case Emit => AfterEmit(s)
  }

  /** `s` is reached from `start` by these steps, each enabled where it is taken. */
  ghost predicate Reaches(sub: Subscription, start: State, steps: seq<Step>, s: State)
    decreases |steps|
  {
    if steps == [] then s == start
    else Enabled(start, steps[0]) && Reaches(sub, Apply(sub, start, steps[0]), steps[1..], s)
  }

  /** What the read and the look at the run do between them is one turn of the paginate loop, as
      `Subscriber.NextPage` takes it. */
  lemma ReadAndCheckAreATurn(sub: Subscription, s: State)
    requires s.row.Some? && s.phase.Reading?
    ensures var read := AfterRead(s);
            var t := if read.phase.Checking? then Apply(sub, read, CheckRun) else read;
            var page := PageOf(s.log, s.cursor);
            var ended := s.row.value !in {Queued, Running};
            && t.cursor == CursorAfter(s.cursor, page)
            && t.phase == Emitting(page, TurnCloses(page, ended), TurnGoesOn(page, ended))
  {
    hide PageOf;
  }

  // ---------------------------------------------------------------- what every step keeps

  function InHand(phase: Phase): seq<RunEvent> {
    if phase.Emitting? then phase.batch else []
  }

  /** The cursor is where the client put it, or on a row that has been read. */
  ghost predicate CursorSound(sub: Subscription, s: State) {
    && Timeline(s.log)
    && NotBehind(sub.afterSeq, s.cursor)
    && (s.cursor == sub.afterSeq
        || (s.log != [] && s.cursor.Some? && s.cursor.value <= s.log[|s.log| - 1].ordinal))
  }

  /** Emitted and in hand together: the rows the cursor has passed, in order, once. */
  ghost predicate Delivered(sub: Subscription, s: State) {
    s.emitted + InHand(s.phase) == Covered(s.log, sub.afterSeq, s.cursor)
  }

  predicate ReadAhead(s: State) {
    s.slot || s.phase.Reading? || (s.phase.Emitting? && s.phase.more)
  }

  predicate AboutToClose(s: State) {
    s.phase.Closed? || (s.phase.Emitting? && s.phase.closing) || (s.phase.Checking? && s.row.None?)
  }

  /** What was visible at the last wake-up is covered, or a page read is still to come. */
  ghost predicate WakeUpKept(s: State) {
    s.owed <= |s.log| && (After(s.log[..s.owed], s.cursor) == [] || ReadAhead(s) || AboutToClose(s))
  }

  /** A stream that is checking the run or closing has read everything its last read could see, and
      one closing on a terminus has read the whole log. */
  ghost predicate ClosingSound(s: State) {
    && s.seen <= s.log
    && (s.phase.Checking? || AboutToClose(s) ==> After(s.seen, s.cursor) == [])
    && (s.phase.Emitting? && s.phase.closing && s.phase.batch != [] ==>
          EndsTerminal(s.log) && After(s.log, s.cursor) == [])
    && (s.phase.Emitting? && s.phase.more ==> !s.phase.closing)
  }

  /** Once a terminus is emitted or in hand, the stream is closing. */
  ghost predicate TerminusCloses(s: State) {
    EndsTerminal(s.emitted + InHand(s.phase)) ==> s.phase.Closed? || (s.phase.Emitting? && s.phase.closing)
  }

  ghost predicate Sound(sub: Subscription, s: State) {
    CursorSound(sub, s) && Delivered(sub, s) && WakeUpKept(s) && ClosingSound(s) && TerminusCloses(s)
  }

  lemma InitialIsSound(sub: Subscription, s: State)
    requires Initial(sub, s)
    ensures Sound(sub, s)
  {
    CoveredNothing(s.log, sub.afterSeq);
  }

  lemma {:induction false} CoveredNothing(log: seq<RunEvent>, cursor: Cursor)
    ensures Covered(log, cursor, cursor) == []
  {
    if log != [] {
      CoveredNothing(log[1..], cursor);
    }
  }

  /** A row that becomes visible is past every cursor, and past nothing already read. */
  lemma AppendKeeps(sub: Subscription, s: State, event: RunEvent)
    requires Sound(sub, s) && Enabled(s, Append(event))
    ensures Sound(sub, Apply(sub, s, Append(event)))
  {
    var t := s.(log := s.log + [event]);
    CoveredSplits(s.log, [event], sub.afterSeq, s.cursor);
    assert t.log[|s.log|] == event;
    if s.log != [] {
      assert t.log[|s.log| - 1].ordinal < t.log[|s.log|].ordinal && !IsTerminal(t.log[|s.log| - 1]);
    }
    assert Covered([event], sub.afterSeq, s.cursor) == [] by {
      assert Covered([], sub.afterSeq, s.cursor) == [];
    }
    assert t.log[..s.owed] == s.log[..s.owed];
  }

  lemma ReadKeepsDelivery(sub: Subscription, s: State)
    requires Sound(sub, s) && s.phase.Reading?
    ensures CursorSound(sub, AfterRead(s)) && Delivered(sub, AfterRead(s))
  {
    hide WakeUpKept, ClosingSound, Covered, After, Timeline, IsTerminal;
    assert s.emitted + [] == s.emitted;
    if s.row.None? {
      NothingToRead(s.cursor);
    } else {
      PageAdvances(s.log, sub.afterSeq, s.cursor);
      PageEndsInLog(s.log, s.cursor);
      hide PageOf;
    }
  }

  lemma NothingToRead(cursor: Cursor)
    ensures PageOf([], cursor) == [] && After([], cursor) == []
  {}

  lemma ReadKeepsClosing(sub: Subscription, s: State)
    requires Sound(sub, s) && s.phase.Reading?
    ensures WakeUpKept(AfterRead(s)) && ClosingSound(AfterRead(s))
  {
    hide Covered, After, Timeline, Delivered;
    if s.row.None? {
      NothingToRead(s.cursor);
    } else {
      PageCuts(s.log, s.cursor);
      PrefixUnread(s.log, s.owed, AfterRead(s).cursor);
      PageEndsInLog(s.log, s.cursor);
      hide PageOf;
    }
  }

  lemma PrefixUnread(log: seq<RunEvent>, n: nat, cursor: Cursor)
    requires n <= |log|
    ensures After(log, cursor) == [] ==> After(log[..n], cursor) == []
  {
    AfterSplits(log[..n], log[n..], cursor);
    assert log == log[..n] + log[n..];
  }

  /** A page lies in the log, and a page that ends in a terminus ends the log. */
  lemma PageEndsInLog(log: seq<RunEvent>, cursor: Cursor)
    requires Timeline(log)
    ensures var page := PageOf(log, cursor);
            page != [] ==> log != [] && page[|page| - 1].ordinal <= log[|log| - 1].ordinal
    ensures var page := PageOf(log, cursor);
            EndsTerminal(page) ==> EndsTerminal(log) && After(log, CursorAfter(cursor, page)) == []
  {
    PageIsSlice(log, cursor);
    PageCuts(log, cursor);
    hide After, PageOf;
    var page := PageOf(log, cursor);
    var n := Seen(log, cursor);
    if page != [] {
      assert page[|page| - 1] == log[n + |page| - 1];
    }
  }

  lemma StepKeeps(sub: Subscription, s: State, step: Step)
    requires Sound(sub, s) && Enabled(s, step)
    ensures Sound(sub, Apply(sub, s, step))
  {
    hide Sound, After, Covered, Timeline;
    match step
    case Append(event) => AppendKeeps(sub, s, event);
    case SetStatus(status) => RowKeeps(sub, s, Some(status));
    case DeleteRun => RowKeeps(sub, s, None);
    case Notify(_) => NudgeKeeps(sub, s);
    case Tick => NudgeKeeps(sub, s);
    case Wake => WakeKeeps(sub, s);
    case ReadPage => ReadKeeps(sub, s);
    case CheckRun => CheckKeeps(sub, s);
    case Emit => EmitKeeps(sub, s);
  }

  /** What becomes of the run's row touches nothing a subscription has read. */
  lemma RowKeeps(sub: Subscription, s: State, row: Option<RunStatus>)
    requires Sound(sub, s) && s.row.Some?
    ensures Sound(sub, s.(row := row))
  {
    hide After, Covered, Timeline, NotBehind;
  }

  lemma NudgeKeeps(sub: Subscription, s: State)
    requires Sound(sub, s)
    ensures Sound(sub, Woken(s))
  {
    hide After, Covered, Timeline, NotBehind;
  }

  lemma WakeKeeps(sub: Subscription, s: State)
    requires Sound(sub, s) && s.phase.Waiting?
    ensures Sound(sub, s.(slot := false, phase := Reading))
  {
    hide After, Covered, Timeline, NotBehind;
  }

  lemma ReadKeeps(sub: Subscription, s: State)
    requires Sound(sub, s) && s.phase.Reading?
    ensures Sound(sub, AfterRead(s))
  {
    ReadKeepsDelivery(sub, s);
    ReadKeepsClosing(sub, s);
    hide CursorSound, Delivered, WakeUpKept, ClosingSound, AfterRead;
  }

  lemma CheckKeeps(sub: Subscription, s: State)
    requires Sound(sub, s) && s.phase.Checking?
    ensures Sound(sub, s.(phase := Turned([], HasEnded(s.row))))
  {
    hide After, Covered, Timeline, NotBehind;
    assert s.emitted + [] == s.emitted;
  }

  lemma EmitKeeps(sub: Subscription, s: State)
    requires Sound(sub, s) && s.phase.Emitting?
    ensures Sound(sub, AfterEmit(s))
  {
    hide After, Covered, Timeline, NotBehind;
    var t := AfterEmit(s);
    assert t.emitted + [] == t.emitted;
  }

  // ---------------------------------------------------------------- over whole runs

  lemma {:induction false} RunsAreSound(sub: Subscription, start: State, steps: seq<Step>, s: State)
    requires Sound(sub, start) && Reaches(sub, start, steps, s)
    ensures Sound(sub, s)
    decreases |steps|
  {
    hide Sound, Apply;
    if steps != [] {
      StepKeeps(sub, start, steps[0]);
      RunsAreSound(sub, Apply(sub, start, steps[0]), steps[1..], s);
    }
  }

  lemma {:induction false} CoveredIsExact(log: seq<RunEvent>, from: Cursor, to: Cursor)
    requires Timeline(log)
    ensures forall e :: e in Covered(log, from, to) <==> e in log && Past(from, e.ordinal) && !Past(to, e.ordinal)
    ensures forall i, j :: 0 <= i < j < |Covered(log, from, to)| ==>
              Covered(log, from, to)[i].ordinal < Covered(log, from, to)[j].ordinal
  {
    if log != [] {
      TailIsTimeline(log);
      CoveredIsExact(log[1..], from, to);
      assert forall e :: e in log <==> e == log[0] || e in log[1..];
      assert forall e :: e in log[1..] ==> log[0].ordinal < e.ordinal;
    }
  }

  /** In every reachable state, what was emitted and the batch in hand are together exactly the rows
      with ordinals in (afterSeq, cursor], in order, each once. */
  lemma EmittedExactlyOnceInOrder(sub: Subscription, start: State, steps: seq<Step>, s: State)
    requires Initial(sub, start) && Reaches(sub, start, steps, s)
    ensures var out := s.emitted + InHand(s.phase);
            && (forall e :: e in out <==> e in s.log && Past(sub.afterSeq, e.ordinal) && !Past(s.cursor, e.ordinal))
            && (forall i, j :: 0 <= i < j < |out| ==> out[i].ordinal < out[j].ordinal)
  {
    InitialIsSound(sub, start);
    RunsAreSound(sub, start, steps, s);
    CoveredIsExact(s.log, sub.afterSeq, s.cursor);
  }

  /** A stream whose last event is a terminus has emitted every row after `afterSeq` there will ever be. */
  lemma TerminusMeansComplete(sub: Subscription, start: State, steps: seq<Step>, s: State)
    requires Initial(sub, start) && Reaches(sub, start, steps, s)
    requires EndsTerminal(s.emitted) && !s.phase.Emitting?
    ensures s.emitted == After(s.log, sub.afterSeq)
  {
    InitialIsSound(sub, start);
    RunsAreSound(sub, start, steps, s);
    hide After, Covered, ClosingSound, WakeUpKept;
    assert s.emitted == s.emitted + InHand(s.phase);
    hide Reaches, Initial;
    TerminusIsLast(s.log, sub.afterSeq, s.cursor);
  }

  lemma TerminusIsLast(log: seq<RunEvent>, from: Cursor, cursor: Cursor)
    requires Timeline(log) && EndsTerminal(Covered(log, from, cursor))
    ensures Covered(log, from, cursor) == After(log, from)
  {
    hide After, Covered;
    CoveredIsPrefix(log, from, cursor);
    var n := Seen(log, cursor);
    PrefixIsTimeline(log, n);
    AfterIsSuffix(log[..n], from);
    var out := After(log[..n], from);
    assert out[|out| - 1] == log[n - 1];
    assert log[..|log|] == log;
  }

  lemma PrefixIsTimeline(log: seq<RunEvent>, n: nat)
    requires Timeline(log) && n <= |log|
    ensures Timeline(log[..n])
  {}

  /** A closed stream has emitted every row its last page read could see. What it misses is exactly
      the rows past its cursor beyond those: rows that became visible after that read or, where the
      run was deleted and the read found nothing, rows that were there to be read before the deletion.
      It is complete if and only if there are none. */
  lemma ClosedMissesOnlyLateRows(sub: Subscription, start: State, steps: seq<Step>, s: State)
    requires Initial(sub, start) && Reaches(sub, start, steps, s) && s.phase.Closed?
    ensures s.seen <= s.log
    ensures s.emitted + After(s.log[|s.seen|..], s.cursor) == After(s.log, sub.afterSeq)
    ensures forall e :: e in s.seen && Past(sub.afterSeq, e.ordinal) ==> e in s.emitted
    ensures s.emitted == After(s.log, sub.afterSeq) <==> After(s.log[|s.seen|..], s.cursor) == []
  {
    InitialIsSound(sub, start);
    RunsAreSound(sub, start, steps, s);
    assert s.emitted + [] == s.emitted;
    hide After, Covered, Initial, Reaches;
    LateRows(s.log, s.seen, sub.afterSeq, s.cursor);
  }

  lemma LateRows(log: seq<RunEvent>, seen: seq<RunEvent>, from: Cursor, cursor: Cursor)
    requires Timeline(log) && NotBehind(from, cursor) && seen <= log && After(seen, cursor) == []
    ensures After(log, cursor) == After(log[|seen|..], cursor)
    ensures Covered(log, from, cursor) + After(log, cursor) == After(log, from)
    ensures forall e :: e in seen && Past(from, e.ordinal) ==> e in Covered(log, from, cursor)
  {
    hide After, Covered;
    assert log == seen + log[|seen|..];
    AfterSplits(seen, log[|seen|..], cursor);
    CoveredThenAfter(log, from, cursor);
    CoveredIsExact(log, from, cursor);
    forall e | e in seen ensures !Past(cursor, e.ordinal) {
      InAfter(seen, cursor, e);
    }
  }

  lemma {:induction false} InAfter(log: seq<RunEvent>, cursor: Cursor, e: RunEvent)
    requires e in log && After(log, cursor) == []
    ensures !Past(cursor, e.ordinal)
  {
    if e in log[1..] {
      InAfter(log[1..], cursor, e);
    }
  }

  lemma CoveredThenAfter(log: seq<RunEvent>, from: Cursor, cursor: Cursor)
    requires Timeline(log) && NotBehind(from, cursor)
    ensures Covered(log, from, cursor) + After(log, cursor) == After(log, from)
  {
    CoveredIsPrefix(log, from, cursor);
    AfterIsSuffix(log, cursor);
    var n := Seen(log, cursor);
    hide After, Covered;
    assert log == log[..n] + log[n..];
    AfterSplits(log[..n], log[n..], from);
    AfterAll(log[n..], from);
  }

  /** Nothing is emitted after closing, whatever happens next. */
  lemma {:induction false} ClosedStaysClosed(sub: Subscription, s: State, steps: seq<Step>, t: State)
    requires s.phase.Closed? && Reaches(sub, s, steps, t)
    ensures t.phase.Closed? && t.emitted == s.emitted
    decreases |steps|
  {
    if steps != [] {
      ClosedStaysClosed(sub, Apply(sub, s, steps[0]), steps[1..], t);
    }
  }

  lemma StepOwesMore(sub: Subscription, s: State, step: Step)
    requires Sound(sub, s) && Enabled(s, step)
    ensures s.owed <= Apply(sub, s, step).owed && s.log <= Apply(sub, s, step).log
  {
    hide CursorSound, Delivered, ClosingSound, After, Timeline, PageOf;
  }

  lemma {:induction false} OwedGrows(sub: Subscription, s: State, steps: seq<Step>, t: State)
    requires Sound(sub, s) && Reaches(sub, s, steps, t)
    ensures s.owed <= t.owed && s.log <= t.log
    decreases |steps|
  {
    if steps != [] {
      var next := Apply(sub, s, steps[0]);
      StepKeeps(sub, s, steps[0]);
      StepOwesMore(sub, s, steps[0]);
      hide Sound, Apply, Enabled;
      OwedGrows(sub, next, steps[1..], t);
    }
  }

  predicate WakesUp(sub: Subscription, step: Step) {
    step.Tick? || step == Notify(Notice(sub.runId, sub.taskId, sub.workspaceId))
  }

  /** No wake-up is lost to the one-slot buffer: from a delivered notice or tick on, in every later
      state, the cursor has passed every row visible at that moment, or a page read is still to
      come, or the stream is closing. */
  lemma WakeUpNotLost(sub: Subscription, start: State, before: seq<Step>, m: State, wake: Step,
                      later: seq<Step>, s: State)
    requires Initial(sub, start) && Reaches(sub, start, before, m)
    requires WakesUp(sub, wake) && Reaches(sub, Apply(sub, m, wake), later, s)
    ensures After(Visible(m), s.cursor) == [] || ReadAhead(s) || AboutToClose(s)
  {
    InitialIsSound(sub, start);
    RunsAreSound(sub, start, before, m);
    StepKeeps(sub, m, wake);
    var w := Apply(sub, m, wake);
    RunsAreSound(sub, w, later, s);
    OwedGrows(sub, w, later, s);
    if m.row.Some? {
      assert s.log[..s.owed][..|m.log|] == m.log;
      PrefixUnread(s.log[..s.owed], |m.log|, s.cursor);
    }
  }

  // ---------------------------------------------------------------- left to itself, it delivers

  function ConsumerStep(s: State): Option<Step> {
    match s.phase
    case Waiting => if s.slot then Some(Wake) else None
    case Reading => Some(ReadPage)
    case Checking => Some(CheckRun)
    case Emitting(_, _, _) => Some(Emit)
    case Closed => None
  }

  function Rank(phase: Phase): nat {
    match phase
    case Emitting(_, _, more) => if more then 4 else 1
    case Reading => 3
    case Checking => 2
    case Waiting => 0
    case Closed => 0
  }

  /** The consumer runs, and nothing else, until it sleeps or has closed. */
  function Settle(sub: Subscription, s: State): State
    requires Sound(sub, s)
    decreases |After(Visible(s), s.cursor)|, s.slot, Rank(s.phase)
  {
    match ConsumerStep(s)
    case None => s
    case Some(step) =>
      StepKeeps(sub, s, step);
      ConsumerProgress(sub, s, step);
      Settle(sub, Apply(sub, s, step))
  }

  /** Every consumer step reads rows, uses up the nudge, or comes nearer to sleeping. */
  lemma ConsumerProgress(sub: Subscription, s: State, step: Step)
    requires Sound(sub, s) && ConsumerStep(s) == Some(step)
    ensures var t := Apply(sub, s, step);
            && t.log == s.log && t.row == s.row && t.owed == s.owed
            && |After(Visible(t), t.cursor)| <= |After(Visible(s), s.cursor)|
            && (|After(Visible(t), t.cursor)| == |After(Visible(s), s.cursor)| ==>
                  (s.slot && !t.slot) || (s.slot == t.slot && Rank(t.phase) < Rank(s.phase)))
  {
    hide Sound, After, PageOf, CursorAfter;
    if step.ReadPage? {
      ReadProgress(sub, s);
      hide AfterRead;
    }
  }

  /** A page read leaves less unread, or finds nothing or a short page and comes nearer to sleeping. */
  lemma ReadProgress(sub: Subscription, s: State)
    requires Sound(sub, s) && s.phase.Reading?
    ensures var t := AfterRead(s);
            && t.log == s.log && t.row == s.row && t.owed == s.owed && t.slot == s.slot
            && |After(Visible(t), t.cursor)| <= |After(Visible(s), s.cursor)|
            && (|After(Visible(t), t.cursor)| == |After(Visible(s), s.cursor)| ==> Rank(t.phase) < Rank(s.phase))
  {
    PageCuts(Visible(s), s.cursor);
    hide Delivered, WakeUpKept, ClosingSound, After, PageOf;
    assert After(Visible(s), s.cursor) == PageOf(Visible(s), s.cursor) + After(Visible(s), AfterRead(s).cursor);
  }

  /** Everything visible is owed, and the consumer closes only over a log it has read. */
  ghost predicate OnCourse(s: State) {
    && s.row.Some? && s.owed == |s.log|
    && (AboutToClose(s) || (s.phase.Checking? && HasEnded(s.row)) ==> After(s.log, s.cursor) == [])
  }

  lemma {:induction false} SettleDelivers(sub: Subscription, s: State)
    requires Sound(sub, s) && OnCourse(s)
    ensures var t := Settle(sub, s);
            && Sound(sub, t) && t.log == s.log && t.row == s.row
            && (t.phase.Closed? || (t.phase.Waiting? && !t.slot))
            && After(t.log, t.cursor) == [] && t.emitted == After(s.log, sub.afterSeq)
    decreases |After(Visible(s), s.cursor)|, s.slot, Rank(s.phase)
  {
    match ConsumerStep(s)
    case None =>
      AtRestHasDelivered(sub, s);
      hide Sound, After;
    case Some(step) =>
      StepKeeps(sub, s, step);
      ConsumerProgress(sub, s, step);
      StaysOnCourse(sub, s, step);
      hide Sound, OnCourse, After, Apply;
      SettleDelivers(sub, Apply(sub, s, step));
  }

  lemma AtRestHasDelivered(sub: Subscription, s: State)
    requires Sound(sub, s) && OnCourse(s) && ConsumerStep(s).None?
    ensures After(s.log, s.cursor) == [] && s.emitted == After(s.log, sub.afterSeq)
  {
    hide After, Covered, Timeline;
    assert s.log[..s.owed] == s.log;
    CoveredThenAfter(s.log, sub.afterSeq, s.cursor);
    assert s.emitted + [] == s.emitted;
  }

  /** The consumer's own steps keep it from closing before it has read everything. */
  lemma StaysOnCourse(sub: Subscription, s: State, step: Step)
    requires Sound(sub, s) && OnCourse(s) && ConsumerStep(s) == Some(step)
    ensures OnCourse(Apply(sub, s, step))
  {
    hide After, PageOf, CursorAfter, IsTerminal, Timeline;
    assert Timeline(s.log);
    hide Sound;
    if step.ReadPage? {
      PageCuts(s.log, s.cursor);
      PageEndsInLog(s.log, s.cursor);
    }
  }

  /** Once appends stop, the drain a tick starts emits everything after `afterSeq`, wherever the
      consumer stood, unless it was already closing or about to find the run over. */
  lemma TickDeliversEverything(sub: Subscription, start: State, steps: seq<Step>, s: State)
    requires Initial(sub, start) && Reaches(sub, start, steps, s)
    requires s.row.Some? && !AboutToClose(s) && !(s.phase.Checking? && HasEnded(s.row))
    ensures Sound(sub, Woken(s))
    ensures Settle(sub, Woken(s)).emitted == After(s.log, sub.afterSeq)
  {
    InitialIsSound(sub, start);
    RunsAreSound(sub, start, steps, s);
    hide Initial, Reaches, Sound, Settle, After, Timeline;
    StepKeeps(sub, s, Tick);
    SettleDelivers(sub, Woken(s));
  }

  /** Left to itself with everything visible owed, the consumer closes, or sleeps with nothing unread. */
  lemma {:induction false} SettleRests(sub: Subscription, s: State)
    requires Sound(sub, s) && (s.row.Some? ==> s.owed == |s.log|)
    ensures var t := Settle(sub, s);
            && Sound(sub, t) && t.row == s.row
            && (t.phase.Closed? || (t.phase.Waiting? && !t.slot && After(Visible(t), t.cursor) == []))
    decreases |After(Visible(s), s.cursor)|, s.slot, Rank(s.phase)
  {
    match ConsumerStep(s)
    case None =>
      if s.phase.Waiting? {
        AsleepHasReadAll(sub, s);
      }
    case Some(step) =>
      StepKeeps(sub, s, step);
      ConsumerProgress(sub, s, step);
      hide Sound, After;
      SettleRests(sub, Apply(sub, s, step));
  }

  lemma AsleepHasReadAll(sub: Subscription, s: State)
    requires Sound(sub, s) && (s.row.Some? ==> s.owed == |s.log|) && s.phase.Waiting? && !s.slot
    ensures After(Visible(s), s.cursor) == []
  {
    assert s.log[..|s.log|] == s.log;
  }

  /** A run that is over, by its status or because it was deleted, closes its stream by the second tick
      at the latest, wherever the consumer stands. */
  lemma SecondTickCloses(sub: Subscription, start: State, steps: seq<Step>, s: State)
    requires Initial(sub, start) && Reaches(sub, start, steps, s)
    requires s.row.None? || s.row.value in {RunFinished, RunFailed, Interrupted}
    ensures Sound(sub, Woken(s)) && Sound(sub, Woken(Settle(sub, Woken(s))))
    ensures Settle(sub, Woken(Settle(sub, Woken(s)))).phase.Closed?
  {
    InitialIsSound(sub, start);
    RunsAreSound(sub, start, steps, s);
    StepKeeps(sub, s, Tick);
    SettleRests(sub, Woken(s));
    var t := Settle(sub, Woken(s));
    StepKeeps(sub, t, Tick);
    hide Sound, Settle, After, Reaches, Initial;
    if t.phase.Waiting? {
      IdleTickCloses(sub, Woken(t));
    } else {
      SettleEnds(sub, Woken(t));
    }
  }

  lemma SettleStep(sub: Subscription, s: State, step: Step)
    requires Sound(sub, s) && ConsumerStep(s) == Some(step)
    ensures Sound(sub, Apply(sub, s, step)) && Settle(sub, s) == Settle(sub, Apply(sub, s, step))
  {
    StepKeeps(sub, s, step);
    hide Sound, Apply;
  }

  lemma CheckCloses(sub: Subscription, s: State)
    requires Sound(sub, s) && s.phase.Checking? && HasEnded(s.row)
    ensures Settle(sub, s).phase.Closed?
  {
    hide Sound, Settle;
    SettleStep(sub, s, CheckRun);
    var closing := s.(phase := Emitting([], true, false));
    SettleStep(sub, closing, Emit);
    SettleEnds(sub, AfterEmit(closing));
  }

  lemma EmptyRead(s: State)
    requires After(Visible(s), s.cursor) == []
    ensures AfterRead(s).phase.Checking? && AfterRead(s).row == s.row
  {}

  lemma IdleTickCloses(sub: Subscription, s: State)
    requires Sound(sub, s) && HasEnded(s.row)
    requires s.phase.Waiting? && s.slot && After(Visible(s), s.cursor) == []
    ensures Settle(sub, s).phase.Closed?
  {
    hide Sound, Settle, AfterRead, After;
    var reading := s.(slot := false, phase := Reading);
    SettleStep(sub, s, Wake);
    SettleStep(sub, reading, ReadPage);
    EmptyRead(reading);
    CheckCloses(sub, AfterRead(reading));
  }

  lemma SettleEnds(sub: Subscription, s: State)
    requires Sound(sub, s) && s.phase.Closed?
    ensures Settle(sub, s) == s
  {
    hide Sound;
  }

  /** A consumer about to look at the run, and a row landing before it does. */
  function InTheGap(log: seq<RunEvent>): State {
    State(log, Some(Running), false, None, Checking, [], 0, [])
  }

  lemma GapCloses(sub: Subscription, s: State, t: State)
    requires s.phase.Checking? && s.row.Some?
    requires t == s.(row := Some(RunFinished), phase := Closed)
    ensures Reaches(sub, s, [SetStatus(RunFinished)] + ([CheckRun] + ([Emit] + [])), t)
  {
    var over := s.(row := Some(RunFinished));
    var closing := over.(phase := Emitting([], true, false));
    assert s.emitted + [] == s.emitted;
    assert Reaches(sub, t, [], t);
    Before(sub, closing, Emit, [], t);
    Before(sub, over, CheckRun, [Emit] + [], t);
    Before(sub, s, SetStatus(RunFinished), [CheckRun] + ([Emit] + []), t);
  }

  /** The gap: a row that lands between the empty page and the look at the run is never emitted. */
  lemma RowInTheGapIsMissed(sub: Subscription, event: RunEvent) returns (start: State, steps: seq<Step>, s: State)
    requires sub.afterSeq.None?
    ensures Initial(sub, start) && Reaches(sub, start, steps, s)
    ensures s.phase.Closed? && s.log == [event] && s.emitted == []
  {
    hide *;
    GapRuns(sub, event);
    GapEnds(sub, event);
    GapOpens(sub, event);
    start, s := BeforeTheGap(true, Waiting), AfterTheGap(event);
    steps := [Wake] + ([ReadPage] + ([Append(event)] + GAP_CLOSES));
  }

  lemma GapRuns(sub: Subscription, event: RunEvent)
    requires sub.afterSeq.None?
    ensures Reaches(sub, BeforeTheGap(true, Waiting), [Wake] + ([ReadPage] + ([Append(event)] + GAP_CLOSES)),
                    AfterTheGap(event))
  {
    hide *;
    GapOpens(sub, event);
    GapEnds(sub, event);
    Before(sub, InTheGap([]), Append(event), GAP_CLOSES, AfterTheGap(event));
    Before(sub, BeforeTheGap(false, Reading), ReadPage, [Append(event)] + GAP_CLOSES, AfterTheGap(event));
    Before(sub, BeforeTheGap(true, Waiting), Wake, [ReadPage] + ([Append(event)] + GAP_CLOSES), AfterTheGap(event));
  }

  const GAP_CLOSES := [SetStatus(RunFinished)] + ([CheckRun] + ([Emit] + []))

  function AfterTheGap(event: RunEvent): State {
    InTheGap([event]).(row := Some(RunFinished), phase := Closed)
  }

  lemma GapEnds(sub: Subscription, event: RunEvent)
    ensures Reaches(sub, InTheGap([event]), GAP_CLOSES, AfterTheGap(event))
    ensures var end := AfterTheGap(event);
            end.phase.Closed? && end.log == [event] && end.emitted == []
  {
    GapCloses(sub, InTheGap([event]), AfterTheGap(event));
    hide Reaches;
  }

  function BeforeTheGap(slot: bool, phase: Phase): State {
    State([], Some(Running), slot, None, phase, [], 0, [])
  }

  lemma GapOpens(sub: Subscription, event: RunEvent)
    requires sub.afterSeq.None?
    ensures var start, reading := BeforeTheGap(true, Waiting), BeforeTheGap(false, Reading);
            && Initial(sub, start)
            && Enabled(start, Wake) && Apply(sub, start, Wake) == reading
            && Enabled(reading, ReadPage) && Apply(sub, reading, ReadPage) == InTheGap([])
            && Enabled(InTheGap([]), Append(event)) && Apply(sub, InTheGap([]), Append(event)) == InTheGap([event])
  {
    assert [] + [event] == [event];
  }

  lemma Before(sub: Subscription, s: State, step: Step, later: seq<Step>, t: State)
    requires Enabled(s, step) && Reaches(sub, Apply(sub, s, step), later, t)
    ensures Reaches(sub, s, [step] + later, t)
  {
    assert ([step] + later)[1..] == later;
  }
}
