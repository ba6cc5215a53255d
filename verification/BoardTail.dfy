/** The board as it changes (`apps/gateway/src/board-sse.ts`): the same one-slot wake-up buffer as a
    run's tail, a whole-board read per wake-up, and a snapshot that is sent only when its
    serialization differs from the one before. `B` is a board and `text` its serialization. */
module BoardTail {
  import opened Options

  datatype State<B> = State(stored: B, slot: bool, reading: bool, last: Option<B>, sent: seq<B>, answers: seq<B>)

  /** `last` is the board last sent. `answers`, the boards read, is history, as `sent` is. A notice for
      another workspace is not a step. */
  datatype Step<B> = Change(board: B) | Nudge | Wake | Read

  predicate Enabled<B>(s: State<B>, step: Step<B>) {
    match step
    case Change(_) => true
    case Nudge => true
    case Wake => s.slot && !s.reading
    case Read => s.reading
  }

  function Apply<B>(text: B -> string, s: State<B>, step: Step<B>): State<B> {
    match step
    case Change(board) => s.(stored := board)
    case Nudge => s.(slot := true)
    case Wake => s.(slot := false, reading := true)
    case Read =>
      var same := s.last.Some? && text(s.last.value) == text(s.stored);
      s.(reading := false, answers := s.answers + [s.stored],
         last := if same then s.last else Some(s.stored),
         sent := if same then s.sent else s.sent + [s.stored])
  }

  function Opened<B>(board: B): State<B> {
    State(board, true, false, None, [], [])
  }

  ghost predicate Reaches<B(!new)>(text: B -> string, start: State<B>, steps: seq<Step<B>>, s: State<B>)
    decreases |steps|
  {
    if steps == [] then s == start
    else Enabled(start, steps[0]) && Reaches(text, Apply(text, start, steps[0]), steps[1..], s)
  }

  // ---------------------------------------------------------------- what a subscriber is sent

  /** A sequence of boards without those that read the same as the one just before them. */
  function Changes<B>(text: B -> string, boards: seq<B>): seq<B> {
    if boards == [] then []
    else
      var n := |boards| - 1;
      var before := Changes(text, boards[..n]);
      if n > 0 && text(boards[n - 1]) == text(boards[n]) then before else before + [boards[n]]
  }

  /** What was sent are the changes among what was read, and the board last sent, which the next one is
      compared with, reads as the board last read. */
  ghost predicate Sound<B(!new)>(text: B -> string, s: State<B>) {
    && s.sent == Changes(text, s.answers)
    && s.last == (if s.sent == [] then None else Some(s.sent[|s.sent| - 1]))
    && (s.last.None? <==> s.answers == [])
    && (s.answers != [] ==> text(s.last.value) == text(s.answers[|s.answers| - 1]))
  }

  /** Comparing with the board last sent is comparing with the board last read. */
  lemma StepKeeps<B(!new)>(text: B -> string, s: State<B>, step: Step<B>)
    requires Sound(text, s) && Enabled(s, step)
    ensures Sound(text, Apply(text, s, step))
  {
    if step.Read? {
      ChangesGrow(text, s.answers, s.stored);
      hide Changes;
    }
  }

  lemma ChangesGrow<B(!new)>(text: B -> string, boards: seq<B>, board: B)
    ensures var before := Changes(text, boards);
            var same := boards != [] && text(boards[|boards| - 1]) == text(board);
            Changes(text, boards + [board]) == if same then before else before + [board]
  {
    assert (boards + [board])[..|boards|] == boards;
  }

  lemma {:induction false} RunsAreSound<B(!new)>(
      text: B -> string, start: State<B>, steps: seq<Step<B>>, s: State<B>)
    requires Sound(text, start) && Reaches(text, start, steps, s)
    ensures Sound(text, s)
    decreases |steps|
  {
    if steps != [] {
      StepKeeps(text, start, steps[0]);
      hide Sound, Apply, Enabled;
      RunsAreSound(text, Apply(text, start, steps[0]), steps[1..], s);
    }
  }

  /** No two neighbours in a sequence of changes read the same, and its last reads as the last board. */
  lemma {:induction false} ChangesAreChanges<B(!new)>(text: B -> string, boards: seq<B>)
    ensures var c := Changes(text, boards);
            && (forall i :: 0 <= i < |c| - 1 ==> text(c[i]) != text(c[i + 1]))
            && (boards != [] ==> c != [] && text(c[|c| - 1]) == text(boards[|boards| - 1]))
  {
    if boards != [] {
      ChangesAreChanges(text, boards[..|boards| - 1]);
    }
  }

  /** In every reachable state a subscriber has been sent the boards read, less consecutive repeats:
      never the same board twice running, and last of all the board last read. */
  lemma SentAreTheChangesRead<B(!new)>(text: B -> string, board: B, steps: seq<Step<B>>, s: State<B>)
    requires Reaches(text, Opened(board), steps, s)
    ensures s.sent == Changes(text, s.answers)
    ensures forall i :: 0 <= i < |s.sent| - 1 ==> text(s.sent[i]) != text(s.sent[i + 1])
    ensures s.answers != [] ==> s.sent != [] && text(s.sent[|s.sent| - 1]) == text(s.answers[|s.answers| - 1])
  {
    RunsAreSound(text, Opened(board), steps, s);
    ChangesAreChanges(text, s.answers);
  }

  /** The board last read is the stored one, or a read is still to come. */
  ghost predicate CatchingUp<B(!new)>(s: State<B>) {
    s.slot || s.reading || (s.answers != [] && s.answers[|s.answers| - 1] == s.stored)
  }

  lemma {:induction false} StaysCatchingUp<B(!new)>(
      text: B -> string, start: State<B>, steps: seq<Step<B>>, s: State<B>)
    requires CatchingUp(start) && Reaches(text, start, steps, s)
    requires forall step :: step in steps ==> !step.Change?
    ensures CatchingUp(s) && s.stored == start.stored
    decreases |steps|
  {
    if steps != [] {
      StaysCatchingUp(text, Apply(text, start, steps[0]), steps[1..], s);
    }
  }

  /** Once changes stop and a wake-up is delivered, a subscriber whose reads have come to rest was
      last sent the stored board. */
  lemma QuietBoardIsDelivered<B(!new)>(text: B -> string, board: B, before: seq<Step<B>>, m: State<B>,
                                       later: seq<Step<B>>, s: State<B>)
    requires Reaches(text, Opened(board), before, m)
    requires Reaches(text, Apply(text, m, Nudge), later, s)
    requires forall step :: step in later ==> !step.Change?
    requires !s.slot && !s.reading
    ensures s.sent != [] && text(s.sent[|s.sent| - 1]) == text(s.stored) && s.stored == m.stored
  {
    RunsAreSound(text, Opened(board), before, m);
    RunsAreSound(text, Apply(text, m, Nudge), later, s);
    StaysCatchingUp(text, Apply(text, m, Nudge), later, s);
    ChangesAreChanges(text, s.answers);
  }

  function Nudges<B>(steps: seq<Step<B>>): nat {
    if steps == [] then 0 else (if steps[0].Nudge? then 1 else 0) + Nudges(steps[1..])
  }

  /** The reads there have been and the one that waits or is out. */
  function Reads<B>(s: State<B>): nat {
    |s.answers| + (if s.slot then 1 else 0) + (if s.reading then 1 else 0)
  }

  /** A nudge costs at most one read, and those that pile up one together. */
  lemma {:induction false} NudgesAreReadOnce<B(!new)>(
      text: B -> string, start: State<B>, steps: seq<Step<B>>, s: State<B>)
    requires Reaches(text, start, steps, s)
    ensures Reads(s) <= Reads(start) + Nudges(steps)
    decreases |steps|
  {
    if steps != [] {
      NudgesAreReadOnce(text, Apply(text, start, steps[0]), steps[1..], s);
    }
  }

  /** A subscription reads by itself once, and once more for a nudge at most; and its first board does not
      wait for any. */
  lemma OpeningReadsOnce<B(!new)>(text: B -> string, board: B, steps: seq<Step<B>>, s: State<B>)
    requires Reaches(text, Opened(board), steps, s)
    ensures |s.answers| <= 1 + Nudges(steps)
    ensures s.slot || s.reading || s.sent != []
  {
    NudgesAreReadOnce(text, Opened(board), steps, s);
    RunsAreSound(text, Opened(board), steps, s);
    FirstReadIsSent(text, Opened(board), steps, s);
    ChangesAreChanges(text, s.answers);
  }

  lemma {:induction false} FirstReadIsSent<B(!new)>(
      text: B -> string, start: State<B>, steps: seq<Step<B>>, s: State<B>)
    requires Reaches(text, start, steps, s) && (start.slot || start.reading || start.answers != [])
    ensures s.slot || s.reading || s.answers != []
    decreases |steps|
  {
    if steps != [] {
      FirstReadIsSent(text, Apply(text, start, steps[0]), steps[1..], s);
    }
  }
}
