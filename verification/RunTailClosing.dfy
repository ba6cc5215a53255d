/** When a subscription to a run's timeline closes and when it stays open, said of the kinds of its rows
    and the statuses of its run (`apps/gateway/src/sse.ts`, `packages/domain/src/run.ts`). */
module RunTailClosing {
  import opened Options
  import opened RunTail
  import opened RunTailMachine

  predicate Closing(s: State) {
    s.phase.Closed? || (s.phase.Emitting? && s.phase.closing)
  }

  /** What is emitted and in hand ends on a terminus. */
  predicate OnTerminus(s: State) {
    var out := s.emitted + InHand(s.phase);
    out != [] && out[|out| - 1].kind in {Finished, Failed, Stopped}
  }

  // ---------------------------------------------------------------- only a run that is over closes

  lemma EndedStatuses(row: Option<RunStatus>)
    ensures HasEnded(row) <==> row.None? || row.value in {RunFinished, RunFailed, Interrupted}
    ensures HasEnded(row) <==> row != Some(Queued) && row != Some(Running)
  {
    if row.Some? {
      match row.value
      case Queued =>
      case Running =>
      case RunFinished =>
      case RunFailed =>
      case Interrupted =>
    }
  }

  lemma StepCloses(sub: Subscription, s: State, step: Step)
    requires Enabled(s, step) && Closing(Apply(sub, s, step)) && (Closing(s) ==> OnTerminus(s))
    ensures OnTerminus(Apply(sub, s, step))
         || s.row.None? || s.row.value in {RunFinished, RunFailed, Interrupted}
  {
    hide PageOf;
    match step
    case Append(_) => assert InHand(s.phase) == InHand(Apply(sub, s, step).phase);
    case Emit =>
      var t := AfterEmit(s);
      assert t.emitted + InHand(t.phase) == s.emitted + InHand(s.phase);
    case ReadPage =>
    case CheckRun => EndedStatuses(s.row);
    case SetStatus(_) =>
    case DeleteRun =>
    case Notify(_) =>
    case Tick =>
    case Wake =>
  }

  lemma {:induction false} CauseOfClosing(sub: Subscription, start: State, steps: seq<Step>, s: State)
    returns (k: nat, m: State)
    requires Reaches(sub, start, steps, s) && Closing(s) && (Closing(start) ==> OnTerminus(start))
    ensures k <= |steps| && Reaches(sub, start, steps[..k], m)
    ensures OnTerminus(s) || m.row.None? || m.row.value in {RunFinished, RunFailed, Interrupted}
    decreases |steps|
  {
    k, m := 0, start;
    hide OnTerminus, Closing, Apply, Enabled;
    if steps != [] {
      var next := Apply(sub, start, steps[0]);
      if Closing(next) {
        StepCloses(sub, start, steps[0]);
      }
      if !Closing(next) || OnTerminus(next) {
        k, m := CauseOfClosing(sub, next, steps[1..], s);
        assert steps[..k + 1][1..] == steps[1..][..k];
        k := k + 1;
      }
    }
  }

  /** A stream closes only on a terminus it has emitted, or after its run was seen deleted or in a status
      that is not live. */
  lemma ClosesOnlyWhenOver(sub: Subscription, start: State, steps: seq<Step>, s: State)
    returns (k: nat, m: State)
    requires Initial(sub, start) && Reaches(sub, start, steps, s) && s.phase.Closed?
    ensures k <= |steps| && Reaches(sub, start, steps[..k], m)
    ensures (s.emitted != [] && s.emitted[|s.emitted| - 1].kind in {Finished, Failed, Stopped})
         || m.row.None? || m.row.value in {RunFinished, RunFailed, Interrupted}
  {
    k, m := CauseOfClosing(sub, start, steps, s);
    assert s.emitted + [] == s.emitted;
    hide Reaches, Timeline;
  }

  // ---------------------------------------------------------------- a live run stays open

  /** No row of the log is a terminus, and the run is about to work or working. */
  ghost predicate LiveRun(s: State) {
    && (s.row == Some(Queued) || s.row == Some(Running))
    && forall e :: e in s.log ==> e.kind !in {Finished, Failed, Stopped}
  }

  lemma LiveStaysOpen(sub: Subscription, s: State, step: Step)
    requires Sound(sub, s) && LiveRun(s) && !Closing(s) && ConsumerStep(s) == Some(step)
    ensures LiveRun(Apply(sub, s, step)) && !Closing(Apply(sub, s, step))
  {
    hide After, Delivered, WakeUpKept, ClosingSound, TerminusCloses, NotBehind;
    if step.ReadPage? {
      assert Timeline(s.log);
      PageIsSlice(s.log, s.cursor);
      hide PageOf, Timeline;
      var page := PageOf(s.log, s.cursor);
      assert page != [] ==> page[|page| - 1] in s.log;
    }
  }

  lemma {:induction false} LiveSettlesWaiting(sub: Subscription, s: State)
    requires Sound(sub, s) && LiveRun(s) && !Closing(s)
    ensures Settle(sub, s).phase.Waiting? && !Settle(sub, s).slot
    decreases |After(Visible(s), s.cursor)|, s.slot, Rank(s.phase)
  {
    match ConsumerStep(s)
    case None =>
    case Some(step) =>
      StepKeeps(sub, s, step);
      ConsumerProgress(sub, s, step);
      LiveStaysOpen(sub, s, step);
      hide Sound, LiveRun, Closing, After, Apply;
      LiveSettlesWaiting(sub, Apply(sub, s, step));
  }

  ghost predicate AlwaysLive(sub: Subscription, start: State, steps: seq<Step>) {
    forall k, m :: 0 <= k <= |steps| && Reaches(sub, start, steps[..k], m) ==>
                     m.row == Some(Queued) || m.row == Some(Running)
  }

  lemma StillLive(sub: Subscription, start: State, steps: seq<Step>, s: State)
    requires Reaches(sub, start, steps, s) && AlwaysLive(sub, start, steps)
    requires forall e :: e in s.log ==> e.kind !in {Finished, Failed, Stopped}
    ensures LiveRun(s)
  {
    hide Reaches;
    assert steps[..|steps|] == steps;
  }

  lemma StillOpen(sub: Subscription, start: State, steps: seq<Step>, s: State)
    requires Reaches(sub, start, steps, s) && AlwaysLive(sub, start, steps) && !Closing(start) && !OnTerminus(s)
    ensures !Closing(s)
  {
    hide Reaches, OnTerminus, Closing;
    if Closing(s) {
      var k, m := CauseOfClosing(sub, start, steps, s);
      assert false;
    }
  }

  /** A run that has been queued or running all along, and has no terminus in its log, has its stream open:
      however often it ticks, the consumer goes back to waiting. */
  lemma LiveRunsStayOpen(sub: Subscription, start: State, steps: seq<Step>, s: State)
    requires Initial(sub, start) && Reaches(sub, start, steps, s)
    requires AlwaysLive(sub, start, steps)
    requires forall e :: e in s.log ==> e.kind !in {Finished, Failed, Stopped}
    ensures Sound(sub, s) && Sound(sub, Woken(s))
    ensures !s.phase.Closed? && Settle(sub, s).phase.Waiting? && Settle(sub, Woken(s)).phase.Waiting?
  {
    hide Reaches, AlwaysLive, Sound, Settle, OnTerminus, LiveRun, Timeline;
    InitialIsSound(sub, start);
    RunsAreSound(sub, start, steps, s);
    StepKeeps(sub, s, Tick);
    NoTerminusOut(sub, s);
    StillLive(sub, start, steps, s);
    StillOpen(sub, start, steps, s);
    WokenIsLive(s);
    LiveSettlesWaiting(sub, s);
    LiveSettlesWaiting(sub, Woken(s));
  }

  lemma WokenIsLive(s: State)
    ensures LiveRun(s) ==> LiveRun(Woken(s))
    ensures Closing(Woken(s)) == Closing(s)
  {}

  lemma NoTerminusOut(sub: Subscription, s: State)
    requires Sound(sub, s) && forall e :: e in s.log ==> e.kind !in {Finished, Failed, Stopped}
    ensures !OnTerminus(s)
  {
    CoveredIsExact(s.log, sub.afterSeq, s.cursor);
    hide Covered, WakeUpKept, ClosingSound;
    var out := s.emitted + InHand(s.phase);
    assert out != [] ==> out[|out| - 1] in out;
  }

  // ---------------------------------------------------------------- a terminus closes

  /** Once the last row of the log is a terminus past `afterSeq`, the next tick closes the stream, with the
      terminus emitted last, though the run's row still says it is working. */
  lemma TerminusClosesAtATick(sub: Subscription, start: State, steps: seq<Step>, s: State)
    requires Initial(sub, start) && Reaches(sub, start, steps, s) && s.row.Some?
    requires s.log != [] && s.log[|s.log| - 1].kind in {Finished, Failed, Stopped}
    requires sub.afterSeq.None? || s.log[|s.log| - 1].ordinal > sub.afterSeq.value
    ensures Sound(sub, Woken(s)) && Settle(sub, Woken(s)).phase.Closed?
  {
    InitialIsSound(sub, start);
    RunsAreSound(sub, start, steps, s);
    hide *;
    TerminusClosesAfter(sub, s);
  }

  lemma TerminusClosesAfter(sub: Subscription, s: State)
    requires Sound(sub, s) && s.row.Some? && s.log != []
    requires s.log[|s.log| - 1].kind in {Finished, Failed, Stopped}
    requires sub.afterSeq.None? || s.log[|s.log| - 1].ordinal > sub.afterSeq.value
    ensures Sound(sub, Woken(s)) && Settle(sub, Woken(s)).phase.Closed?
  {
    StepKeeps(sub, s, Tick);
    hide Sound, Settle, After;
    SettleRests(sub, Woken(s));
    SettleKeepsLog(sub, Woken(s));
    var t := Settle(sub, Woken(s));
    if t.phase.Waiting? {
      WaitingIsNotDone(sub, t);
    }
  }

  lemma {:induction false} SettleKeepsLog(sub: Subscription, s: State)
    requires Sound(sub, s)
    ensures Settle(sub, s).log == s.log
    decreases |After(Visible(s), s.cursor)|, s.slot, Rank(s.phase)
  {
    match ConsumerStep(s)
    case None =>
    case Some(step) =>
      StepKeeps(sub, s, step);
      ConsumerProgress(sub, s, step);
      hide Sound, After, Apply;
      SettleKeepsLog(sub, Apply(sub, s, step));
  }

  lemma WaitingIsNotDone(sub: Subscription, s: State)
    requires Sound(sub, s) && s.phase.Waiting? && After(s.log, s.cursor) == []
    requires s.log != [] && Past(sub.afterSeq, s.log[|s.log| - 1].ordinal)
    ensures !IsTerminal(s.log[|s.log| - 1])
  {
    CoveredThenAfter(s.log, sub.afterSeq, s.cursor);
    AfterIsSuffix(s.log, sub.afterSeq);
    var out := s.emitted + InHand(s.phase);
    assert out == After(s.log, sub.afterSeq);
    hide After, Covered, WakeUpKept, ClosingSound;
    assert out[|out| - 1] == s.log[|s.log| - 1];
  }

  /** The first drain, which waits for no notice, is the catch-up: it emits every row past `afterSeq`. */
  lemma OpeningCatchesUp(sub: Subscription, s: State)
    requires Initial(sub, s) && s.row.Some?
    ensures Sound(sub, s) && Settle(sub, s).emitted == After(s.log, sub.afterSeq)
  {
    InitialIsSound(sub, s);
    hide Sound, Settle, After, Timeline;
    SettleDelivers(sub, s);
  }

  /** Of the notices, only one with all three ids of the subscription wakes it. */
  lemma OnlyItsNoticesWakeIt(sub: Subscription, s: State, notice: Notice)
    requires !s.slot
    ensures var t := Apply(sub, s, Notify(notice));
            && (t.slot <==> notice == Notice(sub.runId, sub.taskId, sub.workspaceId))
            && (!t.slot ==> t == s)
  {}
}
