/** The refresh scheduler of `apps/gateway/src/pr-state.ts` as a step machine: board reads at any
    moment, the clock, and the one drain fiber with its batch and four lookups in flight. */
module PrRefreshMachine {
  import opened Options
  import opened PrRefresh

  /** `batch` has been taken and not yet made unique, `todo` waits inside a batch, and `flying` holds
      the lookups in flight with the time each started. `starts` and `asked` are history: when every
      card was asked about, and which were since the queue was last taken. */
  datatype State = State(
    now: Millis, checked: Table, queue: seq<Pending>, batch: seq<Pending>, todo: seq<Pending>,
    flying: map<string, Millis>, starts: map<string, seq<Millis>>, asked: set<string>)

  /** A lookup finishes with the newest validator, or with none when the row was gone or terminal,
      GitHub gave no state, or anything failed. */
  datatype Step =
    | Wait(ms: nat)
    | Observe(tasks: seq<Task>, workspaceId: string)
    | Take
    | Begin
    | Start
    | Finish(id: string, answer: Option<Option<string>>)

  function NothingAsked(now: Millis): State {
    State(now, map[], [], [], [], map[], map[], {})
  }

  function StartsOf(s: State, id: string): seq<Millis> {
    if id in s.starts then s.starts[id] else []
  }

  ghost predicate Enabled(s: State, step: Step) {
    match step
    case Wait(_) => true
    case Observe(_, _) => |s.queue| <= REFRESH_QUEUE_CAPACITY
    case Take => s.queue != [] && s.batch == [] && s.todo == [] && s.flying == map[]
    case Begin => s.batch != []
    case Start => s.todo != [] && |s.flying| < REFRESH_CONCURRENCY
    case Finish(id, _) => id in s.flying
  }

  function AfterStart(s: State): State
    requires s.todo != []
  {
    var id := s.todo[0].taskId;
    s.(checked := Stamped(s.checked, id, s.now), todo := s.todo[1..], flying := s.flying[id := s.now],
       starts := s.starts[id := StartsOf(s, id) + [s.now]], asked := s.asked + {id})
  }

  function AfterFinish(s: State, id: string, answer: Option<Option<string>>): State
    requires id in s.flying
  {
    s.(flying := s.flying - {id},
       checked := if answer.None? then s.checked else Answered(s.checked, id, s.flying[id], answer.value))
  }

  function Apply(s: State, step: Step): State
    requires Enabled(s, step)
  {
    match step
    case Wait(ms) => s.(now := s.now + ms)
    case Observe(tasks, workspaceId) => s.(queue := Offered(s.queue, DueOffers(s.checked, tasks, workspaceId, s.now)))
    case Take => s.(batch := s.queue, queue := [], asked := {})
    case Begin => s.(checked := Pruned(s.checked, s.now), todo := Unique(s.batch), batch := [])
    case Start => AfterStart(s)
    case Finish(id, answer) => AfterFinish(s, id, answer)
  }

  ghost predicate Reaches(start: State, steps: seq<Step>, s: State)
    decreases |steps|
  {
    if steps == [] then s == start
    else Enabled(start, steps[0]) && Reaches(Apply(start, steps[0]), steps[1..], s)
  }

  // ---------------------------------------------------------------- what every step keeps

  ghost predicate Spaced(t: seq<Millis>) {
    && (forall i, j :: 0 <= i < j < |t| ==> t[i] <= t[j])
    && forall i :: 0 <= i < |t| - 2 ==> t[i] + REFRESH_TTL_MS <= t[i + 2]
  }

  /** The last start, or the last but one, is at least a TTL back. */
  predicate LastIsCold(t: seq<Millis>, now: Millis) {
    |t| >= 1 ==> t[|t| - 1] + REFRESH_TTL_MS <= now
  }

  predicate LastButOneIsCold(t: seq<Millis>, now: Millis) {
    |t| >= 2 ==> t[|t| - 2] + REFRESH_TTL_MS <= now
  }

  ghost predicate Remembered(s: State, id: string) {
    var t := StartsOf(s, id);
    && (t != [] ==> t[|t| - 1] <= s.now)
    && (id in s.checked ==> t != [] && s.checked[id].checkedAt == t[|t| - 1])
    && (id !in s.checked ==> LastIsCold(t, s.now))
    && (id in s.flying ==> t != [] && s.flying[id] == t[|t| - 1] && id in s.asked)
  }

  ghost predicate CardSound(s: State, id: string) {
    var t := StartsOf(s, id);
    && Spaced(t)
    && Remembered(s, id)
    && (Waits(s.queue, id) ==> LastButOneIsCold(t, s.now) && (id !in s.asked ==> LastIsCold(t, s.now)))
    && (Waits(s.batch, id) || Waits(s.todo, id) ==> LastButOneIsCold(t, s.now) && id !in s.asked)
  }

  ghost predicate FiberSound(s: State) {
    && |s.queue| <= REFRESH_QUEUE_CAPACITY
    && Distinct(s.todo)
    && |s.flying| <= REFRESH_CONCURRENCY
    && (s.batch != [] ==> s.todo == [] && s.flying == map[])
  }

  ghost predicate Sound(s: State) {
    FiberSound(s) && forall id :: CardSound(s, id)
  }

  lemma NothingAskedIsSound(now: Millis)
    ensures Sound(NothingAsked(now))
  {}

  lemma StepKeepsFiber(s: State, step: Step)
    requires FiberSound(s) && Enabled(s, step)
    ensures FiberSound(Apply(s, step))
  {
    hide DueOffers, Stamped, Pruned, Unique;
    match step
    case Start =>
      assert Distinct(s.todo[1..]);
      OneMoreFlies(s.flying, s.todo[0].taskId, s.now);
      hide Distinct;
    case Finish(id, _) =>
      OneFewerFlies(s.flying, id);
      hide Distinct;
    case Begin =>
      hide Distinct;
    case Observe(_, _) =>
      hide Distinct;
    case Take =>
      hide Distinct;
    case Wait(_) =>
      hide Distinct;
  }

  lemma OneMoreFlies(flying: map<string, Millis>, id: string, now: Millis)
    ensures |flying[id := now]| <= |flying| + 1
  {}

  lemma OneFewerFlies(flying: map<string, Millis>, id: string)
    requires id in flying
    ensures |flying - {id}| <= |flying|
  {
    assert flying == (flying - {id})[id := flying[id]];
  }

  /** A board read offers a card only when the last start remembered is cold. */
  lemma ObserveKeepsCard(s: State, tasks: seq<Task>, workspaceId: string, id: string)
    requires FiberSound(s) && CardSound(s, id)
    ensures CardSound(Apply(s, Observe(tasks, workspaceId)), id)
    ensures Waits(Apply(s, Observe(tasks, workspaceId)).queue, id) ==>
              Waits(s.queue, id) || LastIsCold(StartsOf(s, id), s.now)
  {
    var offers := DueOffers(s.checked, tasks, workspaceId, s.now);
    OffersAreDue(s.checked, tasks, workspaceId, s.now, id);
    OfferedWaits(s.queue, offers, id);
    hide Waits, Offered, DueOffers;
  }

  lemma OfferedWaits(queue: seq<Pending>, offers: seq<Pending>, id: string)
    requires |queue| <= REFRESH_QUEUE_CAPACITY
    ensures Waits(queue, id) ==> Waits(Offered(queue, offers), id)
    ensures Waits(Offered(queue, offers), id) ==> Waits(queue, id) || Waits(offers, id)
  {
    var kept := Offered(queue, offers)[|queue|..];
    assert Offered(queue, offers) == queue + kept;
    WaitsInEither(queue, kept, id);
    if i :| 0 <= i < |kept| && kept[i].taskId == id {
      assert offers[i] == kept[i];
    }
  }

  lemma BeginKeepsCard(s: State, id: string)
    requires FiberSound(s) && CardSound(s, id) && s.batch != []
    ensures CardSound(Apply(s, Begin), id)
  {
    UniqueWaits(s.batch, id);
    assert !Waits([], id);
    BeginRemembers(s, id);
    hide Waits, Unique, Spaced, Remembered, FiberSound, Pruned;
  }

  /** A pruned card was cold, so nothing needs to remember it. */
  lemma BeginRemembers(s: State, id: string)
    requires s.batch != [] && Remembered(s, id) && (s.batch != [] ==> s.flying == map[])
    ensures Remembered(Apply(s, Begin), id)
  {
    hide Unique;
    var pruned := Pruned(s.checked, s.now);
    assert id in pruned ==> id in s.checked && pruned[id] == s.checked[id];
    assert id in s.checked && id !in pruned ==> Cold(s.checked[id], s.now);
    hide Pruned;
  }

  /** The card that starts is not waiting in the batch any more, and every other card still is. */
  lemma StartTakesOne(todo: seq<Pending>, id: string)
    requires Distinct(todo) && todo != []
    ensures Waits(todo[1..], id) <==> Waits(todo, id) && id != todo[0].taskId
    ensures Waits(todo, todo[0].taskId)
  {
    assert todo == [todo[0]] + todo[1..];
    WaitsInEither([todo[0]], todo[1..], id);
    assert Waits([todo[0]], id) <==> [todo[0]][0].taskId == id;
  }

  lemma SpacedGrows(t: seq<Millis>, now: Millis)
    requires Spaced(t) && LastButOneIsCold(t, now) && (t != [] ==> t[|t| - 1] <= now)
    ensures Spaced(t + [now])
  {}

  lemma StartKeepsCard(s: State, id: string)
    requires FiberSound(s) && CardSound(s, id) && Enabled(s, Start)
    ensures CardSound(Apply(s, Start), id)
  {
    StartTakesOne(s.todo, id);
    assert s.batch == [] && !Waits(s.batch, id);
    hide FiberSound, CardSound, Waits, Distinct, AfterStart;
    if id == s.todo[0].taskId {
      StartedStaysSound(s, id);
    } else {
      OthersStaySound(s, id);
    }
  }

  /** The card that starts: its lookups go on by one, spaced as they must be. */
  lemma StartedStaysSound(s: State, id: string)
    requires s.todo != [] && CardSound(s, id) && id == s.todo[0].taskId
    requires Waits(s.todo, id) && !Waits(s.todo[1..], id) && !Waits(s.batch, id)
    ensures CardSound(AfterStart(s), id)
  {
    StartStampsOne(s, id);
    SpacedGrows(StartsOf(s, id), s.now);
    StartedIsRemembered(s);
    hide Waits, Spaced, Remembered, AfterStart, StartsOf;
  }

  lemma StartedIsRemembered(s: State)
    requires s.todo != []
    ensures Remembered(AfterStart(s), s.todo[0].taskId)
  {}

  /** Every other card: nothing that is known of it changes. */
  lemma OthersStaySound(s: State, id: string)
    requires s.todo != [] && CardSound(s, id) && id != s.todo[0].taskId
    requires Waits(s.todo[1..], id) <==> Waits(s.todo, id)
    ensures CardSound(AfterStart(s), id)
  {
    StartStampsOne(s, id);
    OthersAreRemembered(s, id);
    hide Waits, Spaced, Remembered, AfterStart, StartsOf;
  }

  lemma OthersAreRemembered(s: State, id: string)
    requires s.todo != [] && id != s.todo[0].taskId && Remembered(s, id)
    ensures Remembered(AfterStart(s), id)
  {}

  lemma StartStampsOne(s: State, id: string)
    requires s.todo != []
    ensures var next := AfterStart(s);
            var started := id == s.todo[0].taskId;
            && next.now == s.now && next.queue == s.queue && next.batch == s.batch && next.todo == s.todo[1..]
            && StartsOf(next, id) == (if started then StartsOf(s, id) + [s.now] else StartsOf(s, id))
            && (id in next.asked <==> started || id in s.asked)
  {}

  lemma StepKeepsCard(s: State, step: Step, id: string)
    requires FiberSound(s) && CardSound(s, id) && Enabled(s, step)
    ensures CardSound(Apply(s, step), id)
  {
    match step
    case Observe(tasks, workspaceId) => ObserveKeepsCard(s, tasks, workspaceId, id);
    case Begin => BeginKeepsCard(s, id);
    case Start => StartKeepsCard(s, id);
    case Take =>
      assert !Waits([], id);
      hide Waits, Spaced;
    case Wait(_) => hide Waits, Spaced;
    case Finish(_, _) => hide Waits, Spaced;
  }

  lemma {:induction false} ReachedIsSound(start: State, steps: seq<Step>, s: State)
    requires Sound(start) && Reaches(start, steps, s)
    ensures Sound(s)
    decreases |steps|
  {
    if steps != [] {
      var next := Apply(start, steps[0]);
      forall id ensures CardSound(next, id) {
        StepKeepsCard(start, steps[0], id);
      }
      StepKeepsFiber(start, steps[0]);
      hide *;
      ReachedIsSound(next, steps[1..], s);
    }
  }

  /** Whatever boards are read, however the queue drops, batches fall and tables are pruned: of any
      three successive lookups of one card, the third starts at least a TTL after the first. */
  lemma ThirdIsATtlAfterFirst(now: Millis, steps: seq<Step>, s: State, id: string, i: nat)
    requires Reaches(NothingAsked(now), steps, s)
    requires i + 2 < |StartsOf(s, id)|
    ensures StartsOf(s, id)[i] + REFRESH_TTL_MS <= StartsOf(s, id)[i + 2]
  {
    NothingAskedIsSound(now);
    ReachedIsSound(NothingAsked(now), steps, s);
    assert CardSound(s, id);
  }

  /** A round asks about each card once: the next one to start has not been asked about since the queue
      was taken, and is not in flight. */
  lemma OnceARound(now: Millis, steps: seq<Step>, s: State)
    requires Reaches(NothingAsked(now), steps, s) && Enabled(s, Start)
    ensures s.todo[0].taskId !in s.asked && s.todo[0].taskId !in s.flying
  {
    NothingAskedIsSound(now);
    ReachedIsSound(NothingAsked(now), steps, s);
    StartTakesOne(s.todo, s.todo[0].taskId);
    assert CardSound(s, s.todo[0].taskId);
  }

  /** At most four lookups are out at once, and the next starts whenever fewer are. */
  lemma FourAtOnce(now: Millis, steps: seq<Step>, s: State)
    requires Reaches(NothingAsked(now), steps, s)
    ensures |s.flying| <= 4
    ensures s.todo != [] ==> (Enabled(s, Start) <==> |s.flying| < 4)
  {
    NothingAskedIsSound(now);
    ReachedIsSound(NothingAsked(now), steps, s);
  }

  /** What the fiber's steps do to the freshness table, card by card: a round begins by forgetting what is
      cold once there are too many, a lookup stamps its card before it asks and keeps the validator, and an
      answer leaves its own validator under that stamp. */
  lemma TableKeeps(s: State, step: Step, id: string)
    requires Enabled(s, step)
    ensures var t := Apply(s, step);
            && (step.Begin? ==>
                  (id in t.checked <==>
                     id in s.checked && (|s.checked| <= 4096 || s.now - s.checked[id].checkedAt < 120_000)))
            && (step.Start? && s.todo[0].taskId == id ==>
                  id in t.checked && t.checked[id].checkedAt == s.now
                  && t.checked[id].etag == if id in s.checked then s.checked[id].etag else None)
            && (step.Finish? && step.id == id && step.answer.Some? ==>
                  id in t.checked && t.checked[id] == Checked(s.flying[id], step.answer.value))
            && (id in s.checked && id in t.checked && t.checked[id] != s.checked[id] ==>
                  (step.Start? && s.todo[0].taskId == id) || (step.Finish? && step.id == id && step.answer.Some?))
            && (id in t.checked && id !in s.checked ==> step.Start? || step.Finish?)
  {}

  lemma {:induction false} EverySecondIsATtlOn(t: seq<Millis>, i: nat, k: nat)
    requires Spaced(t) && i + 2 * k < |t|
    ensures t[i] + k * REFRESH_TTL_MS <= t[i + 2 * k]
    decreases k
  {
    if k > 0 {
      EverySecondIsATtlOn(t, i, k - 1);
    }
  }

  /** So a card costs at most two lookups to begin with and two more for every TTL that passes: the
      thirty an hour that the constant's comment allows are at most sixty-two. */
  lemma LookupsInAWindow(now: Millis, steps: seq<Step>, s: State, id: string, i: nat, j: nat, window: nat)
    requires Reaches(NothingAsked(now), steps, s)
    requires i <= j < |StartsOf(s, id)| && StartsOf(s, id)[j] - StartsOf(s, id)[i] <= window
    ensures j - i + 1 <= 2 * (window / REFRESH_TTL_MS) + 2
  {
    NothingAskedIsSound(now);
    ReachedIsSound(NothingAsked(now), steps, s);
    assert CardSound(s, id);
    var t := StartsOf(s, id);
    hide *;
    var k := (j - i) / 2;
    EverySecondIsATtlOn(t, i, k);
    assert t[i + 2 * k] <= t[j] by { SpacedRises(t, i + 2 * k, j); }
    WholeTtls(k, window);
  }

  lemma SpacedRises(t: seq<Millis>, i: nat, j: nat)
    requires Spaced(t) && i <= j < |t|
    ensures t[i] <= t[j]
  {}

  lemma WholeTtls(k: nat, window: nat)
    requires k * REFRESH_TTL_MS <= window
    ensures k <= window / REFRESH_TTL_MS
  {}

  // ---------------------------------------------------------------- at most once per TTL

  /** The card stands somewhere between the queue and its next lookup. */
  predicate Waiting(s: State, id: string) {
    Waits(s.queue, id) || Waits(s.batch, id) || Waits(s.todo, id)
  }

  ghost predicate Extends(t: seq<Millis>, u: seq<Millis>) {
    |t| <= |u| && u[..|t|] == t
  }

  /** `later` has another lookup of the card, and it began within the TTL of the last one in `s`. */
  ghost predicate AskedTooSoon(s: State, later: State, id: string) {
    var t, u := StartsOf(s, id), StartsOf(later, id);
    Extends(t, u) && 0 < |t| < |u| && u[|t|] < t[|t| - 1] + REFRESH_TTL_MS
  }

  lemma {:induction false} StartsExtend(start: State, steps: seq<Step>, s: State, id: string)
    requires Reaches(start, steps, s)
    ensures Extends(StartsOf(start, id), StartsOf(s, id))
    decreases |steps|
  {
    if steps != [] {
      var next := Apply(start, steps[0]);
      assert Extends(StartsOf(start, id), StartsOf(next, id));
      StartsExtend(next, steps[1..], s, id);
      hide Apply, Enabled, Reaches, StartsOf;
    }
  }

  /** Unless a card is waiting while its last lookup is warm, its next one keeps the TTL. */
  lemma {:induction false} NextKeepsTheTtl(start: State, steps: seq<Step>, s: State, id: string)
    requires Sound(start) && Reaches(start, steps, s)
    requires Waiting(start, id) ==> LastIsCold(StartsOf(start, id), start.now)
    ensures !AskedTooSoon(start, s, id)
    decreases |steps|
  {
    if steps != [] {
      var next := Apply(start, steps[0]);
      var t := StartsOf(start, id);
      ReachedIsSound(start, [steps[0]], next);
      StartsExtend(next, steps[1..], s, id);
      StepKeepsCool(start, steps[0], id);
      if StartsOf(next, id) == t {
        NextKeepsTheTtl(next, steps[1..], s, id);
      } else {
        assert StartsOf(s, id)[|t|] == StartsOf(next, id)[|t|];
      }
      hide *;
    }
  }

  /** One step starts the card only once its last lookup is cold, or leaves its lookups alone and it
      waits only if they are. */
  lemma StepKeepsCool(s: State, step: Step, id: string)
    requires FiberSound(s) && CardSound(s, id) && Enabled(s, step)
    requires Waiting(s, id) ==> LastIsCold(StartsOf(s, id), s.now)
    ensures var next := Apply(s, step);
            var t := StartsOf(s, id);
            || (StartsOf(next, id) == t && (Waiting(next, id) ==> LastIsCold(t, next.now)))
            || (StartsOf(next, id) == t + [s.now] && LastIsCold(t, s.now))
  {
    match step
    case Observe(tasks, workspaceId) => ObserveKeepsCard(s, tasks, workspaceId, id);
    case Begin => UniqueWaits(s.batch, id); hide Waits, Unique;
    case Start => StartTakesOne(s.todo, id); StartStampsOne(s, id); hide Waits, AfterStart, StartsOf;
    case Take => hide Waits;
    case Wait(_) => hide Waits;
    case Finish(_, _) => hide Waits;
  }

  function Work(s: State): nat {
    4 * |s.queue| + 3 * |s.batch| + 2 * |s.todo| + |s.flying|
  }

  /** What the fiber can do next with no time passing: everything in flight comes back, the batch goes
      on, and an idle fiber takes the queue. */
  ghost function NextStep(s: State, id: string): (step: Step)
    requires FiberSound(s) && Waiting(s, id)
    ensures Enabled(s, step)
  {
    if s.flying != map[] then
      var flying :| flying in s.flying;
      Finish(flying, None)
    else if s.todo != [] then Start
    else if s.batch != [] then Begin
    else Take
  }

  lemma NextStepWorksOff(s: State, id: string)
    requires FiberSound(s) && Waiting(s, id)
    ensures var next := Apply(s, NextStep(s, id));
            && Work(next) < Work(s) && next.now == s.now
            && (StartsOf(next, id) == StartsOf(s, id) + [s.now]
                || (StartsOf(next, id) == StartsOf(s, id) && Waiting(next, id)))
  {
    var step := NextStep(s, id);
    if step.Finish? {
      hide Waits;
    } else if step.Start? {
      StartTakesOne(s.todo, id);
      hide Waits;
    } else {
      UniqueWaits(s.batch, id);
      hide Waits;
    }
  }

  /** A waiting card can be asked about again at once, its last lookup however recent. */
  lemma {:induction false} WaitingIsAskedAtOnce(s: State, id: string) returns (steps: seq<Step>, later: State)
    requires FiberSound(s) && Waiting(s, id)
    ensures Reaches(s, steps, later) && later.now == s.now
    ensures Extends(StartsOf(s, id) + [s.now], StartsOf(later, id))
    decreases Work(s)
  {
    var step := NextStep(s, id);
    var next := Apply(s, step);
    NextStepWorksOff(s, id);
    StepKeepsFiber(s, step);
    if StartsOf(next, id) == StartsOf(s, id) + [s.now] {
      steps, later := [step], next;
      assert Reaches(next, [], next);
    } else {
      var rest;
      rest, later := WaitingIsAskedAtOnce(next, id);
      steps := [step] + rest;
    }
    assert steps[0] == step;
  }

  /** The header's "at most once per TTL" holds of a card's next lookup exactly when the card is not
      waiting with its last lookup still warm. */
  lemma AskedTooSoonExactlyWhenWaitingWarm(s: State, id: string)
    requires Sound(s) && StartsOf(s, id) != []
    ensures (exists steps, later :: Reaches(s, steps, later) && AskedTooSoon(s, later, id))
       <==> Waiting(s, id) && !LastIsCold(StartsOf(s, id), s.now)
  {
    hide *;
    if Waiting(s, id) && !LastIsCold(StartsOf(s, id), s.now) {
      var steps, later := WaitingWarmIsAskedTooSoon(s, id);
      assert Reaches(s, steps, later) && AskedTooSoon(s, later, id);
    } else {
      forall steps, later | Reaches(s, steps, later) ensures !AskedTooSoon(s, later, id) {
        NextKeepsTheTtl(s, steps, later, id);
      }
    }
  }

  lemma WaitingWarmIsAskedTooSoon(s: State, id: string) returns (steps: seq<Step>, later: State)
    requires Sound(s) && StartsOf(s, id) != []
    requires Waiting(s, id) && !LastIsCold(StartsOf(s, id), s.now)
    ensures Reaches(s, steps, later) && AskedTooSoon(s, later, id)
  {
    hide FiberSound, CardSound, Waiting, Reaches, StartsOf;
    assert FiberSound(s);
    hide Sound;
    steps, later := WaitingIsAskedAtOnce(s, id);
    OneMoreStart(StartsOf(s, id), s.now, StartsOf(later, id));
  }

  lemma OneMoreStart(t: seq<Millis>, now: Millis, u: seq<Millis>)
    requires Extends(t + [now], u)
    ensures Extends(t, u) && |t| < |u| && u[|t|] == now
  {
    assert u[..|t|] == u[..|t| + 1][..|t|] == t;
    assert u[|t|] == u[..|t| + 1][|t|];
  }

  // ---------------------------------------------------------------- the bound is reached

  /** Runs can be put end to end. */
  lemma {:induction false} ReachesOn(start: State, first: seq<Step>, middle: State, second: seq<Step>, s: State)
    requires Reaches(start, first, middle) && Reaches(middle, second, s)
    ensures Reaches(start, first + second, s)
    decreases |first|
  {
    hide Apply, Enabled;
    if first == [] {
      assert first + second == second;
    } else {
      ReachesOn(Apply(start, first[0]), first[1..], middle, second, s);
      assert (first + second)[1..] == first[1..] + second;
    }
  }

  lemma OneStep(s: State, step: Step, rest: seq<Step>, later: State)
    requires Enabled(s, step) && Reaches(Apply(s, step), rest, later)
    ensures Reaches(s, [step] + rest, later)
  {
    hide Apply, Enabled;
    assert ([step] + rest)[1..] == rest;
  }

  function OpenCard(): Task {
    Task("a", Some(Link("https://github.com/o/r/pull/1", true)), Some(Open), None)
  }

  const CARD := Pending("a", "w")
  const OFFER := Observe([OpenCard()], "w")
  const NO_ANSWER := Finish("a", None)

  /** A world of one card, last looked up at `last` and, in all, at these times. */
  datatype World = World(now: Millis, last: Option<Millis>, times: seq<Millis>)

  function TableOf(w: World): Table {
    if w.last.None? then map[] else map["a" := Checked(w.last.value, None)]
  }

  function Stage(w: World, queue: seq<Pending>, batch: seq<Pending>, todo: seq<Pending>, flying: bool, asked: bool)
    : State
  {
    State(w.now, TableOf(w), queue, batch, todo, if flying then map["a" := w.now] else map[],
          if w.times == [] then map[] else map["a" := w.times], if asked then {"a"} else {})
  }

  function AskedNow(w: World): World {
    World(w.now, Some(w.now), w.times + [w.now])
  }

  predicate CardIsDue(w: World) {
    w.now >= REFRESH_TTL_MS && (w.last.Some? ==> w.last.value + REFRESH_TTL_MS <= w.now)
  }

  lemma OfferTaken(w: World, todo: seq<Pending>, asked: bool)
    requires CardIsDue(w)
    ensures Enabled(Stage(w, [], [], todo, false, asked), OFFER)
    ensures Apply(Stage(w, [], [], todo, false, asked), OFFER) == Stage(w, [CARD], [], todo, false, asked)
  {
    OfferOfOne(TableOf(w), OpenCard(), "w", w.now);
    assert CallsForALookup(TableOf(w), OpenCard(), w.now);
    hide DueOffers, CallsForALookup;
    assert DueOffers(TableOf(w), [OpenCard()], "w", w.now) == [CARD];
  }

  lemma BatchOfOne(w: World, asked: bool)
    ensures Enabled(Stage(w, [CARD], [], [], false, asked), Take)
    ensures Apply(Stage(w, [CARD], [], [], false, asked), Take) == Stage(w, [], [CARD], [], false, false)
    ensures Enabled(Stage(w, [], [CARD], [], false, false), Begin)
    ensures Apply(Stage(w, [], [CARD], [], false, false), Begin) == Stage(w, [], [], [CARD], false, false)
  {
    UniqueOfOne();
    assert |TableOf(w)| <= 1;
    hide Unique;
  }

  lemma UniqueOfOne()
    ensures Unique([CARD]) == [CARD]
  {
    assert [CARD][..0] == [];
  }

  lemma LookupOfOne(w: World, queue: seq<Pending>)
    ensures Enabled(Stage(w, queue, [], [CARD], false, false), Start)
    ensures Apply(Stage(w, queue, [], [CARD], false, false), Start) == Stage(AskedNow(w), queue, [], [], true, true)
    ensures Enabled(Stage(AskedNow(w), queue, [], [], true, true), NO_ANSWER)
    ensures Apply(Stage(AskedNow(w), queue, [], [], true, true), NO_ANSWER)
         == Stage(AskedNow(w), queue, [], [], false, true)
  {
    assert [CARD][1..] == [];
    assert map["a" := w.now] - {"a"} == map[];
  }

  /** One card, offered again between the batch it is in and its own lookup. A fifth card of a batch
      stands there for as long as four lookups take. */
  const FIRST_BATCH := [OFFER] + ([Take] + ([Begin] + ([OFFER] + ([Start] + ([NO_ANSWER] + [])))))
  const SECOND_BATCH := [Take] + ([Begin] + ([Start] + ([NO_ANSWER] + [])))

  lemma FirstBatchRuns(w: World, asked: bool)
    requires CardIsDue(w)
    ensures Reaches(Stage(w, [], [], [], false, asked), FIRST_BATCH, Stage(AskedNow(w), [CARD], [], [], false, true))
  {
    var end := Stage(AskedNow(w), [CARD], [], [], false, true);
    assert Reaches(end, [], end);
    OfferTaken(w, [], asked);
    BatchOfOne(w, asked);
    OfferTaken(w, [CARD], false);
    LookupOfOne(w, [CARD]);
    hide *;
    OneStep(Stage(AskedNow(w), [CARD], [], [], true, true), NO_ANSWER, [], end);
    OneStep(Stage(w, [CARD], [], [CARD], false, false), Start, [NO_ANSWER] + [], end);
    OneStep(Stage(w, [], [], [CARD], false, false), OFFER, [Start] + ([NO_ANSWER] + []), end);
    OneStep(Stage(w, [], [CARD], [], false, false), Begin, [OFFER] + ([Start] + ([NO_ANSWER] + [])), end);
    OneStep(Stage(w, [CARD], [], [], false, asked), Take, [Begin] + ([OFFER] + ([Start] + ([NO_ANSWER] + []))), end);
    OneStep(Stage(w, [], [], [], false, asked), OFFER,
            [Take] + ([Begin] + ([OFFER] + ([Start] + ([NO_ANSWER] + [])))), end);
  }

  lemma SecondBatchRuns(w: World)
    ensures Reaches(Stage(w, [CARD], [], [], false, true), SECOND_BATCH, Stage(AskedNow(w), [], [], [], false, true))
  {
    var end := Stage(AskedNow(w), [], [], [], false, true);
    assert Reaches(end, [], end);
    BatchOfOne(w, true);
    LookupOfOne(w, []);
    hide *;
    OneStep(Stage(AskedNow(w), [], [], [], true, true), NO_ANSWER, [], end);
    OneStep(Stage(w, [], [], [CARD], false, false), Start, [NO_ANSWER] + [], end);
    OneStep(Stage(w, [], [CARD], [], false, false), Begin, [Start] + ([NO_ANSWER] + []), end);
    OneStep(Stage(w, [CARD], [], [], false, true), Take, [Begin] + ([Start] + ([NO_ANSWER] + [])), end);
  }

  const ROUND := FIRST_BATCH + SECOND_BATCH

  /** A card that is due is looked up twice with no time passing. */
  lemma RoundRuns(w: World, asked: bool)
    requires CardIsDue(w)
    ensures Reaches(Stage(w, [], [], [], false, asked), ROUND, Stage(AskedNow(AskedNow(w)), [], [], [], false, true))
  {
    FirstBatchRuns(w, asked);
    SecondBatchRuns(AskedNow(w));
    hide *;
    ReachesOn(Stage(w, [], [], [], false, asked), FIRST_BATCH, Stage(AskedNow(w), [CARD], [], [], false, true),
              SECOND_BATCH, Stage(AskedNow(AskedNow(w)), [], [], [], false, true));
  }

  /** Two lookups at every TTL up to the `k`-th. */
  function TwiceEvery(k: nat): (r: seq<Millis>)
    ensures |r| == 2 * k
    ensures forall i :: 0 <= i < k ==> r[2 * i] == r[2 * i + 1] == (i + 1) * REFRESH_TTL_MS
  {
    if k == 0 then [] else TwiceEvery(k - 1) + [k * REFRESH_TTL_MS, k * REFRESH_TTL_MS]
  }

  function WorldAfter(k: nat): World {
    World(k * REFRESH_TTL_MS, if k == 0 then None else Some(k * REFRESH_TTL_MS), TwiceEvery(k))
  }

  function RestAfter(k: nat): State {
    Stage(WorldAfter(k), [], [], [], false, k > 0)
  }

  lemma OneTtlOn(k: nat)
    ensures Reaches(RestAfter(k), [Wait(REFRESH_TTL_MS)] + ROUND, RestAfter(k + 1))
  {
    var w := WorldAfter(k).(now := (k + 1) * REFRESH_TTL_MS);
    assert CardIsDue(w);
    assert AskedNow(AskedNow(w)) == WorldAfter(k + 1);
    assert Enabled(RestAfter(k), Wait(REFRESH_TTL_MS));
    assert Apply(RestAfter(k), Wait(REFRESH_TTL_MS)) == Stage(w, [], [], [], false, k > 0);
    RoundRuns(w, k > 0);
    assert RestAfter(k + 1) == Stage(AskedNow(AskedNow(w)), [], [], [], false, true);
    hide *;
    OneStep(RestAfter(k), Wait(REFRESH_TTL_MS), ROUND, RestAfter(k + 1));
  }

  lemma {:induction false} TwiceEveryTtl(k: nat) returns (steps: seq<Step>)
    ensures Reaches(NothingAsked(0), steps, RestAfter(k))
    decreases k
  {
    hide *;
    if k == 0 {
      steps := [];
      NothingYet();
    } else {
      var before := TwiceEveryTtl(k - 1);
      OneTtlOn(k - 1);
      steps := before + ([Wait(REFRESH_TTL_MS)] + ROUND);
      ReachesOn(NothingAsked(0), before, RestAfter(k - 1), [Wait(REFRESH_TTL_MS)] + ROUND, RestAfter(k));
    }
  }

  lemma NothingYet()
    ensures Reaches(NothingAsked(0), [], RestAfter(0))
  {
    assert RestAfter(0) == NothingAsked(0);
  }

  /** The bound on lookups in a window is reached for every window: an hour can see sixty-two. */
  lemma WindowsCanBeFull(window: nat) returns (steps: seq<Step>, s: State, i: nat, j: nat)
    ensures Reaches(NothingAsked(0), steps, s)
    ensures i <= j < |StartsOf(s, "a")| && StartsOf(s, "a")[j] - StartsOf(s, "a")[i] <= window
    ensures j - i + 1 == 2 * (window / REFRESH_TTL_MS) + 2
  {
    var k := window / REFRESH_TTL_MS + 1;
    steps := TwiceEveryTtl(k);
    s, i, j := RestAfter(k), 0, 2 * k - 1;
    RestTimes(k);
    hide *;
    var t := TwiceEvery(k);
    assert t[2 * 0] == (0 + 1) * REFRESH_TTL_MS && t[2 * (k - 1) + 1] == (k - 1 + 1) * REFRESH_TTL_MS;
    TtlsFit(window);
  }

  lemma RestTimes(k: nat)
    requires k > 0
    ensures StartsOf(RestAfter(k), "a") == TwiceEvery(k)
  {
    hide TwiceEvery;
  }

  lemma TtlsFit(window: nat)
    ensures window / REFRESH_TTL_MS * REFRESH_TTL_MS <= window
  {}

  /** So "at most once per TTL" is false: two lookups of one card in the same millisecond. */
  lemma TwiceInOneMillisecond() returns (steps: seq<Step>, s: State)
    ensures Reaches(NothingAsked(0), steps, s) && s.now == REFRESH_TTL_MS
    ensures StartsOf(s, "a") == [REFRESH_TTL_MS, REFRESH_TTL_MS]
  {
    steps := TwiceEveryTtl(1);
    s := RestAfter(1);
    RestTimes(1);
    assert TwiceEvery(0) == [];
    assert TwiceEvery(1) == [REFRESH_TTL_MS, REFRESH_TTL_MS];
  }
}
