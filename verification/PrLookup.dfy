/** One card's lookups against its row and GitHub (`refresh` and `resolve` in `apps/gateway/src/pr-state.ts`,
    `recordPrState` in `packages/db/src/repositories/task-pr.ts`, the clearing of the cached state in
    `packages/db/src/repositories/task-edit.ts`): pull requests change, the card's link is written and
    the card deleted at any moment, and any part of a lookup can fail. */
module PrLookup {
  import opened Options
  import opened PrRefresh

  /** A pull request as GitHub serves it, with the validator of that answer when it gives one. */
  datatype Published = Published(state: PrState, etag: Option<string>)

  datatype Row = Row(url: Option<string>, state: Option<PrState>, etag: Option<string>)

  datatype Resolved = Resolved(etag: Option<string>, state: Option<PrState>, url: string)

  /** Where the card's one lookup stands: stamped, sent, or answered with news and not yet written. */
  datatype Phase =
    | Idle
    | Started
    | Asking(resolved: Resolved)
    | Recording(url: string, state: PrState, etag: Option<string>)

  /** `known` is the validator in the freshness table. `issued`, `told` and `asked` are history: which
      state every validator of a pull request was given for, which states were answered, and how many
      lookups were sent. */
  datatype State = State(
    hub: map<string, Published>, row: Option<Row>, known: Option<string>, phase: Phase,
    issued: map<(string, string), PrState>, told: set<(string, PrState)>, asked: nat)

  datatype Step =
    | Publish(url: string, published: Published)
    | PointAt(link: Option<string>)
    | Remove
    | Forget
    | Start
    | Resolve
    | Answer
    | Record
    | Fail

  predicate IsOver(state: Option<PrState>) {
    state.Some? && IsTerminalPrState(state.value)
  }

  /** A validator names one version of a pull request (RFC 9110, section 8.8.3), so it is never given
      again for another state of the same one. */
  ghost predicate Enabled(s: State, step: Step) {
    match step
    case Publish(url, p) =>
      p.etag.Some? && (url, p.etag.value) in s.issued ==> s.issued[(url, p.etag.value)] == p.state
    case PointAt(_) => s.row.Some?
    case Remove => true
    case Forget => s.phase.Idle?
    case Start => s.phase.Idle?
    case Resolve => s.phase.Started?
    case Answer => s.phase.Asking? && s.phase.resolved.url in s.hub
    case Record => s.phase.Recording?
    case Fail => !s.phase.Idle?
  }

  function AfterPublish(s: State, url: string, p: Published): State {
    s.(hub := s.hub[url := p],
       issued := if p.etag.Some? then s.issued[(url, p.etag.value) := p.state] else s.issued)
  }

  /** The newest validator this process has, or the row's. */
  function ValidatorOf(s: State): Option<string> {
    if s.known.Some? || s.row.None? then s.known else s.row.value.etag
  }

  function AfterResolve(s: State): State {
    if s.row.None? || s.row.value.url.None? || IsOver(s.row.value.state) then s.(phase := Idle)
    else s.(phase := Asking(Resolved(ValidatorOf(s), s.row.value.state, s.row.value.url.value)), asked := s.asked + 1)
  }

  /** GitHub answers "unchanged" when the validator sent is the current one. */
  predicate Unchanged(hub: map<string, Published>, url: string, etag: Option<string>) {
    url in hub && etag.Some? && hub[url].etag == etag
  }

  function AfterAnswer(s: State): State
    requires s.phase.Asking? && s.phase.resolved.url in s.hub
  {
    var r := s.phase.resolved;
    var p := s.hub[r.url];
    if Unchanged(s.hub, r.url, r.etag) then s.(phase := Idle)
    else s.(known := p.etag, told := s.told + {(r.url, p.state)},
            phase := if r.state == Some(p.state) then Idle else Recording(r.url, p.state, p.etag))
  }

  /** A row that has moved on, or that says so already, is left alone. */
  function AfterRecord(s: State): State
    requires s.phase.Recording?
  {
    var news := s.row.Some? && s.row.value.url == Some(s.phase.url) && s.row.value.state != Some(s.phase.state);
    s.(phase := Idle, row := if news then Some(Row(Some(s.phase.url), Some(s.phase.state), s.phase.etag)) else s.row)
  }

  function Apply(s: State, step: Step): State
    requires Enabled(s, step)
  {
    match step
    case Publish(url, p) => AfterPublish(s, url, p)
    case PointAt(link) => s.(row := Some(Row(link, None, None)))
    case Remove => s.(row := None)
    case Forget => s.(known := None)
    case Start => s.(phase := Started)
    case Resolve => AfterResolve(s)
    case Answer => AfterAnswer(s)
    case Record => AfterRecord(s)
    case Fail => s.(phase := Idle)
  }

  ghost predicate Reaches(start: State, steps: seq<Step>, s: State)
    decreases |steps|
  {
    if steps == [] then s == start
    else Enabled(start, steps[0]) && Reaches(Apply(start, steps[0]), steps[1..], s)
  }

  // ---------------------------------------------------------------- what every step keeps

  ghost predicate HubSound(s: State) {
    forall u :: u in s.hub && s.hub[u].etag.Some? ==>
      (u, s.hub[u].etag.value) in s.issued && s.issued[(u, s.hub[u].etag.value)] == s.hub[u].state
  }

  /** The row's state was GitHub's answer for the row's own link, and its validator came with it. */
  ghost predicate RowSound(s: State) {
    s.row.Some? ==>
      var row := s.row.value;
      && (row.state.Some? ==> row.url.Some? && (row.url.value, row.state.value) in s.told)
      && (row.etag.Some? ==>
            row.url.Some? && (row.url.value, row.etag.value) in s.issued
            && row.state == Some(s.issued[(row.url.value, row.etag.value)]))
  }

  /** While a lookup is out the row is not terminal, and what is to be written is what was answered. */
  ghost predicate PhaseSound(s: State) {
    && (s.phase.Asking? ==> !IsOver(s.phase.resolved.state))
    && (s.phase.Recording? ==> (s.phase.url, s.phase.state) in s.told)
    && (s.phase.Recording? && s.phase.etag.Some? ==>
          var given := (s.phase.url, s.phase.etag.value);
          given in s.issued && s.issued[given] == s.phase.state)
    && ((s.phase.Asking? || s.phase.Recording?) && s.row.Some? ==> !IsOver(s.row.value.state))
  }

  ghost predicate Sound(s: State) {
    HubSound(s) && RowSound(s) && PhaseSound(s)
  }

  /** A process that has just started, over whatever rows earlier ones left. */
  ghost predicate Initial(s: State) {
    HubSound(s) && RowSound(s) && s.phase.Idle? && s.known.None?
  }

  lemma StepKeeps(s: State, step: Step)
    requires Sound(s) && Enabled(s, step)
    ensures Sound(Apply(s, step))
  {}

  lemma {:induction false} RunsAreSound(start: State, steps: seq<Step>, s: State)
    requires Sound(start) && Reaches(start, steps, s)
    ensures Sound(s)
    decreases |steps|
  {
    if steps != [] {
      StepKeeps(start, steps[0]);
      hide Sound, Apply, Enabled;
      RunsAreSound(Apply(start, steps[0]), steps[1..], s);
    }
  }

  /** A card never shows the state of a pull request it does not point at: whatever is written,
      retargeted or delayed, its state is one GitHub gave for its present link. */
  lemma StateIsOfThePresentLink(start: State, steps: seq<Step>, s: State)
    requires Initial(start) && Reaches(start, steps, s)
    requires s.row.Some? && s.row.value.state.Some?
    ensures s.row.value.url.Some? && (s.row.value.url.value, s.row.value.state.value) in s.told
  {
    RunsAreSound(start, steps, s);
  }

  predicate WritesRow(step: Step) {
    step.PointAt? || step.Remove?
  }

  /** A lookup writes only news: the row changes only together with its state, and an answer that says what
      the lookup read is not even taken to the row. */
  lemma OnlyNewsIsWritten(s: State, step: Step)
    requires Enabled(s, step) && !step.PointAt? && !step.Remove?
    ensures Apply(s, step).row != s.row ==>
              s.row.Some? && Apply(s, step).row.Some? && Apply(s, step).row.value.state != s.row.value.state
    ensures step.Answer? && Apply(s, step).phase.Recording? ==>
              s.phase.resolved.state != Some(Apply(s, step).phase.state)
  {}

  /** What the proofs remember is what happened: a state counts as given for a link only when GitHub has it for
      the link asked about, and a validator as issued only when it is published. */
  lemma HistoryIsHonest(s: State, step: Step)
    requires Enabled(s, step)
    ensures forall u, p :: (u, p) in Apply(s, step).told && (u, p) !in s.told ==>
              step.Answer? && u == s.phase.resolved.url && p == s.hub[u].state
    ensures forall g :: g in Apply(s, step).issued && g !in s.issued ==>
              step.Publish? && g.0 == step.url && Some(g.1) == step.published.etag
  {}

  /** No lookup, answered, failed or late, ever gives a card or takes it away, or moves its link. */
  lemma {:induction false} LookupsLeaveTheLink(s: State, steps: seq<Step>, t: State)
    requires Reaches(s, steps, t) && forall step :: step in steps ==> !step.PointAt? && !step.Remove?
    ensures t.row.Some? == s.row.Some? && (s.row.Some? ==> t.row.value.url == s.row.value.url)
    decreases |steps|
  {
    if steps != [] {
      assert steps[0] in steps && forall step :: step in steps[1..] ==> step in steps;
      var next := Apply(s, steps[0]);
      assert next.row.Some? == s.row.Some? && (s.row.Some? ==> next.row.value.url == s.row.value.url);
      hide Apply, Enabled;
      LookupsLeaveTheLink(next, steps[1..], t);
    }
  }

  /** Never once merged or closed: until its link is written again the row keeps its answer, and not
      one more lookup is sent. */
  lemma {:induction false} OverIsOver(s: State, steps: seq<Step>, t: State)
    requires Sound(s) && s.row.Some? && IsOver(s.row.value.state) && Reaches(s, steps, t)
    requires forall step :: step in steps ==> !WritesRow(step)
    ensures t.row == s.row && t.asked == s.asked
    decreases |steps|
  {
    if steps != [] {
      StepKeeps(s, steps[0]);
      assert steps[0] in steps;
      OverIsOver(Apply(s, steps[0]), steps[1..], t);
    }
  }

  // ---------------------------------------------------------------- does a lookup bring the row up to date

  /** The row says what GitHub would say now. */
  predicate Current(s: State) {
    && s.row.Some? && s.row.value.url.Some? && s.row.value.url.value in s.hub
    && s.row.value.state == Some(s.hub[s.row.value.url.value].state)
  }

  /** A card whose pull request is live and known to GitHub, with no lookup out. */
  predicate Ready(s: State) {
    && s.phase.Idle? && s.row.Some? && s.row.value.url.Some? && s.row.value.url.value in s.hub
    && !IsOver(s.row.value.state)
  }

  /** A lookup with nothing else happening and nothing failing. */
  function OneLookup(s: State): State
    requires Ready(s)
  {
    var asked := AfterResolve(s.(phase := Started));
    var answered := AfterAnswer(asked);
    if answered.phase.Recording? then AfterRecord(answered) else answered
  }

  /** A lookup leaves the row up to date exactly when the row was so already, or the validator it sends,
      which is the table's or else the row's, is not the current one. */
  lemma LookupBringsUpToDate(s: State)
    requires Ready(s)
    ensures var sent := if s.known.Some? then s.known else s.row.value.etag;
            var same := sent.Some? && s.hub[s.row.value.url.value].etag == sent;
            && (Current(OneLookup(s)) <==> Current(s) || !same)
            && (same ==> OneLookup(s).row == s.row)
    ensures OneLookup(s).asked == s.asked + 1
  {}

  /** What a smooth run leaves out: writing the link, and failing between an answer and its write. */
  predicate Smooth(s: State, step: Step) {
    !step.PointAt? && !(step.Fail? && s.phase.Recording?)
  }

  ghost predicate ReachesSmoothly(start: State, steps: seq<Step>, s: State)
    decreases |steps|
  {
    if steps == [] then s == start
    else Enabled(start, steps[0]) && Smooth(start, steps[0]) && ReachesSmoothly(Apply(start, steps[0]), steps[1..], s)
  }

  /** The validator in the table was given for the state in the row, or for the one being written. */
  ghost predicate Abreast(s: State) {
    s.row.Some? && s.row.value.url.Some? ==>
      var url := s.row.value.url.value;
      && (s.known.Some? ==> (url, s.known.value) in s.issued)
      && (s.known.Some? && !s.phase.Recording? ==> s.row.value.state == Some(s.issued[(url, s.known.value)]))
      && (s.phase.Asking? ==> s.phase.resolved.url == url && s.phase.resolved.state == s.row.value.state)
      && (s.phase.Recording? ==> s.phase.url == url && s.phase.etag == s.known)
  }

  lemma SmoothStepKeeps(s: State, step: Step)
    requires Sound(s) && Abreast(s) && Enabled(s, step) && Smooth(s, step)
    ensures Abreast(Apply(s, step))
  {}

  lemma {:induction false} SmoothRunsStayAbreast(start: State, steps: seq<Step>, s: State)
    requires Sound(start) && Abreast(start) && ReachesSmoothly(start, steps, s)
    ensures Sound(s) && Abreast(s)
    decreases |steps|
  {
    if steps != [] {
      StepKeeps(start, steps[0]);
      SmoothStepKeeps(start, steps[0]);
      hide Sound, Abreast, Apply, Enabled;
      SmoothRunsStayAbreast(Apply(start, steps[0]), steps[1..], s);
    }
  }

  /** On every run in which the link is not written and no write of an answer fails, every lookup
      brings the row up to date, conditional or not. */
  lemma LookupsKeepUp(start: State, steps: seq<Step>, s: State)
    requires Initial(start) && ReachesSmoothly(start, steps, s) && Ready(s)
    ensures Current(OneLookup(s))
  {
    SmoothRunsStayAbreast(start, steps, s);
    LookupBringsUpToDate(s);
    hide OneLookup;
  }

  // ---------------------------------------------------------------- when it does not

  /** The validator in the table is GitHub's current one, and the row does not say what GitHub says. */
  predicate Stuck(s: State) {
    && s.row.Some? && s.row.value.url.Some? && s.row.value.url.value in s.hub && !IsOver(s.row.value.state)
    && s.known.Some? && s.hub[s.row.value.url.value].etag == s.known
    && s.row.value.state != Some(s.hub[s.row.value.url.value].state)
    && match s.phase
       case Idle => true
       case Started => true
       case Asking(resolved) => resolved.url == s.row.value.url.value && resolved.etag == s.known
       case Recording(_, _, _) => false
  }

  /** In a reachable state a lookup fails to bring the row up to date exactly when the card is stuck. */
  lemma NotBroughtUpToDateIsStuck(start: State, steps: seq<Step>, s: State)
    requires Initial(start) && Reaches(start, steps, s) && Ready(s)
    ensures !Current(OneLookup(s)) <==> Stuck(s)
  {
    RunsAreSound(start, steps, s);
    LookupBringsUpToDate(s);
    hide OneLookup, Reaches, Initial;
  }

  /** What frees a stuck card: GitHub moving, the link written or the card deleted, the table forgetting. */
  predicate Frees(url: string, step: Step) {
    step.PointAt? || step.Remove? || step.Forget? || (step.Publish? && step.url == url)
  }

  /** And then it stays so through any number of lookups, failed or answered. */
  lemma {:induction false} StuckStaysStuck(s: State, steps: seq<Step>, t: State)
    requires Stuck(s) && Reaches(s, steps, t)
    requires forall step :: step in steps ==> !Frees(s.row.value.url.value, step)
    ensures Stuck(t) && t.row == s.row
    decreases |steps|
  {
    if steps != [] {
      assert steps[0] in steps && forall step :: step in steps[1..] ==> step in steps;
      StuckStaysStuck(Apply(s, steps[0]), steps[1..], t);
    }
  }

  lemma OneStep(s: State, step: Step, rest: seq<Step>, later: State)
    requires Enabled(s, step) && Reaches(Apply(s, step), rest, later)
    ensures Reaches(s, [step] + rest, later)
  {}

  /** A card whose merged pull request has just been answered, with the row still saying `before`. */
  function Answered(before: Option<PrState>, etag: string, phase: Phase): State {
    State(map["u" := Published(Merged, Some(etag))], Some(Row(Some("u"), before, None)), Some(etag), phase,
          map[("u", etag) := Merged], {("u", Draft), ("u", Open), ("u", Merged)}, 1)
  }

  /** An answer whose write fails is lost: the table has its validator, the row the old state, and every
      later lookup is told that nothing changed. */
  lemma ALostWriteSticks(etag: string) returns (start: State, steps: seq<Step>, s: State)
    ensures Initial(start) && Reaches(start, steps, s) && Stuck(s)
    ensures s.row.value.state == Some(Open) && s.hub == map["u" := Published(Merged, Some(etag))]
  {
    var answered := Answered(Some(Open), etag, Recording("u", Merged, Some(etag)));
    var asking := answered.(known := None, phase := Asking(Resolved(None, Some(Open), "u")));
    var started := asking.(phase := Started, asked := 0);
    s := Answered(Some(Open), etag, Idle);
    start := started.(phase := Idle);
    steps := [Start] + ([Resolve] + ([Answer] + ([Fail] + [])));
    assert Stuck(s) && Initial(start);
    LostStepByStep(etag);
    hide Initial, Stuck, Enabled, Apply;
    assert Reaches(s, [], s);
    hide Reaches;
    OneStep(answered, Fail, [], s);
    OneStep(asking, Answer, [Fail] + [], s);
    OneStep(started, Resolve, [Answer] + ([Fail] + []), s);
    OneStep(start, Start, [Resolve] + ([Answer] + ([Fail] + [])), s);
  }

  lemma LostStepByStep(etag: string)
    ensures var answered := Answered(Some(Open), etag, Recording("u", Merged, Some(etag)));
            var asking := answered.(known := None, phase := Asking(Resolved(None, Some(Open), "u")));
            var started := asking.(phase := Started, asked := 0);
            var start := started.(phase := Idle);
            && Enabled(start, Start) && Apply(start, Start) == started
            && Enabled(started, Resolve) && Apply(started, Resolve) == asking
            && Enabled(asking, Answer) && Apply(asking, Answer) == answered
            && Enabled(answered, Fail) && Apply(answered, Fail) == Answered(Some(Open), etag, Idle)
  {
    var told := Answered(Some(Open), etag, Idle).told;
    assert told + {("u", Merged)} == told;
  }

  /** Writing the same link back clears the row and not the table's validator, so the lookup it is said
      to cost brings nothing back exactly when the table holds GitHub's current validator. */
  lemma WritingTheLinkBackSticks(s: State)
    requires Ready(s)
    ensures Stuck(Apply(s, PointAt(s.row.value.url)))
       <==> s.known.Some? && s.hub[s.row.value.url.value].etag == s.known
  {}

  /** As it does after any lookup that brought news of a live pull request, with a validator. */
  lemma NewsThenTheLinkBackSticks(start: State, etag: string) returns (steps: seq<Step>, s: State)
    requires Initial(start) && Ready(start) && start.row.value.state.None? && start.row.value.etag.None?
    requires start.hub[start.row.value.url.value].etag == Some(etag)
    requires !IsTerminalPrState(start.hub[start.row.value.url.value].state)
    ensures steps == [Start] + ([Resolve] + ([Answer] + ([Record] + ([PointAt(start.row.value.url)] + []))))
    ensures Reaches(start, steps, s) && Stuck(s) && s.row.value == Row(start.row.value.url, None, None)
  {
    var link := start.row.value.url;
    var s1 := Apply(start, Start);
    var s2 := Apply(s1, Resolve);
    var s3 := Apply(s2, Answer);
    var s4 := Apply(s3, Record);
    assert Ready(s4) && s4.known == Some(etag);
    s := Apply(s4, PointAt(link));
    steps := [Start] + ([Resolve] + ([Answer] + ([Record] + ([PointAt(link)] + []))));
    WritingTheLinkBackSticks(s4);
    hide Apply, Enabled, Ready, Stuck, Initial;
    assert Reaches(s, [], s);
    OneStep(s4, PointAt(link), [], s);
    OneStep(s3, Record, [PointAt(link)] + [], s);
    OneStep(s2, Answer, [Record] + ([PointAt(link)] + []), s);
    OneStep(s1, Resolve, [Answer] + ([Record] + ([PointAt(link)] + [])), s);
    OneStep(start, Start, [Resolve] + ([Answer] + ([Record] + ([PointAt(link)] + []))), s);
  }
}
