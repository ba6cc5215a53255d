/** When a card's pull request is looked up again (`apps/gateway/src/pr-state.ts`): the freshness
    table, the dropping queue and the batch the drain makes of it. `PrRefreshMachine` runs them. */
module PrRefresh {
  import opened Options

  /** Milliseconds since the epoch, as the clock and the stored stamps give them. */
  type Millis = nat

  const REFRESH_TTL_MS: nat := 120_000
  const REFRESH_CONCURRENCY: nat := 4
  const REFRESH_QUEUE_CAPACITY: nat := 256
  const CHECKED_TABLE_CAP: nat := 4096

  datatype PrState = Draft | Open | Merged | Closed

  /** A card's link; `parses` says whether it reads as a pull request's address. */
  datatype Link = Link(url: string, parses: bool)

  datatype Task = Task(id: string, link: Option<Link>, prState: Option<PrState>, prStateAt: Option<Millis>)

  datatype Pending = Pending(taskId: string, workspaceId: string)

  datatype Checked = Checked(checkedAt: Millis, etag: Option<string>)

  type Table = map<string, Checked>

  // ---------------------------------------------------------------- which cards are due

  predicate IsTerminalPrState(state: PrState) {
    state.Merged? || state.Closed?
  }

  predicate IsRefreshable(task: Task) {
    && task.link.Some? && task.link.value.parses
    && !(task.prState.Some? && IsTerminalPrState(task.prState.value))
  }

  /** The later of two stamps, the table's and the row's, where a missing one counts as the epoch. */
  function FreshestAt(checked: Option<Checked>, task: Task): Millis {
    var remembered := if checked.None? then 0 else checked.value.checkedAt;
    var stored := if task.prStateAt.None? then 0 else task.prStateAt.value;
    if remembered >= stored then remembered else stored
  }

  function Lookup(table: Table, id: string): Option<Checked> {
    if id in table then Some(table[id]) else None
  }

  predicate Due(table: Table, task: Task, now: Millis) {
    IsRefreshable(task) && now - FreshestAt(Lookup(table, task.id), task) >= REFRESH_TTL_MS
  }

  predicate Cold(entry: Checked, now: Millis) {
    now - entry.checkedAt >= REFRESH_TTL_MS
  }

  /** What `prune` leaves: everything up to the cap, past it only what is still warm. */
  function Pruned(table: Table, now: Millis): Table {
    if |table| <= CHECKED_TABLE_CAP then table
    else map id | id in table && !Cold(table[id], now) :: table[id]
  }

  /** Forgetting a cold entry never changes whether a card is due, then or later. */
  lemma PruneKeepsDue(table: Table, now: Millis, later: Millis, task: Task)
    requires now <= later
    ensures Due(Pruned(table, now), task, later) <==> Due(table, task, later)
  {
    var pruned := Pruned(table, now);
    if task.id in table && task.id !in pruned {
      assert Cold(table[task.id], now);
    } else {
      assert Lookup(pruned, task.id) == Lookup(table, task.id);
    }
  }

  /** Stamped before the request goes out, with the newest validator known. */
  function Stamped(table: Table, id: string, startedAt: Millis): Table {
    table[id := Checked(startedAt, if id in table then table[id].etag else None)]
  }

  function Answered(table: Table, id: string, startedAt: Millis, etag: Option<string>): Table {
    table[id := Checked(startedAt, etag)]
  }

  // ---------------------------------------------------------------- the queue

  function DueOffers(table: Table, tasks: seq<Task>, workspaceId: string, now: Millis): seq<Pending> {
    if tasks == [] then []
    else (if Due(table, tasks[0], now) then [Pending(tasks[0].id, workspaceId)] else [])
         + DueOffers(table, tasks[1..], workspaceId, now)
  }

  /** A dropping queue keeps what it has and as many of the new offers as there is room for. */
  function Offered(queue: seq<Pending>, offers: seq<Pending>): seq<Pending>
    requires |queue| <= REFRESH_QUEUE_CAPACITY
  {
    var room := REFRESH_QUEUE_CAPACITY - |queue|;
    queue + if |offers| <= room then offers else offers[..room]
  }

  predicate Waits(queue: seq<Pending>, id: string) {
    exists i :: 0 <= i < |queue| && queue[i].taskId == id
  }

  /** A link that reads as a pull request's, a state that is not final, and neither this process nor the row
      stamped within the last two minutes; no stamp counts as the epoch. */
  predicate CallsForALookup(table: Table, task: Task, now: Millis) {
    && task.link.Some? && task.link.value.parses
    && task.prState != Some(Merged) && task.prState != Some(Closed)
    && 120_000 <= now
    && (task.id in table ==> table[task.id].checkedAt + 120_000 <= now)
    && (task.prStateAt.Some? ==> task.prStateAt.value + 120_000 <= now)
  }

  lemma DueIsCallsForALookup(table: Table, task: Task, now: Millis)
    ensures Due(table, task, now) <==> CallsForALookup(table, task, now)
  {}

  /** One task is offered, under its own id and the reader's workspace, exactly when it calls for a lookup. */
  lemma OfferOfOne(table: Table, task: Task, workspaceId: string, now: Millis)
    ensures DueOffers(table, [task], workspaceId, now)
         == if CallsForALookup(table, task, now) then [Pending(task.id, workspaceId)] else []
  {
    DueIsCallsForALookup(table, task, now);
    assert [task][1..] == [] && DueOffers(table, [], workspaceId, now) == [];
    hide Due, CallsForALookup;
  }

  lemma FirstOffer(table: Table, tasks: seq<Task>, workspaceId: string, now: Millis)
    requires tasks != []
    ensures DueOffers(table, tasks, workspaceId, now)
         == DueOffers(table, [tasks[0]], workspaceId, now) + DueOffers(table, tasks[1..], workspaceId, now)
  {
    assert [tasks[0]][1..] == [] && DueOffers(table, [], workspaceId, now) == [];
    hide Due;
  }

  /** The offers of a longer read are those of its parts, in order. */
  lemma {:induction false} OffersOfBoth(table: Table, a: seq<Task>, b: seq<Task>, workspaceId: string, now: Millis)
    ensures DueOffers(table, a + b, workspaceId, now)
         == DueOffers(table, a, workspaceId, now) + DueOffers(table, b, workspaceId, now)
  {
    if a == [] {
      assert a + b == b;
    } else {
      hide *;
      var whole := a + b;
      assert whole[1..] == a[1..] + b && whole[0] == a[0];
      OffersOfBoth(table, a[1..], b, workspaceId, now);
      FirstOffer(table, whole, workspaceId, now);
      FirstOffer(table, a, workspaceId, now);
    }
  }

  lemma {:induction false} OffersAreDue(
      table: Table, tasks: seq<Task>, workspaceId: string, now: Millis, id: string)
    ensures Waits(DueOffers(table, tasks, workspaceId, now), id)
        <==> exists i :: 0 <= i < |tasks| && tasks[i].id == id && CallsForALookup(table, tasks[i], now)
  {
    hide CallsForALookup, Due;
    if tasks != [] {
      var tail := tasks[1..];
      OfferOfOne(table, tasks[0], workspaceId, now);
      FirstOffer(table, tasks, workspaceId, now);
      hide DueOffers;
      var first := DueOffers(table, [tasks[0]], workspaceId, now);
      WaitsInEither(first, DueOffers(table, tail, workspaceId, now), id);
      OffersAreDue(table, tail, workspaceId, now, id);
      assert first != [] ==> first[0].taskId == tasks[0].id;
      assert Waits(first, id) <==> tasks[0].id == id && CallsForALookup(table, tasks[0], now);
      hide Waits;
      assert forall i :: 0 <= i < |tail| ==> tail[i] == tasks[i + 1];
      assert forall i :: 0 < i < |tasks| ==> tasks[i] == tail[i - 1];
    }
  }

  lemma WhoWaits(queue: seq<Pending>, table: Table, tasks: seq<Task>, workspaceId: string, now: Millis)
    requires |queue| <= REFRESH_QUEUE_CAPACITY
    ensures var after := Offered(queue, DueOffers(table, tasks, workspaceId, now));
            |after| < 256 ==>
              forall id :: Waits(after, id) <==>
                Waits(queue, id)
                || exists i :: 0 <= i < |tasks| && tasks[i].id == id && CallsForALookup(table, tasks[i], now)
  {
    var offers := DueOffers(table, tasks, workspaceId, now);
    OfferedIs(queue, offers);
    hide *;
    forall id
      ensures Waits(queue + offers, id) <==>
                Waits(queue, id)
                || exists i :: 0 <= i < |tasks| && tasks[i].id == id && CallsForALookup(table, tasks[i], now)
    {
      OffersAreDue(table, tasks, workspaceId, now, id);
      WaitsInEither(queue, offers, id);
    }
  }

  /** A board read adds its stale cards behind those that wait, up to 256 in all. */
  lemma OfferedIs(queue: seq<Pending>, offers: seq<Pending>)
    requires |queue| <= REFRESH_QUEUE_CAPACITY
    ensures var after := Offered(queue, offers);
            && |after| == (if |queue| + |offers| <= 256 then |queue| + |offers| else 256)
            && after <= queue + offers
  {}

  lemma WaitsInEither(a: seq<Pending>, b: seq<Pending>, id: string)
    ensures Waits(a + b, id) <==> Waits(a, id) || Waits(b, id)
  {
    if i :| 0 <= i < |a| && a[i].taskId == id {
      assert (a + b)[i] == a[i];
    }
    if i :| 0 <= i < |b| && b[i].taskId == id {
      assert (a + b)[|a| + i] == b[i];
    }
  }

  // ---------------------------------------------------------------- one batch, each card once

  predicate Distinct(batch: seq<Pending>) {
    forall i, j :: 0 <= i < j < |batch| ==> batch[i].taskId != batch[j].taskId
  }

  /** `p` is the last of its card in the batch. */
  ghost predicate LastOfCard(batch: seq<Pending>, p: Pending) {
    exists i :: 0 <= i < |batch| && batch[i] == p && forall j :: i < j < |batch| ==> batch[j].taskId != p.taskId
  }

  /** Setting a key of an insertion-ordered map: the key keeps its place, or goes to the end. */
  function SetEntry(entries: seq<Pending>, p: Pending): (r: seq<Pending>)
    requires Distinct(entries)
    ensures Distinct(r) && |entries| <= |r| <= |entries| + 1
    ensures forall q :: q in r <==> q == p || (q in entries && q.taskId != p.taskId)
    ensures forall i :: 0 <= i < |entries| ==> r[i].taskId == entries[i].taskId
  {
    if entries == [] then [p]
    else if entries[0].taskId == p.taskId then [p] + entries[1..]
    else [entries[0]] + SetEntry(entries[1..], p)
  }

  function Unique(batch: seq<Pending>): (r: seq<Pending>)
    ensures Distinct(r) && |r| <= |batch|
  {
    if batch == [] then [] else SetEntry(Unique(batch[..|batch| - 1]), batch[|batch| - 1])
  }

  /** What a batch comes down to: the last offer of every card in it. */
  lemma {:induction false} UniqueIsLastOfEach(batch: seq<Pending>, p: Pending)
    ensures p in Unique(batch) <==> LastOfCard(batch, p)
  {
    if batch != [] {
      var n := |batch| - 1;
      UniqueIsLastOfEach(batch[..n], p);
      LastOfCardGrows(batch, p);
    }
  }

  lemma LastOfCardGrows(batch: seq<Pending>, p: Pending)
    requires batch != []
    ensures var n := |batch| - 1;
            LastOfCard(batch, p) <==> p == batch[n] || (LastOfCard(batch[..n], p) && p.taskId != batch[n].taskId)
  {
    var n := |batch| - 1;
    var front := batch[..n];
    assert p == batch[n] ==> LastOfCard(batch, p);
    if i :| 0 <= i < |front| && front[i] == p && forall j :: i < j < |front| ==> front[j].taskId != p.taskId {
      assert batch[i] == p;
      assert forall j :: i < j < n ==> batch[j] == front[j];
    }
    if i :| 0 <= i < |batch| && batch[i] == p && forall j :: i < j < |batch| ==> batch[j].taskId != p.taskId {
      if i < n {
        assert front[i] == p;
      }
    }
  }

  /** Cards stay in the order they were first offered: more offers only add cards at the end. */
  lemma {:induction false} UniqueKeepsPlaces(batch: seq<Pending>, n: nat)
    requires n <= |batch|
    ensures |Unique(batch[..n])| <= |Unique(batch)|
    ensures forall i :: 0 <= i < |Unique(batch[..n])| ==> Unique(batch)[i].taskId == Unique(batch[..n])[i].taskId
  {
    if n == |batch| {
      assert batch[..n] == batch;
    } else {
      var front := batch[..|batch| - 1];
      assert front[..n] == batch[..n];
      UniqueKeepsPlaces(front, n);
    }
  }

  lemma {:induction false} UniqueWaits(batch: seq<Pending>, id: string)
    ensures Waits(Unique(batch), id) <==> Waits(batch, id)
  {
    hide Waits, SetEntry, Distinct;
    if batch == [] {
      WaitsIsMembership(batch, id);
    } else {
      var n := |batch| - 1;
      assert Unique(batch) == SetEntry(Unique(batch[..n]), batch[n]);
      hide Unique;
      UniqueWaits(batch[..n], id);
      SetEntryWaits(Unique(batch[..n]), batch[n], id);
      WaitsIsMembership([batch[n]], id);
      WaitsInEither(batch[..n], [batch[n]], id);
      assert batch == batch[..n] + [batch[n]];
    }
  }

  lemma SetEntryWaits(entries: seq<Pending>, p: Pending, id: string)
    requires Distinct(entries)
    ensures Waits(SetEntry(entries, p), id) <==> Waits(entries, id) || p.taskId == id
  {
    var r := SetEntry(entries, p);
    WaitsIsMembership(r, id);
    WaitsIsMembership(entries, id);
    hide Waits;
    assert p in r;
  }

  lemma WaitsIsMembership(queue: seq<Pending>, id: string)
    ensures Waits(queue, id) <==> exists p :: p in queue && p.taskId == id
  {
    if p :| p in queue && p.taskId == id {
      var i :| 0 <= i < |queue| && queue[i] == p;
    }
  }

  // ---------------------------------------------------------------- the service

  class PrStates {
    var checked: Table
    var queue: seq<Pending>

    ghost predicate Valid()
      reads this
    {
      |queue| <= REFRESH_QUEUE_CAPACITY
    }

    constructor ()
      ensures Valid() && checked == map[] && queue == []
    {
      checked, queue := map[], [];
    }

    method Prune(now: Millis)
      modifies this`checked
      ensures checked == Pruned(old(checked), now)
      ensures forall id :: id in checked <==>
                id in old(checked) && (|old(checked)| <= 4096 || now - old(checked)[id].checkedAt < 120_000)
      ensures forall id :: id in checked ==> checked[id] == old(checked)[id]
    {
      if |checked| <= CHECKED_TABLE_CAP {
        return;
      }
      var left := checked.Keys;
      while left != {}
        invariant left <= old(checked).Keys
        invariant checked == map id | id in old(checked) && (id in left || !Cold(old(checked)[id], now))
                               :: old(checked)[id]
        decreases |left|
      {
        var id :| id in left;
        if Cold(checked[id], now) {
          checked := checked - {id};
        }
        left := left - {id};
      }
    }

    /** Offers the queue every due card of a board read, and loses those it has no room for. */
    method Observe(tasks: seq<Task>, workspaceId: string, now: Millis)
      requires Valid()
      modifies this`queue
      ensures Valid()
      ensures queue == Offered(old(queue), DueOffers(checked, tasks, workspaceId, now))
      ensures |queue| < 256 ==>
                forall id :: Waits(queue, id) <==>
                  Waits(old(queue), id)
                  || exists i :: 0 <= i < |tasks| && tasks[i].id == id && CallsForALookup(checked, tasks[i], now)
    {
      hide Due, DueOffers, Offered, CallsForALookup, Waits;
      OfferNothing(queue, checked, tasks, workspaceId, now);
      for i := 0 to |tasks|
        invariant Valid() && checked == old(checked)
        invariant queue == Offered(old(queue), DueOffers(checked, tasks[..i], workspaceId, now))
      {
        OfferNext(old(queue), checked, tasks, i, workspaceId, now);
        if Due(checked, tasks[i], now) && |queue| < REFRESH_QUEUE_CAPACITY {
          queue := queue + [Pending(tasks[i].id, workspaceId)];
        }
      }
      WhoWaits(old(queue), checked, tasks, workspaceId, now);
    }

    /** Empties the queue, prunes the table, and makes a batch that names each card once. */
    method TakeBatch(now: Millis) returns (todo: seq<Pending>)
      requires Valid()
      modifies this
      ensures Valid() && queue == []
      ensures checked == Pruned(old(checked), now)
      ensures todo == Unique(old(queue))
    {
      var batch := queue;
      queue := [];
      Prune(now);
      todo := [];
      for i := 0 to |batch|
        invariant todo == Unique(batch[..i])
        invariant queue == [] && checked == Pruned(old(checked), now)
      {
        assert batch[..i + 1][..i] == batch[..i];
        todo := SetEntry(todo, batch[i]);
      }
      assert batch[..|batch|] == batch;
    }

    /** The stamp goes in first, so a board read during the lookup does not find the card due. */
    method StartRefresh(id: string, startedAt: Millis)
      modifies this`checked
      ensures checked == Stamped(old(checked), id, startedAt)
      ensures forall task: Task, now: Millis ::
                task.id == id && now < startedAt + REFRESH_TTL_MS ==> !Due(checked, task, now)
    {
      var etag := if id in checked then checked[id].etag else None;
      checked := checked[id := Checked(startedAt, etag)];
    }

    /** An answer replaces the validator under the stamp it was asked with, so it makes no card due and
        none fresh that was not. */
    method FinishRefresh(id: string, startedAt: Millis, answer: Option<Option<string>>)
      modifies this`checked
      ensures checked == if answer.None? then old(checked) else Answered(old(checked), id, startedAt, answer.value)
      ensures id in old(checked) && old(checked)[id].checkedAt == startedAt ==>
                forall task: Task, now: Millis :: Due(checked, task, now) <==> Due(old(checked), task, now)
    {
      if answer.Some? {
        checked := checked[id := Checked(startedAt, answer.value)];
      }
    }
  }

  lemma OfferNothing(queue: seq<Pending>, table: Table, tasks: seq<Task>, workspaceId: string, now: Millis)
    requires |queue| <= REFRESH_QUEUE_CAPACITY
    ensures Offered(queue, DueOffers(table, tasks[..0], workspaceId, now)) == queue
    ensures tasks[..|tasks|] == tasks
  {}

  lemma OfferNext(queue: seq<Pending>, table: Table, tasks: seq<Task>, i: nat, workspaceId: string, now: Millis)
    requires |queue| <= REFRESH_QUEUE_CAPACITY && i < |tasks|
    ensures var before := Offered(queue, DueOffers(table, tasks[..i], workspaceId, now));
            var after := Offered(queue, DueOffers(table, tasks[..i + 1], workspaceId, now));
            var fits := Due(table, tasks[i], now) && |before| < REFRESH_QUEUE_CAPACITY;
            after == if fits then before + [Pending(tasks[i].id, workspaceId)] else before
  {
    OffersOfBoth(table, tasks[..i], [tasks[i]], workspaceId, now);
    OfferOfOne(table, tasks[i], workspaceId, now);
    DueIsCallsForALookup(table, tasks[i], now);
    assert tasks[..i + 1] == tasks[..i] + [tasks[i]];
    var offers := DueOffers(table, tasks[..i], workspaceId, now);
    hide Due, DueOffers, CallsForALookup;
    OfferOneMore(queue, offers, Pending(tasks[i].id, workspaceId));
  }

  lemma OfferOneMore(queue: seq<Pending>, offers: seq<Pending>, p: Pending)
    requires |queue| <= REFRESH_QUEUE_CAPACITY
    ensures var before := Offered(queue, offers);
            Offered(queue, offers + [p]) == if |before| < REFRESH_QUEUE_CAPACITY then before + [p] else before
  {
    var room := REFRESH_QUEUE_CAPACITY - |queue|;
    if |offers| >= room {
      assert (offers + [p])[..room] == offers[..room];
    }
  }
}
