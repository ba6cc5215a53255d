/** Takes of every set of a root and prunes between them, each killed at any of its steps
    (`take`, `anchorWeek` and `prune` in `scripts/backup.ts`), said of names, then of days and weeks. */
module Crashes {
  import opened Names
  import opened Newest
  import opened Calendar
  import opened Shelf
  import opened Retention
  import opened Backups

  /** What one run of the script does to a root: it stores a set and prunes, as far as it gets. */
  datatype Deed = Stores(name: string, attempt: Attempt) | Prunes(steps: nat)

  // ---------------------------------------------------------------- what a prune deletes, in its order

  lemma DropExists(tree: Tree, keep: nat, pattern: string -> bool) returns (drop: seq<string>)
    ensures Rising(drop) && SetOf(drop) == Dropped(tree, keep, pattern)
  {
    var names := Listing(tree.Keys);
    PartitionKeepsNewest(keep, names, pattern);
    drop := PartitionByAge(keep, names, pattern).drop;
    assert forall n :: n in names <==> n in SetOf(names);
    assert Known(tree, pattern) == set n | n in names && pattern(n);
    hide Rising, NewestOf, PartitionByAge;
  }

  ghost function DropOf(tree: Tree, keep: nat, pattern: string -> bool): (r: seq<string>)
    ensures Rising(r) && SetOf(r) == Dropped(tree, keep, pattern)
  {
    assert exists drop :: Rising(drop) && SetOf(drop) == Dropped(tree, keep, pattern) by {
      var drop := DropExists(tree, keep, pattern);
    }
    var drop :| Rising(drop) && SetOf(drop) == Dropped(tree, keep, pattern);
    drop
  }

  /** There is one such list, so it is the one the deleting loop goes through. */
  lemma {:induction false} RisingIsUnique(a: seq<string>, b: seq<string>)
    requires Rising(a) && Rising(b) && SetOf(a) == SetOf(b)
    ensures a == b
  {
    RisingCounts(a);
    RisingCounts(b);
    if a != [] {
      FirstIsLeast(a, b);
      RestOfRising(a);
      RestOfRising(b);
      assert a == [a[0]] + a[1..] && b == [b[0]] + b[1..];
      hide *;
      RisingIsUnique(a[1..], b[1..]);
    }
  }

  lemma FirstIsLeast(a: seq<string>, b: seq<string>)
    requires Rising(a) && Rising(b) && SetOf(a) == SetOf(b) && a != [] && b != []
    ensures a[0] == b[0]
  {
    assert a[0] in SetOf(b) && b[0] in SetOf(a);
    var i :| 0 <= i < |b| && b[i] == a[0];
    var j :| 0 <= j < |a| && a[j] == b[0];
    BeforeIsTotal(a[0], b[0]);
    hide Before;
  }

  lemma RestOfRising(s: seq<string>)
    requires Rising(s) && s != []
    ensures Rising(s[1..]) && SetOf(s[1..]) == SetOf(s) - {s[0]}
  {
    BeforeIsTotal(s[0], s[0]);
    hide Before;
    assert forall i :: 0 < i < |s| ==> s[i] == s[1..][i - 1];
  }

  // ---------------------------------------------------------------- runs of deeds

  /** The trees that come to be. */
  ghost function DeedTrail(tree: Tree, keep: nat, pattern: string -> bool, deed: Deed): seq<Tree>
    requires deed.Stores? ==> Plain(deed.name)
  {
    match deed
    case Stores(name, attempt) => Passed(tree, name, attempt)
    case Prunes(steps) =>
      var trail := PruneTrail(tree, DropOf(tree, keep, pattern));
      if steps >= |trail| then trail else trail[..steps]
  }

  ghost function After(tree: Tree, keep: nat, pattern: string -> bool, deed: Deed): Tree
    requires deed.Stores? ==> Plain(deed.name)
  {
    var trail := DeedTrail(tree, keep, pattern, deed);
    if trail == [] then tree else trail[|trail| - 1]
  }

  predicate PlainDeeds(run: seq<Deed>) {
    forall i :: 0 <= i < |run| && run[i].Stores? ==> Plain(run[i].name)
  }

  ghost function AfterAll(tree: Tree, keep: nat, pattern: string -> bool, run: seq<Deed>): Tree
    requires PlainDeeds(run)
    decreases |run|
  {
    if run == [] then tree else AfterAll(After(tree, keep, pattern, run[0]), keep, pattern, run[1..])
  }

  /** At every moment of the run the name has a complete set. */
  ghost predicate AlwaysThere(tree: Tree, keep: nat, pattern: string -> bool, run: seq<Deed>, name: string)
    requires PlainDeeds(run)
    decreases |run|
  {
    run != [] ==>
      && (forall t :: t in DeedTrail(tree, keep, pattern, run[0]) ==> Holds(t, name))
      && AlwaysThere(After(tree, keep, pattern, run[0]), keep, pattern, run[1..], name)
  }

  /** The takes of one set among the deeds. */
  function AttemptsOn(run: seq<Deed>, name: string): seq<Attempt> {
    if run == [] then []
    else (if run[0].Stores? && run[0].name == name then [run[0].attempt] else []) + AttemptsOn(run[1..], name)
  }

  /** Names the pattern knows are plain and of one length, so staging and set-aside names are not known. */
  ghost predicate Uniform(pattern: string -> bool, width: nat) {
    forall name :: pattern(name) ==> Plain(name) && |name| == width
  }

  /** Every set stored has a name the pattern knows and is one of these. */
  predicate Named(run: seq<Deed>, pattern: string -> bool, names: set<string>) {
    forall i :: 0 <= i < |run| && run[i].Stores? ==> pattern(run[i].name) && run[i].name in names
  }

  /** What `Shelf.Root.Prune` passes through is a deed that got to its end. */
  lemma PruneIsADeed(tree: Tree, keep: nat, pattern: string -> bool, removed: seq<string>)
    requires Rising(removed) && SetOf(removed) == Dropped(tree, keep, pattern)
    ensures PruneTrail(tree, removed) == DeedTrail(tree, keep, pattern, Prunes(2 * |removed|))
  {
    RisingIsUnique(removed, DropOf(tree, keep, pattern));
    hide PruneTrail, Rising, Dropped, DropOf;
  }

  // ---------------------------------------------------------------- one deed, seen from one name

  ghost predicate SameForName(a: Tree, b: Tree, name: string) {
    SameAt(a, b, name) && SameAt(a, b, Staging(name)) && SameAt(a, b, Previous(name))
  }

  lemma SameStands(a: Tree, b: Tree, name: string, st: Standing)
    requires SameForName(a, b, name) && StandsAs(b, name, st)
    ensures StandsAs(a, name, st) && Holds(a, name)
  {
    hide Staging, Previous;
  }

  lemma SameAsItself(tree: Tree, name: string)
    ensures SameForName(tree, tree, name)
  {}

  /** Takes of other sets leave it alone. */
  lemma OthersLeaveIt(tree: Tree, other: string, a: Attempt, name: string)
    requires Plain(other) && Plain(name) && |other| == |name| && other != name
    ensures forall t :: t in Passed(tree, other, a) ==> SameForName(t, tree, name)
    ensures SameForName(Left(tree, other, a), tree, name)
  {
    forall i | 0 <= i < 10 ensures SameForName(PutTrail(tree, other, a.contents)[i], tree, name) {
      PutLeavesOtherSets(tree, other, a.contents, name, i);
    }
    SameAsItself(tree, name);
    hide PutTrail, SameForName, SameAt;
  }

  /** Prunes do too while it is within the window. */
  lemma PruneLeavesIt(tree: Tree, keep: nat, pattern: string -> bool, width: nat, steps: nat, name: string)
    requires Uniform(pattern, width) && pattern(name) && |Later(Known(tree, pattern), name)| < keep
    ensures forall t :: t in DeedTrail(tree, keep, pattern, Prunes(steps)) ==> SameForName(t, tree, name)
    ensures SameForName(After(tree, keep, pattern, Prunes(steps)), tree, name)
  {
    hide Dropped, Rising, Later, Known, Uniform, SameAt, Staging, Previous;
    var drop := DropOf(tree, keep, pattern);
    NotDropped(tree, keep, pattern, width, drop, name);
    PruneLeavesTheRest(tree, drop);
    assert forall i :: 0 <= i < |PruneTrail(tree, drop)| ==> SameForName(PruneTrail(tree, drop)[i], tree, name);
    SameAsItself(tree, name);
    hide SameForName, PruneTrail, DropOf;
  }

  lemma NotDropped(tree: Tree, keep: nat, pattern: string -> bool, width: nat, drop: seq<string>, name: string)
    requires Uniform(pattern, width) && pattern(name) && |Later(Known(tree, pattern), name)| < keep
    requires SetOf(drop) == Dropped(tree, keep, pattern)
    ensures name !in drop && Staging(name) !in drop && Previous(name) !in drop
  {
    assert forall n :: n in drop ==> n in SetOf(drop);
    hide Later;
  }

  /** The one deed that loses a set: a take of it that begins where the only complete one is staged. */
  predicate Loses(deed: Deed, name: string, st: Standing) {
    deed.Stores? && deed.name == name && st.OnlyStaged? && deed.attempt.steps > 0
  }

  function NextBy(deed: Deed, name: string, st: Standing): Standing {
    if deed.Stores? && deed.name == name then Next(st, deed.attempt.steps) else st
  }

  /** One deed, whatever it is and however far it gets. */
  lemma DeedMoves(tree: Tree, keep: nat, pattern: string -> bool, width: nat, deed: Deed, name: string, st: Standing)
    requires Uniform(pattern, width) && pattern(name) && |Later(Known(tree, pattern), name)| < keep
    requires deed.Stores? ==> pattern(deed.name)
    requires StandsAs(tree, name, st)
    ensures (forall t :: t in DeedTrail(tree, keep, pattern, deed) ==> Holds(t, name)) <==> !Loses(deed, name, st)
    ensures !Loses(deed, name, st) ==> StandsAs(After(tree, keep, pattern, deed), name, NextBy(deed, name, st))
  {
    match deed
    case Stores(other, attempt) =>
      StoreMoves(tree, keep, pattern, width, other, attempt, name, st);
      hide *;
    case Prunes(steps) =>
      PruneLeavesIt(tree, keep, pattern, width, steps, name);
      NotATake(deed, name, st);
      hide *;
      TheyStand(DeedTrail(tree, keep, pattern, deed), tree, name, st);
      SameStands(After(tree, keep, pattern, deed), tree, name, st);
  }

  lemma StoreMoves(tree: Tree, keep: nat, pattern: string -> bool, width: nat, other: string, attempt: Attempt,
                   name: string, st: Standing)
    requires Uniform(pattern, width) && pattern(name) && pattern(other) && StandsAs(tree, name, st)
    ensures var deed := Stores(other, attempt);
            && ((forall t :: t in DeedTrail(tree, keep, pattern, deed) ==> Holds(t, name)) <==> !Loses(deed, name, st))
            && (!Loses(deed, name, st) ==> StandsAs(After(tree, keep, pattern, deed), name, NextBy(deed, name, st)))
  {
    var deed := Stores(other, attempt);
    assert DeedTrail(tree, keep, pattern, deed) == Passed(tree, other, attempt);
    assert After(tree, keep, pattern, deed) == Left(tree, other, attempt);
    hide Passed, Left, After, DeedTrail, Holds, StandsAs, Next, Known;
    if other == name {
      AttemptMoves(tree, name, attempt, st);
    } else {
      OthersLeaveIt(tree, other, attempt, name);
      hide SameForName;
      TheyStand(DeedTrail(tree, keep, pattern, deed), tree, name, st);
      SameStands(Left(tree, other, attempt), tree, name, st);
    }
  }

  lemma TheyStand(trail: seq<Tree>, tree: Tree, name: string, st: Standing)
    requires StandsAs(tree, name, st) && forall t :: t in trail ==> SameForName(t, tree, name)
    ensures forall t :: t in trail ==> Holds(t, name)
  {
    hide *;
    forall t | t in trail ensures Holds(t, name) {
      SameStands(t, tree, name, st);
    }
  }

  lemma NotATake(deed: Deed, name: string, st: Standing)
    requires deed.Prunes?
    ensures !Loses(deed, name, st) && NextBy(deed, name, st) == st
  {}

  // ---------------------------------------------------------------- the names there can be

  /** A deed adds no recognised name but that of the set it stores. */
  lemma KnownAfterDeed(tree: Tree, keep: nat, pattern: string -> bool, width: nat, deed: Deed, names: set<string>)
    requires Uniform(pattern, width) && Known(tree, pattern) <= names
    requires deed.Stores? ==> pattern(deed.name) && deed.name in names
    ensures Known(After(tree, keep, pattern, deed), pattern) <= names
  {
    match deed
    case Stores(name, a) =>
      assert After(tree, keep, pattern, deed) == Left(tree, name, a);
      hide After, Left;
      forall n | n in Known(Left(tree, name, a), pattern) ensures n in names {
        if n != name {
          StoreTouchesItsOwn(tree, name, a, n);
          hide Left;
          assert n in Known(tree, pattern);
        }
      }
    case Prunes(steps) =>
      PruneAddsNothing(tree, keep, pattern, steps);
      hide *;
  }

  lemma PruneAddsNothing(tree: Tree, keep: nat, pattern: string -> bool, steps: nat)
    ensures Known(After(tree, keep, pattern, Prunes(steps)), pattern) <= Known(tree, pattern)
  {
    var drop := DropOf(tree, keep, pattern);
    PruneLeavesTheRest(tree, drop);
    var after := After(tree, keep, pattern, Prunes(steps));
    hide PruneTrail, NewestOf, Rising, DropOf;
    assert forall n :: n !in drop ==> SameAt(after, tree, n);
    hide After;
    forall n | n in Known(after, pattern) ensures n in Known(tree, pattern) {
      assert n in drop ==> n in SetOf(drop);
    }
  }

  lemma StoreTouchesItsOwn(tree: Tree, name: string, a: Attempt, other: string)
    requires Plain(name) && other != name && |other| == |name|
    ensures SameAt(Left(tree, name, a), tree, other)
  {
    forall i | 0 <= i < 10 ensures SameAt(PutTrail(tree, name, a.contents)[i], tree, other) {
      PutTouchesItsOwn(tree, name, a.contents, other, i);
    }
    hide PutTrail, Staging, Previous;
  }

  // ---------------------------------------------------------------- whole runs

  /** Over any run of takes of any sets and prunes of their root, killed at any steps, a set that stands
      somewhere has a complete one at every moment exactly when none of its own takes begins where the only
      one is staged, as long as fewer than `keep` of all the names there can be are later than its own. */
  lemma {:induction false} InTheWindowIsKept(
      tree: Tree, keep: nat, pattern: string -> bool, width: nat, names: set<string>, run: seq<Deed>,
      name: string, st: Standing)
    requires Uniform(pattern, width) && pattern(name) && Named(run, pattern, names)
    requires Known(tree, pattern) <= names && |Later(names, name)| < keep
    requires StandsAs(tree, name, st)
    ensures AlwaysThere(tree, keep, pattern, run, name) <==> Survives(AttemptsOn(run, name), st)
    decreases |run|
  {
    hide After, AfterAll, DeedTrail, StandsAs, Holds, Known, Later, Survives, AttemptsOn, Loses, NextBy;
    if run == [] {
      NoAttempts(name, st);
    } else {
      LaterOfFewer(Known(tree, pattern), names, name);
      SurvivesGoesOn(run, name, st);
      DeedMoves(tree, keep, pattern, width, run[0], name, st);
      KnownAfterDeed(tree, keep, pattern, width, run[0], names);
      if !Loses(run[0], name, st) {
        InTheWindowIsKept(After(tree, keep, pattern, run[0]), keep, pattern, width, names, run[1..], name,
                          NextBy(run[0], name, st));
      }
    }
  }

  lemma NoAttempts(name: string, st: Standing)
    ensures Survives(AttemptsOn([], name), st)
  {}

  lemma LaterOfFewer(some: set<string>, names: set<string>, name: string)
    requires some <= names
    ensures |Later(some, name)| <= |Later(names, name)|
  {
    assert Later(some, name) <= Later(names, name);
    SubsetCounts(Later(some, name), Later(names, name));
  }

  lemma SurvivesGoesOn(run: seq<Deed>, name: string, st: Standing)
    requires run != []
    ensures Survives(AttemptsOn(run, name), st) <==>
              !Loses(run[0], name, st) && Survives(AttemptsOn(run[1..], name), NextBy(run[0], name, st))
  {
    var all, rest := AttemptsOn(run, name), AttemptsOn(run[1..], name);
    if run[0].Stores? && run[0].name == name {
      assert all == [run[0].attempt] + rest && all[1..] == rest && all[0] == run[0].attempt;
    } else {
      assert all == rest;
    }
    hide Next, AttemptsOn;
  }

  lemma {:induction false} KnownAfterRun(
      tree: Tree, keep: nat, pattern: string -> bool, width: nat, names: set<string>, run: seq<Deed>)
    requires Uniform(pattern, width) && Named(run, pattern, names) && Known(tree, pattern) <= names
    ensures Known(AfterAll(tree, keep, pattern, run), pattern) <= names
    decreases |run|
  {
    hide After, Known;
    if run != [] {
      KnownAfterDeed(tree, keep, pattern, width, run[0], names);
      KnownAfterRun(After(tree, keep, pattern, run[0]), keep, pattern, width, names, run[1..]);
    }
  }

  // ---------------------------------------------------------------- days and weeks

  /** One run of the script as one root sees it: how many steps of its swap it makes, and how many of its
      prune. A run that is killed before it comes to a root makes none there. */
  datatype Run = Run(taken: Taken, swapped: nat, pruned: nat)

  function TakesOf(runs: seq<Run>): (r: seq<Taken>)
    ensures |r| == |runs| && forall i :: 0 <= i < |runs| ==> r[i] == runs[i].taken
  {
    seq(|runs|, i requires 0 <= i < |runs| => runs[i].taken)
  }

  function DeedsOf(runs: seq<Run>, name: int -> string): (r: seq<Deed>)
    ensures |r| == 2 * |runs|
  {
    if runs == [] then []
    else
      var first := runs[0];
      [Stores(name(first.taken.at), Attempt(first.taken.contents, first.swapped)), Prunes(first.pruned)]
        + DeedsOf(runs[1..], name)
  }

  /** The takes of one day, or of one week. */
  function AttemptsAt(runs: seq<Run>, key: int -> int, k: int): seq<Attempt> {
    if runs == [] then []
    else
      (if key(runs[0].taken.at) == k then [Attempt(runs[0].taken.contents, runs[0].swapped)] else [])
        + AttemptsAt(runs[1..], key, k)
  }

  lemma TwoInFront(a: Deed, b: Deed, rest: seq<Deed>)
    ensures ([a, b] + rest)[..2] == [a, b] && ([a, b] + rest)[2..] == rest && ([a, b] + rest)[1..] == [b] + rest
  {}

  lemma {:induction false} DeedsBegin(runs: seq<Run>, name: int -> string)
    requires runs != []
    ensures var deeds := DeedsOf(runs, name);
            && deeds[0] == Stores(name(runs[0].taken.at), Attempt(runs[0].taken.contents, runs[0].swapped))
            && deeds[1] == Prunes(runs[0].pruned) && deeds[2..] == DeedsOf(runs[1..], name)
            && deeds[1..] == [Prunes(runs[0].pruned)] + DeedsOf(runs[1..], name)
  {
    var store := Stores(name(runs[0].taken.at), Attempt(runs[0].taken.contents, runs[0].swapped));
    var prune, rest := Prunes(runs[0].pruned), DeedsOf(runs[1..], name);
    assert DeedsOf(runs, name) == [store, prune] + rest;
    hide DeedsOf;
    TwoInFront(store, prune, rest);
  }

  lemma NotAStore(deed: Deed, rest: seq<Deed>, name: string)
    requires deed.Prunes?
    ensures AttemptsOn([deed] + rest, name) == AttemptsOn(rest, name)
  {
    assert ([deed] + rest)[1..] == rest;
  }

  lemma {:induction false} AttemptsOfDeeds(runs: seq<Run>, name: int -> string, key: int -> int, k: int)
    requires forall i :: 0 <= i < |runs| ==> (name(runs[i].taken.at) == name(k) <==> key(runs[i].taken.at) == k)
    ensures AttemptsOn(DeedsOf(runs, name), name(k)) == AttemptsAt(runs, key, k)
  {
    if runs != [] {
      AttemptsOfDeeds(runs[1..], name, key, k);
      hide DeedsOf;
      DeedsBegin(runs, name);
      NotAStore(Prunes(runs[0].pruned), DeedsOf(runs[1..], name), name(k));
    }
  }

  lemma {:induction false} DeedsSplit(runs: seq<Run>, name: int -> string, i: nat)
    requires i < |runs|
    ensures var deeds := DeedsOf(runs, name);
            && deeds[2 * i] == Stores(name(runs[i].taken.at), Attempt(runs[i].taken.contents, runs[i].swapped))
            && deeds[2 * i + 1..] == [Prunes(runs[i].pruned)] + DeedsOf(runs[i + 1..], name)
  {
    hide DeedsOf;
    DeedsBegin(runs, name);
    if i > 0 {
      DeedsSplit(runs[1..], name, i - 1);
      assert runs[1..][i - 1] == runs[i] && runs[1..][i..] == runs[i + 1..];
      DropTwice(DeedsOf(runs, name), 2 * i);
      DropTwice(DeedsOf(runs, name), 2 * i + 1);
    }
  }

  lemma DropTwice(deeds: seq<Deed>, i: nat)
    requires 2 <= i <= |deeds|
    ensures deeds[2..][i - 2..] == deeds[i..] && (i < |deeds| ==> deeds[2..][i - 2] == deeds[i])
  {}

  lemma {:induction false} DeedsAreNamed(
      runs: seq<Run>, name: int -> string, pattern: string -> bool, names: set<string>)
    requires forall i :: 0 <= i < |runs| ==> pattern(name(runs[i].taken.at)) && name(runs[i].taken.at) in names
    ensures Named(DeedsOf(runs, name), pattern, names)
  {
    if runs != [] {
      DeedsAreNamed(runs[1..], name, pattern, names);
      hide DeedsOf;
      DeedsBegin(runs, name);
      var deeds, rest := DeedsOf(runs, name), DeedsOf(runs[1..], name);
      assert forall i :: 2 <= i < |deeds| ==> deeds[i] == rest[i - 2];
    }
  }

  lemma {:induction false} AfterAllSplits(tree: Tree, keep: nat, pattern: string -> bool, run: seq<Deed>, i: nat)
    requires PlainDeeds(run) && i < |run|
    ensures AfterAll(tree, keep, pattern, run[..i + 1])
         == After(AfterAll(tree, keep, pattern, run[..i]), keep, pattern, run[i])
    decreases |run|
  {
    hide After, Plain;
    if i == 0 {
      assert run[..1][1..] == [] && run[..0] == [];
    } else {
      AfterAllSplits(After(tree, keep, pattern, run[0]), keep, pattern, run[1..], i - 1);
      assert run[..i + 1][1..] == run[1..][..i] && run[..i][1..] == run[1..][..i - 1] && run[1..][i - 1] == run[i];
    }
  }

  lemma FinishedIsInPlace(tree: Tree, keep: nat, pattern: string -> bool, name: string, a: Attempt)
    requires Plain(name) && a.steps >= FINISHED
    ensures StandsAs(After(tree, keep, pattern, Stores(name, a)), name, InPlace)
    ensures Holds(After(tree, keep, pattern, Stores(name, a)), name)
  {
    PutTrailHolds(tree, name, a.contents);
    hide PutTrail, Holding;
  }

  /** The name has a complete set after this deed and at every moment from then on. */
  ghost predicate KeptFrom(tree: Tree, keep: nat, pattern: string -> bool, run: seq<Deed>, i: nat, name: string) {
    && i < |run| && PlainDeeds(run)
    && Holds(AfterAll(tree, keep, pattern, run[..i + 1]), name)
    && AlwaysThere(AfterAll(tree, keep, pattern, run[..i + 1]), keep, pattern, run[i + 1..], name)
  }

  /** From the end of a finished swap on, in any run of deeds from any root. */
  lemma KeptOnceStored(tree: Tree, keep: nat, pattern: string -> bool, width: nat, names: set<string>,
                       run: seq<Deed>, i: nat)
    requires Uniform(pattern, width) && Named(run, pattern, names) && Known(tree, pattern) <= names
    requires i < |run| && run[i].Stores? && run[i].attempt.steps >= FINISHED
    requires |Later(names, run[i].name)| < keep
    ensures KeptFrom(tree, keep, pattern, run, i, run[i].name)
       <==> Survives(AttemptsOn(run[i + 1..], run[i].name), InPlace)
  {
    hide After, AfterAll, Known, Later, Survives, AttemptsOn, AlwaysThere, Plain, StandsAs, Holds;
    var before := AfterAll(tree, keep, pattern, run[..i]);
    KnownAfterRun(tree, keep, pattern, width, names, run[..i]);
    KnownAfterDeed(before, keep, pattern, width, run[i], names);
    AfterAllSplits(tree, keep, pattern, run, i);
    FinishedIsInPlace(before, keep, pattern, run[i].name, run[i].attempt);
    InTheWindowIsKept(After(before, keep, pattern, run[i]), keep, pattern, width, names, run[i + 1..],
                      run[i].name, InPlace);
  }

  /** A name whose order is that of the keys: from an empty root, whatever runs there are and wherever each
      is killed, if fewer than `keep` later keys are ever taken, then from the end of run `i`'s swap on its key
      has a complete set at every moment exactly when no later take of it begins where the only one is staged. */
  lemma {:induction false} KeyIsKept(runs: seq<Run>, keep: nat, pattern: string -> bool, width: nat,
                  name: int -> string, key: int -> int, i: nat)
    requires Uniform(pattern, width) && Storable(pattern, Puts(TakesOf(runs), name))
    requires forall t :: t in TakesOf(runs) ==> name(t.at) == name(key(t.at))
    requires SortsLike(Keys(TakesOf(runs), key), name)
    requires i < |runs| && runs[i].swapped >= FINISHED
    requires |LaterKeys(TakesOf(runs), key, key(runs[i].taken.at))| < keep
    ensures KeptFrom(map[], keep, pattern, DeedsOf(runs, name), 2 * i, name(runs[i].taken.at))
       <==> Survives(AttemptsAt(runs[i + 1..], key, key(runs[i].taken.at)), InPlace)
  {
    hide *;
    var names := NamesOf(Keys(TakesOf(runs), key), name);
    RunsAreNamed(runs, pattern, name, key);
    DeedsSplit(runs, name, i);
    LaterNames(runs, keep, name, key, i);
    AttemptsAfter(runs, name, key, i);
    NothingKnown(pattern, names);
    KeptOnceStored(map[], keep, pattern, width, names, DeedsOf(runs, name), 2 * i);
  }

  lemma NothingKnown(pattern: string -> bool, names: set<string>)
    ensures Known(map[], pattern) <= names
  {}

  lemma {:induction false} RunsAreNamed(runs: seq<Run>, pattern: string -> bool, name: int -> string, key: int -> int)
    requires Storable(pattern, Puts(TakesOf(runs), name))
    requires forall t :: t in TakesOf(runs) ==> name(t.at) == name(key(t.at))
    ensures Named(DeedsOf(runs, name), pattern, NamesOf(Keys(TakesOf(runs), key), name))
  {
    var takes := TakesOf(runs);
    forall i | 0 <= i < |runs|
      ensures pattern(name(runs[i].taken.at)) && name(runs[i].taken.at) in NamesOf(Keys(takes, key), name)
    {
      assert takes[i] in takes && Puts(takes, name)[i] in Puts(takes, name);
      var k := key(takes[i].at);
      assert k in Keys(takes, key) && name(k) in NamesOf(Keys(takes, key), name);
    }
    hide *;
    DeedsAreNamed(runs, name, pattern, NamesOf(Keys(TakesOf(runs), key), name));
  }

  lemma {:induction false} LaterNames(runs: seq<Run>, keep: nat, name: int -> string, key: int -> int, i: nat)
    requires forall t :: t in TakesOf(runs) ==> name(t.at) == name(key(t.at))
    requires SortsLike(Keys(TakesOf(runs), key), name)
    requires i < |runs| && |LaterKeys(TakesOf(runs), key, key(runs[i].taken.at))| < keep
    ensures |Later(NamesOf(Keys(TakesOf(runs), key), name), name(runs[i].taken.at))| < keep
  {
    var keys := Keys(TakesOf(runs), key);
    var k := key(runs[i].taken.at);
    assert TakesOf(runs)[i] in TakesOf(runs);
    assert LaterKeys(TakesOf(runs), key, k) == set e | e in keys && k < e;
    NewestNumbers(keys, name, k, keep);
    hide Later, SortsLike, NamesOf, Keys;
  }

  lemma {:induction false} AttemptsAfter(runs: seq<Run>, name: int -> string, key: int -> int, i: nat)
    requires forall t :: t in TakesOf(runs) ==> name(t.at) == name(key(t.at))
    requires SortsLike(Keys(TakesOf(runs), key), name) && i < |runs|
    ensures AttemptsOn(DeedsOf(runs, name)[2 * i + 1..], name(runs[i].taken.at))
         == AttemptsAt(runs[i + 1..], key, key(runs[i].taken.at))
  {
    var takes, rest := TakesOf(runs), runs[i + 1..];
    var k := key(runs[i].taken.at);
    assert takes[i] in takes;
    forall j | 0 <= j < |rest| ensures name(rest[j].taken.at) == name(k) <==> key(rest[j].taken.at) == k {
      var t := takes[i + 1 + j];
      assert t in takes && t == rest[j].taken;
      NamesTellKeysApart(takes, name, key, takes[i].at, t.at);
    }
    hide SortsLike, Keys, DeedsOf;
    AttemptsOfDeeds(rest, name, key, k);
    DeedsSplit(runs, name, i);
    NotAStore(Prunes(runs[i].pruned), DeedsOf(rest, name), name(k));
  }

  lemma {:induction false} NamesTellKeysApart(takes: seq<Taken>, name: int -> string, key: int -> int, a: int, b: int)
    requires SortsLike(Keys(takes, key), name)
    requires name(a) == name(key(a)) && name(b) == name(key(b))
    requires key(a) in Keys(takes, key) && key(b) in Keys(takes, key)
    ensures name(b) == name(key(a)) <==> key(b) == key(a)
  {
    BeforeIsTotal(name(key(a)), name(key(b)));
    assert Before(name(key(a)), name(key(b))) <==> key(a) < key(b);
    assert Before(name(key(b)), name(key(a))) <==> key(b) < key(a);
    hide Before;
  }

  lemma DayNamesAreUniform()
    ensures Uniform(IsDayName, 10) && Uniform(IsWeekName, 8)
  {
    forall name | IsDayName(name) || IsWeekName(name) ensures Plain(name) {
      RecognisedIsStorable(name);
    }
  }

  /** In the daily root, of every day. */
  lemma {:induction false} DaysAreKept(runs: seq<Run>, keep: nat, i: nat)
    requires forall t :: t in TakesOf(runs) ==> PadsToFour(YearOf(t.at))
    requires i < |runs| && runs[i].swapped >= FINISHED
    requires |LaterKeys(TakesOf(runs), SameDay, runs[i].taken.at)| < keep
    ensures KeptFrom(map[], keep, IsDayName, DeedsOf(runs, DayName), 2 * i, DayName(runs[i].taken.at))
       <==> Survives(AttemptsAt(runs[i + 1..], SameDay, runs[i].taken.at), InPlace)
  {
    assert SameDay(runs[i].taken.at) == runs[i].taken.at;
    assert forall t :: t in TakesOf(runs) ==> SameDay(t.at) == t.at;
    hide *;
    DayNamesAreUniform();
    DaysAreStorable(TakesOf(runs));
    KeyIsKept(runs, keep, IsDayName, 10, DayName, SameDay, i);
  }

  /** And in the weekly root, of every week. */
  lemma {:induction false} WeeksAreKept(runs: seq<Run>, keep: nat, i: nat)
    requires forall t :: t in TakesOf(runs) ==> FourDigits(WeekOf(t.at).year)
    requires i < |runs| && runs[i].swapped >= FINISHED
    requires |LaterKeys(TakesOf(runs), MondayOf, MondayOf(runs[i].taken.at))| < keep
    ensures KeptFrom(map[], keep, IsWeekName, DeedsOf(runs, WeekName), 2 * i, WeekName(runs[i].taken.at))
       <==> Survives(AttemptsAt(runs[i + 1..], MondayOf, MondayOf(runs[i].taken.at)), InPlace)
  {
    hide *;
    DayNamesAreUniform();
    WeeksAreStorable(TakesOf(runs));
    KeyIsKept(runs, keep, IsWeekName, 8, WeekName, MondayOf, i);
  }
}
