/** One root of the backup tree, `daily` or `weekly` (`scripts/backup.ts`): a set is staged beside the
    others, swapped in by renames, and the oldest are deleted. A kill can fall between any two steps. */
module Shelf {
  import opened Newest

  /** What a complete set holds: its dump, its globals, its archive and its manifest. */
  type Contents = nat

  /** A directory being written or deleted is partial. */
  datatype Cell = Partial | Complete(contents: Contents)

  type Tree = map<string, Cell>

  const STAGING := ".staging-"
  const PREVIOUS := ".previous"

  function Staging(name: string): (r: string)
    ensures |r| == 9 + |name| && r[..9] == ".staging-" && r[9..] == name
  {
    STAGING + name
  }

  function Previous(name: string): (r: string)
    ensures |r| == |name| + 9 && r[..|name|] == name && r[|name|..] == ".previous"
    ensures name != [] ==> r[0] == name[0]
  {
    name + PREVIOUS
  }

  /** The names of sets begin with a digit, so no staging name is one of theirs. */
  predicate Plain(name: string) {
    name != [] && name[0] != '.'
  }

  // ---------------------------------------------------------------- the steps of one swap

  /** `rmSync` with `force`: what is there is first incomplete and then gone. */
  function RemoveTrail(tree: Tree, name: string): seq<Tree> {
    [if name in tree then tree[name := Partial] else tree, tree - {name}]
  }

  function Renamed(tree: Tree, from: string, to: string): Tree
    requires from in tree
  {
    (tree - {from})[to := tree[from]]
  }

  function SetAside(tree: Tree, target: string): Tree {
    if target in tree then Renamed(tree, target, Previous(target)) else tree
  }

  /** Every tree there is while `swapIn` runs, the last one being what it leaves. */
  function SwapTrail(tree: Tree, staged: string, target: string): (r: seq<Tree>)
    requires staged in tree && staged == Staging(target) && Plain(target)
    ensures |r| == 6
  {
    var aside := SetAside(tree - {Previous(target)}, target);
    var placed := Renamed(aside, staged, target);
    RemoveTrail(tree, Previous(target)) + [aside, placed] + RemoveTrail(placed, Previous(target))
  }

  /** Every tree there is while one set is staged and swapped in. */
  function PutTrail(tree: Tree, name: string, contents: Contents): (r: seq<Tree>)
    requires Plain(name)
    ensures |r| == 10
  {
    var cleared := tree - {Staging(name)};
    var staged := cleared[Staging(name) := Complete(contents)];
    RemoveTrail(tree, Staging(name)) + [cleared[Staging(name) := Partial], staged]
      + SwapTrail(staged, Staging(name), name)
  }

  function Put(tree: Tree, name: string, contents: Contents): Tree
    requires Plain(name)
  {
    PutTrail(tree, name, contents)[9]
  }

  // ---------------------------------------------------------------- what one swap keeps

  predicate Holding(tree: Tree, name: string) {
    name in tree && tree[name].Complete?
  }

  /** A complete set under the name itself or set aside: what the next take does not begin by deleting. */
  predicate Firm(tree: Tree, name: string) {
    Holding(tree, name) || Holding(tree, Previous(name))
  }

  predicate Holds(tree: Tree, name: string) {
    Firm(tree, name) || Holding(tree, Staging(name))
  }

  /** "Without ever leaving neither in place" is true of a swap exactly when it starts with a complete
      target. */
  lemma SwapKeepsOneInPlace(tree: Tree, name: string)
    requires Plain(name) && Holding(tree, Staging(name))
    ensures (forall i :: 0 <= i < 6 ==> Firm(SwapTrail(tree, Staging(name), name)[i], name)) <==> Holding(tree, name)
    ensures forall i :: 0 <= i < 6 ==> Holds(SwapTrail(tree, Staging(name), name)[i], name)
  {
    var trail := SwapTrail(tree, Staging(name), name);
    var without := tree - {Previous(name)};
    assert trail[1] == without && trail[2] == SetAside(without, name);
    assert trail[3] == Renamed(trail[2], Staging(name), name);
    assert trail[4] == RemoveTrail(trail[3], Previous(name))[0] && trail[5] == trail[3] - {Previous(name)};
    hide Staging, Previous, SwapTrail;
    assert forall i :: 0 <= i < 6 ==> Holds(trail[i], name);
    assert Firm(trail[1], name) <==> Holding(tree, name);
  }

  /** A take leaves its set, and neither its staging nor anything set aside. */
  lemma PutIs(tree: Tree, name: string, contents: Contents)
    requires Plain(name)
    ensures Put(tree, name, contents) == (tree - {Staging(name), Previous(name)})[name := Complete(contents)]
  {}

  /** From its first step on, a take always leaves a complete set behind exactly when it starts with one
      under the name or set aside, however far it gets. */
  lemma PutKeepsASet(tree: Tree, name: string, contents: Contents, steps: nat)
    requires Plain(name) && 1 <= steps <= 10
    ensures (forall i :: 0 <= i < steps ==> Holds(PutTrail(tree, name, contents)[i], name)) <==> Firm(tree, name)
  {
    PutTrailHolds(tree, name, contents);
    hide Holds, Firm, PutTrail;
  }

  lemma PutTrailHolds(tree: Tree, name: string, contents: Contents)
    requires Plain(name)
    ensures var trail := PutTrail(tree, name, contents);
            && (Holds(trail[0], name) ==> Firm(tree, name))
            && (Firm(tree, name) ==> forall i :: 0 <= i < 10 ==> Holds(trail[i], name))
            && (forall i :: 0 <= i < 4 ==> (Firm(trail[i], name) <==> Firm(tree, name)))
            && (forall i :: 0 <= i < 4 ==> (Holding(trail[i], name) <==> Holding(tree, name)))
            && (Holding(tree, name) ==> forall i :: 0 <= i < 10 ==> Firm(trail[i], name))
            && Holding(trail[9], name)
  {
    hide SwapTrail, Holds, Firm;
    var trail := PutTrail(tree, name, contents);
    StagingKeepsBoth(tree, name, contents);
    SwapKeepsOneInPlace(trail[3], name);
    assert trail[4..] == SwapTrail(trail[3], Staging(name), name);
    assert forall i :: 4 <= i < 10 ==> trail[i] == trail[4..][i - 4];
    PutIs(tree, name, contents);
    FirmHolds(trail, name);
    hide PutTrail, Staging, Previous;
  }

  /** The four steps of staging leave the set in place and the set aside alone; the first of them leaves
      nothing complete in staging, and the last does. */
  lemma StagingKeepsBoth(tree: Tree, name: string, contents: Contents)
    requires Plain(name)
    ensures var trail := PutTrail(tree, name, contents);
            && (forall i :: 0 <= i < 4 ==> (Holding(trail[i], name) <==> Holding(tree, name)))
            && (forall i :: 0 <= i < 4 ==> (Holding(trail[i], Previous(name)) <==> Holding(tree, Previous(name))))
            && (forall i :: 0 <= i < 4 ==> (Firm(trail[i], name) <==> Firm(tree, name)))
            && (Holds(trail[0], name) ==> Firm(tree, name))
            && Holding(trail[3], Staging(name))
  {
    hide SwapTrail;
    var trail := PutTrail(tree, name, contents);
    hide Staging, Previous;
    assert forall i :: 0 <= i < 4 ==> SameAt(trail[i], tree, name) && SameAt(trail[i], tree, Previous(name));
    assert !Holding(trail[0], Staging(name));
  }

  lemma FirmHolds(trail: seq<Tree>, name: string)
    ensures forall i :: 0 <= i < |trail| && Firm(trail[i], name) ==> Holds(trail[i], name)
    ensures forall i :: 0 <= i < |trail| && Holding(trail[i], name) ==> Firm(trail[i], name)
  {}

  // ---------------------------------------------------------------- takes that are killed

  /** A take of the set, killed after this many of its ten steps. */
  datatype Attempt = Attempt(contents: Contents, steps: nat)

  const FINISHED := 10

  /** The trees that come to be. */
  function Passed(tree: Tree, name: string, a: Attempt): seq<Tree>
    requires Plain(name)
  {
    var trail := PutTrail(tree, name, a.contents);
    if a.steps >= FINISHED then trail else trail[..a.steps]
  }

  function Left(tree: Tree, name: string, a: Attempt): Tree
    requires Plain(name)
  {
    var passed := Passed(tree, name, a);
    if passed == [] then tree else passed[|passed| - 1]
  }

  /** At every moment of a run of takes there is a complete set. */
  ghost predicate AlwaysHolds(tree: Tree, name: string, run: seq<Attempt>)
    requires Plain(name)
    decreases |run|
  {
    run != [] ==>
      && (forall t :: t in Passed(tree, name, run[0]) ==> Holds(t, name))
      && AlwaysHolds(Left(tree, name, run[0]), name, run[1..])
  }

  /** Where a complete set is when no take is running: under the name, or only set aside, or only staged. */
  datatype Standing = InPlace | Aside | OnlyStaged

  predicate StandsAs(tree: Tree, name: string, st: Standing) {
    match st
    case InPlace => Holding(tree, name)
    case Aside => !Holding(tree, name) && Holding(tree, Previous(name))
    case OnlyStaged => !Firm(tree, name) && Holding(tree, Staging(name))
  }

  /** Where a take that makes this many steps leaves it. Between the renames the old set is only aside; a take
      that finds it so deletes it first, and until its own rename has only what it staged. */
  function Next(st: Standing, steps: nat): Standing {
    match st
    case InPlace => if steps == 7 then Aside else InPlace
    case Aside => if steps < 5 then Aside else if steps < 8 then OnlyStaged else InPlace
    case OnlyStaged => OnlyStaged
  }

  /** No take begins where the only complete set is a staged one, which its first step deletes. */
  predicate Survives(run: seq<Attempt>, st: Standing) {
    run == [] || (!(st.OnlyStaged? && run[0].steps > 0) && Survives(run[1..], Next(st, run[0].steps)))
  }

  lemma SwapStands(tree: Tree, name: string, st: Standing, i: nat)
    requires Plain(name) && Holding(tree, Staging(name)) && StandsAs(tree, name, st) && !st.OnlyStaged? && i < 6
    ensures StandsAs(SwapTrail(tree, Staging(name), name)[i], name, Next(st, i + 5))
  {
    var trail := SwapTrail(tree, Staging(name), name);
    var without := tree - {Previous(name)};
    assert trail[1] == without && trail[2] == SetAside(without, name);
    assert trail[3] == Renamed(trail[2], Staging(name), name);
    assert trail[4] == RemoveTrail(trail[3], Previous(name))[0] && trail[5] == trail[3] - {Previous(name)};
    hide Staging, Previous, SwapTrail;
  }

  /** How a set stands after each step of a take. */
  lemma TrailStands(tree: Tree, name: string, contents: Contents, st: Standing, i: nat)
    requires Plain(name) && StandsAs(tree, name, st) && !st.OnlyStaged? && i < 10
    ensures StandsAs(PutTrail(tree, name, contents)[i], name, Next(st, i + 1))
  {
    hide SwapTrail, Firm, Holding, Staging, Previous;
    var trail := PutTrail(tree, name, contents);
    assert trail[4..] == SwapTrail(trail[3], Staging(name), name);
    hide PutTrail;
    StagingKeepsBoth(tree, name, contents);
    if i >= 4 {
      SwapStands(trail[3], name, st, i - 4);
      assert trail[i] == trail[4..][i - 4];
    }
  }

  lemma StandingHolds(tree: Tree, name: string, st: Standing)
    requires StandsAs(tree, name, st)
    ensures Holds(tree, name)
  {}

  /** A take, however far it gets, leaves a complete set at every moment unless it begins where there is only
      a staged one; and then it leaves the set standing as said. */
  lemma AttemptMoves(tree: Tree, name: string, a: Attempt, st: Standing)
    requires Plain(name) && StandsAs(tree, name, st)
    ensures (forall t :: t in Passed(tree, name, a) ==> Holds(t, name)) <==> !(st.OnlyStaged? && a.steps > 0)
    ensures !(st.OnlyStaged? && a.steps > 0) ==> StandsAs(Left(tree, name, a), name, Next(st, a.steps))
  {
    var trail := PutTrail(tree, name, a.contents);
    if st.OnlyStaged? {
      PutTrailHolds(tree, name, a.contents);
      hide PutTrail, Holds, Firm, Holding, Staging, Previous;
      if a.steps > 0 {
        assert Passed(tree, name, a)[0] == trail[0];
      }
    } else {
      hide PutTrail, Holds, StandsAs;
      forall i | 0 <= i < 10 ensures StandsAs(trail[i], name, Next(st, i + 1)) && Holds(trail[i], name) {
        TrailStands(tree, name, a.contents, st, i);
        StandingHolds(trail[i], name, Next(st, i + 1));
      }
    }
  }

  /** Over any run of takes killed at any steps, a set that stands somewhere has a complete one at every moment
      exactly when none of them begins where the only one is staged: a condition on the steps alone. */
  lemma {:induction false} ASetAtEveryMoment(tree: Tree, name: string, run: seq<Attempt>, st: Standing)
    requires Plain(name) && StandsAs(tree, name, st)
    ensures AlwaysHolds(tree, name, run) <==> Survives(run, st)
    decreases |run|
  {
    if run != [] {
      AttemptMoves(tree, name, run[0], st);
      hide StandsAs, Holds, Left, Passed, Next;
      if !(st.OnlyStaged? && run[0].steps > 0) {
        ASetAtEveryMoment(Left(tree, name, run[0]), name, run[1..], Next(st, run[0].steps));
      }
    }
  }

  /** It is so whenever a finished take lies between any two that are killed inside `swapIn`. */
  predicate KillsApart(run: seq<Attempt>, shaken: bool) {
    run == [] ||
    (!(shaken && 4 < run[0].steps < FINISHED)
     && KillsApart(run[1..], if run[0].steps >= FINISHED then false else shaken || 4 < run[0].steps))
  }

  lemma {:induction false} KillsApartSurvive(run: seq<Attempt>, st: Standing, shaken: bool)
    requires KillsApart(run, shaken) && !st.OnlyStaged? && (st.Aside? ==> shaken)
    ensures Survives(run, st)
  {
    if run != [] {
      KillsApartSurvive(run[1..], Next(st, run[0].steps),
                        if run[0].steps >= FINISHED then false else shaken || 4 < run[0].steps);
    }
  }

  /** Two takes killed inside `swapIn` with none finished between leave the only complete set in
      staging, and the next take's first step ends it. */
  lemma TwoKillsLoseTheSet(name: string)
    requires Plain(name)
    ensures var run := [Attempt(2, 7), Attempt(3, 6), Attempt(4, 1)];
            !AlwaysHolds(map[name := Complete(1)], name, run)
  {
    var tree: Tree := map[name := Complete(1)];
    var run := [Attempt(2, 7), Attempt(3, 6), Attempt(4, 1)];
    assert StandsAs(tree, name, InPlace);
    assert run[1..] == [run[1], run[2]] && run[1..][1..] == [run[2]];
    assert !Survives(run, InPlace);
    hide Survives, AlwaysHolds, StandsAs;
    ASetAtEveryMoment(tree, name, run, InPlace);
  }

  // ---------------------------------------------------------------- what a take leaves alone

  ghost predicate SameAt(a: Tree, b: Tree, name: string) {
    (name in a <==> name in b) && (name in a ==> a[name] == b[name])
  }

  /** A take touches its name, its staging name and the name set aside, at every step. */
  lemma PutTouchesItsOwn(tree: Tree, name: string, contents: Contents, other: string, i: nat)
    requires Plain(name) && other != name && other != Staging(name) && other != Previous(name) && i < 10
    ensures SameAt(PutTrail(tree, name, contents)[i], tree, other)
  {}

  /** So takes of other sets of the root leave a set's three places alone. */
  lemma PutLeavesOtherSets(tree: Tree, name: string, contents: Contents, other: string, i: nat)
    requires Plain(name) && Plain(other) && |name| == |other| && name != other && i < 10
    ensures var t := PutTrail(tree, name, contents)[i];
            SameAt(t, tree, other) && SameAt(t, tree, Staging(other)) && SameAt(t, tree, Previous(other))
  {
    assert Previous(other)[..|other|] == other && Previous(name)[..|name|] == name;
    assert Staging(other)[|STAGING|..] == other && Staging(name)[|STAGING|..] == name;
    hide PutTrail, Staging, Previous, SameAt;
    PutTouchesItsOwn(tree, name, contents, other, i);
    PutTouchesItsOwn(tree, name, contents, Staging(other), i);
    PutTouchesItsOwn(tree, name, contents, Previous(other), i);
  }

  // ---------------------------------------------------------------- pruning

  function Known(tree: Tree, pattern: string -> bool): set<string> {
    set n | n in tree && pattern(n)
  }

  /** The recognised names that are not among the newest. */
  function Dropped(tree: Tree, keep: nat, pattern: string -> bool): set<string> {
    Known(tree, pattern) - NewestOf(Known(tree, pattern), keep)
  }

  function Pruned(tree: Tree, keep: nat, pattern: string -> bool): Tree {
    tree - Dropped(tree, keep, pattern)
  }

  /** Every tree there is while these names are deleted in turn. */
  function PruneTrail(tree: Tree, drop: seq<string>): (r: seq<Tree>)
    ensures |r| == 2 * |drop|
  {
    if drop == [] then [] else RemoveTrail(tree, drop[0]) + PruneTrail(tree - {drop[0]}, drop[1..])
  }

  // ---------------------------------------------------------------- the root itself

  /** `trail` remembers every tree there has been. */
  class Root {
    var entries: Tree
    ghost var trail: seq<Tree>

    constructor (entries: Tree)
      ensures this.entries == entries && trail == []
    {
      this.entries, trail := entries, [];
    }

    method Remove(name: string)
      modifies this
      ensures entries == old(entries) - {name}
      ensures trail == old(trail) + RemoveTrail(old(entries), name)
    {
      if name in entries {
        entries := entries[name := Partial];
      }
      trail := trail + [entries];
      entries := entries - {name};
      trail := trail + [entries];
      assert entries == old(entries) - {name};
    }

    method Write(name: string, cell: Cell)
      modifies this
      ensures entries == old(entries)[name := cell] && trail == old(trail) + [entries]
    {
      entries := entries[name := cell];
      trail := trail + [entries];
    }

    method Rename(from: string, to: string)
      requires from in entries
      modifies this
      ensures entries == Renamed(old(entries), from, to) && trail == old(trail) + [entries]
    {
      entries := (entries - {from})[to := entries[from]];
      trail := trail + [entries];
    }

    /** The removals and renames in their order. A target that is not there leaves its rename out, which the
        trail keeps as a step that changes nothing. */
    method SwapIn(staged: string, target: string)
      requires staged in entries && staged == Staging(target) && Plain(target)
      modifies this
      ensures trail == old(trail) + SwapTrail(old(entries), staged, target)
      ensures entries == trail[|trail| - 1]
    {
      var previous := Previous(target);
      Remove(previous);
      if target in entries {
        Rename(target, previous);
      } else {
        trail := trail + [entries];
      }
      Rename(staged, target);
      Remove(previous);
    }

    /** One set, staged beside the others and swapped in. */
    method Store(name: string, contents: Contents)
      requires Plain(name)
      modifies this
      ensures trail == old(trail) + PutTrail(old(entries), name, contents)
      ensures entries == Put(old(entries), name, contents)
    {
      hide SwapTrail, RemoveTrail;
      var staged := Staging(name);
      Remove(staged);
      ghost var cleared := entries;
      Write(staged, Partial);
      Write(staged, Complete(contents));
      assert entries == cleared[staged := Complete(contents)];
      ghost var swap := SwapTrail(entries, staged, name);
      SwapIn(staged, name);
      Joined(old(trail), RemoveTrail(old(entries), staged),
             cleared[staged := Partial], cleared[staged := Complete(contents)], swap);
    }

    /** `readdirSync`, in whatever order the names come. */
    method List() returns (names: seq<string>)
      ensures NoRepeats(names) && SetOf(names) == entries.Keys
    {
      names := [];
      var left := entries.Keys;
      while left != {}
        invariant left <= entries.Keys && NoRepeats(names)
        invariant forall n :: n in names <==> n in entries.Keys - left
        decreases |left|
      {
        var n :| n in left;
        assert forall i :: 0 <= i < |names| ==> names[i] in names && names[i] != n;
        names := names + [n];
        left := left - {n};
      }
    }

    /** Leaves the newest recognised names, and at no step changes a name it does not delete. */
    method Prune(keep: nat, pattern: string -> bool) returns (removed: seq<string>)
      modifies this
      ensures entries == Pruned(old(entries), keep, pattern)
      ensures SetOf(removed) == Dropped(old(entries), keep, pattern) && Rising(removed)
      ensures trail == old(trail) + PruneTrail(old(entries), removed)
      ensures forall n, i :: n !in removed && |old(trail)| <= i < |trail| ==> SameAt(trail[i], old(entries), n)
    {
      var names := List();
      assert Known(entries, pattern) == set n | n in names && pattern(n);
      PartitionKeepsNewest(keep, names, pattern);
      removed := PartitionByAge(keep, names, pattern).drop;
      hide *;
      DropIs(entries, keep, pattern, removed);
      PruneBegins(entries, removed);
      for i := 0 to |removed|
        invariant entries == old(entries) - SetOf(removed[..i])
        invariant trail + PruneTrail(entries, removed[i..]) == old(trail) + PruneTrail(old(entries), removed)
      {
        PruneGoesOn(old(entries), entries, removed, i);
        Remove(removed[i]);
      }
      PruneEnds(entries, removed);
      PruneLeavesTheRest(old(entries), removed);
    }
  }

  lemma DropIs(tree: Tree, keep: nat, pattern: string -> bool, removed: seq<string>)
    requires SetOf(removed) == Known(tree, pattern) - NewestOf(Known(tree, pattern), keep)
    ensures SetOf(removed) == Dropped(tree, keep, pattern)
    ensures tree - SetOf(removed) == Pruned(tree, keep, pattern)
  {}

  lemma PruneBegins(tree: Tree, removed: seq<string>)
    ensures tree == tree - SetOf(removed[..0]) && removed[0..] == removed
  {}

  lemma PruneGoesOn(start: Tree, tree: Tree, removed: seq<string>, i: nat)
    requires i < |removed| && tree == start - SetOf(removed[..i])
    ensures tree - {removed[i]} == start - SetOf(removed[..i + 1])
    ensures forall trail :: (trail + RemoveTrail(tree, removed[i])) + PruneTrail(tree - {removed[i]}, removed[i + 1..])
                         == trail + PruneTrail(tree, removed[i..])
  {
    assert removed[..i + 1] == removed[..i] + [removed[i]];
    assert SetOf(removed[..i + 1]) == SetOf(removed[..i]) + {removed[i]};
    assert removed[i..][0] == removed[i] && removed[i..][1..] == removed[i + 1..];
    hide RemoveTrail;
  }

  lemma PruneEnds(tree: Tree, removed: seq<string>)
    ensures removed[..|removed|] == removed && PruneTrail(tree, removed[|removed|..]) == []
  {}

  lemma PruneLeavesTheRest(tree: Tree, drop: seq<string>)
    ensures forall n, i :: n !in drop && 0 <= i < |PruneTrail(tree, drop)| ==>
                             SameAt(PruneTrail(tree, drop)[i], tree, n)
  {
    forall n, i | n !in drop && 0 <= i < |PruneTrail(tree, drop)| ensures SameAt(PruneTrail(tree, drop)[i], tree, n) {
      PruneLeaves(tree, drop, n, i);
    }
  }

  /** A prune changes no name it does not delete, at any step. */
  lemma {:induction false} PruneLeaves(tree: Tree, drop: seq<string>, name: string, i: nat)
    requires name !in drop && i < |PruneTrail(tree, drop)|
    ensures SameAt(PruneTrail(tree, drop)[i], tree, name)
    decreases |drop|
  {
    assert drop[0] in drop;
    var first, rest := RemoveTrail(tree, drop[0]), tree - {drop[0]};
    assert SameAt(rest, tree, name) && SameAt(first[0], tree, name) && SameAt(first[1], tree, name);
    hide SameAt;
    if i >= 2 {
      PruneLeaves(rest, drop[1..], name, i - 2);
      SameAsSame(PruneTrail(rest, drop[1..])[i - 2], rest, tree, name);
      assert PruneTrail(tree, drop)[i] == PruneTrail(rest, drop[1..])[i - 2];
    }
  }

  lemma SameAsSame(a: Tree, b: Tree, c: Tree, name: string)
    requires SameAt(a, b, name) && SameAt(b, c, name)
    ensures SameAt(a, c, name)
  {}

  lemma Joined(before: seq<Tree>, first: seq<Tree>, a: Tree, b: Tree, last: seq<Tree>)
    ensures before + first + [a] + [b] + last == before + (first + [a, b] + last)
  {}
}
