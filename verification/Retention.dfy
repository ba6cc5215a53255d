/** What a run of finished takes leaves on disk (`take` and `prune` in `scripts/backup.ts`). */
module Retention {
  import opened Names
  import opened Newest
  import opened Shelf

  datatype Stored = Stored(name: string, contents: Contents)

  /** One root after these sets have been put in it, each followed by a prune. */
  function Retained(tree: Tree, keep: nat, pattern: string -> bool, puts: seq<Stored>): Tree
    requires forall p :: p in puts ==> Plain(p.name)
    decreases |puts|
  {
    if puts == [] then tree
    else
      var n := |puts| - 1;
      Pruned(Put(Retained(tree, keep, pattern, puts[..n]), puts[n].name, puts[n].contents), keep, pattern)
  }

  function NamesStored(puts: seq<Stored>): set<string> {
    set p | p in puts :: p.name
  }

  /** What was last stored under the name. */
  function LastStored(puts: seq<Stored>, name: string): Contents
    requires name in NamesStored(puts)
  {
    var n := |puts| - 1;
    if puts[n].name == name then puts[n].contents
    else
      assert puts == puts[..n] + [puts[n]];
      LastStored(puts[..n], name)
  }

  ghost predicate Storable(pattern: string -> bool, puts: seq<Stored>) {
    && (forall p :: p in puts ==> Plain(p.name) && pattern(p.name))
    && (forall p :: p in puts ==> !pattern(Staging(p.name)) && !pattern(Previous(p.name)))
  }

  lemma KnownAfterPut(tree: Tree, name: string, contents: Contents, pattern: string -> bool)
    requires Plain(name) && pattern(name) && !pattern(Staging(name)) && !pattern(Previous(name))
    ensures Known(Put(tree, name, contents), pattern) == Known(tree, pattern) + {name}
  {
    PutIs(tree, name, contents);
    hide Put;
  }

  lemma KnownAfterPrune(tree: Tree, keep: nat, pattern: string -> bool)
    ensures Known(Pruned(tree, keep, pattern), pattern) == NewestOf(Known(tree, pattern), keep)
  {
    hide Later;
  }

  lemma StoredGrows(puts: seq<Stored>)
    requires puts != []
    ensures NamesStored(puts) == NamesStored(puts[..|puts| - 1]) + {puts[|puts| - 1].name}
  {
    var n := |puts| - 1;
    assert puts == puts[..n] + [puts[n]];
  }

  /** The names a root recognises are always the newest `keep` of all there ever were, in whatever
      order the sets came. */
  lemma {:induction false} NewestAreKept(tree: Tree, keep: nat, pattern: string -> bool, puts: seq<Stored>)
    requires Storable(pattern, puts) && puts != []
    ensures Known(Retained(tree, keep, pattern, puts), pattern)
         == NewestOf(Known(tree, pattern) + NamesStored(puts), keep)
    decreases |puts|
  {
    hide NewestOf, Known, Pruned, Put, NamesStored, Before;
    var n := |puts| - 1;
    var before := Retained(tree, keep, pattern, puts[..n]);
    var after := Put(before, puts[n].name, puts[n].contents);
    var start := Known(tree, pattern);
    KnownAfterPut(before, puts[n].name, puts[n].contents, pattern);
    KnownAfterPrune(after, keep, pattern);
    StoredGrows(puts);
    if n > 0 {
      NewestAreKept(tree, keep, pattern, puts[..n]);
      NewestAgain(start + NamesStored(puts[..n]), puts[n].name, keep);
      assert start + NamesStored(puts) == start + NamesStored(puts[..n]) + {puts[n].name};
    } else {
      NothingStored();
      assert puts[..n] == [];
      assert start + NamesStored(puts) == start + {puts[n].name};
    }
  }

  /** Nothing of this name is written by any of these takes. */
  predicate Apart(puts: seq<Stored>, name: string) {
    forall p :: p in puts ==> name != p.name && name != Staging(p.name) && name != Previous(p.name)
  }

  /** Every set is the last stored under its name, staging and set-aside names are gone, and a name the
      pattern does not know is untouched. */
  lemma {:induction false} WhatIsLeft(
      tree: Tree, keep: nat, pattern: string -> bool, puts: seq<Stored>, name: string)
    requires Storable(pattern, puts)
    ensures var left := Retained(tree, keep, pattern, puts);
            && (name in NamesStored(puts) && name in left ==> left[name] == Complete(LastStored(puts, name)))
            && (Apart(puts, name) && name in left ==> SameAt(left, tree, name))
            && (Apart(puts, name) && !pattern(name) ==> SameAt(left, tree, name))
            && (forall p :: p in puts && (name == Staging(p.name) || name == Previous(p.name)) ==> name !in left)
    decreases |puts|
  {
    hide Put, Pruned, Staging, Previous, NamesStored;
    if puts == [] {
      NothingStored();
    } else {
      var n := |puts| - 1;
      var before := Retained(tree, keep, pattern, puts[..n]);
      WhatIsLeft(tree, keep, pattern, puts[..n], name);
      StoredGrows(puts);
      assert puts == puts[..n] + [puts[n]];
      assert puts[n] in puts;
      OneTakeLeaves(before, keep, pattern, puts[n], name);
    }
  }

  lemma NothingStored()
    ensures NamesStored([]) == {}
  {}

  /** One take and its prune, seen from one name. */
  lemma OneTakeLeaves(tree: Tree, keep: nat, pattern: string -> bool, p: Stored, name: string)
    requires Plain(p.name) && pattern(p.name)
    ensures var left := Pruned(Put(tree, p.name, p.contents), keep, pattern);
            && (name == p.name && name in left ==> left[name] == Complete(p.contents))
            && (name == Staging(p.name) || name == Previous(p.name) ==> name !in left)
            && (name != p.name && name in left ==> SameAt(left, tree, name))
            && (name != p.name && name != Staging(p.name) && name != Previous(p.name) && !pattern(name) ==>
                  SameAt(left, tree, name))
  {
    PutIs(tree, p.name, p.contents);
    hide Put, NewestOf;
  }
}
