/** Which names a prune keeps (`partitionByAge` in `scripts/backup.ts`), and the newest few of a set
    of names said without sorting it. */
module Newest {
  import opened Names

  datatype Partition = Partition(drop: seq<string>, keep: seq<string>)

  // ---------------------------------------------------------------- sorting

  predicate Rising(s: seq<string>) {
    forall i, j :: 0 <= i < j < |s| ==> Before(s[i], s[j])
  }

  predicate NoRepeats(s: seq<string>) {
    forall i, j :: 0 <= i < j < |s| ==> s[i] != s[j]
  }

  function Inserted(s: seq<string>, name: string): seq<string> {
    if s == [] || Before(name, s[0]) then [name] + s else [s[0]] + Inserted(s[1..], name)
  }

  /** `sort` with no comparison given. */
  function Sorted(s: seq<string>): seq<string> {
    if s == [] then [] else Inserted(Sorted(s[1..]), s[0])
  }

  function Matching(names: seq<string>, pattern: string -> bool): seq<string> {
    if names == [] then []
    else (if pattern(names[0]) then [names[0]] else []) + Matching(names[1..], pattern)
  }

  function Reversed(s: seq<string>): (r: seq<string>)
    ensures |r| == |s| && forall i :: 0 <= i < |s| ==> r[i] == s[|s| - 1 - i]
  {
    if s == [] then [] else Reversed(s[1..]) + [s[0]]
  }

  function PartitionByAge(keep: nat, names: seq<string>, pattern: string -> bool): Partition {
    var known := Sorted(Matching(names, pattern));
    var cut := if |known| > keep then |known| - keep else 0;
    Partition(known[..cut], Reversed(known[cut..]))
  }

  // ---------------------------------------------------------------- the newest of a set

  function Later(names: set<string>, name: string): set<string> {
    set m | m in names && Before(name, m)
  }

  /** The names with fewer than `keep` names after them. */
  function NewestOf(names: set<string>, keep: nat): set<string> {
    set n | n in names && |Later(names, n)| < keep
  }

  function SetOf(s: seq<string>): set<string> {
    set n | n in s
  }

  lemma InsertedRises(s: seq<string>, name: string)
    requires Rising(s) && name !in s
    ensures Rising(Inserted(s, name)) && SetOf(Inserted(s, name)) == SetOf(s) + {name}
    ensures |Inserted(s, name)| == |s| + 1
  {
    if s == [] {
    } else if Before(name, s[0]) {
      forall j | 0 <= j < |s| ensures Before(name, s[j]) {
        if j > 0 {
          BeforeIsTransitive(name, s[0], s[j]);
        }
      }
      assert Inserted(s, name) == [name] + s;
      hide Before, Inserted;
      SetOfFirst(name, s);
      RisesFromTheFirst(name, s);
    } else {
      InsertedRises(s[1..], name);
      BeforeIsTotal(name, s[0]);
      hide Before, Inserted;
      var rest := Inserted(s[1..], name);
      forall m | m in rest ensures Before(s[0], m) {
        assert m in SetOf(rest);
      }
      RisesFromTheFirst(s[0], rest);
      SetOfFirst(s[0], rest);
      SetOfFirst(s[0], s[1..]);
      assert s == [s[0]] + s[1..];
      assert Inserted(s, name) == [s[0]] + rest by { InsertedBehind(s, name); }
    }
  }

  lemma InsertedBehind(s: seq<string>, name: string)
    requires s != [] && !Before(name, s[0])
    ensures Inserted(s, name) == [s[0]] + Inserted(s[1..], name)
  {}

  lemma SetOfFirst(first: string, rest: seq<string>)
    ensures SetOf([first] + rest) == SetOf(rest) + {first}
  {}

  lemma RisesFromTheFirst(first: string, rest: seq<string>)
    requires Rising(rest) && forall m :: m in rest ==> Before(first, m)
    ensures Rising([first] + rest)
  {
    hide Before;
  }

  lemma {:induction false} SortedRises(s: seq<string>)
    requires NoRepeats(s)
    ensures Rising(Sorted(s)) && SetOf(Sorted(s)) == SetOf(s) && |Sorted(s)| == |s|
  {
    if s != [] {
      SortedRises(s[1..]);
      assert s[0] !in s[1..];
      assert s[0] !in SetOf(Sorted(s[1..]));
      InsertedRises(Sorted(s[1..]), s[0]);
      assert s == [s[0]] + s[1..];
      hide Before, Inserted;
    }
  }

  lemma {:induction false} MatchingIsFilter(names: seq<string>, pattern: string -> bool)
    ensures forall n :: n in Matching(names, pattern) <==> n in names && pattern(n)
    ensures NoRepeats(names) ==> NoRepeats(Matching(names, pattern))
  {
    if names != [] {
      MatchingIsFilter(names[1..], pattern);
      assert names == [names[0]] + names[1..];
    }
  }

  lemma {:induction false} RisingCounts(s: seq<string>)
    requires Rising(s)
    ensures |SetOf(s)| == |s|
  {
    if s != [] {
      RisingCounts(s[1..]);
      BeforeIsTotal(s[0], s[0]);
      assert s[0] !in s[1..];
      hide Before, Rising;
      SetOfFirst(s[0], s[1..]);
      assert s == [s[0]] + s[1..];
    }
  }

  /** In a sorted listing, exactly the names behind a name are later. */
  lemma LaterInRising(s: seq<string>, i: nat)
    requires Rising(s) && i < |s|
    ensures |Later(SetOf(s), s[i])| == |s| - 1 - i
  {
    var rest := s[i + 1..];
    forall m ensures m in Later(SetOf(s), s[i]) <==> m in SetOf(rest) {
      if m in Later(SetOf(s), s[i]) {
        var j :| 0 <= j < |s| && s[j] == m;
        BeforeIsTotal(s[i], s[j]);
        assert j > i;
        assert rest[j - i - 1] == m;
      }
    }
    assert Later(SetOf(s), s[i]) == SetOf(rest);
    RisingCounts(rest);
  }

  /** A prune keeps exactly the newest `keep` of the names it recognises, newest first, drops the rest
      of them, and says nothing about the others. */
  lemma PartitionKeepsNewest(keep: nat, names: seq<string>, pattern: string -> bool)
    requires NoRepeats(names)
    ensures var known := set n | n in names && pattern(n);
            var p := PartitionByAge(keep, names, pattern);
            && SetOf(p.keep) == NewestOf(known, keep)
            && SetOf(p.drop) == known - NewestOf(known, keep)
            && Rising(p.drop) && Rising(Reversed(p.keep))
            && |p.keep| == (if |known| < keep then |known| else keep)
  {
    var known := set n | n in names && pattern(n);
    var matching := Matching(names, pattern);
    MatchingIsFilter(names, pattern);
    SortedRises(matching);
    var sorted := Sorted(matching);
    assert SetOf(sorted) == known;
    RisingCounts(sorted);
    var p := PartitionByAge(keep, names, pattern);
    var cut := if |sorted| > keep then |sorted| - keep else 0;
    hide Before, Sorted, Matching;
    SplitIsNewest(sorted, keep);
    ReversedTwice(sorted[cut..]);
  }

  lemma ReversedTwice(s: seq<string>)
    ensures Reversed(Reversed(s)) == s && SetOf(Reversed(s)) == SetOf(s)
  {
    var r := Reversed(s);
    var t := Reversed(r);
    hide Reversed;
    assert forall i :: 0 <= i < |s| ==> t[i] == r[|s| - 1 - i];
    forall n | n in s ensures n in r {
      var i :| 0 <= i < |s| && s[i] == n;
      assert r[|s| - 1 - i] == n;
    }
    forall n | n in r ensures n in s {
      var i :| 0 <= i < |s| && r[i] == n;
      assert s[|s| - 1 - i] == n;
    }
  }

  lemma SplitIsNewest(s: seq<string>, keep: nat)
    requires Rising(s)
    ensures var cut := if |s| > keep then |s| - keep else 0;
            && SetOf(s[cut..]) == NewestOf(SetOf(s), keep)
            && SetOf(s[..cut]) == SetOf(s) - NewestOf(SetOf(s), keep)
            && Rising(s[..cut]) && Rising(s[cut..])
  {
    var cut := if |s| > keep then |s| - keep else 0;
    forall i | 0 <= i < |s| ensures s[i] in NewestOf(SetOf(s), keep) <==> cut <= i {
      LaterInRising(s, i);
    }
    hide Before;
    assert forall i :: cut <= i < |s| ==> s[i] == s[cut..][i - cut];
    assert forall i :: 0 <= i < cut ==> s[i] == s[..cut][i];
    assert SetOf(s[cut..]) == NewestOf(SetOf(s), keep);
  }

  lemma {:induction false} SubsetCounts<T>(a: set<T>, b: set<T>)
    requires a <= b
    ensures |a| <= |b|
  {
    if a != {} {
      var x :| x in a;
      SubsetCounts(a - {x}, b - {x});
    }
  }

  lemma {:induction false} Listing(names: set<string>) returns (listing: seq<string>)
    ensures NoRepeats(listing) && SetOf(listing) == names
  {
    if names == {} {
      listing := [];
    } else {
      var n :| n in names;
      var rest := Listing(names - {n});
      listing := [n] + rest;
      assert forall m :: m in rest <==> m in SetOf(rest);
    }
  }

  lemma NewestCount(names: set<string>, keep: nat)
    ensures |NewestOf(names, keep)| == if |names| < keep then |names| else keep
  {
    var listing := Listing(names);
    SortedRises(listing);
    var sorted := Sorted(listing);
    SplitIsNewest(sorted, keep);
    RisingCounts(sorted);
    RisingCounts(sorted[if |sorted| > keep then |sorted| - keep else 0..]);
    hide Before, Sorted, Rising;
  }

  /** Names that are not among the newest can be forgotten before another is added. */
  lemma NewestAgain(names: set<string>, added: string, keep: nat)
    ensures NewestOf(NewestOf(names, keep) + {added}, keep) == NewestOf(names + {added}, keep)
  {
    var some, all := NewestOf(names, keep) + {added}, names + {added};
    forall n | n in NewestOf(all, keep) ensures n in some && n in NewestOf(some, keep) {
      SubsetCounts(Later(names, n), Later(all, n));
      SubsetCounts(Later(some, n), Later(all, n));
    }
    forall n | n in NewestOf(some, keep) ensures n in NewestOf(all, keep) {
      if |Later(all, n)| >= keep {
        NewestAreLater(all, n, keep);
        SubsetCounts(NewestOf(all, keep), Later(some, n));
        NewestCount(all, keep);
        SubsetCounts(Later(all, n), all);
      }
    }
  }

  lemma NewestAreLater(names: set<string>, n: string, keep: nat)
    requires n in names && |Later(names, n)| >= keep
    ensures forall m :: m in NewestOf(names, keep) ==> Before(n, m)
  {
    forall m | m in NewestOf(names, keep) ensures Before(n, m) {
      BeforeIsTotal(n, m);
      if Before(m, n) {
        forall k | k in Later(names, n) ensures k in Later(names, m) {
          BeforeIsTransitive(m, n, k);
        }
        SubsetCounts(Later(names, n), Later(names, m));
      }
    }
  }

  // ---------------------------------------------------------------- names of numbers

  /** Names given to numbers sort as the numbers do. */
  ghost predicate SortsLike(numbers: set<int>, name: int -> string) {
    forall a, b :: a in numbers && b in numbers ==> (Before(name(a), name(b)) <==> a < b)
  }

  function NamesOf(numbers: set<int>, name: int -> string): set<string> {
    set d | d in numbers :: name(d)
  }

  lemma Member<T>(s: set<T>) returns (x: T)
    requires s != {}
    ensures x in s
  {
    x :| x in s;
  }

  lemma {:induction false} NamesCount(numbers: set<int>, name: int -> string)
    requires SortsLike(numbers, name)
    ensures |NamesOf(numbers, name)| == |numbers|
  {
    if numbers != {} {
      var d := Member(numbers);
      var rest := numbers - {d};
      NamesCount(rest, name);
      assert name(d) !in NamesOf(rest, name) by {
        BeforeIsTotal(name(d), name(d));
        assert forall e :: e in rest && name(e) == name(d) ==> e == d;
      }
      assert NamesOf(numbers, name) == NamesOf(rest, name) + {name(d)};
    }
  }

  /** The newest names are those of the numbers with the fewest numbers after them. */
  lemma NewestNumbers(numbers: set<int>, name: int -> string, d: int, keep: nat)
    requires SortsLike(numbers, name) && d in numbers
    ensures name(d) in NewestOf(NamesOf(numbers, name), keep) <==> |set e | e in numbers && d < e| < keep
  {
    var after := set e | e in numbers && d < e;
    assert Later(NamesOf(numbers, name), name(d)) == NamesOf(after, name);
    NamesCount(after, name);
  }
}
