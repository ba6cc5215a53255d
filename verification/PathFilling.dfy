/** Which paths have the shape of a declared route (`apps/gateway/src/request-metrics.ts`): those that fill
    its parameters with words the contract does not declare there. */
module PathFilling {
  import opened PathShapes

  /** `startsWith(":")`. */
  predicate IsParam(segment: string) {
    segment != "" && segment[0] == ':'
  }

  /** The route begins this way, whatever names its parameters have. */
  predicate Agrees(route: seq<string>, prefix: seq<string>) {
    && |prefix| <= |route|
    && forall j :: 0 <= j < |prefix| ==> route[j] == prefix[j] || (IsParam(route[j]) && IsParam(prefix[j]))
  }

  predicate SomeAgrees(routes: seq<seq<string>>, prefix: seq<string>) {
    exists k :: 0 <= k < |routes| && Agrees(routes[k], prefix)
  }

  /** The route's words where it has words, and where it has parameters any words not declared there. */
  predicate Fills(routes: seq<seq<string>>, route: seq<string>, path: seq<string>) {
    && |path| == |route|
    && forall i :: 0 <= i < |route| ==>
         if IsParam(route[i]) then IsParam(path[i]) || !SomeAgrees(routes, route[..i] + [path[i]])
         else path[i] == route[i]
  }

  lemma AgreesIsPrefix(route: seq<string>, prefix: seq<string>)
    ensures Agrees(route, prefix) <==> Keys(prefix) <= Keys(route)
  {
    if |prefix| <= |route| {
      assert forall j :: 0 <= j < |prefix| ==> Keys(prefix)[j] == KeyOf(prefix[j]) && Keys(route)[j] == KeyOf(route[j]);
      assert forall j :: 0 <= j < |prefix| ==>
        (KeyOf(route[j]) == KeyOf(prefix[j]) <==> route[j] == prefix[j] || (IsParam(route[j]) && IsParam(prefix[j])));
    }
  }

  /** What is declared is what some route agrees with. */
  lemma {:induction false} DeclaredIs(routes: seq<seq<string>>, prefix: seq<string>)
    requires prefix != []
    ensures Declared(routes, Keys(prefix)) <==> SomeAgrees(routes, prefix)
  {
    hide Agrees;
    if routes != [] {
      var n := |routes| - 1;
      DeclaredIs(routes[..n], prefix);
      AgreesIsPrefix(routes[n], prefix);
      assert forall k :: 0 <= k < n ==> routes[..n][k] == routes[k];
    }
  }

  lemma KeysGrow(prefix: seq<string>, word: string)
    ensures Keys(prefix + [word]) == Keys(prefix) + [KeyOf(word)]
    ensures KeyOf(word) == if IsParam(word) then Param else Literal(word)
  {}

  lemma RouteIsDeclared(routes: seq<seq<string>>, k: nat, i: nat)
    requires k < |routes| && i < |routes[k]|
    ensures SomeAgrees(routes, routes[k][..i] + [routes[k][i]])
  {
    assert Agrees(routes[k], routes[k][..i] + [routes[k][i]]);
  }

  lemma NoSuchLiteral(routes: seq<seq<string>>, at: seq<Key>, word: string)
    requires IsParam(word)
    ensures !Declared(routes, at + [Literal(word)])
  {
    if Declared(routes, at + [Literal(word)]) {
      WordsAreThemselves(routes, at, word);
    }
  }

  /** Where one level of a route leads its own segment and one that fills it. */
  lemma OneLevel(routes: seq<seq<string>>, k: nat, path: seq<string>, i: nat)
    requires k < |routes| && i < |routes[k]| && Fills(routes, routes[k], path)
    ensures var at, word := Keys(routes[k][..i]), routes[k][i];
            && Keys(routes[k][..i + 1]) == at + [KeyOf(word)] && Declared(routes, at + [KeyOf(word)])
            && (!IsParam(word) ==> path[i] == word && KeyOf(word) == Literal(word))
            && (IsParam(word) ==>
                  && KeyOf(word) == Param && IsParam(NameAt(routes, at + [Param]))
                  && !Declared(routes, at + [Literal(path[i])]) && !Declared(routes, at + [Literal(word)]))
  {
    var route := routes[k];
    var at, word := Keys(route[..i]), route[i];
    assert route[..i + 1] == route[..i] + [word];
    RouteIsDeclared(routes, k, i);
    hide Declared, SomeAgrees, NameAt;
    KeysGrow(route[..i], word);
    KeysGrow(route[..i], path[i]);
    DeclaredIs(routes, route[..i] + [word]);
    DeclaredIs(routes, route[..i] + [path[i]]);
    if IsParam(word) {
      NoSuchLiteral(routes, at, word);
      NameHasItsKey(routes, at + [Param]);
      if IsParam(path[i]) {
        NoSuchLiteral(routes, at, path[i]);
      }
    }
  }

  lemma LabelsByWord(routes: seq<seq<string>>, at: seq<Key>, segments: seq<string>)
    requires segments != [] && Declared(routes, at + [Literal(segments[0])])
    ensures Labels(routes, at, segments)
         == [segments[0]] + Labels(routes, at + [Literal(segments[0])], segments[1..])
  {}

  lemma LabelsByParam(routes: seq<seq<string>>, at: seq<Key>, segments: seq<string>)
    requires segments != [] && !Declared(routes, at + [Literal(segments[0])]) && Declared(routes, at + [Param])
    ensures Labels(routes, at, segments)
         == [NameAt(routes, at + [Param])] + Labels(routes, at + [Param], segments[1..])
  {}

  lemma FromHere(path: seq<string>, i: nat)
    requires i < |path|
    ensures path[i..] != [] && path[i..][0] == path[i] && path[i..][1..] == path[i + 1..]
  {}

  /** Words as the route has them, and names where it has parameters. */
  predicate Fit(route: seq<string>, labels: seq<string>, i: nat) {
    && |labels| + i == |route|
    && forall j :: 0 <= j < |labels| ==> if IsParam(route[i + j]) then IsParam(labels[j]) else labels[j] == route[i + j]
  }

  lemma FitGrows(route: seq<string>, first: string, rest: seq<string>, i: nat)
    requires i < |route| && Fit(route, rest, i + 1)
    requires if IsParam(route[i]) then IsParam(first) else first == route[i]
    ensures Fit(route, [first] + rest, i)
  {
    hide IsParam;
    var labels := [first] + rest;
    forall j | 0 <= j < |labels|
      ensures if IsParam(route[i + j]) then IsParam(labels[j]) else labels[j] == route[i + j]
    {
      if j > 0 {
        assert labels[j] == rest[j - 1] && route[i + 1 + (j - 1)] == route[i + j];
      }
    }
  }

  /** A path that fills a route has the route's own labels: its words, and for each parameter the first name
      given to it there, with no mark. */
  lemma {:induction false} FilledLabels(routes: seq<seq<string>>, k: nat, path: seq<string>, i: nat)
    requires k < |routes| && Fills(routes, routes[k], path) && i <= |routes[k]| == |path|
    ensures var at := Keys(routes[k][..i]);
            var labels := Labels(routes, at, path[i..]);
            labels == Labels(routes, at, routes[k][i..]) && Fit(routes[k], labels, i)
    decreases |path| - i
  {
    var route := routes[k];
    var at := Keys(route[..i]);
    if i < |route| {
      hide *;
      OneLevel(routes, k, path, i);
      FromHere(path, i);
      FromHere(route, i);
      FilledLabels(routes, k, path, i + 1);
      if IsParam(route[i]) {
        LabelsByParam(routes, at, path[i..]);
        LabelsByParam(routes, at, route[i..]);
        FitGrows(route, NameAt(routes, at + [Param]), Labels(routes, at + [Param], path[i + 1..]), i);
      } else {
        LabelsByWord(routes, at, path[i..]);
        LabelsByWord(routes, at, route[i..]);
        FitGrows(route, route[i], Labels(routes, at + [Literal(route[i])], path[i + 1..]), i);
      }
    }
  }

  /** Such a path has the shape the route has when it is read as a path itself. */
  lemma FilledPathHasItsShape(routes: seq<string>, k: nat, path: seq<string>) returns (labels: seq<string>)
    requires k < |routes| && Fills(Contract(routes), Contract(routes)[k], path)
    requires forall s :: s in path ==> Clean(s)
    ensures PathShape(Contract(routes), "/" + Join(path)) == PathShape(Contract(routes), routes[k])
    ensures PathShape(Contract(routes), "/" + Join(path)) == "/" + Join(labels)
    ensures Fit(Contract(routes)[k], labels, 0)
  {
    var contract := Contract(routes);
    assert |path| == |contract[k]|;
    labels := Labels(contract, [], path);
    hide Labels, Join, SplitFrom, Fills, Fit;
    SplitUndoesJoin(path);
    LeadingSlash(Join(path));
    FilledLabels(contract, k, path, 0);
    assert path[0..] == path && contract[k][0..] == contract[k] && Keys(contract[k][..0]) == [];
  }
}
