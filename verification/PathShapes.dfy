/** The shape of a path under a list of declared routes, said of the list itself
    (`apps/gateway/src/request-metrics.ts`). `ContractTrie` computes it from one tree. */
module PathShapes {

  const OPAQUE_SEGMENT := "*"

  // ---------------------------------------------------------------- split and join

  /** `split("/")` with the empty parts filtered out; `part` is the one being read. */
  function SplitFrom(path: string, part: string): seq<string> {
    var done := if part == "" then [] else [part];
    if path == "" then done
    else if path[0] == '/' then done + SplitFrom(path[1..], "")
    else SplitFrom(path[1..], part + [path[0]])
  }

  function SegmentsOf(path: string): seq<string> {
    SplitFrom(path, "")
  }

  /** `join("/")`. */
  function Join(labels: seq<string>): string {
    if labels == [] then ""
    else if |labels| == 1 then labels[0]
    else labels[0] + "/" + Join(labels[1..])
  }

  predicate Clean(segment: string) {
    segment != "" && '/' !in segment
  }

  lemma {:induction false} SplitIsClean(path: string, part: string)
    requires '/' !in part
    ensures forall s :: s in SplitFrom(path, part) ==> Clean(s)
    decreases |path|
  {
    if path != "" {
      if path[0] == '/' {
        SplitIsClean(path[1..], "");
      } else {
        SplitIsClean(path[1..], part + [path[0]]);
      }
    }
  }

  lemma {:induction false} SplitReadsOn(word: string, rest: string, part: string)
    requires '/' !in word
    ensures SplitFrom(word + rest, part) == SplitFrom(rest, part + word)
    decreases |word|
  {
    if word == "" {
      assert word + rest == rest && part + word == part;
    } else {
      assert word[0] in word && forall c :: c in word[1..] ==> c in word;
      SplitReadsOn(word[1..], rest, part + [word[0]]);
      assert (word + rest)[1..] == word[1..] + rest;
      assert part + [word[0]] + word[1..] == part + word;
    }
  }

  lemma {:induction false} SplitUndoesJoin(labels: seq<string>)
    requires forall l :: l in labels ==> Clean(l)
    ensures SegmentsOf(Join(labels)) == labels
    decreases |labels|
  {
    if labels != [] {
      var first := labels[0];
      assert first in labels;
      if |labels| == 1 {
        SplitReadsOn(first, "", "");
        assert first + "" == first && "" + first == first;
      } else {
        var rest := Join(labels[1..]);
        SplitReadsOn(first, "/" + rest, "");
        assert first + ("/" + rest) == first + "/" + rest && "" + first == first;
        assert ("/" + rest)[1..] == rest;
        SplitUndoesJoin(labels[1..]);
      }
    }
  }

  // ---------------------------------------------------------------- what the contract declares

  /** A level of a route: one word, or whatever stands at its one parameter. */
  datatype Key = Literal(word: string) | Param

  function KeyOf(segment: string): Key {
    if segment != "" && segment[0] == ':' then Param else Literal(segment)
  }

  function Keys(segments: seq<string>): (r: seq<Key>)
    ensures |r| == |segments| && forall i :: 0 <= i < |r| ==> r[i] == KeyOf(segments[i])
  {
    seq(|segments|, i requires 0 <= i < |segments| => KeyOf(segments[i]))
  }

  /** Some route begins this way. */
  predicate Declared(routes: seq<seq<string>>, path: seq<Key>) {
    path == [] || (routes != [] &&
      (path <= Keys(routes[|routes| - 1]) || Declared(routes[..|routes| - 1], path)))
  }

  /** How the first route that begins this way writes the last level: a word as itself, a parameter
      under the name first given to it there. */
  function NameAt(routes: seq<seq<string>>, path: seq<Key>): string
    requires path != [] && Declared(routes, path)
  {
    var n := |routes| - 1;
    if Declared(routes[..n], path) then NameAt(routes[..n], path) else routes[n][|path| - 1]
  }

  /** The labels of a path that has got as far as `at`. */
  function Labels(routes: seq<seq<string>>, at: seq<Key>, segments: seq<string>): seq<string>
    decreases |segments|
  {
    if segments == [] then []
    else if Declared(routes, at + [Literal(segments[0])]) then
      [segments[0]] + Labels(routes, at + [Literal(segments[0])], segments[1..])
    else if Declared(routes, at + [Param]) then
      [NameAt(routes, at + [Param])] + Labels(routes, at + [Param], segments[1..])
    else [OPAQUE_SEGMENT]
  }

  function PathShape(routes: seq<seq<string>>, path: string): string {
    "/" + Join(Labels(routes, [], SegmentsOf(path)))
  }

  // ---------------------------------------------------------------- names

  lemma {:induction false} NameHasItsKey(routes: seq<seq<string>>, path: seq<Key>)
    requires path != [] && Declared(routes, path)
    ensures KeyOf(NameAt(routes, path)) == path[|path| - 1]
    decreases |routes|
  {
    var n := |routes| - 1;
    if Declared(routes[..n], path) {
      NameHasItsKey(routes[..n], path);
    }
  }

  /** A word is declared only as itself: a segment that begins with a colon is never one. */
  lemma WordsAreThemselves(routes: seq<seq<string>>, at: seq<Key>, word: string)
    requires Declared(routes, at + [Literal(word)])
    ensures KeyOf(word) == Literal(word) && NameAt(routes, at + [Literal(word)]) == word
  {
    NameHasItsKey(routes, at + [Literal(word)]);
  }

  predicate IsWord(routes: seq<seq<string>>, word: string) {
    routes != [] && (word in routes[|routes| - 1] || IsWord(routes[..|routes| - 1], word))
  }

  lemma {:induction false} NamesAreWords(routes: seq<seq<string>>, path: seq<Key>)
    requires path != [] && Declared(routes, path)
    ensures IsWord(routes, NameAt(routes, path))
    decreases |routes|
  {
    var n := |routes| - 1;
    if Declared(routes[..n], path) {
      NamesAreWords(routes[..n], path);
    }
  }

  // ---------------------------------------------------------------- the properties of a shape

  /** Nothing a caller wrote gets into a shape: its labels are words of the routes, or the one mark. */
  lemma {:induction false} LabelsAreWords(routes: seq<seq<string>>, at: seq<Key>, segments: seq<string>, shown: string)
    requires shown in Labels(routes, at, segments)
    ensures shown == "*" || IsWord(routes, shown)
    decreases |segments|
  {
    var literal := at + [Literal(segments[0])];
    if Declared(routes, literal) {
      WordsAreThemselves(routes, at, segments[0]);
      NamesAreWords(routes, literal);
      if shown != segments[0] {
        LabelsAreWords(routes, literal, segments[1..], shown);
      }
    } else if Declared(routes, at + [Param]) {
      NamesAreWords(routes, at + [Param]);
      if shown != NameAt(routes, at + [Param]) {
        LabelsAreWords(routes, at + [Param], segments[1..], shown);
      }
    }
  }

  /** The labels of labels are themselves. */
  lemma {:induction false} LabelsAreSettled(routes: seq<seq<string>>, at: seq<Key>, segments: seq<string>)
    ensures Labels(routes, at, Labels(routes, at, segments)) == Labels(routes, at, segments)
    decreases |segments|
  {
    if segments != [] {
      var literal := at + [Literal(segments[0])];
      if Declared(routes, literal) {
        LabelsAreSettled(routes, literal, segments[1..]);
      } else if Declared(routes, at + [Param]) {
        var name := NameAt(routes, at + [Param]);
        NameHasItsKey(routes, at + [Param]);
        if Declared(routes, at + [Literal(name)]) {
          WordsAreThemselves(routes, at, name);
        }
        LabelsAreSettled(routes, at + [Param], segments[1..]);
      }
      hide Declared, NameAt;
    }
  }

  // ---------------------------------------------------------------- of whole contracts and paths

  function Contract(routes: seq<string>): (r: seq<seq<string>>)
    ensures |r| == |routes| && forall i :: 0 <= i < |r| ==> r[i] == SegmentsOf(routes[i])
  {
    seq(|routes|, i requires 0 <= i < |routes| => SegmentsOf(routes[i]))
  }

  lemma {:induction false} WordsAreClean(routes: seq<string>, word: string)
    requires IsWord(Contract(routes), word)
    ensures Clean(word)
    decreases |routes|
  {
    var n := |routes| - 1;
    SplitIsClean(routes[n], "");
    if word !in SegmentsOf(routes[n]) {
      assert Contract(routes)[..n] == Contract(routes[..n]);
      WordsAreClean(routes[..n], word);
    }
  }

  /** A shape is its own shape, whatever routes there are and whatever path it was. */
  lemma ShapesAreSettled(routes: seq<string>, path: string)
    ensures PathShape(Contract(routes), PathShape(Contract(routes), path)) == PathShape(Contract(routes), path)
  {
    var contract := Contract(routes);
    var labels := Labels(contract, [], SegmentsOf(path));
    forall l | l in labels ensures Clean(l) {
      LabelsAreWords(contract, [], SegmentsOf(path), l);
      if l != "*" {
        WordsAreClean(routes, l);
      }
    }
    SplitUndoesJoin(labels);
    assert ("/" + Join(labels))[1..] == Join(labels);
    LabelsAreSettled(contract, [], SegmentsOf(path));
    hide Labels, Join, SplitFrom;
    assert SegmentsOf("/" + Join(labels)) == labels by { LeadingSlash(Join(labels)); }
  }

  lemma LeadingSlash(path: string)
    ensures SegmentsOf("/" + path) == SegmentsOf(path)
  {
    assert ("/" + path)[1..] == path;
  }

  // ---------------------------------------------------------------- how far a path gets

  /** The level the walk reaches, and whether it stops short of the path's end. */
  function Reached(routes: seq<seq<string>>, at: seq<Key>, segments: seq<string>): seq<Key>
    decreases |segments|
  {
    if segments == [] then at
    else if Declared(routes, at + [Literal(segments[0])]) then
      Reached(routes, at + [Literal(segments[0])], segments[1..])
    else if Declared(routes, at + [Param]) then Reached(routes, at + [Param], segments[1..])
    else at
  }

  predicate Stops(routes: seq<seq<string>>, at: seq<Key>, segments: seq<string>) {
    |Reached(routes, at, segments)| < |at| + |segments|
  }

  /** A declared path as the contract writes it, every parameter under the first name given to it. */
  function Canonical(routes: seq<seq<string>>, path: seq<Key>): seq<string>
    decreases |path|
  {
    if path == [] || !Declared(routes, path) then []
    else Canonical(routes, path[..|path| - 1]) + [NameAt(routes, path)]
  }

  /** A shape is a declared path, with the one mark behind it exactly when the path goes on where the
      contract does not. */
  lemma {:induction false} ShapeIsDeclaredPath(routes: seq<seq<string>>, at: seq<Key>, segments: seq<string>)
    requires Declared(routes, at)
    ensures var reached := Reached(routes, at, segments);
            && Declared(routes, reached)
            && at <= reached && |reached| <= |at| + |segments|
            && Canonical(routes, at) + Labels(routes, at, segments)
                 == Canonical(routes, reached) + (if Stops(routes, at, segments) then ["*"] else [])
            && (Stops(routes, at, segments) ==>
                  var next := segments[|reached| - |at|];
                  !Declared(routes, reached + [Literal(next)]) && !Declared(routes, reached + [Param]))
    decreases |segments|
  {
    hide Declared, NameAt, Canonical;
    if segments != [] {
      var literal, param := at + [Literal(segments[0])], at + [Param];
      if Declared(routes, literal) {
        WordsAreThemselves(routes, at, segments[0]);
        CanonicalGrows(routes, at, Literal(segments[0]));
        ShapeIsDeclaredPath(routes, literal, segments[1..]);
        OneLevelOn(Canonical(routes, at), segments[0], Labels(routes, literal, segments[1..]));
      } else if Declared(routes, param) {
        CanonicalGrows(routes, at, Param);
        ShapeIsDeclaredPath(routes, param, segments[1..]);
        OneLevelOn(Canonical(routes, at), NameAt(routes, param), Labels(routes, param, segments[1..]));
      }
    }
  }

  lemma CanonicalGrows(routes: seq<seq<string>>, at: seq<Key>, key: Key)
    requires Declared(routes, at + [key])
    ensures Canonical(routes, at + [key]) == Canonical(routes, at) + [NameAt(routes, at + [key])]
  {
    assert (at + [key])[..|at|] == at;
  }

  lemma OneLevelOn(before: seq<string>, name: string, after: seq<string>)
    ensures before + [name] + after == before + ([name] + after)
  {}

  // ---------------------------------------------------------------- how many shapes there are

  function PrefixesOf(keys: seq<Key>): (r: set<seq<Key>>)
    ensures forall p :: p in r <==> p <= keys
    ensures |r| == |keys| + 1
  {
    if keys == [] then {[]}
    else
      var front := keys[..|keys| - 1];
      var r := PrefixesOf(front) + {keys};
      assert forall p :: p in r <==> p <= keys by {
        forall p: seq<Key> ensures p in r <==> p <= keys {
          assert |p| < |keys| ==> (p <= front <==> p <= keys);
          assert |p| == |keys| ==> (p == keys <==> p <= keys);
        }
      }
      r
  }

  function Words(routes: seq<seq<string>>): nat {
    if routes == [] then 0 else Words(routes[..|routes| - 1]) + |routes[|routes| - 1]|
  }

  /** Every declared path: at most one for each word of the contract, and the root. */
  function Paths(routes: seq<seq<string>>): (r: set<seq<Key>>)
    ensures forall p :: p in r <==> Declared(routes, p)
    ensures |r| <= 1 + Words(routes)
  {
    if routes == [] then {[]}
    else
      var n := |routes| - 1;
      UnionCounts(Paths(routes[..n]), PrefixesOf(Keys(routes[n])), []);
      Paths(routes[..n]) + PrefixesOf(Keys(routes[n]))
  }

  lemma UnionCounts<T>(a: set<T>, b: set<T>, shared: T)
    requires shared in a && shared in b
    ensures |a + b| <= |a| + |b| - 1
  {
    assert a + b == a + (b - {shared});
    assert a + (b - {shared}) == a + ((b - {shared}) - a);
    assert |b - {shared}| == |b| - 1;
    DifferenceCounts(b - {shared}, a);
  }

  lemma {:induction false} DifferenceCounts<T>(a: set<T>, b: set<T>)
    ensures |a - b| <= |a|
  {
    assert a == (a - b) + (a * b);
  }

  function ShapeOf(routes: seq<seq<string>>, path: seq<Key>, stops: bool): string {
    "/" + Join(Canonical(routes, path) + if stops then ["*"] else [])
  }

  function Image<S, T>(s: set<S>, f: S -> T): set<T> {
    set x | x in s :: f(x)
  }

  function Shapes(routes: seq<seq<string>>): set<string> {
    Image(Paths(routes), p => ShapeOf(routes, p, false)) + Image(Paths(routes), p => ShapeOf(routes, p, true))
  }

  /** However many paths there are, there are at most two shapes for each word of the routes, and two
      for the root. */
  lemma ShapesAreBounded(routes: seq<seq<string>>)
    ensures |Shapes(routes)| <= 2 * (1 + Words(routes))
  {
    hide ShapeOf;
    ImageCounts(Paths(routes), p => ShapeOf(routes, p, false));
    ImageCounts(Paths(routes), p => ShapeOf(routes, p, true));
  }

  /** And every path has one of them. */
  lemma ShapeIsOneOfThem(routes: seq<seq<string>>, path: string)
    ensures PathShape(routes, path) in Shapes(routes)
  {
    var segments := SegmentsOf(path);
    ShapeIsDeclaredPath(routes, [], segments);
    var reached, stops := Reached(routes, [], segments), Stops(routes, [], segments);
    assert Canonical(routes, []) + Labels(routes, [], segments) == Labels(routes, [], segments);
    hide Labels, Reached, Stops, Canonical, SplitFrom, Join, Declared;
    assert PathShape(routes, path) == ShapeOf(routes, reached, stops);
    assert reached in Paths(routes);
    var f, g := p => ShapeOf(routes, p, false), p => ShapeOf(routes, p, true);
    assert f(reached) in Image(Paths(routes), f) && g(reached) in Image(Paths(routes), g);
  }

  lemma {:induction false} ImageCounts<S, T>(s: set<S>, f: S -> T)
    ensures |Image(s, f)| <= |s|
  {
    if s != {} {
      var x :| x in s;
      ImageCounts(s - {x}, f);
      assert Image(s, f) == Image(s - {x}, f) + {f(x)};
    }
  }
}
