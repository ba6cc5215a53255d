/** The contract's routes as one mutable tree (`apps/gateway/src/request-metrics.ts`), and the walk that
    reads a path's shape off it: both proved against the declared routes of `PathShapes`. */
module ContractTrie {
  import opened Options
  import opened PathShapes

  datatype ParamEdge = ParamEdge(name: string, node: RouteNode)

  class RouteNode {
    var children: map<string, RouteNode>
    var param: Option<ParamEdge>

    constructor ()
      ensures children == map[] && param == None
    {
      children, param := map[], None;
    }
  }

  // ---------------------------------------------------------------- declaring one more level

  lemma DeclaredBy(before: seq<seq<string>>, route: seq<string>, path: seq<Key>)
    ensures Declared(before + [route], path) <==> path == [] || path <= Keys(route) || Declared(before, path)
    ensures Declared(before + [route], path) && path != [] ==>
              NameAt(before + [route], path)
                == (if Declared(before, path) then NameAt(before, path) else route[|path| - 1])
  {
    var routes := before + [route];
    assert routes[|routes| - 1] == route && routes[..|routes| - 1] == before;
  }

  /** One more segment of the last route declares one more path, and renames none. */
  lemma OneMoreSegment(before: seq<seq<string>>, route: seq<string>, segment: string, path: seq<Key>)
    ensures var all, more := before + [route], before + [route + [segment]];
            var grown := Keys(route) + [KeyOf(segment)];
            && (Declared(more, path) <==> Declared(all, path) || path == grown)
            && (Declared(all, path) && path != [] ==> NameAt(more, path) == NameAt(all, path))
            && (path == grown && !Declared(all, path) ==> NameAt(more, path) == segment)
  {
    DeclaredBy(before, route, path);
    DeclaredBy(before, route + [segment], path);
    hide Declared, NameAt;
    var grown := Keys(route) + [KeyOf(segment)];
    assert Keys(route + [segment]) == grown;
    assert path <= grown <==> path <= Keys(route) || path == grown by {
      assert |path| <= |route| ==> (path <= grown <==> path <= Keys(route));
    }
  }

  lemma {:induction false} LongerIsNotDeclared(routes: seq<seq<string>>, path: seq<Key>, key: Key)
    requires !Declared(routes, path)
    ensures !Declared(routes, path + [key])
    decreases |routes|
  {
    if routes != [] {
      var last := Keys(routes[|routes| - 1]);
      assert path + [key] <= last ==> path <= last;
      LongerIsNotDeclared(routes[..|routes| - 1], path, key);
    }
  }

  /** A route not begun yet declares nothing but the root. */
  lemma NothingOfARoute(before: seq<seq<string>>, path: seq<Key>)
    ensures Declared(before + [[]], path) <==> Declared(before, path)
    ensures Declared(before, path) && path != [] ==> NameAt(before + [[]], path) == NameAt(before, path)
  {
    DeclaredBy(before, [], path);
  }

  // ---------------------------------------------------------------- the tree and what it stands for

  type Places = map<RouteNode, seq<Key>>

  /** What one node holds at a moment. */
  datatype Level = Level(children: map<string, RouteNode>, param: Option<ParamEdge>)

  type Levels = map<RouteNode, Level>

  ghost function LevelsOf(nodes: set<RouteNode>): Levels
    reads nodes
  {
    map n | n in nodes :: Level(n.children, n.param)
  }

  ghost predicate WordsSound(routes: seq<seq<string>>, places: Places, at: seq<Key>, children: map<string, RouteNode>) {
    && (forall s :: s in children <==> Declared(routes, at + [Literal(s)]))
    && (forall s :: s in children ==> children[s] in places && places[children[s]] == at + [Literal(s)])
  }

  ghost predicate ParamSound(routes: seq<seq<string>>, places: Places, at: seq<Key>, param: Option<ParamEdge>) {
    && (param.Some? <==> Declared(routes, at + [Param]))
    && (param.Some? ==>
          && param.value.node in places && places[param.value.node] == at + [Param]
          && param.value.name == NameAt(routes, at + [Param]))
  }

  /** A node's edges are exactly the levels declared after its path, each to the node of that path. */
  ghost predicate LevelSound(routes: seq<seq<string>>, places: Places, at: seq<Key>, level: Level) {
    WordsSound(routes, places, at, level.children) && ParamSound(routes, places, at, level.param)
  }

  /** Every node has a declared path of its own, and the root's is empty. */
  ghost predicate PlacesSound(root: RouteNode, routes: seq<seq<string>>, places: Places) {
    && root in places && places[root] == []
    && (forall m, n :: m in places && n in places && places[m] == places[n] ==> m == n)
    && (forall n :: n in places ==> Declared(routes, places[n]))
  }

  ghost predicate LevelsSound(routes: seq<seq<string>>, places: Places, levels: Levels) {
    && levels.Keys == places.Keys
    && (forall n :: n in places ==> LevelSound(routes, places, places[n], levels[n]))
  }

  /** `places` gives the path of every node. */
  ghost predicate TreeSound(root: RouteNode, routes: seq<seq<string>>, places: Places, levels: Levels) {
    PlacesSound(root, routes, places) && LevelsSound(routes, places, levels)
  }

  ghost predicate Sound(root: RouteNode, routes: seq<seq<string>>, places: Places)
    reads places.Keys
  {
    TreeSound(root, routes, places, LevelsOf(places.Keys))
  }

  /** What one more segment declares. */
  ghost predicate Grows(all: seq<seq<string>>, more: seq<seq<string>>, path: seq<Key>, segment: string) {
    && path != []
    && (forall p :: Declared(more, p) <==> Declared(all, p) || p == path)
    && (forall p :: Declared(all, p) && p != [] ==> NameAt(more, p) == NameAt(all, p))
    && (!Declared(all, path) ==> NameAt(more, path) == segment)
  }

  lemma SegmentGrows(before: seq<seq<string>>, route: seq<string>, segment: string)
    ensures Grows(before + [route], before + [route + [segment]], Keys(route) + [KeyOf(segment)], segment)
  {
    var all, more := before + [route], before + [route + [segment]];
    forall p ensures Declared(more, p) <==> Declared(all, p) || p == Keys(route) + [KeyOf(segment)] {
      OneMoreSegment(before, route, segment, p);
    }
    forall p | Declared(all, p) && p != [] ensures NameAt(more, p) == NameAt(all, p) {
      OneMoreSegment(before, route, segment, p);
    }
    OneMoreSegment(before, route, segment, Keys(route) + [KeyOf(segment)]);
  }

  lemma BelowGrows(all: seq<seq<string>>, more: seq<seq<string>>, at: seq<Key>, key: Key, segment: string)
    requires Grows(all, more, at + [key], segment)
    ensures forall k :: Declared(more, at + [k]) <==> Declared(all, at + [k]) || k == key
    ensures forall k :: Declared(all, at + [k]) ==> NameAt(more, at + [k]) == NameAt(all, at + [k])
    ensures !Declared(all, at + [key]) ==> NameAt(more, at + [key]) == segment
  {
    hide Declared, NameAt;
    forall k ensures Declared(more, at + [k]) <==> Declared(all, at + [k]) || k == key {
      assert (at + [k])[|at|] == k && (at + [key])[|at|] == key;
    }
  }

  /** A level that the new path is not directly below stays sound, and so does every level when the path
      was there already. */
  lemma LevelStays(all: seq<seq<string>>, more: seq<seq<string>>, path: seq<Key>, segment: string,
                   places: Places, grown: Places, at: seq<Key>, level: Level)
    requires Grows(all, more, path, segment) && LevelSound(all, places, at, level)
    requires at != path[..|path| - 1] || Declared(all, path)
    requires forall n :: n in places ==> n in grown && grown[n] == places[n]
    ensures LevelSound(more, grown, at, level)
  {
    forall key: Key ensures Declared(more, at + [key]) <==> Declared(all, at + [key]) {
      assert (at + [key])[..|at|] == at;
    }
    hide Declared, NameAt;
  }

  function WithEdge(level: Level, segment: string, next: RouteNode): Level {
    if KeyOf(segment).Param? then level.(param := Some(ParamEdge(segment, next)))
    else level.(children := level.children[segment := next])
  }

  function WithChild(levels: Levels, node: RouteNode, segment: string, next: RouteNode): Levels
    requires node in levels
  {
    levels[node := WithEdge(levels[node], segment, next)][next := Level(map[], None)]
  }

  /** The level the new path is directly below has one more word, or its parameter. */
  lemma LevelGrows(all: seq<seq<string>>, more: seq<seq<string>>, segment: string,
                   places: Places, grown: Places, at: seq<Key>, next: RouteNode, level: Level)
    requires Grows(all, more, at + [KeyOf(segment)], segment) && LevelSound(all, places, at, level)
    requires !Declared(all, at + [KeyOf(segment)])
    requires next !in places && grown == places[next := at + [KeyOf(segment)]]
    ensures LevelSound(more, grown, at, WithEdge(level, segment, next))
  {
    BelowGrows(all, more, at, KeyOf(segment), segment);
    hide Declared, NameAt, Grows;
    if KeyOf(segment).Param? {
      WordsStay(all, more, places, grown, at, level.children);
      hide WordsSound;
    } else {
      WordsGrow(all, more, segment, places, grown, at, next, level.children);
      hide WordsSound;
    }
  }

  lemma WordsStay(all: seq<seq<string>>, more: seq<seq<string>>, places: Places, grown: Places, at: seq<Key>,
                  children: map<string, RouteNode>)
    requires WordsSound(all, places, at, children)
    requires forall w :: Declared(more, at + [Literal(w)]) <==> Declared(all, at + [Literal(w)])
    requires forall n :: n in places ==> n in grown && grown[n] == places[n]
    ensures WordsSound(more, grown, at, children)
  {
    hide Declared;
  }

  lemma WordsGrow(all: seq<seq<string>>, more: seq<seq<string>>, word: string, places: Places, grown: Places,
                  at: seq<Key>, next: RouteNode, children: map<string, RouteNode>)
    requires WordsSound(all, places, at, children)
    requires forall w :: Declared(more, at + [Literal(w)]) <==> Declared(all, at + [Literal(w)]) || w == word
    requires next !in places && grown == places[next := at + [Literal(word)]]
    ensures WordsSound(more, grown, at, children[word := next])
  {
    hide Declared;
  }

  /** Nothing is declared below a path just declared. */
  lemma LevelBegins(all: seq<seq<string>>, more: seq<seq<string>>, path: seq<Key>, segment: string, grown: Places)
    requires Grows(all, more, path, segment) && !Declared(all, path)
    ensures LevelSound(more, grown, path, Level(map[], None))
  {
    forall key: Key ensures !Declared(more, path + [key]) {
      LongerIsNotDeclared(all, path, key);
    }
    hide Declared, NameAt;
  }

  /** A path that was there already changes nothing. */
  lemma TreeStays(root: RouteNode, all: seq<seq<string>>, more: seq<seq<string>>, path: seq<Key>, segment: string,
                  places: Places, levels: Levels)
    requires Grows(all, more, path, segment) && Declared(all, path)
    requires TreeSound(root, all, places, levels)
    ensures TreeSound(root, more, places, levels)
  {
    assert PlacesSound(root, more, places) by { hide LevelSound, NameAt, Declared; }
    hide Declared, NameAt, LevelSound, Grows, PlacesSound;
    forall n | n in places ensures LevelSound(more, places, places[n], levels[n]) {
      LevelStays(all, more, path, segment, places, places, places[n], levels[n]);
    }
  }

  /** A new path takes one edge and one node. */
  lemma TreeGrows(root: RouteNode, all: seq<seq<string>>, more: seq<seq<string>>, segment: string,
                  places: Places, levels: Levels, node: RouteNode, next: RouteNode)
    requires TreeSound(root, all, places, levels) && node in places && next !in places
    requires Grows(all, more, places[node] + [KeyOf(segment)], segment)
    requires !Declared(all, places[node] + [KeyOf(segment)])
    ensures TreeSound(root, more, places[next := places[node] + [KeyOf(segment)]],
                      WithChild(levels, node, segment, next))
  {
    hide PlacesSound, LevelsSound, Grows, Declared, WithChild;
    PlacesGrow(root, all, more, places, places[node] + [KeyOf(segment)], segment, next);
    LevelsGrow(root, all, more, segment, places, levels, node, next);
  }

  lemma PlacesGrow(root: RouteNode, all: seq<seq<string>>, more: seq<seq<string>>, places: Places, path: seq<Key>,
                   segment: string, next: RouteNode)
    requires PlacesSound(root, all, places) && next !in places
    requires Grows(all, more, path, segment) && !Declared(all, path)
    ensures PlacesSound(root, more, places[next := path])
  {
    hide NameAt, Declared;
  }

  lemma LevelsGrow(root: RouteNode, all: seq<seq<string>>, more: seq<seq<string>>, segment: string,
                   places: Places, levels: Levels, node: RouteNode, next: RouteNode)
    requires PlacesSound(root, all, places) && LevelsSound(all, places, levels) && node in places && next !in places
    requires Grows(all, more, places[node] + [KeyOf(segment)], segment)
    requires !Declared(all, places[node] + [KeyOf(segment)])
    ensures LevelsSound(more, places[next := places[node] + [KeyOf(segment)]],
                        WithChild(levels, node, segment, next))
  {
    hide Declared, NameAt, LevelSound, WithEdge, Grows;
    var path := places[node] + [KeyOf(segment)];
    assert path[..|path| - 1] == places[node];
    var grown := places[next := path];
    forall n | n in places && n != node ensures LevelSound(more, grown, places[n], levels[n]) {
      LevelStays(all, more, path, segment, places, grown, places[n], levels[n]);
    }
    LevelGrows(all, more, segment, places, grown, places[node], next, levels[node]);
    LevelBegins(all, more, path, segment, grown);
  }

  lemma NodeEdges(root: RouteNode, routes: seq<seq<string>>, places: Places, levels: Levels,
                  node: RouteNode, word: string)
    requires TreeSound(root, routes, places, levels) && node in places
    ensures node in levels
    ensures var level, at := levels[node], places[node];
            && (word in level.children <==> Declared(routes, at + [Literal(word)]))
            && (word in level.children ==>
                  level.children[word] in places && places[level.children[word]] == at + [Literal(word)])
            && (level.param.Some? <==> Declared(routes, at + [Param]))
            && (level.param.Some? ==>
                  && level.param.value.node in places && places[level.param.value.node] == at + [Param]
                  && level.param.value.name == NameAt(routes, at + [Param]))
  {
    assert LevelSound(routes, places, places[node], levels[node]);
    hide Declared, NameAt;
  }

  // ---------------------------------------------------------------- building the tree

  /** Follows a segment's edge out of a node, making the edge and its node where there are none. */
  method GrowNode(root: RouteNode, node: RouteNode, segment: string,
                  ghost before: seq<seq<string>>, ghost route: seq<string>, ghost places: Places)
    returns (next: RouteNode, ghost grown: Places)
    requires Sound(root, before + [route], places) && node in places && places[node] == Keys(route)
    modifies node
    ensures places.Keys <= grown.Keys && fresh(grown.Keys - places.Keys)
    ensures Sound(root, before + [route + [segment]], grown)
    ensures next in grown && grown[next] == Keys(route + [segment])
  {
    ghost var all, more := before + [route], before + [route + [segment]];
    ghost var levels := LevelsOf(places.Keys);
    ghost var path := Keys(route) + [KeyOf(segment)];
    hide Declared, NameAt, Grows, LevelSound, Keys, TreeSound, Sound, WithEdge, WithChild;
    SegmentGrows(before, route, segment);
    KeysGrow(route, segment);
    SoundIs(root, all, places);
    NodeEdges(root, all, places, levels, node, segment);
    if segment != "" && segment[0] == ':' {
      if node.param.None? {
        var child := new RouteNode();
        TreeGrows(root, all, more, segment, places, levels, node, child);
        node.param := Some(ParamEdge(segment, child));
        grown := places[child := path];
        LevelsAfter(levels, LevelsOf(grown.Keys), node, segment, child);
      } else {
        grown := places;
        TreeStays(root, all, more, path, segment, places, levels);
      }
      next := node.param.value.node;
    } else if segment in node.children {
      next := node.children[segment];
      grown := places;
      TreeStays(root, all, more, path, segment, places, levels);
    } else {
      next := new RouteNode();
      TreeGrows(root, all, more, segment, places, levels, node, next);
      node.children := node.children[segment := next];
      grown := places[next := path];
      LevelsAfter(levels, LevelsOf(grown.Keys), node, segment, next);
    }
    SoundIs(root, more, grown);
  }

  lemma KeysGrow(route: seq<string>, segment: string)
    ensures Keys(route + [segment]) == Keys(route) + [KeyOf(segment)]
  {}

  lemma LevelsAfter(levels: Levels, after: Levels, node: RouteNode, segment: string, next: RouteNode)
    requires node in levels && next !in levels && after.Keys == levels.Keys + {next}
    requires after[next] == Level(map[], None)
    requires var level := levels[node];
             after[node] == if KeyOf(segment).Param? then level.(param := Some(ParamEdge(segment, next)))
                            else level.(children := level.children[segment := next])
    requires forall n :: n in levels && n != node ==> after[n] == levels[n]
    ensures after == WithChild(levels, node, segment, next)
  {}

  lemma SoundIs(root: RouteNode, routes: seq<seq<string>>, places: Places)
    ensures Sound(root, routes, places) <==> TreeSound(root, routes, places, LevelsOf(places.Keys))
  {}

  lemma LevelsOfNew(root: RouteNode)
    requires root.children == map[] && root.param == None
    ensures Sound(root, [], map[root := []])
  {
    var places: Places := map[root := []];
    assert LevelsOf(places.Keys) == map[root := Level(map[], None)];
    hide LevelsOf;
  }

  /** Declaring no segment of one more route changes nothing. */
  lemma NextRoute(root: RouteNode, before: seq<seq<string>>, places: Places)
    requires Sound(root, before, places)
    ensures Sound(root, before + [[]], places)
  {
    forall p ensures Declared(before + [[]], p) <==> Declared(before, p) {
      NothingOfARoute(before, p);
    }
    forall p | Declared(before, p) && p != [] ensures NameAt(before + [[]], p) == NameAt(before, p) {
      NothingOfARoute(before, p);
    }
    var levels := LevelsOf(places.Keys);
    hide Declared, NameAt, LevelsOf;
    assert PlacesSound(root, before + [[]], places) by { hide LevelSound, LevelsSound; }
    hide PlacesSound;
    forall n | n in places ensures LevelSound(before + [[]], places, places[n], levels[n]) {
      assert LevelSound(before, places, places[n], levels[n]);
    }
  }

  /** Grows the tree segment by segment, route by route, from a bare root. */
  method BuildContractTrie(routes: seq<string>) returns (root: RouteNode, ghost places: Places)
    ensures Sound(root, Contract(routes), places)
  {
    hide *;
    root := new RouteNode();
    places := map[root := []];
    LevelsOfNew(root);
    assert Contract(routes)[..0] == [];
    for i := 0 to |routes|
      invariant root in places && fresh(places.Keys)
      invariant Sound(root, Contract(routes)[..i], places)
    {
      var node := root;
      var segments := SegmentsOf(routes[i]);
      ghost var before := Contract(routes)[..i];
      NextRoute(root, before, places);
      RootIsFirst(root, before + [[]], places);
      for j := 0 to |segments|
        invariant root in places && node in places && fresh(places.Keys) && places[node] == Keys(segments[..j])
        invariant Sound(root, before + [segments[..j]], places)
      {
        assert segments[..j] + [segments[j]] == segments[..j + 1];
        node, places := GrowNode(root, node, segments[j], before, segments[..j], places);
      }
      assert segments[..|segments|] == segments;
      assert Contract(routes)[..i + 1] == before + [segments];
    }
    assert Contract(routes)[..|routes|] == Contract(routes);
  }

  lemma RootIsFirst(root: RouteNode, routes: seq<seq<string>>, places: Places)
    requires Sound(root, routes, places)
    ensures root in places && places[root] == Keys([])
  {}

  /** The tree's root paths are the declared paths: each node has one, and each has a node. */
  lemma {:induction false} DeclaredHasANode(root: RouteNode, routes: seq<seq<string>>, places: Places, path: seq<Key>)
    returns (node: RouteNode)
    requires Sound(root, routes, places) && Declared(routes, path)
    ensures node in places && places[node] == path
    decreases |path|
  {
    SoundIs(root, routes, places);
    if path == [] {
      node := root;
    } else {
      var front, key := path[..|path| - 1], path[|path| - 1];
      assert path == front + [key];
      if !Declared(routes, front) {
        LongerIsNotDeclared(routes, front, key);
      }
      hide Declared, NameAt, Sound, TreeSound;
      var parent := DeclaredHasANode(root, routes, places, front);
      NodeEdges(root, routes, places, LevelsOf(places.Keys), parent, if key.Param? then "" else key.word);
      node := if key.Param? then parent.param.value.node else parent.children[key.word];
    }
  }

  datatype Reach = Reach(name: string, node: RouteNode)

  /** Where a segment leads from a node and what a shape calls it, a word going before the parameter. */
  method StepInto(root: RouteNode, node: RouteNode, segment: string,
                  ghost routes: seq<seq<string>>, ghost places: Places)
    returns (step: Option<Reach>)
    requires Sound(root, routes, places) && node in places
    ensures var at := places[node];
            if Declared(routes, at + [Literal(segment)]) then
              step.Some? && step.value.node in places && step.value.name == segment
              && places[step.value.node] == at + [Literal(segment)]
            else if Declared(routes, at + [Param]) then
              step.Some? && step.value.node in places && step.value.name == NameAt(routes, at + [Param])
              && places[step.value.node] == at + [Param]
            else step.None?
  {
    SoundIs(root, routes, places);
    NodeEdges(root, routes, places, LevelsOf(places.Keys), node, segment);
    hide Declared, NameAt, TreeSound, Sound;
    if segment in node.children {
      return Some(Reach(segment, node.children[segment]));
    }
    return if node.param.None? then None else Some(Reach(node.param.value.name, node.param.value.node));
  }

  /** Walks the tree along a path and writes down what each level is called. */
  method PathShapeOf(root: RouteNode, path: string, ghost routes: seq<seq<string>>, ghost places: Places)
    returns (shape: string)
    requires Sound(root, routes, places)
    ensures shape == PathShape(routes, path)
  {
    hide Declared, NameAt, Sound, SplitFrom, Join;
    var labels: seq<string> := [];
    var node := root;
    var segments := SegmentsOf(path);
    RootIsFirst(root, routes, places);
    for i := 0 to |segments|
      invariant node in places
      invariant labels + Labels(routes, places[node], segments[i..]) == Labels(routes, [], segments)
    {
      var step := StepInto(root, node, segments[i], routes, places);
      assert segments[i..][0] == segments[i] && segments[i..][1..] == segments[i + 1..];
      if step.None? {
        labels := labels + [OPAQUE_SEGMENT];
        return "/" + Join(labels);
      }
      labels := labels + [step.value.name];
      node := step.value.node;
    }
    assert segments[|segments|..] == [] && Labels(routes, places[node], []) == [];
    assert labels + [] == labels;
    return "/" + Join(labels);
  }
}
