/**
 The directory walk of globbing. A pattern is cut into path components at its slashes, and `**` may be
 cut any number of times; a path is reported exactly when its components walk some cutting of the
 pattern. The file system is a finite tree without links.
 */
module GlobWalk {
  import opened Options
  import opened GlobMatch

  datatype Node = File | Dir(entries: seq<Entry>)

  datatype Entry = Entry(name: string, node: Node)

  /** Where a path leads: a node and the directories above it, the nearest last. */
  datatype Place = Place(node: Node, above: seq<Node>)

  function Child(p: Place, j: nat): Place
    requires p.node.Dir? && j < |p.node.entries|
  {
    Place(p.node.entries[j].node, p.above + [p.node])
  }

  function Find(entries: seq<Entry>, name: string, j: nat): (r: Option<nat>)
    requires j <= |entries|
    ensures r.Some? ==> j <= r.value < |entries| && entries[r.value].name == name
    ensures r.None? ==> forall i :: j <= i < |entries| ==> entries[i].name != name
    decreases |entries| - j
  {
    if j == |entries| then None else if entries[j].name == name then Some(j) else Find(entries, name, j + 1)
  }

  /** One component of a path: nothing and "." stay, ".." goes up, any other name is looked up. */
  function Enter(p: Place, name: string): Option<Place> {
    if !p.node.Dir? then None
    else if name == "" || name == "." then Some(p)
    else if name == ".." then
      Some(if p.above == [] then p else Place(p.above[|p.above| - 1], p.above[..|p.above| - 1]))
    else
      var j := Find(p.node.entries, name, 0);
      if j.None? then None else Some(Child(p, j.value))
  }

  /** The position of the first slash, or the length if there is none. */
  function FirstSlash(s: string): (k: nat)
    ensures k <= |s| && (k < |s| ==> s[k] == '/') && forall i :: 0 <= i < k ==> s[i] != '/'
  {
    if s == "" || s[0] == '/' then 0 else 1 + FirstSlash(s[1..])
  }

  /** A path relative to `p`, component by component. */
  function Follow(p: Place, path: string): Option<Place>
    decreases |path|
  {
    var k := FirstSlash(path);
    var next := Enter(p, path[..k]);
    if next.None? || k == |path| then next else Follow(next.value, path[k + 1..])
  }

  function RootOf(p: Place): Place {
    if p.above == [] then p else Place(p.above[0], [])
  }

  /** `os.Stat` of any path, in the working directory `cwd`. */
  function Resolve(cwd: Place, path: string): Option<Place> {
    if path == "" then None
    else if path[0] == '/' then Follow(RootOf(cwd), path[1..])
    else Follow(cwd, path)
  }

  /** `os.Stat` of `name` in the directory `dir`, which is at `p`; no `dir` is the working directory.
      The name is text of the pattern and can be empty or have slashes in it. */
  function Stat(dir: string, p: Place, name: string): Option<Place> {
    if dir == "" then Resolve(p, name) else Follow(p, name)
  }

  /** The path string of `name` in `dir`. */
  function Extend(dir: string, name: string): string {
    if dir == "" then name else if dir == "/" then "/" + name else dir + "/" + name
  }

  ghost predicate MatchName(segs: Pattern, name: string) {
    DotOk(segs, name) && Accepts(segs, name)
  }

  // ----- what is reported, in order -----

  /** The reports of the walk from `place`, whose path is `dir`. */
  ghost function Walk(segs: Pattern, dir: string, place: Place): seq<string>
    decreases |segs|, place.node, 3
  {
    if segs == [] then [dir + "/"]
    else if segs[0].Literal? && |segs| == 1 then
      if Stat(dir, place, segs[0].data).Some? then [Extend(dir, segs[0].data)] else []
    else if segs[0].Literal? && segs[1].Slash? then
      var next := Stat(dir, place, segs[0].data);
      if next.Some? && next.value.node.Dir? then Walk(segs[2..], Extend(dir, segs[0].data), next.value) else []
    else if place.node.Dir? then WalkFrom(segs, dir, place, 0)
    else []
  }

  /** The first cut is at position `i` or later, or there is none. */
  ghost function WalkFrom(segs: Pattern, dir: string, place: Place, i: nat): seq<string>
    requires i <= |segs| && place.node.Dir?
    decreases |segs|, place.node, 2, |segs| - i
  {
    if i == |segs| then Leaves(segs, dir, place.node.entries, 0)
    else if segs[i].Slash? then WalkInto(segs[..i], segs[i + 1..], dir, place, 0)
    else if segs[i].StarStar? then
      WalkInto(segs[..i + 1], segs[i..], dir, place, 0) + WalkFrom(segs, dir, place, i + 1)
    else WalkFrom(segs, dir, place, i + 1)
  }

  /** Descend into the matching directories from entry `j` on. */
  ghost function WalkInto(first: Pattern, rest: Pattern, dir: string, place: Place, j: nat): seq<string>
    requires place.node.Dir? && j <= |place.node.entries|
    decreases |rest|, place.node, 1, |place.node.entries| - j
  {
    if j == |place.node.entries| then []
    else
      var e := place.node.entries[j];
      (if MatchName(first, e.name) && e.node.Dir? then Walk(rest, Extend(dir, e.name), Child(place, j)) else [])
      + WalkInto(first, rest, dir, place, j + 1)
  }

  ghost function Leaves(segs: Pattern, dir: string, entries: seq<Entry>, j: nat): seq<string>
    requires j <= |entries|
    decreases |entries| - j
  {
    if j == |entries| then []
    else
      (if MatchName(segs, entries[j].name) then [Extend(dir, entries[j].name)] else [])
      + Leaves(segs, dir, entries, j + 1)
  }

  // ----- what should be reported -----

  /** `comps` is a way to cut the pattern into path components: at each slash, and in the middle of a
      `**`, which then belongs to both sides, any number of times. */
  ghost predicate CutsInto(segs: Pattern, comps: seq<Pattern>)
    decreases |comps|
  {
    if |comps| == 0 then false
    else if |comps| == 1 then comps[0] == segs && NoSlash(segs)
    else exists i :: CutAt(segs, i, comps[0]) && CutsInto(RestAfter(segs, i), comps[1..])
  }

  /** The first cut is at `i`, and leaves `comp` in front. */
  predicate CutAt(segs: Pattern, i: int, comp: Pattern) {
    && 0 <= i < |segs| && NoSlash(segs[..i])
    && ((segs[i].Slash? && comp == segs[..i]) || (segs[i].StarStar? && comp == segs[..i + 1]))
  }

  function RestAfter(segs: Pattern, i: int): Pattern {
    if 0 <= i < |segs| then if segs[i].Slash? then segs[i + 1..] else segs[i..] else []
  }

  predicate Lone(comp: Pattern) {
    |comp| == 1 && comp[0].Literal?
  }

  /** The component leads from `place` to `next` by the name `name`: a lone literal by looking it up,
      as a path, anything else by matching the directory's entries. */
  ghost predicate StepTo(dir: string, place: Place, comp: Pattern, name: string, next: Place) {
    if Lone(comp) then name == comp[0].data && Stat(dir, place, name) == Some(next)
    else
      && place.node.Dir?
      && MatchName(comp, name)
      && exists j :: 0 <= j < |place.node.entries| && place.node.entries[j].name == name && next == Child(place, j)
  }

  /** The components lead from `place` to `target`, which exists, and `path` is how it is written. */
  ghost predicate Arrives(place: Place, dir: string, comps: seq<Pattern>, path: string, target: Place)
    decreases |comps|
  {
    if |comps| == 0 then false
    else if |comps| == 1 then
      if comps[0] == [] then path == dir + "/" && target == place  // from a slash at the end of the pattern
      else exists name :: StepTo(dir, place, comps[0], name, target) && path == Extend(dir, name)
    else
      exists name, next ::
        && StepTo(dir, place, comps[0], name, next) && next.node.Dir?
        && Arrives(next, Extend(dir, name), comps[1..], path, target)
  }

  ghost predicate Reaches(place: Place, dir: string, comps: seq<Pattern>, path: string) {
    exists target :: Arrives(place, dir, comps, path, target)
  }

  lemma ReachesLast(place: Place, dir: string, comp: Pattern, path: string)
    ensures Reaches(place, dir, [comp], path) <==>
      if comp == [] then path == dir + "/"
      else exists name, next :: StepTo(dir, place, comp, name, next) && path == Extend(dir, name)
  {
    hide StepTo;
    if comp == [] {
      assert path == dir + "/" ==> Arrives(place, dir, [comp], path, place);
    } else {
      if name, next :| StepTo(dir, place, comp, name, next) && path == Extend(dir, name) {
        assert Arrives(place, dir, [comp], path, next);
      }
    }
  }

  ghost predicate ShouldReport(segs: Pattern, dir: string, place: Place, path: string) {
    exists comps :: CutsInto(segs, comps) && Reaches(place, dir, comps, path)
  }

  // ----- the walk reports exactly what it should -----

  /** Some entry from `j` on is a directory that matches `first` and below which `rest` reports `path`. */
  ghost predicate Via(first: Pattern, rest: Pattern, dir: string, place: Place, j: nat, path: string)
    requires place.node.Dir?
  {
    exists k :: j <= k < |place.node.entries| && ViaEntry(first, rest, dir, place, k, path)
  }

  ghost predicate ViaEntry(first: Pattern, rest: Pattern, dir: string, place: Place, k: nat, path: string)
    requires place.node.Dir? && k < |place.node.entries|
  {
    var e := place.node.entries[k];
    MatchName(first, e.name) && e.node.Dir? && ShouldReport(rest, Extend(dir, e.name), Child(place, k), path)
  }

  /** A cutting whose first cut is at `i`. */
  ghost predicate CutsFirstAt(segs: Pattern, i: int, comps: seq<Pattern>) {
    |comps| > 1 && CutAt(segs, i, comps[0]) && CutsInto(RestAfter(segs, i), comps[1..])
  }

  ghost predicate ReportsWithCutAt(segs: Pattern, i: int, dir: string, place: Place, path: string) {
    exists comps :: CutsFirstAt(segs, i, comps) && Reaches(place, dir, comps, path)
  }

  /** What the part of the walk that starts looking for cuts at `i` has to report. */
  ghost predicate ReportsFrom(segs: Pattern, i: nat, dir: string, place: Place, path: string) {
    || (NoSlash(segs) && Reaches(place, dir, [segs], path))
    || exists k :: i <= k < |segs| && ReportsWithCutAt(segs, k, dir, place, path)
  }

  lemma AllCutsFromZero(segs: Pattern, dir: string, place: Place, path: string)
    ensures ShouldReport(segs, dir, place, path) <==> ReportsFrom(segs, 0, dir, place, path)
  {
    hide Reaches;
    if comps :| CutsInto(segs, comps) && Reaches(place, dir, comps, path) {
      if |comps| == 1 {
        assert comps == [segs];
      } else {
        var i :| CutAt(segs, i, comps[0]) && CutsInto(RestAfter(segs, i), comps[1..]);
        assert CutsFirstAt(segs, i, comps);
        assert ReportsWithCutAt(segs, i, dir, place, path);
      }
    }
    if NoSlash(segs) && Reaches(place, dir, [segs], path) {
      assert CutsInto(segs, [segs]);
    }
    if k :| 0 <= k < |segs| && ReportsWithCutAt(segs, k, dir, place, path) {
      var comps :| CutsFirstAt(segs, k, comps) && Reaches(place, dir, comps, path);
      assert CutsInto(segs, comps);
    }
  }

  lemma CutComponent(segs: Pattern, i: nat) returns (first: Pattern)
    requires i < |segs| && NoSlash(segs[..i]) && (segs[i].Slash? || segs[i].StarStar?)
    ensures first == if segs[i].Slash? then segs[..i] else segs[..i + 1]
    ensures CutAt(segs, i, first) && forall comp :: CutAt(segs, i, comp) ==> comp == first
  {
    first := if segs[i].Slash? then segs[..i] else segs[..i + 1];
  }

  /** Entering the matching directories is making the cut. */
  lemma ViaIsCut(segs: Pattern, i: nat, first: Pattern, dir: string, place: Place, path: string)
    requires place.node.Dir? && CutAt(segs, i, first) && !Lone(first)
    requires forall comp :: CutAt(segs, i, comp) ==> comp == first
    ensures Via(first, RestAfter(segs, i), dir, place, 0, path) <==> ReportsWithCutAt(segs, i, dir, place, path)
  {
    hide MatchName, CutAt, CutsInto, Reaches, StepTo;
    var rest := RestAfter(segs, i);
    if Via(first, rest, dir, place, 0, path) {
      var k :| 0 <= k < |place.node.entries| && ViaEntry(first, rest, dir, place, k, path);
      var name, next := place.node.entries[k].name, Child(place, k);
      var tail :| CutsInto(rest, tail) && Reaches(next, Extend(dir, name), tail, path);
      EntryStep(dir, place, first, k);
      ReachesCons(place, dir, first, name, next, tail, path);
      assert ([first] + tail)[1..] == tail;
      assert CutsFirstAt(segs, i, [first] + tail);
    }
    if ReportsWithCutAt(segs, i, dir, place, path) {
      var comps :| CutsFirstAt(segs, i, comps) && Reaches(place, dir, comps, path);
      var name, next := ReachesHead(place, dir, comps, path);
      var k := StepEntry(dir, place, first, name, next);
      assert ShouldReport(rest, Extend(dir, name), next, path);
      assert ViaEntry(first, rest, dir, place, k, path);
    }
  }

  lemma EntryStep(dir: string, place: Place, comp: Pattern, k: nat)
    requires place.node.Dir? && k < |place.node.entries| && !Lone(comp) && MatchName(comp, place.node.entries[k].name)
    ensures StepTo(dir, place, comp, place.node.entries[k].name, Child(place, k))
  {
    hide MatchName;
  }

  lemma StepEntry(dir: string, place: Place, comp: Pattern, name: string, next: Place) returns (k: nat)
    requires !Lone(comp) && StepTo(dir, place, comp, name, next)
    ensures place.node.Dir? && k < |place.node.entries| && place.node.entries[k].name == name
    ensures MatchName(comp, name) && next == Child(place, k)
  {
    hide MatchName;
    k :| 0 <= k < |place.node.entries| && place.node.entries[k].name == name && next == Child(place, k);
  }

  lemma ReachesCons(place: Place, dir: string, comp: Pattern, name: string, next: Place, tail: seq<Pattern>,
                    path: string)
    requires StepTo(dir, place, comp, name, next) && next.node.Dir? && Reaches(next, Extend(dir, name), tail, path)
    ensures |tail| > 0 && Reaches(place, dir, [comp] + tail, path)
  {
    hide StepTo;
    assert ([comp] + tail)[1..] == tail;
    var target :| Arrives(next, Extend(dir, name), tail, path, target);
    assert Arrives(place, dir, [comp] + tail, path, target);
  }

  lemma ReachesHead(place: Place, dir: string, comps: seq<Pattern>, path: string) returns (name: string, next: Place)
    requires |comps| > 1 && Reaches(place, dir, comps, path)
    ensures StepTo(dir, place, comps[0], name, next) && next.node.Dir?
    ensures Reaches(next, Extend(dir, name), comps[1..], path)
  {
    hide StepTo;
    var target :| Arrives(place, dir, comps, path, target);
    name, next :| StepTo(dir, place, comps[0], name, next) && next.node.Dir?
                  && Arrives(next, Extend(dir, name), comps[1..], path, target);
  }

  lemma {:induction false} LeavesExact(segs: Pattern, dir: string, place: Place, j: nat, path: string)
    requires place.node.Dir? && j <= |place.node.entries|
    ensures path in Leaves(segs, dir, place.node.entries, j) <==>
      exists k ::
        && j <= k < |place.node.entries| && MatchName(segs, place.node.entries[k].name)
        && path == Extend(dir, place.node.entries[k].name)
    decreases |place.node.entries| - j
  {
    hide MatchName;
    if j < |place.node.entries| {
      LeavesExact(segs, dir, place, j + 1, path);
    }
  }

  lemma LeafIsReach(segs: Pattern, dir: string, place: Place, path: string)
    requires place.node.Dir? && segs != [] && !Lone(segs)
    ensures path in Leaves(segs, dir, place.node.entries, 0) <==> Reaches(place, dir, [segs], path)
  {
    hide MatchName, Leaves, Reaches;
    LeavesExact(segs, dir, place, 0, path);
    ReachesLast(place, dir, segs, path);
    var entries := place.node.entries;
    if k :| 0 <= k < |entries| && MatchName(segs, entries[k].name) && path == Extend(dir, entries[k].name) {
      assert StepTo(dir, place, segs, place.node.entries[k].name, Child(place, k));
    }
  }

  lemma {:induction false} WalkIntoExact(first: Pattern, rest: Pattern, dir: string, place: Place, j: nat, path: string)
    requires place.node.Dir? && j <= |place.node.entries|
    ensures path in WalkInto(first, rest, dir, place, j) <==> Via(first, rest, dir, place, j, path)
    decreases |rest|, place.node, 1, |place.node.entries| - j
  {
    hide MatchName, ShouldReport;
    if j < |place.node.entries| {
      var e := place.node.entries[j];
      WalkIntoExact(first, rest, dir, place, j + 1, path);
      if MatchName(first, e.name) && e.node.Dir? {
        WalkExact(rest, Extend(dir, e.name), Child(place, j), path);
      }
      assert ViaEntry(first, rest, dir, place, j, path) ==> Via(first, rest, dir, place, j, path);
      if Via(first, rest, dir, place, j, path) && !ViaEntry(first, rest, dir, place, j, path) {
        var k :| j <= k < |place.node.entries| && ViaEntry(first, rest, dir, place, k, path);
        assert k > j;
      }
    }
  }

  lemma {:induction false} WalkFromExact(segs: Pattern, dir: string, place: Place, i: nat, path: string)
    requires place.node.Dir? && i <= |segs| && NoSlash(segs[..i]) && segs != []
    requires segs[0].Literal? ==> |segs| > 1 && !segs[1].Slash?
    ensures path in WalkFrom(segs, dir, place, i) <==> ReportsFrom(segs, i, dir, place, path)
    decreases |segs|, place.node, 2, |segs| - i
  {
    hide Reaches, ReportsWithCutAt, MatchName, Via;
    if i == |segs| {
      assert segs[..i] == segs;
      LeafIsReach(segs, dir, place, path);
    } else if segs[i].Slash? || segs[i].StarStar? {
      var first := CutComponent(segs, i);
      WalkIntoExact(first, RestAfter(segs, i), dir, place, 0, path);
      ViaIsCut(segs, i, first, dir, place, path);
      if segs[i].StarStar? {
        assert NoSlash(segs[..i + 1]);
        WalkFromExact(segs, dir, place, i + 1, path);
        ReportsFromStep(segs, i, dir, place, path);
      } else {
        NoCutBeyondSlash(segs, i, dir, place, path);
      }
    } else {
      assert NoSlash(segs[..i + 1]);
      WalkFromExact(segs, dir, place, i + 1, path);
      NoCutHere(segs, i, dir, place, path);
      ReportsFromStep(segs, i, dir, place, path);
    }
  }

  lemma ReportsFromStep(segs: Pattern, i: nat, dir: string, place: Place, path: string)
    requires i < |segs|
    ensures ReportsFrom(segs, i, dir, place, path) <==>
      ReportsWithCutAt(segs, i, dir, place, path) || ReportsFrom(segs, i + 1, dir, place, path)
  {
    hide Reaches, ReportsWithCutAt;
  }

  lemma NoCutHere(segs: Pattern, i: nat, dir: string, place: Place, path: string)
    requires i < |segs| && !segs[i].Slash? && !segs[i].StarStar?
    ensures !ReportsWithCutAt(segs, i, dir, place, path)
  {
  }

  /** The first cut cannot come after a slash, nor can there be no cut. */
  lemma NoCutBeyondSlash(segs: Pattern, i: nat, dir: string, place: Place, path: string)
    requires i < |segs| && segs[i].Slash?
    ensures ReportsFrom(segs, i, dir, place, path) <==> ReportsWithCutAt(segs, i, dir, place, path)
  {
    hide Reaches, CutsInto;
    forall k | i < k < |segs|
      ensures !ReportsWithCutAt(segs, k, dir, place, path)
    {
      assert segs[..k][i].Slash?;
    }
  }

  /** Pattern, directory and tree arbitrary: a path is reported if and only if it should be. */
  lemma {:induction false} WalkExact(segs: Pattern, dir: string, place: Place, path: string)
    ensures path in Walk(segs, dir, place) <==> ShouldReport(segs, dir, place, path)
    decreases |segs|, place.node, 3
  {
    hide ReportsFrom, ShouldReport;
    AllCutsFromZero(segs, dir, place, path);
    if segs == [] {
      EmptyPattern(dir, place, path);
    } else if segs[0].Literal? && |segs| == 1 {
      LonePattern(segs, dir, place, path);
    } else if segs[0].Literal? && segs[1].Slash? {
      var next := Stat(dir, place, segs[0].data);
      if next.Some? && next.value.node.Dir? {
        WalkExact(segs[2..], Extend(dir, segs[0].data), next.value, path);
      }
      LiteralThenSlash(segs, dir, place, path);
    } else if place.node.Dir? {
      assert segs[..0] == [];
      WalkFromExact(segs, dir, place, 0, path);
    } else {
      NothingInAFile(segs, dir, place, path);
    }
  }

  lemma EmptyPattern(dir: string, place: Place, path: string)
    ensures ReportsFrom([], 0, dir, place, path) <==> path == dir + "/"
  {
    hide Reaches;
    ReachesLast(place, dir, [], path);
  }

  lemma LonePattern(segs: Pattern, dir: string, place: Place, path: string)
    requires Lone(segs)
    ensures ReportsFrom(segs, 0, dir, place, path) <==>
      Stat(dir, place, segs[0].data).Some? && path == Extend(dir, segs[0].data)
  {
    hide Reaches, Stat, ReportsWithCutAt;
    NoCutHere(segs, 0, dir, place, path);
    ReachesLast(place, dir, segs, path);
    var next := Stat(dir, place, segs[0].data);
    if next.Some? {
      assert StepTo(dir, place, segs, segs[0].data, next.value);
    }
  }

  lemma LiteralThenSlash(segs: Pattern, dir: string, place: Place, path: string)
    requires |segs| > 1 && segs[0].Literal? && segs[1].Slash?
    ensures
      var next := Stat(dir, place, segs[0].data);
      ReportsFrom(segs, 0, dir, place, path) <==>
        next.Some? && next.value.node.Dir? && ShouldReport(segs[2..], Extend(dir, segs[0].data), next.value, path)
  {
    hide Stat, CutsInto, ReportsFrom, Reaches;
    var d, next := segs[0].data, Stat(dir, place, segs[0].data);
    NoCutHere(segs, 0, dir, place, path);
    ReportsFromStep(segs, 0, dir, place, path);
    NoCutBeyondSlash(segs, 1, dir, place, path);
    var first := CutComponent(segs, 1);
    assert first == [segs[0]];
    if ReportsWithCutAt(segs, 1, dir, place, path) {
      var comps :| CutsFirstAt(segs, 1, comps) && Reaches(place, dir, comps, path);
      var name, n := ReachesHead(place, dir, comps, path);
      assert next == Some(n);
    }
    if next.Some? && next.value.node.Dir? && ShouldReport(segs[2..], Extend(dir, d), next.value, path) {
      var tail :| CutsInto(segs[2..], tail) && Reaches(next.value, Extend(dir, d), tail, path);
      assert StepTo(dir, place, first, d, next.value);
      ReachesCons(place, dir, first, d, next.value, tail, path);
      assert ([first] + tail)[1..] == tail;
      assert CutsFirstAt(segs, 1, [first] + tail);
    }
  }

  lemma NothingInAFile(segs: Pattern, dir: string, place: Place, path: string)
    requires !place.node.Dir? && segs != []
    requires segs[0].Literal? ==> |segs| > 1 && !segs[1].Slash?
    ensures !ReportsFrom(segs, 0, dir, place, path)
  {
    hide CutsInto, MatchName, Reaches;
    ReachesLast(place, dir, segs, path);
    forall comps, i | CutsFirstAt(segs, i, comps)
      ensures !Reaches(place, dir, comps, path)
    {
      if Reaches(place, dir, comps, path) {
        var name, next := ReachesHead(place, dir, comps, path);
      }
    }
  }

  // ----- cutting as expansion: `**` stands for `*`, `*/*`, `*/*/*` and so on -----

  /** `flat` is the pattern with each `**` repeated, a slash between, as often as you like. */
  ghost predicate Expands(segs: Pattern, flat: Pattern)
    decreases |flat|
  {
    if segs == [] then flat == []
    else
      && flat != [] && flat[0] == segs[0]
      && (Expands(segs[1..], flat[1..])
          || (segs[0].StarStar? && |flat| > 1 && flat[1].Slash? && Expands(segs, flat[2..])))
  }

  /** The components with slashes between them. */
  function Join(comps: seq<Pattern>): Pattern {
    if comps == [] then [] else if |comps| == 1 then comps[0] else comps[0] + [Slash] + Join(comps[1..])
  }

  lemma {:induction false} ExpandsWithoutSlash(segs: Pattern, flat: Pattern)
    requires NoSlash(flat)
    ensures Expands(segs, flat) <==> segs == flat
    decreases |flat|
  {
    if segs != [] && flat != [] {
      ExpandsWithoutSlash(segs[1..], flat[1..]);
      assert segs == [segs[0]] + segs[1..] && flat == [flat[0]] + flat[1..];
    }
  }

  /** The part of an expansion before its first slash is what a cut leaves in front. */
  lemma {:induction false} ExpandsUpToSlash(segs: Pattern, comp: Pattern, rest: Pattern)
    requires NoSlash(comp)
    ensures Expands(segs, comp + [Slash] + rest) <==>
      exists i :: CutAt(segs, i, comp) && Expands(RestAfter(segs, i), rest)
    decreases |comp|
  {
    hide Expands;
    var flat := comp + [Slash] + rest;
    ExpandsUnfold(segs, flat);
    if comp == [] {
      assert flat[0] == Slash && flat[1..] == rest;
      if segs != [] && segs[0].Slash? && Expands(segs[1..], rest) {
        assert CutAt(segs, 0, comp) && RestAfter(segs, 0) == segs[1..];
      }
      forall i | CutAt(segs, i, comp)
        ensures i == 0 && segs[0].Slash? && RestAfter(segs, i) == segs[1..]
      {
      }
    } else {
      assert flat[0] == comp[0] && flat[1..] == comp[1..] + [Slash] + rest;
      assert flat[1].Slash? <==> |comp| == 1;
      if segs != [] && segs[0] == comp[0] {
        ExpandsUpToSlash(segs[1..], comp[1..], rest);
        forall i | CutAt(segs[1..], i, comp[1..])
          ensures CutAt(segs, i + 1, comp) && RestAfter(segs, i + 1) == RestAfter(segs[1..], i)
        {
          CutShift(segs, i, comp);
        }
        forall i | CutAt(segs, i, comp) && i > 0
          ensures CutAt(segs[1..], i - 1, comp[1..]) && RestAfter(segs, i) == RestAfter(segs[1..], i - 1)
        {
          CutUnshift(segs, i, comp);
        }
        if |comp| == 1 {
          assert flat[2..] == rest;
          assert segs[0].StarStar? ==> CutAt(segs, 0, comp) && RestAfter(segs, 0) == segs;
        }
        if CutAt(segs, 0, comp) {
          assert segs[0].StarStar? && |comp| == 1;
        }
      } else {
        forall i
          ensures !CutAt(segs, i, comp)
        {
        }
      }
    }
  }

  lemma ExpandsUnfold(segs: Pattern, flat: Pattern)
    requires flat != []
    ensures Expands(segs, flat) <==>
      && segs != [] && flat[0] == segs[0]
      && (Expands(segs[1..], flat[1..])
          || (segs[0].StarStar? && |flat| > 1 && flat[1].Slash? && Expands(segs, flat[2..])))
  {
  }

  lemma CutShift(segs: Pattern, i: int, comp: Pattern)
    requires segs != [] && comp != [] && segs[0] == comp[0] && !segs[0].Slash? && CutAt(segs[1..], i, comp[1..])
    ensures CutAt(segs, i + 1, comp) && RestAfter(segs, i + 1) == RestAfter(segs[1..], i)
  {
    assert segs == [segs[0]] + segs[1..] && comp == [comp[0]] + comp[1..];
    assert segs[..i + 1] == [segs[0]] + segs[1..][..i];
    assert segs[..i + 2] == [segs[0]] + segs[1..][..i + 1];
  }

  lemma CutUnshift(segs: Pattern, i: int, comp: Pattern)
    requires i > 0 && CutAt(segs, i, comp)
    ensures comp != [] && CutAt(segs[1..], i - 1, comp[1..]) && RestAfter(segs, i) == RestAfter(segs[1..], i - 1)
  {
    assert segs[1..][..i - 1] == segs[..i][1..];
    assert segs[1..][..i] == segs[..i + 1][1..];
  }

  /** The cuttings of a pattern are its expansions, split at their slashes. */
  lemma {:induction false} CutsAreExpansions(segs: Pattern, comps: seq<Pattern>)
    requires comps != [] && forall i :: 0 <= i < |comps| ==> NoSlash(comps[i])
    ensures CutsInto(segs, comps) <==> Expands(segs, Join(comps))
    decreases |comps|
  {
    hide Expands;
    if |comps| == 1 {
      ExpandsWithoutSlash(segs, comps[0]);
    } else {
      ExpandsUpToSlash(segs, comps[0], Join(comps[1..]));
      forall i
        ensures CutsInto(RestAfter(segs, i), comps[1..]) <==> Expands(RestAfter(segs, i), Join(comps[1..]))
      {
        CutsAreExpansions(RestAfter(segs, i), comps[1..]);
      }
    }
  }

  lemma CutHasNoSlash(segs: Pattern, i: int, comp: Pattern)
    requires CutAt(segs, i, comp)
    ensures NoSlash(comp)
  {
  }

  /** Components never contain a slash, so the equivalence above covers every cutting. */
  lemma {:induction false} ComponentsHaveNoSlash(segs: Pattern, comps: seq<Pattern>)
    requires CutsInto(segs, comps)
    ensures comps != [] && forall i :: 0 <= i < |comps| ==> NoSlash(comps[i])
    decreases |comps|
  {
    if |comps| > 1 {
      var i :| CutAt(segs, i, comps[0]) && CutsInto(RestAfter(segs, i), comps[1..]);
      ComponentsHaveNoSlash(RestAfter(segs, i), comps[1..]);
      hide CutsInto;
      CutHasNoSlash(segs, i, comps[0]);
      assert forall j :: 1 <= j < |comps| ==> comps[j] == comps[1..][j - 1];
    }
  }

  /** Taken together: a path is reported exactly when the components of some expansion of the pattern
      lead to it. */
  lemma ReportedIffExpansionReaches(segs: Pattern, dir: string, place: Place, path: string)
    ensures path in Walk(segs, dir, place) <==>
      exists comps ::
        && comps != [] && (forall i :: 0 <= i < |comps| ==> NoSlash(comps[i]))
        && Expands(segs, Join(comps)) && Reaches(place, dir, comps, path)
  {
    hide CutsInto, Expands, Reaches, Walk;
    WalkExact(segs, dir, place, path);
    if comps :| CutsInto(segs, comps) && Reaches(place, dir, comps, path) {
      ComponentsHaveNoSlash(segs, comps);
      CutsAreExpansions(segs, comps);
    }
    if comps :| comps != [] && (forall i :: 0 <= i < |comps| ==> NoSlash(comps[i]))
                && Expands(segs, Join(comps)) && Reaches(place, dir, comps, path) {
      CutsAreExpansions(segs, comps);
    }
  }

  // ----- hidden names -----

  /** The components lead to `target` by exactly these names; behind a slash at the end there is none. */
  ghost predicate ArrivesBy(place: Place, dir: string, comps: seq<Pattern>, names: seq<string>,
                            path: string, target: Place)
    decreases |comps|
  {
    && |names| == |comps| > 0
    && if |comps| == 1 then
         if comps[0] == [] then names[0] == "" && path == dir + "/" && target == place
         else StepTo(dir, place, comps[0], names[0], target) && path == Extend(dir, names[0])
       else
         exists next ::
           && StepTo(dir, place, comps[0], names[0], next) && next.node.Dir?
           && ArrivesBy(next, Extend(dir, names[0]), comps[1..], names[1..], path, target)
  }

  lemma {:induction false} ArrivesByNames(place: Place, dir: string, comps: seq<Pattern>, path: string, target: Place)
    returns (names: seq<string>)
    requires Arrives(place, dir, comps, path, target)
    ensures ArrivesBy(place, dir, comps, names, path, target)
    decreases |comps|
  {
    hide StepTo;
    if comps == [[]] {
      names := [""];
    } else if |comps| == 1 {
      var name :| StepTo(dir, place, comps[0], name, target) && path == Extend(dir, name);
      names := [name];
    } else {
      var name, next :| StepTo(dir, place, comps[0], name, next) && next.node.Dir?
                        && Arrives(next, Extend(dir, name), comps[1..], path, target);
      var tail := ArrivesByNames(next, Extend(dir, name), comps[1..], path, target);
      names := [name] + tail;
      assert names[1..] == tail;
    }
  }

  predicate Hidden(name: string) {
    name != "" && name[0] == '.'
  }

  /** No wildcard of the pattern matches all files. */
  predicate NoAll(segs: Pattern) {
    forall i :: 0 <= i < |segs| ==> segs[i].Literal? || segs[i].Slash? || !segs[i].all
  }

  lemma {:induction false} CutKeepsNoAll(segs: Pattern, comps: seq<Pattern>)
    requires NoAll(segs) && CutsInto(segs, comps)
    ensures forall i :: 0 <= i < |comps| ==> NoAll(comps[i])
    decreases |comps|
  {
    hide NoAll, CutAt, RestAfter;
    if |comps| > 1 {
      var i :| CutAt(segs, i, comps[0]) && CutsInto(RestAfter(segs, i), comps[1..]);
      CutAtKeepsNoAll(segs, i, comps[0]);
      CutKeepsNoAll(RestAfter(segs, i), comps[1..]);
      assert forall j :: 1 <= j < |comps| ==> comps[j] == comps[1..][j - 1];
    }
  }

  lemma CutAtKeepsNoAll(segs: Pattern, i: int, comp: Pattern)
    requires NoAll(segs) && CutAt(segs, i, comp)
    ensures NoAll(comp) && NoAll(RestAfter(segs, i))
  {
  }

  lemma StepToHidden(dir: string, place: Place, comp: Pattern, name: string, next: Place)
    requires StepTo(dir, place, comp, name, next) && NoAll(comp) && Hidden(name)
    ensures comp != [] && comp[0].Literal?
  {
    hide Stat, Accepts, DotOk;
    MatchMeaning(comp, name);
    hide Spells;
  }

  /** However a pattern without such wildcards leads to a node, every hidden name on the way is met by a
      component that begins with a literal. */
  lemma {:induction false} HiddenNeedsLiteral(place: Place, dir: string, comps: seq<Pattern>, names: seq<string>,
                                              path: string, target: Place, i: nat)
    requires ArrivesBy(place, dir, comps, names, path, target) && (forall j :: 0 <= j < |comps| ==> NoAll(comps[j]))
    requires i < |names| && Hidden(names[i])
    ensures i < |comps| && comps[i] != [] && comps[i][0].Literal?
    decreases |comps|
  {
    hide StepTo, NoAll;
    if |comps| == 1 {
      StepToHidden(dir, place, comps[0], names[0], target);
    } else {
      var next :| StepTo(dir, place, comps[0], names[0], next) && next.node.Dir?
                  && ArrivesBy(next, Extend(dir, names[0]), comps[1..], names[1..], path, target);
      if i == 0 {
        StepToHidden(dir, place, comps[0], names[0], next);
      } else {
        HiddenNeedsLiteral(next, Extend(dir, names[0]), comps[1..], names[1..], path, target, i - 1);
      }
    }
  }

  /** So a walk reports nothing hidden, and nothing below anything hidden, that no literal of the pattern
      asks for. */
  lemma ReportsNothingHidden(segs: Pattern, dir: string, place: Place, path: string)
    returns (comps: seq<Pattern>, names: seq<string>, target: Place)
    requires path in Walk(segs, dir, place) && NoAll(segs)
    ensures CutsInto(segs, comps) && ArrivesBy(place, dir, comps, names, path, target)
    ensures forall i :: 0 <= i < |names| && Hidden(names[i]) ==>
      i < |comps| && comps[i] != [] && comps[i][0].Literal?
  {
    hide Walk, Arrives, ArrivesBy, CutsInto, NoAll;
    WalkExact(segs, dir, place, path);
    comps :| CutsInto(segs, comps) && Reaches(place, dir, comps, path);
    target :| Arrives(place, dir, comps, path, target);
    names := ArrivesByNames(place, dir, comps, path, target);
    CutKeepsNoAll(segs, comps);
    forall i | 0 <= i < |names| && Hidden(names[i])
      ensures i < |comps| && comps[i] != [] && comps[i][0].Literal?
    {
      HiddenNeedsLiteral(place, dir, comps, names, path, target, i);
    }
  }

  // ----- what a reported path names -----

  /** Going into a directory and up again leads back, and the root is above itself. */
  lemma UpAgain(p: Place, k: nat)
    requires p.node.Dir? && k < |p.node.entries| && p.node.entries[k].node.Dir?
    ensures Enter(Child(p, k), "..") == Some(p)
    ensures p.above == [] ==> Enter(p, "..") == Some(p)
  {
  }

  lemma FirstSlashJoin(a: string, b: string)
    ensures FirstSlash(a + "/" + b) == FirstSlash(a)
  {
    var t, k := a + "/" + b, FirstSlash(a);
    assert t[k] == '/';
    assert forall i :: 0 <= i < |a| ==> t[i] == a[i];
  }

  /** Following a joined path is following its parts. */
  lemma {:induction false} FollowJoin(p: Place, a: string, b: string)
    ensures
      var q := Follow(p, a);
      Follow(p, a + "/" + b) == if q.None? then None else Follow(q.value, b)
    decreases |a|
  {
    hide Enter;
    var t, k := a + "/" + b, FirstSlash(a);
    FirstSlashJoin(a, b);
    assert t[..k] == a[..k];
    if k == |a| {
      assert t[k + 1..] == b;
    } else {
      assert t[k + 1..] == a[k + 1..] + "/" + b;
      var next := Enter(p, a[..k]);
      if next.Some? {
        FollowJoin(next.value, a[k + 1..], b);
      }
    }
  }

  lemma ResolveJoin(cwd: Place, dir: string, b: string)
    requires dir != ""
    ensures
      var q := Resolve(cwd, dir);
      Resolve(cwd, dir + "/" + b) == if q.None? then None else Follow(q.value, b)
  {
    hide Follow;
    if dir[0] == '/' {
      assert (dir + "/" + b)[1..] == dir[1..] + "/" + b;
      FollowJoin(RootOf(cwd), dir[1..], b);
    } else {
      FollowJoin(cwd, dir, b);
    }
  }

  /** `dir` names `place`, for a process whose working directory is `cwd`. */
  ghost predicate Leads(cwd: Place, dir: string, place: Place) {
    if dir == "" then place == cwd else Resolve(cwd, dir) == Some(place)
  }

  /** Looking up a literal in the directory at hand is `os.Stat` of the path that the code joins. */
  lemma StatIsResolve(cwd: Place, dir: string, place: Place, name: string)
    requires Leads(cwd, dir, place)
    ensures Stat(dir, place, name) == Resolve(cwd, Extend(dir, name))
  {
    if dir == "/" {
      assert dir[1..] == "";
      assert Extend(dir, name)[1..] == name;
    } else if dir != "" {
      ResolveJoin(cwd, dir, name);
    }
  }

  predicate NoDoubleSlash(path: string) {
    forall i :: 0 < i < |path| ==> !(path[i - 1] == '/' && path[i] == '/')
  }

  /** Joining a proper name makes no double slash and leaves none at the end. */
  lemma ExtendIsClean(dir: string, name: string)
    requires NoDoubleSlash(dir) && (dir == "" || dir == "/" || dir[|dir| - 1] != '/') && ValidName(name)
    ensures
      var path := Extend(dir, name);
      && NoDoubleSlash(path) && |path| >= |name| && path[|path| - |name|..] == name
      && path[|path| - 1] != '/'
  {
    var path := Extend(dir, name);
    var k := |path| - |name|;
    assert forall i :: k <= i < |path| ==> path[i] == name[i - k];
    assert name[|name| - 1] in name;
    assert forall i :: 0 <= i < |name| ==> name[i] in name;
  }

  predicate ValidName(name: string) {
    name != "" && name != "." && name != ".." && '/' !in name
  }

  /** The names in every directory are proper and distinct. */
  ghost predicate WellNamed(node: Node) {
    node.Dir? ==>
      && (forall i :: 0 <= i < |node.entries| ==> ValidName(node.entries[i].name) && WellNamed(node.entries[i].node))
      && (forall i, j :: 0 <= i < j < |node.entries| ==> node.entries[i].name != node.entries[j].name)
  }

  ghost predicate WellPlaced(p: Place) {
    WellNamed(p.node) && forall i :: 0 <= i < |p.above| ==> WellNamed(p.above[i])
  }

  lemma {:induction false} FollowKeeps(p: Place, path: string)
    requires WellPlaced(p)
    ensures Follow(p, path).Some? ==> WellPlaced(Follow(p, path).value)
    decreases |path|
  {
    var k := FirstSlash(path);
    var next := Enter(p, path[..k]);
    if next.Some? && k < |path| {
      FollowKeeps(next.value, path[k + 1..]);
    }
  }

  /** The name of an entry names the entry. */
  lemma EntryIsFollowed(place: Place, k: nat)
    requires WellPlaced(place) && place.node.Dir? && k < |place.node.entries|
    ensures
      var name := place.node.entries[k].name;
      name != "" && name[0] != '/' && Follow(place, name) == Some(Child(place, k))
  {
    var name := place.node.entries[k].name;
    assert ValidName(name);
    assert FirstSlash(name) == |name|;
    assert name[..|name|] == name;
    var j := Find(place.node.entries, name, 0);
    assert j == Some(k);
  }

  lemma StepLeads(cwd: Place, dir: string, place: Place, comp: Pattern, name: string, next: Place)
    requires Leads(cwd, dir, place) && WellPlaced(cwd) && WellPlaced(place) && StepTo(dir, place, comp, name, next)
    ensures Extend(dir, name) != "" && Leads(cwd, Extend(dir, name), next) && WellPlaced(next)
  {
    hide MatchName, WellNamed, Follow;
    StatIsResolve(cwd, dir, place, name);
    if Lone(comp) {
      FollowKeeps(place, name);
      if name != "" {
        FollowKeeps(RootOf(cwd), name[1..]);
      }
    } else {
      var k := StepEntry(dir, place, comp, name, next);
      EntryIsFollowed(place, k);
      FollowKeeps(place, name);
    }
  }

  /** However the components lead to a node, the path that is written for it names that node; except
      that no components at all, in the working directory, are written as the root directory. */
  lemma {:induction false} ArrivalResolves(cwd: Place, dir: string, place: Place, comps: seq<Pattern>, path: string,
                                           target: Place)
    requires Leads(cwd, dir, place) && place.node.Dir? && WellPlaced(cwd) && WellPlaced(place)
    requires Arrives(place, dir, comps, path, target)
    ensures Resolve(cwd, path) == Some(target) <==> !(comps == [[]] && dir == "" && cwd.above != [])
    decreases |comps|
  {
    hide StepTo, WellPlaced, Resolve;
    if comps == [[]] {
      TrailingSlash(cwd, dir, place);
    } else if |comps| == 1 {
      var name :| StepTo(dir, place, comps[0], name, target) && path == Extend(dir, name);
      StepLeads(cwd, dir, place, comps[0], name, target);
    } else {
      var name, next :| StepTo(dir, place, comps[0], name, next) && next.node.Dir?
                        && Arrives(next, Extend(dir, name), comps[1..], path, target);
      StepLeads(cwd, dir, place, comps[0], name, next);
      ArrivalResolves(cwd, Extend(dir, name), next, comps[1..], path, target);
    }
  }

  lemma TrailingSlash(cwd: Place, dir: string, place: Place)
    requires Leads(cwd, dir, place) && place.node.Dir?
    ensures Resolve(cwd, dir + "/") == Some(place) <==> !(dir == "" && cwd.above != [])
  {
    assert Follow(place, "") == Some(place);
    if dir != "" {
      ResolveJoin(cwd, dir, "");
      assert dir + "/" + "" == dir + "/";
    } else {
      assert (dir + "/")[1..] == "";
    }
  }

  /** Every reported path, looked up where the walk started, is the node that the pattern reached, if and
      only if the walk is not that of the empty pattern in a working directory below the root. */
  lemma ReportedPathResolves(cwd: Place, segs: Pattern, dir: string, place: Place, path: string)
    returns (comps: seq<Pattern>, target: Place)
    requires Leads(cwd, dir, place) && place.node.Dir? && WellPlaced(cwd) && WellPlaced(place)
    requires path in Walk(segs, dir, place)
    ensures CutsInto(segs, comps) && Arrives(place, dir, comps, path, target)
    ensures Resolve(cwd, path) == Some(target) <==> !(segs == [] && dir == "" && cwd.above != [])
  {
    hide Walk, Resolve, Arrives, Leads, WellPlaced;
    WalkExact(segs, dir, place, path);
    comps :| CutsInto(segs, comps) && Reaches(place, dir, comps, path);
    target :| Arrives(place, dir, comps, path, target);
    ArrivalResolves(cwd, dir, place, comps, path, target);
  }

  /** A slash that was escaped, and so is part of a literal, reports what a slash between literals does. */
  lemma EscapedSlash(dir: string, place: Place, a: string, b: string)
    requires Extend(dir, a) != "" && Extend(dir, a) != "/"
    ensures Walk([Literal(a + "/" + b)], dir, place) == Walk([Literal(a), Slash, Literal(b)], dir, place)
  {
    hide Follow;
    var segs := [Literal(a), Slash, Literal(b)];
    assert segs[2..] == [Literal(b)];
    if dir == "" {
      ResolveJoin(place, a, b);
    } else {
      FollowJoin(place, a, b);
    }
    var next := Stat(dir, place, a);
    if next.Some? && !next.value.node.Dir? {
      NothingFollowsAFile(next.value, b);
    }
    assert Extend(dir, a + "/" + b) == Extend(Extend(dir, a), b);
  }

  lemma NothingFollowsAFile(p: Place, path: string)
    requires !p.node.Dir?
    ensures Follow(p, path).None?
  {
  }

  /** The empty literal of a backslash at the end, behind a slash, changes nothing. */
  lemma TrailingBackslash(dir: string, place: Place, a: string)
    requires Extend(dir, a) != "" && Extend(dir, a) != "/"
    ensures Walk([Literal(a), Slash, Literal("")], dir, place) == Walk([Literal(a), Slash], dir, place)
  {
    var segs, next := [Literal(a), Slash, Literal("")], Stat(dir, place, a);
    assert segs[2..] == [Literal("")] && [Literal(a), Slash][2..] == [];
    if next.Some? && next.value.node.Dir? {
      assert Follow(next.value, "") == next;
      assert Extend(Extend(dir, a), "") == Extend(dir, a) + "/";
    }
  }

  // ----- the code -----

  /** `full` was to be reported after `before`; the receiver said stop at its `limit`-th call. */
  ghost predicate Delivered(before: seq<string>, full: seq<string>, limit: nat, out: seq<string>, more: bool) {
    var total := before + full;
    && (more <==> |total| < limit)
    && out == if more then total else if limit <= |total| then total[..limit] else total
  }

  /** After `mid` was sent, `here` and then `tail` are to come; `here` is delivered. */
  lemma Deliver(before: seq<string>, all: seq<string>, mid: seq<string>, here: seq<string>, tail: seq<string>,
                limit: nat, out: seq<string>, more: bool)
    requires before + all == mid + (here + tail) && Delivered(mid, here, limit, out, more)
    ensures more ==> before + all == out + tail && |out| < limit
    ensures !more || tail == [] ==> Delivered(before, all, limit, out, more)
  {
    assert mid + (here + tail) == mid + here + tail;
    if !more {
      assert (mid + here + tail)[..limit] == (mid + here)[..limit];
    }
  }

  method Report(before: seq<string>, path: string, limit: nat) returns (out: seq<string>, more: bool)
    requires |before| < limit
    ensures Delivered(before, [path], limit, out, more)
  {
    out := before + [path];
    more := |out| < limit;
  }

  method EnterDirs(first: Pattern, rest: Pattern, dir: string, place: Place, before: seq<string>, limit: nat)
    returns (out: seq<string>, more: bool)
    requires place.node.Dir? && NoSlash(first) && |before| < limit
    ensures Delivered(before, WalkInto(first, rest, dir, place, 0), limit, out, more)
    decreases |rest|, place.node, 0
  {
    hide Walk, MatchName;
    out, more := before, true;
    ghost var all := WalkInto(first, rest, dir, place, 0);
    for j := 0 to |place.node.entries|
      invariant |out| < limit && more
      invariant before + all == out + WalkInto(first, rest, dir, place, j)
    {
      var e := place.node.entries[j];
      ghost var mid := out;
      ghost var tail := WalkInto(first, rest, dir, place, j + 1);
      var matched := Match(first, e.name);
      MatchNameDef(first, e.name);
      if matched && e.node.Dir? {
        out, more := Glob(rest, Extend(dir, e.name), Child(place, j), out, limit);
        Deliver(before, all, mid, Walk(rest, Extend(dir, e.name), Child(place, j)), tail, limit, out, more);
        if !more {
          return;
        }
      } else {
        assert WalkInto(first, rest, dir, place, j) == [] + tail == tail;
      }
    }
    assert out + [] == out;
  }

  lemma MatchNameDef(segs: Pattern, name: string)
    ensures MatchName(segs, name) <==> DotOk(segs, name) && Accepts(segs, name)
  {
  }

  method ReportLeaves(segs: Pattern, dir: string, place: Place, before: seq<string>, limit: nat)
    returns (out: seq<string>, more: bool)
    requires place.node.Dir? && NoSlash(segs) && |before| < limit
    ensures Delivered(before, Leaves(segs, dir, place.node.entries, 0), limit, out, more)
  {
    hide MatchName;
    var entries := place.node.entries;
    out, more := before, true;
    ghost var all := Leaves(segs, dir, entries, 0);
    for j := 0 to |entries|
      invariant |out| < limit && more
      invariant before + all == out + Leaves(segs, dir, entries, j)
    {
      ghost var mid := out;
      ghost var tail := Leaves(segs, dir, entries, j + 1);
      var matched := Match(segs, entries[j].name);
      MatchNameDef(segs, entries[j].name);
      if matched {
        var path := Extend(dir, entries[j].name);
        out, more := Report(out, path, limit);
        Deliver(before, all, mid, [path], tail, limit, out, more);
        if !more {
          return;
        }
      } else {
        assert Leaves(segs, dir, entries, j) == [] + tail == tail;
      }
    }
    assert out + [] == out;
  }

  /** The walk. It terminates: each call has fewer segments left, or as many and a lower directory. */
  method Glob(segs0: Pattern, dir0: string, place0: Place, before: seq<string>, limit: nat)
    returns (out: seq<string>, more: bool)
    requires |before| < limit
    ensures Delivered(before, Walk(segs0, dir0, place0), limit, out, more)
    decreases |segs0|, place0.node, 3
  {
    hide WalkFrom, WalkInto, Leaves, Stat;
    var segs, dir, place := segs0, dir0, place0;
    assert before + [] == before;
    while segs != [] && segs[0].Literal?
      invariant |segs| <= |segs0| && (|segs| == |segs0| ==> place == place0)
      invariant Walk(segs, dir, place) == Walk(segs0, dir0, place0)
      decreases |segs|
    {
      var path := Extend(dir, segs[0].data);
      var found := Stat(dir, place, segs[0].data);
      if |segs| == 1 {
        if found.Some? {
          out, more := Report(before, path, limit);
          return;
        }
        return before, true;
      } else if segs[1].Slash? {
        if found.Some? && found.value.node.Dir? {
          dir, place := path, found.value;
        } else {
          return before, true;
        }
        segs := segs[2..];
      } else {
        break;
      }
    }
    if segs == [] {
      out, more := Report(before, dir + "/", limit);
      return;
    }
    if !place.node.Dir? {
      return before, true;
    }
    out, more := GlobDir(segs, dir, place, before, limit);
  }

  /** The part after the literal prefix: enumerate the position of the first cut. */
  method GlobDir(segs: Pattern, dir: string, place: Place, before: seq<string>, limit: nat)
    returns (out: seq<string>, more: bool)
    requires place.node.Dir? && |before| < limit
    ensures Delivered(before, WalkFrom(segs, dir, place, 0), limit, out, more)
    decreases |segs|, place.node, 2
  {
    hide WalkFrom, WalkInto, Leaves, Delivered, AtCut;
    out, more := before, true;
    ghost var all := WalkFrom(segs, dir, place, 0);
    var i := NextCut(segs, dir, place, 0);
    while i < |segs|
      invariant i <= |segs| && NoSlash(segs[..i]) && (i < |segs| ==> segs[i].Slash? || segs[i].StarStar?)
      invariant |out| < limit && more
      invariant before + all == out + WalkFrom(segs, dir, place, i)
      decreases |segs| - i
    {
      var slash := segs[i].Slash?;
      ghost var mid := out;
      ghost var tail := if slash then [] else WalkFrom(segs, dir, place, i + 1);
      CutThenRest(segs, dir, place, i);
      out, more := TryCut(segs, i, dir, place, out, limit);
      Deliver(before, all, mid, AtCut(segs, dir, place, i), tail, limit, out, more);
      if slash || !more {
        return;
      }
      assert NoSlash(segs[..i + 1]);
      i := NextCut(segs, dir, place, i + 1);
    }
    assert segs[..i] == segs;
    ghost var mid, here := out, Leaves(segs, dir, place.node.entries, 0);
    NoMoreCuts(segs, dir, place);
    assert here == here + [];
    out, more := ReportLeaves(segs, dir, place, out, limit);
    Deliver(before, all, mid, here, [], limit, out, more);
  }

  lemma NoMoreCuts(segs: Pattern, dir: string, place: Place)
    requires place.node.Dir?
    ensures WalkFrom(segs, dir, place, |segs|) == Leaves(segs, dir, place.node.entries, 0)
  {
  }

  /** What is reported below the directories that the cut at `i` leads into. */
  ghost function AtCut(segs: Pattern, dir: string, place: Place, i: nat): seq<string>
    requires i < |segs| && place.node.Dir?
  {
    if segs[i].Slash? then WalkInto(segs[..i], segs[i + 1..], dir, place, 0)
    else WalkInto(segs[..i + 1], segs[i..], dir, place, 0)
  }

  lemma CutThenRest(segs: Pattern, dir: string, place: Place, i: nat)
    requires i < |segs| && place.node.Dir? && (segs[i].Slash? || segs[i].StarStar?)
    ensures WalkFrom(segs, dir, place, i) ==
      AtCut(segs, dir, place, i) + if segs[i].Slash? then [] else WalkFrom(segs, dir, place, i + 1)
  {
  }

  method TryCut(segs: Pattern, i: nat, dir: string, place: Place, before: seq<string>, limit: nat)
    returns (out: seq<string>, more: bool)
    requires place.node.Dir? && |before| < limit && i < |segs| && NoSlash(segs[..i])
    ensures Delivered(before, AtCut(segs, dir, place, i), limit, out, more)
    decreases |segs|, place.node, 1
  {
    hide WalkInto, Delivered;
    var first, rest;
    if segs[i].Slash? {
      first, rest := segs[..i], segs[i + 1..];
    } else {
      first, rest := segs[..i + 1], segs[i..];
    }
    out, more := EnterDirs(first, rest, dir, place, before, limit);
  }

  method NextCut(segs: Pattern, ghost dir: string, ghost place: Place, start: nat) returns (i: nat)
    requires place.node.Dir? && start <= |segs| && NoSlash(segs[..start])
    ensures start <= i <= |segs| && NoSlash(segs[..i]) && (i < |segs| ==> segs[i].Slash? || segs[i].StarStar?)
    ensures WalkFrom(segs, dir, place, i) == WalkFrom(segs, dir, place, start)
  {
    hide WalkInto, Leaves;
    i := start;
    while i < |segs|
      invariant start <= i <= |segs| && NoSlash(segs[..i])
      invariant WalkFrom(segs, dir, place, i) == WalkFrom(segs, dir, place, start)
    {
      if segs[i].Slash? || segs[i].StarStar? {
        break;
      }
      i := i + 1;
    }
  }
}
