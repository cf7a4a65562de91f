/**
 Matching one file name against glob segments. The matcher is greedy: it places each chunk of literals
 and question marks at the leftmost position where it fits, and never reconsiders. It is compared with
 the plain meaning of a pattern: some assignment of substrings to the wildcards makes the segments
 spell the name. Names are strings of single-byte characters.
 */
module GlobMatch {
  import opened Options

  /** `all` says that a wildcard may match a leading dot. */
  datatype Segment =
    | Literal(data: string)
    | Slash
    | Question(all: bool)
    | Star(all: bool)
    | StarStar(all: bool)

  type Pattern = seq<Segment>

  predicate IsStar(s: Segment) {
    s.Star? || s.StarStar?
  }

  predicate NoSlash(segs: Pattern) {
    forall i :: 0 <= i < |segs| ==> !segs[i].Slash?
  }

  /** Segments between stars. */
  predicate IsChunk(segs: Pattern) {
    forall i :: 0 <= i < |segs| ==> segs[i].Literal? || segs[i].Question?
  }

  // ----- the plain meaning -----

  predicate Fits(s: Segment, piece: string) {
    match s
    case Literal(d) => piece == d
    case Slash => false
    case Question(_) => |piece| == 1
    case Star(_) => true
    case StarStar(_) => true
  }

  function Concat(pieces: seq<string>): string {
    if pieces == [] then "" else pieces[0] + Concat(pieces[1..])
  }

  /** Some assignment of pieces of the name to the segments makes them spell it. */
  ghost predicate Spells(segs: Pattern, name: string) {
    exists pieces :: IsSpelling(segs, name, pieces)
  }

  predicate IsSpelling(segs: Pattern, name: string, pieces: seq<string>) {
    && |pieces| == |segs|
    && Concat(pieces) == name
    && forall i :: 0 <= i < |segs| ==> Fits(segs[i], pieces[i])
  }

  /** The dot rule: a wildcard in front matches a leading dot only when it says so. */
  predicate DotOk(segs: Pattern, name: string) {
    segs != [] && name != "" && name[0] == '.' ==>
      match segs[0]
      case Question(all) => all
      case Star(all) => all
      case StarStar(all) => all
      case _ => true
  }

  // ----- the same, one segment at a time -----

  /** As the code has it: a literal or a question mark is only tried while some of the name is left. */
  ghost predicate Accepts(segs: Pattern, name: string) {
    if segs == [] then name == ""
    else
      match segs[0]
      case Literal(d) => name != "" && d <= name && Accepts(segs[1..], name[|d|..])
      case Slash => false
      case Question(_) => name != "" && Accepts(segs[1..], name[1..])
      case Star(_) => exists k :: 0 <= k <= |name| && Accepts(segs[1..], name[k..])
      case StarStar(_) => exists k :: 0 <= k <= |name| && Accepts(segs[1..], name[k..])
  }

  // ----- the code -----

  /** What is left of the name after the chunk, if the chunk is a prefix of it. */
  function AfterChunk(chunk: Pattern, name: string): (r: Option<string>)
    requires IsChunk(chunk)
    ensures r.Some? ==> |r.value| <= |name| && r.value == name[|name| - |r.value|..]
  {
    if chunk == [] then Some(name)
    else if name == "" then None
    else
      match chunk[0]
      case Literal(d) => if d <= name then AfterChunk(chunk[1..], name[|d|..]) else None
      case Question(_) => AfterChunk(chunk[1..], name[1..])
  }

  method MatchChunk(chunk: Pattern, name0: string) returns (ok: bool, name: string)
    requires IsChunk(chunk)
    ensures ok <==> AfterChunk(chunk, name0).Some?
    ensures ok ==> name == AfterChunk(chunk, name0).value
  {
    name := name0;
    for i := 0 to |chunk|
      invariant AfterChunk(chunk, name0) == AfterChunk(chunk[i..], name)
    {
      assert chunk[i..][0] == chunk[i] && chunk[i..][1..] == chunk[i + 1..];
      if name == "" {
        return false, "";
      }
      match chunk[i] {
        case Literal(d) =>
          if |name| < |d| || name[..|d|] != d {
            return false, "";
          }
          name := name[|d|..];
        case Question(_) =>
          name := name[1..];
      }
    }
    ok := true;
  }

  /** The chunk fits after skipping `i` characters; the last chunk must exhaust the name. */
  predicate FitsAt(chunk: Pattern, name: string, last: bool, i: int)
    requires IsChunk(chunk)
  {
    0 <= i <= |name| && AfterChunk(chunk, name[i..]).Some? && (AfterChunk(chunk, name[i..]).value == "" || !last)
  }

  /** Find the leftmost place for a chunk, skipping characters only behind a star. */
  method PlaceChunk(chunk: Pattern, name: string, star: bool, last: bool)
    returns (found: bool, rest: string, ghost at: nat)
    requires IsChunk(chunk)
    ensures found ==> FitsAt(chunk, name, last, at) && (at == 0 || star) && rest == AfterChunk(chunk, name[at..]).value
    ensures found ==> forall i :: 0 <= i < at ==> !FitsAt(chunk, name, last, i)
    ensures !found ==> forall i :: 0 <= i <= (if star then |name| else 0) ==> !FitsAt(chunk, name, last, i)
  {
    at := 0;
    assert name[0..] == name;
    found, rest := MatchChunk(chunk, name);
    if found && (rest == "" || !last) {
      return;
    }
    if star {
      for i := 1 to |name| + 1
        invariant forall j :: 0 <= j < i ==> !FitsAt(chunk, name, last, j)
      {
        found, rest := MatchChunk(chunk, name[i..]);
        if found && (rest == "" || !last) {
          at := i;
          return;
        }
      }
    }
    found := false;
  }

  method Match(segs0: Pattern, name0: string) returns (b: bool)
    requires NoSlash(segs0)
    ensures b <==> DotOk(segs0, name0) && Accepts(segs0, name0)
    ensures b ==> Spells(segs0, name0) && MayStart(segs0, name0)
    ensures Spells(segs0, name0) && MayStart(segs0, name0) && !Dangling(segs0) ==> b
  {
    hide Accepts, AfterChunk, FitsAt, Spells, Dangling;
    MatchMeaning(segs0, name0);
    hide MayStart;
    EmptyTail([]);
    if segs0 == [] {
      return name0 == "";
    }
    if name0 != "" && name0[0] == '.' {
      match segs0[0] {
        case Question(all) => if !all { return false; }
        case Star(all) => if !all { return false; }
        case StarStar(all) => if !all { return false; }
        case _ =>
      }
    }
    var segs, name := segs0, name0;
    while segs != []
      invariant NoSlash(segs)
      invariant segs == [] ==> name == ""
      invariant Accepts(segs0, name0) <==> Accepts(segs, name)
      decreases |segs|
    {
      var i := 1;
      while i < |segs| && !IsStar(segs[i])
        invariant 1 <= i <= |segs|
        invariant forall j :: 1 <= j < i ==> !IsStar(segs[j])
      {
        i := i + 1;
      }
      var chunk := segs[..i];
      var star := IsStar(chunk[0]);
      if star {
        chunk := chunk[1..];
      }
      var tail := segs[i..];
      assert forall j :: 0 <= j < |tail| ==> tail[j] == segs[i + j];
      assert NoSlash(tail);
      var found, rest, at := PlaceChunk(chunk, name, star, tail == []);
      PlaceDecides(segs, name, chunk, star, tail, tail == [], found, rest, at);
      if !found {
        return false;
      }
      segs, name := tail, rest;
    }
    return name == "";
  }

  // ----- why greed is enough -----

  /** A chunk is accepted exactly when it is a prefix and the tail accepts what is left. */
  lemma {:induction false} AcceptsChunk(chunk: Pattern, tail: Pattern, name: string)
    requires IsChunk(chunk)
    ensures Accepts(chunk + tail, name) <==>
      AfterChunk(chunk, name).Some? && Accepts(tail, AfterChunk(chunk, name).value)
    decreases |chunk|
  {
    if chunk == [] {
      assert chunk + tail == tail;
    } else {
      assert (chunk + tail)[0] == chunk[0] && (chunk + tail)[1..] == chunk[1..] + tail;
      match chunk[0]
      case Literal(d) =>
        if name != "" && d <= name {
          AcceptsChunk(chunk[1..], tail, name[|d|..]);
        }
      case Question(_) =>
        if name != "" {
          AcceptsChunk(chunk[1..], tail, name[1..]);
        }
    }
  }

  /** What a star accepts, it still accepts with more in front. */
  lemma StarAbsorbs(tail: Pattern, name: string, j: nat, k: nat)
    requires tail != [] && IsStar(tail[0]) && j <= k <= |name| && Accepts(tail, name[k..])
    ensures Accepts(tail, name[j..])
  {
    var i :| 0 <= i <= |name[k..]| && Accepts(tail[1..], name[k..][i..]);
    assert name[k..][i..] == name[j..][k - j + i..];
  }

  /** The length a chunk takes up does not depend on where it is placed. */
  function ChunkLength(chunk: Pattern): nat
    requires IsChunk(chunk)
  {
    if chunk == [] then 0
    else FirstLength(chunk) + ChunkLength(chunk[1..])
  }

  function FirstLength(chunk: Pattern): nat
    requires chunk != [] && IsChunk(chunk)
  {
    if chunk[0].Literal? then |chunk[0].data| else 1
  }

  lemma AfterFirst(chunk: Pattern, name: string)
    requires chunk != [] && IsChunk(chunk) && AfterChunk(chunk, name).Some?
    ensures FirstLength(chunk) <= |name|
    ensures AfterChunk(chunk, name) == AfterChunk(chunk[1..], name[FirstLength(chunk)..])
  {
  }

  lemma {:induction false} AfterChunkLength(chunk: Pattern, name: string)
    requires IsChunk(chunk) && AfterChunk(chunk, name).Some?
    ensures |name| == ChunkLength(chunk) + |AfterChunk(chunk, name).value|
    ensures AfterChunk(chunk, name).value == name[ChunkLength(chunk)..]
    decreases |chunk|
  {
    if chunk != [] {
      AfterFirst(chunk, name);
      hide AfterChunk;
      AfterChunkLength(chunk[1..], name[FirstLength(chunk)..]);
    }
  }

  lemma PlaceDecides(segs: Pattern, name: string, chunk: Pattern, star: bool, tail: Pattern, last: bool,
                     found: bool, rest: string, at: nat)
    requires IsChunk(chunk) && (tail == [] || IsStar(tail[0])) && (last <==> tail == [])
    requires star <==> segs != [] && IsStar(segs[0])
    requires segs == (if star then [segs[0]] else []) + chunk + tail
    requires found ==> FitsAt(chunk, name, last, at) && (at == 0 || star) && rest == AfterChunk(chunk, name[at..]).value
    requires found ==> forall i :: 0 <= i < at ==> !FitsAt(chunk, name, last, i)
    requires !found ==> forall i :: 0 <= i <= (if star then |name| else 0) ==> !FitsAt(chunk, name, last, i)
    ensures found ==> (Accepts(segs, name) <==> Accepts(tail, rest))
    ensures !found ==> !Accepts(segs, name)
    ensures found && tail == [] ==> rest == ""
  {
    hide Accepts, AfterChunk;
    if star {
      StarDecides(segs, name, chunk, tail, last);
      if found && Accepts(segs, name) {
        var i :| FitsAt(chunk, name, last, i) && Accepts(tail, AfterChunk(chunk, name[i..]).value);
        LeftmostIsEnough(name, chunk, tail, last, at, i);
      }
    } else {
      assert name[0..] == name && segs == chunk + tail;
      AcceptsChunk(chunk, tail, name);
      EmptyTail(tail);
      assert found <==> FitsAt(chunk, name, last, 0);
    }
  }

  lemma EmptyTail(tail: Pattern)
    ensures tail == [] ==> forall rest :: Accepts(tail, rest) <==> rest == ""
  {
  }

  lemma StarDecides(segs: Pattern, name: string, chunk: Pattern, tail: Pattern, last: bool)
    requires IsChunk(chunk) && segs != [] && IsStar(segs[0]) && segs == [segs[0]] + chunk + tail
    requires last <==> tail == []
    ensures Accepts(segs, name) <==>
      exists i :: FitsAt(chunk, name, last, i) && Accepts(tail, AfterChunk(chunk, name[i..]).value)
  {
    assert segs[1..] == chunk + tail;
    if Accepts(segs, name) {
      var k :| 0 <= k <= |name| && Accepts(chunk + tail, name[k..]);
      AcceptsChunk(chunk, tail, name[k..]);
      assert FitsAt(chunk, name, last, k);
    }
    if i :| FitsAt(chunk, name, last, i) && Accepts(tail, AfterChunk(chunk, name[i..]).value) {
      AcceptsChunk(chunk, tail, name[i..]);
    }
  }

  /** If any place works, the leftmost one does. */
  lemma LeftmostIsEnough(name: string, chunk: Pattern, tail: Pattern, last: bool, at: nat, i: nat)
    requires IsChunk(chunk) && (tail == [] || IsStar(tail[0])) && (last <==> tail == [])
    requires FitsAt(chunk, name, last, at) && FitsAt(chunk, name, last, i) && at <= i
    requires Accepts(tail, AfterChunk(chunk, name[i..]).value)
    ensures Accepts(tail, AfterChunk(chunk, name[at..]).value)
  {
    hide AfterChunk;
    AfterChunkLength(chunk, name[at..]);
    AfterChunkLength(chunk, name[i..]);
    var n := ChunkLength(chunk);
    assert name[at..][n..] == name[at + n..] && name[i..][n..] == name[i + n..];
    if tail != [] {
      StarAbsorbs(tail, name, at + n, i + n);
    }
  }

  // ----- the matcher against the plain meaning -----

  /** The shortest name a pattern can spell. */
  function Shortest(segs: Pattern): string {
    if segs == [] then ""
    else (match segs[0] case Literal(d) => d case Question(_) => "x" case _ => "") + Shortest(segs[1..])
  }

  /** An empty literal with nothing after it that needs a character. The parser produces one for a
      trailing backslash. */
  predicate Dangling(segs: Pattern) {
    segs != [] && ((segs[0] == Literal("") && Shortest(segs[1..]) == "") || Dangling(segs[1..]))
  }

  lemma SpellsHead(segs: Pattern, name: string, pieces: seq<string>)
    requires segs != [] && IsSpelling(segs, name, pieces)
    ensures Fits(segs[0], pieces[0]) && pieces[0] <= name
    ensures IsSpelling(segs[1..], name[|pieces[0]|..], pieces[1..])
  {
    assert name == pieces[0] + Concat(pieces[1..]);
    assert name[|pieces[0]|..] == Concat(pieces[1..]);
  }

  lemma SpellsCons(segs: Pattern, name: string, k: nat, pieces: seq<string>)
    requires segs != [] && k <= |name| && Fits(segs[0], name[..k]) && IsSpelling(segs[1..], name[k..], pieces)
    ensures IsSpelling(segs, name, [name[..k]] + pieces)
  {
    var all := [name[..k]] + pieces;
    assert all[1..] == pieces && name == name[..k] + name[k..];
    assert forall i :: 1 <= i < |segs| ==> segs[i] == segs[1..][i - 1] && all[i] == pieces[i - 1];
  }

  lemma {:induction false} SpellsNeeds(segs: Pattern, name: string, pieces: seq<string>)
    requires IsSpelling(segs, name, pieces)
    ensures |name| >= |Shortest(segs)|
    decreases |segs|
  {
    if segs != [] {
      SpellsHead(segs, name, pieces);
      SpellsNeeds(segs[1..], name[|pieces[0]|..], pieces[1..]);
    }
  }

  /** What the matcher accepts, the pattern spells. */
  lemma {:induction false} AcceptsSound(segs: Pattern, name: string) returns (pieces: seq<string>)
    requires Accepts(segs, name)
    ensures IsSpelling(segs, name, pieces)
    decreases |segs|
  {
    if segs == [] {
      pieces := [];
    } else {
      var k: nat;
      if segs[0].Literal? {
        k := |segs[0].data|;
      } else if segs[0].Question? {
        k := 1;
      } else {
        k :| 0 <= k <= |name| && Accepts(segs[1..], name[k..]);
      }
      var rest := AcceptsSound(segs[1..], name[k..]);
      SpellsCons(segs, name, k, rest);
      pieces := [name[..k]] + rest;
    }
  }

  /** And it accepts whatever the pattern spells, unless an empty literal dangles. */
  lemma {:induction false} AcceptsComplete(segs: Pattern, name: string, pieces: seq<string>)
    requires !Dangling(segs) && IsSpelling(segs, name, pieces)
    ensures Accepts(segs, name)
    decreases |segs|
  {
    if segs != [] {
      SpellsHead(segs, name, pieces);
      var k := |pieces[0]|;
      AcceptsComplete(segs[1..], name[k..], pieces[1..]);
      SpellsNeeds(segs[1..], name[k..], pieces[1..]);
    }
  }

  lemma {:induction false} ShortestIsSpelled(segs: Pattern) returns (pieces: seq<string>)
    requires NoSlash(segs)
    ensures IsSpelling(segs, Shortest(segs), pieces)
    decreases |segs|
  {
    if segs == [] {
      pieces := [];
    } else {
      var rest := ShortestIsSpelled(segs[1..]);
      var name, k := Shortest(segs), |Shortest(segs)| - |Shortest(segs[1..])|;
      assert name[k..] == Shortest(segs[1..]);
      SpellsCons(segs, name, k, rest);
      pieces := [name[..k]] + rest;
    }
  }

  lemma {:induction false} DanglingRejects(segs: Pattern, name: string)
    requires Dangling(segs) && |name| <= |Shortest(segs)|
    ensures !Accepts(segs, name)
    decreases |segs|
  {
    match segs[0]
    case Literal(d) =>
      if d <= name && Dangling(segs[1..]) {
        DanglingRejects(segs[1..], name[|d|..]);
      }
    case Slash =>
    case Question(_) =>
      if name != "" {
        DanglingRejects(segs[1..], name[1..]);
      }
    case _ =>
      forall k | 0 <= k <= |name|
        ensures !Accepts(segs[1..], name[k..])
      {
        DanglingRejects(segs[1..], name[k..]);
      }
  }

  /** The matcher decides the plain meaning of a pattern, on every name, exactly when no empty literal
      dangles at its end. */
  lemma GreedyIsExactIff(segs: Pattern)
    requires NoSlash(segs)
    ensures (forall name :: Accepts(segs, name) <==> Spells(segs, name)) <==> !Dangling(segs)
  {
    if Dangling(segs) {
      var pieces := ShortestIsSpelled(segs);
      DanglingRejects(segs, Shortest(segs));
      assert Spells(segs, Shortest(segs));
    } else {
      forall name
        ensures Accepts(segs, name) <==> Spells(segs, name)
      {
        if Accepts(segs, name) {
          var pieces := AcceptsSound(segs, name);
        }
        if pieces :| IsSpelling(segs, name, pieces) {
          AcceptsComplete(segs, name, pieces);
        }
      }
    }
  }

  /** A name with a leading dot has to be met by a literal, or by a wildcard that matches all files. */
  predicate MayStart(segs: Pattern, name: string) {
    name != "" && name[0] == '.' ==>
      segs != [] && !segs[0].Slash? && (segs[0].Literal? || segs[0].all)
  }

  /** Matching is spelling the name under the dot rule: whatever matches does both, and for patterns without
      a dangling empty literal whatever does both matches. */
  lemma MatchMeaning(segs: Pattern, name: string)
    ensures DotOk(segs, name) && Accepts(segs, name) ==> Spells(segs, name) && MayStart(segs, name)
    ensures Spells(segs, name) && MayStart(segs, name) && !Dangling(segs) ==> DotOk(segs, name) && Accepts(segs, name)
  {
    hide IsSpelling, Dangling;
    if Accepts(segs, name) {
      var pieces := AcceptsSound(segs, name);
    }
    if Spells(segs, name) && !Dangling(segs) {
      var pieces :| IsSpelling(segs, name, pieces);
      AcceptsComplete(segs, name, pieces);
    }
  }

  /** In particular for patterns whose literals are all nonempty. */
  lemma {:induction false} NonemptyLiteralsDoNotDangle(segs: Pattern)
    requires forall i :: 0 <= i < |segs| ==> segs[i] != Literal("")
    ensures !Dangling(segs)
    decreases |segs|
  {
    if segs != [] {
      NonemptyLiteralsDoNotDangle(segs[1..]);
    }
  }
}
