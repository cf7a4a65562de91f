/**
 Uncle validation. Each check looks back over seven blocks only; along a chain of checked blocks that
 is enough for no uncle ever to be included twice, or to be a block of the chain itself.
 */
module Uncles {
  import opened ChainTypes
  import opened Consensus
  import opened ChainDb
  import opened Ancestor
  import opened BlockChain

  const LOOK_BACK := 7

  datatype UncleVerdict =
    | UnclesValid
    | TooManyUncles
    | NotUnique(index: nat)
    | IsAncestor(index: nat)
    | ParentNotAncestor(index: nat)
    | HeaderInvalid(index: nat, reason: Verdict)

  // ----- what is checked -----

  /** The part of a path that the check of the block at number `n` reads. */
  function Recent(path: seq<Header>, n: nat): (r: seq<Header>)
    requires n <= |path|
  {
    path[if n < LOOK_BACK then 0 else n - LOOK_BACK..n]
  }

  /** The uncle itself, given the hashes already seen and the admissible parents. */
  function CheckUncle(env: Env, seen: set<Header>, ancestors: set<Header>, parent: Header, u: Header,
                      i: nat): UncleVerdict {
    if u in seen then NotUnique(i)
    else if u in ancestors then IsAncestor(i)
    else if !In(u.parentHash, ancestors) || u.parentHash == Digest(parent) then ParentNotAncestor(i)
    else
      var v := ValidateHeader(env, u, u.parentHash.header, true, true);
      if v != Valid then HeaderInvalid(i, v) else UnclesValid
  }

  /** The verdict on the uncles from position `i` on: that of the first one that fails. */
  function CheckFrom(env: Env, seen: set<Header>, ancestors: set<Header>, parent: Header, uncles: seq<Header>,
                     i: nat): UncleVerdict
    requires i <= |uncles|
    decreases |uncles| - i
  {
    if i == |uncles| then UnclesValid
    else
      var v := CheckUncle(env, seen, ancestors, parent, uncles[i], i);
      if v != UnclesValid then v
      else CheckFrom(env, seen + {uncles[i]}, ancestors, parent, uncles, i + 1)
  }

  ghost function UnclesOfAll(hs: seq<Header>): set<Header> {
    set i, j | 0 <= i < |hs| && 0 <= j < |UnclesOf(hs[i])| :: UnclesOf(hs[i])[j]
  }

  ghost function SetOf(hs: seq<Header>): set<Header> {
    set i | 0 <= i < |hs| :: hs[i]
  }

  /** The verdict on a block whose recent ancestors are `recent`, its parent last. */
  ghost function CheckBlock(env: Env, recent: seq<Header>, h: Header, parent: Header,
                            uncles: seq<Header>): UncleVerdict {
    if |uncles| > 2 then TooManyUncles
    else CheckFrom(env, UnclesOfAll(recent) + {h}, SetOf(recent) + {h}, parent, uncles, 0)
  }

  // ----- the code -----

  /** The block of the given hash and up to `n - 1` of its ancestors, newest first. */
  method GetBlocksFromHash(db: Db, bodies: map<Key, Body>, ghost stored: set<Header>, start: Hash, n: nat)
    returns (blocks: seq<Block>)
    requires Holds(db, stored) && HoldsBodies(bodies, stored)
    requires In(start, stored) ==>
      Linked(start.header) && forall i :: 0 <= i < |Path(start.header)| ==> Path(start.header)[i] in stored
    ensures !In(start, stored) ==> blocks == []
    ensures In(start, stored) ==> var path := Path(start.header);
      && |blocks| == (if n < |path| then n else |path|)
      && forall i :: 0 <= i < |blocks| ==> blocks[i] == BlockOf(path[|path| - 1 - i])
  {
    hide HoldsHeaders, HoldsTds, HoldsNumbers, HoldsBodies, Linked, Path;
    blocks := [];
    var hash, number := start, GetBlockNumber(db, start);
    HoldsReadNumber(db, stored, start);
    if start.Digest? && start.header in stored {
      PathIndexing(start.header);
    }
    for i := 0 to n
      invariant |blocks| == i
      invariant !In(start, stored) ==> hash == start && i == 0
      invariant In(start, stored) ==> var path := Path(start.header);
        && i <= |path| && number == |path| - 1 - i
        && (i < |path| ==> hash == Digest(path[|path| - 1 - i]))
        && (i == |path| ==> hash.Opaque?)
        && forall j :: 0 <= j < i ==> blocks[j] == BlockOf(path[|path| - 1 - j])
    {
      HoldsBlock(db, bodies, stored, hash, number);
      var block := GetBlock(db, bodies, hash, number);
      if block.None? {
        break;
      }
      ParentOnPath(start.header, block.value.header);
      blocks := blocks + [block.value];
      hash := block.value.header.parentHash;
      number := number - 1;
    }
  }

  /** The uncles of the recent blocks and the recent blocks themselves, collected block by block. */
  method Collect(blocks: seq<Block>, ghost path: seq<Header>) returns (seen: set<Header>, ancestors: set<Header>)
    requires |blocks| == |Recent(path, |path|)|
    requires forall i :: 0 <= i < |blocks| ==> blocks[i] == BlockOf(path[|path| - 1 - i])
    ensures seen == UnclesOfAll(Recent(path, |path|)) && ancestors == SetOf(Recent(path, |path|))
  {
    hide UnclesOfAll, SetOf;
    seen, ancestors := {}, {};
    ghost var recent := Recent(path, |path|);
    ghost var n := |recent|;
    assert recent[n..] == [];
    CollectNone();
    for i := 0 to |blocks|
      invariant ancestors == SetOf(recent[n - i..]) && seen == UnclesOfAll(recent[n - i..])
    {
      assert recent[n - i - 1] == path[|path| - 1 - i];
      CollectStep(recent, n - i - 1);
      ancestors := ancestors + {blocks[i].header};
      seen := seen + set u | u in blocks[i].uncles;
    }
    assert recent[n - |blocks|..] == recent;
  }

  lemma CollectNone()
    ensures SetOf([]) == {} && UnclesOfAll([]) == {}
  {
  }

  lemma CollectStep(recent: seq<Header>, k: nat)
    requires k < |recent|
    ensures SetOf(recent[k..]) == SetOf(recent[k + 1..]) + {recent[k]}
    ensures UnclesOfAll(recent[k..]) == UnclesOfAll(recent[k + 1..]) + set u | u in UnclesOf(recent[k])
  {
    var s, t := recent[k..], recent[k + 1..];
    assert s == [recent[k]] + t;
    forall x | x in SetOf(t)
      ensures x in SetOf(s)
    {
      var i :| 0 <= i < |t| && t[i] == x;
      assert s[i + 1] == x;
    }
    assert s[0] in SetOf(s);
    forall u | u in UnclesOfAll(t)
      ensures u in UnclesOfAll(s)
    {
      var i, j :| 0 <= i < |t| && 0 <= j < |UnclesOf(t[i])| && UnclesOf(t[i])[j] == u;
      assert UnclesOf(s[i + 1])[j] == u;
    }
    forall u | u in UnclesOf(recent[k])
      ensures u in UnclesOfAll(s)
    {
      var j :| 0 <= j < |UnclesOf(recent[k])| && UnclesOf(recent[k])[j] == u;
      assert UnclesOf(s[0])[j] == u;
    }
    forall u | u in UnclesOfAll(s)
      ensures u in UnclesOfAll(t) || u in UnclesOf(recent[k])
    {
      var i, j :| 0 <= i < |s| && 0 <= j < |UnclesOf(s[i])| && UnclesOf(s[i])[j] == u;
      if i > 0 {
        assert UnclesOf(t[i - 1])[j] == u;
      }
    }
  }

  method VerifyUncles(env: Env, db: Db, bodies: map<Key, Body>, ghost stored: set<Header>, block: Block, parent: Block)
    returns (v: UncleVerdict)
    requires Holds(db, stored) && HoldsBodies(bodies, stored)
    requires parent.header in stored && Linked(parent.header) && block.header.parentHash == Digest(parent.header)
    requires forall i :: 0 <= i < |Path(parent.header)| ==> Path(parent.header)[i] in stored
    ensures var path := Path(parent.header);
      v == CheckBlock(env, Recent(path, |path|), block.header, parent.header, block.uncles)
  {
    hide Holds, HoldsBodies, Linked, Path, CheckUncle, UnclesOfAll, SetOf;
    if |block.uncles| > 2 {
      return TooManyUncles;
    }
    var blocks := GetBlocksFromHash(db, bodies, stored, block.header.parentHash, LOOK_BACK);
    var seen, ancestors := Collect(blocks, Path(parent.header));
    ancestors := ancestors + {block.header};
    seen := seen + {block.header};
    ghost var all := CheckFrom(env, seen, ancestors, parent.header, block.uncles, 0);
    for i := 0 to |block.uncles|
      invariant all == CheckFrom(env, seen, ancestors, parent.header, block.uncles, i)
    {
      v := CheckUncle(env, seen, ancestors, parent.header, block.uncles[i], i);
      if v != UnclesValid {
        return;
      }
      seen := seen + {block.uncles[i]};
    }
    v := UnclesValid;
  }

  // ----- along a chain -----

  /** The block at number `n` of the path passed the check against the path. */
  ghost predicate Checked(env: Env, path: seq<Header>, n: nat)
    requires 0 < n < |path|
  {
    CheckBlock(env, Recent(path, n), path[n], path[n - 1], UnclesOf(path[n])) == UnclesValid
  }

  ghost predicate Passed(path: seq<Header>, n: nat)
    requires 0 < n < |path|
  {
    exists env :: Checked(env, path, n)
  }

  predicate Numbered(path: seq<Header>) {
    forall n :: 0 <= n < |path| ==> path[n].number == n
  }

  ghost predicate ChainChecked(path: seq<Header>) {
    && Numbered(path)
    && (forall n :: 0 < n < |path| ==> Passed(path, n))
  }

  /** The block passed `VerifyUncles` when it was added on top of its parent. */
  ghost predicate VerifiedOnParent(h: Header) {
    h.parentHash.Digest? ==>
      var p := h.parentHash.header;
      exists env :: CheckBlock(env, Recent(Path(p), |Path(p)|), h, p, UnclesOf(h)) == UnclesValid
  }

  lemma RecentOfPrefix(path: seq<Header>, n: nat)
    requires n <= |path|
    ensures Recent(path[..n], n) == Recent(path, n)
  {
  }

  /** Checks made one at a time, each on its own parent, are checks of the whole path. */
  lemma VerifiedPathIsChecked(h: Header)
    requires Linked(h) && forall i :: 0 <= i < |Path(h)| ==> VerifiedOnParent(Path(h)[i])
    ensures ChainChecked(Path(h))
  {
    hide CheckBlock, Linked, Path, Recent;
    PathIndexing(h);
    var path := Path(h);
    forall n | 0 < n < |path|
      ensures Passed(path, n)
    {
      PathStep(h, n);
      PathPrefix(h, n - 1);
      var p := path[n - 1];
      assert VerifiedOnParent(path[n]);
      var env :| CheckBlock(env, Recent(Path(p), |Path(p)|), path[n], p, UnclesOf(path[n])) == UnclesValid;
      RecentOfPrefix(path, n);
      assert Checked(env, path, n);
    }
  }

  /** `u` is the uncle at position `j` of the block at number `n`. */
  ghost predicate Included(path: seq<Header>, n: int, j: int, u: Header) {
    0 < n < |path| && 0 <= j < |UnclesOf(path[n])| && UnclesOf(path[n])[j] == u
  }

  /** Acceptance, said of all the uncles at once. */
  ghost predicate Acceptable(env: Env, seen: set<Header>, ancestors: set<Header>, parent: Header,
                             uncles: seq<Header>, i: nat) {
    && (forall j :: i <= j < |uncles| ==> uncles[j] !in seen && UncleRule(env, ancestors, parent, uncles[j]))
    && (forall j, k :: i <= j < k < |uncles| ==> uncles[j] != uncles[k])
  }

  /** The rule for one uncle: no ancestor itself, child of an ancestor other than the block's parent,
      and a valid header on top of it. */
  ghost predicate UncleRule(env: Env, ancestors: set<Header>, parent: Header, u: Header) {
    && u !in ancestors
    && In(u.parentHash, ancestors) && u.parentHash != Digest(parent)
    && ValidateHeader(env, u, u.parentHash.header, true, true) == Valid
  }

  lemma {:induction false} CheckFromIff(env: Env, seen: set<Header>, ancestors: set<Header>, parent: Header,
                                        uncles: seq<Header>, i: nat)
    requires i <= |uncles|
    ensures CheckFrom(env, seen, ancestors, parent, uncles, i) == UnclesValid <==>
      Acceptable(env, seen, ancestors, parent, uncles, i)
    decreases |uncles| - i
  {
    hide ValidateHeader;
    if i < |uncles| {
      var u := uncles[i];
      CheckFromIff(env, seen + {u}, ancestors, parent, uncles, i + 1);
      if CheckUncle(env, seen, ancestors, parent, u, i) == UnclesValid
         && Acceptable(env, seen + {u}, ancestors, parent, uncles, i + 1) {
        assert forall j :: i < j < |uncles| ==> uncles[j] !in seen + {u};
      }
      if Acceptable(env, seen, ancestors, parent, uncles, i) {
        assert forall j :: i < j < |uncles| ==> uncles[j] != u;
      }
    }
  }

  /** What a refusal says: the uncle at the index it names is the first that breaks a rule, and breaks the
      rule named: it was seen before, among the recent uncles or earlier in this block; or it is one of
      the recent blocks; or its parent is not a proper one; or its header is invalid for that reason. */
  ghost predicate Objection(env: Env, seen: set<Header>, ancestors: set<Header>, parent: Header,
                            uncles: seq<Header>, i: nat, v: UncleVerdict) {
    match v
    case UnclesValid => false
    case TooManyUncles => false
    case NotUnique(j) =>
      FirstAt(env, seen, ancestors, parent, uncles, i, j) && !New(seen, uncles, i, j)
    case IsAncestor(j) =>
      FirstAt(env, seen, ancestors, parent, uncles, i, j) && New(seen, uncles, i, j) && uncles[j] in ancestors
    case ParentNotAncestor(j) =>
      && FirstAt(env, seen, ancestors, parent, uncles, i, j) && New(seen, uncles, i, j) && uncles[j] !in ancestors
      && (!In(uncles[j].parentHash, ancestors) || uncles[j].parentHash == Digest(parent))
    case HeaderInvalid(j, reason) =>
      && FirstAt(env, seen, ancestors, parent, uncles, i, j) && New(seen, uncles, i, j) && uncles[j] !in ancestors
      && In(uncles[j].parentHash, ancestors) && uncles[j].parentHash != Digest(parent)
      && reason != Valid && ValidateHeader(env, uncles[j], uncles[j].parentHash.header, true, true) == reason
  }

  predicate New(seen: set<Header>, uncles: seq<Header>, i: nat, j: nat)
    requires i <= j < |uncles|
  {
    uncles[j] !in seen && uncles[j] !in uncles[i..j]
  }

  /** All uncles before the one at `j` keep the rules. */
  ghost predicate FirstAt(env: Env, seen: set<Header>, ancestors: set<Header>, parent: Header,
                          uncles: seq<Header>, i: nat, j: nat) {
    i <= j < |uncles| && Acceptable(env, seen, ancestors, parent, uncles[..j], i)
  }

  lemma {:induction false} UncleRefusal(env: Env, seen: set<Header>, ancestors: set<Header>, parent: Header,
                                             uncles: seq<Header>, i: nat)
    requires i <= |uncles|
    ensures
      var v := CheckFrom(env, seen, ancestors, parent, uncles, i);
      v != UnclesValid ==> Objection(env, seen, ancestors, parent, uncles, i, v)
    decreases |uncles| - i
  {
    hide ValidateHeader, Acceptable;
    if i < |uncles| {
      var u := uncles[i];
      NoneBefore(env, seen, ancestors, parent, uncles[..i], i);
      if CheckUncle(env, seen, ancestors, parent, u, i) == UnclesValid {
        UncleRefusal(env, seen + {u}, ancestors, parent, uncles, i + 1);
        forall j: nat | FirstAt(env, seen + {u}, ancestors, parent, uncles, i + 1, j)
          ensures FirstAt(env, seen, ancestors, parent, uncles, i, j)
          ensures New(seen, uncles, i, j) <==> New(seen + {u}, uncles, i + 1, j)
        {
          OneMoreBefore(env, seen, ancestors, parent, uncles[..j], i);
          assert uncles[i..j] == [u] + uncles[i + 1..j];
        }
      }
    }
  }

  lemma NoneBefore(env: Env, seen: set<Header>, ancestors: set<Header>, parent: Header, uncles: seq<Header>, i: nat)
    requires |uncles| <= i
    ensures Acceptable(env, seen, ancestors, parent, uncles, i)
  {
  }

  lemma OneMoreBefore(env: Env, seen: set<Header>, ancestors: set<Header>, parent: Header, uncles: seq<Header>, i: nat)
    requires i < |uncles| && CheckUncle(env, seen, ancestors, parent, uncles[i], i) == UnclesValid
    requires Acceptable(env, seen + {uncles[i]}, ancestors, parent, uncles, i + 1)
    ensures Acceptable(env, seen, ancestors, parent, uncles, i)
  {
    hide ValidateHeader;
  }

  /** The refusal of a block: too many uncles, or an objection to one of them. */
  lemma BlockRefusal(env: Env, recent: seq<Header>, h: Header, parent: Header, uncles: seq<Header>)
    ensures
      var v := CheckBlock(env, recent, h, parent, uncles);
      && (v == TooManyUncles <==> |uncles| > 2)
      && (v != UnclesValid && v != TooManyUncles ==>
            Objection(env, UnclesOfAll(recent) + {h}, SetOf(recent) + {h}, parent, uncles, 0, v))
  {
    hide UnclesOfAll, SetOf;
    hide CheckFrom;
    if |uncles| <= 2 {
      UncleRefusal(env, UnclesOfAll(recent) + {h}, SetOf(recent) + {h}, parent, uncles, 0);
    }
  }

  /** What the check of a block accepts: at most two uncles, each new and proper. */
  lemma CheckBlockIff(env: Env, recent: seq<Header>, h: Header, parent: Header, uncles: seq<Header>)
    ensures CheckBlock(env, recent, h, parent, uncles) == UnclesValid <==>
      |uncles| <= 2 && Acceptable(env, UnclesOfAll(recent) + {h}, SetOf(recent) + {h}, parent, uncles, 0)
  {
    hide CheckFrom, Acceptable, UnclesOfAll, SetOf;
    if |uncles| <= 2 {
      CheckFromIff(env, UnclesOfAll(recent) + {h}, SetOf(recent) + {h}, parent, uncles, 0);
    }
  }

  /** Hashing is acyclic: no header is the parent of its own uncle. */
  lemma NoUncleOfItsChild(h: Header, u: Header)
    requires u in UnclesOf(h)
    ensures u.parentHash != Digest(h)
  {
  }

  /** The recent blocks of the check at `n` are those numbered from `n - 7` to `n - 1`. */
  lemma RecentIndexing(path: seq<Header>, n: nat, m: nat)
    requires n <= |path| && m < n && n - LOOK_BACK <= m
    ensures path[m] in SetOf(Recent(path, n))
    ensures forall j, u :: Included(path, m, j, u) ==> u in UnclesOfAll(Recent(path, n))
  {
    var low := if n < LOOK_BACK then 0 else n - LOOK_BACK;
    var recent := Recent(path, n);
    assert recent[m - low] == path[m];
    forall j, u | Included(path, m, j, u)
      ensures u in UnclesOfAll(recent)
    {
      assert UnclesOf(recent[m - low])[j] == u;
    }
  }

  /** And there are seven of them, or all there are. */
  lemma RecentIsSeven(path: seq<Header>, n: nat)
    requires n <= |path|
    ensures n < 7 ==> Recent(path, n) == path[..n]
    ensures n >= 7 ==> Recent(path, n) == path[n - 7..n]
  {
  }

  /** The acceptance of a block, said of one of its uncles. */
  lemma UncleAccepted(path: seq<Header>, n: nat, j: nat, u: Header) returns (env: Env)
    requires Included(path, n, j, u) && Passed(path, n)
    ensures UncleRule(env, SetOf(Recent(path, n)) + {path[n]}, path[n - 1], u)
    ensures u !in UnclesOfAll(Recent(path, n)) + {path[n]}
    ensures forall i :: 0 <= i < j ==> UnclesOf(path[n])[i] != u
  {
    hide UncleRule, SetOf, UnclesOfAll, CheckBlock;
    env :| Checked(env, path, n);
    CheckBlockIff(env, Recent(path, n), path[n], path[n - 1], UnclesOf(path[n]));
  }

  /** The uncle's parent is a block of the chain, between two and seven numbers back. */
  lemma UncleParent(path: seq<Header>, n: nat, j: nat, u: Header) returns (k: nat)
    requires Numbered(path) && Included(path, n, j, u) && Passed(path, n)
    ensures n - 7 <= k <= n - 2 && u.parentHash == Digest(path[k]) && u.number == k + 1
  {
    hide ValidateHeader, UnclesOfAll, Passed;
    var recent, h := Recent(path, n), path[n];
    var env := UncleAccepted(path, n, j, u);
    NoUncleOfItsChild(h, u);
    assert u.parentHash.header in SetOf(recent);
    var i :| 0 <= i < |recent| && recent[i] == u.parentHash.header;
    k := i + if n < LOOK_BACK then 0 else n - LOOK_BACK;
    assert recent[i] == path[k];
    ValidHeaderFacts(env, u, path[k], true, true);
  }

  /** The uncle is none of the recent blocks, nor an uncle of one, nor an earlier uncle of its block. */
  lemma UncleFresh(path: seq<Header>, n: nat, j: nat, u: Header)
    requires Included(path, n, j, u) && Passed(path, n)
    ensures forall m :: 0 <= m <= n && n - 7 <= m ==> u != path[m]
    ensures forall m, i :: n - 7 <= m < n ==> !Included(path, m, i, u)
    ensures forall i :: 0 <= i < j ==> UnclesOf(path[n])[i] != u
  {
    hide ValidateHeader, SetOf, UnclesOfAll, Passed;
    var env := UncleAccepted(path, n, j, u);
    forall m | 0 <= m < n && n - 7 <= m
      ensures u != path[m] && forall i :: !Included(path, m, i, u)
    {
      RecentIndexing(path, n, m);
    }
  }

  /** No uncle is ever included twice: not by two blocks, however far apart, and not by one block. */
  lemma NoUncleTwice(path: seq<Header>, n: nat, j: nat, n': nat, j': nat, u: Header)
    requires ChainChecked(path) && Included(path, n, j, u) && Included(path, n', j', u)
    ensures n == n' && j == j'
  {
    var k := UncleParent(path, n, j, u);
    var k' := UncleParent(path, n', j', u);
    UncleFresh(path, n, j, u);
    UncleFresh(path, n', j', u);
  }

  /** No included uncle is a block of the chain. */
  lemma NoUncleOnChain(path: seq<Header>, n: nat, j: nat, u: Header)
    requires ChainChecked(path) && Included(path, n, j, u)
    ensures u !in path
  {
    var k := UncleParent(path, n, j, u);
    UncleFresh(path, n, j, u);
  }
}
