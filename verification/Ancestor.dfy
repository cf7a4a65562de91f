/**
 The last common ancestor of two headers: what it is, and the walk that finds it in the database.
 */
module Ancestor {
  import opened Options
  import opened ChainTypes
  import opened ChainDb

  ghost predicate OnPath(tip: Header, h: Header) {
    h.number < |Path(tip)| && Path(tip)[h.number] == h
  }

  /** `c` lies on both paths and no header that does has a greater number. */
  ghost predicate IsLastCommon(a: Header, b: Header, c: Header) {
    OnPath(a, c) && OnPath(b, c) && forall d :: OnPath(a, d) && OnPath(b, d) ==> d.number <= c.number
  }

  /** The two paths differ at every number above `k`. */
  ghost predicate DifferAbove(a: Header, b: Header, k: int) {
    forall n :: k < n < |Path(a)| && 0 <= n < |Path(b)| ==> Path(a)[n] != Path(b)[n]
  }

  /** The paths meet, and the database has every header from just below the tips to the meeting point. */
  ghost predicate WalkStored(stored: set<Header>, a: Header, b: Header) {
    exists c :: IsLastCommon(a, b, c) && BranchStored(stored, a, c.number) && BranchStored(stored, b, c.number)
  }

  ghost predicate BranchStored(stored: set<Header>, tip: Header, k: nat) {
    forall n :: k <= n < |Path(tip)| - 1 ==> Path(tip)[n] in stored
  }

  /** On a linked path the parent of a header is the header one number below. */
  lemma ParentOnPath(tip: Header, h: Header)
    requires Linked(tip) && OnPath(tip, h)
    ensures h.number == 0 ==> h.parentHash.Opaque?
    ensures h.number > 0 ==> h.parentHash == Digest(Path(tip)[h.number - 1])
    ensures h.number > 0 ==> Path(tip)[h.number - 1].number == h.number - 1
  {
    PathIndexing(tip);
    if h.number > 0 {
      PathStep(tip, h.number);
    } else {
      PathPrefix(tip, 0);
      PathIndexing(h);
    }
  }

  /** One step of the walk: to the parent, if the database has it. */
  method Up(db: Db, ghost stored: set<Header>, ghost tip: Header, h: Header) returns (r: Option<Header>)
    requires Holds(db, stored) && Linked(tip) && OnPath(tip, h)
    ensures r.Some? ==> h.number > 0 && OnPath(tip, r.value) && r.value.number == h.number - 1 && r.value in stored
    ensures r.None? ==> h.number == 0 || Path(tip)[h.number - 1] !in stored
  {
    hide HoldsHeaders, HoldsTds, HoldsNumbers;
    ParentOnPath(tip, h);
    HoldsRead(db, stored, h.parentHash, h.number - 1);
    r := GetHeader(db, h.parentHash, h.number - 1);
  }

  lemma MeetingPointIsLast(a: Header, b: Header, c: Header)
    requires Linked(a) && Linked(b) && OnPath(a, c) && OnPath(b, c) && DifferAbove(a, b, c.number)
    ensures IsLastCommon(a, b, c)
  {
  }

  lemma MetWalk(stored: set<Header>, a: Header, b: Header, c: Header)
    requires IsLastCommon(a, b, c) && BranchStored(stored, a, c.number) && BranchStored(stored, b, c.number)
    ensures WalkStored(stored, a, b)
  {
  }

  /** A walk that cannot go below number `k` on `a`'s side, with no meeting point from there up. */
  lemma Blocked(stored: set<Header>, a: Header, b: Header, k: nat)
    requires Linked(a) && Linked(b)
    requires k < |Path(a)| && (k == 0 || Path(a)[k - 1] !in stored)
    requires DifferAbove(a, b, k - 1)
    ensures !WalkStored(stored, a, b) && !WalkStored(stored, b, a)
  {
    forall c | OnPath(a, c) && OnPath(b, c)
      ensures c.number < k
    {
    }
  }

  /** For any two linked headers and any database: what the walk returns is the last common ancestor,
      and it comes back empty-handed exactly when there is none or a header on the way is missing. */
  method FindCommonAncestor(db: Db, ghost stored: set<Header>, a0: Header, b0: Header) returns (r: Option<Header>)
    requires Holds(db, stored) && Linked(a0) && Linked(b0)
    ensures r.Some? ==> IsLastCommon(a0, b0, r.value)
    ensures r.Some? <==> WalkStored(stored, a0, b0)
  {
    hide Holds, Linked, Path, WalkStored, IsLastCommon;
    PathIndexing(a0);
    PathIndexing(b0);
    var a, b := a0, b0;
    while a.number > b0.number
      invariant OnPath(a0, a) && (a == a0 || a.number >= b0.number)
      invariant BranchStored(stored, a0, a.number)
      decreases a.number
    {
      var p := Up(db, stored, a0, a);
      if p.None? {
        Blocked(stored, a0, b0, a.number);
        return None;
      }
      a := p.value;
    }
    while a.number < b.number
      invariant OnPath(b0, b) && (b == b0 || a.number <= b.number)
      invariant BranchStored(stored, b0, b.number)
      decreases b.number
    {
      var p := Up(db, stored, b0, b);
      if p.None? {
        Blocked(stored, b0, a0, b.number);
        return None;
      }
      b := p.value;
    }
    while a != b
      invariant OnPath(a0, a) && OnPath(b0, b) && a.number == b.number
      invariant DifferAbove(a0, b0, a.number)
      invariant BranchStored(stored, a0, a.number) && BranchStored(stored, b0, b.number)
      decreases a.number
    {
      var p := Up(db, stored, a0, a);
      if p.None? {
        Blocked(stored, a0, b0, a.number);
        return None;
      }
      var q := Up(db, stored, b0, b);
      if q.None? {
        Blocked(stored, b0, a0, b.number);
        return None;
      }
      a, b := p.value, q.value;
    }
    MeetingPointIsLast(a0, b0, a);
    MetWalk(stored, a0, b0, a);
    return Some(a);
  }

  lemma LastCommonUnique(a: Header, b: Header, c: Header, d: Header)
    requires IsLastCommon(a, b, c) && IsLastCommon(a, b, d)
    ensures c == d
  {
  }

  /** The two paths agree exactly up to the last common ancestor. */
  lemma LastCommonSplits(a: Header, b: Header, c: Header)
    requires Linked(a) && Linked(b) && IsLastCommon(a, b, c)
    ensures forall n :: 0 <= n <= c.number ==> n < |Path(a)| && n < |Path(b)| && Path(a)[n] == Path(b)[n]
    ensures DifferAbove(a, b, c.number)
  {
    PathIndexing(a);
    SharedAncestorSharesPrefix(a, b, c.number);
    forall n | c.number < n < |Path(a)| && 0 <= n < |Path(b)|
      ensures Path(a)[n] != Path(b)[n]
    {
      if Path(a)[n] == Path(b)[n] {
        assert OnPath(a, Path(a)[n]);
      }
    }
  }

  /** Headers with a common root have a last common ancestor. */
  lemma {:induction false} LastCommonExists(a: Header, b: Header, k: int) returns (c: Header)
    requires Linked(a) && Linked(b) && Root(a) == Root(b)
    requires 0 <= k < |Path(a)| && k < |Path(b)| && DifferAbove(a, b, k)
    ensures IsLastCommon(a, b, c)
    decreases k
  {
    PathIndexing(a);
    PathIndexing(b);
    c := Path(a)[k];
    if c == Path(b)[k] {
      MeetingPointIsLast(a, b, c);
    } else {
      c := LastCommonExists(a, b, k - 1);
    }
  }

  lemma StoredPathsWalk(stored: set<Header>, a: Header, b: Header)
    requires Linked(a) && Linked(b) && Root(a) == Root(b)
    requires forall i :: 0 <= i < |Path(a)| ==> Path(a)[i] in stored
    requires forall i :: 0 <= i < |Path(b)| ==> Path(b)[i] in stored
    ensures WalkStored(stored, a, b)
  {
    var k := if |Path(a)| < |Path(b)| then |Path(a)| - 1 else |Path(b)| - 1;
    var c := LastCommonExists(a, b, k);
    MetWalk(stored, a, b, c);
  }
}
