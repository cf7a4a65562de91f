/**
 What a header chain is, as a value: the set of headers it has stored and its head. Writing a header
 adds it and moves the head when the new branch is heavier, or on a tie when the coin says so.
 The class in HeaderChain.dfy is proved to do exactly this; here is what every run of it keeps.
 */
module HeaderRuns {
  import opened ChainTypes
  import opened Consensus

  datatype Chain = Chain(genesis: Header, stored: set<Header>, head: Header)

  predicate IsGenesis(g: Header) {
    g.number == 0 && g.parentHash.Opaque?
  }

  predicate Known(c: Chain, hash: Hash) {
    In(hash, c.stored)
  }

  /** The parent-number premise that validation establishes for every header that is written. */
  predicate Follows(c: Chain, h: Header) {
    Known(c, h.parentHash) ==> h.number == h.parentHash.header.number + 1
  }

  function Heavier(h: Header, head: Header, coin: bool): bool {
    TotalDifficulty(h) > TotalDifficulty(head) || (TotalDifficulty(h) == TotalDifficulty(head) && coin)
  }

  function Write(c: Chain, h: Header, coin: bool): Chain {
    if !Known(c, h.parentHash) then c
    else c.(stored := c.stored + {h}, head := if Heavier(h, c.head, coin) then h else c.head)
  }

  // ----- the invariant -----

  /** The header is linked to the genesis block and its parent is stored. */
  ghost predicate Placed(genesis: Header, stored: set<Header>, h: Header) {
    && Linked(h)
    && Root(h) == genesis
    && (h != genesis ==> h.parentHash.Digest? && h.parentHash.header in stored)
  }

  /** Everything stored descends from the genesis block through stored headers. */
  ghost predicate Closed(genesis: Header, stored: set<Header>) {
    && IsGenesis(genesis)
    && genesis in stored
    && forall h {:trigger Placed(genesis, stored, h)} :: h in stored ==> Placed(genesis, stored, h)
  }

  lemma ClosedAfterPut(genesis: Header, stored: set<Header>, h: Header)
    requires Closed(genesis, stored)
    requires h.parentHash.Digest? && h.parentHash.header in stored
    requires h.number == h.parentHash.header.number + 1
    ensures Closed(genesis, stored + {h}) && h != genesis
  {
    assert Placed(genesis, stored, h.parentHash.header);
    assert Path(h)[0] == Path(h.parentHash.header)[0];
    forall x | x in stored + {h}
      ensures Placed(genesis, stored + {h}, x)
    {
      assert x != h ==> Placed(genesis, stored, x);
    }
  }

  /** A closed store holds the whole path of each of its headers. */
  lemma {:induction false} PathIsStored(genesis: Header, stored: set<Header>, h: Header)
    requires Closed(genesis, stored) && h in stored
    ensures forall i :: 0 <= i < |Path(h)| ==> Path(h)[i] in stored
    decreases h
  {
    assert Placed(genesis, stored, h);
    if h != genesis {
      PathIsStored(genesis, stored, h.parentHash.header);
    }
  }

  ghost predicate HeaviestHead(c: Chain) {
    forall h :: h in c.stored ==> TotalDifficulty(h) <= TotalDifficulty(c.head)
  }

  ghost predicate Inv(c: Chain) {
    Closed(c.genesis, c.stored) && c.head in c.stored && HeaviestHead(c)
  }

  /** A header with an unknown parent changes nothing; any other is stored, and becomes the head exactly
      when it is heavier than the head, or as heavy and the coin is for it. */
  lemma WriteDecides(c: Chain, h: Header, coin: bool)
    ensures !In(h.parentHash, c.stored) ==> Write(c, h, coin) == c
    ensures In(h.parentHash, c.stored) ==>
      var c' := Write(c, h, coin);
      && c'.genesis == c.genesis && c'.stored == c.stored + {h}
      && (TotalDifficulty(h) > TotalDifficulty(c.head) ==> c'.head == h)
      && (TotalDifficulty(h) < TotalDifficulty(c.head) ==> c'.head == c.head)
      && (TotalDifficulty(h) == TotalDifficulty(c.head) ==> c'.head == if coin then h else c.head)
  {
  }

  lemma WriteKeepsInv(c: Chain, h: Header, coin: bool)
    requires Inv(c) && Follows(c, h)
    ensures Inv(Write(c, h, coin))
  {
    if Known(c, h.parentHash) {
      ClosedAfterPut(c.genesis, c.stored, h);
    }
  }

  /** What writing a header with a known parent can rely on. */
  lemma ChildFacts(c: Chain, h: Header)
    requires Inv(c) && Follows(c, h) && Known(c, h.parentHash)
    ensures Closed(c.genesis, c.stored + {h}) && h != c.genesis && c.head in c.stored
    ensures TotalDifficulty(h) == h.difficulty + TotalDifficulty(h.parentHash.header)
  {
    ClosedAfterPut(c.genesis, c.stored, h);
  }

  lemma PlacedFacts(genesis: Header, stored: set<Header>, h: Header)
    requires Closed(genesis, stored) && h in stored
    ensures Linked(h) && Path(h)[0] == genesis
    ensures h != genesis ==> h.number > 0 && h.parentHash.Digest?
    ensures forall i :: 0 <= i < |Path(h)| ==> Path(h)[i] in stored
  {
    assert Placed(genesis, stored, h);
    PathIsStored(genesis, stored, h);
  }

  lemma HeadStored(c: Chain)
    requires Inv(c)
    ensures c.head in c.stored
  {
  }

  // ----- runs -----

  /** One call: a header and what the coin shows if it is asked. */
  datatype Call = Call(header: Header, coin: bool)

  function Run(c: Chain, calls: seq<Call>): Chain
    decreases |calls|
  {
    if calls == [] then c
    else
      var before := Run(c, calls[..|calls| - 1]);
      Write(before, calls[|calls| - 1].header, calls[|calls| - 1].coin)
  }

  function Start(genesis: Header): Chain {
    Chain(genesis, {genesis}, genesis)
  }

  lemma StartInv(genesis: Header)
    requires IsGenesis(genesis)
    ensures Inv(Start(genesis)) && PositiveDifficulty(Start(genesis))
    ensures Path(genesis) == [genesis]
  {
    assert Path(genesis) == [genesis];
  }

  /** A run in which each header was validated against its parent, or is already stored: this is
      what header insertion establishes before it writes. */
  ghost predicate ValidatedRun(genesis: Header, calls: seq<Call>) {
    forall i :: 0 <= i < |calls| ==> ValidatedCall(Run(Start(genesis), calls[..i]), calls[i])
  }

  ghost predicate ValidatedCall(c: Chain, call: Call) {
    Known(c, call.header.parentHash) ==>
      call.header in c.stored || Accepted(call.header, call.header.parentHash.header)
  }

  ghost predicate PositiveDifficulty(c: Chain) {
    forall h :: h in c.stored && h != c.genesis ==> h.difficulty > 0
  }

  /** What validation gives for a header that is about to be written. */
  predicate Admissible(c: Chain, h: Header) {
    Known(c, h.parentHash) ==>
      h.number == h.parentHash.header.number + 1 && (h in c.stored || h.difficulty > 0)
  }

  lemma ValidatedIsAdmissible(c: Chain, call: Call)
    requires Inv(c) && ValidatedCall(c, call)
    ensures Admissible(c, call.header) && Follows(c, call.header)
  {
    var h := call.header;
    if h in c.stored {
      assert Placed(c.genesis, c.stored, h);
    } else if Known(c, h.parentHash) {
      AcceptedFacts(h, h.parentHash.header);
    }
  }

  /** Along a path of positive difficulties the weight strictly grows. */
  lemma {:induction false} AncestorLighter(c: Chain, h: Header, n: nat)
    requires Inv(c) && PositiveDifficulty(c) && h in c.stored
    requires n < |Path(h)| - 1
    ensures TotalDifficulty(Path(h)[n]) < TotalDifficulty(h)
    decreases h
  {
    assert Placed(c.genesis, c.stored, h);
    assert Path(c.genesis) == [c.genesis];
    var p := h.parentHash.header;
    if n < |Path(p)| - 1 {
      AncestorLighter(c, p, n);
    }
  }

  lemma ValidatedCallKeepsInv(c: Chain, call: Call)
    requires Inv(c) && PositiveDifficulty(c) && ValidatedCall(c, call)
    ensures Inv(Write(c, call.header, call.coin)) && PositiveDifficulty(Write(c, call.header, call.coin))
  {
    ValidatedIsAdmissible(c, call);
    WriteKeepsInv(c, call.header, call.coin);
  }

  lemma ValidatedRunPrefix(genesis: Header, calls: seq<Call>)
    requires calls != [] && ValidatedRun(genesis, calls)
    ensures ValidatedRun(genesis, calls[..|calls| - 1])
  {
    var init := calls[..|calls| - 1];
    forall i | 0 <= i < |init|
      ensures ValidatedCall(Run(Start(genesis), init[..i]), init[i])
    {
      assert init[..i] == calls[..i];
      assert ValidatedCall(Run(Start(genesis), calls[..i]), calls[i]);
    }
  }

  /** Over every validated run from genesis, for every outcome of every coin. */
  lemma {:induction false} RunKeepsInv(genesis: Header, calls: seq<Call>)
    requires IsGenesis(genesis) && ValidatedRun(genesis, calls)
    ensures Inv(Run(Start(genesis), calls)) && PositiveDifficulty(Run(Start(genesis), calls))
    ensures Run(Start(genesis), calls).genesis == genesis
    decreases |calls|
  {
    if calls == [] {
      StartInv(genesis);
    } else {
      var last := |calls| - 1;
      ValidatedRunPrefix(genesis, calls);
      RunKeepsInv(genesis, calls[..last]);
      ValidatedCallKeepsInv(Run(Start(genesis), calls[..last]), calls[last]);
    }
  }

  /** The head never has a stored child. */
  lemma HeadHasNoStoredChild(genesis: Header, calls: seq<Call>, h: Header)
    requires IsGenesis(genesis) && ValidatedRun(genesis, calls)
    requires h in Run(Start(genesis), calls).stored
    ensures h.parentHash != Digest(Run(Start(genesis), calls).head)
  {
    RunKeepsInv(genesis, calls);
  }

  /** Convergence. Two nodes that ended up storing the same headers, in whatever order and with
      whatever coins, have heads of the same weight; and when one stored header is strictly the
      heaviest they have the same head, hence the same canonical map. */
  lemma RunsConverge(genesis: Header, calls: seq<Call>, calls': seq<Call>)
    requires IsGenesis(genesis) && ValidatedRun(genesis, calls) && ValidatedRun(genesis, calls')
    requires Run(Start(genesis), calls).stored == Run(Start(genesis), calls').stored
    ensures
      var c, c' := Run(Start(genesis), calls), Run(Start(genesis), calls');
      && TotalDifficulty(c.head) == TotalDifficulty(c'.head)
      && ((forall h :: h in c.stored && h != c.head ==> TotalDifficulty(h) < TotalDifficulty(c.head)) ==>
            CanonOf(c.head) == CanonOf(c'.head))
  {
    RunKeepsInv(genesis, calls);
    RunKeepsInv(genesis, calls');
  }

  /** The head's weight only grows, and headers are never lost. */
  lemma {:induction false} RunOnlyGrows(c: Chain, calls: seq<Call>)
    ensures c.stored <= Run(c, calls).stored
    ensures TotalDifficulty(c.head) <= TotalDifficulty(Run(c, calls).head)
    decreases |calls|
  {
    if calls != [] {
      RunOnlyGrows(c, calls[..|calls| - 1]);
    }
  }
}
