/**
 Inserting a chain of blocks: the sanity check, the wait for the parallel nonce verifier, validation
 of each block against what is stored, the queue of future blocks, and the write. What the code cannot
 decide itself is part of a `Moment`: the clock, shutdown requests, which states are in the database,
 whether the transactions of a block ran to the state it claims, the tie coin and cache eviction.
 */
module ChainInsert {
  import opened Options
  import opened ChainTypes
  import opened Consensus
  import opened ChainDb
  import opened HeaderRuns
  import opened TxIndex
  import opened BlockChain
  import opened Uncles
  import HeaderImport

  const MAX_TIME_FUTURE_BLOCKS := 30

  /** The world as it is when the turn of a block comes. The clock is read once in `env`, by validation,
      and once more when a block was found to be ahead of it. `cached` says which blocks are in the block
      cache, where they are found whatever number they are asked for with. */
  datatype Moment = Moment(
    env: Env,
    nowAgain: nat,
    cached: Hash -> bool,
    interrupted: bool,
    hasState: Header -> bool,
    processed: bool,
    coin: bool,
    evicted: set<Hash>)

  datatype BlockVerdict =
    | BlockValid
    | KnownBlock
    | ParentUnknown
    | HeaderRefused(header: Verdict)
    | UnclesRefused(uncles: UncleVerdict)
    | BadUncleRoot
    | BadTxRoot

  datatype Reason =
    | NotContiguous
    | NonceRefused
    | Blacklisted
    | TooFarAhead
    | Rejected(verdict: BlockVerdict)
    | NotProcessed

  datatype Outcome = Ignored | Queued | Written | Failed(reason: Reason)

  /** What the call returns: the index of a failing block, or nothing. */
  datatype Result = Success | Failure(index: nat, reason: Reason)

  /** A chain and its queue of future blocks. */
  datatype Node = Node(chain: Chain, future: map<Hash, Block>)

  // ----- one block -----

  /** The parent is stored, and is found in the cache or under the number below that of the block. */
  predicate FindsParent(m: Moment, stored: set<Header>, h: Header) {
    In(h.parentHash, stored) && (m.cached(h.parentHash) || h.number == h.parentHash.header.number + 1)
  }

  /** Validation of a block against the stored ones, in the order of the code. */
  ghost function Judge(m: Moment, stored: set<Header>, block: Block): BlockVerdict {
    var h := block.header;
    if h in stored && m.hasState(h) then KnownBlock
    else if !FindsParent(m, stored, h) || !m.hasState(h.parentHash.header) then ParentUnknown
    else
      var parent := h.parentHash.header;
      var v := ValidateHeader(m.env, h, parent, false, false);
      if v != Valid then HeaderRefused(v)
      else
        var u := CheckBlock(m.env, Recent(Path(parent), |Path(parent)|), h, parent, block.uncles);
        if u != UnclesValid then UnclesRefused(u)
        else if h.uncleHash != UncleDigest(block.uncles) then BadUncleRoot
        else if h.txHash != TxDigest(block.txs) then BadTxRoot
        else BlockValid
  }

  /** A block lookup through the cache, which holds only stored blocks: a hit ignores the number. */
  method FetchBlock(bc: BlockChain, m: Moment, hash: Hash, number: int) returns (block: Option<Block>)
    requires bc.StoreOk()
    ensures block == if In(hash, bc.stored) && (m.cached(hash) || number == hash.header.number)
                     then Some(BlockOf(hash.header)) else None
  {
    hide HoldsHeaders, HoldsTds, HoldsNumbers, HoldsBodies;
    if m.cached(hash) {
      HoldsReadNumber(bc.db, bc.stored, hash);
      HoldsBlock(bc.db, bc.bodies, bc.stored, hash, GetBlockNumber(bc.db, hash));
      block := GetBlock(bc.db, bc.bodies, hash, GetBlockNumber(bc.db, hash));
    } else {
      HoldsBlockIff(bc.db, bc.bodies, bc.stored, hash, number);
      block := GetBlock(bc.db, bc.bodies, hash, number);
    }
  }

  method ValidateBlock(bc: BlockChain, m: Moment, block: Block) returns (v: BlockVerdict)
    requires bc.StoreOk() && Inv(bc.View())
    ensures v == Judge(m, bc.stored, block)
  {
    hide HoldsHeaders, HoldsTds, HoldsNumbers, HoldsBodies, Inv, Path, CheckBlock, ValidateHeader, Recent, Linked;
    var h := block.header;
    var hash := Digest(h);
    HoldsReadNumber(bc.db, bc.stored, hash);
    HoldsBlock(bc.db, bc.bodies, bc.stored, hash, GetBlockNumber(bc.db, hash));
    var known := GetBlock(bc.db, bc.bodies, hash, GetBlockNumber(bc.db, hash));
    if known.Some? && m.hasState(h) {
      return KnownBlock;
    }
    var parent := FetchBlock(bc, m, h.parentHash, h.number - 1);
    if parent.None? || !m.hasState(parent.value.header) {
      return ParentUnknown;
    }
    var checked := ValidateHeader(m.env, h, parent.value.header, false, false);
    if checked != Valid {
      return HeaderRefused(checked);
    }
    StoredPath(bc.View(), parent.value.header);
    var uncles := VerifyUncles(m.env, bc.db, bc.bodies, bc.stored, block, parent.value);
    if uncles != UnclesValid {
      return UnclesRefused(uncles);
    }
    if h.uncleHash != UncleDigest(block.uncles) {
      return BadUncleRoot;
    }
    if h.txHash != TxDigest(block.txs) {
      return BadTxRoot;
    }
    v := BlockValid;
  }

  lemma StoredPath(c: Chain, h: Header)
    requires Inv(c) && h in c.stored
    ensures Linked(h) && forall i :: 0 <= i < |Path(h)| ==> Path(h)[i] in c.stored
  {
    PlacedFacts(c.genesis, c.stored, h);
  }

  /** What becomes of one block whose nonce was verified. */
  ghost function Handle(n: Node, block: Block, m: Moment, bad: set<Hash>): (Node, Outcome) {
    var h := block.header;
    var v := Judge(m, n.chain.stored, block);
    if Digest(h) in bad then (n, Failed(Blacklisted))
    else if v == KnownBlock then (n, Ignored)
    else if v == HeaderRefused(FutureBlock) && h.time > m.nowAgain + MAX_TIME_FUTURE_BLOCKS
    then (n, Failed(TooFarAhead))
    else if v == HeaderRefused(FutureBlock) || (v == ParentUnknown && h.parentHash in n.future)
    then (n.(future := (n.future - m.evicted)[Digest(h) := block]), Queued)
    else if v != BlockValid then (n, Failed(Rejected(v)))
    else if !m.processed then (n, Failed(NotProcessed))
    else (Node(Write(n.chain, h, m.coin), n.future - {Digest(h)}), Written)
  }

  // ----- what every stored block went through -----

  /** The header is valid on top of its parent and its uncles are verified there, both under `env`. */
  ghost predicate PassedUnder(env: Env, h: Header) {
    && h.parentHash.Digest?
    && var p := h.parentHash.header;
       && ValidateHeader(env, h, p, false, false) == Valid
       && CheckBlock(env, Recent(Path(p), |Path(p)|), h, p, UnclesOf(h)) == UnclesValid
  }

  /** Beyond the invariant of the chain: every stored block but the first passed header validation and
      uncle verification under an environment that was seen, that is, in which the code did validate. */
  ghost predicate AllVerified(c: Chain, seen: Env -> bool) {
    && Inv(c) && PositiveDifficulty(c)
    && forall h :: h in c.stored && h != c.genesis ==> exists env :: seen(env) && PassedUnder(env, h)
  }

  /** A block that was judged valid passed under the very environment of the moment. */
  lemma JudgedValid(c: Chain, m: Moment, block: Block)
    requires Judge(m, c.stored, block) == BlockValid
    ensures Known(c, block.header.parentHash) && BodyMatches(block) && Admissible(c, block.header)
    ensures PassedUnder(m.env, block.header)
  {
    hide CheckBlock, ValidateHeader, Path, Recent;
    var h := block.header;
    ValidHeaderFacts(m.env, h, h.parentHash.header, false, false);
    assert UnclesOf(h) == block.uncles;
  }

  lemma WriteKeepsVerified(c: Chain, seen: Env -> bool, env: Env, h: Header, coin: bool)
    requires AllVerified(c, seen) && Known(c, h.parentHash) && Admissible(c, h) && seen(env) && PassedUnder(env, h)
    ensures AllVerified(Write(c, h, coin), seen)
  {
    hide PassedUnder, Inv, PositiveDifficulty, Heavier;
    WriteKeepsInv(c, h, coin);
    WriteKeepsPositive(c, h, coin);
  }

  lemma PassedIsVerified(c: Chain, seen: Env -> bool, h: Header)
    requires AllVerified(c, seen) && h in c.stored
    ensures VerifiedOnParent(h)
  {
    hide CheckBlock, ValidateHeader, Path, Recent, PositiveDifficulty, Closed;
    if h != c.genesis {
      var env :| seen(env) && PassedUnder(env, h);
    } else {
      GenesisHasNoParent(c);
    }
  }

  lemma GenesisHasNoParent(c: Chain)
    requires Inv(c)
    ensures c.genesis.parentHash.Opaque?
  {
  }

  /** Along the path to any stored block no uncle is included twice and none is a block of the path. */
  lemma StoredPathsAreChecked(c: Chain, seen: Env -> bool, h: Header)
    requires AllVerified(c, seen) && h in c.stored
    ensures ChainChecked(Path(h))
  {
    hide VerifiedOnParent, PassedUnder, Inv, PositiveDifficulty, Path, Linked, ChainChecked;
    StoredPath(c, h);
    forall i | 0 <= i < |Path(h)|
      ensures VerifiedOnParent(Path(h)[i])
    {
      PassedIsVerified(c, seen, Path(h)[i]);
    }
    VerifiedPathIsChecked(h);
  }

  /** In particular, for every block ever stored. */
  lemma NoStoredUncleTwice(c: Chain, seen: Env -> bool, h: Header, n: nat, j: nat, n': nat, j': nat, u: Header)
    requires AllVerified(c, seen) && h in c.stored && Included(Path(h), n, j, u)
    ensures u !in Path(h)
    ensures Included(Path(h), n', j', u) ==> n == n' && j == j'
  {
    hide AllVerified;
    StoredPathsAreChecked(c, seen, h);
    NoUncleOnChain(Path(h), n, j, u);
    if Included(Path(h), n', j', u) {
      NoUncleTwice(Path(h), n, j, n', j', u);
    }
  }

  // ----- the nonce verifier -----

  /** The verdicts of the parallel verifier, in the order in which they arrive. */
  type Nonces = seq<(nat, bool)>

  predicate Arrived(nonces: Nonces, k: nat, i: nat)
    requires k <= |nonces|
  {
    exists p :: 0 <= p < k && nonces[p].0 == i
  }

  /** How many verdicts were read when the one for block `i` is in, if `k` were read before. */
  function ReadUntil(nonces: Nonces, k: nat, i: nat): (r: nat)
    requires k <= |nonces|
    ensures k <= r <= |nonces| && forall q :: k <= q < r ==> !Arrived(nonces, q, i)
    decreases |nonces| - k
  {
    if k == |nonces| || Arrived(nonces, k, i) then k else ReadUntil(nonces, k + 1, i)
  }

  /** The first bad verdict from `k` to `r`. */
  function FirstBad(nonces: Nonces, k: nat, r: nat): (f: Option<nat>)
    requires k <= r <= |nonces|
    ensures f.None? <==> forall p :: k <= p < r ==> nonces[p].1
    ensures f.Some? ==> exists p ::
      k <= p < r && nonces[p] == (f.value, false) && forall q :: k <= q < p ==> nonces[q].1
    decreases r - k
  {
    if k == r then None else if !nonces[k].1 then Some(nonces[k].0) else FirstBad(nonces, k + 1, r)
  }

  /** Every verdict is about a block of the chain, and every block gets one. */
  ghost predicate Complete(nonces: Nonces, n: nat) {
    && (forall p :: 0 <= p < |nonces| ==> nonces[p].0 < n)
    && (forall i :: 0 <= i < n ==> Arrived(nonces, |nonces|, i))
  }

  /** And it is the right one. */
  ghost predicate Honest(nonces: Nonces, chain: seq<Block>, powOk: Header -> bool) {
    && Complete(nonces, |chain|)
    && (forall p :: 0 <= p < |nonces| ==> nonces[p].0 < |chain| && nonces[p].1 == powOk(chain[nonces[p].0].header))
  }

  lemma {:induction false} ReadUntilArrived(nonces: Nonces, k: nat, i: nat)
    requires k <= |nonces| && Arrived(nonces, |nonces|, i)
    ensures Arrived(nonces, ReadUntil(nonces, k, i), i)
    decreases |nonces| - k
  {
    if k < |nonces| && !Arrived(nonces, k, i) {
      ReadUntilArrived(nonces, k + 1, i);
    }
  }

  /** Wait for the verdict on block `i`. `checked` says which verdicts have been read. */
  method AwaitNonce(nonces: Nonces, k: nat, i: nat, checked: seq<bool>)
    returns (r: nat, now: seq<bool>, failed: Option<nat>)
    requires k <= |nonces| && i < |checked| && Arrived(nonces, |nonces|, i)
    requires forall p :: 0 <= p < |nonces| ==> nonces[p].0 < |checked|
    requires forall j :: 0 <= j < |checked| ==> checked[j] == Arrived(nonces, k, j)
    ensures failed == FirstBad(nonces, k, ReadUntil(nonces, k, i))
    ensures failed.None? ==> r == ReadUntil(nonces, k, i) && |now| == |checked|
    ensures failed.None? ==> forall j :: 0 <= j < |now| ==> now[j] == Arrived(nonces, r, j)
  {
    r, now, failed := k, checked, None;
    while !now[i]
      invariant k <= r <= |nonces| && |now| == |checked| && failed.None?
      invariant ReadUntil(nonces, r, i) == ReadUntil(nonces, k, i)
      invariant FirstBad(nonces, r, ReadUntil(nonces, k, i)) == FirstBad(nonces, k, ReadUntil(nonces, k, i))
      invariant forall j :: 0 <= j < |now| ==> now[j] == Arrived(nonces, r, j)
      decreases |nonces| - r
    {
      var verdict := nonces[r];
      ArrivedStep(nonces, r);
      now := now[verdict.0 := true];
      if !verdict.1 {
        failed := Some(verdict.0);
        return;
      }
      r := r + 1;
    }
  }

  lemma ArrivedStep(nonces: Nonces, k: nat)
    requires k < |nonces|
    ensures forall j :: Arrived(nonces, k + 1, j) <==> Arrived(nonces, k, j) || j == nonces[k].0
  {
    assert nonces[k].0 == nonces[k].0;
    forall j | Arrived(nonces, k, j)
      ensures Arrived(nonces, k + 1, j)
    {
      var p :| 0 <= p < k && nonces[p].0 == j;
    }
  }

  // ----- the whole call -----

  function HeadersOf(chain: seq<Block>): seq<Header> {
    seq(|chain|, i requires 0 <= i < |chain| => chain[i].header)
  }

  /** The blocks from `i` on, when `k` verdicts were read: handled in order until one fails or the node
      shuts down. */
  ghost function ImportFrom(n: Node, chain: seq<Block>, bad: set<Hash>, nonces: Nonces, k: nat,
                            moments: seq<Moment>, i: nat)
    : (Node, Result)
    requires k <= |nonces| && i <= |chain| == |moments|
    decreases |chain| - i
  {
    if i == |chain| || moments[i].interrupted then (n, Success)
    else
      var r := ReadUntil(nonces, k, i);
      var f := FirstBad(nonces, k, r);
      if f.Some? then (n, Failure(f.value, NonceRefused))
      else
        var (n', outcome) := Handle(n, chain[i], moments[i], bad);
        if outcome.Failed? then (n', Failure(i, outcome.reason))
        else ImportFrom(n', chain, bad, nonces, r, moments, i + 1)
  }

  ghost function Import(n: Node, chain: seq<Block>, bad: set<Hash>, nonces: Nonces, moments: seq<Moment>)
    : (Node, Result)
    requires |chain| == |moments|
  {
    if !HeaderImport.Contiguous(HeadersOf(chain)) then (n, Failure(0, NotContiguous))
    else ImportFrom(n, chain, bad, nonces, 0, moments, 0)
  }

  /** Execution accepts no block that repeats a transaction of its path. */
  ghost predicate NoReplay(chain: seq<Block>, moments: seq<Moment>)
    requires |chain| == |moments|
  {
    forall i :: 0 <= i < |chain| && moments[i].processed ==> NoRepeat(Path(chain[i].header))
  }

  ghost function NodeOf(bc: BlockChain): Node
    reads bc
  {
    Node(bc.View(), bc.futureBlocks)
  }

  /** One pass through the loop, once the nonce is verified. */
  method HandleBlock(bc: BlockChain, block: Block, m: Moment, bad: set<Hash>) returns (outcome: Outcome)
    requires bc.Valid() && (m.processed ==> NoRepeat(Path(block.header)))
    modifies bc
    ensures bc.Valid()
    ensures (NodeOf(bc), outcome) == Handle(old(NodeOf(bc)), block, m, bad)
  {
    hide Judge, bc.StoreOk, Inv, PositiveDifficulty, IndexExact, NoRepeat, CanonAgrees, CanonStored, CanonUpTo, Path;
    hide HeadsFollow, Heavier, BodyMatches, Admissible, PassedUnder;
    var h := block.header;
    if Digest(h) in bad {
      return Failed(Blacklisted);
    }
    var v := ValidateBlock(bc, m, block);
    if v == KnownBlock {
      return Ignored;
    }
    if v == HeaderRefused(FutureBlock) {
      if h.time > m.nowAgain + MAX_TIME_FUTURE_BLOCKS {
        return Failed(TooFarAhead);
      }
      bc.Enqueue(block, m.evicted);
      return Queued;
    }
    if v == ParentUnknown && h.parentHash in bc.futureBlocks {
      bc.Enqueue(block, m.evicted);
      return Queued;
    }
    if v != BlockValid {
      return Failed(Rejected(v));
    }
    if !m.processed {
      return Failed(NotProcessed);
    }
    JudgedValid(bc.View(), m, block);
    var status := bc.InsertBlock(block, m.coin);
    outcome := Written;
  }

  /** For any chain of blocks and any world: the call does what `Import` says, and the chain stays valid.
      The write of a block that passed validation never fails. */
  method InsertChain(bc: BlockChain, chain: seq<Block>, bad: set<Hash>, nonces: Nonces, moments: seq<Moment>)
    returns (result: Result)
    requires bc.Valid() && |chain| == |moments| && NoReplay(chain, moments) && Complete(nonces, |chain|)
    modifies bc
    ensures bc.Valid()
    ensures (NodeOf(bc), result) == Import(old(NodeOf(bc)), chain, bad, nonces, moments)
  {
    hide bc.Valid, Handle, FirstBad, ReadUntil;
    var ordered := HeaderImport.CheckContiguous(HeadersOf(chain));
    if !ordered {
      return Failure(0, NotContiguous);
    }
    var k: nat := 0;
    var checked := seq(|chain|, _ => false);
    for i := 0 to |chain|
      invariant bc.Valid() && k <= |nonces| && |checked| == |chain|
      invariant forall j :: 0 <= j < |checked| ==> checked[j] == Arrived(nonces, k, j)
      invariant ImportFrom(NodeOf(bc), chain, bad, nonces, k, moments, i)
             == ImportFrom(old(NodeOf(bc)), chain, bad, nonces, 0, moments, 0)
    {
      if moments[i].interrupted {
        return Success;
      }
      var r, now, failed := AwaitNonce(nonces, k, i, checked);
      if failed.Some? {
        return Failure(failed.value, NonceRefused);
      }
      var outcome := HandleBlock(bc, chain[i], moments[i], bad);
      if outcome.Failed? {
        return Failure(i, outcome.reason);
      }
      k, checked := r, now;
    }
    result := Success;
  }

  // ----- what a call does -----

  /** The block at `i` passed every test of the call: nonce, blacklist, body, execution, and header and
      uncles under the environment of its own moment. */
  ghost predicate PassedAll(chain: seq<Block>, bad: set<Hash>, moments: seq<Moment>, powOk: Header -> bool, i: nat)
    requires i < |chain| == |moments|
  {
    var h := chain[i].header;
    && powOk(h) && Digest(h) !in bad && BodyMatches(chain[i]) && moments[i].processed
    && PassedUnder(moments[i].env, h)
  }

  /** What is new in the store came from the chain and passed every test. */
  ghost predicate OnlyPassed(before: Chain, after: Chain, chain: seq<Block>, bad: set<Hash>, moments: seq<Moment>,
                             powOk: Header -> bool)
    requires |chain| == |moments|
  {
    && after.genesis == before.genesis && before.stored <= after.stored
    && forall h :: h in after.stored && h !in before.stored ==>
         exists i :: 0 <= i < |chain| && chain[i].header == h && PassedAll(chain, bad, moments, powOk, i)
  }

  lemma HandleStores(n: Node, chain: seq<Block>, bad: set<Hash>, moments: seq<Moment>,
                     powOk: Header -> bool, seen: Env -> bool, i: nat)
    requires i < |chain| == |moments| && AllVerified(n.chain, seen)
    requires powOk(chain[i].header) && seen(moments[i].env)
    ensures
      var n' := Handle(n, chain[i], moments[i], bad).0;
      AllVerified(n'.chain, seen) && OnlyPassed(n.chain, n'.chain, chain, bad, moments, powOk)
  {
    hide Judge, AllVerified, PassedUnder, BodyMatches, Heavier, Admissible;
    var (n', outcome) := Handle(n, chain[i], moments[i], bad);
    if outcome == Written {
      JudgedValid(n.chain, moments[i], chain[i]);
      WriteKeepsVerified(n.chain, seen, moments[i].env, chain[i].header, moments[i].coin);
      assert PassedAll(chain, bad, moments, powOk, i);
    }
  }

  lemma OnlyPassedTrans(a: Chain, b: Chain, c: Chain, chain: seq<Block>, bad: set<Hash>, moments: seq<Moment>,
                        powOk: Header -> bool)
    requires |chain| == |moments|
    requires OnlyPassed(a, b, chain, bad, moments, powOk) && OnlyPassed(b, c, chain, bad, moments, powOk)
    ensures OnlyPassed(a, c, chain, bad, moments, powOk)
  {
    hide PassedAll;
  }

  lemma {:induction false} ImportFromStores(n: Node, chain: seq<Block>, bad: set<Hash>, nonces: Nonces, k: nat,
                                            moments: seq<Moment>, powOk: Header -> bool, seen: Env -> bool, i: nat)
    requires k <= |nonces| && i <= |chain| == |moments| && AllVerified(n.chain, seen) && Honest(nonces, chain, powOk)
    requires forall j :: 0 <= j < |moments| ==> seen(moments[j].env)
    requires forall p :: 0 <= p < k ==> nonces[p].1
    ensures
      var n' := ImportFrom(n, chain, bad, nonces, k, moments, i).0;
      AllVerified(n'.chain, seen) && OnlyPassed(n.chain, n'.chain, chain, bad, moments, powOk)
    decreases |chain| - i
  {
    hide AllVerified, OnlyPassed, Handle, Arrived, ReadUntil, FirstBad;
    OnlyPassedSame(n.chain, chain, bad, moments, powOk);
    if i < |chain| && !moments[i].interrupted {
      var r := ReadUntil(nonces, k, i);
      if FirstBad(nonces, k, r).None? {
        NonceVerified(nonces, chain, powOk, k, i);
        var (n', outcome) := Handle(n, chain[i], moments[i], bad);
        HandleStores(n, chain, bad, moments, powOk, seen, i);
        if !outcome.Failed? {
          ImportFromStores(n', chain, bad, nonces, r, moments, powOk, seen, i + 1);
          var last := ImportFrom(n', chain, bad, nonces, r, moments, i + 1).0;
          OnlyPassedTrans(n.chain, n'.chain, last.chain, chain, bad, moments, powOk);
        }
      }
    }
  }

  lemma OnlyPassedSame(c: Chain, chain: seq<Block>, bad: set<Hash>, moments: seq<Moment>, powOk: Header -> bool)
    requires |chain| == |moments|
    ensures OnlyPassed(c, c, chain, bad, moments, powOk)
  {
  }

  lemma NonceVerified(nonces: Nonces, chain: seq<Block>, powOk: Header -> bool, k: nat, i: nat)
    requires k <= |nonces| && i < |chain| && Honest(nonces, chain, powOk)
    requires forall p :: 0 <= p < k ==> nonces[p].1
    requires FirstBad(nonces, k, ReadUntil(nonces, k, i)).None?
    ensures powOk(chain[i].header)
    ensures forall p :: 0 <= p < ReadUntil(nonces, k, i) ==> nonces[p].1
  {
    hide ReadUntil, FirstBad;
    ReadUntilArrived(nonces, k, i);
  }

  /** Whatever the world does during the call: every block that it stores passed the nonce check, the
      blacklist, the body digests and execution, and header validation and uncle verification under the
      environment of its own moment; and nothing that was stored is lost. */
  lemma ImportStoresOnlyPassed(n: Node, chain: seq<Block>, bad: set<Hash>, nonces: Nonces, moments: seq<Moment>,
                               powOk: Header -> bool, seen: Env -> bool)
    requires |chain| == |moments| && AllVerified(n.chain, seen) && Honest(nonces, chain, powOk)
    requires forall j :: 0 <= j < |moments| ==> seen(moments[j].env)
    ensures
      var n' := Import(n, chain, bad, nonces, moments).0;
      AllVerified(n'.chain, seen) && OnlyPassed(n.chain, n'.chain, chain, bad, moments, powOk)
  {
    hide AllVerified, OnlyPassed, Honest;
    OnlyPassedSame(n.chain, chain, bad, moments, powOk);
    if HeaderImport.Contiguous(HeadersOf(chain)) {
      ImportFromStores(n, chain, bad, nonces, 0, moments, powOk, seen, 0);
    }
  }

  ghost predicate Accounted(n: Node, block: Block) {
    block.header in n.chain.stored || Digest(block.header) in n.future
  }

  lemma HandleAccounts(n: Node, block: Block, m: Moment, bad: set<Hash>)
    requires m.evicted == {}
    ensures
      var (n', outcome) := Handle(n, block, m, bad);
      && (!outcome.Failed? ==> Accounted(n', block))
      && forall b :: Accounted(n, b) ==> Accounted(n', b)
  {
  }

  lemma {:induction false} ImportFromAccounts(n: Node, chain: seq<Block>, bad: set<Hash>, nonces: Nonces, k: nat,
                                              moments: seq<Moment>, i: nat)
    requires k <= |nonces| && i <= |chain| == |moments|
    requires forall j :: 0 <= j < |moments| ==> moments[j].evicted == {} && !moments[j].interrupted
    ensures
      var (n', result) := ImportFrom(n, chain, bad, nonces, k, moments, i);
      && (result == Success ==> forall j :: i <= j < |chain| ==> Accounted(n', chain[j]))
      && forall b :: Accounted(n, b) ==> Accounted(n', b)
    decreases |chain| - i
  {
    hide Handle, Accounted, ReadUntil, FirstBad;
    if i < |chain| {
      var r := ReadUntil(nonces, k, i);
      if FirstBad(nonces, k, r).None? {
        HandleAccounts(n, chain[i], moments[i], bad);
        var (n', outcome) := Handle(n, chain[i], moments[i], bad);
        if !outcome.Failed? {
          ImportFromAccounts(n', chain, bad, nonces, r, moments, i + 1);
        }
      }
    }
  }

  /** A call that succeeds undisturbed has dropped no block: each is stored or waits in the queue. */
  lemma SuccessDropsNothing(n: Node, chain: seq<Block>, bad: set<Hash>, nonces: Nonces, moments: seq<Moment>)
    requires |chain| == |moments|
    requires forall j :: 0 <= j < |moments| ==> moments[j].evicted == {} && !moments[j].interrupted
    requires Import(n, chain, bad, nonces, moments).1 == Success
    ensures forall j :: 0 <= j < |chain| ==> Accounted(Import(n, chain, bad, nonces, moments).0, chain[j])
  {
    hide Accounted;
    ImportFromAccounts(n, chain, bad, nonces, 0, moments, 0);
  }

  // ----- over every run -----

  datatype InsertCall = InsertCall(chain: seq<Block>, bad: set<Hash>, nonces: Nonces, moments: seq<Moment>)

  predicate Paired(call: InsertCall) {
    |call.chain| == |call.moments|
  }

  ghost function RunCalls(n: Node, calls: seq<InsertCall>): Node
    requires forall i :: 0 <= i < |calls| ==> Paired(calls[i])
    decreases |calls|
  {
    if calls == [] then n
    else
      var last := calls[|calls| - 1];
      assert Paired(last);
      Import(RunCalls(n, calls[..|calls| - 1]), last.chain, last.bad, last.nonces, last.moments).0
  }

  /** The header is that of the block at `i` of the call, which passed every test there. */
  ghost predicate CameFrom(call: InsertCall, powOk: Header -> bool, h: Header, i: nat) {
    && Paired(call) && i < |call.chain| && call.chain[i].header == h
    && PassedAll(call.chain, call.bad, call.moments, powOk, i)
  }

  ghost predicate Came(calls: seq<InsertCall>, powOk: Header -> bool, h: Header) {
    exists t, i :: 0 <= t < |calls| && CameFrom(calls[t], powOk, h, i)
  }

  ghost predicate AllCame(c: Chain, calls: seq<InsertCall>, powOk: Header -> bool) {
    forall h :: h in c.stored && h != c.genesis ==> Came(calls, powOk, h)
  }

  lemma CameBefore(c: Chain, c': Chain, calls: seq<InsertCall>, powOk: Header -> bool)
    requires calls != [] && Paired(calls[|calls| - 1])
    requires AllCame(c, calls[..|calls| - 1], powOk)
    requires
      var last := calls[|calls| - 1];
      OnlyPassed(c, c', last.chain, last.bad, last.moments, powOk)
    ensures AllCame(c', calls, powOk)
  {
    hide PassedAll;
    var last := calls[|calls| - 1];
    forall h | h in c'.stored && h != c'.genesis
      ensures Came(calls, powOk, h)
    {
      if h in c.stored {
        assert Came(calls[..|calls| - 1], powOk, h);
        var t, i :| 0 <= t < |calls| - 1 && CameFrom(calls[..|calls| - 1][t], powOk, h, i);
        assert CameFrom(calls[t], powOk, h, i);
      } else {
        var i :| 0 <= i < |last.chain| && last.chain[i].header == h
                 && PassedAll(last.chain, last.bad, last.moments, powOk, i);
        assert CameFrom(last, powOk, h, i);
      }
    }
  }

  /** After any sequence of calls on a fresh chain, whatever the blocks and the world: the chain
      invariant holds, and every stored block but the first was offered in one of the calls and passed
      all its tests there, its nonce among them, and header and uncles under the environment of its own
      moment. */
  lemma {:induction false} EveryRunIsVerified(genesis: Header, calls: seq<InsertCall>,
                                              powOk: Header -> bool, seen: Env -> bool)
    requires IsGenesis(genesis) && forall t :: 0 <= t < |calls| ==> Paired(calls[t])
    requires forall t :: 0 <= t < |calls| ==> Honest(calls[t].nonces, calls[t].chain, powOk)
    requires forall t, j :: 0 <= t < |calls| && 0 <= j < |calls[t].moments| ==> seen(calls[t].moments[j].env)
    ensures
      var c := RunCalls(Node(Start(genesis), map[]), calls).chain;
      AllVerified(c, seen) && AllCame(c, calls, powOk)
    decreases |calls|
  {
    hide Honest, Import, Inv, PositiveDifficulty;
    if calls == [] {
      StartInv(genesis);
    } else {
      hide AllVerified, AllCame, OnlyPassed;
      var init, last := calls[..|calls| - 1], calls[|calls| - 1];
      EveryRunIsVerified(genesis, init, powOk, seen);
      var n := RunCalls(Node(Start(genesis), map[]), init);
      ImportStoresOnlyPassed(n, last.chain, last.bad, last.nonces, last.moments, powOk, seen);
      var n' := Import(n, last.chain, last.bad, last.nonces, last.moments).0;
      CameBefore(n.chain, n'.chain, calls, powOk);
    }
  }

  /** What that means for a stored block: it keeps the header rule under the clock and the configuration of
      the moment in which it was judged. In particular it was not ahead of that clock. */
  lemma StoredBlocksKeepTheRule(genesis: Header, calls: seq<InsertCall>, powOk: Header -> bool, seen: Env -> bool,
                                h: Header)
    returns (t: nat, i: nat)
    requires IsGenesis(genesis) && forall t :: 0 <= t < |calls| ==> Paired(calls[t])
    requires forall t :: 0 <= t < |calls| ==> Honest(calls[t].nonces, calls[t].chain, powOk)
    requires forall t, j :: 0 <= t < |calls| && 0 <= j < |calls[t].moments| ==> seen(calls[t].moments[j].env)
    requires h in RunCalls(Node(Start(genesis), map[]), calls).chain.stored && h != genesis
    ensures t < |calls| && CameFrom(calls[t], powOk, h, i) && h.parentHash.Digest?
    ensures HeaderRule(calls[t].moments[i].env, h, h.parentHash.header, false, false)
    ensures h.parentHash.header.time < h.time <= calls[t].moments[i].env.now && h.extraLength <= 32 && powOk(h)
  {
    hide HeaderRule, ValidateHeader, CheckBlock, Recent, Path, Import, Honest, AllVerified;
    EveryRunIsVerified(genesis, calls, powOk, seen);
    RunKeepsGenesis(Node(Start(genesis), map[]), calls);
    assert Came(calls, powOk, h);
    t, i :| 0 <= t < |calls| && 0 <= i && CameFrom(calls[t], powOk, h, i);
    var env := calls[t].moments[i].env;
    ValidHeaderIff(env, h, h.parentHash.header, false, false);
    RuleFacts(env, h, h.parentHash.header);
  }

  lemma RuleFacts(env: Env, h: Header, parent: Header)
    requires HeaderRule(env, h, parent, false, false)
    ensures parent.time < h.time <= env.now && h.extraLength <= 32
  {
  }

  lemma {:induction false} ImportFromKeepsGenesis(n: Node, chain: seq<Block>, bad: set<Hash>, nonces: Nonces, k: nat,
                                                  moments: seq<Moment>, i: nat)
    requires k <= |nonces| && i <= |chain| == |moments|
    ensures ImportFrom(n, chain, bad, nonces, k, moments, i).0.chain.genesis == n.chain.genesis
    decreases |chain| - i
  {
    hide Judge, FirstBad, ReadUntil;
    if i < |chain| && !moments[i].interrupted {
      var r := ReadUntil(nonces, k, i);
      var (n', outcome) := Handle(n, chain[i], moments[i], bad);
      ImportFromKeepsGenesis(n', chain, bad, nonces, r, moments, i + 1);
    }
  }

  lemma {:induction false} RunKeepsGenesis(n: Node, calls: seq<InsertCall>)
    requires forall t :: 0 <= t < |calls| ==> Paired(calls[t])
    ensures RunCalls(n, calls).chain.genesis == n.chain.genesis
    decreases |calls|
  {
    hide ImportFrom;
    if calls != [] {
      var init, last := calls[..|calls| - 1], calls[|calls| - 1];
      assert Paired(last);
      RunKeepsGenesis(n, init);
      ImportFromKeepsGenesis(RunCalls(n, init), last.chain, last.bad, last.nonces, 0, last.moments, 0);
    }
  }

  // ----- what becomes of each block -----

  predicate KnownWithState(m: Moment, stored: set<Header>, h: Header) {
    h in stored && m.hasState(h)
  }

  /** Nothing is missing: the parent is stored with its state, the body is the one the header commits to,
      header and uncles pass under the environment of the moment, and the block executes. */
  ghost predicate Storable(m: Moment, stored: set<Header>, block: Block) {
    && In(block.header.parentHash, stored) && m.hasState(block.header.parentHash.header)
    && BodyMatches(block) && PassedUnder(m.env, block.header) && m.processed
  }

  /** The parent is there, and the first thing wrong with the header is that it is ahead of the clock. */
  predicate AheadOfClock(m: Moment, stored: set<Header>, h: Header) {
    && FindsParent(m, stored, h) && m.hasState(h.parentHash.header)
    && h.extraLength <= 32 && h.time > m.env.now
  }

  /** The parent is missing, or its state is. */
  predicate Orphan(m: Moment, stored: set<Header>, h: Header) {
    !FindsParent(m, stored, h) || !m.hasState(h.parentHash.header)
  }

  lemma JudgeIff(m: Moment, stored: set<Header>, block: Block)
    ensures
      var h, v := block.header, Judge(m, stored, block);
      && (v == KnownBlock <==> KnownWithState(m, stored, h))
      && (v == ParentUnknown <==> !KnownWithState(m, stored, h) && Orphan(m, stored, h))
      && (v == HeaderRefused(FutureBlock) <==> !KnownWithState(m, stored, h) && AheadOfClock(m, stored, h))
      && (v == BlockValid && m.processed <==> !KnownWithState(m, stored, h) && Storable(m, stored, block))
  {
    hide CheckBlock, Recent, Path, CalcDifficulty;
    var h := block.header;
    if In(h.parentHash, stored) {
      var parent := h.parentHash.header;
      ValidHeaderIff(m.env, h, parent, false, false);
      RefusalNamesFirst(m.env, h, parent, false, false, 2);
    }
  }

  /** The other refusals, each with what was right before it. */
  lemma JudgeRefusals(m: Moment, stored: set<Header>, block: Block)
    requires !KnownWithState(m, stored, block.header) && !Orphan(m, stored, block.header)
    ensures
      var h := block.header;
      var parent := h.parentHash.header;
      var checked := ValidateHeader(m.env, h, parent, false, false);
      var uncles := CheckBlock(m.env, Recent(Path(parent), |Path(parent)|), h, parent, block.uncles);
      Judge(m, stored, block) ==
        if checked != Valid then HeaderRefused(checked)
        else if uncles != UnclesValid then UnclesRefused(uncles)
        else if BodyMatches(block) then BlockValid
        else if h.uncleHash == UncleDigest(block.uncles) then BadTxRoot else BadUncleRoot
  {
    hide CheckBlock, Recent, Path, ValidateHeader;
  }

  /** One block, in plain words. A blacklisted one fails. A known one with its state is skipped. One for which
      nothing is missing is written. One that is ahead of the clock waits in the queue, if by at most 30
      seconds, and so does one whose parent waits there. Any other fails, for not executing or for what validation
      found, and a failure changes nothing. */
  lemma HandleDecides(n: Node, block: Block, m: Moment, bad: set<Hash>)
    ensures
      var h, stored := block.header, n.chain.stored;
      var (n', outcome) := Handle(n, block, m, bad);
      var queued := n.(future := (n.future - m.evicted)[Digest(h) := block]);
      if Digest(h) in bad then outcome == Failed(Blacklisted) && n' == n
      else if KnownWithState(m, stored, h) then outcome == Ignored && n' == n
      else if Storable(m, stored, block) then
        outcome == Written && n' == Node(Write(n.chain, h, m.coin), n.future - {Digest(h)})
      else if AheadOfClock(m, stored, h) then
        if h.time <= m.nowAgain + 30 then outcome == Queued && n' == queued
        else outcome == Failed(TooFarAhead) && n' == n
      else if Orphan(m, stored, h) && h.parentHash in n.future then outcome == Queued && n' == queued
      else
        var v := Judge(m, stored, block);
        n' == n && outcome == Failed(if v == BlockValid then NotProcessed else Rejected(v))
  {
    hide Judge, Storable, Orphan, AheadOfClock, KnownWithState, Heavier;
    JudgeIff(m, n.chain.stored, block);
  }

  // ----- good chains get in -----

  predicate AllTrue(nonces: Nonces) {
    forall p :: 0 <= p < |nonces| ==> nonces[p].1
  }

  /** The block at `j` is not blacklisted and is stored with its state when its turn comes. */
  predicate Skipped(stored: set<Header>, chain: seq<Block>, bad: set<Hash>, moments: seq<Moment>, j: nat)
    requires j < |chain| == |moments|
  {
    Digest(chain[j].header) !in bad && KnownWithState(moments[j], stored, chain[j].header)
  }

  lemma {:induction false} ImportFromSkips(n: Node, chain: seq<Block>, bad: set<Hash>, nonces: Nonces, k: nat,
                                           moments: seq<Moment>, i: nat)
    requires k <= |nonces| && i <= |chain| == |moments| && AllTrue(nonces)
    requires forall j :: i <= j < |chain| ==> Skipped(n.chain.stored, chain, bad, moments, j)
    ensures ImportFrom(n, chain, bad, nonces, k, moments, i) == (n, Success)
    decreases |chain| - i
  {
    hide Handle, FirstBad, ReadUntil;
    if i < |chain| && !moments[i].interrupted {
      assert Skipped(n.chain.stored, chain, bad, moments, i);
      HandleDecides(n, chain[i], moments[i], bad);
      ImportFromSkips(n, chain, bad, nonces, ReadUntil(nonces, k, i), moments, i + 1);
    }
  }

  /** Offering what is already there succeeds and changes nothing. */
  lemma KnownChainIsSkipped(n: Node, chain: seq<Block>, bad: set<Hash>, nonces: Nonces, moments: seq<Moment>)
    requires |chain| == |moments| && AllTrue(nonces) && HeaderImport.Contiguous(HeadersOf(chain))
    requires forall j :: 0 <= j < |chain| ==> Skipped(n.chain.stored, chain, bad, moments, j)
    ensures Import(n, chain, bad, nonces, moments) == (n, Success)
  {
    ImportFromSkips(n, chain, bad, nonces, 0, moments, 0);
  }

  function Shift(result: Result, skip: nat): Result {
    match result
    case Success => Success
    case Failure(index, reason) => Failure(index + skip, reason)
  }

  /** With good nonces the rest of a chain fares as it would on its own. */
  lemma {:induction false} SuffixFaresAlike(n: Node, chain: seq<Block>, bad: set<Hash>, moments: seq<Moment>,
                                            skip: nat, i: nat,
                                            nonces: Nonces, k: nat, nonces': Nonces, k': nat)
    requires k <= |nonces| && k' <= |nonces'| && AllTrue(nonces) && AllTrue(nonces')
    requires skip <= i <= |chain| == |moments|
    ensures
      var (n1, r1) := ImportFrom(n, chain, bad, nonces, k, moments, i);
      var (n2, r2) := ImportFrom(n, chain[skip..], bad, nonces', k', moments[skip..], i - skip);
      n1 == n2 && r1 == Shift(r2, skip)
    decreases |chain| - i
  {
    hide Handle, FirstBad, ReadUntil;
    if i < |chain| && !moments[i].interrupted {
      var r, r' := ReadUntil(nonces, k, i), ReadUntil(nonces', k', i - skip);
      var (n', outcome) := Handle(n, chain[i], moments[i], bad);
      SuffixFaresAlike(n', chain, bad, moments, skip, i + 1, nonces, r, nonces', r');
    }
  }

  lemma {:induction false} PrefixIsSkipped(n: Node, chain: seq<Block>, bad: set<Hash>, nonces: Nonces, k: nat,
                                           moments: seq<Moment>, i: nat, skip: nat)
    returns (k': nat)
    requires k <= |nonces| && i <= skip <= |chain| == |moments| && AllTrue(nonces)
    requires forall j :: i <= j < skip ==> !moments[j].interrupted && Skipped(n.chain.stored, chain, bad, moments, j)
    ensures k' <= |nonces|
    ensures ImportFrom(n, chain, bad, nonces, k, moments, i) == ImportFrom(n, chain, bad, nonces, k', moments, skip)
    decreases skip - i
  {
    hide Handle, FirstBad, ReadUntil;
    if i < skip {
      assert Skipped(n.chain.stored, chain, bad, moments, i);
      HandleDecides(n, chain[i], moments[i], bad);
      k' := PrefixIsSkipped(n, chain, bad, nonces, ReadUntil(nonces, k, i), moments, i + 1, skip);
    } else {
      k' := k;
    }
  }

  /** A chain whose first `skip` blocks are known fares as the rest of it does on its own: the node ends up
      the same, and a failure is reported at the same block. */
  lemma KnownPrefixIsSkipped(n: Node, chain: seq<Block>, bad: set<Hash>, nonces: Nonces, nonces': Nonces,
                             moments: seq<Moment>, skip: nat)
    requires skip <= |chain| == |moments| && AllTrue(nonces) && AllTrue(nonces')
    requires HeaderImport.Contiguous(HeadersOf(chain))
    requires forall j :: 0 <= j < skip ==> !moments[j].interrupted && Skipped(n.chain.stored, chain, bad, moments, j)
    ensures
      var (n1, r1) := Import(n, chain, bad, nonces, moments);
      var (n2, r2) := Import(n, chain[skip..], bad, nonces', moments[skip..]);
      n1 == n2 && r1 == Shift(r2, skip)
  {
    hide ImportFrom, Skipped;
    var k' := PrefixIsSkipped(n, chain, bad, nonces, 0, moments, 0, skip);
    SuffixFaresAlike(n, chain, bad, moments, skip, skip, nonces, k', nonces', 0);
    SuffixIsContiguous(chain, skip);
  }

  lemma SuffixIsContiguous(chain: seq<Block>, skip: nat)
    requires skip <= |chain| && HeaderImport.Contiguous(HeadersOf(chain))
    ensures HeaderImport.Contiguous(HeadersOf(chain[skip..]))
  {
    var hs, ts := HeadersOf(chain), HeadersOf(chain[skip..]);
    assert forall i :: 0 <= i < |ts| ==> ts[i] == hs[i + skip];
  }

  /** Nothing is wrong with the block at `j` but that its parent may be missing. */
  ghost predicate Ready(chain: seq<Block>, bad: set<Hash>, moments: seq<Moment>, j: nat)
    requires j < |chain| == |moments|
  {
    var h, m := chain[j].header, moments[j];
    && !m.interrupted && Digest(h) !in bad && BodyMatches(chain[j]) && m.processed
    && PassedUnder(m.env, h) && h.parentHash.Digest? && m.hasState(h.parentHash.header)
  }

  lemma ReadyIsStored(n: Node, chain: seq<Block>, bad: set<Hash>, moments: seq<Moment>, i: nat)
    requires i < |chain| == |moments| && Ready(chain, bad, moments, i) && In(chain[i].header.parentHash, n.chain.stored)
    ensures
      var (n', outcome) := Handle(n, chain[i], moments[i], bad);
      !outcome.Failed? && n'.chain.stored == n.chain.stored + {chain[i].header}
  {
    hide Handle, PassedUnder, BodyMatches, Heavier;
    HandleDecides(n, chain[i], moments[i], bad);
  }

  ghost function HeadersFrom(chain: seq<Block>, i: nat): set<Header> {
    set j | i <= j < |chain| :: chain[j].header
  }

  lemma {:induction false} ImportFromStoresReady(n: Node, chain: seq<Block>, bad: set<Hash>, nonces: Nonces, k: nat,
                                                 moments: seq<Moment>, i: nat)
    requires k <= |nonces| && i <= |chain| == |moments| && AllTrue(nonces)
    requires HeaderImport.Contiguous(HeadersOf(chain))
    requires forall j :: i <= j < |chain| ==> Ready(chain, bad, moments, j)
    requires i < |chain| ==> In(chain[i].header.parentHash, n.chain.stored)
    ensures
      var (n', result) := ImportFrom(n, chain, bad, nonces, k, moments, i);
      result == Success && n'.chain.stored == n.chain.stored + HeadersFrom(chain, i)
    decreases |chain| - i
  {
    hide Handle, FirstBad, ReadUntil, PassedUnder, BodyMatches;
    if i < |chain| {
      assert Ready(chain, bad, moments, i);
      ReadyIsStored(n, chain, bad, moments, i);
      var (n', outcome) := Handle(n, chain[i], moments[i], bad);
      NextParent(chain, i);
      ImportFromStoresReady(n', chain, bad, nonces, ReadUntil(nonces, k, i), moments, i + 1);
      assert HeadersFrom(chain, i) == {chain[i].header} + HeadersFrom(chain, i + 1);
    } else {
      assert HeadersFrom(chain, i) == {};
    }
  }

  lemma NextParent(chain: seq<Block>, i: nat)
    requires i < |chain| && HeaderImport.Contiguous(HeadersOf(chain))
    ensures i + 1 < |chain| ==> chain[i + 1].header.parentHash == Digest(chain[i].header)
  {
    assert i + 1 < |chain| ==> HeadersOf(chain)[i + 1].parentHash == Digest(HeadersOf(chain)[i]);
  }

  /** A good chain gets in: when it hangs together, the parent of its first block is stored, and for each block
      the nonce is good, it is not blacklisted, body, header and uncles pass in its moment, the state of its
      parent is there and it executes, then the call succeeds and exactly its blocks are added. */
  lemma GoodChainIsStored(n: Node, chain: seq<Block>, bad: set<Hash>, nonces: Nonces, moments: seq<Moment>)
    requires |chain| == |moments| && AllTrue(nonces) && HeaderImport.Contiguous(HeadersOf(chain))
    requires forall j :: 0 <= j < |chain| ==> Ready(chain, bad, moments, j)
    requires chain != [] ==> In(chain[0].header.parentHash, n.chain.stored)
    ensures
      var (n', result) := Import(n, chain, bad, nonces, moments);
      result == Success && n'.chain.stored == n.chain.stored + HeadersFrom(chain, 0)
  {
    hide ImportFrom, Ready;
    ImportFromStoresReady(n, chain, bad, nonces, 0, moments, 0);
  }

  // ----- where a call stops -----

  /** The node after the first `i` blocks were handled. */
  ghost function NodeAfter(n: Node, chain: seq<Block>, bad: set<Hash>, moments: seq<Moment>, i: nat): Node
    requires i <= |chain| == |moments|
  {
    if i == 0 then n else Handle(NodeAfter(n, chain, bad, moments, i - 1), chain[i - 1], moments[i - 1], bad).0
  }

  /** The block at `j` was reached and was stored, skipped or queued. */
  ghost predicate WentWell(n: Node, chain: seq<Block>, bad: set<Hash>, moments: seq<Moment>, j: nat)
    requires j < |chain| == |moments|
  {
    !moments[j].interrupted && !Handle(NodeAfter(n, chain, bad, moments, j), chain[j], moments[j], bad).1.Failed?
  }

  /** What the result says about the block at which the call stopped. */
  ghost predicate StoppedAt(n: Node, chain: seq<Block>, bad: set<Hash>, nonces: Nonces, moments: seq<Moment>,
                            result: Result, stop: nat)
    requires stop <= |chain| == |moments|
  {
    match result
    case Success => stop == |chain| || moments[stop].interrupted
    case Failure(index, reason) =>
      && stop < |chain| && !moments[stop].interrupted
      && if reason == NonceRefused then exists p :: 0 <= p < |nonces| && nonces[p] == (index, false)
         else
           && index == stop
           && Handle(NodeAfter(n, chain, bad, moments, stop), chain[stop], moments[stop], bad).1 == Failed(reason)
  }

  lemma {:induction false} ImportFromStops(n0: Node, n: Node, chain: seq<Block>, bad: set<Hash>, nonces: Nonces, k: nat,
                                           moments: seq<Moment>, i: nat)
    returns (stop: nat)
    requires k <= |nonces| && i <= |chain| == |moments| && n == NodeAfter(n0, chain, bad, moments, i)
    requires forall j :: 0 <= j < i ==> WentWell(n0, chain, bad, moments, j)
    ensures i <= stop <= |chain| && forall j :: 0 <= j < stop ==> WentWell(n0, chain, bad, moments, j)
    ensures
      var (n', result) := ImportFrom(n, chain, bad, nonces, k, moments, i);
      n' == NodeAfter(n0, chain, bad, moments, stop) && StoppedAt(n0, chain, bad, nonces, moments, result, stop)
    decreases |chain| - i
  {
    hide Judge, Write, ReadUntil, FirstBad;
    stop := i;
    if i < |chain| && !moments[i].interrupted {
      var r := ReadUntil(nonces, k, i);
      if FirstBad(nonces, k, r).None? {
        var (n', outcome) := Handle(n, chain[i], moments[i], bad);
        if !outcome.Failed? {
          assert WentWell(n0, chain, bad, moments, i);
          stop := ImportFromStops(n0, n', chain, bad, nonces, r, moments, i + 1);
        }
      }
    }
  }

  /** A call handles the blocks in order and stops at one place: at the end, at a shutdown, or at a failure.
      All blocks before it were stored, skipped or queued, and nothing after it was touched. A failure names
      the block at which it stopped, with the reason for which that block fails; or a block that the nonce
      verifier refused. */
  lemma ImportStops(n: Node, chain: seq<Block>, bad: set<Hash>, nonces: Nonces, moments: seq<Moment>)
    returns (stop: nat)
    requires |chain| == |moments| && HeaderImport.Contiguous(HeadersOf(chain))
    ensures stop <= |chain| && forall j :: 0 <= j < stop ==> WentWell(n, chain, bad, moments, j)
    ensures
      var (n', result) := Import(n, chain, bad, nonces, moments);
      n' == NodeAfter(n, chain, bad, moments, stop) && StoppedAt(n, chain, bad, nonces, moments, result, stop)
  {
    hide ImportFrom, WentWell, StoppedAt;
    stop := ImportFromStops(n, n, chain, bad, nonces, 0, moments, 0);
  }

  lemma BrokenChainIsRefused(n: Node, chain: seq<Block>, bad: set<Hash>, nonces: Nonces, moments: seq<Moment>, j: nat)
    requires |chain| == |moments| && 0 < j < |chain|
    requires || chain[j].header.parentHash != Digest(chain[j - 1].header)
             || chain[j].header.number != chain[j - 1].header.number + 1
    ensures Import(n, chain, bad, nonces, moments) == (n, Failure(0, NotContiguous))
  {
    var hs := HeadersOf(chain);
    assert hs[j] == chain[j].header && hs[j - 1] == chain[j - 1].header;
  }

  /** Only blocks before the stop are stored. */
  lemma {:induction false} StoredBeforeStop(n: Node, chain: seq<Block>, bad: set<Hash>, moments: seq<Moment>,
                                            i: nat, h: Header)
    requires i <= |chain| == |moments|
    requires h in NodeAfter(n, chain, bad, moments, i).chain.stored && h !in n.chain.stored
    ensures exists j :: 0 <= j < i && chain[j].header == h
    decreases i
  {
    hide Judge, Heavier;
    if i > 0 {
      var before := NodeAfter(n, chain, bad, moments, i - 1);
      if h in before.chain.stored {
        StoredBeforeStop(n, chain, bad, moments, i - 1, h);
      } else {
        assert chain[i - 1].header == h;
      }
    }
  }
}
