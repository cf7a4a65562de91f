/**
 A run of valid blocks in which a short heavy branch takes over from a longer light one. It is where two
 things that one might expect of the block chain fail: the canonical map goes on above the new head,
 and the header head and the fast head stay behind it. Under the Homestead rules seven blocks that took
 a thousand seconds each weigh less than six that took a second each.
 */
module Takeover {
  import opened Options
  import opened ChainTypes
  import opened Consensus
  import opened HeaderRuns
  import opened Ancestor
  import opened TxIndex
  import opened BlockChain
  import opened Uncles
  import opened ChainInsert

  const GENESIS_DIFFICULTY := 1048576
  const SLOW := 1000
  const FAST := 1

  /** A Homestead node long after the blocks of the run. */
  function World(): Env {
    Env(Some(0), 0x1_0000_0000, (_: Header) => true, (_: Header) => true, (_: Header) => true)
  }

  /** The genesis block of the run. */
  predicate Suitable(g: Header) {
    && IsGenesis(g) && TxsOf(g) == []
    && g.difficulty == GENESIS_DIFFICULTY && g.gasLimit >= MIN_GAS_LIMIT && g.time == 0
  }

  function NextDifficulty(d: nat, gap: nat): nat {
    Max(d + d / DIFFICULTY_BOUND_DIVISOR * Max(1 - gap / 10, -99), MINIMUM_DIFFICULTY)
  }

  /** An empty block `gap` seconds after its parent. */
  function On(parent: Header, gap: nat, nonce: nat): Header {
    Header(Digest(parent), UncleDigest([]), TxDigest([]), 0, parent.number + 1, parent.time + gap,
           NextDifficulty(parent.difficulty, gap), parent.gasLimit, 0, 0, nonce)
  }

  /** A block of the run: near the start of the chain and of time, and without transactions before it. */
  ghost predicate Early(h: Header) {
    h.number < 100 && h.time <= h.number * SLOW && h.gasLimit >= MIN_GAS_LIMIT && Plain(Path(h))
  }

  ghost predicate Plain(path: seq<Header>) {
    forall i :: 0 <= i < |path| ==> TxsOf(path[i]) == []
  }

  lemma PlainHasNoRepeat(path: seq<Header>)
    requires Plain(path)
    ensures NoRepeat(path)
  {
  }

  /** The block passes header validation and, having no uncles, uncle verification. */
  lemma {:induction false} OnPasses(parent: Header, gap: nat, nonce: nat)
    requires Early(parent) && 0 < gap <= SLOW
    ensures PassedUnder(World(), On(parent, gap, nonce))
  {
    hide Path, UnclesOfAll, SetOf, Recent, ValidateHeader;
    OnIsValid(parent, gap, nonce);
  }

  lemma {:induction false} OnIsValid(parent: Header, gap: nat, nonce: nat)
    requires Early(parent) && 0 < gap <= SLOW
    ensures ValidateHeader(World(), On(parent, gap, nonce), parent, false, false) == Valid
  {
    hide Path, Plain, CalcDifficulty, NextDifficulty;
    var h := On(parent, gap, nonce);
    assert Uint64(h.time) == h.time && Uint64(parent.time) == parent.time;
    DifficultyIsNext(parent.time, gap, parent.number, parent.difficulty);
  }

  lemma DifficultyIsNext(time: nat, gap: nat, number: nat, d: nat)
    requires number < 100
    ensures CalcDifficulty(World(), time + gap, time, number, d) == NextDifficulty(d, gap)
  {
    assert Bomb(number) == 0;
    assert time + gap - time == gap;
  }

  /** And it is acceptable to `InsertBlock`. */
  lemma {:induction false} OnIsInsertable(c: Chain, parent: Header, gap: nat, nonce: nat)
    requires Early(parent) && parent.number < 99 && gap <= SLOW
    ensures
      var h := On(parent, gap, nonce);
      && BodyMatches(BlockOf(h)) && Admissible(c, h) && NoRepeat(Path(h)) && Early(h)
      && Path(h) == Path(parent) + [h] && TotalDifficulty(h) == TotalDifficulty(parent) + h.difficulty
  {
    hide NextDifficulty, NoRepeat;
    var h := On(parent, gap, nonce);
    assert NextDifficulty(parent.difficulty, gap) >= MINIMUM_DIFFICULTY by { DifficultyFloor(parent.difficulty, gap); }
    PlainHasNoRepeat(Path(h));
  }

  lemma DifficultyFloor(d: nat, gap: nat)
    ensures NextDifficulty(d, gap) >= MINIMUM_DIFFICULTY
  {
  }

  // ----- the weights of the two branches -----

  function DifficultyAfter(gap: nat, n: nat): nat {
    if n == 0 then GENESIS_DIFFICULTY else NextDifficulty(DifficultyAfter(gap, n - 1), gap)
  }

  function WeightAfter(gap: nat, n: nat): nat {
    if n == 0 then GENESIS_DIFFICULTY else WeightAfter(gap, n - 1) + DifficultyAfter(gap, n)
  }

  lemma SlowWeight()
    ensures WeightAfter(SLOW, 7) == GENESIS_DIFFICULTY + 6050755
  {
    assert DifficultyAfter(SLOW, 1) == 997888;
    assert DifficultyAfter(SLOW, 2) == 949675;
    assert DifficultyAfter(SLOW, 3) == 903838;
    assert DifficultyAfter(SLOW, 4) == 860179;
    assert DifficultyAfter(SLOW, 5) == 818599;
    assert DifficultyAfter(SLOW, 6) == 779098;
    assert DifficultyAfter(SLOW, 7) == 741478;
    assert WeightAfter(SLOW, 3) == GENESIS_DIFFICULTY + 2851401;
    assert WeightAfter(SLOW, 6) == GENESIS_DIFFICULTY + 5309277;
  }

  /** Each fast block gains one step of 1/2048. */
  lemma FastWeight()
    ensures WeightAfter(FAST, 6) == GENESIS_DIFFICULTY + 6302211
    ensures forall n :: 0 <= n < 6 ==> WeightAfter(FAST, n) < GENESIS_DIFFICULTY + 6050755
  {
    assert DifficultyAfter(FAST, 1) == 1049088;
    assert DifficultyAfter(FAST, 2) == 1049600;
    assert DifficultyAfter(FAST, 3) == 1050112;
    assert DifficultyAfter(FAST, 4) == 1050624;
    assert DifficultyAfter(FAST, 5) == 1051137;
    assert DifficultyAfter(FAST, 6) == 1051650;
    assert WeightAfter(FAST, 3) == GENESIS_DIFFICULTY + 3148800;
    assert WeightAfter(FAST, 5) == GENESIS_DIFFICULTY + 5250561;
    forall n | 0 <= n < 6
      ensures WeightAfter(FAST, n) < GENESIS_DIFFICULTY + 6050755
    {
      WeightGrows(FAST, n, 5);
    }
  }

  lemma {:induction false} WeightGrows(gap: nat, m: nat, n: nat)
    requires m <= n
    ensures WeightAfter(gap, m) <= WeightAfter(gap, n)
    decreases n - m
  {
    if m < n {
      WeightGrows(gap, m, n - 1);
    }
  }

  lemma {:induction false} WeightGrowsStrictly(gap: nat, n: nat)
    ensures WeightAfter(gap, n) < WeightAfter(gap, n + 1)
  {
    DifficultyFloor(DifficultyAfter(gap, n), gap);
  }

  // ----- the run -----

  /** `h` is the block number `n` of a branch from `g` whose blocks are `gap` seconds apart. */
  ghost predicate Tip(g: Header, gap: nat, nonce: nat, n: nat, h: Header) {
    && Early(h) && Linked(h) && h.number == n
    && |Path(h)| == n + 1 && Path(h)[0] == g && (n > 0 ==> Path(h)[1].nonce == nonce)
    && h.difficulty == DifficultyAfter(gap, n) && TotalDifficulty(h) == WeightAfter(gap, n)
  }

  lemma GenesisIsTip(g: Header, gap: nat, nonce: nat)
    requires Suitable(g)
    ensures Tip(g, gap, nonce, 0, g)
  {
    assert Path(g) == [g];
  }

  lemma {:induction false} OnIsTip(c: Chain, g: Header, gap: nat, nonce: nat, n: nat, parent: Header)
    requires Tip(g, gap, nonce, n, parent) && n < 99 && gap <= SLOW
    ensures Tip(g, gap, nonce, n + 1, On(parent, gap, nonce))
  {
    hide NextDifficulty, NoRepeat;
    OnIsInsertable(c, parent, gap, nonce);
  }

  /** Every block but the first passed validation. */
  ghost predicate AllPassed(g: Header, stored: set<Header>) {
    forall h :: h in stored && h != g ==> PassedUnder(World(), h)
  }

  /** Insert the next block of a branch; at equal weight the coin is against it. */
  method Grow(bc: BlockChain, ghost g: Header, gap: nat, nonce: nat, ghost n: nat, parent: Header) returns (h: Header)
    requires bc.Valid() && parent in bc.stored && AllPassed(g, bc.stored)
    requires Tip(g, gap, nonce, n, parent) && n < 99 && 0 < gap <= SLOW
    modifies bc
    ensures bc.Valid() && bc.stored == old(bc.stored) + {h} && AllPassed(g, bc.stored)
    ensures Tip(g, gap, nonce, n + 1, h) && h.parentHash == Digest(parent)
    ensures if WeightAfter(gap, n + 1) > TotalDifficulty(old(bc.currentBlock.header))
            then && bc.currentBlock.header == h && bc.top == Higher(old(bc.top), n + 1)
                 && HeadsFollow(old(bc.currentBlock.header), h, bc.currentHeader, bc.currentFastBlock)
            else bc.currentBlock.header == old(bc.currentBlock.header) && bc.top == old(bc.top)
  {
    hide NoRepeat, IndexExact, HeadsFollow, Path;
    hide TotalDifficulty, bc.ChainOk, PassedUnder, WeightAfter, DifficultyAfter;
    h := On(parent, gap, nonce);
    OnPasses(parent, gap, nonce);
    OnIsInsertable(bc.View(), parent, gap, nonce);
    OnIsTip(bc.View(), g, gap, nonce, n, parent);
    hide On;
    var _ := bc.InsertBlock(BlockOf(h), false);
  }

  method GrowSlow(bc: BlockChain, g: Header) returns (a: Header)
    requires Suitable(g) && bc.Valid() && bc.View() == Start(g) && bc.top == 0
    modifies bc
    ensures bc.Valid() && AllPassed(g, bc.stored) && g in bc.stored
    ensures bc.currentBlock.header == a && bc.top == 7 && Tip(g, SLOW, 0, 7, a)
  {
    hide Tip, HeadsFollow, WeightAfter, TotalDifficulty, PassedUnder, bc.Valid;
    a := g;
    GenesisIsTip(g, SLOW, 0);
    for n := 0 to 7
      invariant bc.Valid() && AllPassed(g, bc.stored) && g in bc.stored && a in bc.stored
      invariant bc.currentBlock.header == a && bc.top == n && Tip(g, SLOW, 0, n, a)
    {
      WeightGrowsStrictly(SLOW, n);
      TipWeight(g, SLOW, 0, n, a);
      a := Grow(bc, g, SLOW, 0, n, a);
    }
  }

  lemma {:induction false} TipWeight(g: Header, gap: nat, nonce: nat, n: nat, h: Header)
    requires Tip(g, gap, nonce, n, h)
    ensures TotalDifficulty(h) == WeightAfter(gap, n)
  {
  }

  method GrowFast(bc: BlockChain, g: Header, ghost a: Header) returns (b: Header)
    requires Suitable(g) && bc.Valid() && AllPassed(g, bc.stored) && g in bc.stored
    requires bc.currentBlock.header == a && bc.top == 7 && Tip(g, SLOW, 0, 7, a)
    modifies bc
    ensures bc.Valid() && AllPassed(g, bc.stored)
    ensures bc.currentBlock.header == b && bc.top == 7 && Tip(g, FAST, 1, 6, b)
    ensures HeadsFollow(a, b, bc.currentHeader, bc.currentFastBlock)
  {
    hide Tip, HeadsFollow, WeightAfter, TotalDifficulty, PassedUnder, bc.Valid;
    b := g;
    GenesisIsTip(g, FAST, 1);
    SlowWeight();
    FastWeight();
    TipWeight(g, SLOW, 0, 7, a);
    for n := 0 to 5
      invariant bc.Valid() && AllPassed(g, bc.stored) && b in bc.stored
      invariant bc.currentBlock.header == a && bc.top == 7 && Tip(g, FAST, 1, n, b)
    {
      b := Grow(bc, g, FAST, 1, n, b);
    }
    b := Grow(bc, g, FAST, 1, 5, b);
  }

  /** Seven slow blocks, then six fast ones, all of them valid: number 7 stays canonical above head 6, and
      the other two heads stay at block 1 of the new branch. */
  method SlowThenFast(g: Header) returns (bc: BlockChain)
    requires Suitable(g)
    ensures fresh(bc) && bc.Valid() && AllPassed(g, bc.stored)
    ensures bc.currentBlock.header.number == 6 && 7 in bc.db.canon && bc.db.canon != CanonOf(bc.currentBlock.header)
    ensures bc.currentHeader.number == 1 && bc.currentFastBlock.header.number == 1
  {
    hide HeadsFollow, Path, TotalDifficulty, CanonOf, PassedUnder, bc.Valid, Linked, WeightAfter, DifficultyAfter;
    bc := new BlockChain(g);
    var a := GrowSlow(bc, g);
    var b := GrowFast(bc, g, a);
    bc.HeadBelowTop();
    BranchesApart(g, a, b, bc.currentHeader, bc.currentFastBlock);
  }

  /** Branches that part at the genesis block leave the other two heads at number 1 of the new one. */
  lemma {:induction false} BranchesApart(g: Header, a: Header, b: Header, header: Header, fast: Block)
    requires Tip(g, SLOW, 0, 7, a) && Tip(g, FAST, 1, 6, b) && HeadsFollow(a, b, header, fast)
    ensures header == Path(b)[1] && fast == BlockOf(header) && header.number == 1
  {
    hide HeadsFollow, Path, TotalDifficulty, WeightAfter, DifficultyAfter, Plain, Linked;
    PathIndexing(a);
    PathIndexing(b);
    PathStep(b, 6);
    assert OnPath(a, g) && OnPath(b, g);
    forall n | 0 < n < 7
      ensures Path(a)[n] != Path(b)[n]
    {
      if Path(a)[n] == Path(b)[n] {
        SharedAncestorSharesPrefix(a, b, n);
      }
    }
    assert DifferAbove(a, b, 0);
    MeetingPointIsLast(a, b, g);
    HeadsAtFirst(a, b, g, header, fast);
  }

  lemma {:induction false} HeadsAtFirst(a: Header, b: Header, c: Header, header: Header, fast: Block)
    requires HeadsFollow(a, b, header, fast) && b.parentHash != Digest(a)
    requires IsLastCommon(a, b, c) && c.number + 1 < |Path(b)|
    ensures header == Path(b)[c.number + 1] && fast == BlockOf(header)
  {
    hide IsLastCommon, Path;
  }
}
