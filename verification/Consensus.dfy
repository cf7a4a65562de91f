/**
 Header validation, difficulty adjustment and the miner's gas limit rule
 (section 4.3.4 "Block Header Validity" of the Ethereum Yellow Paper; EIP-2 for Homestead).

 Go's `big.Int.Div` is Euclidean, as is Dafny's `/`. `Uint64` truncates to 64 bits.
 */
module Consensus {
  import opened Options
  import opened ChainTypes

  const MAXIMUM_EXTRA_DATA_SIZE := 32
  const DIFFICULTY_BOUND_DIVISOR := 2048
  const MINIMUM_DIFFICULTY := 131072
  const DURATION_LIMIT := 13
  const EXP_DIFF_PERIOD := 100000
  const MIN_GAS_LIMIT := 5000
  const GAS_LIMIT_BOUND_DIVISOR := 1024
  const MAX_BIG := 0xffff_ffff_ffff_ffff_ffff_ffff_ffff_ffff_ffff_ffff_ffff_ffff_ffff_ffff_ffff_ffff
  const TWO_TO_THE_64 := 0x1_0000_0000_0000_0000

  /** What validation reads besides its arguments: the chain configuration, the clock, the
      proof-of-work verifier and the two hard-fork checks. */
  datatype Env = Env(
    homesteadBlock: Option<nat>,
    now: nat,
    powOk: Header -> bool,
    daoExtraOk: Header -> bool,
    eip150HashOk: Header -> bool)

  datatype Verdict =
    | Valid
    | ExtraTooLong
    | TimeTooBig
    | FutureBlock
    | EqualTime
    | BadDifficulty
    | BadGasLimit
    | BadNumber
    | BadNonce
    | BadDaoExtra
    | BadForkHash
    | UnknownParent

  function Max(x: int, y: int): int {
    if x < y then y else x
  }

  function Min(x: int, y: int): int {
    if x > y then y else x
  }

  function Abs(x: int): nat {
    if x < 0 then -x else x
  }

  function Uint64(x: nat): nat {
    x % TWO_TO_THE_64
  }

  function Pow2(n: nat): (p: nat)
    ensures p >= 1
  {
    if n == 0 then 1 else 2 * Pow2(n - 1)
  }

  /** Times are cut to 64 bits for the difficulty, and those of uncles may not exceed 256 bits. */
  lemma WordSizes(x: nat)
    ensures x < TWO_TO_THE_64 ==> Uint64(x) == x
    ensures Uint64(x + TWO_TO_THE_64) == Uint64(x) < TWO_TO_THE_64
    ensures TWO_TO_THE_64 == 4294967296 * 4294967296
    ensures MAX_BIG + 1 == TWO_TO_THE_64 * TWO_TO_THE_64 * TWO_TO_THE_64 * TWO_TO_THE_64
  {
  }

  // ----- difficulty -----

  /** The exponential factor, zero during the first two periods. */
  function Bomb(parentNumber: nat): nat {
    var periodCount := (parentNumber + 1) / EXP_DIFF_PERIOD;
    if periodCount > 1 then Pow2(periodCount - 2) else 0
  }

  function CalcDifficultyHomestead(time: nat, parentTime: nat, parentNumber: nat, parentDiff: nat): int {
    var x := Max(1 - (time - parentTime) / 10, -99);
    Max(parentDiff + parentDiff / DIFFICULTY_BOUND_DIVISOR * x, MINIMUM_DIFFICULTY) + Bomb(parentNumber)
  }

  function CalcDifficultyFrontier(time: nat, parentTime: nat, parentNumber: nat, parentDiff: nat): int {
    var adjust := parentDiff / DIFFICULTY_BOUND_DIVISOR;
    var diff := if time - parentTime < DURATION_LIMIT then parentDiff + adjust else parentDiff - adjust;
    var floored := Max(diff, MINIMUM_DIFFICULTY);
    if (parentNumber + 1) / EXP_DIFF_PERIOD > 1
    then Max(floored + Bomb(parentNumber), MINIMUM_DIFFICULTY)
    else floored
  }

  predicate IsHomestead(env: Env, number: nat) {
    env.homesteadBlock.Some? && number >= env.homesteadBlock.value
  }

  function CalcDifficulty(env: Env, time: nat, parentTime: nat, parentNumber: nat, parentDiff: nat): int {
    if IsHomestead(env, parentNumber + 1)
    then CalcDifficultyHomestead(time, parentTime, parentNumber, parentDiff)
    else CalcDifficultyFrontier(time, parentTime, parentNumber, parentDiff)
  }

  /** In both forms the difficulty stays at or above the minimum, falls short of the parent's by no
      more than 99/2048, and grows past it by no more than 1/2048 (bomb apart) when time moved on. */
  lemma DifficultyBounds(env: Env, time: nat, parentTime: nat, parentNumber: nat, parentDiff: nat)
    ensures
      var d := CalcDifficulty(env, time, parentTime, parentNumber, parentDiff);
      var step := parentDiff / DIFFICULTY_BOUND_DIVISOR;
      && d >= MINIMUM_DIFFICULTY + Bomb(parentNumber)
      && d >= parentDiff - 99 * step + Bomb(parentNumber)
      && (parentTime <= time ==> d <= Max(parentDiff + step, MINIMUM_DIFFICULTY) + Bomb(parentNumber))
  {
    var step := parentDiff / DIFFICULTY_BOUND_DIVISOR;
    var x := Max(1 - (time - parentTime) / 10, -99);
    MulMonotone(step, -99, x);
    if parentTime <= time {
      MulMonotone(step, x, 1);
    }
  }

  /** A later block never has the higher difficulty. */
  lemma DifficultyFallsWithTime(env: Env, early: nat, late: nat, parentTime: nat, parentNumber: nat, parentDiff: nat)
    requires early <= late
    ensures CalcDifficulty(env, late, parentTime, parentNumber, parentDiff)
         <= CalcDifficulty(env, early, parentTime, parentNumber, parentDiff)
  {
    var step := parentDiff / DIFFICULTY_BOUND_DIVISOR;
    MulMonotone(step,
                Max(1 - (late - parentTime) / 10, -99),
                Max(1 - (early - parentTime) / 10, -99));
  }

  /** Homestead, from the fork block on: within ten seconds the difficulty gains one step of 1/2048; every
      ten seconds more cost one step, up to the hundredth, and never below the minimum. */
  lemma HomesteadPace(env: Env, parentTime: nat, gap: nat, parentNumber: nat, parentDiff: nat)
    requires env.homesteadBlock.Some? && env.homesteadBlock.value <= parentNumber + 1
    requires parentDiff >= 131072
    ensures
      var bomb := Bomb(parentNumber);
      var d := CalcDifficulty(env, parentTime + gap, parentTime, parentNumber, parentDiff) - bomb;
      var later := CalcDifficulty(env, parentTime + gap + 10, parentTime, parentNumber, parentDiff) - bomb;
      && (gap < 10 ==> d == parentDiff + parentDiff / 2048)
      && (gap < 1000 ==> later == Max(d - parentDiff / 2048, 131072))
      && (gap >= 1000 ==> later == d)
  {
    hide CalcDifficultyHomestead, CalcDifficultyFrontier, Bomb;
    var step := parentDiff / 2048;
    HomesteadForm(parentTime, gap, parentNumber, parentDiff);
    HomesteadForm(parentTime, gap + 10, parentNumber, parentDiff);
    var x, y := Max(1 - gap / 10, -99), Max(1 - (gap + 10) / 10, -99);
    if gap < 1000 {
      assert y == x - 1;
      assert step * y == step * x - step;
    }
  }

  lemma HomesteadForm(parentTime: nat, gap: nat, parentNumber: nat, parentDiff: nat)
    ensures CalcDifficultyHomestead(parentTime + gap, parentTime, parentNumber, parentDiff)
         == Max(parentDiff + parentDiff / 2048 * Max(1 - gap / 10, -99), 131072) + Bomb(parentNumber)
  {
    assert parentTime + gap - parentTime == gap;
  }

  /** Frontier, before the fork block or without one: below thirteen seconds the difficulty gains one step,
      from there on it loses one, and never goes below the minimum. */
  lemma FrontierPace(env: Env, parentTime: nat, gap: nat, parentNumber: nat, parentDiff: nat)
    requires env.homesteadBlock.None? || parentNumber + 1 < env.homesteadBlock.value
    requires parentDiff >= 131072
    ensures
      var d := CalcDifficulty(env, parentTime + gap, parentTime, parentNumber, parentDiff) - Bomb(parentNumber);
      && (gap < 13 ==> d == parentDiff + parentDiff / 2048)
      && (gap >= 13 ==> d == Max(parentDiff - parentDiff / 2048, 131072))
  {
    assert parentTime + gap - parentTime == gap;
  }

  /** The bomb: nothing for the children numbered below 200000, one there, and twice as much with every
      100000 blocks. */
  lemma BombPace(parentNumber: nat)
    ensures parentNumber + 1 < 200000 ==> Bomb(parentNumber) == 0
    ensures Bomb(199999) == 1
    ensures parentNumber + 1 >= 200000 ==> Bomb(parentNumber + 100000) == 2 * Bomb(parentNumber)
    ensures (parentNumber + 1) % 100000 != 0 && parentNumber > 0 ==> Bomb(parentNumber) == Bomb(parentNumber - 1)
  {
    var n := parentNumber + 1;
    assert (n + 100000) / 100000 == n / 100000 + 1;
    if n % 100000 != 0 && parentNumber > 0 {
      assert n / 100000 == (n - 1) / 100000;
    }
  }

  lemma MulMonotone(k: nat, x: int, y: int)
    requires x <= y
    ensures k * x <= k * y
  {
    assert k * y - k * x == k * (y - x);
  }

  // ----- header validation -----

  predicate GasLimitOk(parentLimit: nat, limit: int) {
    && Abs(parentLimit - limit) < parentLimit / GAS_LIMIT_BOUND_DIVISOR
    && limit >= MIN_GAS_LIMIT
  }

  function ValidateHeader(env: Env, header: Header, parent: Header, checkPow: bool, uncle: bool): Verdict {
    if header.extraLength > MAXIMUM_EXTRA_DATA_SIZE then ExtraTooLong
    else if uncle && header.time > MAX_BIG then TimeTooBig
    else if !uncle && header.time > env.now then FutureBlock
    else if header.time <= parent.time then EqualTime
    else if CalcDifficulty(env, Uint64(header.time), Uint64(parent.time), parent.number, parent.difficulty)
            != header.difficulty then BadDifficulty
    else if !GasLimitOk(parent.gasLimit, header.gasLimit) then BadGasLimit
    else if header.number - parent.number != 1 then BadNumber
    else if checkPow && !env.powOk(header) then BadNonce
    else if !env.daoExtraOk(header) then BadDaoExtra
    else if !uncle && !env.eip150HashOk(header) then BadForkHash
    else Valid
  }

  /** What acceptance gives the chain code: the number of the child and a positive difficulty. */
  lemma ValidHeaderFacts(env: Env, header: Header, parent: Header, checkPow: bool, uncle: bool)
    requires ValidateHeader(env, header, parent, checkPow, uncle) == Valid
    ensures header.number == parent.number + 1
    ensures header.difficulty >= MINIMUM_DIFFICULTY
    ensures header.gasLimit >= MIN_GAS_LIMIT
    ensures header.time > parent.time
  {
    DifficultyBounds(env, Uint64(header.time), Uint64(parent.time), parent.number, parent.difficulty);
  }

  /** What a valid header is, whatever the order in which the code looks: at most 32 bytes of extra data;
      later than its parent and not later than the clock (an uncle only not beyond 256 bits); the difficulty
      that follows from its parent; a gas limit of at least 5000 and less than 1/1024 away from its
      parent's; the next number; a proof of work, if that is checked; and the marks of the two forks. */
  ghost predicate HeaderRule(env: Env, header: Header, parent: Header, checkPow: bool, uncle: bool) {
    && header.extraLength <= 32
    && parent.time < header.time <= (if uncle then MAX_BIG else env.now)
    && header.difficulty
       == CalcDifficulty(env, Uint64(header.time), Uint64(parent.time), parent.number, parent.difficulty)
    && header.gasLimit >= 5000
    && 1024 * (header.gasLimit - parent.gasLimit + 1) <= parent.gasLimit
    && 1024 * (parent.gasLimit - header.gasLimit + 1) <= parent.gasLimit
    && header.number == parent.number + 1
    && (checkPow ==> env.powOk(header))
    && env.daoExtraOk(header)
    && (uncle || env.eip150HashOk(header))
  }

  /** Validation accepts exactly those. */
  lemma ValidHeaderIff(env: Env, header: Header, parent: Header, checkPow: bool, uncle: bool)
    ensures ValidateHeader(env, header, parent, checkPow, uncle) == Valid <==>
      HeaderRule(env, header, parent, checkPow, uncle)
  {
    hide CalcDifficulty;
    BelowQuotient(Abs(parent.gasLimit - header.gasLimit), parent.gasLimit);
  }

  lemma BelowQuotient(x: nat, n: nat)
    ensures x < n / 1024 <==> 1024 * (x + 1) <= n
  {
  }

  /** The rule that a refusal names is broken. */
  predicate Breaks(env: Env, header: Header, parent: Header, checkPow: bool, uncle: bool, v: Verdict) {
    match v
    case Valid => false
    case ExtraTooLong => header.extraLength > 32
    case TimeTooBig => uncle && header.time > MAX_BIG
    case FutureBlock => !uncle && header.time > env.now
    case EqualTime => header.time <= parent.time
    case BadDifficulty =>
      header.difficulty
      != CalcDifficulty(env, Uint64(header.time), Uint64(parent.time), parent.number, parent.difficulty)
    case BadGasLimit =>
      || header.gasLimit < 5000
      || 1024 * (header.gasLimit - parent.gasLimit + 1) > parent.gasLimit
      || 1024 * (parent.gasLimit - header.gasLimit + 1) > parent.gasLimit
    case BadNumber => header.number != parent.number + 1
    case BadNonce => checkPow && !env.powOk(header)
    case BadDaoExtra => !env.daoExtraOk(header)
    case BadForkHash => !uncle && !env.eip150HashOk(header)
    case UnknownParent => false
  }

  /** The order in which rules are looked at. */
  const ORDER := [ExtraTooLong, TimeTooBig, FutureBlock, EqualTime, BadDifficulty, BadGasLimit, BadNumber, BadNonce,
                  BadDaoExtra, BadForkHash]

  /** A refusal names the first rule in that order that is broken. */
  lemma RefusalNamesFirst(env: Env, header: Header, parent: Header, checkPow: bool, uncle: bool, k: nat)
    requires k < |ORDER|
    ensures ValidateHeader(env, header, parent, checkPow, uncle) == ORDER[k] <==>
      && Breaks(env, header, parent, checkPow, uncle, ORDER[k])
      && forall j :: 0 <= j < k ==> !Breaks(env, header, parent, checkPow, uncle, ORDER[j])
  {
    hide CalcDifficulty;
    BelowQuotient(Abs(parent.gasLimit - header.gasLimit), parent.gasLimit);
    var v := ValidateHeader(env, header, parent, checkPow, uncle);
    if v != Valid {
      var i := RankOf(env, header, parent, checkPow, uncle);
    }
  }

  /** Where the verdict stands in the order. */
  lemma RankOf(env: Env, header: Header, parent: Header, checkPow: bool, uncle: bool) returns (i: nat)
    requires ValidateHeader(env, header, parent, checkPow, uncle) != Valid
    ensures i < |ORDER| && ORDER[i] == ValidateHeader(env, header, parent, checkPow, uncle)
    ensures Breaks(env, header, parent, checkPow, uncle, ORDER[i])
    ensures forall j :: 0 <= j < i ==> !Breaks(env, header, parent, checkPow, uncle, ORDER[j])
  {
    hide CalcDifficulty;
    BelowQuotient(Abs(parent.gasLimit - header.gasLimit), parent.gasLimit);
    var v := ValidateHeader(env, header, parent, checkPow, uncle);
    i := if v == ExtraTooLong then 0
    else if v == TimeTooBig then 1
    else if v == FutureBlock then 2
    else if v == EqualTime then 3
    else if v == BadDifficulty then 4
    else if v == BadGasLimit then 5
    else if v == BadNumber then 6
    else if v == BadNonce then 7
    else if v == BadDaoExtra then 8
    else 9;
  }

  /** The header passed validation as a child of the parent, under some clock and configuration. */
  ghost predicate Accepted(header: Header, parent: Header) {
    exists env, checkPow :: ValidateHeader(env, header, parent, checkPow, false) == Valid
  }

  lemma AcceptedFacts(header: Header, parent: Header)
    requires Accepted(header, parent)
    ensures header.number == parent.number + 1
    ensures header.difficulty >= MINIMUM_DIFFICULTY
    ensures header.time > parent.time
  {
    var env, checkPow :| ValidateHeader(env, header, parent, checkPow, false) == Valid;
    ValidHeaderFacts(env, header, parent, checkPow, false);
  }

  /** Every header on the path was accepted on top of its parent, each under its own clock. */
  ghost predicate AcceptedPath(h: Header) {
    h.parentHash.Digest? ==> Accepted(h, h.parentHash.header) && AcceptedPath(h.parentHash.header)
  }

  /** What single acceptances add up to along a whole chain: consecutive numbers from the root, a clock
      that advances by at least a second per block, so that no chain is higher than its age in seconds,
      and a weight of at least the minimum difficulty per block. */
  lemma {:induction false} AcceptedPathFacts(h: Header)
    requires AcceptedPath(h) && Root(h).number == 0
    ensures Linked(h)
    ensures h.number <= h.time - Root(h).time
    ensures TotalDifficulty(h) >= Root(h).difficulty + h.number * MINIMUM_DIFFICULTY
    decreases h
  {
    hide Accepted;
    if h.parentHash.Digest? {
      var parent := h.parentHash.header;
      assert Path(h)[0] == Path(parent)[0];
      AcceptedPathFacts(parent);
      AcceptedFacts(h, parent);
    }
  }

  // ----- the miner's gas limit -----

  function CalcGasLimit(parentLimit: nat, parentUsed: nat, target: int): int {
    var contrib := parentUsed * 3 / 2 / GAS_LIMIT_BOUND_DIVISOR;
    var decay := parentLimit / GAS_LIMIT_BOUND_DIVISOR - 1;
    var gl := Max(parentLimit - decay + contrib, MIN_GAS_LIMIT);
    if gl < target then Min(parentLimit + decay, target) else gl
  }

  /** The one family of arguments for which the miner's own limit breaks the consensus rule. */
  predicate MinerOvershoots(parentLimit: nat, parentUsed: nat, target: int) {
    parentLimit < 5 * GAS_LIMIT_BOUND_DIVISOR && parentUsed >= 4779 && target <= parentLimit + 4
  }

  /** For all arguments within the bounds that validation sets, the limit the miner computes passes the
      check on headers exactly when they are outside that family. */
  lemma MinedGasLimitValidIff(parentLimit: nat, parentUsed: nat, target: int)
    requires MIN_GAS_LIMIT <= parentLimit && parentUsed <= parentLimit
    ensures GasLimitOk(parentLimit, CalcGasLimit(parentLimit, parentUsed, target))
       <==> !MinerOvershoots(parentLimit, parentUsed, target)
  {
  }

  /** The least gas a transaction has to buy before it can be part of a block. */
  const TX_GAS := 21000

  /** No block with transactions is in that family: below the price of one transaction a limit leaves
      the block empty. So the miner's limit is valid after every real parent. */
  lemma MinedGasLimitValid(parentLimit: nat, parentUsed: nat, target: int)
    requires MIN_GAS_LIMIT <= parentLimit && parentUsed <= parentLimit
    requires parentLimit < TX_GAS ==> parentUsed == 0
    ensures GasLimitOk(parentLimit, CalcGasLimit(parentLimit, parentUsed, target))
  {
    MinedGasLimitValidIff(parentLimit, parentUsed, target);
  }

  /** How the limit moves. After an empty block it falls by 1/1024 less one, though not below 5000; every
      2048 gas used raise it by 3; and where that leaves it below the target it rises by up to 1/1024 less
      one instead, though not past the target. A target already reached plays no part. */
  lemma GasLimitPace(parentLimit: nat, parentUsed: nat, target: int)
    ensures
      var own := CalcGasLimit(parentLimit, parentUsed, 0);
      && (parentUsed == 0 ==> own == Max(parentLimit - parentLimit / 1024 + 1, 5000))
      && (own > 5000 ==> CalcGasLimit(parentLimit, parentUsed + 2048, 0) == own + 3)
      && own <= CalcGasLimit(parentLimit, parentUsed + 1, 0)
      && CalcGasLimit(parentLimit, parentUsed, target) ==
           if own >= target then own else Min(parentLimit + parentLimit / 1024 - 1, target)
  {
    assert (parentUsed + 2048) * 3 / 2 == parentUsed * 3 / 2 + 3072;
  }

  /** So the limit does not always move towards the target: after a full block it rises past one. */
  lemma FullBlocksPassTheTarget()
    ensures CalcGasLimit(10_000_000, 10_000_000, 5_000_000) > 10_000_000
  {
  }

  lemma MinerOvershootsSomewhere()
    ensures !GasLimitOk(5000, CalcGasLimit(5000, 5000, 5000))
  {
  }
}
