/**
 Block and uncle rewards. The miner of an uncle gets an eighth of the block reward for each block by
 which the uncle is younger than eight; the miner of the block gets the block reward and a 1/32 bonus
 for each uncle.
 */
module Rewards {
  import opened ChainTypes
  import opened Uncles

  const BLOCK_REWARD := 5_000_000_000_000_000_000

  type Balances = map<Address, int>

  function BalanceOf(m: Balances, a: Address): int {
    if a in m then m[a] else 0
  }

  function Credit(m: Balances, a: Address, amount: int): Balances {
    m[a := BalanceOf(m, a) + amount]
  }

  function UncleReward(header: Header, uncle: Header): int {
    (uncle.number + 8 - header.number) * BLOCK_REWARD / 8
  }

  const INCLUSION_BONUS := BLOCK_REWARD / 32

  /** An account database, as far as balances go. */
  class StateDb {
    var balances: Balances

    method AddBalance(a: Address, amount: int)
      modifies this
      ensures balances == Credit(old(balances), a, amount)
    {
      balances := balances[a := BalanceOf(balances, a) + amount];
    }
  }

  /** What address `a` earns from the uncles. */
  function EarnedFromUncles(header: Header, uncles: seq<Header>, a: Address): int {
    if uncles == [] then 0
    else
      var last := uncles[|uncles| - 1];
      EarnedFromUncles(header, uncles[..|uncles| - 1], a)
      + if last.coinbase == a then UncleReward(header, last) else 0
  }

  /** What address `a` earns from the block: as a miner of uncles, and as the miner of the block. */
  function Earned(header: Header, uncles: seq<Header>, a: Address): int {
    EarnedFromUncles(header, uncles, a)
    + if header.coinbase == a then BLOCK_REWARD + |uncles| * INCLUSION_BONUS else 0
  }

  function UncleRewards(header: Header, uncles: seq<Header>): int {
    if uncles == [] then 0
    else UncleRewards(header, uncles[..|uncles| - 1]) + UncleReward(header, uncles[|uncles| - 1])
  }

  /** All that is newly issued by a block. */
  function Issued(header: Header, uncles: seq<Header>): int {
    BLOCK_REWARD + UncleRewards(header, uncles) + |uncles| * INCLUSION_BONUS
  }

  /** Every account gets exactly its earnings, also where miners coincide, and the sum of all balances
      grows by exactly what is issued. */
  method AccumulateRewards(state: StateDb, header: Header, uncles: seq<Header>)
    modifies state
    ensures forall a :: BalanceOf(state.balances, a) == BalanceOf(old(state.balances), a) + Earned(header, uncles, a)
    ensures Total(state.balances) == Total(old(state.balances)) + Issued(header, uncles)
  {
    var reward := BLOCK_REWARD;
    for i := 0 to |uncles|
      invariant reward == BLOCK_REWARD + i * INCLUSION_BONUS
      invariant forall a ::
        BalanceOf(state.balances, a) == BalanceOf(old(state.balances), a) + EarnedFromUncles(header, uncles[..i], a)
      invariant Total(state.balances) == Total(old(state.balances)) + UncleRewards(header, uncles[..i])
    {
      assert uncles[..i + 1][..i] == uncles[..i];
      var r := uncles[i].number + 8;
      r := r - header.number;
      r := r * BLOCK_REWARD;
      r := r / 8;
      TotalAfterCredit(state.balances, uncles[i].coinbase, r);
      state.AddBalance(uncles[i].coinbase, r);
      r := BLOCK_REWARD / 32;
      reward := reward + r;
    }
    assert uncles[..|uncles|] == uncles;
    TotalAfterCredit(state.balances, header.coinbase, reward);
    state.AddBalance(header.coinbase, reward);
  }

  // ----- the sum of all balances -----

  ghost function Total(m: Balances): int
    decreases |m|
  {
    if m == map[] then 0 else
      var a :| a in m;
      m[a] + Total(m - {a})
  }

  /** The order of summation does not matter. */
  lemma {:induction false} TotalWithout(m: Balances, a: Address)
    requires a in m
    ensures Total(m) == m[a] + Total(m - {a})
    decreases |m|
  {
    var b :| b in m && Total(m) == m[b] + Total(m - {b});
    if a != b {
      TotalWithout(m - {b}, a);
      TotalWithout(m - {a}, b);
      assert m - {b} - {a} == m - {a} - {b};
    }
  }

  /** The numbers: a block reward of 5 ether, for each uncle a thirty-second of it to the miner of the block,
      and to the miner of the uncle as many eighths as eight exceeds the distance. */
  lemma RewardParts(header: Header, uncle: Header)
    ensures BLOCK_REWARD == 5 * 1_000_000_000 * 1_000_000_000
    ensures 32 * INCLUSION_BONUS == BLOCK_REWARD
    ensures 8 * UncleReward(header, uncle) == (8 - (header.number - uncle.number)) * BLOCK_REWARD
  {
    var eighths := uncle.number + 8 - header.number;
    assert eighths * BLOCK_REWARD == 8 * (eighths * (BLOCK_REWARD / 8));
    EightTimes(eighths * (BLOCK_REWARD / 8));
  }

  lemma EightTimes(x: int)
    ensures 8 * x / 8 == x
  {
  }

  /** All that is issued, in thirty-seconds of the reward: 32 for the block, and for each uncle one and four
      times the eighths of its miner. */
  lemma {:induction false} IssuedParts(header: Header, uncles: seq<Header>)
    ensures 32 * Issued(header, uncles) == (32 + |uncles| + 4 * Eighths(header, uncles)) * BLOCK_REWARD
    decreases |uncles|
  {
    if uncles != [] {
      var init, last := uncles[..|uncles| - 1], uncles[|uncles| - 1];
      IssuedParts(header, init);
      RewardParts(header, last);
    }
  }

  function Eighths(header: Header, uncles: seq<Header>): int {
    if uncles == [] then 0
    else Eighths(header, uncles[..|uncles| - 1]) + 8 - (header.number - uncles[|uncles| - 1].number)
  }

  lemma TotalAfterCredit(m: Balances, a: Address, amount: int)
    ensures Total(Credit(m, a, amount)) == Total(m) + amount
  {
    var m' := Credit(m, a, amount);
    TotalWithout(m', a);
    assert m' - {a} == m - {a};
    if a in m {
      TotalWithout(m, a);
    } else {
      assert m - {a} == m;
    }
  }

  // ----- the size of an uncle's reward -----

  /** For every uncle of every block that passed the check the reward is between 2/8 and 7/8 of the block
      reward, the exact fraction being the eight minus the uncle's distance. */
  lemma UncleRewardBounds(path: seq<Header>, n: nat, j: nat, u: Header)
    requires Numbered(path) && Included(path, n, j, u) && Passed(path, n)
    ensures 2 * (BLOCK_REWARD / 8) <= UncleReward(path[n], u) <= 7 * (BLOCK_REWARD / 8)
    ensures UncleReward(path[n], u) == (8 - (n - u.number)) * (BLOCK_REWARD / 8)
  {
    hide Passed;
    var k := UncleParent(path, n, j, u);
    assert path[n].number == n;
    hide Numbered, Included;
  }

  /** The same bounds for the first `i` uncles of a block together. */
  lemma {:induction false} UncleRewardsBound(path: seq<Header>, n: nat, i: nat)
    requires Numbered(path) && 0 < n < |path| && Passed(path, n) && i <= |UnclesOf(path[n])|
    ensures 2 * i * (BLOCK_REWARD / 8) <= UncleRewards(path[n], UnclesOf(path[n])[..i]) <= 7 * i * (BLOCK_REWARD / 8)
    decreases i
  {
    hide Passed, UncleReward;
    if i > 0 {
      UncleRewardsBound(path, n, i - 1);
      var uncles := UnclesOf(path[n]);
      UncleRewardBounds(path, n, i - 1, uncles[i - 1]);
      assert uncles[..i][..i - 1] == uncles[..i - 1];
    }
  }

  /** So no block that passed the check issues less than one block reward, or more than one, 14/8 for two
      uncles and two bonuses. */
  lemma IssuedBounds(path: seq<Header>, n: nat)
    requires Numbered(path) && 0 < n < |path| && Passed(path, n)
    ensures BLOCK_REWARD <= Issued(path[n], UnclesOf(path[n]))
    ensures Issued(path[n], UnclesOf(path[n])) <= BLOCK_REWARD + 14 * (BLOCK_REWARD / 8) + 2 * INCLUSION_BONUS
  {
    hide CheckFrom, UnclesOfAll, SetOf, UncleReward, UncleRewards;
    var uncles := UnclesOf(path[n]);
    var env :| Checked(env, path, n);
    assert |uncles| <= 2;
    UncleRewardsBound(path, n, |uncles|);
    assert uncles[..|uncles|] == uncles;
  }
}
