# Verified models of the chain bookkeeping, globbing, quoting, ICAP and account unlocking

The project models the parts of the repository whose correctness is hardest to see from the code, and
proves what they promise:

- the **header chain** of go-ethereum: heads, the canonical map, total difficulties, the caches in
  front of the database, rewinding, and import by parallel workers;
- **block insertion**: validation, the queue of future blocks, reorganisation, and the transaction lookup
  index that has to follow it;
- **uncle validation**, rewards, difficulty and the miner's gas limit;
- the **glob matcher** and directory walk of elvish;
- **quoting** in elvish against the parser that reads it back;
- the **ICAP** address codec;
- the **unlock protocol** of the account manager.

`dafny verify dfyconfig.toml` checks everything.

## How to read it

| file | subject |
|---|---|
| Options.dfy | a value that may be missing |
| ChainTypes.dfy | headers, hashes, parent paths, the canonical map of a head |
| ChainDb.dfy | the database tables and what they hold |
| Consensus.dfy | header validation, difficulty, gas limit |
| HeaderRuns.dfy | a header chain as a value, and what every run keeps |
| HeaderChain.dfy | the header chain as a class: writing, caches, rewinding |
| HeaderImport.dfy | batch import by workers, as a state machine |
| Ancestor.dfy | the last common ancestor of two headers |
| TxIndex.dfy | the transaction index |
| BlockChain.dfy | the block chain as a class: insertion, reorganisation, reopening |
| Uncles.dfy, Rewards.dfy | uncles along whole chains, and what blocks issue |
| ChainInsert.dfy | inserting chains of blocks: nonces, validation, the future queue, the write |
| Takeover.dfy | a run of valid blocks in which a short heavy branch takes over from a long light one |
| Accounts.dfy | unlocking, locking and timers, as a state machine |
| Icap.dfy | base 36, check digits, the codec |
| GlobMatch.dfy, GlobWalk.dfy | matching one name, and walking a tree |
| ElvishParser.dfy, ElvishQuote.dfy | reading strings, writing strings, and the round trip |

Code that changes state is a class or a method with loops. Each such method is proved equal to a
function of its inputs or of the old state, or against a stated property, and the theorems are about
those functions. Where the source runs several goroutines, each action is one step of a state machine
and a run is any sequence of steps.

Decisions that matter for reading the statements:

- **Hashes** are terms: `Digest(h)` is the hash of header `h`, `Opaque` any word that is no header's
  hash. Hashing is injective and acyclic, and a header commits to its parent, its transactions and its
  uncles. The path to genesis and the total difficulty are functions of the header; what the code has
  to get right is that its stores agree with them.
- **Numbers** are unbounded. The predecessor of number 0, which wraps around in the source, is -1: like
  the wrapped value it belongs to no header. Timestamps are cut to 64 bits where the source does so.
- **Choices** the code makes by chance or that come from outside are parameters or arbitrary: the tie
  coin, the marked headers, the clock, the proof-of-work verdict, the two hard-fork checks, cache
  eviction, worker interleaving, interrupts, timers, which states are in the database and whether a block
  executes to the state it claims, the printability of a character.
- **Paths and premises.** A header that is written has its stored parent's number plus one; validation
  establishes this (`HeaderRuns.ValidatedIsAdmissible`). No transaction repeats on one path; without
  that no index can be exact (`TxIndex.ExactNeedsNoRepeat`).

## Where the code does not do what one might expect

Each of these is proved as an equivalence, with an input at which it fails.

- **Gas limit.** The miner's own limit breaks the header rule for parents with a limit below 5120 gas,
  at least 4779 gas used and a target of at most the limit plus 4 (`Consensus.MinedGasLimitValidIff`,
  `Consensus.MinerOvershootsSomewhere`). This is so of the function; no block can be such a parent, since
  a limit below the 21000 gas of a transaction leaves it empty (`Consensus.MinedGasLimitValid`).
- **Heads after a reorganisation.** The new branch is inserted tip first, so after a takeover by more
  than one block the current header and the fast head are left at the lowest block of the new branch;
  the three heads agree exactly when the new block's parent was already canonical
  (`BlockChain.HeadsAgreeIff`, `Takeover.SlowThenFast`).
- **Canonical numbers above the head.** Block insertion does not clear them, header writing does. On the
  block path the map is the head's path up to the head and goes on to the highest head there ever was;
  it is the head's path and no more exactly when no head was higher (`BlockChain.BlockChain.HeadBelowTop`,
  `Takeover.SlowThenFast`).
- **Cached lookups ignore the number.** They equal a database read exactly when the number belongs to
  the hash (`HeaderChain.CacheAgreesIff`, `HeaderChain.CacheIgnoresNumber`).
- **Empty literals in globs.** The matcher refuses an empty literal at the end of a name, so it is exact
  exactly for patterns in which none dangles (`GlobMatch.GreedyIsExactIff`, `GlobMatch.DanglingRejects`).
  The glob parser makes such a literal of a trailing backslash.
- **The empty pattern.** In the working directory it is reported as `/`; every other reported path names
  the node that the pattern reached (`GlobWalk.ReportedPathResolves`).
- **ICAP.** Some codes that decode are not the encoding of their address: check digits 00, 01 or 99, a
  31-digit body with a leading zero or above 160 bits (`Icap.DecodeEncodeIff`, `Icap.LongerCodeDecodes`).

## Model

| member | source | states |
|---|---|---|
| HeaderRuns.RunKeepsInv | go-ethereum/core/headerchain.go:142-209 | Over every run of validated header writes from genesis and every tie outcome: all stored headers descend from genesis through stored headers with consecutive numbers, the head is stored and heaviest, and every stored difficulty is positive |
| HeaderRuns.HeadHasNoStoredChild | go-ethereum/core/headerchain.go:149-203 | In every reachable state no stored header has the head as its parent |
| HeaderRuns.RunsConverge | go-ethereum/core/headerchain.go:163-203 | Two nodes that stored the same headers, in any order and with any coins, have heads of equal weight, and the same canonical map when one stored header is strictly the heaviest |
| HeaderRuns.RunOnlyGrows | go-ethereum/core/headerchain.go:156-203 | Over any sequence of writes no header is lost and the weight of the head never falls |
| HeaderRuns.WriteDecides | go-ethereum/core/headerchain.go:149-203 | A header with an unknown parent changes nothing; any other is stored, and becomes the head exactly when it outweighs the head, or weighs as much and the coin is for it |
| HeaderRuns.WriteKeepsInv | go-ethereum/core/headerchain.go:142-209 | One write of any header whose number follows its parent keeps closed ancestry and the heaviest head, for either coin |
| HeaderRuns.ValidatedCallKeepsInv | go-ethereum/core/headerchain.go:226-334 | A write after validation (or of a stored header) also keeps every difficulty positive |
| HeaderRuns.ValidatedIsAdmissible | go-ethereum/core/block_validator.go:206-260 | Validation against the parent gives the parent-number premise and the positive difficulty that the chain code relies on |
| HeaderRuns.ClosedAfterPut | go-ethereum/core/headerchain.go:156-162 | Adding a header below a stored parent keeps all stored headers descended from genesis |
| HeaderRuns.PathIsStored | go-ethereum/core/headerchain.go:182-188 | A store closed under parents holds the whole path of each of its headers, so a walk to genesis never misses one |
| HeaderRuns.AncestorLighter | go-ethereum/core/block_validator.go:265-351 | Every proper ancestor of a stored header weighs strictly less |
| ChainTypes.PathIndexing | go-ethereum/core/block_validator.go:238-242 | If numbers follow parents, position on the path to genesis and block number coincide |
| ChainTypes.PathPrefix | go-ethereum/core/headerchain.go:176-193 | The path of an ancestor is a prefix of the path of its descendant |
| ChainTypes.SharedAncestorSharesPrefix | go-ethereum/core/headerchain.go:176-193 | Two headers that share the ancestor at one number share everything below it, which is why the rewrite may stop at the first agreement |
| ChainTypes.TotalDifficultyIsPathSum | go-ethereum/core/headerchain.go:149-155 | Parent weight plus own difficulty is the sum of the difficulties back to genesis |
| ChainTypes.CanonOfIsPath | go-ethereum/core/headerchain.go:165-193 | The canonical map of a head is defined on exactly 0..head number, starts at genesis, ends at the head, and each entry is the parent of the next |
| ChainTypes.CanonPathUnique | go-ethereum/core/headerchain.go:165-193 | Those four facts determine the map |
| HeaderChain.HeaderChain.constructor | go-ethereum/core/headerchain.go:77-118 | A chain opened on a database with only a genesis block is valid: store, empty caches, head and canonical map agree |
| HeaderChain.HeaderChain.Open | go-ethereum/core/headerchain.go:77-118 | Opening the database that a valid chain left behind starts at its head block, or at genesis if that is not stored, with coherent caches; the chain is the one that was left if and only if that is where the header head was |
| HeaderChain.HeaderChain.LoadHead | go-ethereum/core/blockchain.go:191-198 | Moving to the head header that the database names then restores the chain that was left, wherever its head block was |
| HeaderChain.HeaderChain.WriteHeader | go-ethereum/core/headerchain.go:142-209 | For any header whose number follows its stored parent, and either coin: the write is refused exactly when the parent is unknown; otherwise the header is stored with its true weight, the head moves exactly when the branch is heavier or the coin decides a tie, the canonical map is exactly the path of the head, and no cache is stale; the rewrite walk ends and never meets a missing header |
| HeaderChain.HeaderChain.WriteHeaders | go-ethereum/core/headerchain.go:142-209 | Any run of writes from any valid state takes it to the state that the abstract run gives, valid at every step |
| HeaderChain.HeaderChain.DeleteCanonAbove | go-ethereum/core/headerchain.go:168-175 | The loop that deletes until the first gap leaves no canonical number above the new head and touches none below |
| HeaderChain.HeaderChain.Reroute | go-ethereum/core/headerchain.go:176-193 | Stopping at the first number that already names an ancestor leaves the canonical map equal to the whole path of the new head |
| HeaderChain.RerouteStart | go-ethereum/core/headerchain.go:176-180 | Before the walk the numbers above its start name the new path and those up to it the old one |
| HeaderChain.RerouteStep | go-ethereum/core/headerchain.go:182-188 | A disagreement cannot be at number 0, so the walk stops at genesis at the latest, and a rewrite moves the border between new and old one down |
| HeaderChain.RerouteDone | go-ethereum/core/headerchain.go:182-193 | At the first agreement everything below already names the new path |
| HeaderChain.HeaderChain.Put | go-ethereum/core/headerchain.go:156-162 | Storing header and weight changes neither the canonical map nor the head and keeps store and caches coherent |
| HeaderChain.HeaderChain.CacheHeader | go-ethereum/core/headerchain.go:205-206 | Caching a stored header and its number keeps the caches coherent under any eviction |
| HeaderChain.LruAdd | go-ethereum/core/headerchain.go:398-414 | An insertion into a cache of unknown size keeps the new entry and only entries that were there |
| HeaderChain.HeaderChain.GetBlockNumber | go-ethereum/core/headerchain.go:122-131 | For every eviction schedule the cached number lookup equals a direct read, and is the missing number exactly for unknown hashes |
| HeaderChain.HeaderChain.GetTd | go-ethereum/core/headerchain.go:372-384 | With the hash's true number the cached weight lookup equals a direct read: the sum of difficulties for a stored header, nothing otherwise |
| HeaderChain.HeaderChain.FetchHeader | go-ethereum/core/headerchain.go:404-416 | A hit ignores the number, a miss reads the store, and only what was found is cached |
| HeaderChain.HeaderChain.GetHeader | go-ethereum/core/headerchain.go:404-416 | With the hash's true number the cached header lookup equals a direct read, so a miss never goes stale |
| HeaderChain.HeaderChain.HasHeader | go-ethereum/core/headerchain.go:420-428 | True exactly for stored headers |
| HeaderChain.CacheAgreesIff | go-ethereum/core/headerchain.go:404-416 | On a hit, cache and store agree if and only if the number is the one the hash belongs to |
| HeaderChain.CacheIgnoresNumber | go-ethereum/core/headerchain.go:404-416 | A failing input: a cached header asked for with any other number is a hit where a direct read finds nothing |
| HeaderChain.HeaderChain.DeleteHeadersAbove | go-ethereum/core/headerchain.go:467-476 | The rewind ends, deletes exactly the path above the target, topmost first, and never meets a missing parent although the caches still hold deleted headers |
| HeaderChain.HeaderChain.DeleteCanonBetween | go-ethereum/core/headerchain.go:477-480 | Exactly the canonical numbers above the target are removed |
| HeaderChain.HeaderChain.SetHead | go-ethereum/core/headerchain.go:461-494 | From any valid state: the canonical map is the old one cut to the smaller of target and old head, the current header is at its top, exactly the old path above it is gone from store and weights, and store and caches agree again |
| HeaderChain.CutIsCanonOf | go-ethereum/core/headerchain.go:477-494 | Cutting the canonical map of a head gives the canonical map of its ancestor there |
| ChainDb.HoldsRead | go-ethereum/core/database_util.go:155-208 | Header and weight reads under (number, hash) answer exactly for the stored headers |
| ChainDb.HoldsReadNumber | go-ethereum/core/database_util.go:93-107 | The number read by hash answers exactly for the stored headers |
| ChainDb.HoldsAfterWrite | go-ethereum/core/database_util.go:328-379 | Writing header and weight adds exactly that header to what the database holds |
| ChainDb.HoldsAfterDelete | go-ethereum/core/database_util.go:496-509 | Deleting header and weight removes exactly that header |
| HeaderImport.NothingWrittenUnlessAllGood | go-ethereum/core/headerchain.go:226-345 | In every interleaving of any number of workers with an interrupt that can come at any moment and then stays: nothing is written unless the batch is a chain and every header of it was known or was accepted by a call of the validator that a worker made in this very run, and nothing at all if all were known; the chain invariant holds throughout, no write is refused, a reported failure was found by such a call, and an undisturbed finish has stored the whole batch |
| HeaderImport.NeverStuck | go-ethereum/core/headerchain.go:261-334 | In every reachable state in which the call has not returned some step leaves less to do, so the call cannot hang |
| HeaderImport.StepWorks | go-ethereum/core/headerchain.go:261-334 | Every step that does anything, other than to note an interrupt, leaves less to do, so every schedule comes to an end |
| HeaderImport.GoodBatchIsStored | go-ethereum/core/headerchain.go:226-334 | A call that returned uninterrupted from a batch that is a chain, without having found a fault, has stored the whole batch; one whose batch is no chain has stored nothing |
| HeaderImport.MarkedHeadersWereChecked | go-ethereum/core/headerchain.go:242-295 | If anything is written, every marked header was known or passed the proof-of-work verifier in a call of this run |
| HeaderImport.WindowsWereChecked | go-ethereum/core/headerchain.go:242-334 | So, with the marking, one header of each full window of checkFreq headers did |
| HeaderImport.LastWasChecked | go-ethereum/core/headerchain.go:242-334 | And so did the last header, for batches of any length |
| HeaderImport.CheckContiguous | go-ethereum/core/headerchain.go:228-238 | The sanity check accepts exactly the batches in which each header is the child of the one before |
| HeaderImport.RunOk | go-ethereum/core/headerchain.go:243-334 | The invariant of workers, verdicts and writer, relative to the validator calls made in the run, holds after every prefix of every sequence of steps |
| HeaderImport.StepKeeps | go-ethereum/core/headerchain.go:243-334 | Every step of every worker, of the interrupt and of the writer keeps it |
| HeaderImport.WorkerStepKeeps | go-ethereum/core/headerchain.go:261-296 | Whatever one worker does, each task taken so far was accepted by a call made in the run, is still held by a worker, or is covered by the failure count or the interrupt |
| HeaderImport.Judged | go-ethereum/core/headerchain.go:272-294 | A worker that is done with its header has found it good by its own call, or has recorded the failure that call gave |
| HeaderImport.AllDoneAllGood | go-ethereum/core/headerchain.go:298-316 | When all workers returned without failure or interrupt, every header of the batch was known or accepted by a call made in the run |
| HeaderImport.NextIsValidated | go-ethereum/core/headerchain.go:284-334 | Validation against the neighbour in the batch is validation against the stored parent by the time the header is written |
| HeaderImport.WriteStepKeeps | go-ethereum/core/headerchain.go:316-334 | A step of the writer keeps the stored chain valid and writes the batch in order |
| HeaderImport.FirstError | go-ethereum/core/headerchain.go:309-315 | The failure reported is the first one recorded, and none only if none was |
| HeaderImport.MarkForPow | go-ethereum/core/headerchain.go:242-251 | For every random choice each full window of checkFreq headers and the last header are marked for a proof-of-work check |
| Ancestor.FindCommonAncestor | go-ethereum/core/database_util.go:638-662 | For any two linked headers and any store: the result is the common ancestor of greatest number, and there is none exactly when the paths do not meet or a header on the way is missing |
| Ancestor.Up | go-ethereum/core/database_util.go:640-660 | One step goes to the header one number below on the same path, and fails only at the root or when it is not stored |
| Ancestor.MeetingPointIsLast | go-ethereum/core/database_util.go:638-662 | A common header above which the paths differ is the last common ancestor |
| Ancestor.LastCommonUnique | go-ethereum/core/database_util.go:638-662 | There is at most one last common ancestor |
| Ancestor.LastCommonSplits | go-ethereum/core/database_util.go:638-662 | The two paths agree exactly up to it |
| Ancestor.LastCommonExists | go-ethereum/core/database_util.go:638-662 | Headers with a common root have one |
| Ancestor.Blocked | go-ethereum/core/database_util.go:643-660 | A walk stuck above the meeting point on either side has no way to succeed |
| Ancestor.StoredPathsWalk | go-ethereum/core/database_util.go:638-662 | With both paths stored and a common root the walk always succeeds |
| BlockChain.BlockChain.InsertBlocks | go-ethereum/core/blockchain.go:986-1028 | After any run of writes of acceptable blocks, reorganisations included: the canonical map on 0..head is exactly the head's path and goes up to the highest head so far, the transaction index says exactly what a scan of that path says, the head is heaviest, and stored blocks and head are those of the abstract run |
| BlockChain.BlockChain.InsertBlock | go-ethereum/core/blockchain.go:986-1011 | One iteration keeps all of that and reports canonical, side or refused exactly by weight, coin and known parent |
| BlockChain.BlockChain.WriteBlock | go-ethereum/core/blockchain.go:814-857 | The block is stored with its true weight; the head moves exactly when heavier or by coin; the canonical map on 0..head is the head's path whichever branch was longer, and its numbers are exactly those up to the highest head so far; after a reorganisation the index is already exact; the other two heads go to the lowest block of the new branch |
| BlockChain.BlockChain.Adopt | go-ethereum/core/blockchain.go:841-849 | Making a stored block the head never fails, and moves map, heads and index as promised, by extension or reorganisation |
| BlockChain.BlockChain.HeadBelowTop | go-ethereum/core/blockchain.go:442-464 | In every valid state the canonical map is the head's path and no more if and only if no head was ever higher than the present one |
| BlockChain.CanonExactIff | go-ethereum/core/blockchain.go:442-464 | The same of the map alone |
| BlockChain.TopAfterReorg | go-ethereum/core/blockchain.go:1162-1181 | A reorganisation leaves exactly the numbers up to the higher of the old top and the new head |
| BlockChain.TopAfterExtend | go-ethereum/core/blockchain.go:848-849 | So does an extension |
| BlockChain.BlockChain.Enqueue | go-ethereum/core/blockchain.go:935-945 | Queueing a block touches nothing but the queue |
| Takeover.SlowThenFast | go-ethereum/core/blockchain.go:442-464 | A run of blocks that all pass header validation and uncle verification at which both fail: six fast blocks take over from seven slow ones; number 7 stays canonical above head 6, and header and fast head stay at block 1 of the new branch |
| Takeover.BranchesApart | go-ethereum/core/blockchain.go:1162-1181 | When branches part at the genesis block the other two heads are left at number 1 of the new one |
| Takeover.OnPasses | go-ethereum/core/block_validator.go:206-260 | Every block of that run passes header validation and uncle verification |
| Takeover.SlowWeight | go-ethereum/core/block_validator.go:273-320 | By the Homestead rule seven blocks a thousand seconds apart weigh 6050755 above a genesis difficulty of 2^20 |
| Takeover.FastWeight | go-ethereum/core/block_validator.go:273-320 | Six blocks a second apart weigh 6302211, and fewer of them stay below the seven |
| BlockChain.BlockChain.Reorg | go-ethereum/core/blockchain.go:1089-1209 | For any two linked blocks and any store: succeeds exactly when the branches meet over stored blocks, changes nothing otherwise, and on success the canonical numbers above the meeting point name the new branch and the index is exact for the new path |
| BlockChain.BlockChain.Branches | go-ethereum/core/blockchain.go:1114-1155 | Both walks end; they succeed exactly when the paths meet over stored blocks; the two lists are the branches strictly above the last common ancestor, topmost first, and the transactions collected are those of the old one |
| BlockChain.BlockChain.Descend | go-ethereum/core/blockchain.go:1114-1128 | Reducing the longer side collects exactly the blocks above the other's height, and fails exactly when one of them is missing |
| BlockChain.BlockChain.ParentBlock | go-ethereum/core/blockchain.go:1137-1155 | A step down both chains goes to the block one number below, and fails only at the root or when it is missing |
| BlockChain.BlockChain.Insert | go-ethereum/core/blockchain.go:442-464 | The block gets its canonical number and becomes the head block; the other two heads follow exactly when the number did not name it before |
| BlockChain.BlockChain.InsertBranch | go-ethereum/core/blockchain.go:1162-1181 | Inserting tip first overlays map and index with the whole branch and leaves header and fast head at its lowest block |
| BlockChain.BlockChain.DeleteTransactions | go-ethereum/core/blockchain.go:1187-1190 | Exactly the given transactions leave the index |
| BlockChain.BlockChain.Put | go-ethereum/core/blockchain.go:830-836 | Header, body and weight are stored together; map and heads stay |
| BlockChain.BlockChain.constructor | go-ethereum/core/blockchain.go:117-168 | A chain on a fresh database with a genesis block without transactions is valid |
| BlockChain.BlockChain.Reopen | go-ethereum/core/blockchain.go:144-205 | Opening the database that a valid chain left behind restores that chain: genesis, all three heads, map and index, none of the fall-backs taken |
| BlockChain.HoldsBlock | go-ethereum/core/database_util.go:216-228 | A block read answers exactly for stored headers, with the body the header commits to |
| BlockChain.HoldsBlockIff | go-ethereum/core/database_util.go:216-228 | With a number that is not the header's own, nothing is found |
| BlockChain.BranchTxs | go-ethereum/core/blockchain.go:1114-1155 | The transactions collected on the way down are exactly those on the path above the meeting point |
| BlockChain.ReorgIndex | go-ethereum/core/blockchain.go:1162-1190 | Overlaying the new branch and deleting old minus new by hash gives the exact index of the new path |
| BlockChain.CanonAfterReorg | go-ethereum/core/blockchain.go:1162-1181 | Overlaying the branch above the meeting point makes the map name the whole new path up to its head |
| BlockChain.OldHeadIsNoAncestor | go-ethereum/core/blockchain.go:842-848 | A takeover from a side branch never has the old head below it, because a stored descendant would outweigh it |
| BlockChain.AfterReorg | go-ethereum/core/blockchain.go:842-848 | After a takeover map, stored numbers and the three heads are as promised, and the final insert finds its number already written |
| BlockChain.AfterExtend | go-ethereum/core/blockchain.go:848-850 | Extending the head writes a number that did not name the new block, so all three heads move to it |
| BlockChain.ChildOfHeadIsNew | go-ethereum/core/blockchain.go:842-848 | A child of the head cannot have been stored before |
| BlockChain.HeadsAfterReorg | go-ethereum/core/blockchain.go:1162-1181 | Header and fast head end at the block just above the last common ancestor |
| BlockChain.HeadsAgreeIff | go-ethereum/core/blockchain.go:442-464 | After a takeover from a side branch the three heads agree if and only if the new block's parent was already canonical |
| BlockChain.IndexAfterCanon | go-ethereum/core/blockchain.go:987-1003 | Indexing a new head is exact whether it extended the head or was indexed by the reorganisation before |
| ChainInsert.EveryRunIsVerified | go-ethereum/core/blockchain.go:861-1033 | After any sequence of calls on a fresh chain, whatever blocks are offered and whatever clocks, shutdowns, states, executions, coins and evictions do: the chain invariant holds, and every stored block but the first was offered in one of the calls and passed there its nonce check, the blacklist, the body digests and execution, and header validation and uncle verification under the environment of its own moment |
| ChainInsert.NoStoredUncleTwice | go-ethereum/core/blockchain.go:861-1033 | So on the path of every block ever stored no uncle is included twice and none lies on the path |
| ChainInsert.StoredPathsAreChecked | go-ethereum/core/blockchain.go:861-1033 | The path of every stored block is a chain of checked blocks |
| ChainInsert.InsertChain | go-ethereum/core/blockchain.go:861-1033 | For any blocks and any world the call does exactly what its specification says, returned index and error included, leaves map, index and heads valid, and never fails to write a block it accepted |
| ChainInsert.ImportStoresOnlyPassed | go-ethereum/core/blockchain.go:894-1028 | Every block that a call stores came from the offered chain and passed nonce, blacklist, body digests and execution, and header and uncles under the clock, configuration and verifier of its own moment; nothing stored is lost |
| ChainInsert.StoredBlocksKeepTheRule | go-ethereum/core/blockchain.go:861-1033 | Over every run, every stored block but the first was no later than the clock of the moment it was judged in, has at most 32 bytes of extra data and a good nonce, and keeps the whole header rule there, its gas limit less than 1/1024 from its parent's |
| ChainInsert.GoodChainIsStored | go-ethereum/core/blockchain.go:894-1028 | A good chain gets in: if it hangs together below a stored block and each block has a good nonce, is not blacklisted, passes header, uncles and body in its moment, finds its parent's state and executes, the call succeeds and exactly its blocks are added |
| ChainInsert.KnownChainIsSkipped | go-ethereum/core/blockchain.go:919-924 | Offering blocks that are stored with their states succeeds and changes nothing |
| ChainInsert.KnownPrefixIsSkipped | go-ethereum/core/blockchain.go:919-924 | A chain with a known prefix fares as the rest of it does on its own, to the same node and with a failure at the same block |
| ChainInsert.HandleDecides | go-ethereum/core/blockchain.go:912-1021 | One block: blacklisted fails, known with state is skipped, nothing missing is written, ahead of the clock by at most 30 seconds or with a queued parent is queued, and all else fails with its reason and changes nothing |
| ChainInsert.ImportStops | go-ethereum/core/blockchain.go:894-1033 | A call handles blocks in order up to one place: the end, a shutdown, or a failure that names that block and why it fails, or a block with a refused nonce; all before it were stored, skipped or queued |
| ChainInsert.StoredBeforeStop | go-ethereum/core/blockchain.go:894-1033 | Only blocks before that place are stored |
| ChainInsert.BrokenChainIsRefused | go-ethereum/core/blockchain.go:862-872 | A chain that does not hang together changes nothing and is refused as such |
| ChainInsert.JudgeIff | go-ethereum/core/block_validator.go:69-107 | When validation finds a block known, orphaned, ahead of the clock or valid, in terms of the store, the states, the clock and the rules |
| ChainInsert.JudgeRefusals | go-ethereum/core/block_validator.go:69-107 | The order of header, uncles and the two body digests in the other refusals |
| ChainInsert.SuccessDropsNothing | go-ethereum/core/blockchain.go:894-1033 | A call that succeeds without shutdown and eviction has stored or queued every block it was given |
| ChainInsert.HandleBlock | go-ethereum/core/blockchain.go:912-1021 | One pass of the loop refuses, ignores, queues or writes the block exactly as specified and keeps the chain valid |
| ChainInsert.ValidateBlock | go-ethereum/core/block_validator.go:69-107 | The verdict of validation against database and block cache is that of the rule over the stored headers, a cached parent being found under any number |
| ChainInsert.FetchBlock | go-ethereum/core/blockchain.go:525-537 | A lookup through the block cache finds exactly the stored blocks that are cached or asked for with their own number |
| ChainInsert.JudgedValid | go-ethereum/core/block_validator.go:69-107 | A valid verdict gives all that writing relies on: known parent, following number, positive difficulty, matching body; and the header and its uncles passed under the very environment of the moment |
| ChainInsert.WriteKeepsVerified | go-ethereum/core/blockchain.go:987-990 | Writing such a block keeps every stored block passed under an environment in which the code validated |
| ChainInsert.AwaitNonce | go-ethereum/core/blockchain.go:903-910 | For every order in which verdicts arrive: the wait ends, and fails exactly at the first bad verdict read before the block's own |
| ChainInsert.NonceVerified | go-ethereum/core/blockchain.go:903-910 | A block whose turn comes has a valid nonce |
| TxIndex.WriteTransactions | go-ethereum/core/database_util.go:420-456 | The index changes exactly at the block's transactions, each mapped to block, number and its last position in the block |
| TxIndex.ExactAfterReorg | go-ethereum/core/blockchain.go:1162-1190 | For any two paths that agree up to a number: overlay the new branch, delete what only the old one has, and the index is exact for the new path |
| TxIndex.ExactAfterExtend | go-ethereum/core/blockchain.go:999-1003 | Writing the transactions of a block appended to an exactly indexed path gives an exact index |
| TxIndex.ExactAfterRewrite | go-ethereum/core/blockchain.go:999-1003 | Writing them a second time, as happens after a reorganisation, changes nothing |
| TxIndex.OverlayStep | go-ethereum/core/blockchain.go:1163-1171 | Writing the blocks from the tip down extends the overlay by one block each time |
| TxIndex.OverlayDecides | go-ethereum/core/blockchain.go:1162-1190 | What the overlaid index says about a transaction is right unless only the old branch has it |
| TxIndex.ExactNeedsNoRepeat | go-ethereum/core/database_util.go:420-456 | No index can be exact for a path that repeats a transaction: that premise is the weakest possible |
| TxIndex.TxDifference | go-ethereum/core/types/transaction.go:430-446 | The two loops compute the old transactions whose hash is not among the new ones, in order |
| TxIndex.DifferenceContents | go-ethereum/core/types/transaction.go:430-446 | As a set it is set difference by hash, also with repetitions |
| Consensus.ValidHeaderFacts | go-ethereum/core/block_validator.go:206-260 | An accepted header has its parent's number plus one, a later time, and at least the minimum difficulty and gas limit |
| Consensus.ValidHeaderIff | go-ethereum/core/block_validator.go:206-260 | Whatever the order of the checks, a header is accepted if and only if it has at most 32 bytes of extra data, is later than its parent and not later than the clock (an uncle not beyond 256 bits), has the difficulty that follows, a gas limit of at least 5000 and less than 1/1024 from its parent's, the next number, a proof of work where that is checked, and the marks of the two forks |
| Consensus.WordSizes | go-ethereum/core/block_validator.go:206-228 | Times are cut to 64 bits for the difficulty, and those of uncles may not exceed 256 bits |
| Consensus.RefusalNamesFirst | go-ethereum/core/block_validator.go:206-260 | A refusal names the first broken rule in the order extra data, size of the time, clock, parent's time, difficulty, gas limit, number, nonce and the two forks, and the other way round |
| Consensus.AcceptedFacts | go-ethereum/core/block_validator.go:206-260 | Acceptance under any clock and configuration gives number and positive difficulty |
| Consensus.AcceptedPathFacts | go-ethereum/core/block_validator.go:206-260 | Along any chain whose headers were each accepted, under whatever clocks: numbers are consecutive, no block is higher than its age in seconds, and the weight is at least the minimum difficulty per block |
| Consensus.DifficultyBounds | go-ethereum/core/block_validator.go:265-351 | In both forms the difficulty never goes below the minimum, falls by at most 99/2048 of the parent's and, for later times, grows by at most 1/2048, the bomb apart |
| Consensus.DifficultyFallsWithTime | go-ethereum/core/block_validator.go:265-351 | A later timestamp never gives a higher difficulty |
| Consensus.HomesteadPace | go-ethereum/core/block_validator.go:273-320 | EIP-2, from the fork block on and the bomb apart: within ten seconds exactly one step of 1/2048 is gained, every ten seconds more lose exactly one, up to the hundredth, and never below the minimum |
| Consensus.FrontierPace | go-ethereum/core/block_validator.go:322-351 | Before the fork and the bomb apart: below thirteen seconds exactly one step of 1/2048 is gained, from there on exactly one is lost, and never below the minimum |
| Consensus.BombPace | go-ethereum/core/block_validator.go:308-320 | The exponential part is zero for children numbered below 200000, one there, constant within each 100000 blocks and doubled by the next |
| Consensus.MinedGasLimitValidIff | go-ethereum/core/block_validator.go:356-384 | For all arguments with gas used at most the limit and limit at least the minimum, and any target, the miner's limit passes the header check if and only if they are outside the family limit below 5120, used at least 4779, target at most limit plus 4 |
| Consensus.MinedGasLimitValid | go-ethereum/core/block_validator.go:356-384 | For every parent that can exist (a limit below the price of one transaction leaves the block empty) and any target the miner's limit passes the header check |
| Consensus.MinerOvershootsSomewhere | go-ethereum/core/block_validator.go:356-384 | Arguments in that family: limit, use and target 5000 |
| Consensus.GasLimitPace | go-ethereum/core/block_validator.go:356-384 | After an empty block the limit falls by 1/1024 less one, though not below 5000; every 2048 gas used raise it by 3; where that leaves it below the target it rises by up to 1/1024 less one, though not past the target; a target already reached plays no part |
| Consensus.FullBlocksPassTheTarget | go-ethereum/core/block_validator.go:356-384 | An input at which the limit moves away from the target: after a full block of 10000000 gas it rises although the target is half of that |
| Uncles.NoUncleTwice | go-ethereum/core/block_validator.go:141-186 | Along any chain whose blocks all passed the check no uncle is included twice, by one block or by two however far apart |
| Uncles.NoUncleOnChain | go-ethereum/core/block_validator.go:141-186 | No included uncle is a block of the chain, before or after |
| Uncles.VerifiedPathIsChecked | go-ethereum/core/block_validator.go:141-186 | Checks made one by one, each under its own clock and on its own parent, are checks of the whole path |
| Uncles.VerifyUncles | go-ethereum/core/block_validator.go:141-186 | For any store that holds the parent's path: the verdict is that of the rule over the seven blocks before the block, the first failing uncle named with its reason |
| Uncles.Collect | go-ethereum/core/block_validator.go:147-157 | The two growing collections are exactly the uncles of the seven blocks and the blocks themselves |
| Uncles.GetBlocksFromHash | go-ethereum/core/blockchain.go:556-568 | The newest n blocks of the path, newest first, fewer at genesis, none for an unknown hash |
| Uncles.CheckBlockIff | go-ethereum/core/block_validator.go:141-186 | A block is accepted exactly with at most two uncles, each unseen, off the chain, on an ancestor other than the parent, and valid as an uncle header |
| Uncles.BlockRefusal | go-ethereum/core/block_validator.go:141-186 | A refusal is for more than two uncles, or names the first uncle that breaks a rule and the first rule it breaks: seen before, one of the recent blocks, no proper parent, or an invalid header with its reason |
| Uncles.UncleRefusal | go-ethereum/core/block_validator.go:159-183 | The same of the loop over the uncles |
| Uncles.RecentIsSeven | go-ethereum/core/block_validator.go:149-155 | The check looks at the seven blocks before the block, or at all there are |
| Uncles.CheckFromIff | go-ethereum/core/block_validator.go:159-183 | The loop with its growing set accepts exactly when every uncle does so with the ones before it counted as seen |
| Uncles.UncleAccepted | go-ethereum/core/block_validator.go:159-183 | What acceptance of a block says of each single uncle |
| Uncles.UncleParent | go-ethereum/core/block_validator.go:176-182 | For every block that passed the check, an uncle's parent is the chain's block between two and seven numbers back, and the uncle's number is one more |
| Uncles.UncleFresh | go-ethereum/core/block_validator.go:159-174 | An uncle is none of the last seven blocks nor of their uncles, nor an earlier one of its own block |
| Uncles.NoUncleOfItsChild | go-ethereum/core/block_validator.go:141-186 | A block cannot be the parent of its own uncle |
| Rewards.AccumulateRewards | go-ethereum/core/state_processor.go:135-149 | Each account gains exactly what it earned as miner and as uncle, also where coinbases coincide, and the sum of all balances grows by exactly the block reward plus each uncle's credit and 1/32 bonus |
| Rewards.RewardParts | go-ethereum/core/state_processor.go:135-149 | The block reward is 5 ether, the bonus for each uncle a thirty-second of it, and an uncle's credit as many eighths as eight exceeds its distance |
| Rewards.IssuedParts | go-ethereum/core/state_processor.go:135-149 | All that a block issues, in thirty-seconds of the reward: 32, one for each uncle, and four times the eighths of their miners |
| Rewards.UncleRewardBounds | go-ethereum/core/state_processor.go:139-144 | For every uncle of every block that passed the check, whatever came before it: the credit is (8 - distance)/8 of the block reward, between 2/8 and 7/8 |
| Rewards.UncleRewardsBound | go-ethereum/core/state_processor.go:138-148 | The same bounds summed over the uncles of a block |
| Rewards.IssuedBounds | go-ethereum/core/state_processor.go:135-149 | No block that passed the check issues less than one block reward, or more than one plus 14/8 for two uncles plus two bonuses of 1/32 |
| Rewards.TotalAfterCredit | go-ethereum/core/state_processor.go:143-149 | A credit raises the sum of all balances by its amount, for new and old accounts |
| Rewards.TotalWithout | go-ethereum/core/state_processor.go:135-149 | The sum of balances does not depend on the order of summation |
| Accounts.UnlockedKeysAreLive | go-ethereum/accounts/account_manager.go:183-267 | In every interleaving of unlocks, locks and timers: a key in the map is never zeroed and belongs to its address, and each abort channel exists when closed and is closed at most once |
| Accounts.EntryChanges | go-ethereum/accounts/account_manager.go:183-267 | After any run the only step that removes an entry is the expiry started for that very record, the only step that replaces one is a new unlock of a timed entry, which puts a live record of the kind asked for in its place, and both always do |
| Accounts.EntryAppears | go-ethereum/accounts/account_manager.go:201-229 | An address gets an entry exactly by being unlocked, with a fresh live record |
| Accounts.IndefiniteUntilLocked | go-ethereum/accounts/account_manager.go:201-229 | An indefinite unlock survives, with the same key, every continuation in which nobody locks it |
| Accounts.IndefiniteOnRequest | go-ethereum/accounts/account_manager.go:201-229 | After any run in which the account is locked or timed, an unlock without a timeout makes a record that stays, live, through every continuation in which nobody locks the account, whatever timers and locks of earlier records are under way |
| Accounts.UnlockStartsTimer | go-ethereum/accounts/account_manager.go:201-229 | A timed unlock starts one timer, for the record it makes, an indefinite one none, and unlocking what is unlocked indefinitely changes nothing |
| Accounts.TimerLocks | go-ethereum/accounts/account_manager.go:249-267 | When that timer fires undisturbed it locks exactly this account and zeroes its key |
| Accounts.ReplacedTimerReturns | go-ethereum/accounts/account_manager.go:249-267 | The timer of a replaced record returns without touching anything |
| Accounts.LockLocks | go-ethereum/accounts/account_manager.go:183-192 | A lock that runs undisturbed removes exactly that account and zeroes its key, timed or not |
| Accounts.RunKeepsInv | go-ethereum/accounts/account_manager.go:183-267 | The protocol invariant holds after every sequence of steps |
| Accounts.StepKeepsInv | go-ethereum/accounts/account_manager.go:183-267 | Every step keeps it: live entries with a running timer of their own, records that left the map in exactly one of two ways, expiries of the right address |
| Accounts.UnlockKeepsInv | go-ethereum/accounts/account_manager.go:201-229 | Also an unlock that replaces a timed entry and closes its channel |
| Accounts.DropKeepsInv | go-ethereum/accounts/account_manager.go:249-267 | Also an expiry that comes too late for its record |
| Icap.IcapRoundTrip | go-ethereum/common/icap.go:39-63 | Every 20-byte address survives encoding and decoding; the code has length 34 or 35 and a valid checksum |
| Icap.DecodeEncodeIff | go-ethereum/common/icap.go:39-63 | A code that decodes is the encoding of its address if and only if its check digits are 02 to 98 and, in the long form, it has no leading zero and does not overflow 160 bits |
| Icap.DecodeVerdict | go-ethereum/common/icap.go:39-77 | Which codes decode, and which error each other one gets: length, country code, asset, characters, checksum, in that order |
| Icap.ZeroAddress | go-ethereum/common/icap.go:79-87 | The code of the zero address is XE50 and thirty zeros |
| Icap.LongerCodeDecodes | go-ethereum/common/icap.go:39-63 | A failing input for every address of thirty digits: its digits behind one more zero, with the check digits of the longer body, decode to it and are not its encoding |
| Icap.DecodesWithCheckDigits | go-ethereum/common/icap.go:39-63 | Any body of 30 or 31 digits behind its check digits decodes to its value modulo 160 bits |
| Icap.EncodedIsCanonical | go-ethereum/common/icap.go:79-87 | Every encoding is of that canonical form |
| Icap.CanonicalIsEncoded | go-ethereum/common/icap.go:39-63 | Every canonical code that decodes is an encoding |
| Icap.SubstitutionDetected | go-ethereum/common/icap.go:116-127 | In a code of any length, replacing one digit by another or one letter by another, anywhere, makes the checksum fail (ISO/IEC 7064 MOD 97-10) |
| Icap.TranspositionDetected | go-ethereum/common/icap.go:116-127 | So does exchanging two different neighbours of one class, except across the place where the rotation cuts |
| Icap.CheckDigitsFit | go-ethereum/common/icap.go:129-140 | The computed check digits are two digits between 02 and 98 and make the checksum hold for every base-36 body |
| Icap.CheckSumOf | go-ethereum/common/icap.go:116-127 | Accepts exactly the codes whose rotated expansion, read as a decimal number, is 1 modulo 97, with separate errors for bad characters and bad sums |
| Icap.Iso13616Expand | go-ethereum/common/icap.go:143-157 | The loop expands exactly the valid strings, letters to two digits, and refuses all others |
| Icap.ExpansionNumber | go-ethereum/common/icap.go:143-157 | The expanded digits read in decimal are the number the checksum is taken of |
| Icap.Base36Encode | go-ethereum/common/icap.go:159-175 | Repeated division and in-place reversal give the base-36 digits, most significant first |
| Icap.ReverseSlice | go-ethereum/common/icap.go:170-173 | Swapping from both ends reverses |
| Icap.Base36RoundTrip | go-ethereum/common/icap.go:159-175 | Reading the digits back gives the number |
| Icap.Base36Length | go-ethereum/common/icap.go:159-175 | A number needs at most k digits exactly when it is below 36 to the k, and there is no leading zero |
| Icap.AddressDigits | go-ethereum/common/icap.go:79-87 | Thirty digits are too few for some addresses and thirty-one enough for all |
| Icap.PaddedFacts | go-ethereum/common/icap.go:79-87 | The padded body has 30 or 31 digits and the address as its value; country code, check digits and body are where the decoder looks |
| GlobMatch.GreedyIsExactIff | elvish/glob/glob.go:165-243 | For every pattern without slashes: the greedy matcher accepts exactly the names the pattern spells, on all names, if and only if no empty literal dangles at its end |
| GlobMatch.NonemptyLiteralsDoNotDangle | elvish/glob/glob.go:165-243 | In particular for nonempty literals |
| GlobMatch.Match | elvish/glob/glob.go:165-221 | Every name that matches is spelled by the segments under the dot rule (a leading dot is met by a literal or by a wildcard that matches all files), and without a dangling empty literal every such name matches; the loop over chunks agrees with trying all star lengths |
| GlobMatch.MatchMeaning | elvish/glob/glob.go:165-243 | The same of the matching relation |
| GlobMatch.PlaceChunk | elvish/glob/glob.go:198-217 | A chunk is placed at its leftmost fitting position, only at the start without a star, and not found only when no position fits |
| GlobMatch.MatchChunk | elvish/glob/glob.go:225-243 | A chunk of literals and question marks matches exactly when it is a prefix, and the rest of the name is left |
| GlobMatch.LeftmostIsEnough | elvish/glob/glob.go:186-217 | If any position of a chunk leads to a match the leftmost one does |
| GlobMatch.StarAbsorbs | elvish/glob/glob.go:186-217 | What a star pattern accepts it accepts with more in front |
| GlobMatch.AcceptsChunk | elvish/glob/glob.go:225-243 | Matching a chunk and then the tail is matching the whole |
| GlobMatch.AcceptsSound | elvish/glob/glob.go:165-243 | Every accepted name splits into pieces that the segments spell |
| GlobMatch.AcceptsComplete | elvish/glob/glob.go:165-243 | Every spelled name is accepted unless an empty literal dangles |
| GlobMatch.DanglingRejects | elvish/glob/glob.go:226-230 | With a dangling empty literal the shortest spelled name is refused |
| GlobWalk.ReportedIffExpansionReaches | elvish/glob/glob.go:56-161 | For every pattern, directory and finite tree a path is reported exactly when the components of some expansion of the pattern, ** spanning slashes any number of times, lead to it: lone literals by stat of the joined path, empty and slashed ones included, all others by matching names with the dot rule |
| GlobWalk.ReportedPathResolves | elvish/glob/glob.go:56-161 | Every reported path, resolved from the working directory, is the node that the pattern reached, on every tree with proper and distinct names, if and only if it is not the report of the empty pattern in a working directory below the root |
| GlobWalk.ExtendIsClean | elvish/glob/glob.go:61-69 | Joining a proper name to a directory makes no double slash and leaves none at the end |
| GlobWalk.ReportsNothingHidden | elvish/glob/glob.go:56-176 | If no wildcard matches all files, a walk reports nothing hidden, and nothing below anything hidden, that no literal of the pattern asks for |
| GlobWalk.HiddenNeedsLiteral | elvish/glob/glob.go:165-176 | However such a pattern leads to a node, every hidden name on the way is met by a component that begins with a literal |
| GlobWalk.UpAgain | elvish/glob/glob.go:57-60 | Going into a directory and up again leads back |
| GlobWalk.ArrivalResolves | elvish/glob/glob.go:56-161 | However the components lead to a node, the string written for it names that node, with that one exception |
| GlobWalk.StatIsResolve | elvish/glob/glob.go:61-79 | Looking a literal up in the directory at hand is stat of the path the code joins, for every directory string and every literal |
| GlobWalk.FollowJoin | elvish/glob/glob.go:61-79 | Resolving a joined path is resolving its parts one after the other |
| GlobWalk.EscapedSlash | elvish/glob/glob.go:60-88 | A literal with an escaped slash in it reports what the two literals with a slash between them report, unless the first part is nothing or the root |
| GlobWalk.TrailingBackslash | elvish/glob/glob.go:60-94 | The empty literal that a trailing backslash leaves behind a slash reports what the slash alone does, unless what is before it is nothing or the root |
| GlobWalk.WalkExact | elvish/glob/glob.go:56-161 | For every pattern, directory and tree a path is reported if and only if some cutting of the pattern into components reaches it |
| GlobWalk.CutsAreExpansions | elvish/glob/glob.go:123-149 | Cutting at slashes and inside ** is the same as replacing each ** by ** / ** any number of times and splitting at the slashes |
| GlobWalk.ComponentsHaveNoSlash | elvish/glob/glob.go:123-149 | Components never contain a slash, so that covers every cutting |
| GlobWalk.WalkFromExact | elvish/glob/glob.go:123-160 | Enumerating the position of the first slash misses no cutting and adds none |
| GlobWalk.WalkIntoExact | elvish/glob/glob.go:135-142 | Entering the matching directories reports exactly what is reached through one of them |
| GlobWalk.LeavesExact | elvish/glob/glob.go:151-160 | Without a slash exactly the matching names are reported |
| GlobWalk.Glob | elvish/glob/glob.go:56-94 | The recursion ends (segments left, then directory height) and delivers the reports in order, literals looked up as paths, cut off exactly where the callback stops it |
| GlobWalk.GlobDir | elvish/glob/glob.go:96-161 | The same for the part after the literal prefix |
| GlobWalk.TryCut | elvish/glob/glob.go:124-142 | One position of the first slash delivers exactly its reports |
| GlobWalk.NextCut | elvish/glob/glob.go:107-115 | Skipping to the next slash or ** loses no report |
| GlobWalk.EnterDirs | elvish/glob/glob.go:135-142 | The loop over directories delivers their reports in order and stops at once when told to |
| GlobWalk.ReportLeaves | elvish/glob/glob.go:151-160 | So does the loop over names |
| ElvishQuote.QuoteRoundTrip | elvish/parse/quote.go:26-106 | For every string, every requested style and every notion of printability, anywhere in a text, in head position or not, with an empty cutset and followed by the end or by anything that cannot start a primary: the quoted text parses as one compound of one string primary with the original value and the reported style, without error and without reading further |
| ElvishQuote.StyleIff | elvish/parse/quote.go:26-51 | Double quotes are used on request and for an unprintable character only; the text stays bare exactly when that is asked for, all of it is printable and the parser reads the text itself as one bareword; all else is single-quoted |
| ElvishQuote.DoubleCharForm | elvish/parse/quote.go:83-104 | Between double quotes a character with a letter of its own takes two characters, one that cannot be shown the shortest hexadecimal form with room for it, and any other stands for itself |
| ElvishQuote.ReadsAsBarewordIff | elvish/parse/parse.go:693-705 | A text on its own parses as one bareword exactly when it is nonempty, begins with no tilde and has only characters allowed in barewords |
| ElvishQuote.BarewordTable | elvish/parse/parse.go:1063-1075 | Which ASCII characters barewords may have, in and outside the command head, and that beyond ASCII it is the printable ones |
| ElvishQuote.StartTable | elvish/parse/parse.go:1077-1080 | What a primary can begin with |
| ElvishQuote.EscapeTable | elvish/parse/parse.go:831-838 | The letters of the simple escapes and the characters they stand for |
| ElvishQuote.OctalReads | elvish/parse/parse.go:803-815 | Three octal digits are read as their value |
| ElvishQuote.ControlReads | elvish/parse/parse.go:773-781 | A control escape is read as its letter less 0x40 |
| ElvishQuote.HexTable | elvish/parse/parse.go:848-859 | Hexadecimal digits are read in either case |
| ElvishQuote.UnknownEscape | elvish/parse/parse.go:816-824 | An unknown escape is reported where it stands and stands for nothing |
| ElvishQuote.DigitsStop | elvish/parse/parse.go:793-814 | A character that is no digit is reported where it stands, and the digits before it count |
| ElvishQuote.ControlRefused | elvish/parse/parse.go:773-781 | What cannot be a control character is reported where it stands, and reading goes on behind it |
| ElvishQuote.UnterminatedSingle | elvish/parse/parse.go:739-743 | A single-quoted text that is never closed is read to the end, and that is reported there |
| ElvishQuote.UnterminatedDouble | elvish/parse/parse.go:764-768 | So is a double-quoted one |
| ElvishQuote.TildeThenWord | elvish/parse/parse.go:569-588 | A tilde in front is a part of its own |
| ElvishQuote.SpaceStops | elvish/parse/parse.go:569-574 | A space or the end of the text is such a follower |
| ElvishQuote.PrimaryReads | elvish/parse/parse.go:693-732 | One primary is read, it is the original string, and a leading tilde is never mistaken for one |
| ElvishQuote.SingleReads | elvish/parse/parse.go:734-757 | Single-quoted text, inner quotes doubled, reads back as the string |
| ElvishQuote.DoubleReads | elvish/parse/parse.go:759-829 | Double-quoted text with all its escapes reads back as the string |
| ElvishQuote.DoubleOne | elvish/parse/parse.go:771-824 | What is written for one character is read as that character and nothing else |
| ElvishQuote.HexReads | elvish/parse/parse.go:782-802 | Any number written in w hexadecimal digits is read back from exactly those digits |
| ElvishQuote.BarewordReads | elvish/parse/parse.go:1055-1061 | A bareword is read to its end and no further |
| ElvishQuote.UnescapeInvertsEscape | elvish/parse/parse.go:832-846 | The table of the writer is the inverse of the table of the reader |
| ElvishQuote.QuoteAs | elvish/parse/quote.go:26-51 | The flag kept by the loop picks bare, single or double exactly by emptiness, first character, printability and the requested style |
| ElvishQuote.QuoteSingle | elvish/parse/quote.go:53-64 | The buffer ends up as the quoted text that the reader undoes |
| ElvishQuote.QuoteDouble | elvish/parse/quote.go:80-106 | The same for the double-quoted style |
| ElvishQuote.WriteDouble | elvish/parse/quote.go:83-104 | Each character gets its letter escape, the shortest sufficient hexadecimal escape, or itself |
| ElvishQuote.RToHex | elvish/parse/quote.go:66-78 | Filling the array from the back gives the digits, most significant first |
| ElvishParser.EscapeProgress | elvish/parse/parse.go:771-824 | An escape, also a refused one that steps back, ends behind its backslash, so the string loop ends |
| ElvishParser.BackupUndoesNext | elvish/parse/parser.go:65-85 | Stepping back undoes the last step, also at the end of the text |
| ElvishParser.CutReadsAsEnd | elvish/parse/parser.go:31-76 | A character of the cutset reads as the end and is not passed |
| ElvishParser.EofIsNoWord | elvish/parse/parse.go:1055-1075 | The end of input starts nothing and belongs to no bareword |
| ElvishParser.Parser.PeekRune | elvish/parse/parser.go:31-40 | The next character, or the end at the end of the text or on a cut character |
| ElvishParser.Parser.NextRune | elvish/parse/parser.go:65-76 | Moves over one character, or counts one more read past the end |
| ElvishParser.Parser.BackupRune | elvish/parse/parser.go:78-85 | Takes back a read past the end first, a character otherwise |
| ElvishParser.Parser.ErrorHere | elvish/parse/parser.go:102-108 | Records an error at the current position and changes nothing else |
| ElvishParser.Parser.SingleQuotedString | elvish/parse/parse.go:734-757 | On every input the loop computes the value, position and errors that the reading function describes |
| ElvishParser.Parser.DoubleQuotedString | elvish/parse/parse.go:759-829 | The same, and it ends on every input |
| ElvishParser.Parser.EscapeSequence | elvish/parse/parse.go:771-824 | The same for one escape, refused ones included |
| ElvishParser.Parser.HexEscape | elvish/parse/parse.go:792-801 | Up to n digits, stopping with an error at the first other character |
| ElvishParser.Parser.OctEscape | elvish/parse/parse.go:803-815 | Two more digits, stopping with an error at the first other character |
| ElvishParser.Parser.BarewordString | elvish/parse/parse.go:1055-1061 | The value is the text moved over, up to the first character not allowed |
| ElvishParser.Parser.PrimaryNode | elvish/parse/parse.go:693-732 | The branch taken, value and position on every input within the modelled primaries |
| ElvishParser.Parser.CompoundNode | elvish/parse/parse.go:569-588 | All primaries up to the first character that starts none, a tilde only in front |

## Left out

- Runs that mix SetHead, Rollback or FastSyncCommitHead with later inserts: rewinding removes only the current path and leaves side branches without ancestors; SetHead is one operation here.
- Fast sync (InsertReceiptChain), receipts, logs, blooms, events and statistics.
- ChainInsert.InsertChain: that no transaction repeats on a path is a premise on execution (NoReplay), and that the nonce verifier answers for every block is one on the verifier (Complete); that its answers are right (Honest) is used only by the theorems about what is stored; the periodic retry of queued blocks is a sequence of such calls.
- BlockChain.BlockChain.InsertBlocks: takes acceptable blocks one by one; how InsertChain comes to accept, queue or refuse them is in ChainInsert.
- BlockChain.BlockChain.constructor: opens a fresh database; an existing one is opened by Reopen.
- BlockChain.BlockChain.Reopen: the check that the head's state is in the database and the rewinding past blacklisted blocks are not modelled.
- HeaderChain.HeaderChain.constructor: opens a database that holds only the genesis block; an existing one is opened by Open and LoadHead; writing the default genesis block into an empty one is not modelled.
- BlockChain.BlockChain.Reorg: receipts, logs and the posted events are not modelled, and the two error messages are one failure.
- The caches of bodies and blocks: apart from the parent lookup of validation the block path reads the database directly; cache coherence is proved for the three caches of the header chain.
- Database errors, byte encodings, the old key formats, and the size and recency order of the LRU caches.
- EVM execution, state trie, RLP, cryptography and proof-of-work itself.
- HeaderImport.MarkForPow: an empty batch and a check frequency of zero, on which the source fails (an index out of range, a division by zero), are excluded.
- Accounts.StepKeepsInv: the manager is a state machine on values rather than a class, because its property is about interleavings; decryption failures, key files, signing and directory watching are not modelled.
- GlobMatch.Match: for names of single-byte characters; after a star the source skips bytes while a question mark takes a whole rune.
- GlobWalk.Glob: the file system is a finite tree without links and without permission errors that stays the same during the walk; the pattern parser, a leading slash and DirOverride only choose pattern and starting directory.
- ElvishQuote.QuoteRoundTrip: for strings of Unicode characters; invalid UTF-8 has no character to quote. Positions count characters where the source counts bytes.
- ElvishParser.Parser.PrimaryNode: variables, wildcards, captures, lists, lambdas and braces are reported as outside the model, and so are indices after a primary; quoting never produces them.
- ElvishParser.Parser.CompoundNode: stops with no result at a primary outside the model or at an index, for the same reason.
- ElvishParser.Parser.EscapeSequence: a control escape that was refused writes a raw byte in the source and the character of that code here.
- The cutset stack of the elvish parser: the counters are read, but pushing, popping, cutting and uncutting are not modelled.
- Indirect ICAP codes and name registries.
- The rest of the elvish parser, its compiler, evaluator and editor, and the bip39, dapp, pubnub, sshesame and goplsource directories.
