/**
 The block chain: block bodies next to the headers, the canonical map, the transaction index, and
 the reorganisation that moves all of them to a heavier branch. Lookups read the database directly;
 that the caches in front of it do not change what is read is shown for the header chain.
 */
module BlockChain {
  import opened Options
  import opened ChainTypes
  import opened ChainDb
  import opened HeaderRuns
  import opened Ancestor
  import opened TxIndex

  datatype Body = Body(txs: seq<Tx>, uncles: seq<Header>)

  function BlockOf(h: Header): Block {
    Block(h, TxsOf(h), UnclesOf(h))
  }

  function BodyOf(h: Header): Body {
    Body(TxsOf(h), UnclesOf(h))
  }

  function GetBlock(db: Db, bodies: map<Key, Body>, hash: Hash, number: int): Option<Block> {
    var header := GetHeader(db, hash, number);
    var body := Lookup(bodies, (number, hash));
    if header.None? || body.None? then None
    else Some(Block(header.value, body.value.txs, body.value.uncles))
  }

  /** Every stored header has its body stored with it. */
  ghost predicate HoldsBodies(bodies: map<Key, Body>, stored: set<Header>) {
    forall h :: h in stored ==> KeyOf(h) in bodies && bodies[KeyOf(h)] == BodyOf(h)
  }

  lemma HoldsBlock(db: Db, bodies: map<Key, Body>, stored: set<Header>, hash: Hash, number: int)
    requires Holds(db, stored) && HoldsBodies(bodies, stored)
    requires In(hash, stored) ==> TrueNumber(hash, number)
    ensures GetBlock(db, bodies, hash, number) == if In(hash, stored) then Some(BlockOf(hash.header)) else None
  {
    hide HoldsHeaders, HoldsTds, HoldsNumbers;
    HoldsRead(db, stored, hash, number);
    if In(hash, stored) {
      assert (number, hash) == KeyOf(hash.header);
    }
  }

  /** With any other number nothing is found. */
  lemma HoldsBlockIff(db: Db, bodies: map<Key, Body>, stored: set<Header>, hash: Hash, number: int)
    requires Holds(db, stored) && HoldsBodies(bodies, stored)
    ensures GetBlock(db, bodies, hash, number) ==
      if In(hash, stored) && number == hash.header.number then Some(BlockOf(hash.header)) else None
  {
    if In(hash, stored) && number == hash.header.number {
      hide HoldsHeaders, HoldsTds, HoldsNumbers;
      HoldsBlock(db, bodies, stored, hash, number);
    }
  }

  // ----- branches -----

  /** The blocks of a path above number `k`, topmost first. */
  function Branch(path: seq<Header>, k: int): seq<Block>
    requires -1 <= k < |path|
  {
    seq(|path| - 1 - k, j requires 0 <= j < |path| - 1 - k => BlockOf(path[|path| - 1 - j]))
  }

  lemma BranchStep(path: seq<Header>, k: int)
    requires 0 <= k < |path|
    ensures Branch(path, k - 1) == Branch(path, k) + [BlockOf(path[k])]
  {
  }

  lemma BranchTop(path: seq<Header>)
    requires path != []
    ensures Branch(path, |path| - 1) == [] && TxsOfBlocks([]) == []
  {
  }

  function TxsOfBlocks(bs: seq<Block>): seq<Tx> {
    if bs == [] then [] else TxsOfBlocks(bs[..|bs| - 1]) + bs[|bs| - 1].txs
  }

  lemma TxsOfBlocksStep(bs: seq<Block>, b: Block)
    ensures TxsOfBlocks(bs + [b]) == TxsOfBlocks(bs) + b.txs
  {
    assert (bs + [b])[..|bs|] == bs;
  }

  /** The transactions collected from a branch are those a scan finds above `k`. */
  lemma {:induction false} BranchTxs(path: seq<Header>, k: int, tx: Tx)
    requires -1 <= k < |path|
    ensures tx in TxsOfBlocks(Branch(path, k)) <==> InBranch(path, k, tx)
    decreases |path| - k
  {
    if k < |path| - 1 {
      BranchTxs(path, k + 1, tx);
      BranchStep(path, k + 1);
      TxsOfBlocksStep(Branch(path, k + 1), BlockOf(path[k + 1]));
      var txs := TxsOf(path[k + 1]);
      if tx in txs {
        var i :| 0 <= i < |txs| && txs[i] == tx;
        assert SitsAt(path, tx, TxMeta(Digest(path[k + 1]), k + 1, i));
      }
      if InBranch(path, k, tx) && !InBranch(path, k + 1, tx) {
        var m :| SitsAt(path, tx, m) && m.blockIndex > k;
        assert m.blockIndex == k + 1;
      }
    }
  }

  /** `p[k]` is where the paths part, and the lists are the branches above it. */
  ghost predicate BranchesAbove(a: Header, b: Header, k: int,
                                oldChain: seq<Block>, newChain: seq<Block>, deletedTxs: seq<Tx>)
  {
    && 0 <= k < |Path(a)| && k < |Path(b)|
    && IsLastCommon(a, b, Path(a)[k])
    && oldChain == Branch(Path(a), k)
    && newChain == Branch(Path(b), k)
    && deletedTxs == TxsOfBlocks(oldChain)
  }

  lemma DescendBlocked(stored: set<Header>, a: Header, b: Header)
    requires Linked(a) && Linked(b)
    requires (a.number > b.number && !BranchStored(stored, a, b.number)) ||
             (a.number <= b.number && !BranchStored(stored, b, a.number))
    ensures !WalkStored(stored, a, b)
  {
    PathIndexing(a);
    PathIndexing(b);
  }

  lemma OverlayTop(idx: Index, path: seq<Header>)
    ensures Overlay(idx, idx, path, |path| - 1)
  {
  }

  // ----- the canonical map on the block path -----

  /** Up to the head the canonical map is the parent path. Inserting a block does not clear higher
      numbers, so the map can go on above the head. */
  ghost predicate CanonAgrees(canon: map<int, Hash>, path: seq<Header>) {
    forall n :: 0 <= n < |path| ==> n in canon && canon[n] == Digest(path[n])
  }

  /** The numbers in the map are those up to `top`. */
  ghost predicate CanonUpTo(canon: map<int, Hash>, top: nat) {
    forall n :: n in canon <==> 0 <= n <= top
  }

  /** The map is that of the head and no more exactly when it stops at the head. */
  lemma CanonExactIff(canon: map<int, Hash>, head: Header, top: nat)
    requires Linked(head) && CanonAgrees(canon, Path(head)) && CanonUpTo(canon, top)
    ensures head.number <= top
    ensures canon == CanonOf(head) <==> top == head.number
  {
    PathIndexing(head);
    assert head.number in canon;
    if top > head.number {
      assert top in canon && top !in CanonOf(head);
    }
  }

  lemma CanonUpToAfterReorg(canon: map<int, Hash>, canon': map<int, Hash>, q: seq<Header>, k: int, top: nat)
    requires CanonUpTo(canon, top) && 0 <= k < |q| && k in canon && CanonOverlay(canon, canon', q, k)
    ensures CanonUpTo(canon', Higher(top, |q| - 1))
  {
  }

  lemma CanonUpToAfterExtend(canon: map<int, Hash>, top: nat, p: seq<Header>, hash: Hash)
    requires CanonUpTo(canon, top) && CanonAgrees(canon, p) && p != []
    ensures CanonUpTo(canon[|p| := hash], Higher(top, |p|))
  {
    assert |p| - 1 in canon;
  }

  function Higher(m: nat, n: nat): nat {
    if m < n then n else m
  }

  ghost predicate CanonStored(canon: map<int, Hash>, stored: set<Header>) {
    forall n :: n in canon ==> In(canon[n], stored)
  }

  /** `canon'` is `canon` with the branch of `path` above `k` written over it. */
  ghost predicate CanonOverlay(canon: map<int, Hash>, canon': map<int, Hash>, path: seq<Header>, k: int) {
    && (forall n :: n in canon' <==> n in canon || (k < n < |path| && 0 <= n))
    && (forall n :: n in canon' ==> canon'[n] == if k < n < |path| && 0 <= n then Digest(path[n]) else canon[n])
  }

  lemma CanonOverlayTop(canon: map<int, Hash>, path: seq<Header>)
    ensures CanonOverlay(canon, canon, path, |path| - 1)
  {
  }

  /** Writing number `k` extends the overlay down by one; until then the number is as it was. */
  lemma CanonOverlayStep(canon: map<int, Hash>, canon': map<int, Hash>, path: seq<Header>, k: nat)
    requires k < |path| && CanonOverlay(canon, canon', path, k)
    ensures CanonOverlay(canon, canon'[k := Digest(path[k])], path, k - 1)
    ensures (k in canon <==> k in canon') && (k in canon ==> canon[k] == canon'[k])
  {
  }

  class BlockChain {
    const genesis: Header
    var db: Db
    var bodies: map<Key, Body>
    var txIndex: Index
    var headBlockHash: Hash
    var headFastHash: Hash
    var currentBlock: Block
    var currentFastBlock: Block
    var currentHeader: Header  // the head of the header chain, as the block path leaves it
    var futureBlocks: map<Hash, Block>

    ghost var stored: set<Header>
    ghost var top: nat  // the highest canonical number

    ghost predicate StoreOk()
      reads this
    {
      Holds(db, stored) && HoldsBodies(bodies, stored)
    }

    ghost function View(): Chain
      reads this
    {
      Chain(genesis, stored, currentBlock.header)
    }

    /** Everything but the transaction index. */
    ghost predicate ChainOk()
      reads this
    {
      && StoreOk()
      && Inv(View()) && PositiveDifficulty(View())
      && currentBlock == BlockOf(currentBlock.header)
      && CanonAgrees(db.canon, Path(currentBlock.header))
      && CanonStored(db.canon, stored)
      && CanonUpTo(db.canon, top)
      && HeadsStored() && HeadsIn(stored)
    }

    /** The database knows the heads that the chain has in memory. */
    ghost predicate HeadsStored()
      reads this
    {
      && headBlockHash == Digest(currentBlock.header)
      && headFastHash == Digest(currentFastBlock.header)
      && db.headHeader == Digest(currentHeader)
    }

    /** The other two heads are stored blocks. */
    ghost predicate HeadsIn(stored: set<Header>)
      reads this
    {
      && currentHeader in stored && currentFastBlock.header in stored
      && currentFastBlock == BlockOf(currentFastBlock.header)
    }

    ghost predicate Valid()
      reads this
    {
      ChainOk() && IndexExact(txIndex, Path(currentBlock.header))
    }

    // ----- the two branches of a reorganisation -----

    method ParentBlock(ghost tip: Header, b: Block) returns (r: Option<Block>)
      requires StoreOk() && Linked(tip) && OnPath(tip, b.header)
      ensures r.Some? ==> b.header.number > 0 && OnPath(tip, r.value.header) && r.value == BlockOf(r.value.header)
      ensures r.Some? ==> r.value.header.number == b.header.number - 1 && r.value.header in stored
      ensures r.None? ==> b.header.number == 0 || Path(tip)[b.header.number - 1] !in stored
    {
      hide HoldsHeaders, HoldsTds, HoldsNumbers, HoldsBodies, Linked, Path;
      var h := b.header;
      ParentOnPath(tip, h);
      HoldsBlock(db, bodies, stored, h.parentHash, h.number - 1);
      r := GetBlock(db, bodies, h.parentHash, h.number - 1);
    }

    /** Reduce one side to the height of the other: follow parents down to number `to`, collecting
        the blocks passed and their transactions. */
    method Descend(start: Block, to: nat)
      returns (r: Option<Block>, chain: seq<Block>, txs: seq<Tx>)
      requires StoreOk() && Linked(start.header) && start == BlockOf(start.header) && to <= start.header.number
      ensures r.Some? <==> BranchStored(stored, start.header, to)
      ensures r.Some? ==>
        && OnPath(start.header, r.value.header) && r.value == BlockOf(r.value.header) && r.value.header.number == to
        && chain == Branch(Path(start.header), to) && txs == TxsOfBlocks(chain)
    {
      hide StoreOk, Linked, Path, Branch, TxsOfBlocks;
      ghost var path := Path(start.header);
      PathIndexing(start.header);
      BranchTop(path);
      var b := start;
      chain, txs := [], [];
      while b.header.number != to
        invariant OnPath(start.header, b.header) && b == BlockOf(b.header) && to <= b.header.number
        invariant chain == Branch(path, b.header.number) && txs == TxsOfBlocks(chain)
        invariant BranchStored(stored, start.header, b.header.number)
        decreases b.header.number
      {
        BranchStep(path, b.header.number);
        TxsOfBlocksStep(chain, b);
        chain, txs := chain + [b], txs + b.txs;
        var up := ParentBlock(start.header, b);
        if up.None? {
          return None, chain, txs;
        }
        b := up.value;
      }
      r := Some(b);
    }

    /** Walk both branches down to where they meet. For any store: this succeeds exactly when the
        paths meet and the headers on the way are stored, and then the two lists are the two branches
        strictly above the last common ancestor, topmost first. */
    method Branches(oldStart: Block, newStart: Block)
      returns (ok: bool, oldChain: seq<Block>, newChain: seq<Block>, deletedTxs: seq<Tx>, ghost k: int)
      requires StoreOk() && Linked(oldStart.header) && Linked(newStart.header)
      requires oldStart == BlockOf(oldStart.header) && newStart == BlockOf(newStart.header)
      ensures ok <==> WalkStored(stored, oldStart.header, newStart.header)
      ensures ok ==> BranchesAbove(oldStart.header, newStart.header, k, oldChain, newChain, deletedTxs)
    {
      hide StoreOk, Linked, Path, WalkStored, IsLastCommon, Branch, TxsOfBlocks;
      ghost var a, b := oldStart.header, newStart.header;
      ghost var p, q := Path(a), Path(b);
      PathIndexing(a);
      PathIndexing(b);
      k := 0;
      var oldBlock, newBlock, txs;
      if oldStart.header.number > newStart.header.number {
        newChain := [];
        BranchTop(q);
        newBlock := Some(newStart);
        oldBlock, oldChain, deletedTxs := Descend(oldStart, newStart.header.number);
      } else {
        oldChain, deletedTxs := [], [];
        BranchTop(p);
        oldBlock := Some(oldStart);
        newBlock, newChain, txs := Descend(newStart, oldStart.header.number);
      }
      if oldBlock.None? || newBlock.None? {
        DescendBlocked(stored, a, b);
        return false, oldChain, newChain, deletedTxs, k;
      }
      var ob, nb := oldBlock.value, newBlock.value;
      while ob.header != nb.header
        invariant OnPath(a, ob.header) && ob == BlockOf(ob.header)
        invariant OnPath(b, nb.header) && nb == BlockOf(nb.header)
        invariant ob.header.number == nb.header.number
        invariant oldChain == Branch(p, ob.header.number) && deletedTxs == TxsOfBlocks(oldChain)
        invariant newChain == Branch(q, nb.header.number)
        invariant BranchStored(stored, a, ob.header.number) && BranchStored(stored, b, nb.header.number)
        invariant DifferAbove(a, b, ob.header.number)
        decreases ob.header.number
      {
        BranchStep(p, ob.header.number);
        TxsOfBlocksStep(oldChain, ob);
        BranchStep(q, nb.header.number);
        oldChain, newChain := oldChain + [ob], newChain + [nb];
        deletedTxs := deletedTxs + ob.txs;
        var oldUp := ParentBlock(a, ob);
        var newUp := ParentBlock(b, nb);
        if oldUp.None? {
          Blocked(stored, a, b, ob.header.number);
          return false, oldChain, newChain, deletedTxs, k;
        }
        if newUp.None? {
          Blocked(stored, b, a, nb.header.number);
          return false, oldChain, newChain, deletedTxs, k;
        }
        ob, nb := oldUp.value, newUp.value;
      }
      MeetingPointIsLast(a, b, ob.header);
      MetWalk(stored, a, b, ob.header);
      ok, k := true, ob.header.number;
    }

    // ----- inserting -----

    /** Make `block` the head block; the other two heads follow only if its number was not already
        assigned to it. */
    method Insert(block: Block)
      modifies this`db, this`headBlockHash, this`headFastHash
      modifies this`currentBlock, this`currentFastBlock, this`currentHeader
      ensures currentBlock == block && (old(HeadsStored()) ==> HeadsStored())
      ensures db == old(db).(
        canon := old(db.canon)[block.header.number := Digest(block.header)], headHeader := db.headHeader)
      ensures if GetCanonicalHash(old(db), block.header.number) != Digest(block.header)
              then currentHeader == block.header && currentFastBlock == block
              else currentHeader == old(currentHeader) && currentFastBlock == old(currentFastBlock)
    {
      var updateHeads := GetCanonicalHash(db, block.header.number) != Digest(block.header);
      db := WriteCanonicalHash(db, Digest(block.header), block.header.number);
      headBlockHash := Digest(block.header);
      currentBlock := block;
      if updateHeads {
        db := WriteHeadHeaderHash(db, Digest(block.header));
        currentHeader := block.header;
        headFastHash := Digest(block.header);
        currentFastBlock := block;
      }
    }

    /** Insert the blocks of the new branch, topmost first, and index their transactions. */
    method InsertBranch(newChain: seq<Block>, ghost path: seq<Header>, ghost k: nat) returns (addedTxs: seq<Tx>)
      requires k < |path| && newChain == Branch(path, k) && NoRepeat(path)
      requires forall i :: 0 <= i < |path| ==> path[i].number == i
      modifies this`db, this`headBlockHash, this`headFastHash
      modifies this`currentBlock, this`currentFastBlock, this`currentHeader
      modifies this`txIndex
      ensures db == old(db).(canon := db.canon, headHeader := db.headHeader)
      ensures CanonOverlay(old(db.canon), db.canon, path, k)
      ensures old(HeadsStored()) ==> HeadsStored()
      ensures old(HeadsIn(stored)) && (forall i :: 0 <= i < |path| ==> path[i] in stored) ==> HeadsIn(stored)
      ensures Overlay(old(txIndex), txIndex, path, k)
      ensures addedTxs == TxsOfBlocks(newChain)
      ensures k < |path| - 1 && GetCanonicalHash(old(db), k + 1) != Digest(path[k + 1]) ==>
        currentHeader == path[k + 1] && currentFastBlock == BlockOf(path[k + 1])
    {
      hide NoRepeat, Wrote, TxsOfBlocks, Overlay, CanonOverlay;
      addedTxs := [];
      BranchTop(path);
      OverlayTop(txIndex, path);
      CanonOverlayTop(db.canon, path);
      for j := 0 to |newChain|
        invariant newChain[..j] == Branch(path, |path| - 1 - j)
        invariant db == old(db).(canon := db.canon, headHeader := db.headHeader)
        invariant CanonOverlay(old(db.canon), db.canon, path, |path| - 1 - j)
        invariant old(HeadsStored()) ==> HeadsStored()
        invariant old(HeadsIn(stored)) && (forall i :: 0 <= i < |path| ==> path[i] in stored) ==> HeadsIn(stored)
        invariant Overlay(old(txIndex), txIndex, path, |path| - 1 - j)
        invariant addedTxs == TxsOfBlocks(newChain[..j])
        invariant j > 0 && GetCanonicalHash(old(db), |path| - j) != Digest(path[|path| - j]) ==>
          currentHeader == path[|path| - j] && currentFastBlock == BlockOf(path[|path| - j])
      {
        var block := newChain[j];
        ghost var n := |path| - 1 - j;
        assert block == BlockOf(path[n]);
        BranchStep(path, n);
        TxsOfBlocksStep(newChain[..j], block);
        assert newChain[..j + 1] == newChain[..j] + [block];
        CanonOverlayStep(old(db.canon), db.canon, path, n);
        Insert(block);
        var idx := WriteTransactions(txIndex, block);
        OverlayStep(old(txIndex), txIndex, idx, path, n);
        txIndex := idx;
        addedTxs := addedTxs + block.txs;
      }
      assert newChain[..|newChain|] == newChain;
    }

    method DeleteTransactions(txs: seq<Tx>)
      modifies this`txIndex
      ensures txIndex == old(txIndex) - (set tx | tx in txs)
    {
      for i := 0 to |txs|
        invariant txIndex == old(txIndex) - (set tx | tx in txs[..i])
      {
        assert txs[..i + 1] == txs[..i] + [txs[i]];
        txIndex := txIndex - {txs[i]};
      }
      assert txs[..|txs|] == txs;
    }

    /** Move the canonical map and the transaction index from the path of `oldBlock` to that of
        `newBlock`. The heads are left at the lowest block of the new branch. */
    method Reorg(oldBlock: Block, newBlock: Block) returns (ok: bool, ghost k: int)
      requires StoreOk() && Linked(oldBlock.header) && Linked(newBlock.header)
      requires oldBlock == BlockOf(oldBlock.header) && newBlock == BlockOf(newBlock.header)
      requires IndexExact(txIndex, Path(oldBlock.header)) && NoRepeat(Path(newBlock.header))
      modifies this`db, this`headBlockHash, this`headFastHash
      modifies this`currentBlock, this`currentFastBlock, this`currentHeader
      modifies this`txIndex
      ensures ok <==> WalkStored(stored, oldBlock.header, newBlock.header)
      ensures !ok ==> unchanged(this)
      ensures old(HeadsStored()) ==> HeadsStored()
      ensures var q := Path(newBlock.header);
        old(HeadsIn(stored)) && (forall i :: 0 <= i < |q| ==> q[i] in stored) ==> HeadsIn(stored)
      ensures ok ==> var p, q := Path(oldBlock.header), Path(newBlock.header);
        && 0 <= k < |p| && k < |q| && IsLastCommon(oldBlock.header, newBlock.header, p[k])
        && db == old(db).(canon := db.canon, headHeader := db.headHeader)
        && CanonOverlay(old(db.canon), db.canon, q, k)
        && IndexExact(txIndex, q)
        && (k < |q| - 1 && GetCanonicalHash(old(db), k + 1) != Digest(q[k + 1]) ==>
              currentHeader == q[k + 1] && currentFastBlock == BlockOf(q[k + 1]))
    {
      hide HoldsHeaders, HoldsTds, HoldsNumbers, HoldsBodies, Linked, Path, WalkStored, Branch, TxsOfBlocks;
      hide IndexExact, NoRepeat, Overlay, CanonOverlay, InBranch;
      var oldChain, newChain, deletedTxs;
      ok, oldChain, newChain, deletedTxs, k := Branches(oldBlock, newBlock);
      if !ok {
        return;
      }
      ghost var p, q := Path(oldBlock.header), Path(newBlock.header);
      PathIndexing(newBlock.header);
      var addedTxs := InsertBranch(newChain, q, k);
      var diff := TxDifference(deletedTxs, addedTxs);
      ghost var overlaid := txIndex;
      DeleteTransactions(diff);
      ReorgIndex(oldBlock.header, newBlock.header, k, old(txIndex), overlaid, diff);
    }

    /** Write the header, the body and the total difficulty, whatever the canonical status. */
    method Put(block: Block, td: int)
      requires StoreOk() && td == TotalDifficulty(block.header) && block == BlockOf(block.header)
      modifies this`db, this`bodies, this`stored
      ensures StoreOk() && stored == old(stored) + {block.header}
      ensures db.canon == old(db.canon) && db.headHeader == old(db.headHeader)
    {
      hide HoldsHeaders, HoldsTds, HoldsNumbers;
      HoldsAfterWrite(db, stored, block.header);
      db := WriteTd(db, Digest(block.header), block.header.number, td);
      bodies := bodies[KeyOf(block.header) := Body(block.txs, block.uncles)];
      db := WriteHeader(db, block.header);
      stored := stored + {block.header};
    }

    /** Everything that a chain keeps about its head `before.head`, with one more header stored. */
    ghost predicate AboutToAdopt(before: Chain, h: Header)
      reads this
    {
      && StoreOk() && genesis == before.genesis && stored == before.stored + {h}
      && Inv(before) && PositiveDifficulty(before) && Admissible(before, h) && Known(before, h.parentHash)
      && currentBlock == BlockOf(before.head)
      && CanonAgrees(db.canon, Path(before.head)) && CanonStored(db.canon, before.stored) && CanonUpTo(db.canon, top)
      && HeadsStored() && HeadsIn(before.stored) && IndexExact(txIndex, Path(before.head))
    }

    /** Make a stored block the head, after a reorganisation if it does not extend the head. */
    method Adopt(block: Block, ghost before: Chain)
      requires AboutToAdopt(before, block.header) && block == BlockOf(block.header) && NoRepeat(Path(block.header))
      modifies this`db, this`headBlockHash, this`headFastHash
      modifies this`currentBlock, this`currentFastBlock, this`currentHeader
      modifies this`txIndex, this`top
      ensures StoreOk() && currentBlock == block && top == Higher(old(top), block.header.number)
      ensures CanonAgrees(db.canon, Path(block.header)) && CanonStored(db.canon, stored) && CanonUpTo(db.canon, top)
      ensures HeadsStored() && HeadsIn(stored)
      ensures HeadsFollow(before.head, block.header, currentHeader, currentFastBlock)
      ensures if block.header.parentHash != Digest(before.head) then IndexExact(txIndex, Path(block.header))
              else txIndex == old(txIndex)
    {
      hide HoldsHeaders, HoldsTds, HoldsNumbers, HoldsBodies, Inv;
      hide Closed, TotalDifficulty, Linked, Path, PositiveDifficulty;
      hide IndexExact, NoRepeat, CanonAgrees, CanonStored;
      hide CanonUpTo, CanonOverlay, HeadsFollow, IsLastCommon, Admissible;
      var h := block.header;
      ghost var oldCanon := db.canon;
      AdoptFacts(before, h);
      CanonStoredGrows(db.canon, before.stored, h);
      PlacedFacts(genesis, stored, h);
      PlacedFacts(genesis, stored, before.head);
      if h.parentHash != Digest(currentBlock.header) {
        StoredPathsWalk(stored, before.head, h);
        var ok, k := Reorg(currentBlock, block);
        AfterReorg(before, h, k, oldCanon, db.canon, currentHeader, currentFastBlock);
        TopAfterReorg(before.head, h, k, oldCanon, db.canon, top);
      } else {
        AfterExtend(before, h, oldCanon);
        TopAfterExtend(before.head, h, oldCanon, top);
      }
      Insert(block);
      top := Higher(top, h.number);
    }

    method WriteBlock(block: Block, coin: bool) returns (status: WriteStatus)
      requires Valid() && BodyMatches(block) && Admissible(View(), block.header)
      requires NoRepeat(Path(block.header))
      modifies this
      ensures ChainOk()
      ensures View() == Write(old(View()), block.header, coin)
      ensures status == if !Known(old(View()), block.header.parentHash) then NonStatTy
                        else if Heavier(block.header, old(currentBlock.header), coin) then CanonStatTy else SideStatTy
      ensures if status == CanonStatTy && block.header.parentHash != Digest(old(currentBlock.header))
              then IndexExact(txIndex, Path(block.header))
              else txIndex == old(txIndex)
      ensures if status == CanonStatTy
              then HeadsFollow(old(currentBlock.header), block.header, currentHeader, currentFastBlock)
              else currentHeader == old(currentHeader) && currentFastBlock == old(currentFastBlock)
      ensures top == if status == CanonStatTy then Higher(old(top), block.header.number) else old(top)
      ensures futureBlocks == if status == NonStatTy then old(futureBlocks)
                              else old(futureBlocks) - {Digest(block.header)}
    {
      hide HoldsHeaders, HoldsTds, HoldsNumbers, HoldsBodies, Inv;
      hide Closed, TotalDifficulty, Linked, Path, PositiveDifficulty;
      hide IndexExact, NoRepeat, CanonAgrees, CanonStored, CanonUpTo, CanonOverlay, HeadsFollow, IsLastCommon;
      var h := block.header;
      ghost var before := View();
      WriteKeepsInv(View(), h, coin);
      WriteKeepsPositive(View(), h, coin);
      HoldsRead(db, stored, h.parentHash, h.number - 1);
      HeadStored(before);
      HoldsRead(db, stored, Digest(currentBlock.header), currentBlock.header.number);
      var ptd := GetTd(db, h.parentHash, h.number - 1);
      if ptd.None? {
        return NonStatTy;
      }
      ChildFacts(before, h);
      var localTd := GetTd(db, Digest(currentBlock.header), currentBlock.header.number);
      var externTd := h.difficulty + ptd.value;
      Put(block, externTd);
      CanonStoredGrows(db.canon, old(stored), h);
      if externTd > localTd.value || (externTd == localTd.value && coin) {
        Adopt(block, before);
        status := CanonStatTy;
      } else {
        status := SideStatTy;
      }
      futureBlocks := futureBlocks - {Digest(h)};
    }

    /** Keep a block for later; the queue is a cache that may drop any others. */
    method Enqueue(block: Block, evicted: set<Hash>)
      requires Valid()
      modifies this`futureBlocks
      ensures Valid() && futureBlocks == (old(futureBlocks) - evicted)[Digest(block.header) := block]
    {
      hide HoldsHeaders, HoldsTds, HoldsNumbers, HoldsBodies, Inv;
      hide PositiveDifficulty, CanonAgrees, CanonStored, CanonUpTo, IndexExact;
      futureBlocks := (futureBlocks - evicted)[Digest(block.header) := block];
    }

    /** One iteration of chain insertion, after the block passed validation and processing: write the
        block and, if it became the head, index its transactions. */
    method InsertBlock(block: Block, coin: bool) returns (status: WriteStatus)
      requires Valid() && BodyMatches(block) && Admissible(View(), block.header)
      requires NoRepeat(Path(block.header))
      modifies this
      ensures Valid()
      ensures View() == Write(old(View()), block.header, coin)
      ensures status == if !Known(old(View()), block.header.parentHash) then NonStatTy
                        else if Heavier(block.header, old(currentBlock.header), coin) then CanonStatTy else SideStatTy
      ensures if status == CanonStatTy
              then HeadsFollow(old(currentBlock.header), block.header, currentHeader, currentFastBlock)
              else currentHeader == old(currentHeader) && currentFastBlock == old(currentFastBlock)
      ensures top == if status == CanonStatTy then Higher(old(top), block.header.number) else old(top)
      ensures futureBlocks == if status == NonStatTy then old(futureBlocks)
                              else old(futureBlocks) - {Digest(block.header)}
    {
      hide HoldsHeaders, HoldsTds, HoldsNumbers, HoldsBodies, Inv, Path, PositiveDifficulty;
      hide IndexExact, NoRepeat, CanonAgrees, CanonStored, CanonUpTo, HeadsFollow, Wrote, TotalDifficulty;
      ghost var oldHead, base := currentBlock.header, txIndex;
      status := WriteBlock(block, coin);
      if status == CanonStatTy {
        var idx := WriteTransactions(txIndex, block);
        HeadLinked(View());
        IndexAfterCanon(base, txIndex, idx, oldHead, block.header);
        txIndex := idx;
      }
    }

    /** Any run of insertions. */
    method InsertBlocks(blocks: seq<Block>, coins: seq<bool>)
      requires Valid() && |coins| == |blocks|
      requires forall i :: 0 <= i < |blocks| ==> Insertable(View(), blocks, coins, i)
      modifies this
      ensures Valid()
      ensures View() == Run(old(View()), CallsOf(blocks, coins))
      ensures top == HighestHead(old(View()), old(top), CallsOf(blocks, coins))
    {
      hide ChainOk, IndexExact, Insertable, Heavier;
      ghost var calls := CallsOf(blocks, coins);
      for i := 0 to |blocks|
        invariant Valid() && View() == Run(old(View()), calls[..i])
        invariant top == HighestHead(old(View()), old(top), calls[..i])
      {
        InsertableFacts(old(View()), blocks, coins, i);
        assert calls[..i + 1][..i] == calls[..i];
        HeadBelowTop();
        var _ := InsertBlock(blocks[i], coins[i]);
      }
      assert calls[..|blocks|] == calls;
    }

    /** The canonical map is the head's path and no more exactly when no head was ever higher. */
    lemma HeadBelowTop()
      requires Valid()
      ensures currentBlock.header.number <= top && top in db.canon
      ensures db.canon == CanonOf(currentBlock.header) <==> top == currentBlock.header.number
    {
      hide CanonAgrees, CanonOf, Path, Linked, Closed;
      HeadLinked(View());
      CanonExactIff(db.canon, currentBlock.header, top);
    }

    constructor (genesis: Header)
      requires IsGenesis(genesis) && TxsOf(genesis) == []
      ensures Valid() && View() == Start(genesis) && top == 0
    {
      this.genesis := genesis;
      db := GenesisDb(genesis);
      bodies := map[KeyOf(genesis) := BodyOf(genesis)];
      txIndex := map[];
      headBlockHash, headFastHash := Digest(genesis), Digest(genesis);
      currentBlock, currentFastBlock, currentHeader := BlockOf(genesis), BlockOf(genesis), genesis;
      futureBlocks := map[];
      stored, top := {genesis}, 0;
      new;
      hide HoldsHeaders, HoldsTds, HoldsNumbers, Inv, PositiveDifficulty;
      StartInv(genesis);
      GenesisHolds(genesis);
    }

    /** Open the database that another chain left behind: genesis and the three heads are loaded from
        what is stored under them, and they are those of that chain. */
    constructor Reopen(was: BlockChain)
      requires was.Valid()
      ensures Valid() && View() == was.View() && top == was.top
      ensures db == was.db && bodies == was.bodies && txIndex == was.txIndex
      ensures currentBlock == was.currentBlock && currentHeader == was.currentHeader
      ensures currentFastBlock == was.currentFastBlock
    {
      hide HoldsHeaders, HoldsTds, HoldsNumbers, HoldsBodies, Inv, PositiveDifficulty, IndexExact, Path;
      hide CanonUpTo, CanonStored, CanonAgrees;
      GenesisIsLoaded(was.View(), was.db.canon);
      HeadStored(was.View());
      HoldsBlock(was.db, was.bodies, was.stored, Digest(was.genesis), 0);
      var first := GetBlock(was.db, was.bodies, GetCanonicalHash(was.db, 0), 0);
      genesis := first.value.header;
      db, bodies, txIndex := was.db, was.bodies, was.txIndex;
      headBlockHash, headFastHash := was.headBlockHash, was.headFastHash;
      futureBlocks := map[];
      stored, top := was.stored, was.top;

      HoldsReadNumber(was.db, was.stored, was.headBlockHash);
      HoldsBlock(was.db, was.bodies, was.stored, was.headBlockHash, was.currentBlock.header.number);
      var block := GetBlock(was.db, was.bodies, was.headBlockHash, GetBlockNumber(was.db, was.headBlockHash));
      var head := block.value;
      currentBlock := head;

      HoldsReadNumber(was.db, was.stored, was.db.headHeader);
      HoldsRead(was.db, was.stored, was.db.headHeader, was.currentHeader.number);
      var header := GetHeader(was.db, was.db.headHeader, GetBlockNumber(was.db, was.db.headHeader));
      currentHeader := if header.Some? then header.value else head.header;

      HoldsReadNumber(was.db, was.stored, was.headFastHash);
      HoldsBlock(was.db, was.bodies, was.stored, was.headFastHash, was.currentFastBlock.header.number);
      var fast := GetBlock(was.db, was.bodies, was.headFastHash, GetBlockNumber(was.db, was.headFastHash));
      currentFastBlock := if fast.Some? then fast.value else head;
    }
  }

  /** Number 0 of the canonical map is the genesis block. */
  lemma GenesisIsLoaded(c: Chain, canon: map<int, Hash>)
    requires Inv(c) && CanonAgrees(canon, Path(c.head))
    ensures 0 in canon && canon[0] == Digest(c.genesis) && c.genesis in c.stored && c.genesis.number == 0
  {
    assert Placed(c.genesis, c.stored, c.head);
  }

  function CallsOf(blocks: seq<Block>, coins: seq<bool>): (calls: seq<Call>)
    requires |coins| == |blocks|
    ensures |calls| == |blocks|
  {
    seq(|blocks|, i requires 0 <= i < |blocks| => Call(blocks[i].header, coins[i]))
  }

  /** The number of the highest head so far: `top` before the run, or that of a head during it. */
  function HighestHead(c: Chain, top: nat, calls: seq<Call>): nat
    decreases |calls|
  {
    if calls == [] then top
    else Higher(HighestHead(c, top, calls[..|calls| - 1]), Run(c, calls).head.number)
  }

  /** What validation and processing establish for the block at `i` when its turn comes. */
  ghost predicate Insertable(start: Chain, blocks: seq<Block>, coins: seq<bool>, i: nat)
    requires |coins| == |blocks| && i < |blocks|
  {
    && BodyMatches(blocks[i])
    && Admissible(Run(start, CallsOf(blocks, coins)[..i]), blocks[i].header)
    && NoRepeat(Path(blocks[i].header))
  }

  lemma InsertableFacts(start: Chain, blocks: seq<Block>, coins: seq<bool>, i: nat)
    requires |coins| == |blocks| && i < |blocks| && Insertable(start, blocks, coins, i)
    ensures BodyMatches(blocks[i]) && NoRepeat(Path(blocks[i].header))
    ensures Admissible(Run(start, CallsOf(blocks, coins)[..i]), blocks[i].header)
  {
  }

  lemma HeadLinked(c: Chain)
    requires Inv(c)
    ensures Linked(c.head)
  {
    assert Placed(c.genesis, c.stored, c.head);
  }

  /** Writing the transactions of a block that has just become the head. */
  lemma IndexAfterCanon(base: Index, idx: Index, idx': Index, a: Header, b: Header)
    requires Linked(b) && NoRepeat(Path(b)) && IndexExact(base, Path(a))
    requires if b.parentHash == Digest(a) then idx == base else IndexExact(idx, Path(b))
    requires Wrote(idx, idx', b, |TxsOf(b)|)
    ensures IndexExact(idx', Path(b))
  {
    hide IndexExact, NoRepeat, Wrote;
    PathIndexing(b);
    if b.parentHash == Digest(a) {
      assert Path(b) == Path(a) + [b];
      ExactAfterExtend(idx, idx', Path(a), b);
    } else {
      ExactAfterRewrite(idx, idx', Path(b));
    }
  }

  lemma AdoptFacts(c: Chain, h: Header)
    requires Inv(c) && Admissible(c, h) && Known(c, h.parentHash)
    ensures Closed(c.genesis, c.stored + {h}) && c.head in c.stored
  {
    ChildFacts(c, h);
  }

  lemma WriteKeepsPositive(c: Chain, h: Header, coin: bool)
    requires PositiveDifficulty(c) && Admissible(c, h)
    ensures PositiveDifficulty(Write(c, h, coin))
  {
  }

  lemma CanonStoredGrows(canon: map<int, Hash>, stored: set<Header>, h: Header)
    requires CanonStored(canon, stored)
    ensures CanonStored(canon, stored + {h})
  {
  }

  /** Where the header head and the fast head are after `b` became the head block in place of `a`:
      at `b` when `b` extends `a`, otherwise at the lowest block of the new branch (and where they
      were if there is no new branch, which is when `b` is `a` itself). */
  ghost predicate HeadsFollow(a: Header, b: Header, header: Header, fast: Block) {
    if b.parentHash == Digest(a) then header == b && fast == BlockOf(b)
    else forall c :: IsLastCommon(a, b, c) && c.number + 1 < |Path(b)| ==>
           header == Path(b)[c.number + 1] && fast == BlockOf(Path(b)[c.number + 1])
  }

  /** The transactions dropped from the index are those of the old branch that the new one lacks. */
  lemma ReorgIndex(a: Header, b: Header, k: int, base: Index, overlaid: Index, diff: seq<Tx>)
    requires Linked(a) && Linked(b)
    requires 0 <= k < |Path(a)| && k < |Path(b)| && IsLastCommon(a, b, Path(a)[k])
    requires IndexExact(base, Path(a)) && NoRepeat(Path(b)) && Overlay(base, overlaid, Path(b), k)
    requires diff == Difference(TxsOfBlocks(Branch(Path(a), k)), TxsOfBlocks(Branch(Path(b), k)))
    ensures IndexExact(overlaid - (set tx | tx in diff), Path(b))
  {
    hide Linked, Path, Branch, TxsOfBlocks, IndexExact, NoRepeat, Overlay, InBranch, IsLastCommon, Difference;
    var p, q := Path(a), Path(b);
    PathIndexing(a);
    LastCommonSplits(a, b, p[k]);
    var gone := set tx | tx in diff;
    DifferenceContents(TxsOfBlocks(Branch(p, k)), TxsOfBlocks(Branch(q, k)));
    forall tx
      ensures tx in gone <==> InBranch(p, k, tx) && !InBranch(q, k, tx)
    {
      BranchTxs(p, k, tx);
      BranchTxs(q, k, tx);
    }
    ExactAfterReorg(base, overlaid, overlaid - gone, p, q, k, gone);
  }

  lemma CanonAfterReorg(canon: map<int, Hash>, canon': map<int, Hash>, p: seq<Header>, q: seq<Header>, k: int,
                        stored: set<Header>)
    requires CanonAgrees(canon, p) && CanonStored(canon, stored)
    requires AgreeUpTo(p, q, k) && CanonOverlay(canon, canon', q, k)
    requires forall i :: 0 <= i < |q| ==> q[i] in stored
    ensures CanonAgrees(canon', q) && CanonStored(canon', stored)
  {
  }

  /** The old head is not an ancestor of the new one: a stored descendant would outweigh it. */
  lemma OldHeadIsNoAncestor(c: Chain, b: Header, k: nat)
    requires Inv(c) && PositiveDifficulty(c) && Known(c, b.parentHash) && b.parentHash != Digest(c.head)
    requires k < |Path(b)| - 1
    ensures Path(b)[k] != c.head
  {
    hide Closed, Linked, PositiveDifficulty;
    var parent := b.parentHash.header;
    assert Path(b) == Path(parent) + [b];
    if k < |Path(parent)| - 1 {
      AncestorLighter(c, parent, k);
    }
  }

  lemma AfterReorg(c: Chain, b: Header, k: int, canon: map<int, Hash>, canon': map<int, Hash>,
                   header: Header, fast: Block)
    requires Inv(c) && PositiveDifficulty(c) && Known(c, b.parentHash) && b.parentHash != Digest(c.head)
    requires Linked(c.head) && Linked(b)
    requires 0 <= k < |Path(c.head)| && k < |Path(b)| && IsLastCommon(c.head, b, Path(c.head)[k])
    requires CanonAgrees(canon, Path(c.head)) && CanonStored(canon, c.stored + {b})
    requires CanonOverlay(canon, canon', Path(b), k)
    requires forall i :: 0 <= i < |Path(b)| ==> Path(b)[i] in c.stored + {b}
    requires k < |Path(b)| - 1 && (k + 1 in canon ==> canon[k + 1] != Digest(Path(b)[k + 1])) ==>
      header == Path(b)[k + 1] && fast == BlockOf(Path(b)[k + 1])
    ensures CanonAgrees(canon'[b.number := Digest(b)], Path(b))
    ensures CanonStored(canon'[b.number := Digest(b)], c.stored + {b})
    ensures b.number in canon' && canon'[b.number] == Digest(b)
    ensures HeadsFollow(c.head, b, header, fast)
  {
    hide Inv, PositiveDifficulty, Linked, Path, CanonAgrees, CanonOverlay, CanonStored, IsLastCommon, HeadsFollow;
    hide AgreeUpTo;
    var p, q := Path(c.head), Path(b);
    Parting(c.head, b, k);
    CanonAfterReorg(canon, canon', p, q, k, c.stored + {b});
    CanonReaches(canon', b);
    assert canon'[b.number := Digest(b)] == canon';
    if k < |q| - 1 {
      OldHeadIsNoAncestor(c, b, k);
      CanonReads(canon, p, k + 1);
    }
    HeadsAfterReorg(c.head, b, k, header, fast);
  }

  lemma TopAfterReorg(a: Header, b: Header, k: int, canon: map<int, Hash>, canon': map<int, Hash>, top: nat)
    requires Linked(b) && 0 <= k < |Path(a)| && k < |Path(b)|
    requires CanonAgrees(canon, Path(a)) && CanonUpTo(canon, top) && CanonOverlay(canon, canon', Path(b), k)
    ensures CanonUpTo(canon'[b.number := Digest(b)], Higher(top, b.number))
  {
    hide Path, Linked;
    PathIndexing(b);
    CanonUpToAfterReorg(canon, canon', Path(b), k, top);
  }

  lemma TopAfterExtend(a: Header, b: Header, canon: map<int, Hash>, top: nat)
    requires Linked(a) && Linked(b) && b.parentHash == Digest(a)
    requires CanonAgrees(canon, Path(a)) && CanonUpTo(canon, top)
    ensures CanonUpTo(canon[b.number := Digest(b)], Higher(top, b.number))
  {
    PathIndexing(a);
    CanonUpToAfterExtend(canon, top, Path(a), Digest(b));
  }

  lemma Parting(a: Header, b: Header, k: nat)
    requires Linked(a) && Linked(b)
    requires k < |Path(a)| && k < |Path(b)| && IsLastCommon(a, b, Path(a)[k])
    ensures AgreeUpTo(Path(a), Path(b), k)
    ensures k + 1 < |Path(a)| && k + 1 < |Path(b)| ==> Path(a)[k + 1] != Path(b)[k + 1]
    ensures k == |Path(a)| - 1 ==> Path(b)[k] == a
  {
    hide Linked, Path, IsLastCommon;
    PathIndexing(a);
    LastCommonSplits(a, b, Path(a)[k]);
  }

  lemma CanonReads(canon: map<int, Hash>, p: seq<Header>, n: int)
    requires CanonAgrees(canon, p) && 0 <= n < |p|
    ensures n in canon && canon[n] == Digest(p[n])
  {
  }

  lemma CanonReaches(canon: map<int, Hash>, b: Header)
    requires Linked(b) && CanonAgrees(canon, Path(b))
    ensures b.number in canon && canon[b.number] == Digest(b)
  {
    PathIndexing(b);
  }

  lemma HeadsAfterReorg(a: Header, b: Header, k: nat, header: Header, fast: Block)
    requires Linked(a) && Linked(b) && b.parentHash != Digest(a)
    requires k < |Path(a)| && k < |Path(b)| && IsLastCommon(a, b, Path(a)[k])
    requires k < |Path(b)| - 1 ==> header == Path(b)[k + 1] && fast == BlockOf(Path(b)[k + 1])
    ensures HeadsFollow(a, b, header, fast)
  {
    hide IsLastCommon, Linked, Path;
    PathIndexing(a);
    forall c | IsLastCommon(a, b, c)
      ensures c == Path(a)[k]
    {
      LastCommonUnique(a, b, c, Path(a)[k]);
    }
  }

  /** The three heads agree after a block from a side branch takes over exactly when its parent was
      already canonical, that is, when the new branch is a single block. */
  lemma HeadsAgreeIff(a: Header, b: Header, header: Header, fast: Block)
    requires Linked(a) && Linked(b) && Root(a) == Root(b)
    requires b.parentHash.Digest? && !OnPath(a, b)
    requires HeadsFollow(a, b, header, fast)
    ensures header == b <==> OnPath(a, b.parentHash.header)
    ensures fast == BlockOf(b) <==> OnPath(a, b.parentHash.header)
  {
    var parent := b.parentHash.header;
    PathIndexing(a);
    PathIndexing(b);
    PathIndexing(parent);
    assert OnPath(b, parent);
    if b.parentHash != Digest(a) {
      var k := if |Path(a)| < |Path(b)| then |Path(a)| - 1 else |Path(b)| - 1;
      var c := LastCommonExists(a, b, k);
      assert c != b;
      assert header == Path(b)[c.number + 1] && fast == BlockOf(Path(b)[c.number + 1]);
      if OnPath(a, parent) {
        assert c.number == parent.number;
      }
    }
  }

  /** A child of the head was not stored before: it would outweigh the head. */
  lemma ChildOfHeadIsNew(c: Chain, b: Header)
    requires Inv(c) && PositiveDifficulty(c) && b.parentHash == Digest(c.head)
    ensures b !in c.stored
  {
    assert TotalDifficulty(b) == b.difficulty + TotalDifficulty(c.head);
  }

  lemma AfterExtend(c: Chain, b: Header, canon: map<int, Hash>)
    requires Inv(c) && PositiveDifficulty(c) && Admissible(c, b)
    requires b.parentHash == Digest(c.head)
    requires CanonAgrees(canon, Path(c.head)) && CanonStored(canon, c.stored)
    ensures CanonAgrees(canon[b.number := Digest(b)], Path(b))
    ensures CanonStored(canon[b.number := Digest(b)], c.stored + {b})
    ensures b.number in canon ==> canon[b.number] != Digest(b)
    ensures HeadsFollow(c.head, b, b, BlockOf(b))
  {
    hide Closed, Linked, PositiveDifficulty, HeaviestHead, CanonAgrees, CanonStored;
    PlacedFacts(c.genesis, c.stored, c.head);
    PathIndexing(c.head);
    assert Path(b) == Path(c.head) + [b];
    hide Path;
    ChildOfHeadIsNew(c, b);
    CanonAfterExtend(canon, Path(c.head), b, c.stored);
  }

  lemma CanonAfterExtend(canon: map<int, Hash>, path: seq<Header>, b: Header, stored: set<Header>)
    requires CanonAgrees(canon, path) && CanonStored(canon, stored) && b.number == |path| && b !in stored
    ensures CanonAgrees(canon[b.number := Digest(b)], path + [b])
    ensures CanonStored(canon[b.number := Digest(b)], stored + {b})
    ensures b.number in canon ==> canon[b.number] != Digest(b)
  {
  }
}
