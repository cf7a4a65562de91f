/**
 The transaction lookup index: transaction hash to block hash, block number and position. It is
 exact for a head when it says precisely what a scan of the head's parent path would say.
 */
module TxIndex {
  import opened ChainTypes

  datatype TxMeta = TxMeta(blockHash: Hash, blockIndex: nat, index: nat)

  type Index = map<Tx, TxMeta>

  /** A scan of `path` finds `tx` at the place `m`. */
  predicate SitsAt(path: seq<Header>, tx: Tx, m: TxMeta) {
    && m.blockIndex < |path|
    && m.blockHash == Digest(path[m.blockIndex])
    && m.index < |TxsOf(path[m.blockIndex])|
    && TxsOf(path[m.blockIndex])[m.index] == tx
  }

  ghost predicate IndexExact(idx: Index, path: seq<Header>) {
    forall tx, m :: SitsAt(path, tx, m) <==> tx in idx && idx[tx] == m
  }

  ghost predicate NoRepeat(path: seq<Header>) {
    forall tx, m, m' :: SitsAt(path, tx, m) && SitsAt(path, tx, m') ==> m == m'
  }

  /** No index can be exact for a path that repeats a transaction: the premise is the weakest one. */
  lemma ExactNeedsNoRepeat(idx: Index, path: seq<Header>)
    requires IndexExact(idx, path)
    ensures NoRepeat(path)
  {
  }

  /** `tx` is on `path` above number `k`. */
  ghost predicate InBranch(path: seq<Header>, k: int, tx: Tx) {
    exists m :: SitsAt(path, tx, m) && m.blockIndex > k
  }

  ghost predicate SameAt(idx: Index, idx': Index, tx: Tx) {
    (tx in idx <==> tx in idx') && (tx in idx ==> idx[tx] == idx'[tx])
  }

  /** `idx` is `base` with the transactions of `path` above `k` written over it. */
  ghost predicate Overlay(base: Index, idx: Index, path: seq<Header>, k: int) {
    && (forall tx, m :: SitsAt(path, tx, m) && m.blockIndex > k ==> tx in idx && idx[tx] == m)
    && (forall tx :: !InBranch(path, k, tx) ==> SameAt(base, idx, tx))
  }

  // ----- writing the transactions of one block -----

  function MetaOf(h: Header, i: nat): TxMeta {
    TxMeta(Digest(h), h.number, i)
  }

  /** `i` is the last position below `n` that holds `tx`. */
  predicate LastAt(txs: seq<Tx>, n: nat, tx: Tx, i: int)
    requires n <= |txs|
  {
    0 <= i < n && txs[i] == tx && forall j :: i < j < n ==> txs[j] != tx
  }

  /** `idx` is `base` with the transactions of `h` up to position `n` written over it, later positions last. */
  ghost predicate Wrote(base: Index, idx: Index, h: Header, n: nat)
    requires n <= |TxsOf(h)|
  {
    && (forall tx :: tx !in TxsOf(h)[..n] ==> SameAt(base, idx, tx))
    && (forall tx :: tx in TxsOf(h)[..n] ==>
          tx in idx && exists i :: LastAt(TxsOf(h), n, tx, i) && idx[tx] == MetaOf(h, i))
  }

  method WriteTransactions(base: Index, block: Block) returns (idx: Index)
    requires block.txs == TxsOf(block.header)
    ensures Wrote(base, idx, block.header, |block.txs|)
  {
    idx := base;
    for i := 0 to |block.txs|
      invariant Wrote(base, idx, block.header, i)
    {
      WroteStep(base, idx, block.header, i);
      idx := idx[block.txs[i] := TxMeta(Digest(block.header), block.header.number, i)];
    }
  }

  lemma WroteStep(base: Index, idx: Index, h: Header, n: nat)
    requires n < |TxsOf(h)| && Wrote(base, idx, h, n)
    ensures Wrote(base, idx[TxsOf(h)[n] := MetaOf(h, n)], h, n + 1)
  {
    var txs := TxsOf(h);
    var idx' := idx[txs[n] := MetaOf(h, n)];
    assert txs[..n + 1] == txs[..n] + [txs[n]];
    forall tx | tx in txs[..n + 1]
      ensures tx in idx' && exists i :: LastAt(txs, n + 1, tx, i) && idx'[tx] == MetaOf(h, i)
    {
      if tx != txs[n] {
        var i :| LastAt(txs, n, tx, i) && idx[tx] == MetaOf(h, i);
        assert LastAt(txs, n + 1, tx, i);
      } else {
        assert LastAt(txs, n + 1, tx, n);
      }
    }
  }

  /** On a path without repeats, writing the block at number `k` extends the overlay down by one. */
  lemma OverlayStep(base: Index, idx: Index, idx': Index, path: seq<Header>, k: nat)
    requires k < |path| && path[k].number == k && NoRepeat(path)
    requires Overlay(base, idx, path, k) && Wrote(idx, idx', path[k], |TxsOf(path[k])|)
    ensures Overlay(base, idx', path, k - 1)
  {
    var h := path[k];
    assert TxsOf(h)[..|TxsOf(h)|] == TxsOf(h);
    forall tx, m | SitsAt(path, tx, m) && m.blockIndex > k - 1
      ensures tx in idx' && idx'[tx] == m
    {
      if tx in TxsOf(h) {
        var i :| 0 <= i < |TxsOf(h)| && TxsOf(h)[i] == tx && idx'[tx] == MetaOf(h, i);
        assert SitsAt(path, tx, MetaOf(h, i));
      } else {
        assert SameAt(idx, idx', tx);
      }
    }
    forall tx | !InBranch(path, k - 1, tx)
      ensures SameAt(base, idx', tx)
    {
      if tx in TxsOf(h) {
        var i :| 0 <= i < |TxsOf(h)| && TxsOf(h)[i] == tx;
        assert SitsAt(path, tx, MetaOf(h, i));
      }
      assert !InBranch(path, k, tx);
      assert SameAt(base, idx, tx) && SameAt(idx, idx', tx);
    }
  }

  /** Appending a block to an exactly indexed path and writing its transactions gives an exact index. */
  lemma ExactAfterExtend(base: Index, idx: Index, path: seq<Header>, h: Header)
    requires IndexExact(base, path) && h.number == |path| && NoRepeat(path + [h])
    requires Wrote(base, idx, h, |TxsOf(h)|)
    ensures IndexExact(idx, path + [h])
  {
    var path' := path + [h];
    assert Overlay(base, base, path', |path|);
    OverlayStep(base, base, idx, path', |path|);
    forall tx, m
      ensures SitsAt(path', tx, m) <==> tx in idx && idx[tx] == m
    {
      OverlayDecides(base, idx, path, path', |path| - 1, tx, m);
    }
  }

  /** Writing a block's transactions again changes nothing. */
  lemma ExactAfterRewrite(base: Index, idx: Index, path: seq<Header>)
    requires path != [] && IndexExact(base, path) && path[|path| - 1].number == |path| - 1
    requires Wrote(base, idx, path[|path| - 1], |TxsOf(path[|path| - 1])|)
    ensures IndexExact(idx, path)
  {
    var h := path[|path| - 1];
    assert TxsOf(h)[..|TxsOf(h)|] == TxsOf(h);
    forall tx
      ensures SameAt(base, idx, tx)
    {
      if tx in TxsOf(h) {
        var i :| 0 <= i < |TxsOf(h)| && TxsOf(h)[i] == tx && idx[tx] == MetaOf(h, i);
        assert SitsAt(path, tx, MetaOf(h, i));
      }
    }
    forall tx, m
      ensures SitsAt(path, tx, m) <==> tx in idx && idx[tx] == m
    {
      assert SameAt(base, idx, tx);
    }
  }

  // ----- a reorganisation -----

  /** The two paths agree up to `k`. */
  ghost predicate AgreeUpTo(p: seq<Header>, q: seq<Header>, k: int) {
    k < |p| && k < |q| && forall n :: 0 <= n <= k ==> p[n] == q[n]
  }

  /** What an index that is exact for `p`, overlaid with the branch of `q` above `k`, says about a
      transaction that is not in the branch of `p` above `k`. */
  lemma OverlayDecides(base: Index, idx: Index, p: seq<Header>, q: seq<Header>, k: int, tx: Tx, m: TxMeta)
    requires IndexExact(base, p) && AgreeUpTo(p, q, k) && Overlay(base, idx, q, k) && NoRepeat(q)
    requires InBranch(q, k, tx) || !InBranch(p, k, tx)
    ensures SitsAt(q, tx, m) <==> tx in idx && idx[tx] == m
  {
    if InBranch(q, k, tx) {
      var m' :| SitsAt(q, tx, m') && m'.blockIndex > k;
      assert idx[tx] == m';
    } else {
      assert SameAt(base, idx, tx);
      assert SitsAt(p, tx, m) ==> m.blockIndex <= k;
      assert SitsAt(p, tx, m) <==> SitsAt(q, tx, m);
    }
  }

  /** Overlay the new branch, then delete the transactions that only the old branch has. */
  lemma ExactAfterReorg(base: Index, overlaid: Index, idx: Index, p: seq<Header>, q: seq<Header>, k: int, gone: set<Tx>)
    requires IndexExact(base, p) && AgreeUpTo(p, q, k) && NoRepeat(q)
    requires Overlay(base, overlaid, q, k)
    requires forall tx :: tx in gone <==> InBranch(p, k, tx) && !InBranch(q, k, tx)
    requires idx == overlaid - gone
    ensures IndexExact(idx, q)
  {
    forall tx, m
      ensures SitsAt(q, tx, m) <==> tx in idx && idx[tx] == m
    {
      if tx in gone {
        var m' :| SitsAt(p, tx, m') && m'.blockIndex > k;
        assert base[tx] == m';
        assert SitsAt(q, tx, m) ==> m.blockIndex <= k && SitsAt(p, tx, m);
      } else {
        OverlayDecides(base, overlaid, p, q, k, tx, m);
      }
    }
  }

  // ----- the difference of two transaction lists -----

  function Difference(a: seq<Tx>, b: seq<Tx>): seq<Tx> {
    if a == [] then []
    else Difference(a[..|a| - 1], b) + if a[|a| - 1] in b then [] else [a[|a| - 1]]
  }

  lemma {:induction false} DifferenceContents(a: seq<Tx>, b: seq<Tx>)
    ensures forall tx :: tx in Difference(a, b) <==> tx in a && tx !in b
    decreases |a|
  {
    if a != [] {
      DifferenceContents(a[..|a| - 1], b);
      assert a == a[..|a| - 1] + [a[|a| - 1]];
    }
  }

  method TxDifference(a: seq<Tx>, b: seq<Tx>) returns (keep: seq<Tx>)
    ensures keep == Difference(a, b)
  {
    keep := [];
    var remove: set<Tx> := {};
    for i := 0 to |b|
      invariant forall tx :: tx in remove <==> tx in b[..i]
    {
      assert b[..i + 1] == b[..i] + [b[i]];
      remove := remove + {b[i]};
    }
    assert b[..|b|] == b;
    for i := 0 to |a|
      invariant keep == Difference(a[..i], b)
    {
      assert a[..i + 1][..i] == a[..i];
      if a[i] !in remove {
        keep := keep + [a[i]];
      }
    }
    assert a[..|a|] == a;
  }
}
