/**
 Headers, hashes and ancestry.

 A hash is a term of a free algebra: `Digest(h)` is the hash of header `h`, `Opaque` stands for a
 word that is the hash of no header (the zero hash among them). Hashing is therefore injective and
 acyclic by construction, a header commits to its whole ancestry, and the parent path and the total
 difficulty of a header are functions of the header alone. What the chain code has to establish is
 that its *stores* agree with them.
 */
module ChainTypes {

  type Address = nat
  type Tx = nat  // a transaction, identified with its hash

  datatype Hash = Digest(header: Header) | Opaque(id: nat)

  /** The empty hash that lookups return for a missing canonical number. */
  const ZERO_HASH := Opaque(0)

  datatype UncleDigest = UncleDigest(uncles: seq<Header>) | OpaqueUncles(id: nat)

  datatype TxDigest = TxDigest(txs: seq<Tx>) | OpaqueTxs(id: nat)

  datatype Header = Header(
    parentHash: Hash,
    uncleHash: UncleDigest,
    txHash: TxDigest,
    coinbase: Address,
    number: nat,
    time: nat,
    difficulty: nat,
    gasLimit: nat,
    gasUsed: nat,
    extraLength: nat,
    nonce: nat)

  datatype Block = Block(header: Header, txs: seq<Tx>, uncles: seq<Header>)

  /** What became of a block or header that was to be written. */
  datatype WriteStatus = NonStatTy | CanonStatTy | SideStatTy

  /** The hash of a stored header. */
  predicate In(hash: Hash, stored: set<Header>) {
    hash.Digest? && hash.header in stored
  }

  /** The database key of a header: its number and its hash. */
  type Key = (int, Hash)

  function KeyOf(h: Header): Key {
    (h.number, Digest(h))
  }

  /** The transactions and the uncles a header commits to. */
  function TxsOf(h: Header): seq<Tx> {
    if h.txHash.TxDigest? then h.txHash.txs else []
  }

  function UnclesOf(h: Header): seq<Header> {
    if h.uncleHash.UncleDigest? then h.uncleHash.uncles else []
  }

  /** The two body checks of block validation: the digests in the header are those of the body. */
  predicate BodyMatches(b: Block) {
    && b.header.txHash == TxDigest(b.txs)
    && b.header.uncleHash == UncleDigest(b.uncles)
  }

  // ----- ancestry -----

  /** The parent path of a header, root first. */
  function Path(h: Header): (p: seq<Header>)
    ensures |p| > 0 && p[|p| - 1] == h
  {
    if h.parentHash.Digest? then Path(h.parentHash.header) + [h] else [h]
  }

  /** Numbers grow by one along the parent path and the root has number 0. */
  predicate Linked(h: Header) {
    if h.parentHash.Digest? then
      h.number == h.parentHash.header.number + 1 && Linked(h.parentHash.header)
    else
      h.number == 0
  }

  function TotalDifficulty(h: Header): nat {
    h.difficulty + if h.parentHash.Digest? then TotalDifficulty(h.parentHash.header) else 0
  }

  function Root(h: Header): Header {
    Path(h)[0]
  }

  /** On a linked path the index is the number. */
  lemma {:induction false} PathIndexing(h: Header)
    requires Linked(h)
    ensures |Path(h)| == h.number + 1
    ensures forall i :: 0 <= i <= h.number ==> Path(h)[i].number == i
    decreases h
  {
    if h.parentHash.Digest? {
      PathIndexing(h.parentHash.header);
    }
  }

  /** Every prefix of a path is the path of its last element. */
  lemma {:induction false} PathPrefix(h: Header, i: nat)
    requires Linked(h) && i < |Path(h)|
    ensures Linked(Path(h)[i]) && Path(Path(h)[i]) == Path(h)[..i + 1]
    decreases h
  {
    if h.parentHash.Digest? {
      var p := h.parentHash.header;
      if i < |Path(p)| {
        PathPrefix(p, i);
        assert Path(h)[i] == Path(p)[i];
        assert Path(h)[..i + 1] == Path(p)[..i + 1];
      } else {
        assert Path(h)[..i + 1] == Path(h);
      }
    }
  }

  /** Two linked headers that have the same ancestor at one number agree on everything below it. */
  lemma {:induction false} SharedAncestorSharesPrefix(a: Header, b: Header, n: nat)
    requires Linked(a) && Linked(b)
    requires n < |Path(a)| && n < |Path(b)| && Path(a)[n] == Path(b)[n]
    ensures forall i :: 0 <= i <= n ==> Path(a)[i] == Path(b)[i]
  {
    PathPrefix(a, n);
    PathPrefix(b, n);
    forall i | 0 <= i <= n
      ensures Path(a)[i] == Path(b)[i]
    {
      assert Path(a)[i] == Path(a)[..n + 1][i] && Path(b)[i] == Path(b)[..n + 1][i];
    }
  }

  /** Each step up a linked path goes to the parent. */
  lemma {:induction false} PathStep(h: Header, i: nat)
    requires Linked(h) && 0 < i <= h.number
    ensures |Path(h)| == h.number + 1
    ensures Path(h)[i].parentHash == Digest(Path(h)[i - 1])
    decreases h
  {
    PathIndexing(h);
    var p := h.parentHash.header;
    assert Path(h) == Path(p) + [h];
    PathIndexing(p);
    if i < h.number {
      PathStep(p, i);
      assert Path(h)[i] == Path(p)[i] && Path(h)[i - 1] == Path(p)[i - 1];
    }
  }

  /** Total difficulty is the sum of the difficulties on the parent path. */
  function SumDifficulty(hs: seq<Header>): nat {
    if hs == [] then 0 else SumDifficulty(hs[..|hs| - 1]) + hs[|hs| - 1].difficulty
  }

  lemma {:induction false} TotalDifficultyIsPathSum(h: Header)
    ensures TotalDifficulty(h) == SumDifficulty(Path(h))
    decreases h
  {
    if h.parentHash.Digest? {
      TotalDifficultyIsPathSum(h.parentHash.header);
      assert Path(h)[..|Path(h)| - 1] == Path(h.parentHash.header);
    } else {
      assert Path(h)[..0] == [];
    }
  }

  // ----- the canonical map -----

  /** The number-to-hash map of the parent path of `h`: defined on exactly `0..h.number`. */
  function CanonOf(h: Header): map<int, Hash> {
    map n: int | 0 <= n < |Path(h)| :: Digest(Path(h)[n])
  }

  /** The same fact in the form a reader of the database would state it. */
  ghost predicate CanonIsPathTo(canon: map<int, Hash>, genesis: Header, head: Header) {
    && (forall n: int :: n in canon <==> 0 <= n <= head.number)
    && canon[0] == Digest(genesis)
    && canon[head.number] == Digest(head)
    && forall n: int :: 0 < n <= head.number ==>
         canon[n].Digest? && canon[n].header.parentHash == canon[n - 1]
  }

  lemma {:induction false} CanonOfIsPath(head: Header)
    requires Linked(head)
    ensures CanonIsPathTo(CanonOf(head), Root(head), head)
  {
    PathIndexing(head);
    forall n: int | 0 < n <= head.number
      ensures CanonOf(head)[n].Digest? && CanonOf(head)[n].header.parentHash == CanonOf(head)[n - 1]
    {
      PathStep(head, n);
    }
  }

  /** And it determines the map: a map that walks from `genesis` to `head` is `CanonOf(head)`. */
  lemma {:induction false} CanonPathUnique(canon: map<int, Hash>, genesis: Header, head: Header)
    requires Linked(head) && CanonIsPathTo(canon, genesis, head)
    ensures canon == CanonOf(head)
  {
    PathIndexing(head);
    forall n: int | 0 <= n <= head.number
      ensures canon[n] == Digest(Path(head)[n])
    {
      CanonPathUniqueAt(canon, genesis, head, n);
    }
  }

  lemma {:induction false} CanonPathUniqueAt(canon: map<int, Hash>, genesis: Header, head: Header, n: int)
    requires Linked(head) && CanonIsPathTo(canon, genesis, head)
    requires 0 <= n <= head.number
    ensures n < |Path(head)| && canon[n] == Digest(Path(head)[n])
    decreases head.number - n
  {
    PathIndexing(head);
    if n < head.number {
      CanonPathUniqueAt(canon, genesis, head, n + 1);
      PathStep(head, n + 1);
    }
  }
}
