/**
 The header chain: the database, the head, and three LRU caches in front of the database. Cache
 eviction is arbitrary: every `Add` may drop any entries but the one it adds.
 */
module HeaderChain {
  import opened Options
  import opened ChainTypes
  import opened HeaderRuns
  import Db = ChainDb
  import opened ChainDb

  /** The canonical map cut to the numbers up to `n`. */
  function CutTo(canon: map<int, Hash>, n: int): map<int, Hash> {
    map i | i in canon && i <= n :: canon[i]
  }

  // ----- re-routing the canonical map, as a walk over maps -----

  /** The numbers above `k` name the new path, those up to `k` still name the old one. */
  ghost predicate Rerouting(canon: map<int, Hash>, oldPath: seq<Header>, path: seq<Header>, k: int) {
    && (forall n :: n in canon ==> 0 <= n < |path|)
    && (forall n :: k < n < |path| - 1 && 0 <= n ==> n in canon && canon[n] == Digest(path[n]))
    && (forall n :: 0 <= n <= k ==> (n in canon <==> n < |oldPath|))
    && (forall n :: 0 <= n <= k && n < |oldPath| ==> canon[n] == Digest(oldPath[n]))
  }

  lemma RerouteStart(oldHead: Header, tip: Header)
    requires Linked(tip) && tip.parentHash.Digest?
    ensures Rerouting(CutTo(CanonOf(oldHead), tip.number), Path(oldHead), Path(tip), tip.number - 1)
  {
    hide Linked, Path;
    PathIndexing(tip);
  }

  /** The walk stops at the genesis block at the latest. */
  lemma RerouteStep(canon: map<int, Hash>, oldPath: seq<Header>, path: seq<Header>, k: int)
    requires oldPath != [] && path != [] && oldPath[0] == path[0]
    requires 0 <= k < |path| - 1 && Rerouting(canon, oldPath, path, k)
    requires k in canon ==> canon[k] != Digest(path[k])
    ensures k > 0 && Rerouting(canon[k := Digest(path[k])], oldPath, path, k - 1)
  {
  }

  lemma RerouteDone(canon: map<int, Hash>, oldHead: Header, tip: Header, k: int)
    requires Linked(oldHead) && Linked(tip)
    requires 0 <= k < |Path(tip)| - 1 && Rerouting(canon, Path(oldHead), Path(tip), k)
    requires k in canon && canon[k] == Digest(Path(tip)[k])
    ensures canon[tip.number := Digest(tip)] == CanonOf(tip)
  {
    PathIndexing(tip);
    SharedAncestorSharesPrefix(tip, oldHead, k);
  }

  /** The part of a path above index `n`. */
  ghost function Above(path: seq<Header>, n: int): set<Header>
    requires -1 <= n < |path|
  {
    set i | n < i < |path| :: path[i]
  }

  lemma NothingAbove(path: seq<Header>)
    requires path != []
    ensures Above(path, |path| - 1) == {}
  {
  }

  /** Headers of different numbers differ. */
  lemma NotAbove(path: seq<Header>, n: int)
    requires 0 <= n < |path| && forall i :: 0 <= i < |path| ==> path[i].number == i
    ensures path[n] !in Above(path, n)
  {
  }

  lemma AboveStep(path: seq<Header>, n: int)
    requires 0 <= n < |path|
    ensures Above(path, n - 1) == Above(path, n) + {path[n]}
  {
  }

  /** The index of the new head when a path is rewound to `head`. */
  function Kept(path: seq<Header>, head: nat): (n: nat)
    requires path != []
  {
    if head < |path| then head else |path| - 1
  }

  /** The path was cut to `head`: the head moved there, and exactly the headers above it were deleted,
      topmost first. */
  ghost predicate Rewound(path: seq<Header>, stored: set<Header>, head: nat,
                          newHead: Header, newStored: set<Header>, deleted: seq<Key>)
    requires path != []
  {
    var n := Kept(path, head);
    && newHead == path[n]
    && newStored == stored - Above(path, n)
    && |deleted| == |path| - 1 - n
    && forall j :: 0 <= j < |deleted| ==> deleted[j] == KeyOf(path[|path| - 1 - j])
  }

  lemma CutIsCanonOf(h: Header, head: nat)
    requires Linked(h)
    ensures CutTo(CanonOf(h), head) == CanonOf(Path(h)[Kept(Path(h), head)])
  {
    PathPrefix(h, Kept(Path(h), head));
  }

  // ----- caches -----

  /** `Add` of an LRU cache of unknown size and recency. */
  method LruAdd<V>(cache: map<Hash, V>, k: Hash, v: V) returns (r: map<Hash, V>)
    ensures k in r && r[k] == v
    ensures forall x :: x in r ==> x == k || (x in cache && r[x] == cache[x])
  {
    var evicted: set<Hash> := *;
    r := (cache - evicted)[k := v];
  }

  /** Nothing in a cache is stale. */
  ghost predicate HeaderCacheOk(cache: map<Hash, Header>, stored: set<Header>) {
    forall k :: k in cache ==> cache[k] in stored && k == Digest(cache[k])
  }

  ghost predicate TdCacheOk(cache: map<Hash, int>, stored: set<Header>) {
    forall k :: k in cache ==> In(k, stored) && cache[k] == TotalDifficulty(k.header)
  }

  ghost predicate NumberCacheOk(cache: map<Hash, int>, stored: set<Header>) {
    forall k :: k in cache ==> In(k, stored) && cache[k] == k.header.number
  }

  /** The premise of the cached lookups is the weakest one: on a hit, the caches and the database
      agree exactly when the number is the one the hash belongs to. */
  lemma CacheAgreesIff(db: Db.Db, stored: set<Header>, cache: map<Hash, Header>, hash: Hash, number: int)
    requires Holds(db, stored) && HeaderCacheOk(cache, stored) && hash in cache
    ensures Db.GetHeader(db, hash, number) == Some(cache[hash]) <==> TrueNumber(hash, number)
  {
    if TrueNumber(hash, number) {
      HoldsRead(db, stored, hash, number);
    }
  }

  /** It fails for every other number: the cached genesis header, asked for with any number but its own,
      is a hit, and a direct read finds nothing. */
  lemma CacheIgnoresNumber(g: Header, number: int)
    requires number != g.number
    ensures
      var cache := map[Digest(g) := g];
      && Holds(GenesisDb(g), {g}) && HeaderCacheOk(cache, {g})
      && Digest(g) in cache && Db.GetHeader(GenesisDb(g), Digest(g), number) != Some(cache[Digest(g)])
  {
    GenesisHolds(g);
    CacheAgreesIff(GenesisDb(g), {g}, map[Digest(g) := g], Digest(g), number);
  }

  lemma GenesisIsCanonical(c: Chain)
    requires Inv(c)
    ensures 0 in CanonOf(c.head) && CanonOf(c.head)[0] == Digest(c.genesis)
    ensures c.genesis in c.stored && c.genesis.number == 0
  {
    assert Placed(c.genesis, c.stored, c.head);
  }

  lemma NoCaches(stored: set<Header>)
    ensures HeaderCacheOk(map[], stored) && TdCacheOk(map[], stored) && NumberCacheOk(map[], stored)
  {
  }

  class HeaderChain {
    const genesis: Header
    var db: Db.Db
    var currentHeader: Header
    var currentHeaderHash: Hash
    var headerCache: map<Hash, Header>
    var tdCache: map<Hash, int>
    var numberCache: map<Hash, int>

    /** The headers in the database, as a set. */
    ghost var stored: set<Header>

    /** The database holds `stored` and no cache contradicts it. */
    ghost predicate StoreOk()
      reads this
    {
      && Holds(db, stored)
      && HeaderCacheOk(headerCache, stored)
      && TdCacheOk(tdCache, stored)
      && NumberCacheOk(numberCache, stored)
    }

    ghost function View(): Chain
      reads this
    {
      Chain(genesis, stored, currentHeader)
    }

    ghost predicate Valid()
      reads this
    {
      && StoreOk()
      && Inv(View())
      && currentHeaderHash == Digest(currentHeader)
      && db.headHeader == Digest(currentHeader)
      && db.canon == CanonOf(currentHeader)
    }

    constructor (genesis: Header)
      requires IsGenesis(genesis)
      ensures Valid() && View() == Start(genesis)
    {
      this.genesis := genesis;
      db := GenesisDb(genesis);
      currentHeader, currentHeaderHash := genesis, Digest(genesis);
      headerCache, tdCache, numberCache := map[], map[], map[];
      stored := {genesis};
      new;
      hide HoldsHeaders, HoldsTds, HoldsNumbers, Inv;
      StartInv(genesis);
      GenesisHolds(genesis);
    }

    /** Open the database that another header chain left behind, in which `headBlock` is named as the head
        block. The chain starts at that block, or at genesis if it is not stored; so it is the one that
        was left exactly when that is where the header head was. */
    constructor Open(was: HeaderChain, headBlock: Hash)
      requires was.Valid()
      ensures StoreOk() && genesis == was.genesis && stored == was.stored && db == was.db
      ensures currentHeader == if In(headBlock, stored) then headBlock.header else genesis
      ensures currentHeaderHash == Digest(currentHeader)
      ensures Valid() <==> currentHeader == was.currentHeader
    {
      hide HoldsHeaders, HoldsTds, HoldsNumbers, Inv, CanonOf, HeaderCacheOk, TdCacheOk, NumberCacheOk;
      GenesisIsCanonical(was.View());
      NoCaches(was.stored);
      HoldsRead(was.db, was.stored, Digest(was.genesis), 0);
      var first := Db.GetHeader(was.db, GetCanonicalHash(was.db, 0), 0);
      genesis, currentHeader, currentHeaderHash := first.value, first.value, Digest(first.value);
      db, stored := was.db, was.stored;
      headerCache, tdCache, numberCache := map[], map[], map[];
      new;
      var n := GetBlockNumber(headBlock);
      var head := GetHeader(headBlock, n);
      if head.Some? {
        currentHeader := head.value;
      }
      currentHeaderHash := Digest(currentHeader);
    }

    /** Then move to the head header that the database names. That gives the chain that was left, wherever
        its head block was. */
    method LoadHead(ghost was: Chain)
      requires StoreOk() && genesis == was.genesis && stored == was.stored && Inv(was)
      requires db.headHeader == Digest(was.head) && db.canon == CanonOf(was.head)
      modifies this
      ensures Valid() && View() == was
    {
      hide HoldsHeaders, HoldsTds, HoldsNumbers, Inv, CanonOf, HeaderCacheOk, TdCacheOk, NumberCacheOk;
      assert was.head in was.stored by { HeadStored(was); }
      var n := GetBlockNumber(db.headHeader);
      var head := GetHeader(db.headHeader, n);
      if head.Some? {
        db := WriteHeadHeaderHash(db, Digest(head.value));
        currentHeader, currentHeaderHash := head.value, Digest(head.value);
      }
    }

    // ----- lookups through the caches -----

    method GetBlockNumber(hash: Hash) returns (n: int)
      requires StoreOk()
      modifies this`numberCache
      ensures StoreOk()
      ensures n == Db.GetBlockNumber(db, hash)
      ensures n == if In(hash, stored) then hash.header.number else MISSING_NUMBER
    {
      hide HoldsHeaders, HoldsTds, HoldsNumbers;
      HoldsReadNumber(db, stored, hash);
      if hash in numberCache {
        return numberCache[hash];
      }
      n := Db.GetBlockNumber(db, hash);
      if n != MISSING_NUMBER {
        numberCache := LruAdd(numberCache, hash, n);
      }
    }

    method GetTd(hash: Hash, number: int) returns (td: Option<int>)
      requires StoreOk()
      requires In(hash, stored) ==> TrueNumber(hash, number)
      modifies this`tdCache
      ensures StoreOk()
      ensures td == Db.GetTd(db, hash, number)
      ensures td == if In(hash, stored) then Some(TotalDifficulty(hash.header)) else None
    {
      hide HoldsHeaders, HoldsTds, HoldsNumbers;
      HoldsRead(db, stored, hash, number);
      if hash in tdCache {
        return Some(tdCache[hash]);
      }
      td := Db.GetTd(db, hash, number);
      if td.Some? {
        tdCache := LruAdd(tdCache, hash, td.value);
      }
    }

    /** The lookup as the code has it: a hit ignores the number, and only a found header is cached. */
    method FetchHeader(hash: Hash, number: int) returns (header: Option<Header>)
      modifies this`headerCache
      ensures header == if hash in old(headerCache) then Some(old(headerCache)[hash])
                        else Db.GetHeader(db, hash, number)
      ensures forall k :: k in headerCache ==>
        || (k in old(headerCache) && headerCache[k] == old(headerCache)[k])
        || (k == hash && header == Some(headerCache[k]))
    {
      if hash in headerCache {
        return Some(headerCache[hash]);
      }
      header := Db.GetHeader(db, hash, number);
      if header.Some? {
        headerCache := LruAdd(headerCache, hash, header.value);
      }
    }

    /** On a coherent cache and with the right number, it is a plain read of the database. */
    method GetHeader(hash: Hash, number: int) returns (header: Option<Header>)
      requires StoreOk()
      requires In(hash, stored) ==> TrueNumber(hash, number)
      modifies this`headerCache
      ensures StoreOk()
      ensures header == Db.GetHeader(db, hash, number)
      ensures header == if In(hash, stored) then Some(hash.header) else None
    {
      hide HoldsHeaders, HoldsTds, HoldsNumbers;
      HoldsRead(db, stored, hash, number);
      header := FetchHeader(hash, number);
    }

    method HasHeader(hash: Hash) returns (b: bool)
      requires StoreOk()
      modifies this`numberCache, this`headerCache
      ensures StoreOk()
      ensures b <==> In(hash, stored)
    {
      var n := GetBlockNumber(hash);
      var header := GetHeader(hash, n);
      b := header.Some?;
    }

    // ----- writing a header -----

    /** Delete the canonical numbers above the new head. */
    method DeleteCanonAbove(number: nat)
      requires db.canon == CanonOf(currentHeader)
      modifies this`db
      ensures db == old(db).(canon := CutTo(old(db.canon), number))
    {
      var i := number + 1;
      while GetCanonicalHash(db, i) != ZERO_HASH
        invariant number < i
        invariant db == old(db).(canon := db.canon)
        invariant db.canon == map n | n in old(db.canon) && !(number < n < i) :: old(db.canon)[n]
        decreases |Path(currentHeader)| - i
      {
        db := DeleteCanonicalHash(db, i);
        i := i + 1;
      }
      assert i !in old(db.canon);
    }

    /** Overwrite the stale canonical numbers below `header`, down to the first one that already
        names an ancestor of it, then add `header` itself. */
    method Reroute(header: Header)
      requires StoreOk() && Closed(genesis, stored)
      requires header in stored && header != genesis && currentHeader in stored
      requires db.canon == CutTo(CanonOf(currentHeader), header.number)
      modifies this`db, this`headerCache
      ensures StoreOk()
      ensures db == old(db).(canon := CanonOf(header))
    {
      hide HoldsHeaders, HoldsTds, HoldsNumbers, HeaderCacheOk, TdCacheOk, NumberCacheOk;
      hide Closed, Linked, Path, TotalDifficulty, Rerouting, CutTo, CanonOf;
      ghost var oldPath, path := Path(currentHeader), Path(header);
      PlacedFacts(genesis, stored, header);
      PlacedFacts(genesis, stored, currentHeader);
      PathIndexing(header);
      PathStep(header, header.number);
      RerouteStart(currentHeader, header);
      var headHash := header.parentHash;
      var headNumber := header.number - 1;
      var headHeader := GetHeader(headHash, headNumber);
      while GetCanonicalHash(db, headNumber) != headHash
        invariant 0 <= headNumber < |path| - 1
        invariant headHash == Digest(path[headNumber]) && headHeader == Some(path[headNumber])
        invariant StoreOk() && db == old(db).(canon := db.canon)
        invariant Rerouting(db.canon, oldPath, path, headNumber)
        decreases headNumber
      {
        RerouteStep(db.canon, oldPath, path, headNumber);
        PathStep(header, headNumber);
        db := WriteCanonicalHash(db, headHash, headNumber);
        headHash := headHeader.value.parentHash;
        headNumber := headHeader.value.number - 1;
        headHeader := GetHeader(headHash, headNumber);
      }
      RerouteDone(db.canon, currentHeader, header, headNumber);
      db := WriteCanonicalHash(db, Digest(header), header.number);
    }

    /** Write the header and its total difficulty, whatever its canonical status. */
    method Put(header: Header, td: int)
      requires StoreOk() && td == TotalDifficulty(header)
      modifies this`db, this`stored, this`tdCache
      ensures StoreOk()
      ensures stored == old(stored) + {header}
      ensures db.canon == old(db.canon) && db.headHeader == old(db.headHeader)
    {
      hide HoldsHeaders, HoldsTds, HoldsNumbers;
      HoldsAfterWrite(db, stored, header);
      db := WriteTd(db, Digest(header), header.number, td);
      tdCache := LruAdd(tdCache, Digest(header), td);
      db := Db.WriteHeader(db, header);
      stored := stored + {header};
    }

    method CacheHeader(header: Header)
      requires StoreOk() && header in stored
      modifies this`headerCache, this`numberCache
      ensures StoreOk()
    {
      hide HoldsHeaders, HoldsTds, HoldsNumbers, TdCacheOk;
      headerCache := LruAdd(headerCache, Digest(header), header);
      numberCache := LruAdd(numberCache, Digest(header), header.number);
    }

    method WriteHeader(header: Header, coin: bool) returns (status: WriteStatus)
      requires Valid() && Follows(View(), header)
      modifies this
      ensures Valid()
      ensures View() == Write(old(View()), header, coin)
      ensures status == if !Known(old(View()), header.parentHash) then NonStatTy
                        else if Heavier(header, old(currentHeader), coin) then CanonStatTy else SideStatTy
    {
      hide HoldsHeaders, HoldsTds, HoldsNumbers, HeaderCacheOk, TdCacheOk, NumberCacheOk;
      hide Inv, Closed, CanonOf, CutTo, TotalDifficulty;
      WriteKeepsInv(View(), header, coin);
      var ptd := GetTd(header.parentHash, header.number - 1);
      if ptd.None? {
        return NonStatTy;
      }
      ChildFacts(View(), header);
      var localTd := GetTd(currentHeaderHash, currentHeader.number);
      var externTd := header.difficulty + ptd.value;
      Put(header, externTd);

      if externTd > localTd.value || (externTd == localTd.value && coin) {
        DeleteCanonAbove(header.number);
        Reroute(header);
        db := WriteHeadHeaderHash(db, Digest(header));
        currentHeaderHash, currentHeader := Digest(header), header;
        status := CanonStatTy;
      } else {
        status := SideStatTy;
      }
      CacheHeader(header);
    }

    /** Any run of validated writes from any valid state. */
    method WriteHeaders(calls: seq<Call>)
      requires Valid()
      requires forall i :: 0 <= i < |calls| ==> Follows(Run(View(), calls[..i]), calls[i].header)
      modifies this
      ensures Valid() && View() == Run(old(View()), calls)
    {
      hide Valid;
      for i := 0 to |calls|
        invariant Valid() && View() == Run(old(View()), calls[..i])
      {
        assert calls[..i + 1][..i] == calls[..i];
        assert Follows(Run(old(View()), calls[..i]), calls[i].header);
        var _ := WriteHeader(calls[i].header, calls[i].coin);
      }
      assert calls[..|calls|] == calls;
    }

    // ----- rewinding -----

    /** Delete the current header and step to its parent, until the number is no more than `head`.
        The caches still hold what was deleted, but the walk only ever asks for what was not. */
    method DeleteHeadersAbove(head: nat) returns (deleted: seq<Key>)
      requires Valid()
      modifies this`db, this`stored, this`currentHeader, this`headerCache
      ensures Rewound(Path(old(currentHeader)), old(stored), head, currentHeader, stored, deleted)
      ensures Holds(db, stored) && db.canon == old(db.canon)
    {
      hide HoldsHeaders, HoldsTds, HoldsNumbers, Closed, Linked, Path, TdCacheOk, NumberCacheOk;
      hide Above, HeaviestHead, CanonOf;
      ghost var path, all := Path(currentHeader), stored;
      deleted := [];
      PlacedFacts(genesis, stored, currentHeader);
      PathIndexing(currentHeader);
      ghost var n := |path| - 1;
      NothingAbove(path);
      while currentHeader.number > head
        invariant 0 <= n < |path| && currentHeader == path[n] && n >= Kept(path, head)
        invariant stored == all - Above(path, n)
        invariant Holds(db, stored) && HeaderCacheOk(headerCache, all)
        invariant db.canon == old(db.canon)
        invariant |deleted| == |path| - 1 - n
        invariant forall j :: 0 <= j < |deleted| ==> deleted[j] == KeyOf(path[|path| - 1 - j])
        decreases n
      {
        var hash, num := Digest(currentHeader), currentHeader.number;
        PathStep(old(currentHeader), n);
        deleted := deleted + [(num, hash)];
        HoldsAfterDelete(db, stored, currentHeader);
        db := DeleteTd(DeleteHeader(db, hash, num), hash, num);
        stored := stored - {currentHeader};
        AboveStep(path, n);
        NotAbove(path, n - 1);
        n := n - 1;
        HoldsRead(db, stored, Digest(path[n]), n);
        var parent := FetchHeader(currentHeader.parentHash, num - 1);
        currentHeader := parent.value;
      }
    }

    /** Roll back the canonical numbering from `height` down to `head`. */
    method DeleteCanonBetween(height: nat, head: nat)
      requires forall n :: n in db.canon ==> n <= height
      modifies this`db
      ensures db == old(db).(canon := CutTo(old(db.canon), head))
    {
      var i := height;
      while i > head
        invariant i <= height && (head <= i || i == height)
        invariant db == old(db).(canon := db.canon)
        invariant db.canon == map n | n in old(db.canon) && n <= i :: old(db.canon)[n]
      {
        db := DeleteCanonicalHash(db, i);
        i := i - 1;
      }
    }

    method SetHead(head: nat) returns (deleted: seq<Key>)
      requires Valid()
      modifies this
      ensures Rewound(Path(old(currentHeader)), old(stored), head, currentHeader, stored, deleted)
      ensures StoreOk()
      ensures db.canon == CutTo(old(db.canon), head) == CanonOf(currentHeader)
      ensures currentHeaderHash == db.headHeader == Digest(currentHeader)
    {
      hide HoldsHeaders, HoldsTds, HoldsNumbers, Closed, Linked, Path;
      var height := currentHeader.number;
      PlacedFacts(genesis, stored, currentHeader);
      PathIndexing(currentHeader);
      CutIsCanonOf(currentHeader, head);
      deleted := DeleteHeadersAbove(head);
      DeleteCanonBetween(height, head);
      headerCache, tdCache, numberCache := map[], map[], map[];
      currentHeaderHash := Digest(currentHeader);
      db := WriteHeadHeaderHash(db, currentHeaderHash);
    }
  }
}
