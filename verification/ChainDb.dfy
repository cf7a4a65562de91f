/**
 The chain database as far as headers go: headers and total difficulties under (number, hash),
 numbers under the hash, the canonical hash of each number, and the hash of the head header.
 Keys are those of the current format. A number is an `int` here: -1 plays the wrapped-around
 predecessor of 0, which like 2^64 - 1 is the number of no stored header.
 */
module ChainDb {
  import opened Options
  import opened ChainTypes

  datatype Db = Db(
    headers: map<Key, Header>,
    tds: map<Key, int>,
    numbers: map<Hash, int>,
    canon: map<int, Hash>,
    headHeader: Hash)

  const MISSING_NUMBER := -1

  function Lookup<K, V>(m: map<K, V>, k: K): Option<V> {
    if k in m then Some(m[k]) else None
  }

  function GetHeader(db: Db, hash: Hash, number: int): Option<Header> {
    Lookup(db.headers, (number, hash))
  }

  function GetTd(db: Db, hash: Hash, number: int): Option<int> {
    Lookup(db.tds, (number, hash))
  }

  function GetBlockNumber(db: Db, hash: Hash): int {
    if hash in db.numbers then db.numbers[hash] else MISSING_NUMBER
  }

  function GetCanonicalHash(db: Db, number: int): Hash {
    if number in db.canon then db.canon[number] else ZERO_HASH
  }

  function WriteHeader(db: Db, h: Header): Db {
    db.(headers := db.headers[KeyOf(h) := h], numbers := db.numbers[Digest(h) := h.number])
  }

  function WriteTd(db: Db, hash: Hash, number: int, td: int): Db {
    db.(tds := db.tds[(number, hash) := td])
  }

  function WriteCanonicalHash(db: Db, hash: Hash, number: int): Db {
    db.(canon := db.canon[number := hash])
  }

  function WriteHeadHeaderHash(db: Db, hash: Hash): Db {
    db.(headHeader := hash)
  }

  function DeleteCanonicalHash(db: Db, number: int): Db {
    db.(canon := db.canon - {number})
  }

  function DeleteHeader(db: Db, hash: Hash, number: int): Db {
    db.(headers := db.headers - {(number, hash)}, numbers := db.numbers - {hash})
  }

  function DeleteTd(db: Db, hash: Hash, number: int): Db {
    db.(tds := db.tds - {(number, hash)})
  }

  // ----- what the tables hold -----

  ghost predicate HoldsHeaders(headers: map<Key, Header>, stored: set<Header>) {
    && (forall h :: h in stored ==> KeyOf(h) in headers && headers[KeyOf(h)] == h)
    && (forall k :: k in headers ==> headers[k] in stored && k == KeyOf(headers[k]))
  }

  ghost predicate HoldsTds(tds: map<Key, int>, stored: set<Header>) {
    && (forall h :: h in stored ==> KeyOf(h) in tds && tds[KeyOf(h)] == TotalDifficulty(h))
    && (forall k :: k in tds ==> k.1.Digest? && k.1.header in stored && k.0 == k.1.header.number)
  }

  ghost predicate HoldsNumbers(numbers: map<Hash, int>, stored: set<Header>) {
    && (forall h :: h in stored ==> Digest(h) in numbers && numbers[Digest(h)] == h.number)
    && (forall k :: k in numbers ==> k.Digest? && k.header in stored)
  }

  /** The database holds exactly the headers of `stored`, each with its number and total difficulty. */
  ghost predicate Holds(db: Db, stored: set<Header>) {
    HoldsHeaders(db.headers, stored) && HoldsTds(db.tds, stored) && HoldsNumbers(db.numbers, stored)
  }

  /** The number belongs to the hash. */
  predicate TrueNumber(hash: Hash, number: int) {
    hash.Digest? ==> number == hash.header.number
  }

  lemma HoldsRead(db: Db, stored: set<Header>, hash: Hash, number: int)
    requires Holds(db, stored) && (In(hash, stored) ==> TrueNumber(hash, number))
    ensures GetHeader(db, hash, number) == if In(hash, stored) then Some(hash.header) else None
    ensures GetTd(db, hash, number) == if In(hash, stored) then Some(TotalDifficulty(hash.header)) else None
  {
    if In(hash, stored) {
      assert (number, hash) == KeyOf(hash.header);
    }
  }

  lemma HoldsReadNumber(db: Db, stored: set<Header>, hash: Hash)
    requires Holds(db, stored)
    ensures GetBlockNumber(db, hash) == if In(hash, stored) then hash.header.number else MISSING_NUMBER
  {
  }

  lemma HoldsHeadersAfter(headers: map<Key, Header>, stored: set<Header>, h: Header)
    requires HoldsHeaders(headers, stored)
    ensures HoldsHeaders(headers[KeyOf(h) := h], stored + {h})
    ensures HoldsHeaders(headers - {KeyOf(h)}, stored - {h})
  {
  }

  lemma HoldsTdsAfter(tds: map<Key, int>, stored: set<Header>, h: Header)
    requires HoldsTds(tds, stored)
    ensures HoldsTds(tds[KeyOf(h) := TotalDifficulty(h)], stored + {h})
    ensures HoldsTds(tds - {KeyOf(h)}, stored - {h})
  {
  }

  lemma HoldsNumbersAfter(numbers: map<Hash, int>, stored: set<Header>, h: Header)
    requires HoldsNumbers(numbers, stored)
    ensures HoldsNumbers(numbers[Digest(h) := h.number], stored + {h})
    ensures HoldsNumbers(numbers - {Digest(h)}, stored - {h})
  {
  }

  lemma HoldsAfterWrite(db: Db, stored: set<Header>, h: Header)
    requires Holds(db, stored)
    ensures Holds(WriteHeader(WriteTd(db, Digest(h), h.number, TotalDifficulty(h)), h), stored + {h})
  {
    HoldsHeadersAfter(db.headers, stored, h);
    HoldsTdsAfter(db.tds, stored, h);
    HoldsNumbersAfter(db.numbers, stored, h);
  }

  lemma HoldsAfterDelete(db: Db, stored: set<Header>, h: Header)
    requires Holds(db, stored)
    ensures Holds(DeleteTd(DeleteHeader(db, Digest(h), h.number), Digest(h), h.number), stored - {h})
  {
    HoldsHeadersAfter(db.headers, stored, h);
    HoldsTdsAfter(db.tds, stored, h);
    HoldsNumbersAfter(db.numbers, stored, h);
  }

  /** The database with nothing but the genesis block in it. */
  function GenesisDb(g: Header): Db {
    Db(map[KeyOf(g) := g], map[KeyOf(g) := TotalDifficulty(g)], map[Digest(g) := g.number],
       map[0 := Digest(g)], Digest(g))
  }

  lemma GenesisHolds(g: Header)
    ensures Holds(GenesisDb(g), {g})
  {
  }
}
