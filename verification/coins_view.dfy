/** Write-back caches stacked over the coin database (src/coins.cpp:56-180, src/txdb.cpp:15-66),
    as values: what every layer shows, and what reading, writing and flushing do to it. */
module CoinsView {
  import opened Common
  import opened CoinsFormat

  type Txid = nat
  type Hash = nat

  const NullHash: Hash := 0

  datatype Stack =
    | Bottom(coins: map<Txid, State>, best: Hash)
    | Cache(coins: map<Txid, State>, best: Hash, base: Stack)

  /** The coins a layer shows for a transaction. */
  function View(s: Stack, txid: Txid): Option<State> {
    if txid in s.coins then Some(s.coins[txid])
    else if s.Bottom? then None
    else View(s.base, txid)
  }

  /** The block a layer claims to represent. */
  function Best(s: Stack): Hash {
    if s.Bottom? || s.best != NullHash then s.best else Best(s.base)
  }

  function Depth(s: Stack): nat { if s.Bottom? then 0 else 1 + Depth(s.base) }

  /** Entirely spent records count as absent. */
  function Live(o: Option<State>): Option<State> {
    if o.Some? && Pruned(o.value.vout) then None else o
  }

  /** Everything a layer shows, as one table. */
  function Table(s: Stack): map<Txid, State> { if s.Bottom? then s.coins else Table(s.base) + s.coins }

  lemma {:induction false} TableShows(s: Stack, txid: Txid)
    ensures View(s, txid) == if txid in Table(s) then Some(Table(s)[txid]) else None
  {
    if s.Cache? { TableShows(s.base, txid); }
  }

  /** Layers that show the same have the same table. */
  lemma SameTable(s: Stack, t: Stack)
    requires forall txid :: View(s, txid) == View(t, txid)
    ensures Table(s) == Table(t)
  {
    forall txid
      ensures View(s, txid) == (if txid in Table(s) then Some(Table(s)[txid]) else None)
      ensures View(t, txid) == (if txid in Table(t) then Some(Table(t)[txid]) else None)
    {
      TableShows(s, txid);
      TableShows(t, txid);
    }
    assert forall txid :: txid in Table(s) <==> View(s, txid).Some?;
    assert forall txid :: txid in Table(t) <==> View(t, txid).Some?;
  }

  // --- Operations -----------------------------------------------------------------------------

  /** After a lookup every layer on the way has its own copy (src/coins.cpp:74-96). */
  function Fetched(s: Stack, txid: Txid): Stack {
    if s.Bottom? || txid in s.coins then s
    else
      var below := Fetched(s.base, txid);
      if View(s.base, txid).Some? then Cache(s.coins[txid := View(s.base, txid).value], s.best, below)
      else Cache(s.coins, s.best, below)
  }

  /** After asking for the best block every layer on the way remembers it (src/coins.cpp:113-117). */
  function BestFetched(s: Stack): Stack {
    if s.Bottom? || s.best != NullHash then s
    else Cache(s.coins, Best(s.base), BestFetched(s.base))
  }

  /** A batch overwrites; the database drops records that are entirely spent, and takes the block
      only when there is one (src/coins.cpp:124-129, src/txdb.cpp:56-66). */
  function Written(s: Stack, batch: map<Txid, State>, hash: Hash): (r: Stack)
    ensures Depth(r) == Depth(s)
  {
    if s.Cache? then Cache(s.coins + batch, hash, s.base)
    else Bottom(Stored(s.coins, batch), if hash != NullHash then hash else s.best)
  }

  function Stored(coins: map<Txid, State>, batch: map<Txid, State>): (r: map<Txid, State>)
    ensures forall t :: t in r <==> if t in batch then !Pruned(batch[t].vout) else t in coins
    ensures forall t :: t in r ==> r[t] == if t in batch then batch[t] else coins[t]
  {
    map t | t in coins.Keys + batch.Keys && (t in batch ==> !Pruned(batch[t].vout))
      :: if t in batch then batch[t] else coins[t]
  }

  /** The part of a batch that has been gone through. */
  function Part(batch: map<Txid, State>, todo: set<Txid>): map<Txid, State> {
    map t | t in batch && t !in todo :: batch[t]
  }

  function Merged(coins: map<Txid, State>, batch: map<Txid, State>, todo: set<Txid>): map<Txid, State> {
    coins + Part(batch, todo)
  }

  lemma PartEnds(coins: map<Txid, State>, batch: map<Txid, State>)
    ensures Part(batch, {}) == batch
    ensures Merged(coins, batch, batch.Keys) == coins && Merged(coins, batch, {}) == coins + batch
    ensures Stored(coins, Part(batch, batch.Keys)) == coins
  {
  }

  lemma PartStep(coins: map<Txid, State>, batch: map<Txid, State>, todo: set<Txid>, t: Txid)
    requires t in todo && t in batch
    ensures Merged(coins, batch, todo - {t}) == Merged(coins, batch, todo)[t := batch[t]]
  {
    assert Part(batch, todo - {t}) == Part(batch, todo)[t := batch[t]];
  }

  lemma StoredStep(coins: map<Txid, State>, batch: map<Txid, State>, todo: set<Txid>, t: Txid)
    requires t in todo && t in batch
    ensures Stored(coins, Part(batch, todo - {t})) ==
            var before := Stored(coins, Part(batch, todo));
            if Pruned(batch[t].vout) then before - {t} else before[t := batch[t]]
  {
    hide Pruned;
    assert Part(batch, todo - {t}) == Part(batch, todo)[t := batch[t]];
  }

  function Flushed(s: Stack): Stack
    requires s.Cache?
  {
    Cache(map[], s.best, Written(s.base, s.coins, s.best))
  }

  // --- Reads change no view -------------------------------------------------------------------

  /** Every layer shows the same coins and claims the same block. */
  ghost predicate Same(s: Stack, t: Stack) {
    && (forall txid :: View(s, txid) == View(t, txid))
    && Best(s) == Best(t)
    && s.Bottom? == t.Bottom?
    && (s.Cache? ==> Same(s.base, t.base))
  }

  lemma {:induction false} SameRefl(s: Stack)
    ensures Same(s, s)
  {
    if s.Cache? { SameRefl(s.base); }
  }

  lemma {:induction false} SameTrans(s: Stack, t: Stack, u: Stack)
    requires Same(s, t) && Same(t, u)
    ensures Same(s, u)
  {
    if s.Cache? { SameTrans(s.base, t.base, u.base); }
  }

  lemma {:induction false} FetchKeepsViews(s: Stack, txid: Txid)
    ensures Same(s, Fetched(s, txid))
    ensures View(s, txid).Some? ==> txid in Fetched(s, txid).coins
  {
    if s.Bottom? || txid in s.coins {
      SameRefl(s);
    } else {
      FetchKeepsViews(s.base, txid);
      var below := Fetched(s.base, txid);
      forall other
        ensures View(s, other) == View(Fetched(s, txid), other)
      {
        assert View(s.base, other) == View(below, other);
      }
    }
  }

  lemma {:induction false} BestFetchKeepsViews(s: Stack)
    ensures Same(s, BestFetched(s))
  {
    if s.Bottom? || s.best != NullHash {
      SameRefl(s);
    } else {
      BestFetchKeepsViews(s.base);
      var below := BestFetched(s.base);
      forall other
        ensures View(s, other) == View(BestFetched(s), other)
      {
        assert View(s.base, other) == View(below, other);
      }
    }
  }

  // --- Flushing -------------------------------------------------------------------------------

  /** A flush moves the cache's view into its base and changes neither the cache's own view nor
      any layer under the base; the database only forgets records that are entirely spent. */
  lemma FlushPushes(s: Stack, txid: Txid)
    requires s.Cache?
    ensures Live(View(Flushed(s).base, txid)) == Live(View(s, txid)) == Live(View(Flushed(s), txid))
    ensures s.base.Cache? ==> View(Flushed(s).base, txid) == View(s, txid) == View(Flushed(s), txid)
    ensures s.base.Cache? ==> Flushed(s).base.base == s.base.base
  {
    var t := Flushed(s);
    assert View(t, txid) == View(t.base, txid);
  }

  /** The view survives to the letter exactly when it does not go to the database with an entirely
      spent record in it. */
  lemma FlushExactIff(s: Stack)
    requires s.Cache?
    ensures (forall txid :: View(Flushed(s), txid) == View(s, txid))
       <==> s.base.Cache? || forall txid :: txid in s.coins ==> !Pruned(s.coins[txid].vout)
  {
    forall txid
      ensures View(Flushed(s), txid) == View(Flushed(s).base, txid)
    {
    }
    if s.base.Cache? {
      forall txid
        ensures View(Flushed(s), txid) == View(s, txid)
      {
        FlushPushes(s, txid);
      }
    } else if txid :| txid in s.coins && Pruned(s.coins[txid].vout) {
      assert View(s, txid) == Some(s.coins[txid]);
      assert View(Flushed(s), txid) == None;
    } else {
      forall txid
        ensures View(Flushed(s), txid) == View(s, txid)
      {
        if txid in s.coins { assert !Pruned(s.coins[txid].vout); }
      }
    }
  }

  /** The claimed block survives a flush, in the cache and in its base, exactly when the cache knows
      its block, or the base is the database, or the base knows no block of its own or the one that
      the layer under it claims: a null hash overwrites the base's claim. */
  lemma FlushBestIff(s: Stack)
    requires s.Cache?
    ensures Best(Flushed(s)) == Best(s) <==> BestIsSafe(s)
    ensures Best(Flushed(s).base) == Best(s) <==> BestIsSafe(s)
  {
    assert Best(Flushed(s)) == if s.best != NullHash then s.best else Best(Flushed(s).base);
    if s.base.Cache? {
      assert Flushed(s).base == Cache(s.base.coins + s.coins, s.best, s.base.base);
    }
  }

  predicate BestIsSafe(s: Stack)
    requires s.Cache?
  {
    s.best != NullHash || s.base.Bottom? || s.base.best == NullHash || s.base.best == Best(s.base.base)
  }

  /** The base claims block 7 over a database at block 5; flushing a cache that knows no block takes
      that claim away. */
  lemma FlushLosesClaim()
    ensures var s := Cache(map[], NullHash, Cache(map[], 7, Bottom(map[], 5)));
            && !BestIsSafe(s) && Best(s) == 7 && Best(Flushed(s)) == 5 && Best(Flushed(s).base) == 5
  {
    var s := Cache(map[], NullHash, Cache(map[], 7, Bottom(map[], 5)));
    FlushBestIff(s);
    assert Flushed(s).base == Cache(map[], NullHash, Bottom(map[], 5));
  }

  // --- Whole runs -----------------------------------------------------------------------------

  /** Anything that can happen to a stack through its top layer, and flushing any layer `k` counted
      from the top; a flush whose write failed leaves everything as it was. */
  datatype Op = Read(txid: Txid) | ReadBest | Write(txid: Txid, coins: State) | WriteBest(hash: Hash) | Flush(k: nat, ok: bool)

  function FlushedAt(s: Stack, k: nat): Stack {
    if s.Bottom? then s
    else if k == 0 then Flushed(s)
    else Cache(s.coins, s.best, FlushedAt(s.base, k - 1))
  }

  function Step(s: Stack, op: Op): Stack
    requires s.Cache?
  {
    match op
    case Read(txid) => Fetched(s, txid)
    case ReadBest => BestFetched(s)
    case Write(txid, coins) => Cache(s.coins[txid := coins], s.best, s.base)
    case WriteBest(hash) => Cache(s.coins, hash, s.base)
    case Flush(k, ok) => if ok then FlushedAt(s, k) else s
  }

  function Run(s: Stack, ops: seq<Op>): (r: Stack)
    requires s.Cache?
    decreases |ops|
  {
    if ops == [] then s else Run(Step(s, ops[0]), ops[1..])
  }

  /** The same run on a plain table: only writes matter, and the last one counts. */
  function Plain(before: Option<State>, txid: Txid, ops: seq<Op>): Option<State>
    decreases |ops|
  {
    if ops == [] then before
    else Plain(Overwritten(before, txid, ops[0]), txid, ops[1..])
  }

  lemma {:induction false} FlushAtKeepsLive(s: Stack, k: nat, txid: Txid)
    ensures Live(View(FlushedAt(s, k), txid)) == Live(View(s, txid))
    decreases k
  {
    if s.Cache? {
      if k == 0 {
        FlushPushes(s, txid);
      } else {
        FlushAtKeepsLive(s.base, k - 1, txid);
      }
    }
  }

  /** What one operation does to a plain table. */
  function Overwritten(before: Option<State>, txid: Txid, op: Op): Option<State> {
    if op.Write? && op.txid == txid then Some(op.coins) else before
  }

  lemma StepIsPlain(s: Stack, op: Op, txid: Txid)
    requires s.Cache?
    ensures Live(View(Step(s, op), txid)) == Live(Overwritten(View(s, txid), txid, op))
  {
    match op
    case Read(other) => FetchKeepsViews(s, other);
    case ReadBest => BestFetchKeepsViews(s);
    case Write(_, _) =>
    case WriteBest(_) => assert View(Step(s, op), txid) == View(s, txid);
    case Flush(k, ok) => FlushAtKeepsLive(s, k, txid);
  }

  /** A stack of write-back caches of any depth behaves as one table, however reads and flushes are
      interleaved. */
  lemma {:induction false} RunIsPlain(s: Stack, ops: seq<Op>, txid: Txid)
    requires s.Cache?
    ensures Live(View(Run(s, ops), txid)) == Live(Plain(View(s, txid), txid, ops))
    decreases |ops|
  {
    if ops != [] {
      var t := Step(s, ops[0]);
      StepIsPlain(s, ops[0], txid);
      RunIsPlain(t, ops[1..], txid);
      PlainLive(View(t, txid), Overwritten(View(s, txid), txid, ops[0]), txid, ops[1..]);
    }
  }

  lemma {:induction false} PlainLive(a: Option<State>, b: Option<State>, txid: Txid, ops: seq<Op>)
    requires Live(a) == Live(b)
    ensures Live(Plain(a, txid, ops)) == Live(Plain(b, txid, ops))
    decreases |ops|
  {
    if ops != [] {
      PlainLive(Overwritten(a, txid, ops[0]), Overwritten(b, txid, ops[0]), txid, ops[1..]);
    }
  }

  /** Flushing every cache, top first, leaves the whole view in the database. */
  function FlushedAll(s: Stack): Stack
    decreases Depth(s)
  {
    if s.Bottom? then s
    else
      var t := Flushed(s);
      Cache(t.coins, t.best, FlushedAll(t.base))
  }

  function Database(s: Stack): Stack { if s.Bottom? then s else Database(s.base) }

  lemma {:induction false} FlushAllReaches(s: Stack, txid: Txid)
    ensures Live(View(Database(FlushedAll(s)), txid)) == Live(View(s, txid))
    decreases Depth(s)
  {
    if s.Cache? {
      FlushPushes(s, txid);
      FlushAllReaches(Flushed(s).base, txid);
    }
  }

  // --- Inputs ---------------------------------------------------------------------------------

  datatype OutPoint = OutPoint(hash: Txid, n: nat) {
    predicate IsNull() { hash == 0 && n == 0xFFFF_FFFF }
  }

  predicate CoinBase(vin: seq<OutPoint>) { |vin| == 1 && vin[0].IsNull() }

  /** A coinbase has the one input that names no transaction and the last of all outputs. */
  lemma CoinBaseIs(vin: seq<OutPoint>)
    ensures CoinBase(vin) <==> vin == [OutPoint(0, 0x1_0000_0000 - 1)]
  {
  }

  predicate Offers(s: Stack, out: OutPoint) {
    View(s, out.hash).Some? && Avail(View(s, out.hash).value.vout, out.n)
  }

  predicate OffersAll(s: Stack, vin: seq<OutPoint>) { forall i :: 0 <= i < |vin| ==> Offers(s, vin[i]) }

  function OutputOf(s: Stack, out: OutPoint): TxOut
    requires Offers(s, out)
  {
    View(s, out.hash).value.vout[out.n]
  }

  function Value(s: Stack, out: OutPoint): int
    requires Offers(s, out)
  {
    OutputOf(s, out).nValue
  }

  /** What the first `n` inputs bring in. */
  function ValueIn(s: Stack, vin: seq<OutPoint>, n: nat): int
    requires n <= |vin| && OffersAll(s, vin)
  {
    if n == 0 then 0 else ValueIn(s, vin, n - 1) + Value(s, vin[n - 1])
  }

  lemma {:induction false} SameValueIn(s: Stack, t: Stack, vin: seq<OutPoint>, n: nat)
    requires Same(s, t) && n <= |vin| && OffersAll(s, vin)
    ensures OffersAll(t, vin) && ValueIn(s, vin, n) == ValueIn(t, vin, n)
  {
    assert forall txid :: View(s, txid) == View(t, txid);
    if n > 0 { SameValueIn(s, t, vin, n - 1); }
  }

  /** The sum of up to 184,467 amounts of money fits 64 signed bits. */
  lemma {:induction false} ValueFits(s: Stack, vin: seq<OutPoint>, n: nat)
    requires n <= |vin| && OffersAll(s, vin)
    requires forall i :: 0 <= i < |vin| ==> 0 <= Value(s, vin[i]) <= 500000000 * 100000
    ensures 0 <= ValueIn(s, vin, n) <= n * (500000000 * 100000)
  {
    if n > 0 { ValueFits(s, vin, n - 1); }
  }
}
