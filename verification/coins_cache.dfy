/** Coin caches as linked objects over one database (src/coins.cpp:56-180, src/txdb.cpp:29-66). */
module CoinsCache {
  import opened Common
  import opened CoinsFormat
  import opened CoinsView

  class Database {
    var coins: map<Txid, State>
    var best: Hash

    ghost function Abs(): Stack
      reads this
    {
      Bottom(coins, best)
    }

    constructor ()
      ensures Abs() == Bottom(map[], NullHash)
    {
      coins, best := map[], NullHash;
    }

    // src/txdb.cpp:29-31
    method GetCoins(txid: Txid) returns (r: Option<State>)
      ensures r == View(Abs(), txid)
    {
      r := if txid in coins then Some(coins[txid]) else None;
    }

    /** The write takes effect as a whole or not at all, as `takes` says (src/txdb.cpp:56-66). */
    method BatchWrite(batch: map<Txid, State>, hash: Hash, takes: bool) returns (fOk: bool)
      modifies this
      ensures fOk <==> takes
      ensures Abs() == if takes then Written(old(Abs()), batch, hash) else old(Abs())
    {
      hide Part, Stored, Pruned;
      var after, todo := coins, batch.Keys;
      PartEnds(coins, batch);
      while todo != {}
        invariant todo <= batch.Keys
        invariant coins == old(coins) && best == old(best)
        invariant after == Stored(coins, Part(batch, todo))
        decreases |todo|
      {
        var t :| t in todo;
        StoredStep(coins, batch, todo, t);
        todo := todo - {t};
        if Pruned(batch[t].vout) { after := after - {t}; } else { after := after[t := batch[t]]; }
      }
      fOk := takes;
      if takes {
        coins := after;
        if hash != NullHash { best := hash; }
      }
    }
  }

  // src/coins.cpp:125-126
  method CopyAll(coins: map<Txid, State>, batch: map<Txid, State>) returns (after: map<Txid, State>)
    ensures after == coins + batch
  {
    hide Merged;
    var todo := batch.Keys;
    after := coins;
    PartEnds(coins, batch);
    while todo != {}
      invariant todo <= batch.Keys && after == Merged(coins, batch, todo)
      decreases |todo|
    {
      var t :| t in todo;
      PartStep(coins, batch, todo, t);
      todo := todo - {t};
      after := after[t := batch[t]];
    }
  }

  class CacheView {
    var cacheCoins: map<Txid, State>
    var hashBlock: Hash
    const base: CacheView?
    const db: Database
    ghost const Repr: set<object>

    ghost predicate Valid()
      reads this, Repr
      decreases Repr
    {
      && this in Repr && db in Repr
      && (base == null ==> Repr == {this, db})
      && (base != null ==>
            && base in Repr && base.Repr < Repr && Repr == base.Repr + {this} && this !in base.Repr
            && base.db == db && base.Valid())
    }

    ghost function Abs(): Stack
      requires Valid()
      reads this, Repr
      decreases Repr
    {
      Cache(cacheCoins, hashBlock, if base == null then db.Abs() else base.Abs())
    }

    constructor OverDatabase(store: Database)
      ensures Valid() && fresh(Repr - {store}) && Abs() == Cache(map[], NullHash, store.Abs())
    {
      cacheCoins, hashBlock, base, db, Repr := map[], NullHash, null, store, {this, store};
    }

    // src/coins.cpp:72
    constructor OverCache(view: CacheView)
      requires view.Valid()
      ensures Valid() && base == view && Repr == {this} + view.Repr && Abs() == Cache(map[], NullHash, view.Abs())
    {
      cacheCoins, hashBlock, base, db, Repr := map[], NullHash, view, view.db, {this} + view.Repr;
    }

    // src/coins.cpp:74-84
    method GetCoins(txid: Txid) returns (r: Option<State>)
      requires Valid()
      modifies Repr
      decreases Repr
      ensures Valid() && Abs() == Fetched(old(Abs()), txid) && r == View(old(Abs()), txid)
      ensures r.Some? ==> txid in cacheCoins
    {
      if txid in cacheCoins { return Some(cacheCoins[txid]); }
      if base == null { r := db.GetCoins(txid); } else { r := base.GetCoins(txid); }
      if r.Some? { cacheCoins := cacheCoins[txid := r.value]; }
    }

    // src/coins.cpp:86-96, 109-111
    method HaveCoins(txid: Txid) returns (have: bool)
      requires Valid()
      modifies Repr
      ensures Valid() && Abs() == Fetched(old(Abs()), txid) && have == View(old(Abs()), txid).Some?
    {
      var r := GetCoins(txid);
      have := r.Some?;
    }

    // src/coins.cpp:104-107
    method SetCoins(txid: Txid, coins: State)
      requires Valid()
      modifies this
      ensures Valid() && Abs() == Step(old(Abs()), Write(txid, coins))
    {
      cacheCoins := cacheCoins[txid := coins];
    }

    // src/coins.cpp:113-117
    method GetBestBlock() returns (r: Hash)
      requires Valid()
      modifies Repr
      decreases Repr
      ensures Valid() && Abs() == BestFetched(old(Abs())) && r == Best(old(Abs()))
    {
      if hashBlock == NullHash {
        var h: Hash;
        if base == null { h := db.best; } else { h := base.GetBestBlock(); }
        hashBlock := h;
      }
      r := hashBlock;
    }

    // src/coins.cpp:119-122
    method SetBestBlock(hash: Hash)
      requires Valid()
      modifies this
      ensures Valid() && Abs() == Step(old(Abs()), WriteBest(hash))
    {
      hashBlock := hash;
    }

    // src/coins.cpp:124-129
    method BatchWrite(batch: map<Txid, State>, hash: Hash)
      requires Valid()
      modifies this
      ensures Valid() && Abs() == Written(old(Abs()), batch, hash)
    {
      cacheCoins := CopyAll(cacheCoins, batch);
      hashBlock := hash;
    }

    /** Over the database it succeeds when that takes the write, over a cache always
        (src/coins.cpp:131-136). */
    method Flush(takes: bool) returns (fOk: bool)
      requires Valid()
      modifies Repr
      ensures Valid() && Abs() == (if fOk then Flushed(old(Abs())) else old(Abs()))
      ensures fOk <==> base != null || takes
    {
      if base == null {
        fOk := db.BatchWrite(cacheCoins, hashBlock, takes);
      } else {
        base.BatchWrite(cacheCoins, hashBlock);
        fOk := true;
      }
      if fOk { cacheCoins := map[]; }
    }

    // src/coins.cpp:98-102, 142-147; both assertions hold when the output is on offer
    method GetOutputFor(input: OutPoint) returns (out: TxOut)
      requires Valid() && Offers(Abs(), input)
      modifies Repr
      ensures Valid() && Same(old(Abs()), Abs()) && out == OutputOf(old(Abs()), input)
    {
      FetchKeepsViews(Abs(), input.hash);
      var r := GetCoins(input.hash);
      assert r.Some?;
      var coins := r.value;
      assert Avail(coins.vout, input.n);
      out := coins.vout[input.n];
    }

    // src/coins.cpp:149-159
    method GetValueIn(vin: seq<OutPoint>) returns (nResult: int)
      requires Valid() && (CoinBase(vin) || OffersAll(Abs(), vin))
      modifies Repr
      ensures Valid() && Same(old(Abs()), Abs())
      ensures CoinBase(vin) ==> nResult == 0
      ensures !CoinBase(vin) ==> nResult == ValueIn(old(Abs()), vin, |vin|)
    {
      ghost var s := Abs();
      SameRefl(s);
      if CoinBase(vin) { return 0; }
      nResult := 0;
      var i := 0;
      while i < |vin|
        invariant i <= |vin| && Valid() && Same(s, Abs()) && nResult == ValueIn(s, vin, i)
      {
        ghost var t := Abs();
        SameValueIn(s, t, vin, |vin|);
        var out := GetOutputFor(vin[i]);
        SameTrans(s, t, Abs());
        nResult := nResult + out.nValue;
        i := i + 1;
      }
    }

    // src/coins.cpp:161-180
    method HaveInputs(vin: seq<OutPoint>) returns (have: bool)
      requires Valid()
      modifies Repr
      ensures Valid() && Same(old(Abs()), Abs())
      ensures have <==> CoinBase(vin) || OffersAll(Abs(), vin)
    {
      ghost var s := Abs();
      SameRefl(s);
      if CoinBase(vin) { return true; }
      var i := 0;
      while i < |vin|
        invariant i <= |vin| && Valid() && Same(s, Abs())
        invariant forall k :: 0 <= k < i ==> View(s, vin[k].hash).Some?
      {
        ghost var t := Abs();
        FetchKeepsViews(t, vin[i].hash);
        var found := HaveCoins(vin[i].hash);
        SameTrans(s, t, Abs());
        if !found { return false; }
        i := i + 1;
      }
      i := 0;
      while i < |vin|
        invariant i <= |vin| && Valid() && Same(s, Abs())
        invariant forall k :: 0 <= k < i ==> Offers(s, vin[k])
      {
        ghost var t := Abs();
        FetchKeepsViews(t, vin[i].hash);
        var coins := GetCoins(vin[i].hash);
        SameTrans(s, t, Abs());
        assert coins.Some?;
        if !Avail(coins.value.vout, vin[i].n) { return false; }
        i := i + 1;
      }
      have := true;
    }
  }
}
