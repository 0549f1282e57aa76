/** Choosing the transactions of a new block (src/miner.cpp:115-372). */
module Miner {
  import opened Common
  import opened FiniteSets
  import opened CoinsFormat
  import opened CoinsView
  import opened CoinsCache
  import opened Ledger
  import opened MinerSpec
  import opened MinerTurns

  /** What the cache shows, as a table. */
  ghost function Shown(view: CacheView): Utxo
    requires view.Valid()
    reads view, view.Repr
  {
    Table(view.Abs())
  }

  /** What the layer under the cache shows. */
  ghost function Under(view: CacheView): Utxo
    requires view.Valid()
    reads view, view.Repr
  {
    Table(view.Abs().base)
  }

  lemma LookupShown(s: Stack, txid: Txid)
    ensures View(s, txid) == if txid in Table(s) then Some(Table(s)[txid]) else None
    ensures Table(Fetched(s, txid)) == Table(s)
    ensures s.Cache? ==> Table(Fetched(s, txid).base) == Table(s.base)
  {
    TableShows(s, txid);
    FetchKeepsViews(s, txid);
    SameTable(s, Fetched(s, txid));
    if s.Cache? { SameTable(s.base, Fetched(s, txid).base); }
  }

  /** A lookup finds what is shown and changes nothing that is shown. */
  method Lookup(view: CacheView, txid: Txid) returns (r: Option<State>)
    requires view.Valid()
    modifies view.Repr
    ensures view.Valid() && Shown(view) == old(Shown(view)) && Under(view) == old(Under(view))
    ensures r == if txid in Shown(view) then Some(Shown(view)[txid]) else None
  {
    LookupShown(view.Abs(), txid);
    r := view.GetCoins(txid);
  }

  lemma WriteShown(s: Stack, txid: Txid, coins: State)
    requires s.Cache?
    ensures Table(Step(s, Write(txid, coins))) == Table(s)[txid := coins]
  {
  }

  /** No Spend fails (src/main.cpp:1934-1951). */
  method UpdateCoins(view: CacheView, tx: Tx, nHeight: int) returns (vprevout: seq<Undo>)
    requires view.Valid() && !CoinBase(tx.vin) && Accepts(Shown(view), tx)
    modifies view.Repr
    ensures view.Valid() && Shown(view) == Applied(old(Shown(view)), tx, nHeight) && Under(view) == old(Under(view))
    ensures |vprevout| == |tx.vin| && Undoes(old(Shown(view)), tx.vin, vprevout)
  {
    hide Spent, Distinct, Created, SpendOne, Undoes;
    ghost var m := Shown(view);
    vprevout := [];
    NoUndo(m, tx.vin);
    var i := 0;
    while i < |tx.vin|
      invariant i <= |tx.vin| && view.Valid() && Shown(view) == SpendAll(m, tx.vin, i) && Under(view) == old(Under(view))
      invariant |vprevout| == i && Undoes(m, tx.vin, vprevout)
    {
      var o := tx.vin[i];
      StillUnspent(m, tx, i);
      var coins := Lookup(view, o.hash);
      assert coins.Some? && Avail(coins.value.vout, o.n);
      var vout := Spent(coins.value.vout, o.n);
      var undo := Undo(coins.value.vout[o.n], false, 0, 0);
      if vout == [] { undo := Undo(coins.value.vout[o.n], coins.value.fCoinBase, coins.value.nHeight, coins.value.nVersion); }
      MoreUndo(m, tx.vin, vprevout, undo);
      vprevout := vprevout + [undo];
      WriteShown(view.Abs(), o.hash, coins.value.(vout := vout));
      OneSpent(SpendAll(m, tx.vin, i), o);
      view.SetCoins(o.hash, coins.value.(vout := vout));
      i := i + 1;
    }
    WriteShown(view.Abs(), tx.id, Created(tx, nHeight));
    view.SetCoins(tx.id, Created(tx, nHeight));
  }

  lemma NoUndo(m: Utxo, vin: seq<OutPoint>)
    ensures Undoes(m, vin, [])
  {
  }

  lemma MoreUndo(m: Utxo, vin: seq<OutPoint>, undos: seq<Undo>, undo: Undo)
    requires Undoes(m, vin, undos) && |undos| < |vin|
    requires var n := |undos|; Unspent(SpendAll(m, vin, n), vin[n]) && undo == UndoOf(SpendAll(m, vin, n), vin[n])
    ensures Undoes(m, vin, undos + [undo])
  {
    hide SpendAll, Unspent, UndoOf;
  }

  lemma StillUnspent(m: Utxo, tx: Tx, i: nat)
    requires Accepts(m, tx) && i < |tx.vin|
    ensures Unspent(SpendAll(m, tx.vin, i), tx.vin[i])
  {
    SpendAllUnspent(m, tx.vin, i, tx.vin[i]);
  }

  lemma OneSpent(m: Utxo, o: OutPoint)
    requires Unspent(m, o)
    ensures SpendOne(m, o) == m[o.hash := m[o.hash].(vout := Spent(m[o.hash].vout, o.n))]
  {
  }

  /** HaveInputs, in terms of the table. */
  method InputsAvailable(view: CacheView, tx: Tx) returns (have: bool)
    requires view.Valid() && !CoinBase(tx.vin)
    modifies view.Repr
    ensures view.Valid() && Shown(view) == old(Shown(view)) && Under(view) == old(Under(view))
    ensures have <==> forall i :: 0 <= i < |tx.vin| ==> Unspent(Shown(view), tx.vin[i])
  {
    have := view.HaveInputs(tx.vin);
    SameTable(old(view.Abs()), view.Abs());
    SameTable(old(view.Abs()).base, view.Abs().base);
    OffersShown(view.Abs(), tx.vin);
  }

  lemma OffersShown(s: Stack, vin: seq<OutPoint>)
    ensures OffersAll(s, vin) <==> forall i :: 0 <= i < |vin| ==> Unspent(Table(s), vin[i])
  {
    forall i | 0 <= i < |vin|
      ensures Offers(s, vin[i]) <==> Unspent(Table(s), vin[i])
    {
      TableShows(s, vin[i].hash);
    }
  }

  // src/miner.cpp:297 with src/coins.cpp:149-159
  method FeeOf(view: CacheView, tx: Tx) returns (fee: int)
    requires view.Valid() && !CoinBase(tx.vin) && Accepts(Shown(view), tx)
    modifies view.Repr
    ensures view.Valid() && Shown(view) == old(Shown(view)) && Under(view) == old(Under(view))
    ensures fee == Fee(Shown(view), tx)
  {
    ghost var s := view.Abs();
    OffersShown(s, tx.vin);
    ValueInShown(s, tx, |tx.vin|);
    var nValueIn := view.GetValueIn(tx.vin);
    SameTable(s, view.Abs());
    SameTable(s.base, view.Abs().base);
    fee := nValueIn - SumOut(tx.vout);
  }

  lemma {:induction false} ValueInShown(s: Stack, tx: Tx, n: nat)
    requires n <= |tx.vin| && OffersAll(s, tx.vin) && Accepts(Table(s), tx)
    ensures ValueIn(s, tx.vin, n) == SumIn(Table(s), tx.vin, n)
    decreases n
  {
    if n > 0 {
      ValueInShown(s, tx, n - 1);
      TableShows(s, tx.vin[n - 1].hash);
    }
  }

  // src/main.cpp:708-722
  method P2SHSigOps(view: CacheView, rules: Rules, tx: Tx) returns (nSigOps: nat)
    requires view.Valid() && !CoinBase(tx.vin) && Accepts(Shown(view), tx)
    modifies view.Repr
    ensures view.Valid() && Shown(view) == old(Shown(view)) && Under(view) == old(Under(view))
    ensures nSigOps == ScriptOps(Shown(view), rules, tx, |tx.vin|)
  {
    ghost var m := Shown(view);
    nSigOps := 0;
    var i := 0;
    while i < |tx.vin|
      invariant i <= |tx.vin| && view.Valid() && Shown(view) == m && Under(view) == old(Under(view))
      invariant nSigOps == ScriptOps(m, rules, tx, i)
    {
      var coins := Lookup(view, tx.vin[i].hash);
      assert Unspent(m, tx.vin[i]);
      nSigOps := nSigOps + rules.scriptOps(tx, i, coins.value.vout[tx.vin[i].n]);
      i := i + 1;
    }
  }

  // --- Collecting -----------------------------------------------------------------------------

  /** The state of one candidate while its inputs are gone through; `n` is the number its orphan
      record will have. */
  ghost predicate Linked(m: Utxo, tx: Tx, i: nat, before: map<Txid, seq<nat>>, dependers: map<Txid, seq<nat>>, n: nat)
    requires i <= |tx.vin|
  {
    && (forall h, j :: Lists(before, h, j) ==> Lists(dependers, h, j))
    && (forall h :: h in MissingTo(m, tx.vin, i) ==> Lists(dependers, h, n))
    && (forall h, k :: h in dependers && 0 <= k < |dependers[h]| ==>
          (dependers[h][k] == n && h in MissingTo(m, tx.vin, i)) || Lists(before, h, dependers[h][k]))
  }

  // src/miner.cpp:172-224; records which parents the transaction waits for
  method Inputs(view: CacheView, pool: Mempool, tx: Tx, tip: int, dependers: map<Txid, seq<nat>>, n: nat)
    returns (mapDependers: map<Txid, seq<nat>>, dependsOn: set<Txid>, nTotalIn: int, dPriority: real)
    requires view.Valid() && SoundTx(Shown(view), pool, tx)
    modifies view.Repr
    ensures view.Valid() && Shown(view) == old(Shown(view)) && Under(view) == old(Under(view))
    ensures Linked(Shown(view), tx, |tx.vin|, dependers, mapDependers, n)
    ensures dependsOn == Missing(Shown(view), tx)
    ensures nTotalIn == TotalIn(Shown(view), pool, tx, |tx.vin|)
    ensures dPriority == AgeSum(Shown(view), pool, tx, |tx.vin|, tip)
  {
    hide SoundTx, Distinct;
    ghost var m := Shown(view);
    mapDependers, dependsOn, nTotalIn, dPriority := dependers, {}, 0, 0.0;
    var i := 0;
    while i < |tx.vin|
      invariant i <= |tx.vin| && view.Valid() && Shown(view) == m && Under(view) == old(Under(view))
      invariant Linked(m, tx, i, dependers, mapDependers, n) && dependsOn == MissingTo(m, tx.vin, i)
      invariant nTotalIn == TotalIn(m, pool, tx, i) && dPriority == AgeSum(m, pool, tx, i, tip)
    {
      var prevout := tx.vin[i];
      InputHasOutput(m, pool, tx, i);
      var coins := Lookup(view, prevout.hash);
      LinkOne(m, tx, i, dependers, mapDependers, n);
      if coins == None {
        var list := if prevout.hash in mapDependers then mapDependers[prevout.hash] else [];
        mapDependers := mapDependers[prevout.hash := list + [n]];
        dependsOn := dependsOn + {prevout.hash};
        nTotalIn := nTotalIn + pool[prevout.hash].vout[prevout.n].nValue;
      } else {
        var nValueIn := coins.value.vout[prevout.n].nValue;
        nTotalIn := nTotalIn + nValueIn;
        var nConf := tip - coins.value.nHeight + 1;
        dPriority := dPriority + nValueIn as real * nConf as real;
      }
      i := i + 1;
    }
  }

  lemma InputHasOutput(m: Utxo, pool: Mempool, tx: Tx, i: nat)
    requires SoundTx(m, pool, tx) && i < |tx.vin|
    ensures HasOutput(m, pool, tx.vin[i])
  {
  }

  lemma LinkOne(m: Utxo, tx: Tx, i: nat, before: map<Txid, seq<nat>>, dependers: map<Txid, seq<nat>>, n: nat)
    requires i < |tx.vin| && Linked(m, tx, i, before, dependers, n)
    ensures var h := tx.vin[i].hash;
            if h in m then
              MissingTo(m, tx.vin, i + 1) == MissingTo(m, tx.vin, i) && Linked(m, tx, i + 1, before, dependers, n)
            else
              && MissingTo(m, tx.vin, i + 1) == MissingTo(m, tx.vin, i) + {h}
              && Linked(m, tx, i + 1, before, dependers[h := (if h in dependers then dependers[h] else []) + [n]], n)
  {
    var h := tx.vin[i].hash;
    if h in m {
      assert MissingTo(m, tx.vin, i + 1) == MissingTo(m, tx.vin, i);
    } else {
      assert MissingTo(m, tx.vin, i + 1) == MissingTo(m, tx.vin, i) + {h};
      var list := if h in dependers then dependers[h] else [];
      var after := dependers[h := list + [n]];
      forall g, j | Lists(before, g, j) || (g in MissingTo(m, tx.vin, i) && j == n)
        ensures Lists(after, g, j)
      {
        assert Lists(dependers, g, j);
      }
      assert Lists(after, h, n) by { assert (list + [n])[|list|] == n; }
      forall g, k | g in after && 0 <= k < |after[g]|
        ensures (after[g][k] == n && g in MissingTo(m, tx.vin, i + 1)) || Lists(before, g, after[g][k])
      {
        if g == h && k == |list| {
        } else {
          assert after[g][k] == dependers[g][k];
        }
      }
    }
  }

  lemma LinkNone(m: Utxo, tx: Tx, before: map<Txid, seq<nat>>, after: map<Txid, seq<nat>>, os: seq<Orphan>)
    requires Indexed(before, os) && Linked(m, tx, |tx.vin|, before, after, |os|) && Missing(m, tx) == {}
    ensures Indexed(after, os)
  {
    forall h, k | h in after && 0 <= k < |after[h]|
      ensures after[h][k] < |os| && h in os[after[h][k]].dependsOn
    {
      assert Lists(before, h, after[h][k]);
    }
  }

  lemma LinkOrphan(m: Utxo, tx: Tx, before: map<Txid, seq<nat>>, after: map<Txid, seq<nat>>, os: seq<Orphan>, o: Orphan)
    requires Indexed(before, os) && Linked(m, tx, |tx.vin|, before, after, |os|) && o.dependsOn == Missing(m, tx)
    ensures Indexed(after, os + [o])
  {
    var more := os + [o];
    forall h, k | h in after && 0 <= k < |after[h]|
      ensures after[h][k] < |more| && h in more[after[h][k]].dependsOn
    {
      assert (after[h][k] == |os| && h in MissingTo(m, tx.vin, |tx.vin|)) || Lists(before, h, after[h][k]);
    }
    forall i, h | 0 <= i < |more| && h in more[i].dependsOn
      ensures Lists(after, h, i)
    {
      if i < |os| { assert Lists(before, h, i); }
    }
  }

  // src/miner.cpp:165-233
  method Collect(view: CacheView, pool: Mempool, rules: Rules, tip: int)
    returns (vecPriority: seq<Entry>, vOrphan: seq<Orphan>, mapDependers: map<Txid, seq<nat>>)
    requires view.Valid() && Sound(Shown(view), pool)
    modifies view.Repr
    ensures view.Valid() && Shown(view) == old(Shown(view)) && Under(view) == old(Under(view))
    ensures Collected(Shown(view), pool, rules, tip, pool.Keys, vecPriority, vOrphan) && Indexed(mapDependers, vOrphan)
  {
    hide Collected, Indexed, Linked, Missing, SoundTx, Candidate;
    ghost var m := Shown(view);
    vecPriority, vOrphan, mapDependers := [], [], map[];
    NothingCollected(m, pool, rules, tip);
    var todo := pool.Keys;
    while todo != {}
      invariant todo <= pool.Keys && view.Valid() && Shown(view) == m && Under(view) == old(Under(view))
      invariant Collected(m, pool, rules, tip, pool.Keys - todo, vecPriority, vOrphan) && Indexed(mapDependers, vOrphan)
      decreases |todo|
    {
      var id :| id in todo;
      ghost var seen := pool.Keys - todo;
      todo := todo - {id};
      assert pool.Keys - todo == seen + {id};
      var tx := pool[id];
      if CoinBase(tx.vin) || !rules.isFinal(tx) {
        NoCandidate(rules, tx);
        CollectSkip(m, pool, rules, tip, seen, vecPriority, vOrphan, id);
        continue;
      }
      IsCandidate(rules, tx);
      ghost var before := mapDependers;
      var dependsOn, nTotalIn, dSum;
      mapDependers, dependsOn, nTotalIn, dSum := Inputs(view, pool, tx, tip, mapDependers, |vOrphan|);
      PositiveSize(m, pool, tx);
      var e := Entry(rules.priority(tx, dSum), (nTotalIn - SumOut(tx.vout)) as real / (tx.size as real / 1000.0), tx);
      if dependsOn != {} {
        CollectOrphan(m, pool, rules, tip, seen, vecPriority, vOrphan, id);
        LinkOrphan(m, tx, before, mapDependers, vOrphan, Orphan(e, dependsOn));
        vOrphan := vOrphan + [Orphan(e, dependsOn)];
      } else {
        CollectReady(m, pool, rules, tip, seen, vecPriority, vOrphan, id);
        LinkNone(m, tx, before, mapDependers, vOrphan);
        vecPriority := vecPriority + [e];
      }
    }
    assert pool.Keys - todo == pool.Keys;
  }

  lemma NothingCollected(m: Utxo, pool: Mempool, rules: Rules, tip: int)
    requires Sound(m, pool)
    ensures Collected(m, pool, rules, tip, pool.Keys - pool.Keys, [], []) && Indexed(map[], [])
  {
  }

  lemma NoCandidate(rules: Rules, tx: Tx)
    requires CoinBase(tx.vin) || !rules.isFinal(tx)
    ensures !Candidate(rules, tx)
  {
  }

  lemma IsCandidate(rules: Rules, tx: Tx)
    requires !CoinBase(tx.vin) && rules.isFinal(tx)
    ensures Candidate(rules, tx)
  {
  }

  lemma PositiveSize(m: Utxo, pool: Mempool, tx: Tx)
    requires SoundTx(m, pool, tx)
    ensures tx.size > 0
  {
  }

  // --- Selecting ------------------------------------------------------------------------------

  predicate Foremost(byFee: bool, queue: seq<Entry>, k: nat) {
    k < |queue| && forall j :: 0 <= j < |queue| ==> !Less(byFee, queue[k], queue[j])
  }

  lemma {:induction false} SomeForemost(byFee: bool, queue: seq<Entry>)
    requires queue != []
    ensures exists k: nat :: Foremost(byFee, queue, k)
    decreases |queue|
  {
    var n := |queue| - 1;
    if n == 0 {
      assert Foremost(byFee, queue, 0);
    } else {
      SomeForemost(byFee, queue[..n]);
      var k: nat :| Foremost(byFee, queue[..n], k);
      var best := if Less(byFee, queue[k], queue[n]) then n else k;
      forall j | 0 <= j < |queue|
        ensures !Less(byFee, queue[best], queue[j])
      {
        if j < n { assert !Less(byFee, queue[..n][k], queue[..n][j]); }
      }
      assert Foremost(byFee, queue, best);
    }
  }

  // src/miner.cpp:263-268; the heap gives up some entry that no other precedes
  method PopHeap(queue: seq<Entry>, byFee: bool) returns (k: nat, rest: seq<Entry>)
    requires queue != []
    ensures Foremost(byFee, queue, k) && rest == Without(queue, k)
  {
    SomeForemost(byFee, queue);
    k :| Foremost(byFee, queue, k);
    rest := Without(queue, k);
  }

  /** How far the dependers of `hash` have been gone through. */
  ghost predicate Releasing(start: seq<Orphan>, os: seq<Orphan>, done: set<Txid>, hash: Txid, seen: seq<nat>, r: seq<nat>) {
    && |os| == |start|
    && Distinct(r) && (forall j :: 0 <= j < |r| ==> r[j] < |start|)
    && (forall i: nat :: i < |start| ==>
          os[i] == start[i].(dependsOn := if i in seen then start[i].dependsOn - (done + {hash}) else start[i].dependsOn - done))
    && (forall i: nat :: i < |start| ==> (i in r <==> i in seen && start[i].dependsOn <= done + {hash}))
  }

  lemma ReleaseStep(start: seq<Orphan>, os: seq<Orphan>, done: set<Txid>, hash: Txid, seen: seq<nat>, r: seq<nat>, i: nat)
    requires Releasing(start, os, done, hash, seen, r) && i < |start| && hash in start[i].dependsOn && hash !in done
    ensures var left := os[i].dependsOn - {hash};
            if os[i].dependsOn == {} then Releasing(start, os, done, hash, seen + [i], r)
            else Releasing(start, os[i := os[i].(dependsOn := left)], done, hash, seen + [i], if left == {} then r + [i] else r)
  {
    assert start[i].dependsOn - (done + {hash}) == (start[i].dependsOn - done) - {hash};
    assert start[i].dependsOn <= done + {hash} <==> start[i].dependsOn - (done + {hash}) == {};
    assert forall x: nat :: x in seen + [i] <==> x in seen || x == i;
    if os[i].dependsOn != {} && i in seen {
      assert os[i].dependsOn - {hash} == os[i].dependsOn;
    }
  }

  lemma ReleaseDone(start: seq<Orphan>, os: seq<Orphan>, done: set<Txid>, hash: Txid, seen: seq<nat>, r: seq<nat>)
    requires Releasing(start, os, done, hash, seen, r) && hash !in done
    requires forall i: nat :: i < |start| ==> (i in seen <==> hash in start[i].dependsOn)
    ensures StillWaiting(start, os, done + {hash}) && Freed(start, done, hash, r)
  {
    forall i: nat | i < |start| && i !in seen
      ensures start[i].dependsOn - done == start[i].dependsOn - (done + {hash})
      ensures start[i].dependsOn <= done + {hash} <==> start[i].dependsOn <= done
    {
    }
  }

  lemma ReleaseStart(start: seq<Orphan>, os: seq<Orphan>, done: set<Txid>, hash: Txid)
    requires StillWaiting(start, os, done)
    ensures Releasing(start, os, done, hash, [], [])
  {
  }

  // src/miner.cpp:326-341
  method Release(os: seq<Orphan>, mapDependers: map<Txid, seq<nat>>, hash: Txid, queue: seq<Entry>, ghost start: seq<Orphan>, ghost done: set<Txid>)
    returns (vOrphan: seq<Orphan>, vecPriority: seq<Entry>, ghost r: seq<nat>)
    requires StillWaiting(start, os, done) && hash !in done && Indexed(mapDependers, start)
    ensures StillWaiting(start, vOrphan, done + {hash}) && Freed(start, done, hash, r)
    ensures vecPriority == queue + Entries(start, r)
  {
    hide Releasing, StillWaiting, Freed, Entries, Indexed;
    vOrphan, vecPriority, r := os, queue, [];
    NoEntries(start);
    ReleaseStart(start, os, done, hash);
    if hash in mapDependers {
      var list := mapDependers[hash];
      var k := 0;
      while k < |list|
        invariant k <= |list| && Releasing(start, vOrphan, done, hash, list[..k], r)
        invariant forall j :: 0 <= j < |r| ==> r[j] < |start|
        invariant vecPriority == queue + Entries(start, r)
      {
        var i := list[k];
        ListedIndex(start, mapDependers, hash, k);
        assert list[..k + 1] == list[..k] + [i];
        ReleaseStep(start, vOrphan, done, hash, list[..k], r, i);
        SameEntry(start, vOrphan, done, hash, list[..k], r, i);
        if vOrphan[i].dependsOn != {} {
          vOrphan := vOrphan[i := vOrphan[i].(dependsOn := vOrphan[i].dependsOn - {hash})];
          if vOrphan[i].dependsOn == {} {
            EntriesSnoc(start, r, i);
            vecPriority := vecPriority + [vOrphan[i].entry];
            r := r + [i];
          }
        }
        k := k + 1;
      }
      assert list[..k] == list;
      ListedExactly(start, mapDependers, hash);
      ReleaseDone(start, vOrphan, done, hash, list, r);
    } else {
      ListedExactly(start, mapDependers, hash);
      ReleaseDone(start, vOrphan, done, hash, [], r);
    }
  }

  lemma NoEntries(start: seq<Orphan>)
    ensures Entries(start, []) == []
  {
  }

  lemma EntriesSnoc(start: seq<Orphan>, r: seq<nat>, i: nat)
    requires i < |start| && forall j :: 0 <= j < |r| ==> r[j] < |start|
    ensures Entries(start, r + [i]) == Entries(start, r) + [start[i].entry]
  {
  }

  lemma ListedIndex(start: seq<Orphan>, dependers: map<Txid, seq<nat>>, hash: Txid, k: nat)
    requires Indexed(dependers, start) && hash in dependers && k < |dependers[hash]|
    ensures dependers[hash][k] < |start| && hash in start[dependers[hash][k]].dependsOn
  {
  }

  lemma SameEntry(start: seq<Orphan>, os: seq<Orphan>, done: set<Txid>, hash: Txid, seen: seq<nat>, r: seq<nat>, i: nat)
    requires Releasing(start, os, done, hash, seen, r) && i < |start|
    ensures |os| == |start| && os[i].entry == start[i].entry
  {
  }

  lemma ListedExactly(start: seq<Orphan>, dependers: map<Txid, seq<nat>>, hash: Txid)
    requires Indexed(dependers, start)
    ensures forall i: nat :: i < |start| ==> (Lists(dependers, hash, i) <==> hash in start[i].dependsOn)
  {
  }

  /** CheckInputs, whose verdict depends on the transaction and the records it spends from
      (src/main.cpp:1989-2100). */
  method CheckInputs(view: CacheView, rules: Rules, tx: Tx) returns (passed: bool)
    requires view.Valid() && !CoinBase(tx.vin) && Accepts(Shown(view), tx)
    modifies view.Repr
    ensures view.Valid() && Shown(view) == old(Shown(view)) && Under(view) == old(Under(view))
    ensures passed == rules.verdict(tx, Spends(Shown(view), tx))
  {
    ghost var m := Shown(view);
    var spends: seq<State> := [];
    var i := 0;
    while i < |tx.vin|
      invariant i <= |tx.vin| && view.Valid() && Shown(view) == m && Under(view) == old(Under(view))
      invariant |spends| == i && forall j | 0 <= j < i :: spends[j] == Spends(m, tx)[j]
    {
      assert Unspent(m, tx.vin[i]);
      var coins := Lookup(view, tx.vin[i].hash);
      spends := spends + [coins.value];
      i := i + 1;
    }
    assert spends == Spends(m, tx);
    passed := rules.verdict(tx, spends);
  }

  /** Added exactly if the inputs are available, the operations fit and the inputs pass
      (src/miner.cpp:294-309). */
  method TryAdd(view: CacheView, rules: Rules, tx: Tx, nHeight: int, nBlockSigOps: nat) returns (added: bool, nTxFees: int, nTxSigOps: nat)
    requires view.Valid() && !CoinBase(tx.vin) && Distinct(tx.vin)
    modifies view.Repr
    ensures view.Valid() && Under(view) == old(Under(view))
    ensures var m := old(Shown(view));
            added <==> Accepts(m, tx) && nBlockSigOps + tx.sigOps + ScriptOps(m, rules, tx, |tx.vin|) < MAX_BLOCK_SIGOPS
                       && rules.verdict(tx, Spends(m, tx))
    ensures !added ==> Shown(view) == old(Shown(view))
    ensures added ==> PricedAt(old(Shown(view)), rules, tx, nTxFees, nTxSigOps)
    ensures added ==> Shown(view) == Applied(old(Shown(view)), tx, nHeight)
    ensures added ==> nBlockSigOps + nTxSigOps < MAX_BLOCK_SIGOPS
  {
    hide Applied, Fee, ScriptOps, Distinct, Unspent, Spends;
    added, nTxFees, nTxSigOps := false, 0, tx.sigOps;
    var have := InputsAvailable(view, tx);
    if !have { return; }
    nTxFees := FeeOf(view, tx);
    var more := P2SHSigOps(view, rules, tx);
    nTxSigOps := nTxSigOps + more;
    if nBlockSigOps + nTxSigOps >= MAX_BLOCK_SIGOPS { return; }
    var passed := CheckInputs(view, rules, tx);
    if !passed { return; }
    var _ := UpdateCoins(view, tx, nHeight);
    added := true;
  }

  /** All that holds of the transactions chosen so far. */
  ghost predicate Chosen(m: Utxo, pool: Mempool, rules: Rules, nHeight: int, nBlockMaxSize: nat,
                         txs: seq<Tx>, fees: seq<int>, ops: seq<nat>, nBlockSize: nat, nBlockSigOps: nat, nFees: int) {
    && ValidRun(m, txs, nHeight) && Priced(m, rules, txs, fees, ops, nHeight)
    && DifferentIds(txs) && (forall k :: 0 <= k < |txs| ==> FromPool(pool, rules, txs[k]))
    && nBlockSize == 1000 + Sizes(txs) && nBlockSigOps == 100 + Total(ops) && nFees == Sum(fees)
    && (txs != [] ==> nBlockSize < nBlockMaxSize) && nBlockSigOps < MAX_BLOCK_SIGOPS
  }

  lemma ChosenNone(m: Utxo, pool: Mempool, rules: Rules, nHeight: int, nBlockMaxSize: nat)
    ensures Chosen(m, pool, rules, nHeight, nBlockMaxSize, [], [], [], 1000, 100, 0)
    ensures BlockIds([]) == {} && After(m, [], nHeight) == m
  {
  }

  lemma ChosenSnoc(m: Utxo, pool: Mempool, rules: Rules, nHeight: int, nBlockMaxSize: nat,
                   txs: seq<Tx>, fees: seq<int>, ops: seq<nat>, nBlockSize: nat, nBlockSigOps: nat, nFees: int,
                   tx: Tx, fee: int, op: nat)
    requires Chosen(m, pool, rules, nHeight, nBlockMaxSize, txs, fees, ops, nBlockSize, nBlockSigOps, nFees)
    requires PricedAt(After(m, txs, nHeight), rules, tx, fee, op) && FromPool(pool, rules, tx) && tx.id !in BlockIds(txs)
    requires nBlockSize + tx.size < nBlockMaxSize && nBlockSigOps + op < MAX_BLOCK_SIGOPS
    ensures Chosen(m, pool, rules, nHeight, nBlockMaxSize, txs + [tx], fees + [fee], ops + [op],
                   nBlockSize + tx.size, nBlockSigOps + op, nFees + fee)
    ensures BlockIds(txs + [tx]) == BlockIds(txs) + {tx.id}
    ensures After(m, txs + [tx], nHeight) == Applied(After(m, txs, nHeight), tx, nHeight)
  {
    hide ValidRun, Priced, PricedAt, After, Applied, FromPool, DifferentIds;
    PricedSnoc(m, rules, txs, fees, ops, nHeight, tx, fee, op);
    AfterSnoc(m, txs, tx, nHeight);
    AddedId(txs, tx);
    TotalsSnoc(txs, tx, ops, op);
    SumSnoc(fees, fee);
  }

  // src/miner.cpp:235-342
  method Select(view: CacheView, pool: Mempool, rules: Rules, tip: int, limits: Limits,
                ready: seq<Entry>, start: seq<Orphan>, mapDependers: map<Txid, seq<nat>>)
    returns (vtx: seq<Tx>, vTxFees: seq<int>, vTxSigOps: seq<nat>, nBlockSize: nat, nBlockSigOps: nat, nFees: int,
             ghost popped: seq<Txid>, ghost os: seq<Orphan>, ghost turns: seq<Turn>, ghost byFee: bool)
    requires view.Valid() && Sound(Shown(view), pool)
    requires Collected(Shown(view), pool, rules, tip, pool.Keys, ready, start) && Indexed(mapDependers, start)
    modifies view.Repr
    ensures view.Valid() && Shown(view) == After(old(Shown(view)), vtx, tip + 1) && Under(view) == old(Under(view))
    ensures Chosen(old(Shown(view)), pool, rules, tip + 1, limits.nBlockMaxSize, vtx, vTxFees, vTxSigOps, nBlockSize, nBlockSigOps, nFees)
    ensures Scheduled(ready, start, os, [], popped, BlockIds(vtx))
    ensures Course(old(Shown(view)), rules, limits, tip + 1, vtx, vTxSigOps, turns, [], byFee)
    ensures CameUp(old(Shown(view)), pool, rules, tip, turns, popped)
  {
    hide Chosen, Scheduled, Collected, Indexed, Sound, After, Applied, PricedAt, BlockIds, Entries, Freed, Left, Distinct, StillWaiting, IsEntry, FromPool,
      Course, CameUp, Accepts, ScriptOps, Spends, Less, Sizes, Total, Open, SwitchedBefore;
    ghost var m := Shown(view);
    ChosenNone(m, pool, rules, tip + 1, limits.nBlockMaxSize);
    Begun(m, pool, rules, tip, ready, start);
    vtx, vTxFees, vTxSigOps, nBlockSize, nBlockSigOps, nFees := [], [], [], 1000, 100, 0;
    var fSortedByFee := limits.nBlockPrioritySize <= 0;
    var vecPriority, vOrphan := ready, start;
    popped, turns := [], [];
    ReadyOpen(m, pool, rules, tip, limits, ready, start);
    while vecPriority != []
      invariant view.Valid() && Shown(view) == After(m, vtx, tip + 1) && Under(view) == old(Under(view))
      invariant Chosen(m, pool, rules, tip + 1, limits.nBlockMaxSize, vtx, vTxFees, vTxSigOps, nBlockSize, nBlockSigOps, nFees)
      invariant Scheduled(ready, start, vOrphan, vecPriority, popped, BlockIds(vtx))
      invariant Course(m, rules, limits, tip + 1, vtx, vTxSigOps, turns, vecPriority, fSortedByFee)
      invariant CameUp(m, pool, rules, tip, turns, popped)
      decreases |vecPriority| + |Left(start, BlockIds(vtx))|
    {
      var k, rest := PopHeap(vecPriority, fSortedByFee);
      var dPriority, dFeePerKb, tx := vecPriority[k].dPriority, vecPriority[k].dFeePerKb, vecPriority[k].tx;
      QueuedTx(m, pool, rules, tip, ready, start, vOrphan, vecPriority, popped, BlockIds(vtx), k);
      NotCoinBase(pool, rules, tx);
      PopKeeps(ready, start, vOrphan, vecPriority, popped, BlockIds(vtx), k);
      NotInBlock(ready, start, vOrphan, vecPriority, popped, BlockIds(vtx), tx.id);
      ChosenTotals(m, pool, rules, tip + 1, limits.nBlockMaxSize, vtx, vTxFees, vTxSigOps, nBlockSize, nBlockSigOps, nFees);
      CameUpNext(m, pool, rules, tip, turns, popped, Turn(vecPriority[k], |vtx|, fSortedByFee));
      ghost var queue, turnsBefore := vecPriority, turns;
      byFee := fSortedByFee;
      ghost var t := Turn(queue[k], |vtx|, byFee);
      vecPriority, popped, turns := rest, popped + [tx.id], turns + [t];
      if nBlockSize + tx.size >= limits.nBlockMaxSize {
        CourseSkips(m, rules, limits, tip + 1, vtx, vTxSigOps, turnsBefore, queue, byFee, k, fSortedByFee);
        continue;
      }
      if nBlockSigOps + tx.sigOps >= MAX_BLOCK_SIGOPS {
        CourseSkips(m, rules, limits, tip + 1, vtx, vTxSigOps, turnsBefore, queue, byFee, k, fSortedByFee);
        continue;
      }
      if fSortedByFee && dFeePerKb < limits.nMinRelayTxFee as real && nBlockSize + tx.size >= limits.nBlockMinSize {
        CourseSkips(m, rules, limits, tip + 1, vtx, vTxSigOps, turnsBefore, queue, byFee, k, fSortedByFee);
        continue;
      }
      if !fSortedByFee && (nBlockSize + tx.size >= limits.nBlockPrioritySize || !AllowFree(dPriority)) { fSortedByFee := true; }
      var added, nTxFees, nTxSigOps := TryAdd(view, rules, tx, tip + 1, nBlockSigOps);
      if !added {
        CourseSkips(m, rules, limits, tip + 1, vtx, vTxSigOps, turnsBefore, queue, byFee, k, fSortedByFee);
        continue;
      }
      ChosenSnoc(m, pool, rules, tip + 1, limits.nBlockMaxSize, vtx, vTxFees, vTxSigOps, nBlockSize, nBlockSigOps, nFees, tx, nTxFees, nTxSigOps);
      Orphans(ready, start, vOrphan, vecPriority, popped, BlockIds(vtx));
      ghost var r;
      ghost var before := vOrphan;
      vOrphan, vecPriority, r := Release(vOrphan, mapDependers, tx.id, vecPriority, start, BlockIds(vtx));
      ReleaseKeeps(ready, start, before, vOrphan, rest, popped, BlockIds(vtx), tx.id, r);
      FreedCount(start, BlockIds(vtx), tx.id, r);
      WaitsForMissing(m, pool, rules, tip, ready, start);
      FreedOpen(m, vtx, tx, start, r);
      CourseAdds(m, rules, limits, tip + 1, vtx, vTxSigOps, turnsBefore, queue, byFee, k, fSortedByFee, nTxSigOps, Entries(start, r));
      vtx, vTxFees, vTxSigOps := vtx + [tx], vTxFees + [nTxFees], vTxSigOps + [nTxSigOps];
      nBlockSize, nBlockSigOps, nFees := nBlockSize + tx.size, nBlockSigOps + nTxSigOps, nFees + nTxFees;
    }
    os, byFee := vOrphan, fSortedByFee;
  }

  /** The turns are those of the entries that came up, with the worth the pool gives them. */
  ghost predicate CameUp(m: Utxo, pool: Mempool, rules: Rules, tip: int, turns: seq<Turn>, popped: seq<Txid>)
    requires Sound(m, pool)
  {
    && |turns| == |popped|
    && forall i | 0 <= i < |turns| :: IsEntry(m, pool, rules, tip, turns[i].entry) && turns[i].entry.tx.id == popped[i]
  }

  lemma CameUpNone(m: Utxo, pool: Mempool, rules: Rules, tip: int)
    requires Sound(m, pool)
    ensures CameUp(m, pool, rules, tip, [], [])
  {
  }

  lemma CameUpNext(m: Utxo, pool: Mempool, rules: Rules, tip: int, turns: seq<Turn>, popped: seq<Txid>, t: Turn)
    requires Sound(m, pool) && CameUp(m, pool, rules, tip, turns, popped) && IsEntry(m, pool, rules, tip, t.entry)
    ensures CameUp(m, pool, rules, tip, turns + [t], popped + [t.entry.tx.id])
  {
    hide Sound, IsEntry;
  }

  lemma ReadyOpen(m: Utxo, pool: Mempool, rules: Rules, tip: int, limits: Limits, ready: seq<Entry>, start: seq<Orphan>)
    requires Sound(m, pool) && Collected(m, pool, rules, tip, pool.Keys, ready, start)
    ensures Course(m, rules, limits, tip + 1, [], [], [], ready, limits.nBlockPrioritySize <= 0)
    ensures CameUp(m, pool, rules, tip, [], [])
  {
    hide Course, CameUp, IsEntry, Missing;
    CourseStarts(m, rules, limits, tip + 1, ready, limits.nBlockPrioritySize <= 0);
    CameUpNone(m, pool, rules, tip);
  }

  lemma WaitsForMissing(m: Utxo, pool: Mempool, rules: Rules, tip: int, ready: seq<Entry>, start: seq<Orphan>)
    requires Sound(m, pool) && Collected(m, pool, rules, tip, pool.Keys, ready, start)
    ensures forall i: nat | i < |start| :: start[i].dependsOn == Missing(m, start[i].entry.tx)
  {
    hide IsEntry, Missing;
  }

  lemma ChosenTotals(m: Utxo, pool: Mempool, rules: Rules, nHeight: int, nBlockMaxSize: nat,
                     txs: seq<Tx>, fees: seq<int>, ops: seq<nat>, nBlockSize: nat, nBlockSigOps: nat, nFees: int)
    requires Chosen(m, pool, rules, nHeight, nBlockMaxSize, txs, fees, ops, nBlockSize, nBlockSigOps, nFees)
    ensures nBlockSize == 1000 + Sizes(txs) && nBlockSigOps == 100 + Total(ops) && |ops| == |txs|
  {
  }

  lemma CourseHolds(m: Utxo, rules: Rules, limits: Limits, nHeight: int, txs: seq<Tx>, ops: seq<nat>, turns: seq<Turn>, byFee: bool)
    requires Course(m, rules, limits, nHeight, txs, ops, turns, [], byFee)
    ensures Turned(m, rules, limits, nHeight, txs, ops, turns) && Modes(limits, txs, ops, turns) && Ordered(m, txs, turns)
  {
  }

  lemma Begun(m: Utxo, pool: Mempool, rules: Rules, tip: int, ready: seq<Entry>, start: seq<Orphan>)
    requires Sound(m, pool) && Collected(m, pool, rules, tip, pool.Keys, ready, start)
    ensures Scheduled(ready, start, start, ready, [], {}) && Distinct(Waiting(start))
  {
    hide Missing, IsEntry;
    StartScheduled(ready, start);
  }

  lemma NotCoinBase(pool: Mempool, rules: Rules, tx: Tx)
    requires FromPool(pool, rules, tx)
    ensures !CoinBase(tx.vin)
  {
  }

  lemma NotInBlock(ready: seq<Entry>, start: seq<Orphan>, os: seq<Orphan>, queue: seq<Entry>, popped: seq<Txid>, done: set<Txid>, id: Txid)
    requires Scheduled(ready, start, os, queue, popped, done) && id !in popped
    ensures id !in done
  {
  }

  lemma Orphans(ready: seq<Entry>, start: seq<Orphan>, os: seq<Orphan>, queue: seq<Entry>, popped: seq<Txid>, done: set<Txid>)
    requires Scheduled(ready, start, os, queue, popped, done)
    ensures StillWaiting(start, os, done)
  {
  }

  // --- The template ---------------------------------------------------------------------------

  /** A template without its coinbase transaction; the fees carry the coinbase's own entry first. */
  datatype Template = Template(vtx: seq<Tx>, vTxFees: seq<int>, vTxSigOps: seq<nat>, nBlockSize: nat)

  function Min(a: nat, b: nat): nat { if a < b then a else b }

  function Max(a: nat, b: nat): nat { if a < b then b else a }

  /** Options within their bounds are taken as they are, others moved to the nearest bound
      (src/miner.cpp:136-148). */
  function Clamped(blockMaxSize: nat, blockPrioritySize: nat, blockMinSize: nat, nMinRelayTxFee: int): (l: Limits)
    ensures 1000 <= l.nBlockMaxSize <= MAX_BLOCK_SIZE - 1000 && l.nMinRelayTxFee == nMinRelayTxFee
    ensures 1000 <= blockMaxSize <= MAX_BLOCK_SIZE - 1000 ==> l.nBlockMaxSize == blockMaxSize
    ensures blockMaxSize < 1000 ==> l.nBlockMaxSize == 1000
    ensures blockMaxSize > MAX_BLOCK_SIZE - 1000 ==> l.nBlockMaxSize == MAX_BLOCK_SIZE - 1000
    ensures l.nBlockPrioritySize <= l.nBlockMaxSize && l.nBlockMinSize <= l.nBlockMaxSize
    ensures l.nBlockPrioritySize == blockPrioritySize || l.nBlockPrioritySize == l.nBlockMaxSize < blockPrioritySize
    ensures l.nBlockMinSize == blockMinSize || l.nBlockMinSize == l.nBlockMaxSize < blockMinSize
  {
    var nBlockMaxSize := Max(1000, Min(MAX_BLOCK_SIZE - 1000, blockMaxSize));
    Limits(nBlockMaxSize, Min(nBlockMaxSize, blockMinSize), Min(nBlockMaxSize, blockPrioritySize), nMinRelayTxFee)
  }

  /** A template that could be mined over the table `m`. */
  ghost predicate Minable(m: Utxo, pool: Mempool, rules: Rules, nHeight: int, nBlockMaxSize: nat, t: Template) {
    && ValidRun(m, t.vtx, nHeight) && DifferentIds(t.vtx)
    && (forall k :: 0 <= k < |t.vtx| ==> FromPool(pool, rules, t.vtx[k]))
    && |t.vTxFees| == |t.vtx| + 1 && Priced(m, rules, t.vtx, t.vTxFees[1..], t.vTxSigOps, nHeight)
    && t.vTxFees[0] == -Sum(t.vTxFees[1..])
    && t.nBlockSize == 1000 + Sizes(t.vtx) <= nBlockMaxSize && 100 + Total(t.vTxSigOps) < MAX_BLOCK_SIGOPS
  }

  // src/miner.cpp:115-372
  method CreateNewBlock(pcoinsTip: CacheView, pool: Mempool, rules: Rules, tip: int,
                        blockMaxSize: nat, blockPrioritySize: nat, blockMinSize: nat, nMinRelayTxFee: int)
    returns (t: Template, ghost considered: seq<Txid>, ghost turns: seq<Turn>)
    requires pcoinsTip.Valid() && Sound(Shown(pcoinsTip), pool)
    modifies pcoinsTip.Repr
    ensures pcoinsTip.Valid() && Shown(pcoinsTip) == old(Shown(pcoinsTip))
    ensures Minable(old(Shown(pcoinsTip)), pool, rules, tip + 1, Clamped(blockMaxSize, blockPrioritySize, blockMinSize, nMinRelayTxFee).nBlockMaxSize, t)
    ensures Distinct(considered)
    ensures forall id :: id in pool && Candidate(rules, pool[id]) ==>
              (id in considered <==> Missing(old(Shown(pcoinsTip)), pool[id]) <= BlockIds(t.vtx))
    // what came up, in which order, and that exactly what passed was taken
    ensures CameUp(old(Shown(pcoinsTip)), pool, rules, tip, turns, considered) && Ordered(old(Shown(pcoinsTip)), t.vtx, turns)
    ensures var limits := Clamped(blockMaxSize, blockPrioritySize, blockMinSize, nMinRelayTxFee);
            && Turned(old(Shown(pcoinsTip)), rules, limits, tip + 1, t.vtx, t.vTxSigOps, turns)
            && Modes(limits, t.vtx, t.vTxSigOps, turns)
  {
    hide Turned, Modes, Ordered, CameUp;
    hide Sound, Collected, Indexed, Scheduled, Candidate, Missing, Priced, ValidRun, DifferentIds, FromPool, Minable;
    ghost var m := Shown(pcoinsTip);
    var limits := Clamped(blockMaxSize, blockPrioritySize, blockMinSize, nMinRelayTxFee);
    var view := new CacheView.OverCache(pcoinsTip);
    FreshShown(pcoinsTip.Abs());
    var vecPriority, vOrphan, mapDependers := Collect(view, pool, rules, tip);
    var vtx, vTxFees, vTxSigOps, nBlockSize, nBlockSigOps, nFees;
    ghost var os, byFee;
    vtx, vTxFees, vTxSigOps, nBlockSize, nBlockSigOps, nFees, considered, os, turns, byFee :=
      Select(view, pool, rules, tip, limits, vecPriority, vOrphan, mapDependers);
    t := Template(vtx, [-nFees] + vTxFees, vTxSigOps, nBlockSize);
    CourseHolds(m, rules, limits, tip + 1, vtx, vTxSigOps, turns, byFee);
    Finished(m, pool, rules, tip + 1, limits.nBlockMaxSize, vtx, vTxFees, vTxSigOps, nBlockSize, 100 + Total(vTxSigOps), nFees);
    NoneTwice(vecPriority, vOrphan, os, considered, BlockIds(vtx));
    forall id | id in pool && Candidate(rules, pool[id])
      ensures id in considered <==> Missing(m, pool[id]) <= BlockIds(t.vtx)
    {
      NothingForgotten(m, pool, rules, tip, vecPriority, vOrphan, os, considered, BlockIds(vtx), id);
    }
  }

  lemma Finished(m: Utxo, pool: Mempool, rules: Rules, nHeight: int, nBlockMaxSize: nat,
                 txs: seq<Tx>, fees: seq<int>, ops: seq<nat>, nBlockSize: nat, nBlockSigOps: nat, nFees: int)
    requires Chosen(m, pool, rules, nHeight, nBlockMaxSize, txs, fees, ops, nBlockSize, nBlockSigOps, nFees) && 1000 <= nBlockMaxSize
    ensures Minable(m, pool, rules, nHeight, nBlockMaxSize, Template(txs, [-nFees] + fees, ops, nBlockSize))
  {
    hide ValidRun, PricedAt, DifferentIds, FromPool;
    assert ([-nFees] + fees)[1..] == fees;
  }

  lemma FreshShown(s: Stack)
    ensures Table(Cache(map[], NullHash, s)) == Table(s)
  {
  }

  lemma NoneTwice(ready: seq<Entry>, start: seq<Orphan>, os: seq<Orphan>, popped: seq<Txid>, done: set<Txid>)
    requires Scheduled(ready, start, os, [], popped, done)
    ensures Distinct(popped)
  {
    assert popped + Ids([]) == popped;
  }

  /** No two transactions of the pool share an input: what `mapNextTx` keeps, as a transaction that
      spends an output spent in the pool is refused (src/main.cpp:909-922). */
  ghost predicate Conflictless(pool: Mempool) {
    forall a, b, o: OutPoint | a in pool && b in pool && a != b && o in pool[a].vin :: o !in pool[b].vin
  }

  /** No output is spent twice in a template, if no two pool transactions conflict or if the chain
      does not know the ids of the pool (src/main.cpp:938-939). */
  lemma SpendsOnce(m: Utxo, pool: Mempool, rules: Rules, nHeight: int, nBlockMaxSize: nat, t: Template, i: nat, j: nat, o: OutPoint)
    requires Minable(m, pool, rules, nHeight, nBlockMaxSize, t)
    requires Conflictless(pool) || forall id :: id in pool ==> id !in m
    requires i < j < |t.vtx| && o in t.vtx[i].vin
    ensures o !in t.vtx[j].vin
  {
    hide ValidRun, Priced;
    var a, b := t.vtx[i].id, t.vtx[j].id;
    assert a in pool && b in pool && pool[a] == t.vtx[i] && pool[b] == t.vtx[j] && a != b;
    if !Conflictless(pool) { NeverSpentTwice(m, t.vtx, nHeight, i, j, o); }
  }

  /** In a template over a pool without conflicts every input is an output that the chain has
      unspent, or one that an earlier transaction of the template offers, and nothing before takes it. */
  lemma InputsAreFree(m: Utxo, pool: Mempool, rules: Rules, nHeight: int, nBlockMaxSize: nat, t: Template, j: nat, o: OutPoint)
    requires Minable(m, pool, rules, nHeight, nBlockMaxSize, t) && Conflictless(pool)
    requires j < |t.vtx| && o in t.vtx[j].vin
    ensures forall i | 0 <= i < |t.vtx| && i != j :: o !in t.vtx[i].vin
    ensures Unspent(m, o) || exists i: nat :: i < j && OfferedAt(t.vtx, nHeight, o, i, j)
  {
    forall i | 0 <= i < |t.vtx| && i != j ensures o !in t.vtx[i].vin {
      if o in t.vtx[i].vin {
        if i < j { SpendsOnce(m, pool, rules, nHeight, nBlockMaxSize, t, i, j, o); }
        else { SpendsOnce(m, pool, rules, nHeight, nBlockMaxSize, t, j, i, o); }
      }
    }
    hide Priced, Unspent;
    assert Accepts(After(m, t.vtx[..j], nHeight), t.vtx[j]);
    var n :| 0 <= n < |t.vtx[j].vin| && t.vtx[j].vin[n] == o;
    UnspentFrom(m, t.vtx, nHeight, j, o);
  }
}
