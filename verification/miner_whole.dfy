/** What the turns of a selection say about the block: why a transaction is left out, when a pool is
    taken whole, and where the fees come from. */
module MinerWhole {
  import opened CoinsFormat
  import opened CoinsView
  import opened Ledger
  import opened LedgerValue
  import opened MinerSpec
  import opened MinerTurns
  import opened Miner

  // --- Why a transaction is left out ----------------------------------------------------------

  /** The first `k` transactions leave no room for the entry or its operations, its fee is too low
      for a block that is not small, or its inputs cannot be spent. */
  ghost predicate NoPlace(m: Utxo, rules: Rules, limits: Limits, nHeight: int, txs: seq<Tx>, ops: seq<nat>, t: Turn)
    requires t.taken <= |txs| == |ops|
  {
    var p, tx := txs[..t.taken], t.entry.tx;
    var view := After(m, p, nHeight);
    || 1000 + Sizes(p) + tx.size >= limits.nBlockMaxSize
    || (t.byFee && t.entry.dFeePerKb < limits.nMinRelayTxFee as real && 1000 + Sizes(p) + tx.size >= limits.nBlockMinSize)
    || !Accepts(view, tx)
    || 100 + Total(ops[..t.taken]) + tx.sigOps + ScriptOps(view, rules, tx, |tx.vin|) >= MAX_BLOCK_SIGOPS
    || !rules.verdict(tx, Spends(view, tx))
  }

  /** Every transaction that came up and is not in the block had no place there when it came up. */
  lemma LeftOut(m: Utxo, pool: Mempool, rules: Rules, limits: Limits, tip: int, txs: seq<Tx>, ops: seq<nat>,
                turns: seq<Turn>, considered: seq<Txid>, i: nat)
    requires Sound(m, pool) && CameUp(m, pool, rules, tip, turns, considered)
    requires Turned(m, rules, limits, tip + 1, txs, ops, turns) && Ordered(m, txs, turns)
    requires i < |considered| && considered[i] !in BlockIds(txs)
    ensures i < |turns| && turns[i].entry.tx.id == considered[i] && turns[i].taken <= |txs| == |ops|
    ensures Open(m, txs, turns[i].taken, turns[i].entry) && NoPlace(m, rules, limits, tip + 1, txs, ops, turns[i])
  {
    hide After, Accepts, ScriptOps, Spends, IsEntry, Sound, Open, AtLeast, Sizes, Total;
    var t := turns[i];
    assert TurnAt(m, rules, limits, tip + 1, txs, ops, t, Taken(turns, i + 1, |txs|));
  }

  // --- When a pool is taken whole -------------------------------------------------------------

  /** Every transaction of the pool can be spent from the chain or from its parents in the pool. */
  ghost predicate Spendable(m: Utxo, pool: Mempool, nHeight: int)
    requires Sound(m, pool)
  {
    forall id, o | id in pool && o in pool[id].vin ::
      if o.hash in m then Unspent(m, o) else o.hash in pool && Avail(Created(pool[o.hash], nHeight).vout, o.n)
  }

  function SizesOf(pool: Mempool): map<Txid, int> { map id | id in pool :: pool[id].size }

  /** `cap` bounds the operations of each transaction, whatever it is checked against. */
  ghost predicate Capped(pool: Mempool, rules: Rules, cap: map<Txid, int>) {
    && cap.Keys == pool.Keys && (forall id | id in cap :: cap[id] >= 0)
    && forall id, view | id in pool && Accepts(view, pool[id]) ::
         pool[id].sigOps + ScriptOps(view, rules, pool[id], |pool[id].vin|) <= cap[id]
  }

  /** All together the pool fits into a block, and nothing speaks against any of its transactions. */
  ghost predicate Welcome(m: Utxo, pool: Mempool, rules: Rules, limits: Limits, tip: int, cap: map<Txid, int>) {
    && Sound(m, pool) && Conflictless(pool) && Spendable(m, pool, tip + 1)
    && (forall id | id in pool :: id !in m && Candidate(rules, pool[id]))
    && (forall id | id in pool :: EntryFor(m, pool, rules, tip, pool[id]).dFeePerKb >= limits.nMinRelayTxFee as real)
    && (forall id, records | id in pool :: rules.verdict(pool[id], records))
    && 1000 + SumOver(SizesOf(pool)) < limits.nBlockMaxSize
    && Capped(pool, rules, cap) && 100 + SumOver(cap) < MAX_BLOCK_SIGOPS
  }

  /** No transaction waits for itself, along any chain of parents. */
  ghost predicate Ranked(m: Utxo, pool: Mempool, rank: Txid -> nat) {
    forall id, parent | id in pool && parent in Missing(m, pool[id]) :: rank(parent) < rank(id)
  }

  // Sums over lists of pool transactions

  function ListSum(txs: seq<Tx>, w: map<Txid, int>): int
    requires forall k | 0 <= k < |txs| :: txs[k].id in w
  {
    if txs == [] then 0 else ListSum(txs[..|txs| - 1], w) + w[txs[|txs| - 1].id]
  }

  lemma {:induction false} ListSumSame(txs: seq<Tx>, v: map<Txid, int>, w: map<Txid, int>)
    requires forall k | 0 <= k < |txs| :: txs[k].id in v && txs[k].id in w && v[txs[k].id] == w[txs[k].id]
    ensures ListSum(txs, v) == ListSum(txs, w)
  {
    if txs != [] { ListSumSame(txs[..|txs| - 1], v, w); }
  }

  lemma {:induction false} SumNotNegative(w: map<Txid, int>)
    requires forall id | id in w :: w[id] >= 0
    ensures SumOver(w) >= 0
    decreases |w|
  {
    if w != map[] { SumNotNegative(w - {First(w)}); }
  }

  /** Different transactions together weigh at most what the whole table does. */
  lemma {:induction false} ListFits(txs: seq<Tx>, w: map<Txid, int>)
    requires DifferentIds(txs) && (forall k | 0 <= k < |txs| :: txs[k].id in w) && forall id | id in w :: w[id] >= 0
    ensures ListSum(txs, w) <= SumOver(w)
    decreases |txs|
  {
    hide SumOver;
    if txs == [] {
      SumNotNegative(w);
    } else {
      var n := |txs| - 1;
      var front, id := txs[..n], txs[n].id;
      SumWithout(w, id);
      forall k | 0 <= k < n ensures front[k].id in w - {id} {
        assert txs[k].id != txs[n].id;
      }
      ListSumSame(front, w, w - {id});
      ListFits(front, w - {id});
    }
  }

  lemma {:induction false} SizesListed(txs: seq<Tx>, pool: Mempool)
    requires forall k | 0 <= k < |txs| :: txs[k].id in pool && pool[txs[k].id] == txs[k]
    ensures Sizes(txs) == ListSum(txs, SizesOf(pool))
  {
    if txs != [] { SizesListed(txs[..|txs| - 1], pool); }
  }

  lemma {:induction false} OpsListed(m: Utxo, pool: Mempool, rules: Rules, nHeight: int, cap: map<Txid, int>, txs: seq<Tx>, ops: seq<nat>)
    requires Capped(pool, rules, cap) && |ops| == |txs|
    requires forall k | 0 <= k < |txs| :: txs[k].id in pool && pool[txs[k].id] == txs[k]
    requires forall k | 0 <= k < |txs| ::
               var view := After(m, txs[..k], nHeight);
               Accepts(view, txs[k]) && ops[k] == txs[k].sigOps + ScriptOps(view, rules, txs[k], |txs[k].vin|)
    ensures Total(ops) <= ListSum(txs, cap)
    decreases |txs|
  {
    hide After, Accepts, ScriptOps;
    if txs != [] {
      var n := |txs| - 1;
      var front := txs[..n];
      forall k | 0 <= k < n ensures front[..k] == txs[..k] && front[k] == txs[k] {
      }
      OpsListed(m, pool, rules, nHeight, cap, front, ops[..n]);
    }
  }

  /** After different pool transactions, none of them the one at hand, all its inputs are unspent
      once its parents are among them. */
  lemma InputsReady(m: Utxo, pool: Mempool, rules: Rules, nHeight: int, txs: seq<Tx>, tx: Tx)
    requires Sound(m, pool) && Conflictless(pool) && Spendable(m, pool, nHeight) && forall id | id in pool :: id !in m
    requires ValidRun(m, txs, nHeight) && DifferentIds(txs)
    requires forall k | 0 <= k < |txs| :: txs[k].id in pool && pool[txs[k].id] == txs[k]
    requires tx.id in pool && pool[tx.id] == tx && tx.id !in BlockIds(txs) && Missing(m, tx) <= BlockIds(txs)
    ensures Accepts(After(m, txs, nHeight), tx)
  {
    hide After, ValidRun, Created, Unspent;
    assert SoundTx(m, pool, pool[tx.id]);
    assert txs[..|txs|] == txs;
    forall i | 0 <= i < |tx.vin|
      ensures Unspent(After(m, txs, nHeight), tx.vin[i])
    {
      InputReady(m, pool, nHeight, txs, tx, tx.vin[i]);
    }
  }

  lemma InputReady(m: Utxo, pool: Mempool, nHeight: int, txs: seq<Tx>, tx: Tx, o: OutPoint)
    requires Sound(m, pool) && Conflictless(pool) && Spendable(m, pool, nHeight) && forall id | id in pool :: id !in m
    requires ValidRun(m, txs, nHeight) && DifferentIds(txs)
    requires forall k | 0 <= k < |txs| :: txs[k].id in pool && pool[txs[k].id] == txs[k]
    requires tx.id in pool && pool[tx.id] == tx && tx.id !in BlockIds(txs) && Missing(m, tx) <= BlockIds(txs) && o in tx.vin
    ensures Unspent(After(m, txs, nHeight), o)
  {
    hide After, ValidRun, Created, Unspent, Sound;
    var n := |txs|;
    assert txs[..n] == txs;
    forall l | 0 <= l < n ensures o !in txs[l].vin {
      assert txs[l].id in BlockIds(txs);
    }
    UnspentFrom(m, txs, nHeight, n, o);
    if o.hash in m {
      assert !CreatedBetween(txs, o.hash, 0, n);
    } else {
      var i :| 0 <= i < |tx.vin| && tx.vin[i] == o;
      assert o.hash in Missing(m, tx);
      var k :| 0 <= k < n && txs[k].id == o.hash;
      assert OfferedAt(txs, nHeight, o, k, n);
    }
  }

  /** A transaction of a welcome pool passes whenever it comes up. */
  lemma WelcomePasses(m: Utxo, pool: Mempool, rules: Rules, limits: Limits, tip: int, cap: map<Txid, int>,
                      txs: seq<Tx>, ops: seq<nat>, t: Turn)
    requires Welcome(m, pool, rules, limits, tip, cap)
    requires ValidRun(m, txs, tip + 1) && DifferentIds(txs) && |ops| == |txs|
    requires forall k | 0 <= k < |txs| :: txs[k].id in pool && pool[txs[k].id] == txs[k]
    requires forall k | 0 <= k < |txs| ::
               var view := After(m, txs[..k], tip + 1);
               Accepts(view, txs[k]) && ops[k] == txs[k].sigOps + ScriptOps(view, rules, txs[k], |txs[k].vin|)
    requires var tx := t.entry.tx;
             && tx.id in pool && pool[tx.id] == tx && t.entry == EntryFor(m, pool, rules, tip, tx)
             && tx.id !in BlockIds(txs) && Missing(m, tx) <= BlockIds(txs)
    ensures Passes(After(m, txs, tip + 1), rules, limits, 1000 + Sizes(txs), 100 + Total(ops), t)
  {
    hide After, ValidRun, Accepts, ScriptOps, EntryFor, Sound, Conflictless, Spendable, Missing, SumOver, Spends, Candidate;
    var tx := t.entry.tx;
    InputsReady(m, pool, rules, tip + 1, txs, tx);
    var all := txs + [tx];
    AddedId(txs, tx);
    OpsListed(m, pool, rules, tip + 1, cap, txs, ops);
    SizesListed(all, pool);
    TotalsSnoc(txs, tx, [], 0);
    ListFits(all, SizesOf(pool));
    ListFits(all, cap);
    assert all[..|txs|] == txs;
  }

  /** The smallest rank of what is missing from the block. */
  lemma {:induction false} LowestLeft(left: set<Txid>, rank: Txid -> nat) returns (id: Txid)
    requires left != {}
    ensures id in left && forall other | other in left :: rank(id) <= rank(other)
    decreases |left|
  {
    id :| id in left;
    var rest := left - {id};
    if rest != {} {
      var low := LowestLeft(rest, rank);
      if rank(low) < rank(id) { id := low; }
    }
    forall other | other in left ensures rank(id) <= rank(other) {
      if other in rest {}
    }
  }

  /** A pool that fits whole, pays and passes is taken whole. */
  lemma TakenWhole(m: Utxo, pool: Mempool, rules: Rules, limits: Limits, tip: int, cap: map<Txid, int>, rank: Txid -> nat,
                   t: Template, considered: seq<Txid>, turns: seq<Turn>)
    requires Welcome(m, pool, rules, limits, tip, cap) && Ranked(m, pool, rank)
    requires Minable(m, pool, rules, tip + 1, limits.nBlockMaxSize, t)
    requires CameUp(m, pool, rules, tip, turns, considered) && Ordered(m, t.vtx, turns)
    requires Turned(m, rules, limits, tip + 1, t.vtx, t.vTxSigOps, turns)
    requires forall id | id in pool && Candidate(rules, pool[id]) :: id in considered <==> Missing(m, pool[id]) <= BlockIds(t.vtx)
    ensures BlockIds(t.vtx) == pool.Keys
  {
    hide Welcome, Minable, CameUp, Ordered, Turned, Candidate, Missing, BlockIds;
    InPool(m, pool, rules, tip, limits.nBlockMaxSize, t);
    var left := pool.Keys - BlockIds(t.vtx);
    if left != {} {
      var id := LowestLeft(left, rank);
      WelcomeCandidates(m, pool, rules, limits, tip, cap);
      forall parent | parent in Missing(m, pool[id]) ensures parent in BlockIds(t.vtx) {
        MissingInPool(m, pool, id, parent);
        assert rank(parent) < rank(id);
        assert parent !in left;
      }
      assert id in considered;
      var i :| 0 <= i < |considered| && considered[i] == id;
      TakenWhenUp(m, pool, rules, limits, tip, cap, t, considered, turns, i);
    }
    forall id | id in pool ensures id in BlockIds(t.vtx) {
      assert id !in left;
    }
  }

  lemma WelcomeCandidates(m: Utxo, pool: Mempool, rules: Rules, limits: Limits, tip: int, cap: map<Txid, int>)
    requires Welcome(m, pool, rules, limits, tip, cap)
    ensures Sound(m, pool) && forall id | id in pool :: Candidate(rules, pool[id])
  {
    hide Sound, Candidate;
  }

  lemma MissingInPool(m: Utxo, pool: Mempool, id: Txid, parent: Txid)
    requires Sound(m, pool) && id in pool && parent in Missing(m, pool[id])
    ensures parent in pool
  {
    assert SoundTx(m, pool, pool[id]);
    var i :| 0 <= i < |pool[id].vin| && pool[id].vin[i].hash == parent && parent !in m;
    assert HasOutput(m, pool, pool[id].vin[i]);
  }

  lemma InPool(m: Utxo, pool: Mempool, rules: Rules, tip: int, nBlockMaxSize: nat, t: Template)
    requires Minable(m, pool, rules, tip + 1, nBlockMaxSize, t)
    ensures BlockIds(t.vtx) <= pool.Keys
  {
    hide ValidRun, Priced;
  }

  /** Every transaction of a welcome pool that comes up is taken. */
  lemma TakenWhenUp(m: Utxo, pool: Mempool, rules: Rules, limits: Limits, tip: int, cap: map<Txid, int>,
                    t: Template, considered: seq<Txid>, turns: seq<Turn>, i: nat)
    requires Welcome(m, pool, rules, limits, tip, cap)
    requires Minable(m, pool, rules, tip + 1, limits.nBlockMaxSize, t)
    requires CameUp(m, pool, rules, tip, turns, considered) && Ordered(m, t.vtx, turns)
    requires Turned(m, rules, limits, tip + 1, t.vtx, t.vTxSigOps, turns)
    requires i < |considered|
    ensures considered[i] in BlockIds(t.vtx)
  {
    hide *;
    if considered[i] !in BlockIds(t.vtx) {
      WelcomeCandidates(m, pool, rules, limits, tip, cap);
      LeftOut(m, pool, rules, limits, tip, t.vtx, t.vTxSigOps, turns, considered, i);
      EntryIs(m, pool, rules, tip, turns, considered, i);
      UpHasPlace(m, pool, rules, limits, tip, cap, t, turns[i]);
    }
  }

  lemma UpHasPlace(m: Utxo, pool: Mempool, rules: Rules, limits: Limits, tip: int, cap: map<Txid, int>, t: Template, u: Turn)
    requires Welcome(m, pool, rules, limits, tip, cap)
    requires Minable(m, pool, rules, tip + 1, limits.nBlockMaxSize, t)
    requires var tx := u.entry.tx;
             && tx.id in pool && pool[tx.id] == tx && u.entry == EntryFor(m, pool, rules, tip, tx)
             && tx.id !in BlockIds(t.vtx) && Open(m, t.vtx, u.taken, u.entry)
    ensures u.taken <= |t.vtx| == |t.vTxSigOps| && !NoPlace(m, rules, limits, tip + 1, t.vtx, t.vTxSigOps, u)
  {
    hide Welcome, Minable, After, ValidRun, Accepts, ScriptOps, Passes, EntryFor, Missing, NoPlace, BlockIds, Sizes, Total;
    PrefixPriced(m, pool, rules, tip, limits.nBlockMaxSize, t, u.taken);
    NotAmong(t.vtx, u.taken, u.entry.tx.id);
    WelcomePasses(m, pool, rules, limits, tip, cap, t.vtx[..u.taken], t.vTxSigOps[..u.taken], u);
    PassesHasPlace(m, rules, limits, tip + 1, t.vtx, t.vTxSigOps, u);
  }

  lemma PassesHasPlace(m: Utxo, rules: Rules, limits: Limits, nHeight: int, txs: seq<Tx>, ops: seq<nat>, t: Turn)
    requires t.taken <= |txs| == |ops|
    requires Passes(After(m, txs[..t.taken], nHeight), rules, limits, 1000 + Sizes(txs[..t.taken]), 100 + Total(ops[..t.taken]), t)
    ensures !NoPlace(m, rules, limits, nHeight, txs, ops, t)
  {
    hide After, Accepts, ScriptOps, Sizes, Total, Spends;
  }

  lemma EntryIs(m: Utxo, pool: Mempool, rules: Rules, tip: int, turns: seq<Turn>, considered: seq<Txid>, i: nat)
    requires Sound(m, pool) && CameUp(m, pool, rules, tip, turns, considered) && i < |turns|
    ensures var e := turns[i].entry;
            e.tx.id == considered[i] && e.tx.id in pool && pool[e.tx.id] == e.tx && e == EntryFor(m, pool, rules, tip, e.tx)
  {
    hide EntryFor, Sound;
  }

  lemma NotAmong(txs: seq<Tx>, k: nat, id: Txid)
    requires k <= |txs| && id !in BlockIds(txs)
    ensures id !in BlockIds(txs[..k])
  {
  }

  /** What holds of a template holds of every part from its start. */
  lemma PrefixPriced(m: Utxo, pool: Mempool, rules: Rules, tip: int, nBlockMaxSize: nat, t: Template, n: nat)
    requires Minable(m, pool, rules, tip + 1, nBlockMaxSize, t) && n <= |t.vtx|
    ensures |t.vTxSigOps| == |t.vtx|
    ensures var txs, ops := t.vtx[..n], t.vTxSigOps[..n];
            && ValidRun(m, txs, tip + 1) && DifferentIds(txs)
            && (forall k | 0 <= k < n :: txs[k].id in pool && pool[txs[k].id] == txs[k])
            && forall k | 0 <= k < n ::
                 var view := After(m, txs[..k], tip + 1);
                 Accepts(view, txs[k]) && ops[k] == txs[k].sigOps + ScriptOps(view, rules, txs[k], |txs[k].vin|)
  {
    hide After, Accepts, ScriptOps, Fee, Candidate, Sizes, Total;
    var txs := t.vtx[..n];
    forall k | 0 <= k < n
      ensures txs[..k] == t.vtx[..k] && txs[k] == t.vtx[k]
    {
    }
    forall k | 0 <= k < n
      ensures PricedAt(After(m, txs[..k], tip + 1), rules, txs[k], t.vTxFees[1..][k], t.vTxSigOps[..n][k])
    {
      assert PricedAt(After(m, t.vtx[..k], tip + 1), rules, t.vtx[k], t.vTxFees[1..][k], t.vTxSigOps[k]);
    }
  }

  // --- Where the fees come from ---------------------------------------------------------------

  /** The outputs of a block that nobody can spend. */
  function UnofferedBy(txs: seq<Tx>): int {
    if txs == [] then 0 else UnofferedBy(txs[..|txs| - 1]) + Unoffered(txs[|txs| - 1].vout, 0)
  }

  lemma {:induction false} NewIdsDestroy(m: Utxo, txs: seq<Tx>, nHeight: int)
    requires NewIds(m, txs)
    ensures DestroyedBy(m, txs, nHeight) == UnofferedBy(txs)
    decreases |txs|
  {
    hide Destroyed, After;
    if txs != [] {
      var n := |txs| - 1;
      var front := txs[..n];
      NewIdsDestroy(m, front, nHeight);
      if txs[n].id in After(m, front, nHeight) {
        assert front[..n] == front;
        KnownIds(m, front, nHeight, n, txs[n].id);
      }
      NewIdDestroys(After(m, front, nHeight), txs[n]);
    }
  }

  /** The fees of a template, which the first entry of its list takes off the coinbase, are exactly
      what the unspent outputs lose in value and what is not destroyed; with new ids only outputs
      that nobody can spend are. */
  lemma TemplateConserves(m: Utxo, pool: Mempool, rules: Rules, nHeight: int, nBlockMaxSize: nat, t: Template)
    requires Minable(m, pool, rules, nHeight, nBlockMaxSize, t)
    ensures -t.vTxFees[0] == TotalValue(m) - TotalValue(After(m, t.vtx, nHeight)) - DestroyedBy(m, t.vtx, nHeight)
    ensures (forall id | id in pool :: id !in m) ==> DestroyedBy(m, t.vtx, nHeight) == UnofferedBy(t.vtx)
  {
    hide After, Accepts, Fee, ScriptOps, TotalValue, Candidate;
    RunConserves(m, t.vtx, t.vTxFees[1..], nHeight);
    if forall id | id in pool :: id !in m { NewIdsDestroy(m, t.vtx, nHeight); }
  }
}
