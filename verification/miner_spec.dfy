/** Which transactions a new block may take, and in which order they come up (src/miner.cpp:63-113,
    165-342). */
module MinerSpec {
  import opened FiniteSets
  import opened CoinsFormat
  import opened CoinsView
  import opened Ledger

  type Mempool = map<Txid, Tx>

  const COIN: int := 100000

  const MAX_BLOCK_SIZE: nat := 1000000
  const MAX_BLOCK_SIGOPS: nat := MAX_BLOCK_SIZE / 50

  /** What is left to other files: whether a transaction is final, how many signature operations a
      spent script brings in, how a priority is scaled by the size, and the verdict of CheckInputs on
      a transaction and the records it spends from. */
  datatype Rules = Rules(isFinal: Tx -> bool, scriptOps: (Tx, nat, TxOut) -> nat, priority: (Tx, real) -> real,
                         verdict: (Tx, seq<State>) -> bool)

  /** A pool entry: what it is worth and the transaction. */
  datatype Entry = Entry(dPriority: real, dFeePerKb: real, tx: Tx)

  /** A transaction that waits for others of the pool. */
  datatype Orphan = Orphan(entry: Entry, dependsOn: set<Txid>)

  predicate Candidate(rules: Rules, tx: Tx) { !CoinBase(tx.vin) && rules.isFinal(tx) }

  /** No input is missing: each refers to an output that the chain or the pool has, and none occurs
      twice in a transaction (src/main.cpp:807-812). */
  predicate Sound(m: Utxo, pool: Mempool) {
    forall id :: id in pool ==> SoundTx(m, pool, pool[id]) && pool[id].id == id
  }

  predicate SoundTx(m: Utxo, pool: Mempool, tx: Tx) {
    && tx.size > 0 && Distinct(tx.vin)
    && forall i :: 0 <= i < |tx.vin| ==> HasOutput(m, pool, tx.vin[i])
  }

  predicate HasOutput(m: Utxo, pool: Mempool, o: OutPoint) {
    if o.hash in m then o.n < |m[o.hash].vout| else o.hash in pool && o.n < |pool[o.hash].vout|
  }

  /** The parents that are not yet in the chain, among the first `n` inputs. */
  function MissingTo(m: Utxo, vin: seq<OutPoint>, n: nat): set<Txid>
    requires n <= |vin|
  {
    set i | 0 <= i < n && vin[i].hash !in m :: vin[i].hash
  }

  function Missing(m: Utxo, tx: Tx): set<Txid> { MissingTo(m, tx.vin, |tx.vin|) }

  // --- Priorities -----------------------------------------------------------------------------

  function ValueOf(m: Utxo, pool: Mempool, o: OutPoint): int
    requires HasOutput(m, pool, o)
  {
    if o.hash in m then m[o.hash].vout[o.n].nValue else pool[o.hash].vout[o.n].nValue
  }

  function TotalIn(m: Utxo, pool: Mempool, tx: Tx, n: nat): int
    requires n <= |tx.vin| && SoundTx(m, pool, tx)
  {
    if n == 0 then 0 else TotalIn(m, pool, tx, n - 1) + ValueOf(m, pool, tx.vin[n - 1])
  }

  /** Value times age over the inputs that are in the chain. */
  function AgeSum(m: Utxo, pool: Mempool, tx: Tx, n: nat, tip: int): real
    requires n <= |tx.vin| && SoundTx(m, pool, tx)
  {
    if n == 0 then 0.0
    else
      var o := tx.vin[n - 1];
      AgeSum(m, pool, tx, n - 1, tip)
      + if o.hash in m then ValueOf(m, pool, o) as real * (tip - m[o.hash].nHeight + 1) as real else 0.0
  }

  function EntryFor(m: Utxo, pool: Mempool, rules: Rules, tip: int, tx: Tx): Entry
    requires SoundTx(m, pool, tx)
  {
    Entry(rules.priority(tx, AgeSum(m, pool, tx, |tx.vin|, tip)),
          (TotalIn(m, pool, tx, |tx.vin|) - SumOut(tx.vout)) as real / (tx.size as real / 1000.0),
          tx)
  }

  /** TxPriorityCompare: `a` comes after `b`. */
  predicate Less(byFee: bool, a: Entry, b: Entry) {
    if byFee then
      if a.dFeePerKb == b.dFeePerKb then a.dPriority < b.dPriority else a.dFeePerKb < b.dFeePerKb
    else
      if a.dPriority == b.dPriority then a.dFeePerKb < b.dFeePerKb else a.dPriority < b.dPriority
  }

  // --- Collecting -----------------------------------------------------------------------------

  function Ids(es: seq<Entry>): (r: seq<Txid>)
    ensures |r| == |es| && forall k :: 0 <= k < |es| ==> r[k] == es[k].tx.id
  {
    seq(|es|, k requires 0 <= k < |es| => es[k].tx.id)
  }

  function Waiting(os: seq<Orphan>): (r: seq<Txid>)
    ensures |r| == |os| && forall k :: 0 <= k < |os| ==> r[k] == os[k].entry.tx.id
  {
    seq(|os|, k requires 0 <= k < |os| => os[k].entry.tx.id)
  }

  /** `dependers` lists orphan `i` under `h`. */
  predicate Lists(dependers: map<Txid, seq<nat>>, h: Txid, i: nat) { h in dependers && i in dependers[h] }

  predicate Indexed(dependers: map<Txid, seq<nat>>, os: seq<Orphan>) {
    && (forall h, k :: h in dependers && 0 <= k < |dependers[h]| ==> dependers[h][k] < |os| && h in os[dependers[h][k]].dependsOn)
    && (forall i, h :: 0 <= i < |os| && h in os[i].dependsOn ==> Lists(dependers, h, i))
  }

  /** The candidates among `seen`, sorted into those that can go at once and those that wait. */
  ghost predicate Collected(m: Utxo, pool: Mempool, rules: Rules, tip: int, seen: set<Txid>, ready: seq<Entry>, os: seq<Orphan>)
    requires Sound(m, pool)
  {
    && Distinct(Ids(ready) + Waiting(os))
    && (forall id :: id in Ids(ready) + Waiting(os) <==> id in seen && id in pool && Candidate(rules, pool[id]))
    && (forall k :: 0 <= k < |ready| ==> IsEntry(m, pool, rules, tip, ready[k]) && Missing(m, ready[k].tx) == {})
    && (forall k :: 0 <= k < |os| ==>
          IsEntry(m, pool, rules, tip, os[k].entry) && os[k].dependsOn == Missing(m, os[k].entry.tx) && os[k].dependsOn != {})
  }

  lemma CollectSkip(m: Utxo, pool: Mempool, rules: Rules, tip: int, seen: set<Txid>, ready: seq<Entry>, os: seq<Orphan>, id: Txid)
    requires Sound(m, pool) && Collected(m, pool, rules, tip, seen, ready, os)
    requires id in pool && !Candidate(rules, pool[id])
    ensures Collected(m, pool, rules, tip, seen + {id}, ready, os)
  {
    hide IsEntry, Missing;
  }

  lemma CollectReady(m: Utxo, pool: Mempool, rules: Rules, tip: int, seen: set<Txid>, ready: seq<Entry>, os: seq<Orphan>, id: Txid)
    requires Sound(m, pool) && Collected(m, pool, rules, tip, seen, ready, os)
    requires id in pool && id !in seen && Candidate(rules, pool[id]) && Missing(m, pool[id]) == {}
    ensures Collected(m, pool, rules, tip, seen + {id}, ready + [EntryFor(m, pool, rules, tip, pool[id])], os)
  {
    hide Missing, EntryFor, SoundTx;
    var e := EntryFor(m, pool, rules, tip, pool[id]);
    EntryTx(m, pool, rules, tip, pool[id]);
    var before, after := Ids(ready) + Waiting(os), Ids(ready + [e]) + Waiting(os);
    assert Ids(ready + [e]) == Ids(ready) + [id];
    InsertDistinct(Ids(ready), Waiting(os), id);
    forall k | 0 <= k < |ready| + 1
      ensures IsEntry(m, pool, rules, tip, (ready + [e])[k]) && Missing(m, (ready + [e])[k].tx) == {}
    {
      if k < |ready| { assert (ready + [e])[k] == ready[k]; }
    }
  }

  lemma CollectOrphan(m: Utxo, pool: Mempool, rules: Rules, tip: int, seen: set<Txid>, ready: seq<Entry>, os: seq<Orphan>, id: Txid)
    requires Sound(m, pool) && Collected(m, pool, rules, tip, seen, ready, os)
    requires id in pool && id !in seen && Candidate(rules, pool[id]) && Missing(m, pool[id]) != {}
    ensures Collected(m, pool, rules, tip, seen + {id}, ready, os + [Orphan(EntryFor(m, pool, rules, tip, pool[id]), Missing(m, pool[id]))])
  {
    hide Missing, EntryFor, SoundTx;
    var e := EntryFor(m, pool, rules, tip, pool[id]);
    EntryTx(m, pool, rules, tip, pool[id]);
    var more := os + [Orphan(e, Missing(m, pool[id]))];
    assert Waiting(more) == Waiting(os) + [id];
    assert Ids(ready) + Waiting(more) == (Ids(ready) + Waiting(os)) + [id];
    assert Ids(ready) + Waiting(os) + [id] == (Ids(ready) + Waiting(os)) + [id] + [];
    InsertDistinct(Ids(ready) + Waiting(os), [], id);
    assert (Ids(ready) + Waiting(os)) + [] == Ids(ready) + Waiting(os);
    forall k | 0 <= k < |more|
      ensures IsEntry(m, pool, rules, tip, more[k].entry) && more[k].dependsOn == Missing(m, more[k].entry.tx) && more[k].dependsOn != {}
    {
      if k < |os| { assert more[k] == os[k]; }
    }
  }

  lemma EntryTx(m: Utxo, pool: Mempool, rules: Rules, tip: int, tx: Tx)
    requires SoundTx(m, pool, tx)
    ensures EntryFor(m, pool, rules, tip, tx).tx == tx
  {
  }

  lemma InsertDistinct<T>(a: seq<T>, b: seq<T>, x: T)
    requires Distinct(a + b) && x !in a + b
    ensures Distinct((a + [x]) + b) && forall y :: y in (a + [x]) + b <==> y == x || y in a + b
  {
    var c, d := a + b, (a + [x]) + b;
    forall i, j | 0 <= i < j < |d|
      ensures d[i] != d[j]
    {
      if i != |a| { assert d[i] == c[if i < |a| then i else i - 1]; }
      if j != |a| { assert d[j] == c[if j < |a| then j else j - 1]; }
    }
    forall y
      ensures y in d <==> y == x || y in c
    {
      if y in c {
        var i :| 0 <= i < |c| && c[i] == y;
        assert d[if i < |a| then i else i + 1] == y;
      }
      if y == x { assert d[|a|] == x; }
    }
  }

  predicate IsEntry(m: Utxo, pool: Mempool, rules: Rules, tip: int, e: Entry)
    requires Sound(m, pool)
  {
    e.tx.id in pool && pool[e.tx.id] == e.tx && e == EntryFor(m, pool, rules, tip, e.tx)
  }

  // --- Scheduling -----------------------------------------------------------------------------

  /** How far the selection has come: `popped` ids have been taken off the queue, those in `done`
      are in the block. */
  ghost predicate Scheduled(ready: seq<Entry>, start: seq<Orphan>, os: seq<Orphan>, queue: seq<Entry>, popped: seq<Txid>, done: set<Txid>) {
    && StillWaiting(start, os, done)
    && Distinct(popped + Ids(queue))
    && (forall k :: 0 <= k < |ready| ==> ready[k].tx.id in popped + Ids(queue))
    && (forall i :: 0 <= i < |start| ==> (start[i].entry.tx.id in popped + Ids(queue) <==> start[i].dependsOn <= done))
    && (forall id :: id in done ==> id in popped)
    && (forall k :: 0 <= k < |queue| ==> queue[k] in ready || exists i :: 0 <= i < |start| && start[i].entry == queue[k])
  }

  /** Each orphan waits for those of its parents that are not in the block. */
  predicate StillWaiting(start: seq<Orphan>, os: seq<Orphan>, done: set<Txid>) {
    |os| == |start| && forall i :: 0 <= i < |os| ==> os[i] == start[i].(dependsOn := start[i].dependsOn - done)
  }

  function Without<T>(q: seq<T>, k: nat): seq<T>
    requires k < |q|
  {
    q[..k] + q[k + 1..]
  }

  /** Moving an element from the queue to those popped keeps the listing free of repetitions. */
  lemma MoveDistinct<T>(popped: seq<T>, q: seq<T>, k: nat)
    requires k < |q| && Distinct(popped + q)
    ensures Distinct((popped + [q[k]]) + Without(q, k))
    ensures forall x :: x in (popped + [q[k]]) + Without(q, k) <==> x in popped + q
  {
    var a, b := popped + q, (popped + [q[k]]) + Without(q, k);
    var n := |popped|;
    forall i, j | 0 <= i < j < |b|
      ensures b[i] != b[j]
    {
      var i' := if i < n then i else if i == n then n + k else if i <= n + k then i - 1 else i;
      var j' := if j < n then j else if j == n then n + k else if j <= n + k then j - 1 else j;
      assert b[i] == a[i'] && b[j] == a[j'] && i' != j';
    }
    forall x
      ensures x in b <==> x in a
    {
      if x in a {
        var i :| 0 <= i < |a| && a[i] == x;
        var i' := if i < n then i else if i == n + k then n else if i < n + k then i + 1 else i;
        assert b[i'] == x;
      }
    }
  }

  lemma PopKeeps(ready: seq<Entry>, start: seq<Orphan>, os: seq<Orphan>, queue: seq<Entry>, popped: seq<Txid>, done: set<Txid>, k: nat)
    requires Scheduled(ready, start, os, queue, popped, done) && k < |queue|
    ensures Scheduled(ready, start, os, Without(queue, k), popped + [queue[k].tx.id], done)
    ensures queue[k].tx.id !in popped
  {
    hide StillWaiting;
    MoveDistinct(popped, Ids(queue), k);
    assert Ids(Without(queue, k)) == Without(Ids(queue), k);
    var all := popped + Ids(queue);
    assert all[|popped| + k] == queue[k].tx.id;
    forall i | 0 <= i < |popped|
      ensures popped[i] != queue[k].tx.id
    {
      assert all[i] == popped[i];
    }
    var p, q := popped + [queue[k].tx.id], Without(queue, k);
    assert forall x :: x in p + Ids(q) <==> x in popped + Ids(queue);
    forall j | 0 <= j < |q|
      ensures q[j] in ready || exists i :: 0 <= i < |start| && start[i].entry == q[j]
    {
      assert q[j] == queue[if j < k then j else j + 1];
    }
  }

  function Entries(start: seq<Orphan>, r: seq<nat>): (es: seq<Entry>)
    requires forall j :: 0 <= j < |r| ==> r[j] < |start|
    ensures |es| == |r| && forall j :: 0 <= j < |r| ==> es[j] == start[r[j]].entry
  {
    seq(|r|, j requires 0 <= j < |r| => start[r[j]].entry)
  }

  /** `r` lists, once each, the orphans whose last missing parent is `h`. */
  ghost predicate Freed(start: seq<Orphan>, done: set<Txid>, h: Txid, r: seq<nat>) {
    && Distinct(r)
    && (forall j :: 0 <= j < |r| ==> r[j] < |start|)
    && (forall i: nat :: i < |start| ==> (i in r <==> start[i].dependsOn <= done + {h} && !(start[i].dependsOn <= done)))
  }

  lemma ReleaseKeeps(ready: seq<Entry>, start: seq<Orphan>, os: seq<Orphan>, os': seq<Orphan>, queue: seq<Entry>, popped: seq<Txid>,
                     done: set<Txid>, h: Txid, r: seq<nat>)
    requires Scheduled(ready, start, os, queue, popped, done) && Distinct(Waiting(start))
    requires h in popped && StillWaiting(start, os', done + {h}) && Freed(start, done, h, r)
    ensures Scheduled(ready, start, os', queue + Entries(start, r), popped, done + {h})
  {
    hide StillWaiting;
    var added, q := Entries(start, r), queue + Entries(start, r);
    var before, after := popped + Ids(queue), popped + Ids(q);
    assert after == before + Ids(added);
    forall j | 0 <= j < |r|
      ensures Ids(added)[j] !in before
    {
      assert r[j] in r;
      assert added[j] == start[r[j]].entry;
    }
    assert Distinct(Ids(added)) by {
      forall i, j | 0 <= i < j < |r|
        ensures Ids(added)[i] != Ids(added)[j]
      {
        assert r[i] != r[j];
        assert Waiting(start)[r[i]] != Waiting(start)[r[j]];
      }
    }
    JoinDistinct(before, Ids(added));
    forall i: nat | i < |start|
      ensures start[i].entry.tx.id in after <==> start[i].dependsOn <= done + {h}
    {
      FreedIds(start, done, h, r, i);
    }
    forall k | 0 <= k < |q|
      ensures q[k] in ready || exists i :: 0 <= i < |start| && start[i].entry == q[k]
    {
      if k >= |queue| { assert q[k] == start[r[k - |queue|]].entry; } else { assert q[k] == queue[k]; }
    }
  }

  lemma FreedIds(start: seq<Orphan>, done: set<Txid>, h: Txid, r: seq<nat>, i: nat)
    requires Distinct(Waiting(start)) && Freed(start, done, h, r) && i < |start|
    ensures start[i].entry.tx.id in Ids(Entries(start, r)) <==> i in r
  {
    var ids := Ids(Entries(start, r));
    if i in r {
      var j :| 0 <= j < |r| && r[j] == i;
      assert ids[j] == start[i].entry.tx.id;
    }
    if start[i].entry.tx.id in ids {
      var j :| 0 <= j < |r| && ids[j] == start[i].entry.tx.id;
      assert Waiting(start)[r[j]] == Waiting(start)[i];
    }
  }

  lemma JoinDistinct<T>(a: seq<T>, b: seq<T>)
    requires Distinct(a) && Distinct(b) && forall j :: 0 <= j < |b| ==> b[j] !in a
    ensures Distinct(a + b)
  {
  }

  lemma StartScheduled(ready: seq<Entry>, os: seq<Orphan>)
    requires Distinct(Ids(ready) + Waiting(os)) && forall k :: 0 <= k < |os| ==> os[k].dependsOn != {}
    ensures Scheduled(ready, os, os, ready, [], {}) && Distinct(Waiting(os))
  {
    var all := Ids(ready) + Waiting(os);
    assert [] + Ids(ready) == Ids(ready);
    forall i, j | 0 <= i < j < |ready|
      ensures Ids(ready)[i] != Ids(ready)[j]
    {
      assert all[i] != all[j];
    }
    forall i, j | 0 <= i < j < |os|
      ensures Waiting(os)[i] != Waiting(os)[j]
    {
      assert all[|ready| + i] != all[|ready| + j];
    }
    forall i | 0 <= i < |os|
      ensures os[i].entry.tx.id !in Ids(ready) && os[i] == os[i].(dependsOn := os[i].dependsOn - {})
    {
      assert all[|ready| + i] == os[i].entry.tx.id;
      forall j | 0 <= j < |ready|
        ensures Ids(ready)[j] != os[i].entry.tx.id
      {
        assert all[j] != all[|ready| + i];
      }
      assert os[i].dependsOn - {} == os[i].dependsOn;
    }
  }

  /** When nothing is queued any more, every candidate has come up once, except those that wait for
      a parent that did not get into the block. */
  lemma NothingForgotten(m: Utxo, pool: Mempool, rules: Rules, tip: int, ready: seq<Entry>, start: seq<Orphan>, os: seq<Orphan>,
                         popped: seq<Txid>, done: set<Txid>, id: Txid)
    requires Sound(m, pool) && Collected(m, pool, rules, tip, pool.Keys, ready, start)
    requires Scheduled(ready, start, os, [], popped, done)
    requires id in pool && Candidate(rules, pool[id])
    ensures id in popped <==> Missing(m, pool[id]) <= done
  {
    hide StillWaiting, EntryFor, Missing, SoundTx;
    assert popped + Ids([]) == popped;
    var all := Ids(ready) + Waiting(start);
    assert id in all;
    var k :| 0 <= k < |all| && all[k] == id;
    if k < |ready| {
      assert ready[k].tx.id == id;
      assert IsEntry(m, pool, rules, tip, ready[k]);
    } else {
      assert start[k - |ready|].entry.tx.id == id;
      assert IsEntry(m, pool, rules, tip, start[k - |ready|].entry);
    }
  }

  // --- The template ---------------------------------------------------------------------------

  /** The records that a transaction spends from. */
  function Spends(m: Utxo, tx: Tx): (r: seq<State>)
    requires Accepts(m, tx)
    ensures |r| == |tx.vin|
  {
    seq(|tx.vin|, i requires 0 <= i < |tx.vin| => m[tx.vin[i].hash])
  }

  function ScriptOps(m: Utxo, rules: Rules, tx: Tx, n: nat): nat
    requires n <= |tx.vin| && Accepts(m, tx)
  {
    if n == 0 then 0
    else
      var o := tx.vin[n - 1];
      ScriptOps(m, rules, tx, n - 1) + rules.scriptOps(tx, n - 1, m[o.hash].vout[o.n])
  }

  /** Fees and signature operations of each transaction, as its inputs stood when it was added. */
  predicate Priced(m: Utxo, rules: Rules, txs: seq<Tx>, fees: seq<int>, ops: seq<nat>, nHeight: int)
    requires ValidRun(m, txs, nHeight)
  {
    && |fees| == |ops| == |txs|
    && forall k :: 0 <= k < |txs| ==> PricedAt(After(m, txs[..k], nHeight), rules, txs[k], fees[k], ops[k])
  }

  predicate PricedAt(m: Utxo, rules: Rules, tx: Tx, fee: int, ops: nat) {
    Accepts(m, tx) && fee == Fee(m, tx) && ops == tx.sigOps + ScriptOps(m, rules, tx, |tx.vin|)
  }

  lemma PricedSnoc(m: Utxo, rules: Rules, txs: seq<Tx>, fees: seq<int>, ops: seq<nat>, nHeight: int, tx: Tx, fee: int, op: nat)
    requires ValidRun(m, txs, nHeight) && Priced(m, rules, txs, fees, ops, nHeight)
    requires PricedAt(After(m, txs, nHeight), rules, tx, fee, op)
    ensures ValidRun(m, txs + [tx], nHeight) && Priced(m, rules, txs + [tx], fees + [fee], ops + [op], nHeight)
  {
    hide After, Accepts, Fee, ScriptOps;
    ValidSnoc(m, txs, tx, nHeight);
    var all := txs + [tx];
    forall k | 0 <= k < |all|
      ensures PricedAt(After(m, all[..k], nHeight), rules, all[k], (fees + [fee])[k], (ops + [op])[k])
    {
      assert all[..k] == txs[..k];
      if k == |txs| { assert txs[..k] == txs; }
    }
  }

  function Sizes(txs: seq<Tx>): nat { if txs == [] then 0 else Sizes(txs[..|txs| - 1]) + txs[|txs| - 1].size }

  function Total(v: seq<nat>): nat { if v == [] then 0 else Total(v[..|v| - 1]) + v[|v| - 1] }

  lemma TotalsSnoc(txs: seq<Tx>, tx: Tx, v: seq<nat>, x: nat)
    ensures Sizes(txs + [tx]) == Sizes(txs) + tx.size && Total(v + [x]) == Total(v) + x
  {
    assert (txs + [tx])[..|txs|] == txs && (v + [x])[..|v|] == v;
  }

  function BlockIds(txs: seq<Tx>): set<Txid> { set k | 0 <= k < |txs| :: txs[k].id }

  // --- Progress -------------------------------------------------------------------------------

  /** The orphans that have not been released. */
  function Left(start: seq<Orphan>, done: set<Txid>): set<nat> {
    set i: nat | i < |start| && !(start[i].dependsOn <= done)
  }

  /** Each release takes as many orphans off the waiting list as it puts on the queue. */
  lemma FreedCount(start: seq<Orphan>, done: set<Txid>, h: Txid, r: seq<nat>)
    requires Freed(start, done, h, r)
    ensures |Left(start, done + {h})| + |r| == |Left(start, done)|
  {
    var freed := set i: nat | i < |start| && i in r;
    assert forall i :: i in r <==> i in freed;
    DistinctLength(r, freed);
    assert Left(start, done) == Left(start, done + {h}) + freed;
    assert Left(start, done + {h}) !! freed;
  }

  /** What the selection knows of an entry on its queue. */
  lemma QueuedTx(m: Utxo, pool: Mempool, rules: Rules, tip: int, ready: seq<Entry>, start: seq<Orphan>, os: seq<Orphan>, queue: seq<Entry>,
                 popped: seq<Txid>, done: set<Txid>, k: nat)
    requires Sound(m, pool) && Collected(m, pool, rules, tip, pool.Keys, ready, start)
    requires Scheduled(ready, start, os, queue, popped, done) && k < |queue|
    ensures IsEntry(m, pool, rules, tip, queue[k])
    ensures FromPool(pool, rules, queue[k].tx) && Distinct(queue[k].tx.vin)
  {
    hide StillWaiting, Missing, IsEntry, SoundTx, Sound, Candidate;
    var e, all := queue[k], Ids(ready) + Waiting(start);
    if e in ready {
      var i :| 0 <= i < |ready| && ready[i] == e;
      assert all[i] == e.tx.id;
    } else {
      var i :| 0 <= i < |start| && start[i].entry == e;
      assert all[|ready| + i] == e.tx.id;
    }
    assert e.tx.id in all;
    EntryFacts(m, pool, rules, tip, e);
  }

  lemma EntryFacts(m: Utxo, pool: Mempool, rules: Rules, tip: int, e: Entry)
    requires Sound(m, pool) && IsEntry(m, pool, rules, tip, e)
    ensures e.tx.id in pool && pool[e.tx.id] == e.tx && Distinct(e.tx.vin)
  {
    assert SoundTx(m, pool, pool[e.tx.id]);
  }

  predicate FromPool(pool: Mempool, rules: Rules, tx: Tx) {
    tx.id in pool && pool[tx.id] == tx && Candidate(rules, tx)
  }

  predicate DifferentIds(txs: seq<Tx>) { forall i, j :: 0 <= i < j < |txs| ==> txs[i].id != txs[j].id }

  lemma AddedId(txs: seq<Tx>, tx: Tx)
    requires DifferentIds(txs) && tx.id !in BlockIds(txs)
    ensures DifferentIds(txs + [tx]) && BlockIds(txs + [tx]) == BlockIds(txs) + {tx.id}
  {
    var all := txs + [tx];
    forall i, j | 0 <= i < j < |all|
      ensures all[i].id != all[j].id
    {
      assert all[i] == txs[i];
      assert txs[i].id in BlockIds(txs);
      if j < |txs| { assert all[j] == txs[j]; }
    }
    forall id
      ensures id in BlockIds(all) <==> id in BlockIds(txs) + {tx.id}
    {
      if id in BlockIds(txs) {
        var k :| 0 <= k < |txs| && txs[k].id == id;
        assert all[k].id == id;
      }
      if id == tx.id { assert all[|txs|].id == id; }
    }
  }
}
