/** The value of a table of unspent outputs, and what transactions do to it. */
module LedgerValue {
  import opened FiniteSets
  import opened CoinsFormat
  import opened CoinsView
  import opened Ledger

  /** The value of one output if it is unspent. */
  function Worth(vout: seq<TxOut>, k: nat): int { if Avail(vout, k) then vout[k].nValue else 0 }

  /** The unspent value among the outputs from `k` on. */
  function WorthFrom(vout: seq<TxOut>, k: nat): int
    decreases |vout| - k
  {
    if k >= |vout| then 0 else Worth(vout, k) + WorthFrom(vout, k + 1)
  }

  /** The unspent value of each record. */
  function Worths(m: Utxo): map<Txid, int> { map id | id in m :: WorthFrom(m[id].vout, 0) }

  /** The unspent value of all records. */
  function TotalValue(m: Utxo): int { SumOver(Worths(m)) }

  // --- Sums over tables -----------------------------------------------------------------------

  function SumOver(w: map<Txid, int>): int
    decreases |w|
  {
    if w == map[] then 0
    else
      var id := First(w);
      w[id] + SumOver(w - {id})
  }

  function First(w: map<Txid, int>): (id: Txid)
    requires w != map[]
    ensures id in w && |w - {id}| < |w|
  {
    var some :| some in w;
    assert some in w.Keys;
    var id := Least(w.Keys);
    Smaller(w, id);
    id
  }

  lemma Smaller(w: map<Txid, int>, id: Txid)
    requires id in w
    ensures |w - {id}| < |w|
  {
    assert (w - {id}).Keys == w.Keys - {id};
    assert |w.Keys| == |w| && |(w - {id}).Keys| == |w - {id}|;
  }

  /** A table may be added up in any order. */
  lemma {:induction false} SumWithout(w: map<Txid, int>, id: Txid)
    requires id in w
    ensures SumOver(w) == w[id] + SumOver(w - {id})
    decreases |w|
  {
    hide SumOver, First;
    SumStep(w);
    var first := First(w);
    if first != id {
      Smaller(w, id);
      SumWithout(w - {first}, id);
      SumWithout(w - {id}, first);
      assert w - {first} - {id} == w - {id} - {first};
    }
  }

  lemma SumStep(w: map<Txid, int>)
    requires w != map[]
    ensures SumOver(w) == w[First(w)] + SumOver(w - {First(w)})
  {
  }

  lemma SumUpdate(w: map<Txid, int>, id: Txid, x: int)
    ensures SumOver(w[id := x]) == SumOver(w) - (if id in w then w[id] else 0) + x
  {
    hide SumOver;
    var v := w[id := x];
    SumWithout(v, id);
    assert v - {id} == w - {id};
    if id in w { SumWithout(w, id); } else { assert w - {id} == w; }
  }

  // --- What a transaction creates and destroys ------------------------------------------------

  /** What outputs of a transaction are worth that no record offers: blanked or null ones. */
  function Unoffered(vout: seq<TxOut>, k: nat): int
    decreases |vout| - k
  {
    if k >= |vout| then 0
    else (if Unspendable(vout[k].scriptPubKey) || vout[k].IsNull() then vout[k].nValue else 0) + Unoffered(vout, k + 1)
  }

  function RecordWorth(m: Utxo, id: Txid): int { if id in m then WorthFrom(m[id].vout, 0) else 0 }

  lemma ValueUpdate(m: Utxo, id: Txid, s: State)
    ensures TotalValue(m[id := s]) == TotalValue(m) - RecordWorth(m, id) + WorthFrom(s.vout, 0)
  {
    hide WorthFrom, SumOver;
    assert Worths(m[id := s]) == Worths(m)[id := WorthFrom(s.vout, 0)];
    SumUpdate(Worths(m), id, WorthFrom(s.vout, 0));
  }

  // --- One output is spent --------------------------------------------------------------------

  lemma {:induction false} WorthSame(a: seq<TxOut>, b: seq<TxOut>, k: nat)
    requires |a| <= |b| && forall j: nat | k <= j < |b| :: Worth(a, j) == Worth(b, j)
    ensures WorthFrom(a, k) == WorthFrom(b, k)
    decreases |b| - k
  {
    if k < |b| { WorthSame(a, b, k + 1); }
  }

  lemma {:induction false} WorthUpdate(vout: seq<TxOut>, n: nat, k: nat)
    requires k <= n < |vout|
    ensures WorthFrom(vout[n := Null], k) == WorthFrom(vout, k) - Worth(vout, n)
    decreases n - k
  {
    var w := vout[n := Null];
    if k == n {
      assert !Avail(w, n);
      forall j: nat | k + 1 <= j < |vout| ensures Worth(w, j) == Worth(vout, j) {
        assert w[j] == vout[j];
      }
      WorthSame(w, vout, k + 1);
    } else {
      assert w[k] == vout[k];
      WorthUpdate(vout, n, k + 1);
    }
  }

  lemma TrimmedWorth(vout: seq<TxOut>)
    ensures WorthFrom(Trimmed(vout), 0) == WorthFrom(vout, 0)
  {
    TrimmedAvail(vout);
    var t := Trimmed(vout);
    forall j: nat | j < |vout| ensures Worth(t, j) == Worth(vout, j) {
      assert Avail(t, j) <==> Avail(vout, j);
    }
    WorthSame(t, vout, 0);
  }

  lemma SpendOneValue(m: Utxo, o: OutPoint)
    requires Unspent(m, o)
    ensures TotalValue(SpendOne(m, o)) == TotalValue(m) - m[o.hash].vout[o.n].nValue
  {
    hide TotalValue, WorthFrom;
    var vout := m[o.hash].vout;
    WorthUpdate(vout, o.n, 0);
    TrimmedWorth(vout[o.n := Null]);
    ValueUpdate(m, o.hash, m[o.hash].(vout := Spent(vout, o.n)));
  }

  lemma {:induction false} SpendAllValue(m: Utxo, vin: seq<OutPoint>, n: nat)
    requires n <= |vin| && Distinct(vin) && forall i :: 0 <= i < |vin| ==> Unspent(m, vin[i])
    ensures TotalValue(SpendAll(m, vin, n)) == TotalValue(m) - SumIn(m, vin, n)
    decreases n
  {
    hide TotalValue, Unspent, SpendOne, Distinct;
    if n > 0 {
      var o, before := vin[n - 1], SpendAll(m, vin, n - 1);
      SpendAllValue(m, vin, n - 1);
      NotYetSpent(m, vin, n - 1);
      SpendAllOutput(m, vin, n - 1, o);
      SpendOneValue(before, o);
    }
  }

  lemma NotYetSpent(m: Utxo, vin: seq<OutPoint>, n: nat)
    requires n < |vin| && Distinct(vin) && forall i :: 0 <= i < |vin| ==> Unspent(m, vin[i])
    ensures Unspent(SpendAll(m, vin, n), vin[n])
  {
    hide Unspent;
    SpendAllUnspent(m, vin, n, vin[n]);
  }

  // --- A new record ---------------------------------------------------------------------------

  lemma {:induction false} OutputsSplit(vout: seq<TxOut>, k: nat)
    requires k <= |vout|
    ensures WorthFrom(Blanked(vout), k) + Unoffered(vout, k) == SumOut(vout) - SumOut(vout[..k])
    decreases |vout| - k
  {
    if k < |vout| {
      OutputsSplit(vout, k + 1);
      SumOutSnoc(vout, k);
    } else {
      assert vout[..k] == vout;
    }
  }

  lemma SumOutSnoc(vout: seq<TxOut>, k: nat)
    requires k < |vout|
    ensures SumOut(vout[..k + 1]) == SumOut(vout[..k]) + vout[k].nValue
  {
    assert vout[..k + 1][..k] == vout[..k];
  }

  lemma CreatedWorth(tx: Tx, nHeight: int)
    ensures WorthFrom(Created(tx, nHeight).vout, 0) + Unoffered(tx.vout, 0) == SumOut(tx.vout)
  {
    TrimmedWorth(Blanked(tx.vout));
    OutputsSplit(tx.vout, 0);
    assert tx.vout[..0] == [];
  }

  // --- Conservation ---------------------------------------------------------------------------

  /** What a transaction destroys: outputs no record offers, and a record of its id that it replaces. */
  function Destroyed(m: Utxo, tx: Tx): int {
    Unoffered(tx.vout, 0) + RecordWorth(SpendAll(m, tx.vin, |tx.vin|), tx.id)
  }

  /** A transaction moves value: what the table loses is the fee and what it destroys. */
  lemma ValueConserved(m: Utxo, tx: Tx, nHeight: int)
    requires Accepts(m, tx)
    ensures TotalValue(Applied(m, tx, nHeight)) + Fee(m, tx) + Destroyed(m, tx) == TotalValue(m)
  {
    hide TotalValue, WorthFrom, SpendAll, Unspent, Distinct, Created, SumIn, SumOut;
    var spent := SpendAll(m, tx.vin, |tx.vin|);
    SpendAllValue(m, tx.vin, |tx.vin|);
    ValueUpdate(spent, tx.id, Created(tx, nHeight));
    CreatedWorth(tx, nHeight);
  }

  /** With a new id only outputs that nobody can spend are lost. */
  lemma NewIdDestroys(m: Utxo, tx: Tx)
    requires tx.id !in m
    ensures Destroyed(m, tx) == Unoffered(tx.vout, 0)
  {
    SpendAllKeys(m, tx.vin, |tx.vin|);
  }

  function DestroyedBy(m: Utxo, txs: seq<Tx>, nHeight: int): int {
    if txs == [] then 0
    else
      var n := |txs| - 1;
      DestroyedBy(m, txs[..n], nHeight) + Destroyed(After(m, txs[..n], nHeight), txs[n])
  }

  /** Over a run, the fees are exactly what the table loses and was not destroyed. */
  lemma {:induction false} RunConserves(m: Utxo, txs: seq<Tx>, fees: seq<int>, nHeight: int)
    requires ValidRun(m, txs, nHeight) && |fees| == |txs|
    requires forall k :: 0 <= k < |txs| ==> Accepts(After(m, txs[..k], nHeight), txs[k]) && fees[k] == Fee(After(m, txs[..k], nHeight), txs[k])
    ensures TotalValue(After(m, txs, nHeight)) + Sum(fees) + DestroyedBy(m, txs, nHeight) == TotalValue(m)
    decreases |txs|
  {
    hide TotalValue, Accepts, Fee, Destroyed, Applied;
    if txs != [] {
      var n := |txs| - 1;
      var front := txs[..n];
      forall k | 0 <= k < n ensures front[..k] == txs[..k] && front[k] == txs[k] {
      }
      RunConserves(m, front, fees[..n], nHeight);
      ValueConserved(After(m, front, nHeight), txs[n], nHeight);
    }
  }
}
