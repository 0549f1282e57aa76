/** Transactions applied one after another to a table of unspent outputs (src/main.cpp:1934-1951). */
module Ledger {
  import opened FiniteSets
  import opened CoinsFormat
  import opened CoinsView

  type Utxo = map<Txid, State>

  datatype Tx = Tx(id: Txid, vin: seq<OutPoint>, vout: seq<TxOut>, nVersion: int, size: nat, sigOps: nat)

  predicate Unspent(m: Utxo, o: OutPoint) { o.hash in m && Avail(m[o.hash].vout, o.n) }

  function SpendOne(m: Utxo, o: OutPoint): Utxo {
    if o.hash in m && o.n < |m[o.hash].vout| then m[o.hash := m[o.hash].(vout := Spent(m[o.hash].vout, o.n))] else m
  }

  /** The first `n` inputs have been spent. */
  function SpendAll(m: Utxo, vin: seq<OutPoint>, n: nat): Utxo
    requires n <= |vin|
  {
    if n == 0 then m else SpendOne(SpendAll(m, vin, n - 1), vin[n - 1])
  }

  /** What spending an output leaves behind: the output, and the rest of its record if that is the
      last one (src/coins.cpp:30-45). */
  function UndoOf(m: Utxo, o: OutPoint): Undo
    requires Unspent(m, o)
  {
    var c := m[o.hash];
    if Spent(c.vout, o.n) == [] then Undo(c.vout[o.n], c.fCoinBase, c.nHeight, c.nVersion)
    else Undo(c.vout[o.n], false, 0, 0)
  }

  /** One record for each input, made when the inputs before it have been spent. */
  ghost predicate Undoes(m: Utxo, vin: seq<OutPoint>, undos: seq<Undo>) {
    && |undos| <= |vin|
    && forall i: nat | i < |undos| ::
         Unspent(SpendAll(m, vin, i), vin[i]) && undos[i] == UndoOf(SpendAll(m, vin, i), vin[i])
  }

  /** The record of a new transaction: its spendable outputs. */
  function Created(tx: Tx, nHeight: int): State {
    State(CoinBase(tx.vin), Trimmed(Blanked(tx.vout)), nHeight, tx.nVersion)
  }

  function Applied(m: Utxo, tx: Tx, nHeight: int): Utxo {
    SpendAll(m, tx.vin, |tx.vin|)[tx.id := Created(tx, nHeight)]
  }

  /** The record of a new transaction tells the block and the transaction it comes from; other
      records keep what they tell. */
  lemma RecordsTell(m: Utxo, tx: Tx, nHeight: int, id: Txid)
    ensures var r := Applied(m, tx, nHeight);
            && tx.id in r && r[tx.id].nHeight == nHeight && r[tx.id].nVersion == tx.nVersion
            && (r[tx.id].fCoinBase <==> |tx.vin| == 1 && tx.vin[0].IsNull())
            && (id in r && id != tx.id ==>
                  id in m && r[id].nHeight == m[id].nHeight && r[id].nVersion == m[id].nVersion && r[id].fCoinBase == m[id].fCoinBase)
  {
    SpendAllTells(m, tx.vin, |tx.vin|, id);
  }

  lemma {:induction false} SpendAllTells(m: Utxo, vin: seq<OutPoint>, n: nat, id: Txid)
    requires n <= |vin|
    ensures var r := SpendAll(m, vin, n);
            id in r ==> id in m && r[id].nHeight == m[id].nHeight && r[id].nVersion == m[id].nVersion && r[id].fCoinBase == m[id].fCoinBase
    decreases n
  {
    if n > 0 { SpendAllTells(m, vin, n - 1, id); }
  }

  /** All inputs can be spent, each once. */
  predicate Accepts(m: Utxo, tx: Tx) { Distinct(tx.vin) && forall i :: 0 <= i < |tx.vin| ==> Unspent(m, tx.vin[i]) }

  lemma SpendOneUnspent(m: Utxo, o: OutPoint, p: OutPoint)
    requires Unspent(m, o)
    ensures Unspent(SpendOne(m, o), p) <==> Unspent(m, p) && p != o
    ensures Unspent(SpendOne(m, o), p) && p.n < |m[p.hash].vout| ==> SpendOne(m, o)[p.hash].vout[p.n] == m[p.hash].vout[p.n]
  {
    SpentAvail(m[o.hash].vout, o.n);
  }

  /** Spending takes away exactly the outputs spent. */
  lemma {:induction false} SpendAllUnspent(m: Utxo, vin: seq<OutPoint>, n: nat, p: OutPoint)
    requires n <= |vin| && Distinct(vin) && forall i :: 0 <= i < |vin| ==> Unspent(m, vin[i])
    ensures Unspent(SpendAll(m, vin, n), p) <==> Unspent(m, p) && p !in vin[..n]
    decreases n
  {
    hide Unspent, SpendOne;
    if n > 0 {
      SpendAllUnspent(m, vin, n - 1, p);
      SpendAllUnspent(m, vin, n - 1, vin[n - 1]);
      SpendOneUnspent(SpendAll(m, vin, n - 1), vin[n - 1], p);
      assert vin[..n] == vin[..n - 1] + [vin[n - 1]];
    }
  }

  lemma {:induction false} SpendAllOutput(m: Utxo, vin: seq<OutPoint>, n: nat, p: OutPoint)
    requires n <= |vin| && Distinct(vin) && (forall i :: 0 <= i < |vin| ==> Unspent(m, vin[i])) && Unspent(SpendAll(m, vin, n), p)
    ensures Unspent(m, p) && SpendAll(m, vin, n)[p.hash].vout[p.n] == m[p.hash].vout[p.n]
    decreases n
  {
    hide SpendOne;
    if n > 0 {
      SpendAllUnspent(m, vin, n - 1, vin[n - 1]);
      SpendOneUnspent(SpendAll(m, vin, n - 1), vin[n - 1], p);
      SpendAllOutput(m, vin, n - 1, p);
    }
  }

  /** The undo records of a transaction hold exactly the outputs it spends, in order. */
  lemma UndoHolds(m: Utxo, tx: Tx, undos: seq<Undo>, i: nat)
    requires Accepts(m, tx) && Undoes(m, tx.vin, undos) && i < |undos|
    ensures Unspent(m, tx.vin[i]) && undos[i].txout == m[tx.vin[i].hash].vout[tx.vin[i].n]
  {
    SpendAllOutput(m, tx.vin, i, tx.vin[i]);
  }

  /** What is unspent after a transaction: its own outputs, and of the others those it did not use. */
  lemma AppliedUnspent(m: Utxo, tx: Tx, nHeight: int, p: OutPoint)
    requires Accepts(m, tx)
    ensures Unspent(Applied(m, tx, nHeight), p) <==>
            if p.hash == tx.id then Avail(Created(tx, nHeight).vout, p.n) else Unspent(m, p) && p !in tx.vin
  {
    hide SpendAll, Created;
    SpendAllUnspent(m, tx.vin, |tx.vin|, p);
    assert tx.vin[..|tx.vin|] == tx.vin;
  }

  // --- Runs -----------------------------------------------------------------------------------

  function After(m: Utxo, txs: seq<Tx>, nHeight: int): Utxo {
    if txs == [] then m else Applied(After(m, txs[..|txs| - 1], nHeight), txs[|txs| - 1], nHeight)
  }

  /** Each transaction finds its inputs unspent after all the earlier ones. */
  predicate ValidRun(m: Utxo, txs: seq<Tx>, nHeight: int) {
    forall k :: 0 <= k < |txs| ==> Accepts(After(m, txs[..k], nHeight), txs[k])
  }

  lemma AfterSnoc(m: Utxo, txs: seq<Tx>, tx: Tx, nHeight: int)
    ensures After(m, txs + [tx], nHeight) == Applied(After(m, txs, nHeight), tx, nHeight)
  {
    assert (txs + [tx])[..|txs|] == txs;
  }

  lemma ValidSnoc(m: Utxo, txs: seq<Tx>, tx: Tx, nHeight: int)
    requires ValidRun(m, txs, nHeight) && Accepts(After(m, txs, nHeight), tx)
    ensures ValidRun(m, txs + [tx], nHeight)
  {
    hide Accepts, After;
    var all := txs + [tx];
    forall k | 0 <= k < |all|
      ensures Accepts(After(m, all[..k], nHeight), all[k])
    {
      assert all[..k] == txs[..k];
      if k == |txs| { assert txs[..k] == txs; }
    }
  }

  lemma AfterStep(m: Utxo, txs: seq<Tx>, k: nat, nHeight: int)
    requires k < |txs|
    ensures After(m, txs[..k + 1], nHeight) == Applied(After(m, txs[..k], nHeight), txs[k], nHeight)
  {
    assert txs[..k + 1] == txs[..k] + [txs[k]];
    AfterSnoc(m, txs[..k], txs[k], nHeight);
  }

  predicate CreatedBetween(txs: seq<Tx>, id: Txid, i: nat, j: nat) {
    exists k :: i <= k < j && k < |txs| && txs[k].id == id
  }

  /** Transaction `k` offers the output, and nothing before `j` takes it or has its id. */
  ghost predicate OfferedAt(txs: seq<Tx>, nHeight: int, o: OutPoint, k: nat, j: nat)
    requires k < j <= |txs|
  {
    && txs[k].id == o.hash && Avail(Created(txs[k], nHeight).vout, o.n)
    && forall l | k < l < j :: txs[l].id != o.hash && o !in txs[l].vin
  }

  ghost predicate OfferedAgain(txs: seq<Tx>, nHeight: int, o: OutPoint, i: nat, j: nat)
    requires j <= |txs|
  {
    exists k: nat :: i <= k < j && OfferedAt(txs, nHeight, o, k, j)
  }

  /** An output that transaction `i` has spent is unspent before transaction `j` exactly when one
      from `i` on has its id and offers it again, and none after that spends it. */
  lemma {:induction false} UnspentAgainIff(m: Utxo, txs: seq<Tx>, nHeight: int, i: nat, j: nat, o: OutPoint)
    requires ValidRun(m, txs, nHeight) && i < j <= |txs| && o in txs[i].vin
    ensures Unspent(After(m, txs[..j], nHeight), o) <==> OfferedAgain(txs, nHeight, o, i, j)
    decreases j
  {
    hide Accepts, Unspent, Applied, Created, After;
    var k := j - 1;
    AfterStep(m, txs, k, nHeight);
    assert Accepts(After(m, txs[..k], nHeight), txs[k]);
    AppliedUnspent(After(m, txs[..k], nHeight), txs[k], nHeight, o);
    if txs[k].id == o.hash {
      OfferedLast(txs, nHeight, o, i, j);
    } else if i < k {
      UnspentAgainIff(m, txs, nHeight, i, k, o);
      OfferedBefore(txs, nHeight, o, i, j);
    }
  }

  lemma OfferedLast(txs: seq<Tx>, nHeight: int, o: OutPoint, i: nat, j: nat)
    requires i < j <= |txs| && txs[j - 1].id == o.hash
    ensures OfferedAgain(txs, nHeight, o, i, j) <==> Avail(Created(txs[j - 1], nHeight).vout, o.n)
  {
    hide Created;
    if Avail(Created(txs[j - 1], nHeight).vout, o.n) { assert OfferedAt(txs, nHeight, o, j - 1, j); }
  }

  lemma OfferedBefore(txs: seq<Tx>, nHeight: int, o: OutPoint, i: nat, j: nat)
    requires i < j - 1 && j <= |txs| && txs[j - 1].id != o.hash
    ensures OfferedAgain(txs, nHeight, o, i, j) <==> OfferedAgain(txs, nHeight, o, i, j - 1) && o !in txs[j - 1].vin
  {
    hide Created;
    if OfferedAgain(txs, nHeight, o, i, j) {
      var k: nat :| i <= k < j && OfferedAt(txs, nHeight, o, k, j);
      assert OfferedAt(txs, nHeight, o, k, j - 1);
    }
    if OfferedAgain(txs, nHeight, o, i, j - 1) && o !in txs[j - 1].vin {
      var k: nat :| i <= k < j - 1 && OfferedAt(txs, nHeight, o, k, j - 1);
      assert OfferedAt(txs, nHeight, o, k, j);
    }
  }

  /** An output that none before `j` spends is unspent then exactly when one of them offers it last,
      or none has its id and it was unspent at the start. */
  lemma {:induction false} UnspentFrom(m: Utxo, txs: seq<Tx>, nHeight: int, j: nat, o: OutPoint)
    requires ValidRun(m, txs, nHeight) && j <= |txs| && forall l | 0 <= l < j :: o !in txs[l].vin
    ensures Unspent(After(m, txs[..j], nHeight), o)
            <==> OfferedAgain(txs, nHeight, o, 0, j) || (Unspent(m, o) && !CreatedBetween(txs, o.hash, 0, j))
    decreases j
  {
    hide Accepts, Unspent, Applied, Created, After;
    if j == 0 {
      assert txs[..0] == [];
      NothingApplied(m, nHeight);
    } else {
      var k := j - 1;
      AfterStep(m, txs, k, nHeight);
      assert Accepts(After(m, txs[..k], nHeight), txs[k]);
      AppliedUnspent(After(m, txs[..k], nHeight), txs[k], nHeight, o);
      UnspentFrom(m, txs, nHeight, k, o);
      if txs[k].id == o.hash {
        OfferedLast(txs, nHeight, o, 0, j);
      } else if k > 0 {
        OfferedBefore(txs, nHeight, o, 0, j);
      }
    }
  }

  lemma NothingApplied(m: Utxo, nHeight: int)
    ensures After(m, [], nHeight) == m
  {
  }

  /** So two transactions can spend one output only if one between them offers it again. */
  lemma SpentTwice(m: Utxo, txs: seq<Tx>, nHeight: int, i: nat, j: nat, o: OutPoint)
    requires ValidRun(m, txs, nHeight) && i < j < |txs| && o in txs[i].vin && o in txs[j].vin
    ensures OfferedAgain(txs, nHeight, o, i, j) && CreatedBetween(txs, o.hash, i, j)
  {
    hide Unspent, Created;
    UnspentAgainIff(m, txs, nHeight, i, j, o);
    assert Accepts(After(m, txs[..j], nHeight), txs[j]);
    var n :| 0 <= n < |txs[j].vin| && txs[j].vin[n] == o;
  }

  /** An id is known only if it was known at the start or one of the transactions has it. */
  lemma {:induction false} KnownIds(m: Utxo, txs: seq<Tx>, nHeight: int, j: nat, id: Txid)
    requires j <= |txs| && id in After(m, txs[..j], nHeight)
    ensures id in m || CreatedBetween(txs, id, 0, j)
    decreases j
  {
    if j > 0 {
      AfterStep(m, txs, j - 1, nHeight);
      SpendAllKeys(After(m, txs[..j - 1], nHeight), txs[j - 1].vin, |txs[j - 1].vin|);
      if txs[j - 1].id != id { KnownIds(m, txs, nHeight, j - 1, id); }
    } else {
      assert txs[..0] == [];
    }
  }

  lemma {:induction false} SpendAllKeys(m: Utxo, vin: seq<OutPoint>, n: nat)
    requires n <= |vin|
    ensures SpendAll(m, vin, n).Keys == m.Keys
    decreases n
  {
    if n > 0 { SpendAllKeys(m, vin, n - 1); }
  }

  predicate NewIds(m: Utxo, txs: seq<Tx>) {
    && (forall i, j :: 0 <= i < j < |txs| ==> txs[i].id != txs[j].id)
    && (forall i :: 0 <= i < |txs| ==> txs[i].id !in m)
  }

  /** With ids that are new and all different, no output is spent twice. */
  lemma NeverSpentTwice(m: Utxo, txs: seq<Tx>, nHeight: int, i: nat, j: nat, o: OutPoint)
    requires ValidRun(m, txs, nHeight) && NewIds(m, txs) && i < j < |txs| && o in txs[i].vin
    ensures o !in txs[j].vin
  {
    hide Unspent;
    if o in txs[j].vin {
      SpentTwice(m, txs, nHeight, i, j, o);
      var k :| i <= k < j && k < |txs| && txs[k].id == o.hash;
      assert Accepts(After(m, txs[..i], nHeight), txs[i]);
      var n :| 0 <= n < |txs[i].vin| && txs[i].vin[n] == o;
      UnspentKnown(After(m, txs[..i], nHeight), o);
      KnownIds(m, txs, nHeight, i, o.hash);
    }
  }

  lemma UnspentKnown(m: Utxo, o: OutPoint)
    requires Unspent(m, o)
    ensures o.hash in m
  {
  }

  // --- Fees -----------------------------------------------------------------------------------

  function SumIn(m: Utxo, vin: seq<OutPoint>, n: nat): int
    requires n <= |vin| && forall i :: 0 <= i < |vin| ==> Unspent(m, vin[i])
  {
    if n == 0 then 0 else SumIn(m, vin, n - 1) + m[vin[n - 1].hash].vout[vin[n - 1].n].nValue
  }

  function SumOut(vout: seq<TxOut>): int {
    if vout == [] then 0 else SumOut(vout[..|vout| - 1]) + vout[|vout| - 1].nValue
  }

  function Fee(m: Utxo, tx: Tx): int
    requires Accepts(m, tx)
  {
    SumIn(m, tx.vin, |tx.vin|) - SumOut(tx.vout)
  }

  function Sum(v: seq<int>): int { if v == [] then 0 else Sum(v[..|v| - 1]) + v[|v| - 1] }

  lemma SumSnoc(v: seq<int>, x: int)
    ensures Sum(v + [x]) == Sum(v) + x
  {
    assert (v + [x])[..|v|] == v;
  }
}
