/** The turns of the selection loop (src/miner.cpp:259-342): which entry comes up, under which order,
    and what keeps a transaction out of the block. */
module MinerTurns {
  import opened Ledger
  import opened MinerSpec

  datatype Limits = Limits(nBlockMaxSize: nat, nBlockMinSize: nat, nBlockPrioritySize: nat, nMinRelayTxFee: int)

  /** One turn: the entry that came up, how many transactions were in the block, and whether the
      queue was sorted by fee. */
  datatype Turn = Turn(entry: Entry, taken: nat, byFee: bool)

  // src/main.h:332-337
  predicate AllowFree(dPriority: real) { dPriority > (COIN * 144 / 250) as real }

  /** One coin that is a day old, in a transaction of 250 bytes, is the most that does not go free. */
  lemma FreeAbove(dPriority: real)
    ensures AllowFree(dPriority) <==> dPriority > 57600.0
    ensures 57600.0 == COIN as real * 144.0 / 250.0
  {
  }

  /** The transaction can go into a block of this size with this many signature operations, over the
      outputs `m`. */
  predicate Passes(m: Utxo, rules: Rules, limits: Limits, nBlockSize: nat, nBlockSigOps: nat, t: Turn) {
    var tx := t.entry.tx;
    && nBlockSize + tx.size < limits.nBlockMaxSize
    && (t.byFee && t.entry.dFeePerKb < limits.nMinRelayTxFee as real ==> nBlockSize + tx.size < limits.nBlockMinSize)
    && Accepts(m, tx)
    && nBlockSigOps + tx.sigOps + ScriptOps(m, rules, tx, |tx.vin|) < MAX_BLOCK_SIGOPS
    && rules.verdict(tx, Spends(m, tx))
  }

  /** A turn that changes over to the order by fee: the transaction passes the first limits, and the
      room for high priorities is used up or its priority is not high. */
  predicate Switches(limits: Limits, nBlockSize: nat, nBlockSigOps: nat, t: Turn) {
    var tx := t.entry.tx;
    && nBlockSize + tx.size < limits.nBlockMaxSize && nBlockSigOps + tx.sigOps < MAX_BLOCK_SIGOPS
    && (nBlockSize + tx.size >= limits.nBlockPrioritySize || !AllowFree(t.entry.dPriority))
  }

  /** No reason to prefer `b` to `a`. */
  predicate AtLeast(byFee: bool, a: Entry, b: Entry) {
    if byFee then a.dFeePerKb > b.dFeePerKb || (a.dFeePerKb == b.dFeePerKb && a.dPriority >= b.dPriority)
    else a.dPriority > b.dPriority || (a.dPriority == b.dPriority && a.dFeePerKb >= b.dFeePerKb)
  }

  function SizeAt(txs: seq<Tx>, k: nat): nat
    requires k <= |txs|
  {
    1000 + Sizes(txs[..k])
  }

  function OpsAt(ops: seq<nat>, k: nat): nat
    requires k <= |ops|
  {
    100 + Total(ops[..k])
  }

  /** The block before and after a turn: the transaction is in it exactly when it passes. */
  ghost predicate TurnAt(m: Utxo, rules: Rules, limits: Limits, nHeight: int, txs: seq<Tx>, ops: seq<nat>, t: Turn, next: nat) {
    && t.taken <= |txs| == |ops|
    && if Passes(After(m, txs[..t.taken], nHeight), rules, limits, SizeAt(txs, t.taken), OpsAt(ops, t.taken), t)
       then t.taken < |txs| && txs[t.taken] == t.entry.tx && next == t.taken + 1
       else next == t.taken
  }

  function Taken(turns: seq<Turn>, i: nat, n: nat): nat { if i < |turns| then turns[i].taken else n }

  /** The turns account for the whole block. */
  ghost predicate Turned(m: Utxo, rules: Rules, limits: Limits, nHeight: int, txs: seq<Tx>, ops: seq<nat>, turns: seq<Turn>) {
    && Taken(turns, 0, |txs|) == 0 && |ops| == |txs|
    && forall i: nat | i < |turns| :: TurnAt(m, rules, limits, nHeight, txs, ops, turns[i], Taken(turns, i + 1, |txs|))
  }

  ghost predicate SwitchedBefore(limits: Limits, txs: seq<Tx>, ops: seq<nat>, turns: seq<Turn>, i: nat)
    requires |ops| == |txs| && forall h: nat | h < |turns| :: turns[h].taken <= |txs|
  {
    || limits.nBlockPrioritySize == 0
    || exists h: nat :: h < i && h < |turns| && Switches(limits, SizeAt(txs, turns[h].taken), OpsAt(ops, turns[h].taken), turns[h])
  }

  ghost predicate Within(txs: seq<Tx>, ops: seq<nat>, turns: seq<Turn>) {
    |ops| == |txs| && forall h: nat | h < |turns| :: turns[h].taken <= |txs|
  }

  /** Every turn is sorted by fee exactly when an earlier one changed over, or from the start if no
      room is kept for high priorities. */
  ghost predicate Modes(limits: Limits, txs: seq<Tx>, ops: seq<nat>, turns: seq<Turn>) {
    && Within(txs, ops, turns)
    && forall i: nat | i < |turns| :: turns[i].byFee <==> SwitchedBefore(limits, txs, ops, turns, i)
  }

  /** An entry can come up once all its parents in the pool are in the block. */
  predicate Open(m: Utxo, txs: seq<Tx>, k: nat, e: Entry) {
    k <= |txs| && Missing(m, e.tx) <= BlockIds(txs[..k])
  }

  /** Whatever comes up could, and was preferred to everything else that could and came later. */
  ghost predicate Ordered(m: Utxo, txs: seq<Tx>, turns: seq<Turn>) {
    && (forall i: nat | i < |turns| :: Open(m, txs, turns[i].taken, turns[i].entry))
    && (forall i: nat, j: nat | i < j < |turns| && Open(m, txs, turns[i].taken, turns[j].entry) ::
          AtLeast(turns[i].byFee, turns[i].entry, turns[j].entry))
  }

  /** The same towards the entries that are still on the queue. */
  ghost predicate Preferred(m: Utxo, txs: seq<Tx>, turns: seq<Turn>, queue: seq<Entry>) {
    && (forall k: nat | k < |queue| :: Open(m, txs, |txs|, queue[k]))
    && (forall i: nat, k: nat | i < |turns| && k < |queue| && Open(m, txs, turns[i].taken, queue[k]) ::
          AtLeast(turns[i].byFee, turns[i].entry, queue[k]))
  }

  // --- The account grows ----------------------------------------------------------------------

  lemma PrefixSame(txs: seq<Tx>, ops: seq<nat>, tx: Tx, op: nat, k: nat)
    requires k <= |txs| == |ops|
    ensures (txs + [tx])[..k] == txs[..k] && (ops + [op])[..k] == ops[..k]
    ensures SizeAt(txs + [tx], k) == SizeAt(txs, k) && OpsAt(ops + [op], k) == OpsAt(ops, k)
  {
  }

  lemma TurnAtMore(m: Utxo, rules: Rules, limits: Limits, nHeight: int, txs: seq<Tx>, ops: seq<nat>, t: Turn, next: nat, tx: Tx, op: nat)
    requires TurnAt(m, rules, limits, nHeight, txs, ops, t, next)
    ensures TurnAt(m, rules, limits, nHeight, txs + [tx], ops + [op], t, next)
  {
    hide Passes, After, SizeAt, OpsAt;
    PrefixSame(txs, ops, tx, op, t.taken);
  }

  lemma TurnedNone(m: Utxo, rules: Rules, limits: Limits, nHeight: int)
    ensures Turned(m, rules, limits, nHeight, [], [], []) && Within([], [], []) && Modes(limits, [], [], [])
    ensures Ordered(m, [], [])
  {
  }

  /** A turn whose transaction does not pass. */
  lemma TurnSkips(m: Utxo, rules: Rules, limits: Limits, nHeight: int, txs: seq<Tx>, ops: seq<nat>, turns: seq<Turn>, t: Turn)
    requires Turned(m, rules, limits, nHeight, txs, ops, turns) && t.taken == |txs|
    requires !Passes(After(m, txs, nHeight), rules, limits, 1000 + Sizes(txs), 100 + Total(ops), t)
    ensures Turned(m, rules, limits, nHeight, txs, ops, turns + [t])
  {
    hide Passes, After, TurnAt;
    var all := turns + [t];
    assert txs[..|txs|] == txs && ops[..|ops|] == ops;
    assert TurnAt(m, rules, limits, nHeight, txs, ops, t, |txs|) by { LastSkips(m, rules, limits, nHeight, txs, ops, t); }
    forall i: nat | i < |all|
      ensures TurnAt(m, rules, limits, nHeight, txs, ops, all[i], Taken(all, i + 1, |txs|))
    {
      if i < |turns| { assert Taken(all, i + 1, |txs|) == Taken(turns, i + 1, |txs|); }
    }
  }

  lemma LastSkips(m: Utxo, rules: Rules, limits: Limits, nHeight: int, txs: seq<Tx>, ops: seq<nat>, t: Turn)
    requires |ops| == |txs| == t.taken
    requires !Passes(After(m, txs, nHeight), rules, limits, 1000 + Sizes(txs), 100 + Total(ops), t)
    ensures TurnAt(m, rules, limits, nHeight, txs, ops, t, |txs|)
  {
    hide Passes, After;
    assert txs[..|txs|] == txs && ops[..|ops|] == ops;
  }

  /** A turn whose transaction passes. */
  lemma TurnAdds(m: Utxo, rules: Rules, limits: Limits, nHeight: int, txs: seq<Tx>, ops: seq<nat>, turns: seq<Turn>, t: Turn, op: nat)
    requires Turned(m, rules, limits, nHeight, txs, ops, turns) && t.taken == |txs|
    requires Passes(After(m, txs, nHeight), rules, limits, 1000 + Sizes(txs), 100 + Total(ops), t)
    ensures Turned(m, rules, limits, nHeight, txs + [t.entry.tx], ops + [op], turns + [t])
  {
    hide Passes, After, TurnAt;
    var all, tx := turns + [t], t.entry.tx;
    LastAdds(m, rules, limits, nHeight, txs, ops, t, op);
    forall i: nat | i < |all|
      ensures TurnAt(m, rules, limits, nHeight, txs + [tx], ops + [op], all[i], Taken(all, i + 1, |txs| + 1))
    {
      if i < |turns| {
        assert Taken(all, i + 1, |txs| + 1) == Taken(turns, i + 1, |txs|);
        TurnAtMore(m, rules, limits, nHeight, txs, ops, turns[i], Taken(turns, i + 1, |txs|), tx, op);
      }
    }
  }

  lemma LastAdds(m: Utxo, rules: Rules, limits: Limits, nHeight: int, txs: seq<Tx>, ops: seq<nat>, t: Turn, op: nat)
    requires |ops| == |txs| == t.taken
    requires Passes(After(m, txs, nHeight), rules, limits, 1000 + Sizes(txs), 100 + Total(ops), t)
    ensures TurnAt(m, rules, limits, nHeight, txs + [t.entry.tx], ops + [op], t, |txs| + 1)
  {
    hide Passes, After;
    PrefixSame(txs, ops, t.entry.tx, op, |txs|);
    assert txs[..|txs|] == txs && ops[..|ops|] == ops;
  }

  lemma TurnedWithin(m: Utxo, rules: Rules, limits: Limits, nHeight: int, txs: seq<Tx>, ops: seq<nat>, turns: seq<Turn>)
    requires Turned(m, rules, limits, nHeight, txs, ops, turns)
    ensures Within(txs, ops, turns)
  {
    forall h: nat | h < |turns| ensures turns[h].taken <= |txs| {
      assert TurnAt(m, rules, limits, nHeight, txs, ops, turns[h], Taken(turns, h + 1, |txs|));
    }
  }

  // --- The order it was sorted by -------------------------------------------------------------

  /** After a turn the queue is sorted by fee if it was or if the turn changes over. */
  lemma SwitchedNext(limits: Limits, txs: seq<Tx>, ops: seq<nat>, turns: seq<Turn>, t: Turn)
    requires Within(txs, ops, turns) && t.taken == |txs|
    ensures Within(txs, ops, turns + [t])
    ensures SwitchedBefore(limits, txs, ops, turns + [t], |turns| + 1)
       <==> SwitchedBefore(limits, txs, ops, turns, |turns|) || Switches(limits, 1000 + Sizes(txs), 100 + Total(ops), t)
    ensures forall i: nat | i <= |turns| :: SwitchedBefore(limits, txs, ops, turns + [t], i) <==> SwitchedBefore(limits, txs, ops, turns, i)
  {
    hide Switches;
    var all := turns + [t];
    assert txs[..|txs|] == txs && ops[..|ops|] == ops;
    assert all[|turns|] == t;
    forall i: nat | i <= |turns|
      ensures SwitchedBefore(limits, txs, ops, all, i) <==> SwitchedBefore(limits, txs, ops, turns, i)
    {
      forall h: nat | h < |turns| ensures all[h] == turns[h] {
      }
    }
  }

  lemma ModesNext(limits: Limits, txs: seq<Tx>, ops: seq<nat>, turns: seq<Turn>, t: Turn)
    requires Modes(limits, txs, ops, turns) && t.taken == |txs|
    requires t.byFee <==> SwitchedBefore(limits, txs, ops, turns, |turns|)
    ensures Modes(limits, txs, ops, turns + [t])
  {
    SwitchedNext(limits, txs, ops, turns, t);
    hide SwitchedBefore;
    var all := turns + [t];
    forall i: nat | i < |all|
      ensures all[i].byFee <==> SwitchedBefore(limits, txs, ops, all, i)
    {
      if i < |turns| { assert all[i] == turns[i]; }
    }
  }

  lemma SwitchedMore(limits: Limits, txs: seq<Tx>, ops: seq<nat>, turns: seq<Turn>, tx: Tx, op: nat, i: nat)
    requires Within(txs, ops, turns)
    ensures Within(txs + [tx], ops + [op], turns)
    ensures SwitchedBefore(limits, txs + [tx], ops + [op], turns, i) <==> SwitchedBefore(limits, txs, ops, turns, i)
  {
    hide Switches, SizeAt, OpsAt;
    forall h: nat | h < |turns|
      ensures SizeAt(txs + [tx], turns[h].taken) == SizeAt(txs, turns[h].taken)
      ensures OpsAt(ops + [op], turns[h].taken) == OpsAt(ops, turns[h].taken)
    {
      PrefixSame(txs, ops, tx, op, turns[h].taken);
    }
  }

  lemma ModesMore(limits: Limits, txs: seq<Tx>, ops: seq<nat>, turns: seq<Turn>, tx: Tx, op: nat)
    requires Modes(limits, txs, ops, turns)
    ensures Modes(limits, txs + [tx], ops + [op], turns)
  {
    hide SwitchedBefore;
    SwitchedMore(limits, txs, ops, turns, tx, op, 0);
    forall i: nat | i < |turns|
      ensures turns[i].byFee <==> SwitchedBefore(limits, txs + [tx], ops + [op], turns, i)
    {
      SwitchedMore(limits, txs, ops, turns, tx, op, i);
    }
  }

  // --- The order entries come up in -----------------------------------------------------------

  /** The entry taken off the queue is preferred to the rest of it. */
  lemma OrderedPop(m: Utxo, txs: seq<Tx>, turns: seq<Turn>, queue: seq<Entry>, k: nat, t: Turn)
    requires Ordered(m, txs, turns) && Preferred(m, txs, turns, queue) && k < |queue|
    requires t.entry == queue[k] && t.taken == |txs|
    requires forall j: nat | j < |queue| :: AtLeast(t.byFee, queue[k], queue[j])
    ensures Ordered(m, txs, turns + [t]) && Preferred(m, txs, turns + [t], Without(queue, k))
  {
    hide Open, AtLeast;
    var all, rest := turns + [t], Without(queue, k);
    forall j: nat | j < |rest|
      ensures rest[j] == queue[if j < k then j else j + 1]
    {
    }
    forall i: nat, j: nat | i < j < |all| && Open(m, txs, all[i].taken, all[j].entry)
      ensures AtLeast(all[i].byFee, all[i].entry, all[j].entry)
    {
      if j == |turns| { assert all[j].entry == queue[k]; }
    }
    forall i: nat, j: nat | i < |all| && j < |rest| && Open(m, txs, all[i].taken, rest[j])
      ensures AtLeast(all[i].byFee, all[i].entry, rest[j])
    {
      var j' := if j < k then j else j + 1;
      assert rest[j] == queue[j'];
      if i == |turns| { assert AtLeast(t.byFee, queue[k], queue[j']); }
    }
  }

  lemma OpenSame(m: Utxo, txs: seq<Tx>, tx: Tx, k: nat, e: Entry)
    requires k <= |txs|
    ensures Open(m, txs + [tx], k, e) <==> Open(m, txs, k, e)
  {
    assert (txs + [tx])[..k] == txs[..k];
  }

  lemma OrderedMore(m: Utxo, txs: seq<Tx>, turns: seq<Turn>, tx: Tx)
    requires Ordered(m, txs, turns) && forall i: nat | i < |turns| :: turns[i].taken <= |txs|
    ensures Ordered(m, txs + [tx], turns)
  {
    hide Open, AtLeast;
    forall i: nat, j: nat | i < |turns| && j < |turns|
      ensures Open(m, txs + [tx], turns[i].taken, turns[j].entry) <==> Open(m, txs, turns[i].taken, turns[j].entry)
    {
      OpenSame(m, txs, tx, turns[i].taken, turns[j].entry);
    }
  }

  /** A transaction more in the block: what was open stays so, and what opens now was not open in any
      earlier turn. */
  lemma PreferredMore(m: Utxo, txs: seq<Tx>, turns: seq<Turn>, queue: seq<Entry>, tx: Tx, freed: seq<Entry>)
    requires Preferred(m, txs, turns, queue) && forall i: nat | i < |turns| :: turns[i].taken <= |txs|
    requires forall j: nat | j < |freed| :: Open(m, txs + [tx], |txs| + 1, freed[j]) && !Open(m, txs, |txs|, freed[j])
    ensures Preferred(m, txs + [tx], turns, queue + freed)
  {
    hide AtLeast;
    var more, all := txs + [tx], queue + freed;
    forall k: nat | k < |all|
      ensures Open(m, more, |more|, all[k])
    {
      if k < |queue| { StaysOpen(m, more, |txs|, |more|, queue[k]); OpenSame(m, txs, tx, |txs|, queue[k]); }
      else { assert all[k] == freed[k - |queue|]; }
    }
    forall i: nat, k: nat | i < |turns| && k < |all| && Open(m, more, turns[i].taken, all[k])
      ensures AtLeast(turns[i].byFee, turns[i].entry, all[k])
    {
      OpenSame(m, txs, tx, turns[i].taken, all[k]);
      if k >= |queue| {
        assert all[k] == freed[k - |queue|];
        StaysOpen(m, txs, turns[i].taken, |txs|, all[k]);
      }
    }
  }

  lemma StaysOpen(m: Utxo, txs: seq<Tx>, a: nat, b: nat, e: Entry)
    requires a <= b <= |txs| && Open(m, txs, a, e)
    ensures Open(m, txs, b, e)
  {
    hide Missing;
    forall id | id in BlockIds(txs[..a]) ensures id in BlockIds(txs[..b]) {
      var k :| 0 <= k < a && txs[..a][k].id == id;
      assert txs[..b][k].id == id;
    }
  }

  /** The order of the queue is the one the turns are compared by. */
  lemma ForemostAtLeast(byFee: bool, queue: seq<Entry>, k: nat)
    requires k < |queue| && forall j: nat | j < |queue| :: !Less(byFee, queue[k], queue[j])
    ensures forall j: nat | j < |queue| :: AtLeast(byFee, queue[k], queue[j])
  {
  }

  // --- The course of a selection --------------------------------------------------------------

  /** All that the loop keeps about its turns. */
  ghost predicate Course(m: Utxo, rules: Rules, limits: Limits, nHeight: int, txs: seq<Tx>, ops: seq<nat>,
                         turns: seq<Turn>, queue: seq<Entry>, byFee: bool) {
    && Turned(m, rules, limits, nHeight, txs, ops, turns) && Modes(limits, txs, ops, turns)
    && (byFee <==> SwitchedBefore(limits, txs, ops, turns, |turns|))
    && Ordered(m, txs, turns) && Preferred(m, txs, turns, queue)
  }

  lemma CourseStarts(m: Utxo, rules: Rules, limits: Limits, nHeight: int, queue: seq<Entry>, byFee: bool)
    requires byFee <==> limits.nBlockPrioritySize == 0
    requires forall k: nat | k < |queue| :: Missing(m, queue[k].tx) == {}
    ensures Course(m, rules, limits, nHeight, [], [], [], queue, byFee)
  {
    hide Missing;
    TurnedNone(m, rules, limits, nHeight);
  }

  lemma CourseSkips(m: Utxo, rules: Rules, limits: Limits, nHeight: int, txs: seq<Tx>, ops: seq<nat>,
                    turns: seq<Turn>, queue: seq<Entry>, byFee: bool, k: nat, after: bool)
    requires Course(m, rules, limits, nHeight, txs, ops, turns, queue, byFee) && k < |queue|
    requires forall j: nat | j < |queue| :: !Less(byFee, queue[k], queue[j])
    requires var t := Turn(queue[k], |txs|, byFee);
             && !Passes(After(m, txs, nHeight), rules, limits, 1000 + Sizes(txs), 100 + Total(ops), t)
             && (after <==> byFee || Switches(limits, 1000 + Sizes(txs), 100 + Total(ops), t))
    ensures Course(m, rules, limits, nHeight, txs, ops, turns + [Turn(queue[k], |txs|, byFee)], Without(queue, k), after)
  {
    hide Turned, Modes, SwitchedBefore, Ordered, Preferred, Passes, Switches, After, Less, AtLeast, Sizes, Total;
    var t := Turn(queue[k], |txs|, byFee);
    TurnedWithin(m, rules, limits, nHeight, txs, ops, turns);
    ForemostAtLeast(byFee, queue, k);
    TurnSkips(m, rules, limits, nHeight, txs, ops, turns, t);
    ModesNext(limits, txs, ops, turns, t);
    SwitchedNext(limits, txs, ops, turns, t);
    OrderedPop(m, txs, turns, queue, k, t);
  }

  lemma CourseAdds(m: Utxo, rules: Rules, limits: Limits, nHeight: int, txs: seq<Tx>, ops: seq<nat>,
                   turns: seq<Turn>, queue: seq<Entry>, byFee: bool, k: nat, after: bool, op: nat, freed: seq<Entry>)
    requires Course(m, rules, limits, nHeight, txs, ops, turns, queue, byFee) && k < |queue|
    requires forall j: nat | j < |queue| :: !Less(byFee, queue[k], queue[j])
    requires var t := Turn(queue[k], |txs|, byFee);
             && Passes(After(m, txs, nHeight), rules, limits, 1000 + Sizes(txs), 100 + Total(ops), t)
             && (after <==> byFee || Switches(limits, 1000 + Sizes(txs), 100 + Total(ops), t))
    requires forall j: nat | j < |freed| :: Open(m, txs + [queue[k].tx], |txs| + 1, freed[j]) && !Open(m, txs, |txs|, freed[j])
    ensures Course(m, rules, limits, nHeight, txs + [queue[k].tx], ops + [op], turns + [Turn(queue[k], |txs|, byFee)],
                   Without(queue, k) + freed, after)
  {
    hide Turned, Modes, SwitchedBefore, Ordered, Preferred, Passes, Switches, After, Less, AtLeast, Open, Sizes, Total;
    var t := Turn(queue[k], |txs|, byFee);
    TurnedWithin(m, rules, limits, nHeight, txs, ops, turns);
    ForemostAtLeast(byFee, queue, k);
    TurnAdds(m, rules, limits, nHeight, txs, ops, turns, t, op);
    ModesNext(limits, txs, ops, turns, t);
    SwitchedNext(limits, txs, ops, turns, t);
    OrderedPop(m, txs, turns, queue, k, t);
    var tx := queue[k].tx;
    ModesMore(limits, txs, ops, turns + [t], tx, op);
    SwitchedMore(limits, txs, ops, turns + [t], tx, op, |turns| + 1);
    OrderedMore(m, txs, turns + [t], tx);
    PreferredMore(m, txs, turns + [t], Without(queue, k), tx, freed);
  }

  /** Entries released with the transaction added open with it and not before. */
  lemma FreedOpen(m: Utxo, txs: seq<Tx>, tx: Tx, start: seq<Orphan>, r: seq<nat>)
    requires Freed(start, BlockIds(txs), tx.id, r)
    requires forall i: nat | i < |start| :: start[i].dependsOn == Missing(m, start[i].entry.tx)
    ensures forall j: nat | j < |r| :: r[j] < |start|
    ensures forall j: nat | j < |r| ::
              Open(m, txs + [tx], |txs| + 1, Entries(start, r)[j]) && !Open(m, txs, |txs|, Entries(start, r)[j])
  {
    hide Missing;
    var more := txs + [tx];
    assert more[..|txs| + 1] == more && txs[..|txs|] == txs;
    assert BlockIds(more) == BlockIds(txs) + {tx.id} by { MoreIds(txs, tx); }
    forall j: nat | j < |r|
      ensures r[j] < |start| && start[r[j]].dependsOn <= BlockIds(txs) + {tx.id} && !(start[r[j]].dependsOn <= BlockIds(txs))
    {
      assert r[j] in r;
    }
  }

  lemma MoreIds(txs: seq<Tx>, tx: Tx)
    ensures BlockIds(txs + [tx]) == BlockIds(txs) + {tx.id}
  {
    var all := txs + [tx];
    forall id ensures id in BlockIds(all) <==> id in BlockIds(txs) + {tx.id} {
      if id in BlockIds(txs) {
        var k :| 0 <= k < |txs| && txs[k].id == id;
        assert all[k].id == id;
      }
      if id == tx.id { assert all[|txs|].id == id; }
    }
  }
}
