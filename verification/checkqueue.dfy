/**
 The verification queue (src/checkqueue.h): one master and any number of workers share a
 stack of checks under a mutex. The first module is the shared object with its critical
 sections as methods; the second is the protocol of all threads as a state machine whose
 steps are those critical sections and the execution of single checks between them.
 */
module CheckQueue {

  /** A check, known by its number; whether it succeeds is a function of the number. */
  type Check = nat

  /** The fields that the mutex protects. */
  datatype Shared = Shared(queue: seq<Check>, nIdle: int, nTotal: int, fAllOk: bool, nTodo: int)

  /** How a critical section of `Loop` ends: asleep on a condition variable, out of the loop
      with a verdict, or with a batch to work on and the flag it starts from. */
  datatype Outcome = Sleep | Return(verdict: bool) | Work(batch: seq<Check>, fOk: bool)

  function Reversed(s: seq<Check>): seq<Check> {
    seq(|s|, i requires 0 <= i < |s| => s[|s| - 1 - i])
  }

  function Max(a: int, b: int): int { if a < b then b else a }

  function Min(a: int, b: int): int { if a < b then a else b }

  /** The size of the next batch (src/checkqueue.h:103). */
  function BatchSize(sh: Shared, nBatchSize: nat): int
    requires sh.nTotal + sh.nIdle + 1 > 0
  {
    Max(1, Min(nBatchSize, |sh.queue| / (sh.nTotal + sh.nIdle + 1)))
  }

  lemma BatchFits(sh: Shared, nBatchSize: nat)
    requires sh.nTotal + sh.nIdle + 1 > 0 && sh.queue != []
    ensures 1 <= BatchSize(sh, nBatchSize) <= |sh.queue|
  {
    DivisionShrinks(|sh.queue|, sh.nTotal + sh.nIdle + 1);
  }

  lemma DivisionShrinks(a: nat, b: int)
    requires b > 0
    ensures 0 <= a / b <= a
  {
    var q := a / b;
    assert a == b * q + a % b;
    if q > 0 { ProductGrows(q, b); }
  }

  lemma ProductGrows(q: int, b: int)
    requires q > 0 && b > 0
    ensures b * q >= q
  {
    assert b * q == (b - 1) * q + q;
  }

  /** First use of the lock in a run of the loop (src/checkqueue.h:79-82). */
  function Arrived(sh: Shared): Shared { sh.(nTotal := sh.nTotal + 1) }

  /** Clean-up after a batch (src/checkqueue.h:73-78). */
  function Settled(sh: Shared, nNow: nat, fOk: bool): Shared {
    sh.(fAllOk := sh.fAllOk && fOk, nTodo := sh.nTodo - nNow)
  }

  /** Back from the condition variable (src/checkqueue.h:96). */
  function Woken(sh: Shared): Shared { sh.(nIdle := sh.nIdle - 1) }

  /** From the head of the inner loop to the release of the mutex (src/checkqueue.h:84-113). */
  function Decide(sh: Shared, fMaster: bool, nBatchSize: nat): (Shared, Outcome)
    requires sh.nTotal + sh.nIdle + 1 > 0
  {
    if sh.queue == [] then
      if fMaster && sh.nTodo == 0 then
        (sh.(nTotal := sh.nTotal - 1, fAllOk := true), Return(sh.fAllOk))
      else (sh.(nIdle := sh.nIdle + 1), Sleep)
    else
      var n := BatchSize(sh, nBatchSize);
      BatchFits(sh, nBatchSize);
      var rest := |sh.queue| - n;
      (sh.(queue := sh.queue[..rest]), Work(Reversed(sh.queue[rest..]), sh.fAllOk))
  }

  class Queue {
    var queue: seq<Check>
    var nIdle: int
    var nTotal: int
    var fAllOk: bool
    var nTodo: int
    const nBatchSize: nat

    // src/checkqueue.h:124-125
    constructor (nBatchSizeIn: nat)
      ensures nBatchSize == nBatchSizeIn && Abs() == Shared([], 0, 0, true, 0)
    {
      queue, nIdle, nTotal, fAllOk, nTodo, nBatchSize := [], 0, 0, true, 0, nBatchSizeIn;
    }

    ghost function Abs(): Shared
      reads this
    {
      Shared(queue, nIdle, nTotal, fAllOk, nTodo)
    }

    /** Push the checks one by one; returns how many sleeping workers are notified, at most one
        or all of them (src/checkqueue.h:138-149). */
    method Add(vChecks: seq<Check>) returns (notifyOne: bool, notifyAll: bool)
      modifies this`queue, this`nTodo
      ensures Abs() == old(Abs()).(queue := old(queue) + vChecks, nTodo := old(nTodo) + |vChecks|)
      ensures notifyOne == (|vChecks| == 1) && notifyAll == (|vChecks| > 1)
    {
      var i := 0;
      while i < |vChecks|
        invariant i <= |vChecks| && queue == old(queue) + vChecks[..i] && nTodo == old(nTodo)
      {
        queue := queue + [vChecks[i]];
        i := i + 1;
      }
      assert vChecks[..i] == vChecks;
      nTodo := nTodo + |vChecks|;
      notifyOne, notifyAll := |vChecks| == 1, |vChecks| > 1;
    }

    method Arrive()
      modifies this`nTotal
      ensures Abs() == Arrived(old(Abs()))
    {
      nTotal := nTotal + 1;
    }

    /** Clean-up of the previous batch; reports whether the master must be notified. */
    method Settle(nNow: nat, fOk: bool, fMaster: bool) returns (notifyMaster: bool)
      modifies this`fAllOk, this`nTodo
      ensures Abs() == Settled(old(Abs()), nNow, fOk)
      ensures notifyMaster == (nTodo == 0 && !fMaster)
    {
      fAllOk := fAllOk && fOk;
      nTodo := nTodo - nNow;
      notifyMaster := nTodo == 0 && !fMaster;
    }

    method Wake()
      modifies this`nIdle
      ensures Abs() == Woken(old(Abs()))
    {
      nIdle := nIdle - 1;
    }

    // src/checkqueue.h:84-113
    method Section(fMaster: bool) returns (out: Outcome)
      requires nTotal + nIdle + 1 > 0
      modifies this`queue, this`nIdle, this`nTotal, this`fAllOk
      ensures (Abs(), out) == Decide(old(Abs()), fMaster, nBatchSize)
    {
      if queue == [] {
        if fMaster && nTodo == 0 {
          nTotal := nTotal - 1;
          var fRet := fAllOk;
          if fMaster { fAllOk := true; }
          return Return(fRet);
        }
        nIdle := nIdle + 1;
        return Sleep;
      }
      BatchFits(Abs(), nBatchSize);
      var nNow := Max(1, Min(nBatchSize, |queue| / (nTotal + nIdle + 1)));
      var vChecks := Take(nNow);
      out := Work(vChecks, fAllOk);
    }

    /** Pop `nNow` checks off the stack (src/checkqueue.h:104-110). */
    method Take(nNow: nat) returns (vChecks: seq<Check>)
      requires nNow <= |queue|
      modifies this`queue
      ensures queue == old(queue)[..|old(queue)| - nNow]
      ensures vChecks == Reversed(old(queue)[|old(queue)| - nNow..])
    {
      ghost var q := queue;
      vChecks := [];
      var i := 0;
      while i < nNow
        invariant 0 <= i <= nNow <= |q| && queue == q[..|q| - i]
        invariant |vChecks| == i && forall j | 0 <= j < i :: vChecks[j] == q[|q| - 1 - j]
      {
        vChecks := vChecks + [queue[|queue| - 1]];
        queue := queue[..|queue| - 1];
        i := i + 1;
      }
    }
  }
}
