/**
 The protocol of the verification queue (src/checkqueue.h): any number of threads, thread 0
 the master, each step one critical section or the execution of one check outside the mutex.
 Threads on a condition variable may wake at any time, notified or not. The master never
 adds checks while it is inside `Wait`.
 */
module CheckQueueProtocol {
  import opened Common
  import opened FiniteSets
  import opened CheckQueue

  /** Where a thread is: outside the loop, holding the mutex, on its condition variable, or
      working through a batch of which the first `done` checks are dealt with. */
  datatype Phase = Out | Active | Asleep(notified: bool) | Busy(batch: seq<Check>, done: nat, fOk: bool)

  /** `round` is what was added since the last `Wait` returned, `runs` what was executed since
      then, in order; `seen` is everything ever added. */
  datatype State = State(sh: Shared, threads: seq<Phase>, round: set<Check>, runs: seq<Check>, seen: set<Check>)

  datatype Config = Config(ok: Check -> bool, nBatchSize: nat)

  datatype Step = Enter(t: nat) | Wake(t: nat) | Exec(t: nat) | Finish(t: nat) | Add(checks: seq<Check>, woken: set<nat>)

  // ---------------------------------------------------------------- the steps

  function Start(n: nat): State {
    State(Shared([], 0, 0, true, 0), seq(n + 1, _ => Out), {}, [], {})
  }

  function SetPhase(s: State, t: nat, p: Phase): State
    requires t < |s.threads|
  {
    s.(threads := s.threads[t := p])
  }

  /** The sleeping threads of `woken` are notified. */
  function Notify(threads: seq<Phase>, woken: set<nat>): seq<Phase> {
    seq(|threads|, t requires 0 <= t < |threads| =>
          if t in woken && threads[t].Asleep? then Asleep(true) else threads[t])
  }

  predicate Sleeper(threads: seq<Phase>, t: nat) {
    0 < t < |threads| && threads[t] == Asleep(false)
  }

  /** Which workers a call of `Add` may wake: none, one if there is one, or all. */
  ghost predicate WakesRight(threads: seq<Phase>, n: nat, woken: set<nat>) {
    && (forall t | t in woken :: Sleeper(threads, t))
    && (n == 0 ==> woken == {})
    && (n == 1 ==> |woken| <= 1 && ((exists t :: Sleeper(threads, t)) ==> woken != {}))
    && (n > 1 ==> forall t :: Sleeper(threads, t) ==> t in woken)
  }

  ghost predicate Enabled(s: State, step: Step) {
    match step
    case Enter(t) => t < |s.threads| && s.threads[t].Out?
    case Wake(t) => t < |s.threads| && s.threads[t].Asleep?
    case Exec(t) => t < |s.threads| && s.threads[t].Busy? && s.threads[t].done < |s.threads[t].batch|
    case Finish(t) => t < |s.threads| && s.threads[t].Busy? && s.threads[t].done == |s.threads[t].batch|
    case Add(checks, woken) =>
      && 0 < |s.threads| && s.threads[0].Out?
      && Distinct(checks) && (forall c | c in checks :: c !in s.seen)
      && WakesRight(s.threads, |checks|, woken)
  }

  function Entered(s: State, t: nat): State
    requires t < |s.threads|
  {
    SetPhase(s, t, Active).(sh := Arrived(s.sh))
  }

  function WokenUp(s: State, t: nat): State
    requires t < |s.threads|
  {
    SetPhase(s, t, Active).(sh := Woken(s.sh))
  }

  function Executed(c: Config, s: State, t: nat): State
    requires t < |s.threads| && s.threads[t].Busy? && s.threads[t].done < |s.threads[t].batch|
  {
    var p := s.threads[t];
    var x := p.batch[p.done];
    if p.fOk then SetPhase(s, t, Busy(p.batch, p.done + 1, c.ok(x))).(runs := s.runs + [x])
    else SetPhase(s, t, Busy(p.batch, p.done + 1, false))
  }

  function Cleaned(s: State, t: nat): State
    requires t < |s.threads| && s.threads[t].Busy?
  {
    var p := s.threads[t];
    var sh := Settled(s.sh, |p.batch|, p.fOk);
    var threads := s.threads[t := Active];
    s.(sh := sh, threads := if sh.nTodo == 0 && t != 0 then Notify(threads, {0}) else threads)
  }

  /** From the head of the inner loop to the release of the mutex. */
  function Concluded(c: Config, s: State, t: nat): (State, Option<bool>)
    requires t < |s.threads| && s.sh.nTotal + s.sh.nIdle + 1 > 0
  {
    var (sh, out) := Decide(s.sh, t == 0, c.nBatchSize);
    match out
    case Sleep => (SetPhase(s, t, Asleep(false)).(sh := sh), None)
    case Return(verdict) => (SetPhase(s, t, Out).(sh := sh, round := {}, runs := []), Some(verdict))
    case Work(batch, fOk) => (SetPhase(s, t, Busy(batch, 0, fOk)).(sh := sh), None)
  }

  function Added(s: State, checks: seq<Check>, woken: set<nat>): State {
    var more := Elements(checks);
    State(s.sh.(queue := s.sh.queue + checks, nTodo := s.sh.nTodo + |checks|),
          Notify(s.threads, woken), s.round + more, s.runs, s.seen + more)
  }

  ghost predicate Next(c: Config, s: State, step: Step, s': State, verdict: Option<bool>) {
    && Enabled(s, step)
    && match step
       case Enter(t) => Concludes(c, Entered(s, t), t, s', verdict)
       case Wake(t) => Concludes(c, WokenUp(s, t), t, s', verdict)
       case Finish(t) => Concludes(c, Cleaned(s, t), t, s', verdict)
       case Exec(t) => s' == Executed(c, s, t) && verdict == None
       case Add(checks, woken) => s' == Added(s, checks, woken) && verdict == None
  }

  ghost predicate Concludes(c: Config, s: State, t: nat, s': State, verdict: Option<bool>) {
    t < |s.threads| && s.sh.nTotal + s.sh.nIdle + 1 > 0 && (s', verdict) == Concluded(c, s, t)
  }

  // ---------------------------------------------------------------- the invariant

  function Sum(threads: seq<Phase>, f: Phase -> nat): nat {
    if threads == [] then 0 else Sum(threads[..|threads| - 1], f) + f(threads[|threads| - 1])
  }

  function BatchLen(p: Phase): nat { if p.Busy? then |p.batch| else 0 }

  function Inside(p: Phase): nat { if p.Out? then 0 else 1 }

  function Idle(p: Phase): nat { if p.Asleep? then 1 else 0 }

  function Working(p: Phase): nat { if p.Busy? || p.Active? then 1 else 0 }

  /** `nTodo` is the queue and all batches; `nTotal` and `nIdle` count threads. */
  ghost predicate Counts(s: State) {
    && s.sh.nTodo == |s.sh.queue| + Sum(s.threads, BatchLen)
    && s.sh.nTotal == Sum(s.threads, Inside)
    && s.sh.nIdle == Sum(s.threads, Idle)
  }

  predicate BatchOk(queue: seq<Check>, p: Phase) {
    p.Busy? ==>
      && 0 < |p.batch| && p.done <= |p.batch|
      && Distinct(p.batch)
      && forall x | x in p.batch :: x !in queue
  }

  /** The queue and the batches are lists without repetitions, apart from each other. */
  ghost predicate Apart(queue: seq<Check>, threads: seq<Phase>) {
    && Distinct(queue)
    && (forall t | 0 <= t < |threads| :: BatchOk(queue, threads[t]))
    && (forall t, u | 0 <= t < u < |threads| && threads[t].Busy? && threads[u].Busy? ::
          forall x | x in threads[t].batch :: x !in threads[u].batch)
  }

  predicate Holds(p: Phase, x: Check) { p.Busy? && x in p.batch }

  /** A check of this thread's batch that it has not dealt with yet. */
  predicate Pends(p: Phase, x: Check) { p.Busy? && p.done <= |p.batch| && x in p.batch[p.done..] }

  ghost predicate OfRound(s: State) {
    && (forall x | x in s.sh.queue :: x in s.round)
    && (forall t, x | 0 <= t < |s.threads| && Holds(s.threads[t], x) :: x in s.round)
    && s.round <= s.seen
    && (forall x | x in s.runs :: x in s.round)
  }

  /** No check has run twice, and none that still waits has run. */
  ghost predicate RunsOnce(s: State) {
    && Distinct(s.runs)
    && (forall x | x in s.sh.queue :: x !in s.runs)
    && (forall t, x | 0 <= t < |s.threads| && Pends(s.threads[t], x) :: x !in s.runs)
  }

  /** No flag is down. */
  ghost predicate AllGood(s: State) {
    s.sh.fAllOk && forall t | 0 <= t < |s.threads| && s.threads[t].Busy? :: s.threads[t].fOk
  }

  ghost predicate Waits(s: State, x: Check) {
    x in s.sh.queue || exists t :: 0 <= t < |s.threads| && Pends(s.threads[t], x)
  }

  /** A flag is down exactly when a check has failed; while all are up nothing was skipped. */
  ghost predicate Verdicts(c: Config, s: State) {
    && (!AllGood(s) ==> exists x :: x in s.runs && !c.ok(x))
    && (AllGood(s) ==> (forall x | x in s.runs :: c.ok(x)) && forall x | x in s.round :: x in s.runs || Waits(s, x))
  }

  /** A master asleep finds the queue empty, and un-notified it still has work to wait for. */
  ghost predicate MasterWaits(s: State) {
    && 0 < |s.threads|
    && (s.threads[0].Asleep? ==> s.sh.queue == [])
    && (s.threads[0] == Asleep(false) ==> s.sh.nTodo > 0)
  }

  predicate Awake(p: Phase) { p.Busy? || p.Active? || p == Asleep(true) }

  /** Work in the queue never meets a crew that is all asleep un-notified. */
  ghost predicate NoLostWakeup(s: State) {
    s.sh.queue != [] ==>
      || (exists t :: 0 <= t < |s.threads| && Awake(s.threads[t]))
      || (forall t | 0 <= t < |s.threads| :: s.threads[t].Out?)
  }

  ghost predicate Inv(c: Config, s: State) {
    Counts(s) && Apart(s.sh.queue, s.threads) && OfRound(s) && RunsOnce(s) && Verdicts(c, s)
    && MasterWaits(s) && NoLostWakeup(s)
  }

  // ---------------------------------------------------------------- sums over threads

  lemma {:induction false} SumUpdate(threads: seq<Phase>, f: Phase -> nat, t: nat, p: Phase)
    requires t < |threads|
    ensures Sum(threads[t := p], f) == Sum(threads, f) - f(threads[t]) + f(p)
    ensures Sum(threads, f) >= f(threads[t])
  {
    var n := |threads| - 1;
    if t == n {
      assert threads[t := p][..n] == threads[..n];
    } else {
      assert threads[t := p][..n] == threads[..n][t := p];
      SumUpdate(threads[..n], f, t, p);
    }
  }

  lemma {:induction false} SumSame(a: seq<Phase>, b: seq<Phase>, f: Phase -> nat)
    requires |a| == |b| && forall t | 0 <= t < |a| :: f(a[t]) == f(b[t])
    ensures Sum(a, f) == Sum(b, f)
  {
    if a != [] { SumSame(a[..|a| - 1], b[..|b| - 1], f); }
  }

  lemma {:induction false} SumZero(threads: seq<Phase>, f: Phase -> nat)
    ensures Sum(threads, f) == 0 <==> forall t | 0 <= t < |threads| :: f(threads[t]) == 0
  {
    if threads != [] { SumZero(threads[..|threads| - 1], f); }
  }

  lemma {:induction false} SumAdds(threads: seq<Phase>)
    ensures Sum(threads, Inside) == Sum(threads, Idle) + Sum(threads, Working)
  {
    if threads != [] { SumAdds(threads[..|threads| - 1]); }
  }

  lemma CountsUpdate(s: State, t: nat, p: Phase)
    requires t < |s.threads|
    ensures Sum(s.threads[t := p], BatchLen) == Sum(s.threads, BatchLen) - BatchLen(s.threads[t]) + BatchLen(p)
    ensures Sum(s.threads[t := p], Inside) == Sum(s.threads, Inside) - Inside(s.threads[t]) + Inside(p)
    ensures Sum(s.threads[t := p], Idle) == Sum(s.threads, Idle) - Idle(s.threads[t]) + Idle(p)
  {
    SumUpdate(s.threads, BatchLen, t, p);
    SumUpdate(s.threads, Inside, t, p);
    SumUpdate(s.threads, Idle, t, p);
  }

  lemma CountsNotify(threads: seq<Phase>, woken: set<nat>)
    ensures var n := Notify(threads, woken);
            && Sum(n, BatchLen) == Sum(threads, BatchLen)
            && Sum(n, Inside) == Sum(threads, Inside)
            && Sum(n, Idle) == Sum(threads, Idle)
  {
    var n := Notify(threads, woken);
    SumSame(n, threads, BatchLen);
    SumSame(n, threads, Inside);
    SumSame(n, threads, Idle);
  }

  // ---------------------------------------------------------------- taking the mutex

  /** A thread that holds no batch changes to another phase without a batch. */
  lemma IdlePhase(c: Config, s: State, t: nat, p: Phase, sh: Shared)
    requires t < |s.threads| && !s.threads[t].Busy? && !p.Busy?
    requires Apart(s.sh.queue, s.threads) && OfRound(s) && RunsOnce(s) && Verdicts(c, s)
    requires sh.queue == s.sh.queue && sh.fAllOk == s.sh.fAllOk
    ensures var s' := SetPhase(s, t, p).(sh := sh);
            Apart(sh.queue, s'.threads) && OfRound(s') && RunsOnce(s') && Verdicts(c, s')
  {
    var s' := SetPhase(s, t, p).(sh := sh);
    SameBusy(c, s, s');
  }

  /** Nothing but idle phases and counters differ. */
  lemma SameBusy(c: Config, s: State, s': State)
    requires |s'.threads| == |s.threads|
    requires forall t | 0 <= t < |s.threads| :: if s.threads[t].Busy? then s'.threads[t] == s.threads[t] else !s'.threads[t].Busy?
    requires s'.sh.queue == s.sh.queue && s'.sh.fAllOk == s.sh.fAllOk
    requires s'.round == s.round && s'.runs == s.runs && s'.seen == s.seen
    requires Apart(s.sh.queue, s.threads) && OfRound(s) && RunsOnce(s) && Verdicts(c, s)
    ensures Apart(s'.sh.queue, s'.threads) && OfRound(s') && RunsOnce(s') && Verdicts(c, s')
  {
    assert Apart(s'.sh.queue, s'.threads) && OfRound(s') && RunsOnce(s') by {
      hide Verdicts;
    }
    SameVerdicts(c, s, s');
  }

  lemma SameVerdicts(c: Config, s: State, s': State)
    requires |s'.threads| == |s.threads|
    requires forall t | 0 <= t < |s.threads| :: if s.threads[t].Busy? then s'.threads[t] == s.threads[t] else !s'.threads[t].Busy?
    requires s'.sh.queue == s.sh.queue && s'.sh.fAllOk == s.sh.fAllOk
    requires s'.round == s.round && s'.runs == s.runs
    requires Verdicts(c, s)
    ensures Verdicts(c, s')
  {
    assert AllGood(s') <==> AllGood(s);
    forall x ensures Waits(s, x) ==> Waits(s', x) {
      if x !in s.sh.queue && Waits(s, x) {
        var t :| 0 <= t < |s.threads| && Pends(s.threads[t], x);
        assert Pends(s'.threads[t], x);
      }
    }
  }

  lemma AwakeSuffices(s: State, t: nat)
    requires t < |s.threads| && Awake(s.threads[t])
    ensures NoLostWakeup(s)
  {
  }

  lemma EnterKeeps(c: Config, s: State, t: nat)
    requires Inv(c, s) && Enabled(s, Enter(t))
    ensures Inv(c, Entered(s, t))
  {
    hide Apart, OfRound, RunsOnce, Verdicts, NoLostWakeup, Sum;
    var s' := Entered(s, t);
    CountsUpdate(s, t, Active);
    IdlePhase(c, s, t, Active, Arrived(s.sh));
    AwakeSuffices(s', t);
  }

  lemma WakeKeeps(c: Config, s: State, t: nat)
    requires Inv(c, s) && Enabled(s, Wake(t))
    ensures Inv(c, WokenUp(s, t))
  {
    hide Apart, OfRound, RunsOnce, Verdicts, NoLostWakeup, Sum;
    var s' := WokenUp(s, t);
    CountsUpdate(s, t, Active);
    IdlePhase(c, s, t, Active, Woken(s.sh));
    AwakeSuffices(s', t);
  }

  // ---------------------------------------------------------------- executing a check

  lemma ExecApart(c: Config, s: State, t: nat)
    requires Apart(s.sh.queue, s.threads) && Enabled(s, Exec(t))
    ensures Apart(s.sh.queue, Executed(c, s, t).threads)
    ensures var p := s.threads[t];
            p.batch[p.done] !in p.batch[p.done + 1..] && p.batch[p.done..] == [p.batch[p.done]] + p.batch[p.done + 1..]
  {
    var p := s.threads[t];
    assert BatchOk(s.sh.queue, p);
    assert BatchOk(s.sh.queue, Executed(c, s, t).threads[t]);
  }

  lemma ExecOfRound(c: Config, s: State, t: nat)
    requires OfRound(s) && Enabled(s, Exec(t))
    ensures OfRound(Executed(c, s, t))
  {
    var p, s' := s.threads[t], Executed(c, s, t);
    assert Holds(p, p.batch[p.done]);
    forall u, x | 0 <= u < |s'.threads| && Holds(s'.threads[u], x) ensures x in s'.round {
      assert Holds(s.threads[u], x);
    }
  }

  lemma ExecRunsOnce(c: Config, s: State, t: nat)
    requires Apart(s.sh.queue, s.threads) && RunsOnce(s) && Enabled(s, Exec(t))
    ensures RunsOnce(Executed(c, s, t))
  {
    var p, s' := s.threads[t], Executed(c, s, t);
    var x := p.batch[p.done];
    ExecApart(c, s, t);
    assert Pends(p, x) && BatchOk(s.sh.queue, p);
    assert x !in s.runs;
    assert Distinct(s.runs + [x]);
    forall u, y | 0 <= u < |s'.threads| && Pends(s'.threads[u], y) ensures y !in s'.runs {
      assert Pends(s.threads[u], y);
      if u == t {
        assert y in p.batch[p.done + 1..];
      } else {
        assert y in s.threads[u].batch && x in p.batch;
      }
    }
  }

  lemma ExecVerdicts(c: Config, s: State, t: nat)
    requires Verdicts(c, s) && Enabled(s, Exec(t))
    requires SplitsNext(s.threads[t])
    ensures Verdicts(c, Executed(c, s, t))
  {
    var p, s' := s.threads[t], Executed(c, s, t);
    var x := p.batch[p.done];
    if !AllGood(s') {
      if AllGood(s) {
        assert p.fOk && !c.ok(x) by { ExecFlag(c, s, t); }
        assert x in s'.runs;
      } else {
        var y :| y in s.runs && !c.ok(y);
        assert y in s'.runs;
      }
    } else {
      assert AllGood(s) && p.fOk && c.ok(x) by { ExecFlag(c, s, t); }
      forall y | y in s'.round ensures y in s'.runs || Waits(s', y) {
        if y !in s.runs && y !in s.sh.queue {
          var u :| 0 <= u < |s.threads| && Pends(s.threads[u], y);
          if u == t && y == x {
            assert y in s'.runs;
          } else {
            assert Pends(s'.threads[u], y);
          }
        }
      }
    }
  }

  /** The checks not dealt with are the next one and those after it. */
  predicate SplitsNext(p: Phase) {
    p.Busy? && p.done < |p.batch| ==> p.batch[p.done..] == [p.batch[p.done]] + p.batch[p.done + 1..]
  }

  lemma ExecFlag(c: Config, s: State, t: nat)
    requires Enabled(s, Exec(t))
    ensures var p := s.threads[t];
            AllGood(Executed(c, s, t)) <==> AllGood(s) && c.ok(p.batch[p.done])
  {
    var p, s' := s.threads[t], Executed(c, s, t);
    if AllGood(s) {
      assert p.fOk;
      if c.ok(p.batch[p.done]) {
        forall u | 0 <= u < |s'.threads| && s'.threads[u].Busy? ensures s'.threads[u].fOk {
          if u != t { assert s'.threads[u] == s.threads[u]; }
        }
      } else {
        assert s'.threads[t].Busy? && !s'.threads[t].fOk;
      }
    }
    if AllGood(s') {
      assert s'.threads[t].fOk;
      forall u | 0 <= u < |s.threads| && s.threads[u].Busy? ensures s.threads[u].fOk {
        if u != t { assert s'.threads[u] == s.threads[u]; }
      }
    }
  }

  lemma ExecKeeps(c: Config, s: State, t: nat)
    requires Inv(c, s) && Enabled(s, Exec(t))
    ensures Inv(c, Executed(c, s, t))
  {
    hide Apart, OfRound, RunsOnce, Verdicts, NoLostWakeup, Sum;
    var p, s' := s.threads[t], Executed(c, s, t);
    ExecApart(c, s, t);
    ExecOfRound(c, s, t);
    ExecRunsOnce(c, s, t);
    ExecVerdicts(c, s, t);
    CountsUpdate(s, t, s'.threads[t]);
    AwakeSuffices(s', t);
  }

  // ---------------------------------------------------------------- cleaning up a batch

  lemma CleanBasics(s: State, t: nat)
    requires Apart(s.sh.queue, s.threads) && OfRound(s) && RunsOnce(s) && Enabled(s, Finish(t))
    ensures var s' := SetPhase(s, t, Active).(sh := Settled(s.sh, |s.threads[t].batch|, s.threads[t].fOk));
            Apart(s'.sh.queue, s'.threads) && OfRound(s') && RunsOnce(s')
  {
  }

  lemma CleanVerdicts(c: Config, s: State, t: nat)
    requires Verdicts(c, s) && Enabled(s, Finish(t))
    ensures Verdicts(c, SetPhase(s, t, Active).(sh := Settled(s.sh, |s.threads[t].batch|, s.threads[t].fOk)))
  {
    var p := s.threads[t];
    var s' := SetPhase(s, t, Active).(sh := Settled(s.sh, |p.batch|, p.fOk));
    assert AllGood(s') <==> AllGood(s) by {
      if AllGood(s') {
        forall u | 0 <= u < |s.threads| && s.threads[u].Busy? ensures s.threads[u].fOk {
          if u != t { assert s'.threads[u] == s.threads[u]; }
        }
      }
    }
    forall y | Waits(s, y) ensures Waits(s', y) {
      if y !in s.sh.queue {
        var u :| 0 <= u < |s.threads| && Pends(s.threads[u], y);
        assert u != t;
        assert Pends(s'.threads[u], y);
      }
    }
  }

  lemma CleanKeeps(c: Config, s: State, t: nat)
    requires Inv(c, s) && Enabled(s, Finish(t))
    ensures Inv(c, Cleaned(s, t))
  {
    hide Apart, OfRound, RunsOnce, Verdicts, NoLostWakeup, Sum;
    var p := s.threads[t];
    var s1 := SetPhase(s, t, Active).(sh := Settled(s.sh, |p.batch|, p.fOk));
    var s' := Cleaned(s, t);
    CleanBasics(s, t);
    CleanVerdicts(c, s, t);
    SameBusy(c, s1, s');
    CountsUpdate(s, t, Active);
    CountsNotify(s1.threads, {0});
    AwakeSuffices(s', t);
  }

  // ---------------------------------------------------------------- adding checks

  lemma AddApart(s: State, checks: seq<Check>)
    requires Apart(s.sh.queue, s.threads) && OfRound(s)
    requires Distinct(checks) && forall x | x in checks :: x !in s.seen
    ensures Apart(s.sh.queue + checks, s.threads)
  {
    var q := s.sh.queue + checks;
    forall i, j | 0 <= i < j < |q| ensures q[i] != q[j] {
      if i < |s.sh.queue| <= j {
        assert q[i] in s.seen && q[j] in checks;
      }
    }
    forall t | 0 <= t < |s.threads| ensures BatchOk(q, s.threads[t]) {
      var p := s.threads[t];
      assert BatchOk(s.sh.queue, p);
      if p.Busy? {
        forall x | x in p.batch ensures x !in q {
          assert Holds(p, x);
        }
      }
    }
  }

  lemma AddBasics(c: Config, s: State, checks: seq<Check>)
    requires OfRound(s) && RunsOnce(s) && Verdicts(c, s) && forall x | x in checks :: x !in s.seen
    ensures var s' := Added(s, checks, {}).(threads := s.threads);
            OfRound(s') && RunsOnce(s') && Verdicts(c, s')
  {
    var s' := Added(s, checks, {}).(threads := s.threads);
    assert AllGood(s') <==> AllGood(s);
    forall x | Waits(s, x) ensures Waits(s', x) {
      if x !in s.sh.queue {
        var t :| 0 <= t < |s.threads| && Pends(s.threads[t], x);
        assert Pends(s'.threads[t], x);
      }
    }
    forall x | x in checks ensures Waits(s', x) && x !in s.runs {
      assert x in s'.sh.queue;
    }
  }

  lemma AddWakeup(s: State, checks: seq<Check>, woken: set<nat>)
    requires NoLostWakeup(s) && Enabled(s, Add(checks, woken))
    requires forall t | 0 <= t < |s.threads| :: !s.threads[t].Active?
    ensures NoLostWakeup(Added(s, checks, woken))
  {
    var s' := Added(s, checks, woken);
    if t :| 0 <= t < |s.threads| && Awake(s.threads[t]) {
      assert Awake(s'.threads[t]);
    } else if t :| 0 <= t < |s.threads| && !s.threads[t].Out? {
      assert Sleeper(s.threads, t);
      if |checks| > 0 {
        var u :| u in woken;
        assert Sleeper(s.threads, u);
        assert Awake(s'.threads[u]);
      }
    } else {
      forall t | 0 <= t < |s.threads| ensures s'.threads[t].Out? {
        assert s.threads[t].Out?;
      }
    }
  }

  lemma AddKeeps(c: Config, s: State, checks: seq<Check>, woken: set<nat>)
    requires Inv(c, s) && Enabled(s, Add(checks, woken))
    requires forall t | 0 <= t < |s.threads| :: !s.threads[t].Active?
    ensures Inv(c, Added(s, checks, woken))
  {
    hide Apart, OfRound, RunsOnce, Verdicts, NoLostWakeup, Sum;
    var s1 := Added(s, checks, {}).(threads := s.threads);
    var s' := Added(s, checks, woken);
    AddApart(s, checks);
    AddBasics(c, s, checks);
    SameBusy(c, s1, s');
    CountsNotify(s.threads, woken);
    AddWakeup(s, checks, woken);
  }

  // ---------------------------------------------------------------- releasing the mutex

  /** A batch cut off the top of the stack. */
  lemma CutOff(queue: seq<Check>, rest: nat)
    requires Distinct(queue) && rest <= |queue|
    ensures var batch := Reversed(queue[rest..]);
            && |batch| == |queue| - rest && Distinct(batch) && Distinct(queue[..rest])
            && (forall x | x in batch :: x in queue && x !in queue[..rest])
            && (forall x | x in queue :: x in batch || x in queue[..rest])
  {
    var batch := Reversed(queue[rest..]);
    forall i | 0 <= i < |batch| ensures batch[i] == queue[|queue| - 1 - i] {}
    forall x | x in queue ensures x in batch || x in queue[..rest] {
      var i :| 0 <= i < |queue| && queue[i] == x;
      if i >= rest { assert batch[|queue| - 1 - i] == x; } else { assert queue[..rest][i] == x; }
    }
  }

  /** Thread `t` takes the checks above position `rest`. */
  function Took(s: State, t: nat, rest: nat): State
    requires t < |s.threads| && rest <= |s.sh.queue|
  {
    SetPhase(s, t, Busy(Reversed(s.sh.queue[rest..]), 0, s.sh.fAllOk)).(sh := s.sh.(queue := s.sh.queue[..rest]))
  }

  lemma TookApart(s: State, t: nat, rest: nat)
    requires Apart(s.sh.queue, s.threads) && t < |s.threads| && !s.threads[t].Busy? && rest < |s.sh.queue|
    ensures Apart(s.sh.queue[..rest], Took(s, t, rest).threads)
  {
    CutOff(s.sh.queue, rest);
    var s' := Took(s, t, rest);
    var batch := s'.threads[t].batch;
    forall u | 0 <= u < |s'.threads| ensures BatchOk(s'.sh.queue, s'.threads[u]) {
      if u != t { assert BatchOk(s.sh.queue, s.threads[u]); }
    }
    forall u, v | 0 <= u < v < |s'.threads| && s'.threads[u].Busy? && s'.threads[v].Busy?
      ensures forall x | x in s'.threads[u].batch :: x !in s'.threads[v].batch
    {
      assert u != t ==> BatchOk(s.sh.queue, s.threads[u]);
      assert v != t ==> BatchOk(s.sh.queue, s.threads[v]);
    }
  }

  lemma TookOfRound(s: State, t: nat, rest: nat)
    requires OfRound(s) && Distinct(s.sh.queue) && t < |s.threads| && !s.threads[t].Busy? && rest < |s.sh.queue|
    ensures OfRound(Took(s, t, rest))
  {
    CutOff(s.sh.queue, rest);
    var s' := Took(s, t, rest);
    forall u, x | 0 <= u < |s'.threads| && Holds(s'.threads[u], x) ensures x in s'.round {
      if u != t { assert Holds(s.threads[u], x); }
    }
  }

  lemma TookRunsOnce(s: State, t: nat, rest: nat)
    requires RunsOnce(s) && Distinct(s.sh.queue) && t < |s.threads| && !s.threads[t].Busy? && rest < |s.sh.queue|
    ensures RunsOnce(Took(s, t, rest))
  {
    CutOff(s.sh.queue, rest);
    var s' := Took(s, t, rest);
    forall u, x | 0 <= u < |s'.threads| && Pends(s'.threads[u], x) ensures x !in s'.runs {
      if u != t { assert Pends(s.threads[u], x); }
    }
  }

  lemma TookVerdicts(c: Config, s: State, t: nat, rest: nat)
    requires Verdicts(c, s) && Distinct(s.sh.queue) && t < |s.threads| && !s.threads[t].Busy? && rest < |s.sh.queue|
    ensures Verdicts(c, Took(s, t, rest))
  {
    CutOff(s.sh.queue, rest);
    var s' := Took(s, t, rest);
    assert AllGood(s') <==> AllGood(s) by {
      if AllGood(s') {
        forall u | 0 <= u < |s.threads| && s.threads[u].Busy? ensures s.threads[u].fOk {
          assert s'.threads[u] == s.threads[u];
        }
      }
      if AllGood(s) {
        forall u | 0 <= u < |s'.threads| && s'.threads[u].Busy? ensures s'.threads[u].fOk {
          if u != t { assert s'.threads[u] == s.threads[u]; }
        }
      }
    }
    forall x | Waits(s, x) ensures Waits(s', x) {
      if x in s.sh.queue {
        if x !in s.sh.queue[..rest] { assert Pends(s'.threads[t], x); }
      } else {
        var u :| 0 <= u < |s.threads| && Pends(s.threads[u], x);
        assert Pends(s'.threads[u], x);
      }
    }
  }

  lemma TookKeeps(c: Config, s: State, t: nat, rest: nat)
    requires Inv(c, s) && t < |s.threads| && s.threads[t] == Active && rest < |s.sh.queue|
    ensures Inv(c, Took(s, t, rest))
  {
    hide Apart, OfRound, RunsOnce, Verdicts, NoLostWakeup, Sum;
    var s' := Took(s, t, rest);
    ApartDistinct(s.sh.queue, s.threads);
    TookApart(s, t, rest);
    TookOfRound(s, t, rest);
    TookRunsOnce(s, t, rest);
    TookVerdicts(c, s, t, rest);
    CutOff(s.sh.queue, rest);
    CountsUpdate(s, t, s'.threads[t]);
    AwakeSuffices(s', t);
  }

  lemma ApartDistinct(queue: seq<Check>, threads: seq<Phase>)
    requires Apart(queue, threads)
    ensures Distinct(queue)
  {
  }

  lemma SleepKeeps(c: Config, s: State, t: nat)
    requires Inv(c, s) && t < |s.threads| && s.threads[t] == Active && s.sh.queue == []
    requires t == 0 ==> s.sh.nTodo > 0
    ensures Inv(c, SetPhase(s, t, Asleep(false)).(sh := s.sh.(nIdle := s.sh.nIdle + 1)))
  {
    hide Apart, OfRound, RunsOnce, Verdicts, Sum;
    CountsUpdate(s, t, Asleep(false));
    IdlePhase(c, s, t, Asleep(false), s.sh.(nIdle := s.sh.nIdle + 1));
    SumZero(s.threads, BatchLen);
  }

  /** With nothing left to do no thread holds a batch, and the flag tells about every check. */
  lemma NothingLeft(c: Config, s: State)
    requires Inv(c, s) && s.sh.nTodo == 0
    ensures s.sh.queue == [] && forall t | 0 <= t < |s.threads| :: !s.threads[t].Busy?
    ensures s.sh.fAllOk <==> forall x | x in s.round :: c.ok(x)
    ensures s.sh.fAllOk ==> forall x | x in s.round :: x in s.runs
  {
    SumZero(s.threads, BatchLen);
    forall t | 0 <= t < |s.threads| ensures !s.threads[t].Busy? {
      assert BatchOk(s.sh.queue, s.threads[t]);
      assert BatchLen(s.threads[t]) == 0;
    }
    assert AllGood(s) <==> s.sh.fAllOk;
    forall x ensures !Waits(s, x) {
    }
  }

  lemma ReturnKeeps(c: Config, s: State)
    requires Inv(c, s) && s.threads[0] == Active && s.sh.nTodo == 0
    ensures Inv(c, SetPhase(s, 0, Out).(sh := s.sh.(nTotal := s.sh.nTotal - 1, fAllOk := true), round := {}, runs := []))
  {
    var s' := SetPhase(s, 0, Out).(sh := s.sh.(nTotal := s.sh.nTotal - 1, fAllOk := true), round := {}, runs := []);
    NothingLeft(c, s);
    CountsUpdate(s, 0, Out);
    hide Sum;
  }

  lemma ConcludeKeeps(c: Config, s: State, t: nat, s': State, verdict: Option<bool>)
    requires Inv(c, s) && t < |s.threads| && s.threads[t] == Active && Concludes(c, s, t, s', verdict)
    ensures Inv(c, s')
    ensures verdict.Some? ==> t == 0 && s.sh.nTodo == 0 && verdict.value == s.sh.fAllOk
  {
    hide Apart, OfRound, RunsOnce, Verdicts, NoLostWakeup, Counts, BatchSize;
    if s.sh.queue == [] {
      if t == 0 && s.sh.nTodo == 0 {
        ReturnKeeps(c, s);
      } else {
        TodoPositive(c, s);
        SleepKeeps(c, s, t);
      }
    } else {
      BatchFits(s.sh, c.nBatchSize);
      TookKeeps(c, s, t, |s.sh.queue| - BatchSize(s.sh, c.nBatchSize));
    }
  }

  lemma TodoPositive(c: Config, s: State)
    requires Inv(c, s)
    ensures s.sh.nTodo >= 0
  {
  }

  // ---------------------------------------------------------------- every run

  /** Nobody holds the mutex. */
  ghost predicate Free(s: State) {
    forall t | 0 <= t < |s.threads| :: !s.threads[t].Active?
  }

  lemma StartInv(c: Config, n: nat)
    ensures Inv(c, Start(n)) && Free(Start(n))
  {
    var s := Start(n);
    SumZero(s.threads, BatchLen);
    SumZero(s.threads, Inside);
    SumZero(s.threads, Idle);
  }

  /** The state in which the critical section of a step reaches the inner loop. */
  function AtLoop(s: State, step: Step): State
    requires !step.Exec? && !step.Add? && step.t < |s.threads|
    requires step.Finish? ==> s.threads[step.t].Busy?
  {
    match step
    case Enter(t) => Entered(s, t)
    case Wake(t) => WokenUp(s, t)
    case Finish(t) => Cleaned(s, t)
  }

  lemma AtLoopKeeps(c: Config, s: State, step: Step)
    requires Inv(c, s) && Free(s) && Enabled(s, step) && !step.Exec? && !step.Add?
    ensures Inv(c, AtLoop(s, step))
  {
    hide Inv;
    match step
    case Enter(t) => EnterKeeps(c, s, t);
    case Wake(t) => WakeKeeps(c, s, t);
    case Finish(t) => CleanKeeps(c, s, t);
  }

  /** No enabled step is stuck: the batch size is always defined. */
  lemma StepExists(c: Config, s: State, step: Step)
    requires Inv(c, s) && Free(s) && Enabled(s, step)
    ensures exists s', verdict :: Next(c, s, step, s', verdict)
  {
    hide Inv;
    match step {
      case Exec(t) => assert Next(c, s, step, Executed(c, s, t), None);
      case Add(checks, woken) => assert Next(c, s, step, Added(s, checks, woken), None);
      case _ =>
        AtLoopKeeps(c, s, step);
        var s1 := AtLoop(s, step);
        CountersPositive(c, s1);
        var (s', verdict) := Concluded(c, s1, step.t);
        assert Concludes(c, s1, step.t, s', verdict);
        assert Next(c, s, step, s', verdict);
    }
  }

  lemma CountersPositive(c: Config, s: State)
    requires Inv(c, s)
    ensures s.sh.nTotal + s.sh.nIdle + 1 > 0
  {
  }

  /** Every step keeps the invariant; a verdict is the conjunction of all checks added since
      the previous one, and when it is good every one of them has run. */
  lemma NextKeeps(c: Config, s: State, step: Step, s': State, verdict: Option<bool>)
    requires Inv(c, s) && Free(s) && Next(c, s, step, s', verdict)
    ensures Inv(c, s') && Free(s')
    ensures verdict.Some? ==>
              && (verdict.value <==> forall x | x in s.round :: c.ok(x))
              && (verdict.value ==> forall x | x in s.round :: x in s.runs)
              && s'.round == {} && s'.runs == []
  {
    hide Inv;
    match step {
      case Exec(t) => ExecKeeps(c, s, t);
      case Add(checks, woken) => AddKeeps(c, s, checks, woken);
      case _ =>
        AtLoopKeeps(c, s, step);
        var s1 := AtLoop(s, step);
        ConcludeKeeps(c, s1, step.t, s', verdict);
        if verdict.Some? { NothingLeft(c, s1); }
    }
  }

  ghost predicate Run(c: Config, n: nat, steps: seq<Step>, states: seq<State>, verdicts: seq<Option<bool>>) {
    && |states| == |steps| + 1 && |verdicts| == |steps|
    && states[0] == Start(n)
    && forall i | 0 <= i < |steps| :: Next(c, states[i], steps[i], states[i + 1], verdicts[i])
  }

  lemma {:induction false} RunKeeps(c: Config, n: nat, steps: seq<Step>, states: seq<State>, verdicts: seq<Option<bool>>, i: nat)
    requires Run(c, n, steps, states, verdicts) && i < |states|
    ensures Inv(c, states[i]) && Free(states[i])
  {
    hide Inv, Next, Free;
    if i == 0 {
      StartInv(c, n);
    } else {
      RunKeeps(c, n, steps, states, verdicts, i - 1);
      NextKeeps(c, states[i - 1], steps[i - 1], states[i], verdicts[i - 1]);
    }
  }

  /** Whatever the number of workers and the interleaving: each verdict of `Wait` is the
      conjunction of the checks added since the previous one, none of which ran twice. */
  lemma WaitIsConjunction(c: Config, n: nat, steps: seq<Step>, states: seq<State>, verdicts: seq<Option<bool>>, i: nat)
    requires Run(c, n, steps, states, verdicts) && i < |steps| && verdicts[i].Some?
    ensures verdicts[i].value <==> forall x | x in states[i].round :: c.ok(x)
    ensures verdicts[i].value ==> forall x | x in states[i].round :: x in states[i].runs
    ensures Distinct(states[i].runs) && forall x | x in states[i].runs :: x in states[i].round
  {
    RunKeeps(c, n, steps, states, verdicts, i);
    NextKeeps(c, states[i], steps[i], states[i + 1], verdicts[i]);
    RunsAreOnce(c, states[i]);
  }

  lemma RunsAreOnce(c: Config, s: State)
    requires Inv(c, s)
    ensures Distinct(s.runs) && forall x | x in s.runs :: x in s.round
  {
  }

  // ---------------------------------------------------------------- what the control asserts

  function Holder(p: Phase): nat { if p.Busy? then 1 else 0 }

  /** With the mutex free, `nTodo` is the queue and all batches held, and `nTotal - nIdle` the
      number of threads holding one. */
  lemma CountersMean(c: Config, s: State)
    requires Inv(c, s) && Free(s)
    ensures s.sh.nTodo == |s.sh.queue| + Sum(s.threads, BatchLen)
    ensures s.sh.nTotal - s.sh.nIdle == Sum(s.threads, Holder)
  {
    SumAdds(s.threads);
    SumSame(s.threads, s.threads, Working);
    HoldersWork(s.threads);
  }

  lemma {:induction false} HoldersWork(threads: seq<Phase>)
    requires forall t | 0 <= t < |threads| :: !threads[t].Active?
    ensures Sum(threads, Holder) == Sum(threads, Working)
  {
    if threads != [] { HoldersWork(threads[..|threads| - 1]); }
  }

  lemma HeldInRound(s: State, t: nat)
    requires Apart(s.sh.queue, s.threads) && OfRound(s) && t < |s.threads| && s.threads[t].Busy?
    ensures s.round != {}
  {
    assert BatchOk(s.sh.queue, s.threads[t]);
    var x := s.threads[t].batch[0];
    assert Holds(s.threads[t], x);
    assert x in s.round;
  }

  lemma QueuedInRound(s: State)
    requires OfRound(s)
    ensures s.sh.queue != [] ==> s.round != {}
  {
    if s.sh.queue != [] {
      assert s.sh.queue[0] in s.round;
    }
  }

  /** The three assertions of `CCheckQueueControl` (src/checkqueue.h:166-173), which reads the
      fields without the mutex, in a state in which nothing was added since the last `Wait`.
      Two always hold; the first holds exactly when no thread is inside its critical section. */
  lemma ControlAsserts(c: Config, s: State)
    requires Inv(c, s) && s.round == {}
    ensures s.sh.nTodo == 0 && s.sh.fAllOk
    ensures s.sh.nTotal == s.sh.nIdle <==> Free(s)
  {
    forall t | 0 <= t < |s.threads| ensures !s.threads[t].Busy? {
      if s.threads[t].Busy? {
        HeldInRound(s, t);
      }
    }
    QueuedInRound(s);
    SumZero(s.threads, BatchLen);
    SumZero(s.threads, Working);
    SumAdds(s.threads);
  }

  /** The two fields need not be read at the same moment: with `nTotal` read in state `a` and
      `nIdle` in state `b`, the assertion compares the threads inside at `a` with those asleep at `b`.
      Once all workers have started, it holds exactly when the mutex is free at `b`. */
  lemma SeparateReads(c: Config, a: State, b: State)
    requires Inv(c, a) && Inv(c, b) && b.round == {}
    ensures a.sh.nTotal == b.sh.nIdle <==> Sum(a.threads, Inside) == Sum(b.threads, Idle)
    ensures Started(a) && Started(b) && |a.threads| == |b.threads| ==> (a.sh.nTotal == b.sh.nIdle <==> Free(b))
  {
    ControlAsserts(c, b);
    if Started(a) && Started(b) {
      CrewSize(a.threads);
      CrewSize(b.threads);
    }
  }

  /** All workers are inside their loops, and the master is not. */
  ghost predicate Started(s: State) {
    s.threads != [] && s.threads[0].Out? && forall t | 0 < t < |s.threads| :: !s.threads[t].Out?
  }

  lemma {:induction false} CrewSize(threads: seq<Phase>)
    requires threads != [] && threads[0].Out? && forall t | 0 < t < |threads| :: !threads[t].Out?
    ensures Sum(threads, Inside) == |threads| - 1
  {
    var n := |threads| - 1;
    if n > 0 { CrewSize(threads[..n]); } else { assert threads[..n] == []; }
  }

  /** So it fails in the middle of every critical section that a worker can enter then. */
  lemma ControlMayAbort(c: Config, s: State, step: Step)
    requires Inv(c, s) && Free(s) && s.round == {}
    requires Enabled(s, step) && !step.Exec? && !step.Add?
    ensures var s1 := AtLoop(s, step);
            && s1.sh.nTotal != s1.sh.nIdle && s1.round == {}
            && s1.threads == s.threads[step.t := Active]
  {
    AtLoopKeeps(c, s, step);
    var s1 := AtLoop(s, step);
    hide Inv;
    ControlAsserts(c, s1);
    assert s1.threads[step.t].Active? by {
      if step.Finish? { CleanedPhase(s, step.t); }
    }
    if step.Finish? { NoBatchIn(c, s, step.t); }
  }

  lemma CleanedPhase(s: State, t: nat)
    requires t < |s.threads| && s.threads[t].Busy?
    ensures Cleaned(s, t).threads[t] == Active
  {
  }

  lemma NoBatchIn(c: Config, s: State, t: nat)
    requires Inv(c, s) && s.round == {} && t < |s.threads|
    ensures !s.threads[t].Busy?
  {
    if s.threads[t].Busy? { HeldInRound(s, t); }
  }

  /** A worker is asleep, one check is added and wakes it, the master takes the check, runs it
      and returns. */
  function Late(c: Config, x: Check, i: nat): State {
    match i
    case 0 => Start(1)
    case 1 => State(Shared([], 1, 1, true, 0), [Out, Asleep(false)], {}, [], {})
    case 2 => State(Shared([x], 1, 1, true, 1), [Out, Asleep(true)], {x}, [], {x})
    case 3 => State(Shared([], 1, 2, true, 1), [Busy([x], 0, true), Asleep(true)], {x}, [], {x})
    case 4 => State(Shared([], 1, 2, true, 1), [Busy([x], 1, c.ok(x)), Asleep(true)], {x}, [x], {x})
    case _ => State(Shared([], 1, 1, true, 0), [Out, Asleep(true)], {}, [], {x})
  }

  function LateStep(x: Check, i: nat): Step {
    match i
    case 0 => Enter(1)
    case 1 => Add([x], {1})
    case 2 => Enter(0)
    case 3 => Exec(0)
    case _ => Finish(0)
  }

  function LateVerdict(c: Config, x: Check, i: nat): Option<bool> { if i == 4 then Some(c.ok(x)) else None }

  lemma LateEnters(c: Config, x: Check)
    ensures Next(c, Late(c, x, 0), LateStep(x, 0), Late(c, x, 1), None)
  {
    var s := Entered(Start(1), 1);
    assert s.threads == [Out, Active];
    assert s.threads[1 := Asleep(false)] == [Out, Asleep(false)];
  }

  lemma LateAdds(c: Config, x: Check)
    ensures Next(c, Late(c, x, 1), LateStep(x, 1), Late(c, x, 2), None)
  {
    var s := Late(c, x, 1);
    assert WakesRight(s.threads, 1, {1}) by {
      assert Sleeper(s.threads, 1);
    }
    assert Notify(s.threads, {1}) == [Out, Asleep(true)];
    assert Elements([x]) == {x};
  }

  lemma LateTakes(c: Config, x: Check)
    ensures Next(c, Late(c, x, 2), LateStep(x, 2), Late(c, x, 3), None)
  {
    var s := Entered(Late(c, x, 2), 0);
    assert s.threads == [Active, Asleep(true)];
    assert BatchSize(s.sh, c.nBatchSize) == 1 by { BatchFits(s.sh, c.nBatchSize); }
    assert s.sh.queue[0..] == [x] && s.sh.queue[..0] == [] && Reversed([x]) == [x];
    assert s.threads[0 := Busy([x], 0, true)] == [Busy([x], 0, true), Asleep(true)];
  }

  lemma LateReturns(c: Config, x: Check)
    ensures Next(c, Late(c, x, 4), LateStep(x, 4), Late(c, x, 5), LateVerdict(c, x, 4))
  {
    var s := Cleaned(Late(c, x, 4), 0);
    assert s.threads == [Active, Asleep(true)];
    assert s.threads[0 := Out] == [Out, Asleep(true)];
  }

  lemma LateNext(c: Config, x: Check, i: nat)
    requires i < 5
    ensures Next(c, Late(c, x, i), LateStep(x, i), Late(c, x, i + 1), LateVerdict(c, x, i))
  {
    if i == 0 { LateEnters(c, x); }
    else if i == 1 { LateAdds(c, x); }
    else if i == 2 { LateTakes(c, x); }
    else if i == 4 { LateReturns(c, x); }
  }

  /** The worker is still on its way back: the next control may be built in the middle of its
      critical section, and then the assertion fails. */
  lemma LateWorker(c: Config, x: Check)
    ensures Run(c, 1, seq(5, i requires 0 <= i => LateStep(x, i)), seq(6, i requires 0 <= i => Late(c, x, i)),
                seq(5, i requires 0 <= i => LateVerdict(c, x, i)))
    ensures var s := Late(c, x, 5);
            && LateVerdict(c, x, 4) == Some(c.ok(x)) && s.round == {}
            && s.threads[1] == Asleep(true) && Enabled(s, Wake(1))
            && WokenUp(s, 1).sh.nTotal == 1 && WokenUp(s, 1).sh.nIdle == 0
  {
    forall i | 0 <= i < 5
      ensures Next(c, Late(c, x, i), LateStep(x, i), Late(c, x, i + 1), LateVerdict(c, x, i))
    {
      LateNext(c, x, i);
    }
    hide Next;
  }

  /** A worker that is done with the last work notifies a sleeping master, and nobody else wakes it. */
  lemma LastWorkWakesMaster(s: State, t: nat)
    requires t < |s.threads| && s.threads[t].Busy?
    ensures var after := Cleaned(s, t);
            after.threads[0] == if t == 0 then Active
                                else if s.threads[0].Asleep? && s.sh.nTodo == |s.threads[t].batch| then Asleep(true)
                                else s.threads[0]
    ensures forall u | 0 < u < |s.threads| && u != t :: Cleaned(s, t).threads[u] == s.threads[u]
  {
  }

  // ---------------------------------------------------------------- no deadlock

  /** A step that some thread can take without a spurious wake-up. */
  ghost predicate CanMove(s: State, t: nat) {
    t < |s.threads| && (s.threads[t].Busy? || s.threads[t] == Asleep(true))
  }

  /** A master inside `Wait` is never stuck: it can move itself, or a worker holds a batch. */
  lemma MasterNotStuck(c: Config, s: State)
    requires Inv(c, s) && Free(s) && !s.threads[0].Out?
    ensures exists t: nat :: CanMove(s, t)
    ensures s.threads[0] == Asleep(false) ==> exists t: nat :: t < |s.threads| && s.threads[t].Busy?
  {
    if s.threads[0] == Asleep(false) {
      SumZero(s.threads, BatchLen);
      var t: nat :| t < |s.threads| && BatchLen(s.threads[t]) != 0;
      assert CanMove(s, t);
    } else {
      assert CanMove(s, 0);
    }
  }

  /** What is left to do before everyone sleeps. */
  function Weight(p: Phase): nat {
    match p
    case Out => 1
    case Active => 0
    case Asleep(notified) => if notified then 1 else 0
    case Busy(batch, done, _) => (if done <= |batch| then 3 * (|batch| - done) else 0) + 2
  }

  function Measure(s: State): nat { 6 * |s.sh.queue| + Sum(s.threads, Weight) }

  /** An un-notified wake-up that finds the queue empty. */
  ghost predicate Vain(s: State, step: Step) {
    step.Wake? && step.t < |s.threads| && s.threads[step.t] == Asleep(false) && s.sh.queue == []
  }

  lemma ConcludeMeasure(c: Config, s: State, t: nat, s': State, verdict: Option<bool>)
    requires Inv(c, s) && t < |s.threads| && s.threads[t] == Active && Concludes(c, s, t, s', verdict)
    requires verdict == None
    ensures Measure(s') <= Measure(s) && (s.sh.queue != [] ==> Measure(s') < Measure(s))
  {
    hide Inv, BatchSize, Sum;
    SumUpdate(s.threads, Weight, t, s'.threads[t]);
    if s.sh.queue != [] { BatchFits(s.sh, c.nBatchSize); }
  }

  lemma NotifyMeasure(threads: seq<Phase>)
    requires threads != []
    ensures Sum(Notify(threads, {0}), Weight) <= Sum(threads, Weight) + 1
  {
    var n := Notify(threads, {0});
    assert n == threads[0 := n[0]];
    SumUpdate(threads, Weight, 0, n[0]);
  }

  /** While the master is inside `Wait`, every step brings the end nearer, except wake-ups
      that were nobody's doing and find nothing; those change nothing. */
  lemma StepMeasure(c: Config, s: State, step: Step, s': State, verdict: Option<bool>)
    requires Inv(c, s) && Free(s) && !s.threads[0].Out? && Next(c, s, step, s', verdict) && verdict == None
    ensures if Vain(s, step) then Measure(s') <= Measure(s) else Measure(s') < Measure(s)
  {
    hide Inv, Sum, BatchSize;
    match step {
      case Add(_, _) =>
      case Exec(t) => SumUpdate(s.threads, Weight, t, s'.threads[t]);
      case Enter(t) =>
        AtLoopKeeps(c, s, step);
        ConcludeMeasure(c, Entered(s, t), t, s', verdict);
        SumUpdate(s.threads, Weight, t, Active);
      case Wake(t) =>
        AtLoopKeeps(c, s, step);
        ConcludeMeasure(c, WokenUp(s, t), t, s', verdict);
        SumUpdate(s.threads, Weight, t, Active);
      case Finish(t) =>
        AtLoopKeeps(c, s, step);
        ConcludeMeasure(c, Cleaned(s, t), t, s', verdict);
        SumUpdate(s.threads, Weight, t, Active);
        NotifyMeasure(s.threads[t := Active]);
    }
  }

  /** How many steps of a stretch are not vain wake-ups. */
  ghost function Moves(steps: seq<Step>, states: seq<State>): nat
    requires |states| == |steps| + 1
  {
    if steps == [] then 0
    else
      var n := |steps| - 1;
      Moves(steps[..n], states[..n + 1]) + if Vain(states[n], steps[n]) then 0 else 1
  }

  /** A call of `Wait` makes at most `Measure` moves before it returns. */
  lemma {:induction false} WaitIsBounded(c: Config, steps: seq<Step>, states: seq<State>)
    requires |states| == |steps| + 1 && Inv(c, states[0]) && Free(states[0])
    requires forall i | 0 <= i < |steps| :: Next(c, states[i], steps[i], states[i + 1], None)
    requires forall i | 0 <= i < |states| :: 0 < |states[i].threads| && !states[i].threads[0].Out?
    ensures Inv(c, states[|steps|]) && Free(states[|steps|])
    ensures Moves(steps, states) + Measure(states[|steps|]) <= Measure(states[0])
  {
    hide Inv, Next, Measure, Free, Vain;
    if steps != [] {
      var n := |steps| - 1;
      WaitIsBounded(c, steps[..n], states[..n + 1]);
      NextKeeps(c, states[n], steps[n], states[n + 1], None);
      StepMeasure(c, states[n], steps[n], states[n + 1], None);
    }
  }

  // ---------------------------------------------------------------- every wait returns

  /** Step `step` is one of thread `t`. */
  predicate By(step: Step, t: nat) { !step.Add? && step.t == t }

  /** A run without end. */
  ghost predicate Trace(c: Config, steps: nat -> Step, states: nat -> State, verdicts: nat -> Option<bool>) {
    forall i: nat :: Next(c, states(i), steps(i), states(i + 1), verdicts(i))
  }

  /** A thread with a batch or a notification is scheduled some time. */
  ghost predicate Fair(steps: nat -> Step, states: nat -> State) {
    forall i: nat, t: nat | CanMove(states(i), t) :: exists j: nat :: i <= j && By(steps(j), t)
  }

  /** Until it returns, the master stays inside `Wait`. */
  lemma StaysInside(c: Config, s: State, step: Step, s': State)
    requires Inv(c, s) && !s.threads[0].Out? && Next(c, s, step, s', None)
    ensures |s'.threads| == |s.threads| && !s'.threads[0].Out?
  {
    hide Counts, Apart, OfRound, RunsOnce, Verdicts, NoLostWakeup, BatchSize;
  }

  lemma {:induction false} TraceKeeps(c: Config, steps: nat -> Step, states: nat -> State, verdicts: nat -> Option<bool>, i: nat)
    requires Trace(c, steps, states, verdicts) && forall k: nat :: verdicts(k) == None
    requires Inv(c, states(0)) && Free(states(0)) && !states(0).threads[0].Out?
    ensures Inv(c, states(i)) && Free(states(i)) && !states(i).threads[0].Out?
  {
    hide Inv, Next, Free;
    if i > 0 {
      TraceKeeps(c, steps, states, verdicts, i - 1);
      assert Next(c, states(i - 1), steps(i - 1), states(i), None) by {
        assert Next(c, states(i - 1), steps(i - 1), states(i - 1 + 1), verdicts(i - 1));
      }
      NextKeeps(c, states(i - 1), steps(i - 1), states(i), None);
      StaysInside(c, states(i - 1), steps(i - 1), states(i));
    }
  }

  /** A vain wake-up leaves every other thread as it was. */
  lemma VainKeepsMove(c: Config, s: State, step: Step, s': State, t: nat)
    requires Inv(c, s) && CanMove(s, t) && Vain(s, step) && Next(c, s, step, s', None)
    ensures CanMove(s', t)
  {
    hide Inv, BatchSize;
  }

  lemma MoveIsNotVain(s: State, step: Step, t: nat)
    requires CanMove(s, t) && By(step, t)
    ensures !Vain(s, step)
  {
  }

  /** From any point on the measure falls some time, as some thread can move and is scheduled. */
  lemma {:induction false} Falls(c: Config, steps: nat -> Step, states: nat -> State, verdicts: nat -> Option<bool>, i: nat, j: nat, t: nat)
    returns (k: nat)
    requires Trace(c, steps, states, verdicts) && forall k: nat :: verdicts(k) == None
    requires Inv(c, states(0)) && Free(states(0)) && !states(0).threads[0].Out?
    requires CanMove(states(i), t) && i <= j && By(steps(j), t)
    ensures Measure(states(k)) < Measure(states(i))
    decreases j - i
  {
    hide Inv, Next, Free, Measure, CanMove, Vain, By;
    TraceKeeps(c, steps, states, verdicts, i);
    assert Next(c, states(i), steps(i), states(i + 1), verdicts(i));
    StepMeasure(c, states(i), steps(i), states(i + 1), None);
    k := i + 1;
    if Vain(states(i), steps(i)) {
      if i == j { MoveIsNotVain(states(i), steps(i), t); }
      VainKeepsMove(c, states(i), steps(i), states(i + 1), t);
      k := Falls(c, steps, states, verdicts, i + 1, j, t);
    }
  }

  lemma {:induction false} CannotGoOn(c: Config, steps: nat -> Step, states: nat -> State, verdicts: nat -> Option<bool>, i: nat)
    requires Trace(c, steps, states, verdicts) && Fair(steps, states)
    requires Inv(c, states(0)) && Free(states(0)) && !states(0).threads[0].Out?
    ensures exists k: nat :: verdicts(k) != None
    decreases Measure(states(i))
  {
    hide Inv, Next, Free, Measure, CanMove, By;
    if forall k: nat :: verdicts(k) == None {
      TraceKeeps(c, steps, states, verdicts, i);
      MasterNotStuck(c, states(i));
      var t: nat :| CanMove(states(i), t);
      var j: nat :| i <= j && By(steps(j), t);
      var k := Falls(c, steps, states, verdicts, i, j, t);
      CannotGoOn(c, steps, states, verdicts, k);
    }
  }

  /** A call of `Wait` returns in every run in which no thread that can move is passed over for
      ever, however many wake-ups happen that nobody caused. */
  lemma WaitReturns(c: Config, steps: nat -> Step, states: nat -> State, verdicts: nat -> Option<bool>)
    requires Trace(c, steps, states, verdicts) && Fair(steps, states)
    requires Inv(c, states(0)) && Free(states(0)) && !states(0).threads[0].Out?
    ensures exists k: nat :: verdicts(k).Some?
  {
    CannotGoOn(c, steps, states, verdicts, 0);
    var k: nat :| verdicts(k) != None;
    assert verdicts(k).Some?;
  }
}
