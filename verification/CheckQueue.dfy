/**
The parallel check queue as a protocol: one master and any number of workers share a queue under a
mutex.  A step is one section of code run under the mutex, or the execution of one check outside it,
or a wake-up, possibly a spurious one.  A run is any interleaving of steps.
 */
module CheckQueue {
  import Radix

  /** A verification; `result` is what it will return. */
  datatype Check = Check(result: bool)

  /**
  A thread that is not in the loop, or sleeps on its condition variable, or works on a batch of
  which `rest` is not yet executed.  Thread 0 is the master.
   */
  datatype Thread =
    | Outside
    | Asleep(notified: bool)
    | Busy(rest: seq<Check>, size: nat, ok: bool)

  /** A completed Wait: what it returned, and the checks added since the one before. */
  datatype Verdict = Verdict(result: bool, checks: seq<Check>)

  datatype State = State(
    queue: seq<Check>,
    nIdle: int,
    nTotal: int,
    allOk: bool,
    nTodo: int,
    batchSize: nat,
    threads: seq<Thread>,
    added: seq<Check>,
    verdicts: seq<Verdict>)

  const MASTER := 0

  datatype Step =
    | AddStep(checks: seq<Check>, wakes: nat)
    | EnterStep(t: nat)
    | ExecuteStep(t: nat)
    | FinishStep(t: nat)
    | WakeStep(t: nat)

  function Init(workers: nat, batchSize: nat): State {
    State([], 0, 0, true, 0, batchSize, seq(workers + 1, _ => Outside), [], [])
  }

  // ---------- the code under the mutex ----------

  function Notified(t: Thread): Thread {
    if t.Asleep? then Asleep(true) else t
  }

  function NotifyAll(threads: seq<Thread>): (r: seq<Thread>)
    ensures |r| == |threads|
    ensures forall i :: 0 <= i < |r| ==> r[i] == if i == MASTER then threads[i] else Notified(threads[i])
  {
    seq(|threads|, i requires 0 <= i < |threads| => if i == MASTER then threads[i] else Notified(threads[i]))
  }

  function Add(s: State, checks: seq<Check>, wakes: nat): State {
    var s1 := s.(queue := s.queue + checks, nTodo := s.nTodo + |checks|, added := s.added + checks);
    if |checks| == 1 then
      if wakes != MASTER && wakes < |s.threads| then s1.(threads := s.threads[wakes := Notified(s.threads[wakes])])
          else s1
    else if |checks| > 1 then s1.(threads := NotifyAll(s.threads))
    else s1
  }

  function Min(x: int, y: int): int {
    if x < y then x else y
  }

  /** How many checks a thread takes from a nonempty queue. */
  function BatchOf(s: State): (n: int)
    requires s.nTotal >= 0 && s.nIdle >= 0 && s.queue != []
    ensures 1 <= n <= |s.queue|
  {
    Radix.QuotientAtMost(|s.queue|, s.nTotal + s.nIdle + 1);
    Radix.Max(1, Min(s.batchSize, |s.queue| / (s.nTotal + s.nIdle + 1)))
  }

  function Reverse(q: seq<Check>): (r: seq<Check>)
    ensures |r| == |q|
    ensures forall i :: 0 <= i < |q| ==> r[i] == q[|q| - 1 - i]
  {
    seq(|q|, i requires 0 <= i < |q| => q[|q| - 1 - i])
  }

  /** From the head of the inner loop: return, go to sleep, or take a batch from the back of the queue. */
  function LoopHead(s: State, t: nat): State
    requires t < |s.threads| && s.nTotal >= 0 && s.nIdle >= 0
  {
    if s.queue == [] then
      if t == MASTER && s.nTodo == 0 then
        s.(nTotal := s.nTotal - 1, allOk := true, threads := s.threads[t := Outside],
           added := [], verdicts := s.verdicts + [Verdict(s.allOk, s.added)])
      else s.(nIdle := s.nIdle + 1, threads := s.threads[t := Asleep(false)])
    else
      var n := BatchOf(s);
      s.(queue := s.queue[..|s.queue| - n],
         threads := s.threads[t := Busy(Reverse(s.queue[|s.queue| - n..]), n, s.allOk)])
  }

  /** Clean-up after a batch: the result and the count, and a word to the master after the last check. */
  function Settle(s: State, t: nat): State
    requires t < |s.threads| && s.threads != [] && s.threads[t].Busy?
  {
    var s1 := s.(allOk := s.allOk
        && s.threads[t].ok, nTodo := s.nTodo - s.threads[t].size, threads := s.threads[t := Outside]);
    if s1.nTodo == 0 && t != MASTER then s1.(threads := s1.threads[MASTER := Notified(s1.threads[MASTER])]) else s1
  }

  // ---------- steps ----------

  /** The master adds only while it is not waiting for the queue; everything else can happen any time. */
  predicate Enabled(s: State, step: Step) {
    && s.threads != [] && s.nTotal >= 0 && s.nIdle >= 0
    && match step
       case AddStep(_, _) => s.threads[MASTER].Outside?
       case EnterStep(t) => t < |s.threads| && s.threads[t].Outside?
       case ExecuteStep(t) => t < |s.threads| && s.threads[t].Busy? && s.threads[t].rest != []
       case FinishStep(t) => t < |s.threads| && s.threads[t].Busy? && s.threads[t].rest == []
       case WakeStep(t) => t < |s.threads| && s.threads[t].Asleep? && s.nIdle > 0
  }

  function Next(s: State, step: Step): State
    requires Enabled(s, step)
  {
    match step
    case AddStep(checks, wakes) => Add(s, checks, wakes)
    case EnterStep(t) => LoopHead(s.(nTotal := s.nTotal + 1), t)
    case ExecuteStep(t) =>
      var b := s.threads[t];
      s.(threads := s.threads[t := Busy(b.rest[1..], b.size, if b.ok then b.rest[0].result else b.ok)])
    case FinishStep(t) => LoopHead(Settle(s, t), t)
    case WakeStep(t) => LoopHead(s.(nIdle := s.nIdle - 1, threads := s.threads[t := Outside]), t)
  }

  ghost predicate IsRun(s: State, steps: seq<Step>, t: State)
    decreases |steps|
  {
    if steps == [] then t == s
    else Enabled(s, steps[0]) && IsRun(Next(s, steps[0]), steps[1..], t)
  }

  // ---------- sums over the threads ----------

  /** How many checks a thread has taken and not yet accounted for. */
  function Held(t: Thread): nat {
    if t.Busy? then t.size else 0
  }

  function IsAsleep(t: Thread): nat {
    if t.Asleep? then 1 else 0
  }

  function IsInside(t: Thread): nat {
    if t.Outside? then 0 else 1
  }

  function Sum(f: Thread -> nat, threads: seq<Thread>): nat {
    if threads == [] then 0 else f(threads[0]) + Sum(f, threads[1..])
  }

  lemma {:induction false} SumUpdate(f: Thread -> nat, threads: seq<Thread>, t: nat, x: Thread)
    requires t < |threads|
    ensures Sum(f, threads[t := x]) == Sum(f, threads) - f(threads[t]) + f(x)
    decreases |threads|
  {
    if t == 0 {
      assert threads[t := x][1..] == threads[1..];
    } else {
      SumUpdate(f, threads[1..], t - 1, x);
      assert threads[t := x][1..] == threads[1..][t - 1 := x];
    }
  }

  lemma {:induction false} SumSame(f: Thread -> nat, a: seq<Thread>, b: seq<Thread>)
    requires |a| == |b| && forall i :: 0 <= i < |a| ==> f(a[i]) == f(b[i])
    ensures Sum(f, a) == Sum(f, b)
    decreases |a|
  {
    if a != [] {
      SumSame(f, a[1..], b[1..]);
    }
  }

  lemma {:induction false} SumAtLeast(f: Thread -> nat, threads: seq<Thread>, t: nat)
    requires t < |threads|
    ensures f(threads[t]) <= Sum(f, threads)
    decreases |threads|
  {
    if t > 0 {
      SumAtLeast(f, threads[1..], t - 1);
    }
  }

  lemma {:induction false} SumZero(f: Thread -> nat, threads: seq<Thread>)
    requires forall i :: 0 <= i < |threads| ==> f(threads[i]) == 0
    ensures Sum(f, threads) == 0
    decreases |threads|
  {
    if threads != [] {
      SumZero(f, threads[1..]);
    }
  }

  /** A positive sum has a positive term. */
  lemma {:induction false} SumPositive(f: Thread -> nat, threads: seq<Thread>) returns (t: nat)
    requires Sum(f, threads) > 0
    ensures t < |threads| && f(threads[t]) > 0
    decreases |threads|
  {
    if f(threads[0]) > 0 {
      t := 0;
    } else {
      t := SumPositive(f, threads[1..]);
      t := t + 1;
    }
  }

  // ---------- the invariant ----------

  ghost predicate AnyFalse(checks: seq<Check>) {
    exists i :: 0 <= i < |checks| && !checks[i].result
  }

  /** The counters say what they are for. */
  ghost predicate CountsOk(s: State) {
    && s.threads != []
    && s.nTodo == |s.queue| + Sum(Held, s.threads)
    && s.nIdle == Sum(IsAsleep, s.threads)
    && s.nTotal == Sum(IsInside, s.threads)
    && forall t :: 0 <= t < |s.threads| && s.threads[t].Busy? ==>
          1 <= s.threads[t].size && |s.threads[t].rest| <= s.threads[t].size
  }

  /** A failure seen, or still to be seen, in what thread `t` holds. */
  ghost predicate Failing(t: Thread) {
    t.Busy? && (!t.ok || AnyFalse(t.rest))
  }

  ghost predicate AnyFailing(threads: seq<Thread>) {
    exists t :: 0 <= t < |threads| && Failing(threads[t])
  }

  /** Some check added since the last Wait is false exactly when a failure is recorded or still to come. */
  ghost predicate ResultOk(s: State) {
    AnyFalse(s.added) <==> !s.allOk || AnyFalse(s.queue) || AnyFailing(s.threads)
  }

  /** A master that sleeps unnotified has something to wait for, and nothing left to take. */
  ghost predicate MasterOk(s: State)
    requires s.threads != []
  {
    s.threads[MASTER].Asleep? ==> s.queue == [] && (s.threads[MASTER].notified || s.nTodo > 0)
  }

  ghost predicate VerdictsOk(s: State) {
    forall i :: 0 <= i < |s.verdicts| ==> (s.verdicts[i].result <==> !AnyFalse(s.verdicts[i].checks))
  }

  ghost predicate Inv(s: State) {
    CountsOk(s) && ResultOk(s) && MasterOk(s) && VerdictsOk(s)
  }

  // ---------- every step keeps it ----------

  /** The counters while thread `t` runs inside the mutex: it is in the loop, but neither asleep nor busy. */
  ghost predicate HeadCountsOk(s: State, t: nat) {
    && t < |s.threads| && s.threads[t].Outside?
    && s.nTodo == |s.queue| + Sum(Held, s.threads)
    && s.nIdle == Sum(IsAsleep, s.threads)
    && s.nTotal == Sum(IsInside, s.threads) + 1
    && forall u :: 0 <= u < |s.threads| && s.threads[u].Busy? ==>
          1 <= s.threads[u].size && |s.threads[u].rest| <= s.threads[u].size
  }

  ghost predicate HeadOk(s: State, t: nat) {
    HeadCountsOk(s, t) && ResultOk(s) && MasterOk(s) && VerdictsOk(s)
  }

  lemma LoopHeadCounts(s: State, t: nat)
    requires HeadCountsOk(s, t)
    ensures CountsOk(LoopHead(s, t))
  {
    var x := LoopHead(s, t).threads[t];
    SumUpdate(Held, s.threads, t, x);
    SumUpdate(IsAsleep, s.threads, t, x);
    SumUpdate(IsInside, s.threads, t, x);
  }

  lemma AnyFalseSplit(a: seq<Check>, b: seq<Check>)
    ensures AnyFalse(a + b) <==> AnyFalse(a) || AnyFalse(b)
  {
    if AnyFalse(a) {
      var i :| 0 <= i < |a| && !a[i].result;
      assert !(a + b)[i].result;
    }
    if AnyFalse(b) {
      var i :| 0 <= i < |b| && !b[i].result;
      assert !(a + b)[|a| + i].result;
    }
  }

  lemma AnyFalseReverse(q: seq<Check>)
    ensures AnyFalse(Reverse(q)) <==> AnyFalse(q)
  {
    if AnyFalse(q) {
      var i :| 0 <= i < |q| && !q[i].result;
      assert !Reverse(q)[|q| - 1 - i].result;
    }
  }

  lemma FailingUpdate(threads: seq<Thread>, t: nat, x: Thread)
    requires t < |threads|
    ensures AnyFailing(threads[t := x]) <==> Failing(x) || AnyFailing(threads[t := Outside])
  {
    var a, b := threads[t := x], threads[t := Outside];
    if Failing(x) {
      assert Failing(a[t]);
    }
    if AnyFailing(b) {
      var u :| 0 <= u < |b| && Failing(b[u]);
      assert a[u] == b[u];
    }
    if AnyFailing(a) && !Failing(x) {
      var u :| 0 <= u < |a| && Failing(a[u]);
      assert b[u] == a[u];
    }
  }

  lemma NobodyBusy(s: State)
    requires Sum(Held, s.threads) == 0
    requires forall u :: 0 <= u < |s.threads| && s.threads[u].Busy? ==> 1 <= s.threads[u].size
    ensures !AnyFailing(s.threads)
  {
    forall u | 0 <= u < |s.threads|
      ensures !s.threads[u].Busy?
    {
      SumAtLeast(Held, s.threads, u);
    }
  }

  /** Going to sleep or taking a batch does not change what is known about the results. */
  lemma LoopHeadResult(s: State, t: nat)
    requires HeadOk(s, t)
    ensures ResultOk(LoopHead(s, t)) && VerdictsOk(LoopHead(s, t))
  {
    var r := LoopHead(s, t);
    var x := r.threads[t];
    assert s.threads == s.threads[t := Outside];
    FailingUpdate(s.threads, t, x);
    if s.queue == [] {
      if t == MASTER && s.nTodo == 0 {
        NobodyBusy(s);
        assert r.added == [] && !AnyFalse(r.added);
      }
    } else {
      var n := BatchOf(s);
      var front, back := s.queue[..|s.queue| - n], s.queue[|s.queue| - n..];
      assert s.queue == front + back;
      AnyFalseSplit(front, back);
      AnyFalseReverse(back);
    }
  }

  lemma LoopHeadKeeps(s: State, t: nat)
    requires HeadOk(s, t)
    ensures Inv(LoopHead(s, t))
  {
    hide ResultOk, VerdictsOk;
    LoopHeadCounts(s, t);
    LoopHeadResult(s, t);
    var r := LoopHead(s, t);
    if t == MASTER && s.queue == [] && s.nTodo != 0 {
      assert s.nTodo > 0;
    }
  }

  lemma EnterKeeps(s: State, t: nat)
    requires Inv(s) && t < |s.threads| && s.threads[t].Outside?
    ensures HeadOk(s.(nTotal := s.nTotal + 1), t)
  {
  }

  lemma WakeKeeps(s: State, t: nat)
    requires Inv(s) && t < |s.threads| && s.threads[t].Asleep?
    ensures HeadOk(s.(nIdle := s.nIdle - 1, threads := s.threads[t := Outside]), t)
  {
    SumUpdate(Held, s.threads, t, Outside);
    SumUpdate(IsAsleep, s.threads, t, Outside);
    SumUpdate(IsInside, s.threads, t, Outside);
    FailingUpdate(s.threads, t, s.threads[t]);
    assert s.threads[t := s.threads[t]] == s.threads;
  }

  /** Notifying a thread changes nothing that is counted. */
  lemma NotifyKeeps(a: seq<Thread>, b: seq<Thread>)
    requires |a| == |b| && forall i :: 0 <= i < |a| ==> b[i] == a[i] || b[i] == Notified(a[i])
    ensures Sum(Held, b) == Sum(Held, a) && Sum(IsAsleep, b) == Sum(IsAsleep, a) && Sum(IsInside, b) == Sum(IsInside, a)
    ensures AnyFailing(b) <==> AnyFailing(a)
  {
    SumSame(Held, a, b);
    SumSame(IsAsleep, a, b);
    SumSame(IsInside, a, b);
    if AnyFailing(a) {
      var t :| 0 <= t < |a| && Failing(a[t]);
      assert Failing(b[t]);
    }
    if AnyFailing(b) {
      var t :| 0 <= t < |b| && Failing(b[t]);
      assert Failing(a[t]);
    }
  }

  lemma SettleKeeps(s: State, t: nat)
    requires Inv(s) && t < |s.threads| && s.threads[t].Busy? && s.threads[t].rest == []
    ensures HeadOk(Settle(s, t), t)
  {
    var b := s.threads[t];
    var threads := s.threads[t := Outside];
    SumUpdate(Held, s.threads, t, Outside);
    SumUpdate(IsAsleep, s.threads, t, Outside);
    SumUpdate(IsInside, s.threads, t, Outside);
    FailingUpdate(s.threads, t, b);
    assert s.threads[t := b] == s.threads;
    assert Failing(b) <==> !b.ok;
    NotifyKeeps(threads, Settle(s, t).threads);
  }

  lemma ExecuteKeeps(s: State, t: nat)
    requires Inv(s) && Enabled(s, ExecuteStep(t))
    ensures Inv(Next(s, ExecuteStep(t)))
  {
    var b := s.threads[t];
    var x := Next(s, ExecuteStep(t)).threads[t];
    SumUpdate(Held, s.threads, t, x);
    SumUpdate(IsAsleep, s.threads, t, x);
    SumUpdate(IsInside, s.threads, t, x);
    FailingUpdate(s.threads, t, b);
    FailingUpdate(s.threads, t, x);
    assert s.threads[t := b] == s.threads;
    assert b.rest == [b.rest[0]] + b.rest[1..];
    AnyFalseSplit([b.rest[0]], b.rest[1..]);
    assert AnyFalse([b.rest[0]]) <==> !b.rest[0].result by {
      assert [b.rest[0]][0] == b.rest[0];
    }
    assert Failing(x) <==> Failing(b);
  }

  lemma AddKeeps(s: State, checks: seq<Check>, wakes: nat)
    requires Inv(s) && s.threads[MASTER].Outside?
    ensures Inv(Add(s, checks, wakes))
  {
    NotifyKeeps(s.threads, Add(s, checks, wakes).threads);
    AnyFalseSplit(s.queue, checks);
    AnyFalseSplit(s.added, checks);
  }

  lemma NextKeeps(s: State, step: Step)
    requires Inv(s) && Enabled(s, step)
    ensures Inv(Next(s, step))
  {
    hide Inv, HeadOk, LoopHead, Settle, Add;
    match step
    case AddStep(checks, wakes) => AddKeeps(s, checks, wakes);
    case EnterStep(t) =>
      EnterKeeps(s, t);
      LoopHeadKeeps(s.(nTotal := s.nTotal + 1), t);
    case ExecuteStep(t) => ExecuteKeeps(s, t);
    case FinishStep(t) =>
      SettleKeeps(s, t);
      LoopHeadKeeps(Settle(s, t), t);
    case WakeStep(t) =>
      WakeKeeps(s, t);
      LoopHeadKeeps(s.(nIdle := s.nIdle - 1, threads := s.threads[t := Outside]), t);
  }

  lemma InitInv(workers: nat, batchSize: nat)
    ensures Inv(Init(workers, batchSize))
  {
    var s := Init(workers, batchSize);
    SumZero(Held, s.threads);
    SumZero(IsAsleep, s.threads);
    SumZero(IsInside, s.threads);
  }

  lemma {:induction false} RunKeeps(s: State, steps: seq<Step>, t: State)
    requires Inv(s) && IsRun(s, steps, t)
    ensures Inv(t)
    decreases |steps|
  {
    hide Inv, Next, Enabled;
    if steps != [] {
      NextKeeps(s, steps[0]);
      RunKeeps(Next(s, steps[0]), steps[1..], t);
    }
  }

  // ---------- what this gives ----------

  /**
  In every interleaving: the unfinished checks are those queued and those in unfinished batches,
  and every Wait so far returned true exactly when every check added for it is true.
   */
  lemma EveryRunIsRight(workers: nat, batchSize: nat, steps: seq<Step>, s: State)
    requires IsRun(Init(workers, batchSize), steps, s)
    ensures s.nTodo == |s.queue| + Sum(Held, s.threads)
    ensures forall i :: 0 <= i < |s.verdicts| ==>
              (s.verdicts[i].result <==> forall k :: 0 <= k < |s.verdicts[i].checks| ==> s.verdicts[i].checks[k].result)
  {
    InitInv(workers, batchSize);
    RunKeeps(Init(workers, batchSize), steps, s);
    forall i | 0 <= i < |s.verdicts|
      ensures s.verdicts[i].result <==> forall k :: 0 <= k < |s.verdicts[i].checks| ==> s.verdicts[i].checks[k].result
    {
      assert s.verdicts[i].result <==> !AnyFalse(s.verdicts[i].checks);
    }
  }

  /** No wake-up is lost: while the master sleeps unnotified, some worker still holds an unfinished batch. */
  lemma SleepingMasterIsServed(s: State) returns (t: nat)
    requires Inv(s) && s.threads[MASTER] == Asleep(false)
    ensures t < |s.threads| && t != MASTER && s.threads[t].Busy?
  {
    t := SumPositive(Held, s.threads);
  }

  /** A step that makes progress: not a spurious wake-up, and not more work from the master. */
  predicate Productive(s: State, step: Step) {
    && Enabled(s, step)
    && (step.EnterStep? || step.ExecuteStep? || step.FinishStep? || (step.WakeStep? && s.threads[step.t].notified))
  }

  /** While the master is in Wait, some thread in the loop can make a productive step. */
  lemma NeverStuck(s: State) returns (step: Step)
    requires Inv(s) && !s.threads[MASTER].Outside?
    ensures Productive(s, step) && !step.EnterStep?
  {
    SumNonNegative(s);
    var t := MASTER;
    if s.threads[MASTER] == Asleep(false) {
      t := SleepingMasterIsServed(s);
    }
    if s.threads[t].Busy? {
      step := if s.threads[t].rest == [] then FinishStep(t) else ExecuteStep(t);
    } else {
      SumAtLeast(IsAsleep, s.threads, t);
      step := WakeStep(t);
    }
  }

  lemma SumNonNegative(s: State)
    requires CountsOk(s)
    ensures s.nTotal >= 0 && s.nIdle >= 0
  {
  }

  /** Work left in a thread: an unstarted one may still enter, a notified one still wake up. */
  function Effort(t: Thread): nat {
    match t
    case Outside => 1
    case Asleep(notified) => if notified then 1 else 0
    case Busy(rest, _, _) => |rest| + 3
  }

  function Work(s: State): nat {
    4 * |s.queue| + Sum(Effort, s.threads)
  }

  lemma LoopHeadWork(s: State, t: nat)
    requires t < |s.threads| && s.threads[t].Outside? && s.nTotal >= 0 && s.nIdle >= 0
    ensures Work(LoopHead(s, t)) <= Work(s) + (if s.queue == [] then 0 else -1)
    ensures LoopHead(s, t).threads[t].Asleep? ==> Work(LoopHead(s, t)) < Work(s)
  {
    SumUpdate(Effort, s.threads, t, LoopHead(s, t).threads[t]);
  }

  /** Every productive step uses up work, and a spurious wake-up makes none, unless the master returns. */
  lemma StepsUseWork(s: State, step: Step)
    requires Inv(s) && Enabled(s, step) && !step.AddStep?
    ensures |Next(s, step).verdicts| >= |s.verdicts|
    ensures || |Next(s, step).verdicts| > |s.verdicts|
            || Work(Next(s, step)) + (if Productive(s, step) then 1 else 0) <= Work(s)
  {
    hide Inv, HeadOk;
    var t := step.t;
    match step {
      case EnterStep(_) =>
        LoopHeadWork(s.(nTotal := s.nTotal + 1), t);
      case ExecuteStep(_) =>
        SumUpdate(Effort, s.threads, t, Next(s, step).threads[t]);
      case FinishStep(_) =>
        SettleWork(s, t);
        LoopHeadWork(Settle(s, t), t);
      case WakeStep(_) =>
        var r := s.(nIdle := s.nIdle - 1, threads := s.threads[t := Outside]);
        SumUpdate(Effort, s.threads, t, Outside);
        LoopHeadWork(r, t);
    }
  }

  ghost function ProductiveSteps(s: State, steps: seq<Step>): nat
    decreases |steps|
  {
    if steps == [] || !Enabled(s, steps[0]) then 0
    else (if Productive(s, steps[0]) then 1 else 0) + ProductiveSteps(Next(s, steps[0]), steps[1..])
  }

  /**
  Wait returns: whatever the order of steps and however many spurious wake-ups there are, a run in
  which nothing is added either has seen a Wait return or has made at most as many productive steps
  as there was work at its start.  With NeverStuck, a productive step is always there to be made.
   */
  lemma {:induction false} WaitReturns(s: State, steps: seq<Step>, t: State)
    requires Inv(s) && IsRun(s, steps, t) && forall i :: 0 <= i < |steps| ==> !steps[i].AddStep?
    ensures |t.verdicts| >= |s.verdicts|
    ensures |t.verdicts| > |s.verdicts| || ProductiveSteps(s, steps) + Work(t) <= Work(s)
    decreases |steps|
  {
    hide Inv, Next, Enabled, Productive, Work;
    if steps != [] {
      NextKeeps(s, steps[0]);
      StepsUseWork(s, steps[0]);
      WaitReturns(Next(s, steps[0]), steps[1..], t);
    }
  }

  lemma SettleWork(s: State, t: nat)
    requires t < |s.threads| && s.threads[t].Busy? && s.threads[t].rest == []
    ensures Work(Settle(s, t)) < Work(s)
  {
    SumUpdate(Effort, s.threads, t, Outside);
    var s1 := s.threads[t := Outside];
    SumUpdate(Effort, s1, MASTER, Notified(s1[MASTER]));
  }
}
