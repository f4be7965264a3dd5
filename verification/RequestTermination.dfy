/** Operations finish: once no new ones begin, the number of further steps is bounded, and when they are over
    no request that could be served is left in the queue. */
module RequestTermination {
  import opened Buffers
  import opened Lookups
  import opened Publishing
  import opened TransformableRequests
  import opened RequestBookkeeping
  import opened RequestWakeup

  /** The operation may still put a request into the queue. */
  predicate MayAdd(pc: PC) {
    pc.AddClientWait? || pc.AddWait? || pc.AddTarget? || pc.AddSource? || pc.AddFrameWait? || pc.AddChecked? || pc.AddAge? ||
    pc.AddCallbackWait?
  }

  function Adders(threads: seq<PC>): nat {
    if threads == [] then 0 else (if MayAdd(threads[0]) then 1 else 0) + Adders(threads[1..])
  }

  /** No queue that can still come about is longer. */
  function Bound(s: State): nat {
    |s.requests| + Adders(s.threads)
  }

  function Remaining(n: nat, i: nat): nat {
    if i <= n then n - i else 0
  }

  /** More than the steps that the operation still has to make when the queue is never longer than n */
  function Work(pc: PC, n: nat): nat {
    match pc
    case Idle => 0
    case ReadWait => 2
    case Reading => 1
    case SetWait(_) => 16 + 11 * n
    case SetStored(_) => 15 + 11 * n
    case TestWait => 14 + 11 * n
    case TestHead(i, p) => 13 + 2 * |p| + 11 * Remaining(n, i)
    case TestSource(i, p) => 12 + 2 * |p| + 11 * Remaining(n, i)
    case TestAge(i, p) => 11 + 2 * |p| + 11 * Remaining(n, i)
    case TestFrameWait(i, p) => 10 + 2 * |p| + 11 * Remaining(n, i)
    case TestChecked(i, p, _) => 9 + 2 * |p| + 11 * Remaining(n, i)
    case TestDetachWait(i, p, _) => 8 + 2 * |p| + 11 * Remaining(n, i)
    case TestDetached(i, p) => 14 + 2 * |p| + 11 * Remaining(n, i)
    case Calling(p) => 1 + 2 * |p|
    case InCallback(p) => 2 + 2 * |p|
    case AddClientWait(_) => 11
    case AddWait(_) => 10
    case AddTarget(_) => 9
    case AddSource(_, _) => 8
    case AddFrameWait(_, _, _) => 7
    case AddChecked(_, _, _, _) => 6
    case AddAge(_, _, _) => 5
    case AddCallbackWait(_, _, _) => 4
    case AddQueued(_) => 3
    case AddUnlock(_) => 2
    case AddLeave => 1
    case CancelWait(_) => 4
    case CancelCallbackWait(_) => 3
    case CancelErased => 2
    case CancelUnlock => 1
  }

  function TotalWork(threads: seq<PC>, n: nat): nat {
    if threads == [] then 0 else Work(threads[0], n) + TotalWork(threads[1..], n)
  }

  function Steps(s: State): nat {
    TotalWork(s.threads, Bound(s))
  }

  // ----- sums over threads -----

  lemma {:induction false} AddersUpdate(threads: seq<PC>, k: nat, pc: PC)
    requires k < |threads|
    ensures Adders(threads[k := pc]) + (if MayAdd(threads[k]) then 1 else 0) == Adders(threads) + (if MayAdd(pc) then 1 else 0)
  {
    var threads' := threads[k := pc];
    if k == 0 {
      assert threads'[1..] == threads[1..];
    } else {
      AddersUpdate(threads[1..], k - 1, pc);
      assert threads'[1..] == threads[1..][k - 1 := pc];
    }
  }

  lemma WorkGrows(pc: PC, n: nat, n': nat)
    requires n' <= n
    ensures Work(pc, n') <= Work(pc, n)
  {
  }

  lemma {:induction false} TotalWorkGrows(threads: seq<PC>, n: nat, n': nat)
    requires n' <= n
    ensures TotalWork(threads, n') <= TotalWork(threads, n)
  {
    hide Work;
    if threads != [] {
      WorkGrows(threads[0], n, n');
      TotalWorkGrows(threads[1..], n, n');
    }
  }

  lemma {:induction false} TotalWorkUpdate(threads: seq<PC>, k: nat, pc: PC, n: nat, n': nat)
    requires k < |threads| && n' <= n && Work(pc, n') < Work(threads[k], n)
    ensures TotalWork(threads[k := pc], n') < TotalWork(threads, n)
  {
    hide Work;
    var threads' := threads[k := pc];
    if k == 0 {
      assert threads'[1..] == threads[1..];
      TotalWorkGrows(threads[1..], n, n');
    } else {
      TotalWorkUpdate(threads[1..], k - 1, pc, n, n');
      assert threads'[1..] == threads[1..][k - 1 := pc];
      WorkGrows(threads[0], n, n');
    }
  }

  // ----- one step -----

  lemma {:induction false} WithoutShorter(q: seq<Request>, h: nat)
    ensures |Without(q, h)| <= |q|
  {
    if q != [] {
      WithoutShorter(q[1..], h);
    }
  }

  /** What the step changes about the length of the queue and about the thread's intent to add to it */
  lemma QueueLength(s: State, pc: PC)
    requires ValidRegistry(s.buffer) && !pc.Idle? && AtIndex(pc, |s.requests|)
    ensures var n, n' := |s.requests|, |NewData(s, pc).requests|;
            && (pc.AddCallbackWait? ==> n' == n + 1 && MayAdd(pc))
            && (pc.TestDetachWait? ==> n' == n - 1)
            && (!pc.AddCallbackWait? ==> n' <= n)
            && (MayAdd(NextPC(s, pc)) ==> MayAdd(pc) && !pc.AddCallbackWait?)
  {
    hide CanNow, Expired, SetTransform, CanTransformInternal, Number, ValidRegistry;
    if pc.CancelCallbackWait? {
      WithoutShorter(s.requests, pc.handle);
    }
  }

  predicate InTest(pc: PC) {
    pc.TestHead? || pc.TestSource? || pc.TestAge? || pc.TestFrameWait? || pc.TestChecked? || pc.TestDetachWait? || pc.TestDetached?
  }

  lemma TestWork(s: State, pc: PC, n: nat, n': nat)
    requires ValidRegistry(s.buffer) && InTest(pc) && AtIndex(pc, |s.requests|) && |s.requests| <= n
    requires n' <= n && (pc.TestDetachWait? ==> n' < n)
    ensures Work(NextPC(s, pc), n') < Work(pc, n)
  {
    hide CanNow, Expired, SetTransform, CanTransformInternal, Number, ValidRegistry;
  }

  lemma OtherWork(s: State, pc: PC, n: nat, n': nat)
    requires ValidRegistry(s.buffer) && !InTest(pc) && !pc.Idle? && n' <= n
    ensures Work(NextPC(s, pc), n') < Work(pc, n)
  {
    hide CanNow, Expired, SetTransform, CanTransformInternal, Number, ValidRegistry;
  }

  /** A step of the thread uses up work, whatever the bound on the queue becomes. */
  lemma WorkStep(s: State, pc: PC, n: nat, n': nat)
    requires ValidRegistry(s.buffer) && !pc.Idle? && AtIndex(pc, |s.requests|) && |s.requests| <= n
    requires n' <= n && (pc.TestDetachWait? ==> n' < n)
    ensures Work(NextPC(s, pc), n') < Work(pc, n)
  {
    hide Work, NextPC, AtIndex, InTest, ValidRegistry;
    if InTest(pc) {
      TestWork(s, pc, n, n');
    } else {
      OtherWork(s, pc, n, n');
    }
  }

  lemma StepsDecrease(s: State, k: nat)
    requires ValidRegistry(s.buffer) && BookInv(s) && Enabled(s, k)
    ensures Steps(Advance(s, k)) < Steps(s)
  {
    var pc, s' := s.threads[k], Advance(s, k);
    assert AtIndex(pc, |s.requests|);
    hide Work, NextPC, NewData, BookInv, AtIndex, MayAdd, ValidRegistry;
    QueueLength(s, pc);
    AddersUpdate(s.threads, k, NextPC(s, pc));
    WorkStep(s, pc, Bound(s), Bound(s'));
    TotalWorkUpdate(s.threads, k, NextPC(s, pc), Bound(s), Bound(s'));
  }

  // ----- whole runs -----

  /** An operation under way takes a step. */
  ghost predicate GoesOn(s: State, s': State) {
    ValidRegistry(s.buffer) && exists k: nat :: Enabled(s, k) && s' == Advance(s, k)
  }

  ghost predicate NoStepLeft(s: State) {
    forall k: nat :: !Enabled(s, k)
  }

  /** From position i on, operations under way go on and none begins. */
  ghost predicate Draining(run: seq<State>, i: nat) {
    forall j: nat :: i <= j < |run| - 1 ==> GoesOn(run[j], run[j + 1])
  }

  lemma GoingOnDecreases(s: State, s': State)
    requires BookInv(s) && GoesOn(s, s')
    ensures Steps(s') < Steps(s)
  {
    hide Steps, BookInv, Advance;
    var k: nat :| Enabled(s, k) && s' == Advance(s, k);
    StepsDecrease(s, k);
  }

  lemma {:induction false} StepsBound(run: seq<State>, i: nat, j: nat)
    requires IsRun(run) && i <= j < |run| && Draining(run, i)
    ensures j - i + Steps(run[j]) <= Steps(run[i])
  {
    hide IsRun, Steps, BookInv, GoesOn;
    if i < j {
      StepsBound(run, i, j - 1);
      BookInvAlways(run, j - 1);
      assert GoesOn(run[j - 1], run[j - 1 + 1]);
      GoingOnDecreases(run[j - 1], run[j]);
    }
  }

  /** Once no operation begins any more, those under way finish within a bounded number of steps, whatever the
      scheduling: when no step is left, every operation has finished. */
  lemma OperationsFinish(run: seq<State>, i: nat)
    requires IsRun(run) && i < |run| && Draining(run, i)
    ensures |run| - 1 - i <= Steps(run[i])
    ensures var s := run[|run| - 1];
            NoStepLeft(s) ==> forall k :: 0 <= k < |s.threads| ==> s.threads[k].Idle?
  {
    var last := |run| - 1;
    hide Steps, Draining, Enabled, IsRun;
    StepsBound(run, i, last);
    var s := run[last];
    if k :| 0 <= k < |s.threads| && !s.threads[k].Idle? {
      NeverStuck(run, last);
    }
  }

  lemma CalmRunIsRun(run: seq<State>)
    requires IsCalmRun(run)
    ensures IsRun(run)
  {
  }

  /** And then every request that is transformable has left the queue. */
  lemma QueueDrains(run: seq<State>, i: nat)
    requires IsCalmRun(run) && i < |run| && Draining(run, i)
    requires NoStepLeft(run[|run| - 1])
    ensures var s := run[|run| - 1]; forall j :: 0 <= j < |s.requests| ==> !Transformable(s.buffer, s.requests[j])
  {
    hide Draining, Transformable, NoStepLeft, IsRun, IsCalmRun, Steps;
    var last := |run| - 1;
    CalmRunIsRun(run);
    OperationsFinish(run, i);
    var s := run[last];
    assert forall k :: 0 <= k < |s.threads| ==> s.threads[k].Idle?;
    forall j | 0 <= j < |run[last].requests|
      ensures !Transformable(run[last].buffer, run[last].requests[j])
    {
      QuiescentQueueWaits(run, last, j);
    }
  }
}
