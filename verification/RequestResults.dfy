/** Callbacks are told the truth: the result given to a callback was true of its request when it was decided. */
module RequestResults {
  import opened Options
  import opened Buffers
  import opened Lookups
  import opened Publishing
  import opened TransformableRequests
  import opened RequestSafety
  import opened RequestBookkeeping

  /** Available means transformable; failure means too far behind the latest common time. */
  predicate True(b: Buffer, r: Request, result: TransformableResult) {
    match result
    case TransformAvailable => Transformable(b, r)
    case TransformFailure => Expired(b, r.targetId, r.sourceId, r.time)
  }

  /** What is true of the queued requests now, by their handles */
  ghost predicate TrueNow(s: State, h: nat, result: TransformableResult) {
    exists q :: 0 <= q < |s.requests| && s.requests[q].handle == h && True(s.buffer, s.requests[q], result)
  }

  type Verdicts = iset<(nat, TransformableResult)>

  /** The verdict that the thread has reached on the request at its position, if any */
  function Decided(pc: PC): Option<TransformableResult> {
    match pc
    case TestChecked(_, _, can) => if can then Some(TransformAvailable) else None
    case TestDetachWait(_, _, result) => Some(result)
    case _ => None
  }

  /** Everything the thread is going to tell callbacks is among the verdicts. */
  ghost predicate Backed(v: Verdicts, s: State, pc: PC) {
    && (forall i :: 0 <= i < |PendingOf(pc)| ==> (PendingOf(pc)[i].handle, PendingOf(pc)[i].result) in v)
    && (Decided(pc).Some? && pc.i < |s.requests| ==> (s.requests[pc.i].handle, Decided(pc).value) in v)
  }

  lemma CanNowIsTransformable(b: Buffer, r: Request)
    requires CanNow(b, r)
    ensures Transformable(b, r)
  {
  }

  lemma OwnStep(v: Verdicts, s: State, pc: PC)
    requires ValidRegistry(s.buffer) && AtIndex(pc, |s.requests|) && Backed(v, s, pc)
    requires forall h: nat, result :: TrueNow(s, h, result) ==> (h, result) in v
    ensures Backed(v, NewData(s, pc), NextPC(s, pc))
  {
    hide CanNow, Expired, SetTransform, CanTransformInternal, Number, ValidRegistry, Transformable;
    var p, p' := PendingOf(pc), PendingOf(NextPC(s, pc));
    forall i | 0 <= i < |p'|
      ensures (p'[i].handle, p'[i].result) in v
    {
      if pc.Calling? {
        assert p'[i] == p[i + 1];
      } else if i < |p| {
        assert p'[i] == p[i];
      }
    }
    if pc.TestAge? && Expired(s.buffer, s.requests[pc.i].targetId, s.requests[pc.i].sourceId, s.requests[pc.i].time) {
      assert True(s.buffer, s.requests[pc.i], TransformFailure);
      assert TrueNow(s, s.requests[pc.i].handle, TransformFailure);
    } else if pc.TestFrameWait? && CanNow(s.buffer, s.requests[pc.i]) {
      CanNowIsTransformable(s.buffer, s.requests[pc.i]);
      assert True(s.buffer, s.requests[pc.i], TransformAvailable);
      assert TrueNow(s, s.requests[pc.i].handle, TransformAvailable);
    }
  }

  lemma OtherStep(v: Verdicts, s: State, k: nat, j: nat)
    requires ValidRegistry(s.buffer) && LockInv(s) && Enabled(s, k) && j < |s.threads| && j != k
    requires Backed(v, s, s.threads[j])
    ensures Backed(v, Advance(s, k), s.threads[j])
  {
    var pc := s.threads[j];
    if Decided(pc).Some? {
      LockIsExclusive(s, k, j, RequestsMutex);
      QueueNeedsLock(s, s.threads[k]);
    }
    hide NextPC, NewData, ValidRegistry, PendingOf;
  }

  // ----- whole runs -----

  /** What was true at some state of the run up to position i */
  ghost function TrueSoFar(run: seq<State>, i: nat): Verdicts
    requires i < |run|
  {
    iset h: nat, result | TrueBy(run, i, h, result) :: (h, result)
  }

  ghost predicate TrueBy(run: seq<State>, i: nat, h: nat, result: TransformableResult)
    requires i < |run|
  {
    exists j :: 0 <= j <= i && TrueNow(run[j], h, result)
  }

  ghost predicate AllBacked(v: Verdicts, s: State) {
    forall k :: 0 <= k < |s.threads| ==> Backed(v, s, s.threads[k])
  }

  lemma BackedMore(v: Verdicts, v': Verdicts, s: State)
    requires AllBacked(v, s) && v <= v'
    ensures AllBacked(v', s)
  {
    hide PendingOf, Decided;
  }

  lemma BackedBegins(v: Verdicts, s: State, s': State)
    requires AllBacked(v, s) && Begins(s, s')
    ensures AllBacked(v, s')
  {
  }

  lemma BackedNext(v: Verdicts, s: State, s': State)
    requires BookInv(s) && AllBacked(v, s) && Next(s, s')
    requires forall h: nat, result :: TrueNow(s, h, result) ==> (h, result) in v
    ensures AllBacked(v, s')
  {
    hide Backed, TrueNow, Advance, Begins;
    if Begins(s, s') {
      BackedBegins(v, s, s');
    } else {
      var k: nat :| Enabled(s, k) && s' == Advance(s, k);
      forall j | 0 <= j < |s'.threads|
        ensures Backed(v, s', s'.threads[j])
      {
        BackedAdvance(v, s, k, j);
      }
    }
  }

  lemma BackedAdvance(v: Verdicts, s: State, k: nat, j: nat)
    requires ValidRegistry(s.buffer) && BookInv(s) && AllBacked(v, s) && Enabled(s, k)
    requires forall h: nat, result :: TrueNow(s, h, result) ==> (h, result) in v
    requires j < |Advance(s, k).threads|
    ensures Backed(v, Advance(s, k), Advance(s, k).threads[j])
  {
    var s' := Advance(s, k);
    assert AtIndex(s.threads[k], |s.requests|) && LockInv(s) && Backed(v, s, s.threads[j]);
    hide TrueNow, NextPC, NewData, BookInv, AtIndex, LockInv, ValidRegistry, AllBacked;
    if j == k {
      OwnStep(v, s, s.threads[k]);
      SameQueueBacked(v, NewData(s, s.threads[k]), s', NextPC(s, s.threads[k]));
    } else {
      OtherStep(v, s, k, j);
    }
  }

  lemma SameQueueBacked(v: Verdicts, s: State, s': State, pc: PC)
    requires Backed(v, s, pc) && s'.requests == s.requests
    ensures Backed(v, s', pc)
  {
    hide PendingOf, Decided;
  }

  lemma TrueSoFarGrows(run: seq<State>, i: nat)
    requires i + 1 < |run|
    ensures TrueSoFar(run, i) <= TrueSoFar(run, i + 1)
    ensures forall h: nat, result :: TrueNow(run[i], h, result) ==> (h, result) in TrueSoFar(run, i)
  {
    hide TrueNow;
    forall h: nat, result | TrueNow(run[i], h, result)
      ensures TrueBy(run, i, h, result)
    {
    }
    forall h: nat, result | TrueBy(run, i, h, result)
      ensures TrueBy(run, i + 1, h, result)
    {
    }
  }

  lemma {:induction false} AlwaysBacked(run: seq<State>, i: nat)
    requires IsRun(run) && i < |run|
    ensures AllBacked(TrueSoFar(run, i), run[i])
  {
    hide AllBacked, TrueSoFar, Next, BookInv, Init, TrueNow;
    if i == 0 {
      InitBacked(TrueSoFar(run, 0), run[0]);
    } else {
      AlwaysBacked(run, i - 1);
      BookInvAlways(run, i - 1);
      TrueSoFarGrows(run, i - 1);
      assert Next(run[i - 1], run[i - 1 + 1]);
      BackedNext(TrueSoFar(run, i - 1), run[i - 1], run[i]);
      BackedMore(TrueSoFar(run, i - 1), TrueSoFar(run, i), run[i]);
    }
  }

  lemma InitBacked(v: Verdicts, s: State)
    requires Init(s)
    ensures AllBacked(v, s)
  {
    hide Valid;
  }

  /** Whenever a callback is about to be called, then at some earlier state its request was queued and
      transformable, if it is told so, or expired, if it is told of a failure. */
  lemma CallbacksAreToldTheTruth(run: seq<State>, i: nat, k: nat)
    requires IsRun(run) && i < |run| && k < |run[i].threads|
    requires run[i].threads[k].Calling? && run[i].threads[k].pending != []
    ensures var told := run[i].threads[k].pending[0];
            exists j :: 0 <= j <= i && TrueNow(run[j], told.handle, told.result)
  {
    hide IsRun, TrueNow;
    AlwaysBacked(run, i);
    var told := run[i].threads[k].pending[0];
    assert Backed(TrueSoFar(run, i), run[i], run[i].threads[k]);
    assert PendingOf(run[i].threads[k])[0] == told;
    assert (told.handle, told.result) in TrueSoFar(run, i);
    assert TrueBy(run, i, told.handle, told.result);
  }
}
