/** How requests end: given up because they are late, answered at once, or queued; and who may touch what meanwhile. */
module RequestOutcomes {
  import opened TimeCaches
  import opened Buffers
  import opened Lookups
  import opened NamedLookups
  import opened TransformableRequests
  import opened RequestSafety
  import opened RequestBookkeeping
  import opened RequestResults
  import opened RequestExpiry
  import opened RequestNames

  // ----- failures -----

  /** A queued request with the handle is about two frames that are late for its time. */
  ghost predicate LateNow(s: State, h: nat) {
    exists q ::
      && 0 <= q < |s.requests| && s.requests[q].handle == h
      && s.requests[q].targetId != NO_FRAME && s.requests[q].sourceId != NO_FRAME
      && Late(s.buffer, s.requests[q].targetId, s.requests[q].sourceId, s.requests[q].time)
  }

  lemma ExpiredIsKnown(b: Buffer, target: FrameId, source: FrameId, time: Time)
    requires Expired(b, target, source, time)
    ensures target != NO_FRAME && source != NO_FRAME
  {
  }

  lemma FailureTrueIsLate(s: State, h: nat)
    requires TrueNow(s, h, TransformFailure) && LatestTree(s.buffer)
    requires forall q :: 0 <= q < |s.requests| ==>
      (s.requests[q].targetId != NO_FRAME && s.requests[q].sourceId != NO_FRAME ==> s.requests[q].targetId != s.requests[q].sourceId)
    ensures LateNow(s, h)
  {
    hide Late, Expired, LatestTree, Transformable;
    var q :| 0 <= q < |s.requests| && s.requests[q].handle == h && True(s.buffer, s.requests[q], TransformFailure);
    var r := s.requests[q];
    ExpiredIsKnown(s.buffer, r.targetId, r.sourceId, r.time);
    ExpiredIsLate(s.buffer, r.targetId, r.sourceId, r.time);
  }

  /** Whenever a callback is about to be told of a failure, then at some earlier state its request was queued, and everything
      dated on the path between its two frames was ahead of its time by more than the cache keeps. */
  lemma FailuresWereLate(run: seq<State>, i: nat, k: nat)
    requires IsRun(run) && i < |run| && k < |run[i].threads|
    requires run[i].threads[k].Calling? && run[i].threads[k].pending != []
    requires run[i].threads[k].pending[0].result == TransformFailure
    requires forall j :: 0 <= j <= i ==> LatestTree(run[j].buffer)
    ensures exists j :: 0 <= j <= i && LateNow(run[j], run[i].threads[k].pending[0].handle)
  {
    hide IsRun, TrueNow, LateNow, LatestTree;
    CallbacksAreToldTheTruth(run, i, k);
    var h := run[i].threads[k].pending[0].handle;
    var j :| 0 <= j <= i && TrueNow(run[j], h, TransformFailure);
    forall q | 0 <= q < |run[j].requests|
      ensures run[j].requests[q].targetId != NO_FRAME && run[j].requests[q].sourceId != NO_FRAME ==>
                run[j].requests[q].targetId != run[j].requests[q].sourceId
    {
      RequestsAreAboutTwoFrames(run, j, q);
    }
    FailureTrueIsLate(run[j], h);
  }

  /** The age check of the test pass gives the request up exactly when it is late. */
  lemma AgeCheckIsExact(s: State, pc: PC)
    requires ValidRegistry(s.buffer) && LatestTree(s.buffer) && pc.TestAge? && pc.i < |s.requests|
    requires var r := s.requests[pc.i]; r.targetId != NO_FRAME && r.sourceId != NO_FRAME && r.targetId != r.sourceId
    ensures var r := s.requests[pc.i];
            NextPC(s, pc) ==
              if Late(s.buffer, r.targetId, r.sourceId, r.time) then TestDetachWait(pc.i, pc.pending, TransformFailure)
              else TestFrameWait(pc.i, pc.pending)
  {
    hide Late, Expired, LatestTree, ValidRegistry;
    var r := s.requests[pc.i];
    ExpiredIsLate(s.buffer, r.targetId, r.sourceId, r.time);
  }

  // ----- adding -----

  /** With ids that are current the check of an adder is canTransform for the names that it was given. */
  lemma AddCheckIsExact(s: State, pc: PC)
    requires Valid(s.buffer) && pc.AddFrameWait? && AdderNamed(s.buffer, pc) && !Misspelt(pc.args.target) && !Misspelt(pc.args.source)
    requires pc.targetId == Number(s.buffer, pc.args.target) && pc.sourceId == Number(s.buffer, pc.args.source)
    ensures NextPC(s, pc) ==
      AddChecked(pc.args, pc.targetId, pc.sourceId, CanTransform(s.buffer, pc.args.target, pc.args.source, pc.args.time))
  {
  }

  /** After a check that failed the request is queued, unless both its frames are known and it is late. */
  lemma AddGivesUpWhenLate(s: State, pc: PC)
    requires ValidRegistry(s.buffer) && LatestTree(s.buffer) && pc.AddAge? && AdderNamed(s.buffer, pc)
    ensures NextPC(s, pc) ==
      if pc.targetId != NO_FRAME && pc.sourceId != NO_FRAME && Late(s.buffer, pc.targetId, pc.sourceId, pc.args.time)
      then AddUnlock(pc.args)
      else AddCallbackWait(pc.args, pc.targetId, pc.sourceId)
  {
    hide Late, Expired, LatestTree, ValidRegistry;
    if pc.targetId != NO_FRAME && pc.sourceId != NO_FRAME {
      ExpiredIsLate(s.buffer, pc.targetId, pc.sourceId, pc.args.time);
    }
  }

  // ----- exclusion -----

  /** The thread is reading or writing the buffer under the frame mutex. */
  predicate InBuffer(pc: PC) {
    pc.Reading? || pc.SetStored? || pc.TestChecked? || pc.AddChecked?
  }

  /** The thread is looking at the queue or changing it. */
  predicate InQueue(pc: PC) {
    pc.TestHead? || pc.TestSource? || pc.TestAge? || pc.TestFrameWait? || pc.TestChecked? || pc.TestDetachWait? || pc.TestDetached? ||
    pc.AddCallbackWait? || pc.AddQueued? || pc.CancelCallbackWait? || pc.CancelErased?
  }

  /** In every run no two threads are at the buffer at once, nor at the queue. */
  lemma OneAtATime(run: seq<State>, i: nat, j: nat, k: nat)
    requires IsRun(run) && i < |run| && j < k < |run[i].threads|
    ensures !(InBuffer(run[i].threads[j]) && InBuffer(run[i].threads[k]))
    ensures !(InQueue(run[i].threads[j]) && InQueue(run[i].threads[k]))
  {
    BookInvAlways(run, i);
    LockIsExclusive(run[i], j, k, FrameMutex);
    LockIsExclusive(run[i], j, k, RequestsMutex);
    hide IsRun, LockInv, CallbackInv, HandleInv;
  }

  /** A step that changes the buffer leaves its thread at the buffer; one that changes the queue is made at the queue. */
  lemma ChangesAreGuarded(s: State, pc: PC)
    requires ValidRegistry(s.buffer)
    ensures NewData(s, pc).buffer != s.buffer ==> InBuffer(NextPC(s, pc))
    ensures NewData(s, pc).requests != s.requests ==> InQueue(pc)
  {
    hide CanNow, Expired, CanTransformInternal, Number, ValidRegistry;
  }

  /** Callbacks run with none of the buffer's mutexes held. */
  lemma CallbacksHoldNothing(run: seq<State>, i: nat, k: nat, l: Lock)
    requires IsRun(run) && i < |run| && k < |run[i].threads| && run[i].threads[k].InCallback? && l != ClientMutex
    ensures l in run[i].owner ==> run[i].owner[l] != k
  {
    BookInvAlways(run, i);
    hide IsRun, CallbackInv, HandleInv;
  }
}
