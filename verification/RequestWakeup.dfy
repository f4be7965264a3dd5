/** No wakeup is lost: whenever a queued request is transformable, some thread has updated the
    buffer and has not yet examined that request in its own test pass. */
module RequestWakeup {
  import opened TimeCaches
  import opened Buffers
  import opened Lookups
  import opened Publishing
  import opened RejectedUpdates
  import opened TransformableRequests
  import opened RequestSafety
  import opened RequestBookkeeping

  // ----- who is going to look -----

  /** The thread has changed the buffer and not yet begun its test pass. */
  predicate Notifying(pc: PC) {
    pc.TestWait? || (pc.SetStored? && pc.accepted)
  }

  /** The thread is in its test pass and has not yet settled the request at position j. */
  predicate Examining(pc: PC, j: nat) {
    || ((pc.TestHead? || pc.TestSource? || pc.TestAge? || pc.TestFrameWait? || pc.TestDetachWait? || pc.TestDetached?) && pc.i <= j)
    || (pc.TestChecked? && if pc.can then pc.i <= j else pc.i < j)
  }

  ghost predicate SomeoneNotifies(s: State) {
    exists k :: 0 <= k < |s.threads| && Notifying(s.threads[k])
  }

  ghost predicate SomeoneExamines(s: State, j: nat) {
    exists k :: 0 <= k < |s.threads| && Examining(s.threads[k], j)
  }

  ghost predicate NoLostWakeup(s: State) {
    forall j: nat :: j < |s.requests| && Transformable(s.buffer, s.requests[j]) ==>
      SomeoneNotifies(s) || SomeoneExamines(s, j)
  }

  // ----- the invariant behind it -----

  ghost predicate WfRequest(b: Buffer, r: Request) {
    && r.targetId < |b.frames| && r.sourceId < |b.frames|
    && (r.targetId == NO_FRAME && r.sourceId == NO_FRAME ==> r.targetString != r.sourceString)
  }

  /** The ids in the request are not those that its names have now. */
  predicate Stale(b: Buffer, r: Request) {
    WithIds(b, r) != r
  }

  predicate TargetStale(b: Buffer, r: Request) {
    WithTarget(b, r) != r
  }

  /** What a request with these arguments would find now */
  predicate Want(b: Buffer, args: AddArgs) {
    CanTransformInternal(b, Number(b, args.target), Number(b, args.source), args.time)
  }

  ghost predicate Looked(b: Buffer, name: string, id: FrameId) {
    id == NO_FRAME || id == Number(b, name)
  }

  /** A thread between looking something up and acting on it relies on a notification for whatever changed since. */
  ghost predicate ThreadInv(s: State, pc: PC) {
    match pc
    case SetWait(m) => Acceptable(m) && Unreserved(m)
    case TestSource(i, _) =>
      i < |s.requests| && TargetStale(s.buffer, s.requests[i]) && Transformable(s.buffer, s.requests[i]) ==> SomeoneNotifies(s)
    case TestAge(i, _) =>
      i < |s.requests| && Stale(s.buffer, s.requests[i]) && Transformable(s.buffer, s.requests[i]) ==> SomeoneNotifies(s)
    case TestFrameWait(i, _) =>
      i < |s.requests| && Stale(s.buffer, s.requests[i]) && Transformable(s.buffer, s.requests[i]) ==> SomeoneNotifies(s)
    case AddClientWait(args) => args.target != args.source
    case AddWait(args) => args.target != args.source
    case AddTarget(args) => args.target != args.source
    case AddSource(args, t) =>
      && args.target != args.source && Looked(s.buffer, args.target, t)
      && (Want(s.buffer, args) && t != Number(s.buffer, args.target) ==> SomeoneNotifies(s))
    case AddFrameWait(args, t, f) =>
      && args.target != args.source && Looked(s.buffer, args.target, t) && Looked(s.buffer, args.source, f)
      && (Want(s.buffer, args) && !(t == Number(s.buffer, args.target) && f == Number(s.buffer, args.source)) ==> SomeoneNotifies(s))
    case AddChecked(args, t, f, can) =>
      && args.target != args.source && Looked(s.buffer, args.target, t) && Looked(s.buffer, args.source, f)
      && (Want(s.buffer, args) && !can ==> SomeoneNotifies(s))
    case AddAge(args, t, f) =>
      && args.target != args.source && Looked(s.buffer, args.target, t) && Looked(s.buffer, args.source, f)
      && (Want(s.buffer, args) ==> SomeoneNotifies(s))
    case AddCallbackWait(args, t, f) =>
      && args.target != args.source && Looked(s.buffer, args.target, t) && Looked(s.buffer, args.source, f)
      && (Want(s.buffer, args) ==> SomeoneNotifies(s))
    case _ => true
  }

  ghost predicate RequestsWf(s: State) {
    forall j :: 0 <= j < |s.requests| ==> WfRequest(s.buffer, s.requests[j])
  }

  ghost predicate ThreadsInv(s: State) {
    forall k :: 0 <= k < |s.threads| ==> ThreadInv(s, s.threads[k])
  }

  ghost predicate WakeInv(s: State) {
    BookInv(s) && RequestsWf(s) && ThreadsInv(s) && NoLostWakeup(s)
  }

  // ----- a rejected setTransform -----

  lemma ResolvedWorn(b: Buffer, b': Buffer, id: FrameId, name: string)
    requires Valid(b) && Worn(b, b') && id < |b.frames|
    ensures Resolved(b', id, name) == Resolved(b, id, name) || (id == NO_FRAME && Resolved(b', id, name) >= |b.frames|)
  {
  }

  /** It skips the test pass, and it never makes a queued request transformable. */
  lemma RejectionEnablesNothing(b: Buffer, b': Buffer, r: Request)
    requires WellBehaved(b) && Valid(b') && Worn(b, b') && WfRequest(b, r)
    requires Transformable(b', r)
    ensures Transformable(b, r)
  {
    var t, f := Resolved(b', r.targetId, r.targetString), Resolved(b', r.sourceId, r.sourceString);
    ResolvedWorn(b, b', r.targetId, r.targetString);
    ResolvedWorn(b, b', r.sourceId, r.sourceString);
    if t >= |b.frames| || f >= |b.frames| {
      assert t != f;
      NewNameUnrelated(b, b', t, f, r.time);
      assert false;
    } else {
      WornRelatesNoMore(b, b', t, f, r.time);
    }
  }

  /** The request that an adder is about to make, by name */
  function ByName(args: AddArgs): Request {
    Request(NO_FRAME, NO_FRAME, args.target, args.source, args.time, 0, 0)
  }

  lemma WantIsTransformable(b: Buffer, args: AddArgs, t: FrameId, f: FrameId, handle: nat, callback: nat)
    requires Looked(b, args.target, t) && Looked(b, args.source, f)
    ensures Transformable(b, NewRequest(args, t, f, handle, callback)) <==> Want(b, args)
    ensures Transformable(b, ByName(args)) <==> Want(b, args)
  {
  }

  lemma RejectionGrantsNoWant(b: Buffer, b': Buffer, args: AddArgs)
    requires WellBehaved(b) && Valid(b') && Worn(b, b') && args.target != args.source
    requires Want(b', args)
    ensures Want(b, args)
    ensures Number(b', args.target) == Number(b, args.target) && Number(b', args.source) == Number(b, args.source)
  {
    WantIsTransformable(b, args, 0, 0, 0, 0);
    WantIsTransformable(b', args, 0, 0, 0, 0);
    RejectionEnablesNothing(b, b', ByName(args));
  }

  // ----- notifications persist -----

  lemma NotifiesKept(s: State, s': State, k: nat)
    requires k < |s.threads| == |s'.threads| && (forall j :: 0 <= j < |s.threads| && j != k ==> s'.threads[j] == s.threads[j])
    requires Notifying(s.threads[k]) ==> Notifying(s'.threads[k])
    ensures SomeoneNotifies(s) ==> SomeoneNotifies(s')
  {
    if SomeoneNotifies(s) {
      var j :| 0 <= j < |s.threads| && Notifying(s.threads[j]);
      assert Notifying(s'.threads[j]);
    }
  }

  lemma ExaminesKept(s: State, s': State, k: nat, j: nat)
    requires k < |s.threads| == |s'.threads| && (forall i :: 0 <= i < |s.threads| && i != k ==> s'.threads[i] == s.threads[i])
    requires Examining(s.threads[k], j) ==> Examining(s'.threads[k], j)
    ensures SomeoneExamines(s, j) ==> SomeoneExamines(s', j)
  {
    if SomeoneExamines(s, j) {
      var i :| 0 <= i < |s.threads| && Examining(s.threads[i], j);
      assert Examining(s'.threads[i], j);
    }
  }

  /** Examining takes the requests mutex, so the thread that holds it is the only one that can be at it. */
  lemma OnlyHolderExamines(s: State, k: nat, j: nat)
    requires LockInv(s) && k < |s.threads| && Holds(s.threads[k], RequestsMutex)
    ensures SomeoneExamines(s, j) ==> Examining(s.threads[k], j)
  {
    if SomeoneExamines(s, j) {
      var i :| 0 <= i < |s.threads| && Examining(s.threads[i], j);
      assert Holds(s.threads[i], RequestsMutex);
      LockIsExclusive(s, k, i, RequestsMutex);
    }
  }

  // ----- setTransform -----

  lemma StoreGrows(b: Buffer, m: Message)
    requires Valid(b) && Acceptable(m) && Unreserved(m)
    ensures |b.frames| <= |SetTransform(b, m).buffer.frames|
  {
    RegisterValid(b, StripSlash(m.childFrameId));
    RegisterValid(Register(b, StripSlash(m.childFrameId)).0, StripSlash(m.frameId));
  }

  /** After an accepted update the updating thread covers everything. */
  lemma WakeAccepted(s: State, k: nat, s': State)
    requires WakeInv(s) && Valid(s.buffer) && Enabled(s, k) && s.threads[k].SetWait?
    requires s' == Advance(s, k) && SetTransform(s.buffer, s.threads[k].message).accepted
    ensures RequestsWf(s') && ThreadsInv(s') && NoLostWakeup(s')
  {
    var m, b, b' := s.threads[k].message, s.buffer, s'.buffer;
    assert ThreadInv(s, s.threads[k]);
    StoreValid(b, m);
    StoreGrows(b, m);
    assert Notifying(s'.threads[k]);
    assert SomeoneNotifies(s');
    assert s'.requests == s.requests;
    hide Transformable, Want, SetTransform, Store, Valid, Acceptable, BookInv, NoLostWakeup, Number, Stale, TargetStale, SomeoneNotifies;
    forall j | 0 <= j < |s'.threads|
      ensures ThreadInv(s', s'.threads[j])
    {
      if j != k {
        assert ThreadInv(s, s.threads[j]);
        ThreadInvNotified(s, s', s.threads[j]);
      }
    }
  }

  lemma ThreadInvNotified(s: State, s': State, pc: PC)
    requires ThreadInv(s, pc) && SomeoneNotifies(s') && s'.requests == s.requests
    requires forall n :: n in s.buffer.ids ==> n in s'.buffer.ids && s'.buffer.ids[n] == s.buffer.ids[n]
    ensures ThreadInv(s', pc)
  {
    hide Transformable, Want, Stale, TargetStale, SomeoneNotifies, Acceptable;
  }

  lemma RejectedStep(s: State, k: nat)
    requires WakeInv(s) && WellBehaved(s.buffer) && Enabled(s, k) && Harmless(s, k) && s.threads[k].SetWait?
    requires !SetTransform(s.buffer, s.threads[k].message).accepted
    ensures var s' := Advance(s, k);
            && Valid(s'.buffer) && Worn(s.buffer, s'.buffer) && s'.requests == s.requests
            && s'.threads == s.threads[k := SetStored(false)] && |s.buffer.frames| <= |s'.buffer.frames|
  {
    assert ThreadInv(s, s.threads[k]);
    RejectionWears(s.buffer, s.threads[k].message);
    hide Worn, Store, BookInv, NoLostWakeup, RequestsWf, LoopFree, Reparents;
  }

  lemma RequestWf(s: State, j: nat)
    requires RequestsWf(s) && j < |s.requests|
    ensures WfRequest(s.buffer, s.requests[j])
  {
  }

  lemma RequestsWfGrow(s: State, s': State)
    requires RequestsWf(s) && s'.requests == s.requests && |s.buffer.frames| <= |s'.buffer.frames|
    ensures RequestsWf(s')
  {
  }

  /** After a rejected update nothing is transformable that was not before. */
  lemma WakeRejected(s: State, k: nat, s': State)
    requires WakeInv(s) && WellBehaved(s.buffer) && k < |s.threads| && s.threads[k].SetWait?
    requires Valid(s'.buffer) && Worn(s.buffer, s'.buffer) && |s.buffer.frames| <= |s'.buffer.frames|
    requires s'.requests == s.requests && s'.threads == s.threads[k := SetStored(false)]
    ensures RequestsWf(s') && ThreadsInv(s') && NoLostWakeup(s')
  {
    hide BookInv, Stale, TargetStale, SomeoneNotifies, SomeoneExamines, WellBehaved, Worn, Transformable, ThreadInv, WfRequest, Valid, RequestsWf;
    NotifiesKept(s, s', k);
    RequestsWfGrow(s, s');
    forall j: nat | j < |s.requests| && Transformable(s'.buffer, s.requests[j])
      ensures SomeoneNotifies(s') || SomeoneExamines(s', j)
    {
      RequestWf(s, j);
      RejectionEnablesNothing(s.buffer, s'.buffer, s.requests[j]);
      ExaminesKept(s, s', k, j);
    }
    forall j | 0 <= j < |s'.threads|
      ensures ThreadInv(s', s'.threads[j])
    {
      if j != k {
        ThreadInvRejected(s, s', s.threads[j]);
      } else {
        ThreadInvStored(s');
      }
    }
  }

  lemma ThreadInvStored(s: State)
    ensures ThreadInv(s, SetStored(false))
  {
  }

  predicate Testing(pc: PC) {
    pc.TestSource? || pc.TestAge? || pc.TestFrameWait?
  }

  predicate Adding(pc: PC) {
    pc.AddSource? || pc.AddFrameWait? || pc.AddChecked? || pc.AddAge? || pc.AddCallbackWait?
  }

  lemma AdderNames(s: State, pc: PC)
    requires Adding(pc) && ThreadInv(s, pc)
    ensures pc.args.target != pc.args.source
  {
  }

  lemma NoOneElseRelies(s: State, s': State, pc: PC)
    requires ThreadInv(s, pc) && !Adding(pc) && !Testing(pc)
    ensures ThreadInv(s', pc)
  {
  }

  lemma AdderRejected(s: State, s': State, pc: PC)
    requires Adding(pc)
    requires ThreadInv(s, pc)
    requires forall n :: n in s.buffer.ids ==> n in s'.buffer.ids && s'.buffer.ids[n] == s.buffer.ids[n]
    requires SomeoneNotifies(s) ==> SomeoneNotifies(s')
    requires Want(s'.buffer, pc.args) ==> Want(s.buffer, pc.args)
    requires Want(s'.buffer, pc.args) ==>
      Number(s'.buffer, pc.args.target) == Number(s.buffer, pc.args.target) && Number(s'.buffer, pc.args.source) == Number(s.buffer, pc.args.source)
    ensures ThreadInv(s', pc)
  {
    hide SomeoneNotifies, Want;
  }

  lemma TesterRejected(s: State, s': State, pc: PC)
    requires Testing(pc)
    requires ThreadInv(s, pc) && s'.requests == s.requests
    requires SomeoneNotifies(s) ==> SomeoneNotifies(s')
    requires pc.i < |s.requests| && Transformable(s'.buffer, s.requests[pc.i]) ==>
      && Transformable(s.buffer, s.requests[pc.i])
      && (Stale(s'.buffer, s.requests[pc.i]) ==> Stale(s.buffer, s.requests[pc.i]))
      && (TargetStale(s'.buffer, s.requests[pc.i]) ==> TargetStale(s.buffer, s.requests[pc.i]))
    ensures ThreadInv(s', pc)
  {
    hide SomeoneNotifies, Transformable, Stale, TargetStale;
  }

  lemma WornIds(b: Buffer, b': Buffer)
    requires Worn(b, b')
    ensures forall n :: n in b.ids ==> n in b'.ids && b'.ids[n] == b.ids[n]
  {
  }

  lemma ThreadInvRejected(s: State, s': State, pc: PC)
    requires ThreadInv(s, pc) && s'.requests == s.requests && RequestsWf(s)
    requires SomeoneNotifies(s) ==> SomeoneNotifies(s')
    requires WellBehaved(s.buffer) && Valid(s'.buffer) && Worn(s.buffer, s'.buffer)
    ensures ThreadInv(s', pc)
  {
    hide SomeoneNotifies, Acceptable, WellBehaved, Worn, Valid, Want, Transformable, Stale, TargetStale, Number, ThreadInv;
    var b, b' := s.buffer, s'.buffer;
    WornIds(b, b');
    if Testing(pc) {
      if pc.i < |s.requests| && Transformable(b', s.requests[pc.i]) {
        RejectionEnablesNothing(b, b', s.requests[pc.i]);
        StaleBefore(b, b', s.requests[pc.i]);
      }
      TesterRejected(s, s', pc);
    } else if Adding(pc) {
      AdderNames(s, pc);
      if Want(b', pc.args) {
        RejectionGrantsNoWant(b, b', pc.args);
      }
      AdderRejected(s, s', pc);
    } else {
      NoOneElseRelies(s, s', pc);
    }
  }

  /** A request that is transformable and stale after a rejected update was stale before. */
  lemma StaleBefore(b: Buffer, b': Buffer, r: Request)
    requires Worn(b, b') && Transformable(b, r)
    ensures (Stale(b', r) ==> Stale(b, r)) && (TargetStale(b', r) ==> TargetStale(b, r))
  {
  }

  // ----- all other steps -----

  lemma NotifiesStep(s: State, k: nat)
    requires ValidRegistry(s.buffer) && k < |s.threads| && !s.threads[k].TestWait?
    ensures SomeoneNotifies(s) ==> SomeoneNotifies(Advance(s, k))
  {
    hide NewData, NewOwner, CanNow, Expired, SetTransform, CanTransformInternal, Number, ValidRegistry, SomeoneNotifies;
    NotifiesKept(s, Advance(s, k), k);
  }

  predicate Relying(pc: PC) {
    pc.TestSource? || pc.TestAge? || pc.TestFrameWait? || pc.AddSource? || pc.AddFrameWait? || pc.AddChecked? || pc.AddAge? || pc.AddCallbackWait?
  }

  /** Only the holder of the requests mutex relies on notifications, so a thread cannot begin its pass meanwhile. */
  lemma RelyingHolds(s: State, k: nat, j: nat)
    requires LockInv(s) && Enabled(s, k) && j < |s.threads| && j != k && Relying(s.threads[j])
    ensures !s.threads[k].TestWait? && !Holds(s.threads[k], RequestsMutex)
  {
    assert Holds(s.threads[j], RequestsMutex);
    LockIsExclusive(s, k, j, RequestsMutex);
  }

  lemma OthersKeep(s: State, k: nat, j: nat)
    requires ValidRegistry(s.buffer) && WakeInv(s) && Enabled(s, k) && !s.threads[k].SetWait? && j < |s.threads| && j != k
    ensures ThreadInv(Advance(s, k), s.threads[j])
  {
    var s', pc := Advance(s, k), s.threads[j];
    assert ThreadInv(s, pc);
    BufferKept(s, s.threads[k]);
    if Relying(pc) {
      RelyingHolds(s, k, j);
      QueueNeedsLock(s, s.threads[k]);
      NotifiesStep(s, k);
      hide NewData, NextPC, NewOwner, SomeoneNotifies, Transformable, Want, Stale, TargetStale, BookInv, NoLostWakeup, RequestsWf, ValidRegistry, ThreadsInv, Looked;
    } else {
      hide NewData, NextPC, NewOwner, SomeoneNotifies, Transformable, Want, Stale, TargetStale, BookInv, NoLostWakeup, RequestsWf, ValidRegistry, ThreadsInv, Looked;
    }
  }

  lemma LookupsKeep(b: Buffer, r: Request)
    ensures Transformable(b, WithTarget(b, r)) <==> Transformable(b, r)
    ensures Transformable(b, WithSource(b, r)) <==> Transformable(b, r)
    ensures !TargetStale(b, WithTarget(b, r))
    ensures Stale(b, WithSource(b, r)) <==> TargetStale(b, r)
  {
  }

  /** The thread that moves meets its own obligation. */
  lemma OwnTestStep(s: State, pc: PC, s': State)
    requires ValidRegistry(s.buffer) && ThreadInv(s, pc) && (pc.TestHead? || pc.TestSource? || pc.TestAge?)
    requires s'.buffer == s.buffer && s'.requests == NewData(s, pc).requests
    requires SomeoneNotifies(s) ==> SomeoneNotifies(s')
    ensures ThreadInv(s', NextPC(s, pc))
  {
    hide SomeoneNotifies, Transformable, Stale, TargetStale, WithTarget, WithSource, ValidRegistry, Expired;
    if (pc.TestHead? || pc.TestSource?) && pc.i < |s.requests| {
      LookupsKeep(s.buffer, s.requests[pc.i]);
    }
  }

  lemma OwnAddStep(s: State, pc: PC, s': State)
    requires ValidRegistry(s.buffer) && ThreadInv(s, pc)
    requires pc.AddTarget? || pc.AddSource? || pc.AddFrameWait? || pc.AddChecked? || pc.AddAge?
    requires s'.buffer == s.buffer && (SomeoneNotifies(s) ==> SomeoneNotifies(s'))
    ensures ThreadInv(s', NextPC(s, pc))
  {
    hide SomeoneNotifies, ValidRegistry, Expired, Number, CanTransformInternal;
  }

  lemma OwnFreeStep(s: State, pc: PC, s': State)
    requires ValidRegistry(s.buffer) && ThreadInv(s, pc) && !pc.SetWait? && !pc.TestHead? && !pc.TestSource? && !pc.TestAge?
    requires !(pc.AddTarget? || pc.AddSource? || pc.AddFrameWait? || pc.AddChecked? || pc.AddAge?)
    ensures ThreadInv(s', NextPC(s, pc))
  {
    hide SomeoneNotifies, ValidRegistry, Expired, Number, CanTransformInternal, CanNow, Transformable, Stale, TargetStale, Want;
  }

  lemma OwnKeeps(s: State, k: nat)
    requires ValidRegistry(s.buffer) && WakeInv(s) && Enabled(s, k) && !s.threads[k].SetWait?
    ensures ThreadInv(Advance(s, k), NextPC(s, s.threads[k]))
  {
    var s', pc := Advance(s, k), s.threads[k];
    assert ThreadInv(s, pc);
    BufferKept(s, pc);
    hide ThreadInv, NextPC, NewData, NewOwner, ValidRegistry, BookInv, NoLostWakeup, RequestsWf, ThreadsInv, SomeoneNotifies, Enabled;
    if pc.TestHead? || pc.TestSource? || pc.TestAge? {
      NotifiesStep(s, k);
      OwnTestStep(s, pc, s');
    } else if pc.AddTarget? || pc.AddSource? || pc.AddFrameWait? || pc.AddChecked? || pc.AddAge? {
      NotifiesStep(s, k);
      OwnAddStep(s, pc, s');
    } else {
      OwnFreeStep(s, pc, s');
    }
  }

  // ----- the queue -----

  /** The step leaves the request at j as it was, and whoever was examining it still is. */
  lemma QueueKept(s: State, k: nat, j: nat)
    requires ValidRegistry(s.buffer) && WakeInv(s) && Enabled(s, k) && !s.threads[k].SetWait?
    requires !(s.threads[k].TestDetachWait? || s.threads[k].AddCallbackWait? || s.threads[k].CancelCallbackWait?)
    requires j < |Advance(s, k).requests| && Transformable(s.buffer, Advance(s, k).requests[j])
    ensures SomeoneNotifies(Advance(s, k)) || SomeoneExamines(Advance(s, k), j)
  {
    var s', pc := Advance(s, k), s.threads[k];
    RequestsSame(s, pc, j);
    assert Transformable(s.buffer, s.requests[j]);
    assert SomeoneNotifies(s) || SomeoneExamines(s, j);
    assert ThreadInv(s, pc) && AtIndex(pc, |s.requests|);
    if pc.TestWait? {
      assert Examining(s'.threads[k], j);
    } else if pc.TestFrameWait? && pc.i == j {
      NotifiesStep(s, k);
      CheckIsExact(s, pc);
      assert !s'.threads[k].can || Examining(s'.threads[k], j);
    } else {
      NotifiesStep(s, k);
      ExaminingStep(s, pc, j);
      ExaminesKept(s, s', k, j);
    }
  }

  lemma RequestsSame(s: State, pc: PC, j: nat)
    requires ValidRegistry(s.buffer) && !(pc.TestDetachWait? || pc.AddCallbackWait? || pc.CancelCallbackWait?)
    requires j < |NewData(s, pc).requests| && Transformable(s.buffer, NewData(s, pc).requests[j])
    ensures j < |s.requests| && Transformable(s.buffer, s.requests[j])
  {
    if (pc.TestHead? || pc.TestSource?) && pc.i == j {
      LookupsKeep(s.buffer, s.requests[j]);
    }
  }

  lemma ExaminingStep(s: State, pc: PC, j: nat)
    requires ValidRegistry(s.buffer) && j < |s.requests| && !(pc.TestFrameWait? && pc.i == j)
    ensures Examining(pc, j) ==> Examining(NextPC(s, pc), j)
  {
    hide ValidRegistry, Expired, Number, CanTransformInternal, CanNow, SetTransform;
  }

  /** A check that fails with current ids is right; with stale ids it relies on a notification. */
  lemma CheckIsExact(s: State, pc: PC)
    requires ValidRegistry(s.buffer) && pc.TestFrameWait? && pc.i < |s.requests| && ThreadInv(s, pc)
    requires Transformable(s.buffer, s.requests[pc.i])
    ensures NextPC(s, pc).can || SomeoneNotifies(s)
  {
    hide ValidRegistry, CanTransformInternal, SomeoneNotifies;
  }

  /** Swap-remove: what moves to position i has not been examined yet, and what is before i stays. */
  lemma QueueDetach(s: State, k: nat, j: nat)
    requires ValidRegistry(s.buffer) && WakeInv(s) && Enabled(s, k) && s.threads[k].TestDetachWait?
    requires j < |Advance(s, k).requests| && Transformable(s.buffer, Advance(s, k).requests[j])
    ensures SomeoneNotifies(Advance(s, k)) || SomeoneExamines(Advance(s, k), j)
  {
    var s', pc := Advance(s, k), s.threads[k];
    assert AtIndex(pc, |s.requests|);
    NotifiesStep(s, k);
    if pc.i <= j {
      assert Examining(s'.threads[k], j);
    } else {
      assert s'.requests[j] == s.requests[j];
      OnlyHolderExamines(s, k, j);
    }
  }

  /** A new request is covered because the check that preceded it was. */
  lemma QueueAdd(s: State, k: nat, j: nat)
    requires ValidRegistry(s.buffer) && WakeInv(s) && Enabled(s, k) && s.threads[k].AddCallbackWait?
    requires j < |Advance(s, k).requests| && Transformable(s.buffer, Advance(s, k).requests[j])
    ensures SomeoneNotifies(Advance(s, k)) || SomeoneExamines(Advance(s, k), j)
  {
    var pc := s.threads[k];
    assert ThreadInv(s, pc);
    NotifiesStep(s, k);
    if j < |s.requests| {
      OnlyHolderExamines(s, k, j);
    } else {
      WantIsTransformable(s.buffer, pc.args, pc.targetId, pc.sourceId, s.requestCounter + 1, s.callbackCounter + 1);
    }
  }

  lemma {:induction false} WithoutFrom(q: seq<Request>, h: nat, j: nat) returns (i: nat)
    requires j < |Without(q, h)|
    ensures i < |q| && q[i] == Without(q, h)[j]
  {
    if q[0].handle != h && j == 0 {
      i := 0;
    } else {
      i := WithoutFrom(q[1..], h, if q[0].handle == h then j else j - 1);
      i := i + 1;
    }
  }

  lemma QueueCancel(s: State, k: nat, j: nat)
    requires ValidRegistry(s.buffer) && WakeInv(s) && Enabled(s, k) && s.threads[k].CancelCallbackWait?
    requires j < |Advance(s, k).requests| && Transformable(s.buffer, Advance(s, k).requests[j])
    ensures SomeoneNotifies(Advance(s, k)) || SomeoneExamines(Advance(s, k), j)
  {
    var i := WithoutFrom(s.requests, s.threads[k].handle, j);
    NotifiesStep(s, k);
    OnlyHolderExamines(s, k, i);
  }

  lemma RequestsWfStep(s: State, pc: PC)
    requires Valid(s.buffer) && RequestsWf(s) && ThreadInv(s, pc) && AtIndex(pc, |s.requests|) && !pc.SetWait?
    ensures RequestsWf(NewData(s, pc))
  {
    hide Transformable, Want, SomeoneNotifies, Handles, Callbacks, SetTransform;
    NumberBound(s.buffer);
    if pc.CancelCallbackWait? {
      forall j: nat | j < |Without(s.requests, pc.handle)|
        ensures WfRequest(s.buffer, Without(s.requests, pc.handle)[j])
      {
        var i := WithoutFrom(s.requests, pc.handle, j);
      }
    }
  }

  lemma NumberBound(b: Buffer)
    requires Valid(b)
    ensures forall n :: Number(b, n) < |b.frames|
    ensures forall n, n' :: Number(b, n) == Number(b, n') != NO_FRAME ==> n == n'
  {
  }

  lemma WakeQuiet(s: State, k: nat)
    requires Valid(s.buffer) && WakeInv(s) && Enabled(s, k) && !s.threads[k].SetWait?
    ensures var s' := Advance(s, k); RequestsWf(s') && ThreadsInv(s') && NoLostWakeup(s')
  {
    var s', pc := Advance(s, k), s.threads[k];
    assert ThreadInv(s, pc) && AtIndex(pc, |s.requests|);
    RequestsWfStep(s, pc);
    BufferKept(s, pc);
    OwnKeeps(s, k);
    assert s'.buffer == s.buffer && s'.requests == NewData(s, pc).requests && s'.threads == s.threads[k := NextPC(s, pc)];
    assert RequestsWf(s');
    assert ValidRegistry(s.buffer);
    hide Advance, ThreadInv, Transformable, SomeoneNotifies, SomeoneExamines, NextPC, NewData, WakeInv, Valid, Enabled, RequestsWf, ValidRegistry;
    forall j | 0 <= j < |s'.threads|
      ensures ThreadInv(s', s'.threads[j])
    {
      if j != k {
        OthersKeep(s, k, j);
      }
    }
    forall j: nat | j < |s'.requests| && Transformable(s'.buffer, s'.requests[j])
      ensures SomeoneNotifies(s') || SomeoneExamines(s', j)
    {
      if pc.TestDetachWait? {
        QueueDetach(s, k, j);
      } else if pc.AddCallbackWait? {
        QueueAdd(s, k, j);
      } else if pc.CancelCallbackWait? {
        QueueCancel(s, k, j);
      } else {
        QueueKept(s, k, j);
      }
    }
  }

  // ----- whole runs -----

  lemma WakeAdvance(s: State, k: nat)
    requires WakeInv(s) && WellBehaved(s.buffer) && Enabled(s, k) && Harmless(s, k)
    ensures WakeInv(Advance(s, k))
  {
    BookInvAdvance(s, k);
    hide BookInv, RequestsWf, ThreadsInv, NoLostWakeup, Advance, LoopFree, Reparents;
    if !s.threads[k].SetWait? {
      WakeQuiet(s, k);
    } else if SetTransform(s.buffer, s.threads[k].message).accepted {
      WakeAccepted(s, k, Advance(s, k));
    } else {
      RejectedStep(s, k);
      WakeRejected(s, k, Advance(s, k));
    }
  }

  lemma ThreadInvKept(s: State, s': State, pc: PC)
    requires ThreadInv(s, pc) && s'.buffer == s.buffer && s'.requests == s.requests
    requires SomeoneNotifies(s) ==> SomeoneNotifies(s')
    ensures ThreadInv(s', pc)
  {
    hide SomeoneNotifies, Transformable, Want, Stale, TargetStale, Number, Acceptable;
  }

  lemma EntryInv(s: State, pc: PC)
    requires Entry(pc)
    ensures ThreadInv(s, pc)
  {
  }

  lemma IdleDoesNothing()
    ensures !Notifying(Idle) && forall j: nat :: !Examining(Idle, j)
  {
  }

  lemma WakeBegins(s: State, s': State)
    requires WakeInv(s) && Begins(s, s')
    ensures WakeInv(s')
  {
    hide BookInv, SomeoneNotifies, SomeoneExamines, Transformable, Entry, WfRequest, ThreadInv, Notifying, Examining;
    BookInvBegins(s, s');
    var k, pc :| 0 <= k < |s.threads| && s.threads[k].Idle? && Entry(pc) && s' == s.(threads := s.threads[k := pc]);
    IdleDoesNothing();
    NotifiesKept(s, s', k);
    EntryInv(s', pc);
    forall j: nat | j < |s'.requests| && Transformable(s'.buffer, s'.requests[j])
      ensures SomeoneNotifies(s') || SomeoneExamines(s', j)
    {
      ExaminesKept(s, s', k, j);
    }
    forall j | 0 <= j < |s'.threads|
      ensures ThreadInv(s', s'.threads[j])
    {
      if j != k {
        ThreadInvKept(s, s', s.threads[j]);
      }
    }
  }

  lemma WakeInvInit(s: State)
    requires Init(s)
    ensures WakeInv(s)
  {
    BookInvInit(s);
    hide BookInv, Valid;
  }

  lemma WakeInvNext(s: State, s': State)
    requires WakeInv(s) && WellBehaved(s.buffer) && CalmNext(s, s')
    ensures WakeInv(s')
  {
    hide WakeInv, WellBehaved, Begins, Advance, Harmless;
    if Begins(s, s') {
      WakeBegins(s, s');
    } else {
      var k: nat :| Enabled(s, k) && Harmless(s, k) && s' == Advance(s, k);
      WakeAdvance(s, k);
    }
  }

  lemma {:induction false} WakeInvAlways(run: seq<State>, i: nat)
    requires IsCalmRun(run) && i < |run|
    ensures WakeInv(run[i])
  {
    hide WakeInv, LoopFree, Init, Next, CalmNext, Valid;
    if i == 0 {
      WakeInvInit(run[0]);
    } else {
      WakeInvAlways(run, i - 1);
      BufferAlwaysValid(run, i - 1);
      assert CalmNext(run[i - 1], run[i - 1 + 1]);
      WakeInvNext(run[i - 1], run[i]);
    }
  }

  /** In every state of every interleaving, a queued request that is transformable is going to be
      looked at by a thread that updated the buffer. */
  lemma WakeupsNeverLost(run: seq<State>, i: nat)
    requires IsCalmRun(run) && i < |run|
    ensures NoLostWakeup(run[i])
  {
    WakeInvAlways(run, i);
  }

  /** So when all operations have finished, nothing in the queue is transformable. */
  lemma QuiescentQueueWaits(run: seq<State>, i: nat, j: nat)
    requires IsCalmRun(run) && i < |run| && j < |run[i].requests|
    requires forall k :: 0 <= k < |run[i].threads| ==> run[i].threads[k].Idle?
    ensures !Transformable(run[i].buffer, run[i].requests[j])
  {
    WakeupsNeverLost(run, i);
    hide Transformable;
  }
}
