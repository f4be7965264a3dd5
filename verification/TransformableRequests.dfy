/** The queue of transformable requests as an interleaved step system.

    Every thread runs one public operation at a time.  A step takes a mutex and does
    the work it protects, or releases one, or does a lock-free read; threads interleave
    between any two steps.  Work that only the holder of the requests mutex can
    observe is kept in one step. */
module TransformableRequests {
  import opened Options
  import opened TimeCaches
  import opened Buffers
  import opened Lookups
  import opened Publishing
  import opened RejectedUpdates

  datatype Lock = ClientMutex | RequestsMutex | FrameMutex | CallbacksMutex

  datatype TransformableResult = TransformAvailable | TransformFailure

  /** The strings are kept only for frames that did not exist when the request was made. */
  datatype Request = Request(targetId: FrameId, sourceId: FrameId, targetString: string, sourceString: string,
                             time: Time, handle: nat, callback: nat)

  datatype Pending = Pending(handle: nat, result: TransformableResult)

  /** A call of addTransformableRequest; guarded when the client holds its own mutex around it. */
  datatype AddArgs = AddArgs(target: string, source: string, time: Time, guarded: bool)

  /** Where a thread is.  "Wait" states are about to take a mutex. */
  datatype PC =
    | Idle
    | ReadWait | Reading
    | SetWait(message: Message) | SetStored(accepted: bool)
    | TestWait
    | TestHead(i: nat, pending: seq<Pending>)
    | TestSource(i: nat, pending: seq<Pending>)
    | TestAge(i: nat, pending: seq<Pending>)
    | TestFrameWait(i: nat, pending: seq<Pending>)
    | TestChecked(i: nat, pending: seq<Pending>, can: bool)
    | TestDetachWait(i: nat, pending: seq<Pending>, result: TransformableResult)
    | TestDetached(i: nat, pending: seq<Pending>)
    | Calling(pending: seq<Pending>)
    | InCallback(pending: seq<Pending>)
    | AddClientWait(args: AddArgs)
    | AddWait(args: AddArgs)
    | AddTarget(args: AddArgs)
    | AddSource(args: AddArgs, targetId: FrameId)
    | AddFrameWait(args: AddArgs, targetId: FrameId, sourceId: FrameId)
    | AddChecked(args: AddArgs, targetId: FrameId, sourceId: FrameId, can: bool)
    | AddAge(args: AddArgs, targetId: FrameId, sourceId: FrameId)
    | AddCallbackWait(args: AddArgs, targetId: FrameId, sourceId: FrameId)
    | AddQueued(args: AddArgs)
    | AddUnlock(args: AddArgs)
    | AddLeave
    | CancelWait(handle: nat)
    | CancelCallbackWait(handle: nat)
    | CancelErased
    | CancelUnlock

  /** called and cancelled record the history of handles. */
  datatype State = State(
    buffer: Buffer, requests: seq<Request>, callbacks: set<nat>, callbackCounter: nat, requestCounter: nat,
    owner: map<Lock, nat>, threads: seq<PC>, called: seq<nat>, cancelled: seq<nat>)

  // ----- what the code evaluates -----

  function Resolved(b: Buffer, id: FrameId, name: string): FrameId {
    if id == NO_FRAME then Number(b, name) else id
  }

  function WithTarget(b: Buffer, r: Request): Request {
    r.(targetId := Resolved(b, r.targetId, r.targetString))
  }

  function WithSource(b: Buffer, r: Request): Request {
    r.(sourceId := Resolved(b, r.sourceId, r.sourceString))
  }

  function WithIds(b: Buffer, r: Request): Request {
    WithSource(b, WithTarget(b, r))
  }

  /** The check as made with the ids stored in the request. */
  predicate CanNow(b: Buffer, r: Request) {
    CanTransformInternal(b, r.targetId, r.sourceId, r.time)
  }

  /** A request is transformable when it is with its frames as they are registered now. */
  predicate Transformable(b: Buffer, r: Request) {
    CanNow(b, WithIds(b, r))
  }

  /** Too far in the past ever to become transformable. */
  predicate Expired(b: Buffer, target: FrameId, source: FrameId, time: Time) {
    var latest := LatestCommonTime(b, target, source);
    latest.Ok? && latest.time != TIME_ZERO && time + b.cacheTime < latest.time
  }

  function NewRequest(args: AddArgs, targetId: FrameId, sourceId: FrameId, handle: nat, callback: nat): Request {
    Request(targetId, sourceId, if targetId == NO_FRAME then args.target else "",
            if sourceId == NO_FRAME then args.source else "", args.time, handle, callback)
  }

  function SwapRemove(q: seq<Request>, i: nat): seq<Request>
    requires i < |q|
  {
    var last := |q| - 1;
    (if i < last then q[i := q[last]] else q)[..last]
  }

  function Without(q: seq<Request>, handle: nat): seq<Request> {
    if q == [] then []
    else if q[0].handle == handle then Without(q[1..], handle)
    else [q[0]] + Without(q[1..], handle)
  }

  /** The other part of the stable partition */
  function Matching(q: seq<Request>, handle: nat): seq<Request> {
    if q == [] then []
    else if q[0].handle == handle then [q[0]] + Matching(q[1..], handle)
    else Matching(q[1..], handle)
  }

  function Handles(q: seq<Request>): seq<nat> {
    seq(|q|, i requires 0 <= i < |q| => q[i].handle)
  }

  function Callbacks(q: seq<Request>): set<nat> {
    set i | 0 <= i < |q| :: q[i].callback
  }

  // ----- locks -----

  predicate Holds(pc: PC, l: Lock) {
    match l
    case FrameMutex => pc.Reading? || pc.SetStored? || pc.TestChecked? || pc.AddChecked?
    case CallbacksMutex => pc.TestDetached? || pc.AddQueued? || pc.CancelErased?
    case RequestsMutex =>
      pc.TestHead? || pc.TestSource? || pc.TestAge? || pc.TestFrameWait? || pc.TestChecked? || pc.TestDetachWait? || pc.TestDetached? ||
      pc.AddTarget? || pc.AddSource? || pc.AddFrameWait? || pc.AddChecked? || pc.AddAge? || pc.AddCallbackWait? ||
      pc.AddQueued? || pc.AddUnlock? || pc.CancelCallbackWait? || pc.CancelErased? || pc.CancelUnlock?
    case ClientMutex =>
      pc.InCallback? || pc.AddLeave? ||
      ((pc.AddWait? || pc.AddTarget? || pc.AddSource? || pc.AddFrameWait? || pc.AddChecked? || pc.AddAge? ||
        pc.AddCallbackWait? || pc.AddQueued? || pc.AddUnlock?) && pc.args.guarded)
  }

  /** The mutex that the next step takes, if any */
  function Wants(pc: PC): Option<Lock> {
    match pc
    case ReadWait => Some(FrameMutex)
    case SetWait(_) => Some(FrameMutex)
    case TestWait => Some(RequestsMutex)
    case TestFrameWait(_, _) => Some(FrameMutex)
    case TestDetachWait(_, _, _) => Some(CallbacksMutex)
    case Calling(p) => if p == [] then None else Some(ClientMutex)
    case AddClientWait(_) => Some(ClientMutex)
    case AddWait(_) => Some(RequestsMutex)
    case AddFrameWait(_, _, _) => Some(FrameMutex)
    case AddCallbackWait(_, _, _) => Some(CallbacksMutex)
    case CancelWait(_) => Some(RequestsMutex)
    case CancelCallbackWait(_) => Some(CallbacksMutex)
    case _ => None
  }

  /** The mutex that the next step releases, if any */
  function Frees(s: State, pc: PC): Option<Lock> {
    match pc
    case Reading => Some(FrameMutex)
    case SetStored(_) => Some(FrameMutex)
    case TestHead(i, _) => if i < |s.requests| then None else Some(RequestsMutex)
    case TestChecked(_, _, _) => Some(FrameMutex)
    case TestDetached(_, _) => Some(CallbacksMutex)
    case InCallback(_) => Some(ClientMutex)
    case AddChecked(_, _, _, _) => Some(FrameMutex)
    case AddQueued(_) => Some(CallbacksMutex)
    case AddUnlock(_) => Some(RequestsMutex)
    case AddLeave => Some(ClientMutex)
    case CancelErased => Some(CallbacksMutex)
    case CancelUnlock => Some(RequestsMutex)
    case _ => None
  }

  // ----- steps -----

  predicate Enabled(s: State, k: nat) {
    k < |s.threads| && !s.threads[k].Idle? && (Wants(s.threads[k]).None? || Wants(s.threads[k]).value !in s.owner)
  }

  function NewOwner(s: State, k: nat): map<Lock, nat>
    requires k < |s.threads|
  {
    match Wants(s.threads[k])
    case Some(l) => s.owner[l := k]
    case None =>
      match Frees(s, s.threads[k])
      case Some(l) => s.owner - {l}
      case None => s.owner
  }

  /** Where the thread goes next */
  function NextPC(s: State, pc: PC): PC
    requires ValidRegistry(s.buffer)
  {
    match pc
    case Idle => Idle
    case ReadWait => Reading
    case Reading => Idle
    case SetWait(m) => SetStored(SetTransform(s.buffer, m).accepted)
    case SetStored(accepted) => if accepted then TestWait else Idle
    case TestWait => TestHead(0, [])
    case TestHead(i, p) => if i < |s.requests| then TestSource(i, p) else Calling(p)
    case TestSource(i, p) => TestAge(i, p)
    case TestAge(i, p) =>
      if i < |s.requests| && Expired(s.buffer, s.requests[i].targetId, s.requests[i].sourceId, s.requests[i].time)
      then TestDetachWait(i, p, TransformFailure) else TestFrameWait(i, p)
    case TestFrameWait(i, p) => TestChecked(i, p, i < |s.requests| && CanNow(s.buffer, s.requests[i]))
    case TestChecked(i, p, can) => if can then TestDetachWait(i, p, TransformAvailable) else TestHead(i + 1, p)
    case TestDetachWait(i, p, result) =>
      TestDetached(i, if i < |s.requests| && s.requests[i].callback in s.callbacks
                      then p + [Pending(s.requests[i].handle, result)] else p)
    case TestDetached(i, p) => TestHead(i, p)
    case Calling(p) => if p == [] then Idle else InCallback(p[1..])
    case InCallback(p) => Calling(p)
    case AddClientWait(args) => AddWait(args)
    case AddWait(args) => AddTarget(args)
    case AddTarget(args) => AddSource(args, Number(s.buffer, args.target))
    case AddSource(args, t) => AddFrameWait(args, t, Number(s.buffer, args.source))
    case AddFrameWait(args, t, f) => AddChecked(args, t, f, CanTransformInternal(s.buffer, t, f, args.time))
    case AddChecked(args, t, f, can) => if can then AddUnlock(args) else AddAge(args, t, f)
    case AddAge(args, t, f) =>
      if t != NO_FRAME && f != NO_FRAME && Expired(s.buffer, t, f, args.time) then AddUnlock(args) else AddCallbackWait(args, t, f)
    case AddCallbackWait(args, _, _) => AddQueued(args)
    case AddQueued(args) => AddUnlock(args)
    case AddUnlock(args) => if args.guarded then AddLeave else Idle
    case AddLeave => Idle
    case CancelWait(h) => CancelCallbackWait(h)
    case CancelCallbackWait(_) => CancelErased
    case CancelErased => CancelUnlock
    case CancelUnlock => Idle
  }

  /** The shared data after the step of thread k */
  function NewData(s: State, pc: PC): State
    requires ValidRegistry(s.buffer)
  {
    match pc
    case SetWait(m) => s.(buffer := SetTransform(s.buffer, m).buffer)
    case TestHead(i, _) =>
      if i < |s.requests| then s.(requests := s.requests[i := WithTarget(s.buffer, s.requests[i])]) else s
    case TestSource(i, _) =>
      if i < |s.requests| then s.(requests := s.requests[i := WithSource(s.buffer, s.requests[i])]) else s
    case TestDetachWait(i, _, _) =>
      if i < |s.requests| then s.(callbacks := s.callbacks - {s.requests[i].callback}, requests := SwapRemove(s.requests, i)) else s
    case Calling(p) => if p == [] then s else s.(called := s.called + [p[0].handle])
    case AddCallbackWait(args, t, f) =>
      var handle, callback := s.requestCounter + 1, s.callbackCounter + 1;
      s.(callbacks := s.callbacks + {callback}, callbackCounter := callback, requestCounter := handle,
         requests := s.requests + [NewRequest(args, t, f, handle, callback)])
    case CancelCallbackWait(h) =>
      s.(callbacks := s.callbacks - Callbacks(Matching(s.requests, h)), requests := Without(s.requests, h),
         cancelled := s.cancelled + Handles(Matching(s.requests, h)))
    case _ => s
  }

  function Advance(s: State, k: nat): State
    requires ValidRegistry(s.buffer) && k < |s.threads|
  {
    NewData(s, s.threads[k]).(threads := s.threads[k := NextPC(s, s.threads[k])], owner := NewOwner(s, k))
  }

  /** The first state of every public operation.  Arguments that make an operation return before it
      takes a mutex do not appear. */
  predicate Entry(pc: PC) {
    || pc.ReadWait? || pc.CancelWait?
    || (pc.SetWait? && Acceptable(pc.message) && Unreserved(pc.message))
    || (pc.AddClientWait? && pc.args.guarded && pc.args.target != pc.args.source)
    || (pc.AddWait? && !pc.args.guarded && pc.args.target != pc.args.source)
  }

  ghost predicate Begins(s: State, s': State) {
    exists k, pc :: 0 <= k < |s.threads| && s.threads[k].Idle? && Entry(pc) && s' == s.(threads := s.threads[k := pc])
  }

  ghost predicate Next(s: State, s': State) {
    || Begins(s, s')
    || (ValidRegistry(s.buffer) && exists k: nat :: Enabled(s, k) && s' == Advance(s, k))
  }

  /** Any number of idle threads around an empty queue, and any valid buffer */
  ghost predicate Init(s: State) {
    && Valid(s.buffer)
    && s.requests == [] && s.callbacks == {} && s.requestCounter == 0
    && s.owner == map[] && s.called == [] && s.cancelled == []
    && forall k :: 0 <= k < |s.threads| ==> s.threads[k].Idle?
  }

  ghost predicate IsRun(run: seq<State>) {
    && run != [] && Init(run[0])
    && forall i :: 0 <= i < |run| - 1 ==> Next(run[i], run[i + 1])
  }

  /** If the thread is about to set a transform that is rejected, the rejection does not reparent the child. */
  ghost predicate Harmless(s: State, k: nat)
    requires ValidRegistry(s.buffer) && k < |s.threads|
  {
    s.threads[k].SetWait? && !SetTransform(s.buffer, s.threads[k].message).accepted ==>
      var child := Number(s.buffer, StripSlash(s.threads[k].message.childFrameId));
      HasHistory(s.buffer, child) ==> !Reparents(s.buffer, child)
  }

  ghost predicate CalmNext(s: State, s': State) {
    || Begins(s, s')
    || (ValidRegistry(s.buffer) && exists k: nat :: Enabled(s, k) && Harmless(s, k) && s' == Advance(s, k))
  }

  /** A run without loops or chains beyond the depth limit, in which no rejection reparents a child */
  ghost predicate IsCalmRun(run: seq<State>) {
    && IsRun(run)
    && (forall i :: 0 <= i < |run| ==> LoopFree(run[i].buffer))
    && forall i :: 0 <= i < |run| - 1 ==> CalmNext(run[i], run[i + 1])
  }

  /** It is enough that no state has a child that pruning would reparent. */
  lemma SteadyIsCalm(run: seq<State>)
    requires IsRun(run)
    requires forall i :: 0 <= i < |run| ==> LoopFree(run[i].buffer) && Steady(run[i].buffer)
    ensures IsCalmRun(run)
  {
    forall i | 0 <= i < |run| - 1
      ensures CalmNext(run[i], run[i + 1])
    {
      assert Next(run[i], run[i + 1]);
      SteadyNext(run[i], run[i + 1]);
    }
  }

  lemma SteadyNext(s: State, s': State)
    requires Next(s, s') && Steady(s.buffer)
    ensures CalmNext(s, s')
  {
    hide Begins, Advance;
    if !Begins(s, s') {
      var k: nat :| Enabled(s, k) && s' == Advance(s, k);
      assert Harmless(s, k);
    }
  }
}
