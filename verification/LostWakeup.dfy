/** A wakeup that is lost: a run, from an empty buffer and without any loop, that ends with every operation
    finished and a transformable request left in the queue.  It breaks only the condition on rejections. */
module LostWakeups {
  import opened Options
  import opened Rigid
  import opened TimeCaches
  import opened Forest
  import opened LatestCommonTimes
  import opened Buffers
  import opened Lookups
  import opened Publishing
  import opened TransformableRequests

  // ----- runs put together -----

  /** A piece of a run, with buffers free of loops */
  ghost predicate IsPath(path: seq<State>) {
    && path != [] && (forall i :: 0 <= i < |path| ==> LoopFree(path[i].buffer))
    && forall i :: 0 <= i < |path| - 1 ==> Next(path[i], path[i + 1])
  }

  ghost predicate Reaches(s: State, s': State) {
    exists path :: IsPath(path) && path[0] == s && path[|path| - 1] == s'
  }

  lemma ReachesSelf(s: State)
    requires LoopFree(s.buffer)
    ensures Reaches(s, s)
  {
    hide LoopFree;
    assert IsPath([s]) && [s][0] == s && [s][|[s]| - 1] == s;
  }

  lemma ReachesNext(s: State, s': State, s'': State)
    requires Reaches(s, s') && Next(s', s'') && LoopFree(s''.buffer)
    ensures Reaches(s, s'')
  {
    hide LoopFree, Next;
    var path :| IsPath(path) && path[0] == s && path[|path| - 1] == s';
    var longer := path + [s''];
    assert IsPath(longer) && longer[0] == s && longer[|longer| - 1] == s'';
  }

  // ----- one thread alone -----

  /** The state with the only thread at pc, holding these mutexes */
  function Alone(s: State, pc: PC, owner: map<Lock, nat>): State {
    s.(threads := [pc], owner := owner)
  }

  lemma Begin(s: State, r: State, pc: PC)
    requires Reaches(s, Alone(r, Idle, map[])) && Entry(pc) && LoopFree(r.buffer)
    ensures Reaches(s, Alone(r, pc, map[]))
  {
    hide Reaches, LoopFree, Entry;
    var s', s'' := Alone(r, Idle, map[]), Alone(r, pc, map[]);
    assert s'.threads[0].Idle? && s'' == s'.(threads := s'.threads[0 := pc]);
    assert Begins(s', s'');
    ReachesNext(s, s', s'');
  }

  /** A step that takes a mutex, when none is in its way */
  lemma Take(s: State, r: State, pc: PC, owner: map<Lock, nat>, l: Lock)
    requires Reaches(s, Alone(r, pc, owner)) && ValidRegistry(r.buffer) && Wants(pc) == Some(l) && l !in owner && !pc.Idle?
    requires LoopFree(NewData(Alone(r, pc, owner), pc).buffer)
    ensures Reaches(s, Alone(NewData(Alone(r, pc, owner), pc), NextPC(Alone(r, pc, owner), pc), owner[l := 0]))
  {
    hide Reaches, LoopFree, NewData, NextPC, ValidRegistry, Wants;
    var s' := Alone(r, pc, owner);
    assert Enabled(s', 0);
    assert s'.threads[0 := NextPC(s', pc)] == [NextPC(s', pc)];
    ReachesNext(s, s', Advance(s', 0));
  }

  /** A step that takes none */
  lemma Go(s: State, r: State, pc: PC, owner: map<Lock, nat>)
    requires Reaches(s, Alone(r, pc, owner)) && ValidRegistry(r.buffer) && Wants(pc) == None && !pc.Idle?
    requires LoopFree(NewData(Alone(r, pc, owner), pc).buffer)
    ensures var s', f := Alone(r, pc, owner), Frees(Alone(r, pc, owner), pc);
            Reaches(s, Alone(NewData(s', pc), NextPC(s', pc), if f.Some? then owner - {f.value} else owner))
  {
    hide Reaches, LoopFree, NewData, NextPC, ValidRegistry, Wants, Frees;
    var s' := Alone(r, pc, owner);
    assert Enabled(s', 0);
    assert s'.threads[0 := NextPC(s', pc)] == [NextPC(s', pc)];
    ReachesNext(s, s', Advance(s', 0));
  }

  ghost predicate Resting(s: State) {
    s.threads == [Idle] && s.owner == map[]
  }

  /** A message that is accepted, with nobody waiting: set, and a test pass over the empty queue */
  lemma Publish(s: State, r: State, m: Message)
    requires Reaches(s, r) && Resting(r) && r.requests == []
    requires ValidRegistry(r.buffer) && Acceptable(m) && Unreserved(m) && SetTransform(r.buffer, m).accepted
    requires LoopFree(r.buffer) && LoopFree(SetTransform(r.buffer, m).buffer) && ValidRegistry(SetTransform(r.buffer, m).buffer)
    ensures Reaches(s, r.(buffer := SetTransform(r.buffer, m).buffer))
  {
    hide Reaches, LoopFree, ValidRegistry, SetTransform, Acceptable, Unreserved;
    var none: map<Lock, nat> := map[];
    var r' := r.(buffer := SetTransform(r.buffer, m).buffer);
    Begin(s, r, SetWait(m));
    Take(s, r, SetWait(m), none, FrameMutex);
    assert Alone(NewData(Alone(r, SetWait(m), none), SetWait(m)), SetStored(true), none[FrameMutex := 0]) == Alone(r', SetStored(true), none[FrameMutex := 0]);
    Go(s, r', SetStored(true), none[FrameMutex := 0]);
    assert none[FrameMutex := 0] - {FrameMutex} == none;
    Take(s, r', TestWait, none, RequestsMutex);
    Go(s, r', TestHead(0, []), none[RequestsMutex := 0]);
    assert none[RequestsMutex := 0] - {RequestsMutex} == none;
    Go(s, r', Calling([]), none);
    assert Alone(r', Idle, none) == r';
  }

  /** A message that is rejected: no test pass */
  lemma Reject(s: State, r: State, m: Message)
    requires Reaches(s, r) && Resting(r)
    requires ValidRegistry(r.buffer) && Acceptable(m) && Unreserved(m) && !SetTransform(r.buffer, m).accepted
    requires LoopFree(r.buffer) && LoopFree(SetTransform(r.buffer, m).buffer) && ValidRegistry(SetTransform(r.buffer, m).buffer)
    ensures Reaches(s, r.(buffer := SetTransform(r.buffer, m).buffer))
  {
    hide Reaches, LoopFree, ValidRegistry, SetTransform, Acceptable, Unreserved;
    var none: map<Lock, nat> := map[];
    var r' := r.(buffer := SetTransform(r.buffer, m).buffer);
    Begin(s, r, SetWait(m));
    Take(s, r, SetWait(m), none, FrameMutex);
    assert Alone(NewData(Alone(r, SetWait(m), none), SetWait(m)), SetStored(false), none[FrameMutex := 0]) == Alone(r', SetStored(false), none[FrameMutex := 0]);
    Go(s, r', SetStored(false), none[FrameMutex := 0]);
    assert none[FrameMutex := 0] - {FrameMutex} == none;
    assert Alone(r', Idle, none) == r';
  }

  /** The state after a request that could not be answered at once */
  function Queued(r: State, args: AddArgs, t: FrameId, f: FrameId): State {
    var handle, callback := r.requestCounter + 1, r.callbackCounter + 1;
    r.(callbacks := r.callbacks + {callback}, callbackCounter := callback, requestCounter := handle,
       requests := r.requests + [NewRequest(args, t, f, handle, callback)])
  }

  lemma Ask(s: State, r: State, args: AddArgs, t: FrameId, f: FrameId)
    requires Reaches(s, r) && Resting(r) && ValidRegistry(r.buffer) && LoopFree(r.buffer)
    requires !args.guarded && args.target != args.source
    requires t == Number(r.buffer, args.target) && f == Number(r.buffer, args.source)
    requires !CanTransformInternal(r.buffer, t, f, args.time) && !Expired(r.buffer, t, f, args.time)
    ensures Reaches(s, Queued(r, args, t, f))
  {
    hide Reaches, LoopFree, ValidRegistry, CanTransformInternal, Expired, Number, NewRequest;
    var none: map<Lock, nat> := map[];
    Begin(s, r, AddWait(args));
    Take(s, r, AddWait(args), none, RequestsMutex);
    Go(s, r, AddTarget(args), none[RequestsMutex := 0]);
    Go(s, r, AddSource(args, t), none[RequestsMutex := 0]);
    AskCheck(s, r, args, t, f);
    AskQueue(s, r, args, t, f);
    AskLeave(s, r, args, t, f);
  }

  const REQUESTS: map<Lock, nat> := map[][RequestsMutex := 0]

  lemma AskCheck(s: State, r: State, args: AddArgs, t: FrameId, f: FrameId)
    requires ValidRegistry(r.buffer) && LoopFree(r.buffer) && !CanTransformInternal(r.buffer, t, f, args.time)
    requires Reaches(s, Alone(r, AddFrameWait(args, t, f), REQUESTS))
    ensures Reaches(s, Alone(r, AddAge(args, t, f), REQUESTS))
  {
    hide Reaches, LoopFree, ValidRegistry, CanTransformInternal;
    Take(s, r, AddFrameWait(args, t, f), REQUESTS, FrameMutex);
    Go(s, r, AddChecked(args, t, f, false), REQUESTS[FrameMutex := 0]);
    assert REQUESTS[FrameMutex := 0] - {FrameMutex} == REQUESTS;
  }

  lemma AskQueue(s: State, r: State, args: AddArgs, t: FrameId, f: FrameId)
    requires ValidRegistry(r.buffer) && LoopFree(r.buffer) && !Expired(r.buffer, t, f, args.time)
    requires Reaches(s, Alone(r, AddAge(args, t, f), REQUESTS))
    ensures Reaches(s, Alone(Queued(r, args, t, f), AddQueued(args), REQUESTS[CallbacksMutex := 0]))
  {
    hide Reaches, LoopFree, ValidRegistry, Expired, NewRequest;
    Go(s, r, AddAge(args, t, f), REQUESTS);
    Take(s, r, AddCallbackWait(args, t, f), REQUESTS, CallbacksMutex);
    assert Alone(NewData(Alone(r, AddCallbackWait(args, t, f), REQUESTS), AddCallbackWait(args, t, f)), AddQueued(args), REQUESTS[CallbacksMutex := 0])
        == Alone(Queued(r, args, t, f), AddQueued(args), REQUESTS[CallbacksMutex := 0]);
  }

  lemma AskLeave(s: State, r: State, args: AddArgs, t: FrameId, f: FrameId)
    requires Resting(r) && ValidRegistry(r.buffer) && LoopFree(r.buffer) && !args.guarded
    requires Reaches(s, Alone(Queued(r, args, t, f), AddQueued(args), REQUESTS[CallbacksMutex := 0]))
    ensures Reaches(s, Queued(r, args, t, f))
  {
    hide Reaches, LoopFree, ValidRegistry, NewRequest;
    var r' := Queued(r, args, t, f);
    Go(s, r', AddQueued(args), REQUESTS[CallbacksMutex := 0]);
    assert REQUESTS[CallbacksMutex := 0] - {CallbacksMutex} == REQUESTS;
    Go(s, r', AddUnlock(args), REQUESTS);
    assert REQUESTS - {RequestsMutex} == map[];
    assert Alone(r', Idle, map[]) == r';
  }

  // ----- the messages that build the tied history -----

  const EMPTY_BUFFER := Buffer([NoCache], map[NO_PARENT := 0], [NO_PARENT], 4)

  function Under(parent: string, stamp: Time): Message {
    Message(Id, parent, "child", stamp, false)
  }

  const IDS2 := map[NO_PARENT := 0, "child" := 1, "odom" := 2]
  const B1 := Buffer([NoCache, Dynamic([Datum(2, 2)]), NoCache], IDS2, [NO_PARENT, "child", "odom"], 4)
  const B2 := TIED_BUFFER.(frames := [NoCache, Dynamic([Datum(5, 3), Datum(2, 2)]), NoCache, NoCache])
  const B3 := TIED_BUFFER.(frames := [NoCache, Dynamic([Datum(5, 2), Datum(5, 3), Datum(2, 2)]), NoCache, NoCache])

  /** Nothing is old enough to be pruned, and the datum is not older than the newest. */
  ghost predicate GoesFirst(s: Storage, maxAge: nat, d: TransformStorage) {
    d !in s && d.stamp >= LatestStamp(s) && forall i :: 0 <= i < |s| ==> LatestStamp(s) - maxAge <= s[i].stamp <= LatestStamp(s)
  }

  lemma InsertedFirst(s: Storage, maxAge: nat, d: TransformStorage)
    requires GoesFirst(s, maxAge, d)
    ensures Inserted(s, maxAge, d) == [d] + s && !TooOld(s, maxAge, d)
  {
    NotOlderIsPrefix(s, LatestStamp(s) - maxAge, |s|);
    assert s[..|s|] == s;
    FirstNotAfterUnique(s, d.stamp, 0);
    assert s[..0] + [d] + s[0..] == [d] + s;
  }

  /** The buffer with the names registered, and then with the datum */
  lemma Stores(b: Buffer, b2: Buffer, parent: string, p: FrameId, stamp: Time, s: Storage, whole: Storage)
    requires ValidRegistry(b) && (parent == "odom" || parent == "map")
    requires var (b1, child) := Register(b, "child");
             child == 1 < |b1.frames| && b1.frames[1] in {NoCache, Dynamic(s)} && (b1.frames[1].NoCache? ==> s == []) && Register(b1, parent) == (b2, p)
    requires GoesFirst(s, b.cacheTime, Datum(stamp, p)) && 1 < |b2.frames|
    requires whole == [Datum(stamp, p)] + s
    ensures SetTransform(b, Under(parent, stamp)) == Stored(b2.(frames := b2.frames[1 := Dynamic(whole)]), true)
  {
    hide Acceptable, StripSlash, Inserted, Register, ValidRegistry, GoesFirst, Unreserved;
    UnderAcceptable(parent, stamp);
    InsertedFirst(s, b.cacheTime, Datum(stamp, p));
  }

  lemma UnderAcceptable(parent: string, stamp: Time)
    requires parent == "odom" || parent == "map"
    ensures Acceptable(Under(parent, stamp)) && Unreserved(Under(parent, stamp))
    ensures StripSlash(parent) == parent && StripSlash("child") == "child"
  {
    assert Unit(One);
  }

  lemma Registers(b: Buffer, b': Buffer, name: string)
    requires name !in b.ids && b'.cacheTime == b.cacheTime
    requires b'.frames == b.frames + [NoCache] && b'.ids == b.ids[name := |b.frames|] && b'.names == b.names + [name]
    ensures Register(b, name) == (b', |b.frames|)
  {
  }

  lemma First()
    ensures SetTransform(EMPTY_BUFFER, Under("odom", 2)) == Stored(B1, true)
  {
    var ids := map[NO_PARENT := 0, "child" := 1];
    var b1 := Buffer([NoCache, NoCache], ids, [NO_PARENT, "child"], 4);
    var b2 := Buffer([NoCache, NoCache, NoCache], IDS2, [NO_PARENT, "child", "odom"], 4);
    Registers(EMPTY_BUFFER, b1, "child");
    Registers(b1, b2, "odom");
    hide Register;
    AllRegistered();
    Stores(EMPTY_BUFFER, b2, "odom", 2, 2, [], [Datum(2, 2)]);
    assert b2.frames[1 := Dynamic([Datum(2, 2)])] == B1.frames;
  }

  lemma Second()
    ensures SetTransform(B1, Under("map", 5)) == Stored(B2, true)
  {
    var s := [Datum(2, 2)];
    var b2 := TIED_BUFFER.(frames := [NoCache, Dynamic(s), NoCache, NoCache]);
    assert Register(B1, "child") == (B1, 1);
    Registers(B1, b2, "map");
    hide Register;
    AllRegistered();
    Stores(B1, b2, "map", 3, 5, s, [Datum(5, 3), Datum(2, 2)]);
    assert b2.frames[1 := Dynamic([Datum(5, 3), Datum(2, 2)])] == B2.frames;
  }

  lemma Third()
    ensures SetTransform(B2, Under("odom", 5)) == Stored(B3, true)
  {
    assert Register(B2, "child") == (B2, 1) && Register(B2, "odom") == (B2, 2);
    hide Register;
    AllRegistered();
    Stores(B2, B2, "odom", 2, 5, [Datum(5, 3), Datum(2, 2)], [Datum(5, 2), Datum(5, 3), Datum(2, 2)]);
    assert B2.frames[1 := Dynamic([Datum(5, 2), Datum(5, 3), Datum(2, 2)])] == B3.frames;
  }

  lemma Fourth()
    ensures SetTransform(B3, Under("odom", 9)) == Stored(TIED_BUFFER, true)
  {
    assert Register(B3, "child") == (B3, 1) && Register(B3, "odom") == (B3, 2);
    hide Register;
    AllRegistered();
    Stores(B3, B3, "odom", 2, 9, [Datum(5, 2), Datum(5, 3), Datum(2, 2)], TIED);
    assert B3.frames[1 := Dynamic(TIED)] == TIED_BUFFER.frames;
  }

  const CUT_BUFFER := TIED_BUFFER.(frames := [NoCache, Dynamic(TIED[..3]), NoCache, NoCache])

  lemma Late()
    ensures SetTransform(TIED_BUFFER, LATE_MESSAGE) == Stored(CUT_BUFFER, false)
    ensures Acceptable(LATE_MESSAGE) && Unreserved(LATE_MESSAGE)
  {
    TiedRejected();
    UnderAcceptable("odom", 1);
  }

  // ----- no loops, and names in order -----

  /** Only the child has a history, and its parents have none. */
  ghost predicate IsStar(b: Buffer) {
    && (forall f :: 0 <= f < |b.frames| && f != 1 ==> b.frames[f] == NoCache)
    && (1 < |b.frames| ==> b.frames[1].Dynamic? && forall i :: 0 <= i < |b.frames[1].storage| ==> b.frames[1].storage[i].frameId in {2, 3})
  }

  lemma StarLoopFree(b: Buffer)
    requires IsStar(b)
    ensures LoopFree(b)
  {
    forall t: Time, f: FrameId | f != NO_FRAME
      ensures Shallow(Parents(b, t), f)
    {
      var g := Parents(b, t);
      assert forall e: nat :: e != 1 ==> Up(g, e) == 0;
      assert Up(g, 1) in {0, 2, 3};
      StarShallow(g, f);
    }
  }

  lemma StarShallow(g: Graph, f: nat)
    requires f != 0 && Up(g, 1) != 1 && forall e: nat :: e != 1 ==> Up(g, e) == 0
    ensures Shallow(g, f)
  {
    assert Anc(g, f, 0) == f && Anc(g, f, 1) == Up(g, f) && Anc(g, f, 2) == Up(g, Up(g, f));
    assert Ends(g, f, 0) || Ends(g, f, 1);
  }

  lemma AllRegistered()
    ensures ValidRegistry(EMPTY_BUFFER) && ValidRegistry(B1) && ValidRegistry(TIED_BUFFER)
    ensures ValidRegistry(B2) && ValidRegistry(B3) && ValidRegistry(CUT_BUFFER)
  {
  }

  lemma AllLoopFree()
    ensures LoopFree(EMPTY_BUFFER) && LoopFree(B1) && LoopFree(B2) && LoopFree(B3) && LoopFree(TIED_BUFFER) && LoopFree(CUT_BUFFER)
  {
    hide LoopFree;
    StarLoopFree(EMPTY_BUFFER);
    StarLoopFree(B1);
    StarLoopFree(B2);
    StarLoopFree(B3);
    StarLoopFree(TIED_BUFFER);
    StarLoopFree(CUT_BUFFER);
  }

  // ----- the run -----

  const ASKED := AddArgs("map", "child", 5, false)

  const START := State(EMPTY_BUFFER, [], {}, 0, 0, map[], [Idle], [], [])

  /** Map and child have no ancestor in common among the latest parents, so the request has not expired. */
  lemma NotExpired()
    ensures !Expired(TIED_BUFFER, 3, 1, 5)
  {
    var g, w := LatestParents(TIED_BUFFER), LatestStamps(TIED_BUFFER);
    assert g == map[1 := 2];
    assert Anc(g, 1, 0) == 1 && Anc(g, 1, 1) == 2 && Anc(g, 1, 2) == 0 && Anc(g, 3, 0) == 3 && Anc(g, 3, 1) == 0;
    hide LatestParents, LatestStamps, LatestCommon;
    SharesRoot(g, 1, 3, 1, 0);
    LatestCommonIsPathTime(g, w, 3, 1, 1, 0);
  }

  /** Four accepted messages, a request that cannot be answered yet, and a message that is rejected: then every
      operation has finished, and the request is transformable and still queued. */
  lemma WakeupCanBeLost() returns (run: seq<State>)
    ensures IsRun(run) && run[0] == START && forall i :: 0 <= i < |run| ==> LoopFree(run[i].buffer)
    ensures var s := run[|run| - 1];
            && (forall k :: 0 <= k < |s.threads| ==> s.threads[k].Idle?)
            && |s.requests| == 1 && Transformable(s.buffer, s.requests[0])
  {
    hide Reaches, LoopFree, ValidRegistry, SetTransform, CanTransformInternal, Expired, Acceptable, Unreserved;
    AllLoopFree();
    AllRegistered();
    First();
    Second();
    Third();
    Fourth();
    Late();
    UnderAcceptable("odom", 2);
    UnderAcceptable("map", 5);
    UnderAcceptable("odom", 5);
    UnderAcceptable("odom", 9);
    ReachesSelf(START);
    Publish(START, START, Under("odom", 2));
    Publish(START, START.(buffer := B1), Under("map", 5));
    Publish(START, START.(buffer := B2), Under("odom", 5));
    Publish(START, START.(buffer := B3), Under("odom", 9));
    NotExpired();
    RejectionCanEnable();
    var r := START.(buffer := TIED_BUFFER);
    assert Number(TIED_BUFFER, "map") == 3 && Number(TIED_BUFFER, "child") == 1;
    Ask(START, r, ASKED, 3, 1);
    var q := Queued(r, ASKED, 3, 1);
    Reject(START, q, LATE_MESSAGE);
    var s := q.(buffer := CUT_BUFFER);
    assert Transformable(s.buffer, s.requests[0]);
    run := PathTo(START, s);
  }

  lemma PathTo(s: State, s': State) returns (path: seq<State>)
    requires Reaches(s, s')
    ensures IsPath(path) && path[0] == s && path[|path| - 1] == s'
  {
    path :| IsPath(path) && path[0] == s && path[|path| - 1] == s';
  }
}
