/** Every request handle is in exactly one place, and every queued request has its callback. */
module RequestBookkeeping {
  import opened TimeCaches
  import opened Buffers
  import opened Lookups
  import opened Publishing
  import opened TransformableRequests
  import opened RequestSafety

  // ----- sequences of requests -----

  lemma HandlesCons(r: Request, q: seq<Request>)
    ensures multiset(Handles([r] + q)) == multiset{r.handle} + multiset(Handles(q))
  {
    assert Handles([r] + q) == [r.handle] + Handles(q);
  }

  lemma HandlesAppend(q: seq<Request>, r: Request)
    ensures Handles(q + [r]) == Handles(q) + [r.handle]
  {
  }

  lemma SwapRemoveDropsOne<T>(q: seq<T>, q': seq<T>, i: nat)
    requires i < |q| && q' == (if i < |q| - 1 then q[i := q[|q| - 1]] else q)[..|q| - 1]
    ensures multiset(q) == multiset(q') + multiset{q[i]}
  {
    var last := |q| - 1;
    var r := if i < last then q[i := q[last]] else q;
    assert r == q' + [r[last]];
    assert multiset(r) == multiset(q') + multiset{r[last]};
  }

  lemma HandlesSwapRemove(q: seq<Request>, i: nat)
    requires i < |q|
    ensures multiset(Handles(q)) == multiset(Handles(SwapRemove(q, i))) + multiset{q[i].handle}
  {
    var h := Handles(q);
    var h' := (if i < |h| - 1 then h[i := h[|h| - 1]] else h)[..|h| - 1];
    assert Handles(SwapRemove(q, i)) == h';
    SwapRemoveDropsOne(h, h', i);
  }

  lemma {:induction false} PartitionHandles(q: seq<Request>, h: nat)
    ensures multiset(Handles(q)) == multiset(Handles(Without(q, h))) + multiset(Handles(Matching(q, h)))
  {
    assert Handles([]) == [];
    hide Handles;
    if q != [] {
      PartitionHandles(q[1..], h);
      HandlesCons(q[0], q[1..]);
      assert [q[0]] + q[1..] == q;
      if q[0].handle == h {
        HandlesCons(q[0], Matching(q[1..], h));
      } else {
        HandlesCons(q[0], Without(q[1..], h));
      }
    }
  }

  // ----- detached requests -----

  /** If a gains x and loses to d what moves from p to p', the total gains x. */
  lemma Balance(a: multiset<nat>, a': multiset<nat>, d: multiset<nat>, d': multiset<nat>,
                p: multiset<nat>, p': multiset<nat>, x: multiset<nat>)
    requires a' + p' == a + p + x
    requires d' + p == d + p'
    ensures a' + d' == a + d + x
  {
    forall h: nat
      ensures (a' + d')[h] == (a + d + x)[h]
    {
      assert (a' + p')[h] == (a + p + x)[h];
      assert (d' + p)[h] == (d + p')[h];
    }
  }

  lemma AddBoth(f: multiset<nat>, a: multiset<nat>, b: multiset<nat>, c: multiset<nat>, d: multiset<nat>)
    requires a + b == c + d
    ensures (f + a) + b == (f + c) + d
  {
    assert (f + a) + b == f + (a + b);
    assert (f + c) + d == f + (c + d);
  }

  function PendingOf(pc: PC): seq<Pending> {
    match pc
    case TestHead(_, p) => p
    case TestSource(_, p) => p
    case TestAge(_, p) => p
    case TestFrameWait(_, p) => p
    case TestChecked(_, p, _) => p
    case TestDetachWait(_, p, _) => p
    case TestDetached(_, p) => p
    case Calling(p) => p
    case InCallback(p) => p
    case _ => []
  }

  function PendingHandles(p: seq<Pending>): seq<nat> {
    seq(|p|, i requires 0 <= i < |p| => p[i].handle)
  }

  /** Handles taken from the queue by a test pass whose callback has not run yet */
  ghost function Detached(threads: seq<PC>): multiset<nat> {
    if threads == [] then multiset{}
    else multiset(PendingHandles(PendingOf(threads[0]))) + Detached(threads[1..])
  }

  lemma {:induction false} DetachedUpdate(threads: seq<PC>, k: nat, pc: PC)
    requires k < |threads|
    ensures Detached(threads[k := pc]) + multiset(PendingHandles(PendingOf(threads[k])))
         == Detached(threads) + multiset(PendingHandles(PendingOf(pc)))
  {
    hide PendingOf, PendingHandles;
    var after := threads[k := pc];
    assert after != [];
    if k == 0 {
      assert after[1..] == threads[1..];
    } else {
      assert after[1..] == threads[1..][k - 1 := pc];
      assert after[0] == threads[0];
      DetachedUpdate(threads[1..], k - 1, pc);
      var first := multiset(PendingHandles(PendingOf(threads[0])));
      assert Detached(after) == first + Detached(after[1..]);
      assert Detached(threads) == first + Detached(threads[1..]);
      AddBoth(first, Detached(after[1..]), multiset(PendingHandles(PendingOf(threads[k]))),
              Detached(threads[1..]), multiset(PendingHandles(PendingOf(pc))));
    }
  }

  ghost function Shared(s: State): multiset<nat> {
    multiset(Handles(s.requests)) + multiset(s.called) + multiset(s.cancelled)
  }

  /** Where the handles are: queued, called back or cancelled from the queue, or detached for their callback */
  ghost function Census(s: State): multiset<nat> {
    Shared(s) + Detached(s.threads)
  }

  /** The handle that a step issues */
  ghost function Added(s: State, pc: PC): multiset<nat> {
    var h: nat := s.requestCounter + 1;
    if pc.AddCallbackWait? then multiset{h} else multiset{}
  }

  // ----- the invariant -----

  /** The test pass is at a position of the queue. */
  ghost predicate AtIndex(pc: PC, n: nat) {
    && (pc.TestHead? || pc.TestDetached? ==> pc.i <= n)
    && (pc.TestSource? || pc.TestAge? || pc.TestFrameWait? || pc.TestChecked? || pc.TestDetachWait? ==> pc.i < n)
  }

  ghost predicate DistinctCallbacks(q: seq<Request>) {
    forall i, j :: 0 <= i < j < |q| ==> q[i].callback != q[j].callback
  }

  ghost predicate CallbackInv(s: State) {
    && s.callbacks == Callbacks(s.requests) && DistinctCallbacks(s.requests)
    && forall c :: c in s.callbacks ==> c <= s.callbackCounter
  }

  /** Each issued handle is counted exactly once. */
  ghost predicate HandleInv(s: State) {
    forall h :: Census(s)[h] == if 1 <= h <= s.requestCounter then 1 else 0
  }

  ghost predicate BookInv(s: State) {
    && LockInv(s) && CallbackInv(s) && HandleInv(s)
    && forall k :: 0 <= k < |s.threads| ==> AtIndex(s.threads[k], |s.requests|)
  }

  // ----- steps -----

  /** Only a thread that holds the requests mutex changes the queue. */
  lemma QueueNeedsLock(s: State, pc: PC)
    requires ValidRegistry(s.buffer) && !Holds(pc, RequestsMutex)
    ensures NewData(s, pc).requests == s.requests && NewData(s, pc).callbacks == s.callbacks
    ensures NewData(s, pc).requestCounter == s.requestCounter && NewData(s, pc).callbackCounter == s.callbackCounter
  {
  }

  lemma IndexAdvance(s: State, k: nat)
    requires ValidRegistry(s.buffer) && BookInv(s) && Enabled(s, k)
    ensures var s' := Advance(s, k); forall j :: 0 <= j < |s'.threads| ==> AtIndex(s'.threads[j], |s'.requests|)
  {
    var s', pc := Advance(s, k), s.threads[k];
    forall j | 0 <= j < |s.threads|
      ensures AtIndex(s'.threads[j], |s'.requests|)
    {
      if j == k {
        hide CanNow, Expired, SetTransform, CanTransformInternal, Number, ValidRegistry, LockInv, CallbackInv, HandleInv;
      } else if !Holds(pc, RequestsMutex) {
        QueueNeedsLock(s, pc);
      } else {
        LockIsExclusive(s, k, j, RequestsMutex);
      }
    }
  }

  lemma LockIsExclusive(s: State, k: nat, j: nat, l: Lock)
    requires LockInv(s) && k < |s.threads| && j < |s.threads|
    ensures Holds(s.threads[k], l) && Holds(s.threads[j], l) ==> j == k
  {
    if Holds(s.threads[k], l) && Holds(s.threads[j], l) {
      assert s.owner[l] == k && s.owner[l] == j;
    }
  }

  /** A request that the pass detaches still has its callback. */
  lemma CallbackPresent(s: State, i: nat)
    requires CallbackInv(s) && i < |s.requests|
    ensures s.requests[i].callback in s.callbacks
  {
    CallbackOf(s.requests, i);
  }

  lemma CallbackOf(q: seq<Request>, i: nat)
    requires i < |q|
    ensures q[i].callback in Callbacks(q)
  {
  }

  /** The handles that a step takes from or gives to the thread and the shared data balance. */
  ghost predicate Balanced(s: State, pc: PC)
    requires ValidRegistry(s.buffer)
  {
    Shared(NewData(s, pc)) + multiset(PendingHandles(PendingOf(NextPC(s, pc)))) ==
    Shared(s) + multiset(PendingHandles(PendingOf(pc))) + Added(s, pc)
  }

  lemma HandlesStep(s: State, pc: PC)
    requires ValidRegistry(s.buffer) && CallbackInv(s) && AtIndex(pc, |s.requests|)
    ensures Balanced(s, pc)
  {
    hide Balanced, ValidRegistry, CallbackInv;
    if pc.TestHead? || pc.TestSource? {
      LookupStep(s, pc);
    } else if pc.TestDetachWait? {
      DetachStep(s, pc);
    } else if pc.Calling? {
      CallStep(s, pc);
    } else if pc.AddCallbackWait? {
      AddStep(s, pc);
    } else if pc.CancelCallbackWait? {
      CancelStep(s, pc);
    } else {
      QuietStep(s, pc);
    }
  }

  lemma LookupData(s: State, pc: PC)
    requires ValidRegistry(s.buffer) && AtIndex(pc, |s.requests|) && (pc.TestHead? || pc.TestSource?)
    ensures var s' := NewData(s, pc);
            && (if pc.TestHead? && pc.i == |s.requests| then s'.requests == s.requests
                else exists r: Request :: r.handle == s.requests[pc.i].handle && s'.requests == s.requests[pc.i := r])
            && s'.called == s.called && s'.cancelled == s.cancelled
    ensures PendingOf(NextPC(s, pc)) == PendingOf(pc)
  {
    hide Number, ValidRegistry;
    var s' := NewData(s, pc);
    if pc.i < |s.requests| {
      assert s'.requests == s.requests[pc.i := s'.requests[pc.i]];
    }
  }

  lemma LookupStep(s: State, pc: PC)
    requires ValidRegistry(s.buffer) && AtIndex(pc, |s.requests|) && (pc.TestHead? || pc.TestSource?)
    ensures Balanced(s, pc)
  {
    hide ValidRegistry, Handles, PendingHandles, NewData, NextPC, PendingOf;
    LookupData(s, pc);
    if pc.i < |s.requests| {
      var r: Request :| r.handle == s.requests[pc.i].handle && NewData(s, pc).requests == s.requests[pc.i := r];
      HandlesKept(s.requests, pc.i, r);
    }
  }

  lemma CallStep(s: State, pc: PC)
    requires ValidRegistry(s.buffer) && pc.Calling?
    ensures Balanced(s, pc)
  {
    hide ValidRegistry, Handles, PendingHandles;
    if pc.pending != [] {
      PendingCons(pc.pending);
    }
  }

  lemma CancelStep(s: State, pc: PC)
    requires ValidRegistry(s.buffer) && pc.CancelCallbackWait?
    ensures Balanced(s, pc)
  {
    hide ValidRegistry, Handles, PendingHandles, Without, Matching, Callbacks;
    PartitionHandles(s.requests, pc.handle);
  }

  predicate Quiet(pc: PC) {
    !(pc.TestHead? || pc.TestSource? || pc.TestDetachWait? || pc.Calling? || pc.AddCallbackWait? || pc.CancelCallbackWait?)
  }

  lemma QuietPending(s: State, pc: PC)
    requires ValidRegistry(s.buffer) && Quiet(pc)
    ensures PendingOf(NextPC(s, pc)) == PendingOf(pc)
  {
    hide CanNow, Expired, SetTransform, CanTransformInternal, Number, ValidRegistry;
  }

  lemma QuietShared(s: State, pc: PC)
    requires ValidRegistry(s.buffer) && Quiet(pc)
    ensures Shared(NewData(s, pc)) == Shared(s) && !pc.AddCallbackWait?
  {
    hide SetTransform, ValidRegistry, Handles;
  }

  lemma QuietStep(s: State, pc: PC)
    requires ValidRegistry(s.buffer) && Quiet(pc)
    ensures Balanced(s, pc)
  {
    QuietPending(s, pc);
    QuietShared(s, pc);
    hide NewData, NextPC, PendingOf, PendingHandles, Shared, ValidRegistry, Quiet;
  }

  lemma DetachData(s: State, pc: PC)
    requires ValidRegistry(s.buffer) && CallbackInv(s) && AtIndex(pc, |s.requests|) && pc.TestDetachWait?
    ensures var s' := NewData(s, pc);
            s'.requests == SwapRemove(s.requests, pc.i) && s'.called == s.called && s'.cancelled == s.cancelled
    ensures PendingOf(NextPC(s, pc)) == pc.pending + [Pending(s.requests[pc.i].handle, pc.result)]
  {
    hide SwapRemove, CallbackInv, ValidRegistry;
    CallbackPresent(s, pc.i);
  }

  lemma DetachStep(s: State, pc: PC)
    requires ValidRegistry(s.buffer) && CallbackInv(s) && AtIndex(pc, |s.requests|) && pc.TestDetachWait?
    ensures Balanced(s, pc)
  {
    hide SwapRemove, Handles, PendingHandles, CallbackInv, ValidRegistry, NewData, NextPC;
    DetachData(s, pc);
    var r := s.requests[pc.i];
    HandlesSwapRemove(s.requests, pc.i);
    PendingAppend(pc.pending, Pending(r.handle, pc.result));
    var q, q', h := multiset(Handles(s.requests)), multiset(Handles(SwapRemove(s.requests, pc.i))), multiset{r.handle};
    var rest, p := multiset(s.called) + multiset(s.cancelled), multiset(PendingHandles(pc.pending));
    assert q == q' + h;
    assert (q' + rest) + (p + h) == (q' + h + rest) + p;
  }

  lemma AddData(s: State, pc: PC)
    requires ValidRegistry(s.buffer) && pc.AddCallbackWait?
    ensures var s' := NewData(s, pc);
            && s'.requests == s.requests + [NewRequest(pc.args, pc.targetId, pc.sourceId, s.requestCounter + 1, s.callbackCounter + 1)]
            && s'.called == s.called && s'.cancelled == s.cancelled
    ensures PendingOf(NextPC(s, pc)) == PendingOf(pc) == []
  {
    hide ValidRegistry, NewRequest;
  }

  lemma AddStep(s: State, pc: PC)
    requires ValidRegistry(s.buffer) && pc.AddCallbackWait?
    ensures Balanced(s, pc)
  {
    hide Handles, PendingHandles, ValidRegistry, NewRequest, NewData, NextPC;
    AddData(s, pc);
    var handle: nat := s.requestCounter + 1;
    var r := NewRequest(pc.args, pc.targetId, pc.sourceId, handle, s.callbackCounter + 1);
    NewRequestHandle(pc.args, pc.targetId, pc.sourceId, handle, s.callbackCounter + 1);
    HandlesAppend(s.requests, r);
    assert multiset(Handles(s.requests + [r])) == multiset(Handles(s.requests)) + multiset{handle};
  }

  lemma NewRequestHandle(args: AddArgs, targetId: FrameId, sourceId: FrameId, handle: nat, callback: nat)
    ensures NewRequest(args, targetId, sourceId, handle, callback).handle == handle
    ensures NewRequest(args, targetId, sourceId, handle, callback).callback == callback
  {
  }

  lemma HandlesKept(q: seq<Request>, i: nat, r: Request)
    requires i < |q| && r.handle == q[i].handle
    ensures Handles(q[i := r]) == Handles(q)
  {
  }

  lemma PendingAppend(p: seq<Pending>, x: Pending)
    ensures multiset(PendingHandles(p + [x])) == multiset(PendingHandles(p)) + multiset{x.handle}
  {
    assert PendingHandles(p + [x]) == PendingHandles(p) + [x.handle];
  }

  lemma PendingCons(p: seq<Pending>)
    requires p != []
    ensures multiset(PendingHandles(p)) == multiset{p[0].handle} + multiset(PendingHandles(p[1..]))
  {
    assert PendingHandles(p) == [p[0].handle] + PendingHandles(p[1..]);
  }

  /** How one step moves handles: nothing is lost, and only an added request is new. */
  lemma CensusAdvance(s: State, k: nat)
    requires ValidRegistry(s.buffer) && BookInv(s) && Enabled(s, k)
    ensures Census(Advance(s, k)) == Census(s) + Added(s, s.threads[k])
  {
    hide Holds, Wants, NextPC, NewData, Handles, PendingOf, PendingHandles, HandleInv, CallbackInv, LockInv, Detached, AtIndex, Added;
    DetachedUpdate(s.threads, k, NextPC(s, s.threads[k]));
    HandlesStep(s, s.threads[k]);
    var s', pc := Advance(s, k), s.threads[k];
    var data := NewData(s, pc);
    assert Shared(s') == Shared(data);
    Balance(Shared(s), Shared(s'), Detached(s.threads), Detached(s'.threads),
            multiset(PendingHandles(PendingOf(pc))), multiset(PendingHandles(PendingOf(NextPC(s, pc)))), Added(s, pc));
  }

  // ----- the callback table -----

  lemma CallbacksSwapRemove(q: seq<Request>, i: nat)
    requires DistinctCallbacks(q) && i < |q|
    ensures DistinctCallbacks(SwapRemove(q, i))
    ensures Callbacks(SwapRemove(q, i)) == Callbacks(q) - {q[i].callback}
  {
    var q', last := SwapRemove(q, i), |q| - 1;
    assert forall j :: 0 <= j < last ==> q'[j] == if j == i then q[last] else q[j];
    forall c
      ensures c in Callbacks(q') <==> c in Callbacks(q) && c != q[i].callback
    {
      if c in Callbacks(q) && c != q[i].callback {
        var j :| 0 <= j < |q| && q[j].callback == c;
        assert q'[if j == last then i else j].callback == c;
      }
    }
  }

  lemma {:induction false} CallbacksWithout(q: seq<Request>, h: nat)
    requires DistinctCallbacks(q)
    ensures DistinctCallbacks(Without(q, h))
    ensures Callbacks(Without(q, h)) == Callbacks(q) - Callbacks(Matching(q, h))
    ensures Callbacks(Matching(q, h)) <= Callbacks(q)
  {
    if q != [] {
      var x, rest := q[0], q[1..];
      CallbacksWithout(rest, h);
      assert x.callback !in Callbacks(rest);
      CallbacksCons(x, rest);
      assert [x] + rest == q;
      if x.handle == h {
        CallbacksCons(x, Matching(rest, h));
      } else {
        CallbacksCons(x, Without(rest, h));
        DistinctCons(x, Without(rest, h));
      }
    }
  }

  lemma CallbacksCons(r: Request, q: seq<Request>)
    ensures Callbacks([r] + q) == {r.callback} + Callbacks(q)
  {
    forall c
      ensures c in Callbacks([r] + q) <==> c == r.callback || c in Callbacks(q)
    {
      assert ([r] + q)[0] == r;
      if c in Callbacks(q) {
        var j :| 0 <= j < |q| && q[j].callback == c;
        assert ([r] + q)[j + 1].callback == c;
      }
    }
  }

  lemma DistinctCons(r: Request, q: seq<Request>)
    requires DistinctCallbacks(q) && r.callback !in Callbacks(q)
    ensures DistinctCallbacks([r] + q)
  {
    forall i | 0 <= i < |q|
      ensures q[i].callback != r.callback
    {
      CallbackOf(q, i);
    }
  }

  /** The new callback handle is unused, so registering it never has to be retried. */
  lemma CallbacksAdd(q: seq<Request>, r: Request, counter: nat)
    requires DistinctCallbacks(q) && r.callback == counter + 1
    requires forall c :: c in Callbacks(q) ==> c <= counter
    ensures r.callback !in Callbacks(q)
    ensures DistinctCallbacks(q + [r]) && Callbacks(q + [r]) == Callbacks(q) + {r.callback}
  {
    forall i | 0 <= i < |q|
      ensures q[i].callback != r.callback
    {
      CallbackOf(q, i);
    }
    forall c
      ensures c in Callbacks(q + [r]) <==> c in Callbacks(q) || c == r.callback
    {
      assert (q + [r])[|q|] == r;
      if c in Callbacks(q) {
        var j :| 0 <= j < |q| && q[j].callback == c;
        assert (q + [r])[j].callback == c;
      }
    }
  }

  lemma CallbacksKept(q: seq<Request>, i: nat, r: Request)
    requires i < |q| && r.callback == q[i].callback
    ensures Callbacks(q[i := r]) == Callbacks(q)
    ensures DistinctCallbacks(q) ==> DistinctCallbacks(q[i := r])
  {
    forall c
      ensures c in Callbacks(q[i := r]) <==> c in Callbacks(q)
    {
      if c in Callbacks(q) {
        var j :| 0 <= j < |q| && q[j].callback == c;
        assert q[i := r][j].callback == c;
      }
    }
  }

  lemma CallbackInvStep(s: State, pc: PC)
    requires ValidRegistry(s.buffer) && CallbackInv(s) && AtIndex(pc, |s.requests|)
    ensures CallbackInv(NewData(s, pc))
  {
    hide Callbacks, DistinctCallbacks, SwapRemove, Without, Matching, Handles, SetTransform, ValidRegistry, NewRequest;
    if pc.TestHead? {
      if pc.i < |s.requests| {
        CallbacksKept(s.requests, pc.i, WithTarget(s.buffer, s.requests[pc.i]));
      }
    } else if pc.TestSource? {
      CallbacksKept(s.requests, pc.i, WithSource(s.buffer, s.requests[pc.i]));
    } else if pc.TestDetachWait? {
      CallbacksSwapRemove(s.requests, pc.i);
    } else if pc.AddCallbackWait? {
      NewRequestHandle(pc.args, pc.targetId, pc.sourceId, s.requestCounter + 1, s.callbackCounter + 1);
      CallbacksAdd(s.requests, NewRequest(pc.args, pc.targetId, pc.sourceId, s.requestCounter + 1, s.callbackCounter + 1), s.callbackCounter);
    } else if pc.CancelCallbackWait? {
      CallbacksWithout(s.requests, pc.handle);
    }
  }

  // ----- whole runs -----

  lemma CallbackInvAdvance(s: State, k: nat)
    requires ValidRegistry(s.buffer) && BookInv(s) && Enabled(s, k)
    ensures CallbackInv(Advance(s, k))
  {
    assert k < |s.threads|;
    hide Callbacks, DistinctCallbacks, NextPC, NewData, Enabled, ValidRegistry, LockInv, HandleInv, AtIndex;
    CallbackInvStep(s, s.threads[k]);
  }

  lemma HandleInvAdvance(s: State, k: nat)
    requires ValidRegistry(s.buffer) && BookInv(s) && Enabled(s, k)
    ensures HandleInv(Advance(s, k))
  {
    assert k < |s.threads|;
    hide NextPC, NewData, Enabled, ValidRegistry, LockInv, CallbackInv, AtIndex, Census, HandleInv, NewOwner;
    CensusAdvance(s, k);
    RequestCounterStep(s, s.threads[k]);
    HandleInvFrom(s, Advance(s, k), s.threads[k]);
  }

  lemma HandleInvFrom(s: State, s': State, pc: PC)
    requires HandleInv(s) && Census(s') == Census(s) + Added(s, pc)
    requires s'.requestCounter == s.requestCounter + if pc.AddCallbackWait? then 1 else 0
    ensures HandleInv(s')
  {
    hide Census;
    forall h
      ensures Census(s')[h] == if 1 <= h <= s'.requestCounter then 1 else 0
    {
      assert Census(s')[h] == Census(s)[h] + Added(s, pc)[h];
    }
  }

  lemma RequestCounterStep(s: State, pc: PC)
    requires ValidRegistry(s.buffer)
    ensures NewData(s, pc).requestCounter == s.requestCounter + if pc.AddCallbackWait? then 1 else 0
  {
  }

  lemma BookInvAdvance(s: State, k: nat)
    requires ValidRegistry(s.buffer) && BookInv(s) && Enabled(s, k)
    ensures BookInv(Advance(s, k))
  {
    assert k < |s.threads|;
    hide Advance, LockInv, AtIndex, CallbackInv, HandleInv, Enabled, ValidRegistry;
    assert LockInv(Advance(s, k)) by {
      LockInvAdvance(s, k);
    }
    CallbackInvAdvance(s, k);
    HandleInvAdvance(s, k);
    IndexAdvance(s, k);
  }

  lemma CensusBegins(s: State, k: nat, pc: PC)
    requires k < |s.threads| && s.threads[k].Idle? && Entry(pc)
    ensures Census(s.(threads := s.threads[k := pc])) == Census(s)
  {
    assert PendingOf(pc) == PendingOf(Idle) == [];
    hide PendingOf, Entry, Handles;
    DetachedUpdate(s.threads, k, pc);
    var none := multiset(PendingHandles([]));
    Balance(Shared(s), Shared(s), Detached(s.threads), Detached(s.threads[k := pc]), none, none, multiset{});
  }

  lemma BookInvBegins(s: State, s': State)
    requires BookInv(s) && Begins(s, s')
    ensures BookInv(s')
  {
    LockInvBegins(s, s');
    var k, pc :| 0 <= k < |s.threads| && s.threads[k].Idle? && Entry(pc) && s' == s.(threads := s.threads[k := pc]);
    assert AtIndex(pc, |s.requests|);
    CensusBegins(s, k, pc);
    hide LockInv, AtIndex, Callbacks, DistinctCallbacks, Entry, Census;
  }

  lemma {:induction false} NothingDetached(threads: seq<PC>)
    requires forall k :: 0 <= k < |threads| ==> threads[k].Idle?
    ensures Detached(threads) == multiset{}
  {
    if threads != [] {
      NothingDetached(threads[1..]);
    }
  }

  lemma BookInvInit(s: State)
    requires Init(s)
    ensures BookInv(s)
  {
    NothingDetached(s.threads);
    EntryHoldsNothing(Idle);
    assert Callbacks([]) == {};
  }

  lemma BookInvNext(s: State, s': State)
    requires BookInv(s) && Next(s, s')
    ensures BookInv(s')
  {
    if Begins(s, s') {
      BookInvBegins(s, s');
    } else {
      var k: nat :| Enabled(s, k) && s' == Advance(s, k);
      BookInvAdvance(s, k);
    }
  }

  lemma {:induction false} BookInvAlways(run: seq<State>, i: nat)
    requires IsRun(run) && i < |run|
    ensures BookInv(run[i])
  {
    hide BookInv, Init, Valid;
    if i == 0 {
      BookInvInit(run[0]);
    } else {
      BookInvAlways(run, i - 1);
      BookInvNext(run[i - 1], run[i]);
    }
  }

  /** In every state of every run an issued handle is in exactly one of the four places, once, and a
      handle that was not issued is nowhere; so no callback runs twice.  The callback table holds
      exactly the callbacks of the queued requests, and these are distinct. */
  lemma HandlesConserved(run: seq<State>, i: nat, h: nat)
    requires IsRun(run) && i < |run|
    ensures var s := run[i];
            multiset(Handles(s.requests))[h] + Detached(s.threads)[h] + multiset(s.called)[h] + multiset(s.cancelled)[h]
            == if 1 <= h <= s.requestCounter then 1 else 0
    ensures run[i].callbacks == Callbacks(run[i].requests) && DistinctCallbacks(run[i].requests)
  {
    BookInvAlways(run, i);
    assert Census(run[i])[h] == if 1 <= h <= run[i].requestCounter then 1 else 0;
  }

  // ----- the buffer stays valid -----

  ghost predicate Publishable(s: State) {
    && Valid(s.buffer)
    && forall k :: 0 <= k < |s.threads| && s.threads[k].SetWait? ==>
         Acceptable(s.threads[k].message) && Unreserved(s.threads[k].message)
  }

  lemma PublishableNext(s: State, s': State)
    requires Publishable(s) && Next(s, s')
    ensures Publishable(s')
  {
    hide Valid, Acceptable, Unreserved, Begins, Advance;
    if Begins(s, s') {
      PublishableBegins(s, s');
    } else {
      var k: nat :| Enabled(s, k) && s' == Advance(s, k);
      PublishableAdvance(s, k);
    }
  }

  lemma PublishableBegins(s: State, s': State)
    requires Publishable(s) && Begins(s, s')
    ensures Publishable(s')
  {
    hide Valid, Acceptable, Unreserved;
  }

  lemma SetKeepsValid(b: Buffer, m: Message)
    requires Valid(b) && Acceptable(m) && Unreserved(m)
    ensures Valid(SetTransform(b, m).buffer)
  {
    hide Store, Acceptable, Valid;
    StoreValid(b, m);
  }

  lemma BufferKept(s: State, pc: PC)
    requires ValidRegistry(s.buffer) && !pc.SetWait?
    ensures NewData(s, pc).buffer == s.buffer
  {
  }

  lemma NeverSetsAgain(s: State, pc: PC)
    requires ValidRegistry(s.buffer)
    ensures !NextPC(s, pc).SetWait?
  {
    hide CanNow, Expired, SetTransform, CanTransformInternal, Number, ValidRegistry;
  }

  lemma BufferStep(s: State, pc: PC)
    requires ValidRegistry(s.buffer) && Valid(s.buffer) && (pc.SetWait? ==> Acceptable(pc.message) && Unreserved(pc.message))
    ensures Valid(NewData(s, pc).buffer)
  {
    if pc.SetWait? {
      assert NewData(s, pc).buffer == SetTransform(s.buffer, pc.message).buffer;
      hide SetTransform, Acceptable, Valid, NewData, ValidRegistry;
      SetKeepsValid(s.buffer, pc.message);
    } else {
      BufferKept(s, pc);
      hide Valid, NewData, ValidRegistry;
    }
  }

  lemma PublishableAdvance(s: State, k: nat)
    requires Publishable(s) && Enabled(s, k)
    ensures Publishable(Advance(s, k))
  {
    BufferStep(s, s.threads[k]);
    NeverSetsAgain(s, s.threads[k]);
    hide Valid, Acceptable, Unreserved, NextPC, NewData;
  }

  /** In every run the buffer keeps names and ids inverse, lists ordered and rotations unit. */
  lemma {:induction false} BufferAlwaysValid(run: seq<State>, i: nat)
    requires IsRun(run) && i < |run|
    ensures Publishable(run[i])
  {
    if i == 0 {
      assert Init(run[0]);
    } else {
      hide Publishable, Init, Next;
      BufferAlwaysValid(run, i - 1);
      assert Next(run[i - 1], run[i - 1 + 1]);
      PublishableNext(run[i - 1], run[i]);
    }
  }

  /** No reachable state is stuck while an operation is unfinished. */
  lemma NeverStuck(run: seq<State>, i: nat)
    requires IsRun(run) && i < |run|
    requires exists k :: 0 <= k < |run[i].threads| && !run[i].threads[k].Idle?
    ensures ValidRegistry(run[i].buffer) && exists k: nat :: Enabled(run[i], k)
  {
    BookInvAlways(run, i);
    BufferAlwaysValid(run, i);
    hide IsRun, Enabled, HandleInv, CallbackInv;
    Progress(run[i]);
  }
}
