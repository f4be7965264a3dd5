/** Queued requests keep asking about the two frames that they were made for. */
module RequestNames {
  import opened Buffers
  import opened TimeCaches
  import opened Lookups
  import opened Publishing
  import opened TransformableRequests
  import opened RequestBookkeeping

  /** The name of the frame with the id, or the text that stands for a frame without one */
  function NameOf(b: Buffer, id: FrameId, text: string): string {
    if id != NO_FRAME && id < |b.names| then b.names[id] else text
  }

  ghost predicate AsksAbout(b: Buffer, r: Request, target: string, source: string) {
    && r.targetId < |b.names| && r.sourceId < |b.names|
    && NameOf(b, r.targetId, r.targetString) == target && NameOf(b, r.sourceId, r.sourceString) == source
  }

  /** The request is about two frames. */
  ghost predicate TwoFrames(b: Buffer, r: Request) {
    && r.targetId < |b.names| && r.sourceId < |b.names|
    && NameOf(b, r.targetId, r.targetString) != NameOf(b, r.sourceId, r.sourceString)
  }

  ghost predicate HasId(b: Buffer, name: string, id: FrameId) {
    id == NO_FRAME || (id < |b.names| && b.names[id] == name)
  }

  ghost predicate AdderNamed(b: Buffer, pc: PC) {
    match pc
    case AddClientWait(args) => args.target != args.source
    case AddWait(args) => args.target != args.source
    case AddTarget(args) => args.target != args.source
    case AddSource(args, t) => args.target != args.source && t < |b.names| && HasId(b, args.target, t)
    case AddFrameWait(args, t, f) => BothNamed(b, args, t, f)
    case AddChecked(args, t, f, _) => BothNamed(b, args, t, f)
    case AddAge(args, t, f) => BothNamed(b, args, t, f)
    case AddCallbackWait(args, t, f) => BothNamed(b, args, t, f)
    case _ => true
  }

  ghost predicate BothNamed(b: Buffer, args: AddArgs, t: FrameId, f: FrameId) {
    args.target != args.source && t < |b.names| && f < |b.names| && HasId(b, args.target, t) && HasId(b, args.source, f)
  }

  ghost predicate NamesInv(s: State) {
    && Publishable(s)
    && (forall k :: 0 <= k < |s.threads| ==> AtIndex(s.threads[k], |s.requests|) && AdderNamed(s.buffer, s.threads[k]))
    && forall j :: 0 <= j < |s.requests| ==> TwoFrames(s.buffer, s.requests[j])
  }

  // ----- names and ids stay -----

  ghost predicate NamesGrow(b: Buffer, b': Buffer) {
    |b.names| <= |b'.names| && forall f :: 0 <= f < |b.names| ==> b'.names[f] == b.names[f]
  }

  lemma NamesStay(b: Buffer, m: Message)
    requires Valid(b)
    ensures NamesGrow(b, SetTransform(b, m).buffer)
  {
    RegisterNames(b, StripSlash(m.childFrameId));
    hide Acceptable, CacheWith, StripSlash;
  }

  lemma RegisterNames(b: Buffer, name: string)
    ensures NamesGrow(b, Register(b, name).0)
  {
  }

  lemma NamedLater(b: Buffer, b': Buffer, pc: PC)
    requires NamesGrow(b, b') && AdderNamed(b, pc)
    ensures AdderNamed(b', pc)
  {
  }

  lemma TwoFramesLater(b: Buffer, b': Buffer, r: Request)
    requires NamesGrow(b, b') && TwoFrames(b, r)
    ensures TwoFrames(b', r)
  {
  }

  lemma NumberNamed(b: Buffer, name: string)
    requires ValidRegistry(b)
    ensures Number(b, name) < |b.names| && HasId(b, name, Number(b, name))
  {
  }

  /** Looking an id up does not change what the request is about. */
  lemma LookupKeepsFrames(b: Buffer, r: Request)
    requires ValidRegistry(b) && TwoFrames(b, r)
    ensures TwoFrames(b, WithTarget(b, r)) && TwoFrames(b, WithSource(b, r))
  {
    NumberNamed(b, r.targetString);
    NumberNamed(b, r.sourceString);
    hide Number;
  }

  lemma NewAsksAbout(b: Buffer, args: AddArgs, t: FrameId, f: FrameId, handle: nat, callback: nat)
    requires BothNamed(b, args, t, f)
    ensures AsksAbout(b, NewRequest(args, t, f, handle, callback), args.target, args.source)
    ensures TwoFrames(b, NewRequest(args, t, f, handle, callback))
  {
  }

  // ----- steps -----

  lemma OwnNamed(s: State, pc: PC)
    requires ValidRegistry(s.buffer) && AdderNamed(s.buffer, pc) && !pc.SetWait?
    ensures AdderNamed(s.buffer, NextPC(s, pc))
  {
    hide CanNow, Expired, SetTransform, CanTransformInternal, Number, ValidRegistry;
    if pc.AddTarget? {
      NumberNamed(s.buffer, pc.args.target);
    } else if pc.AddSource? {
      NumberNamed(s.buffer, pc.args.source);
    }
  }

  lemma {:induction false} WithoutSubset(q: seq<Request>, h: nat)
    ensures forall r :: r in Without(q, h) <==> r in q && r.handle != h
  {
    if q != [] {
      WithoutSubset(q[1..], h);
      assert q == [q[0]] + q[1..];
    }
  }

  ghost predicate AllTwoFrames(b: Buffer, q: seq<Request>) {
    forall j :: 0 <= j < |q| ==> TwoFrames(b, q[j])
  }

  lemma QueueNamed(s: State, pc: PC)
    requires ValidRegistry(s.buffer) && AdderNamed(s.buffer, pc) && AtIndex(pc, |s.requests|) && AllTwoFrames(s.buffer, s.requests)
    ensures AllTwoFrames(s.buffer, NewData(s, pc).requests)
  {
    hide TwoFrames, Number, SetTransform, ValidRegistry, Callbacks, Handles, NewRequest;
    if (pc.TestHead? || pc.TestSource?) && pc.i < |s.requests| {
      LookupKeepsFrames(s.buffer, s.requests[pc.i]);
    } else if pc.AddCallbackWait? {
      NewAsksAbout(s.buffer, pc.args, pc.targetId, pc.sourceId, s.requestCounter + 1, s.callbackCounter + 1);
    } else if pc.CancelCallbackWait? {
      WithoutSubset(s.requests, pc.handle);
      forall j | 0 <= j < |Without(s.requests, pc.handle)|
        ensures TwoFrames(s.buffer, Without(s.requests, pc.handle)[j])
      {
        assert Without(s.requests, pc.handle)[j] in s.requests;
      }
    }
  }

  lemma SetNamed(s: State, k: nat)
    requires NamesInv(s) && Enabled(s, k) && s.threads[k].SetWait?
    ensures var s' := Advance(s, k);
            AllTwoFrames(s'.buffer, s'.requests) && forall j :: 0 <= j < |s'.threads| ==> AdderNamed(s'.buffer, s'.threads[j])
  {
    var m, s' := s.threads[k].message, Advance(s, k);
    NamesStay(s.buffer, m);
    assert s'.buffer == SetTransform(s.buffer, m).buffer && s'.requests == s.requests;
    SetStoredNamed(s'.buffer, SetTransform(s.buffer, m).accepted);
    hide SetTransform, NamesGrow, TwoFrames, AdderNamed, Publishable, AtIndex;
    forall j | 0 <= j < |s.requests|
      ensures TwoFrames(s'.buffer, s.requests[j])
    {
      TwoFramesLater(s.buffer, s'.buffer, s.requests[j]);
    }
    forall j | 0 <= j < |s'.threads|
      ensures AdderNamed(s'.buffer, s'.threads[j])
    {
      if j != k {
        NamedLater(s.buffer, s'.buffer, s.threads[j]);
      }
    }
  }

  lemma QuietNamed(s: State, k: nat)
    requires NamesInv(s) && Enabled(s, k) && !s.threads[k].SetWait?
    ensures var s' := Advance(s, k);
            AllTwoFrames(s'.buffer, s'.requests) && forall j :: 0 <= j < |s'.threads| ==> AdderNamed(s'.buffer, s'.threads[j])
  {
    assert ValidRegistry(s.buffer);
    hide Publishable, AtIndex, Valid, TwoFrames, AdderNamed, ValidRegistry, NextPC, NewData;
    BufferKept(s, s.threads[k]);
    OwnNamed(s, s.threads[k]);
    QueueNamed(s, s.threads[k]);
  }

  lemma NamesInvAdvance(s: State, k: nat)
    requires BookInv(s) && NamesInv(s) && Enabled(s, k)
    ensures NamesInv(Advance(s, k))
  {
    assert ValidRegistry(s.buffer);
    hide Publishable, AtIndex, Valid, TwoFrames, AdderNamed, Advance, HandleInv, CallbackInv, ValidRegistry;
    BookInvAdvance(s, k);
    PublishableAdvance(s, k);
    if s.threads[k].SetWait? {
      SetNamed(s, k);
    } else {
      QuietNamed(s, k);
    }
  }

  lemma SetStoredNamed(b: Buffer, accepted: bool)
    ensures AdderNamed(b, SetStored(accepted))
  {
  }

  lemma NamesInvBegins(s: State, s': State)
    requires NamesInv(s) && Begins(s, s')
    ensures NamesInv(s')
  {
    PublishableBegins(s, s');
    hide Publishable, TwoFrames;
  }

  lemma NamesInvNext(s: State, s': State)
    requires BookInv(s) && NamesInv(s) && Next(s, s')
    ensures NamesInv(s')
  {
    hide NamesInv, BookInv, Begins, Advance;
    if Begins(s, s') {
      NamesInvBegins(s, s');
    } else {
      var k: nat :| Enabled(s, k) && s' == Advance(s, k);
      NamesInvAdvance(s, k);
    }
  }

  lemma NamesInvInit(s: State)
    requires Init(s)
    ensures NamesInv(s)
  {
    hide Valid;
  }

  lemma {:induction false} NamesInvAlways(run: seq<State>, i: nat)
    requires IsRun(run) && i < |run|
    ensures NamesInv(run[i])
  {
    hide NamesInv, BookInv, Init, Next;
    if i == 0 {
      NamesInvInit(run[0]);
    } else {
      NamesInvAlways(run, i - 1);
      BookInvAlways(run, i - 1);
      assert Next(run[i - 1], run[i - 1 + 1]);
      NamesInvNext(run[i - 1], run[i]);
    }
  }

  /** In every run a queued request is about two different frames, and never about one. */
  lemma RequestsAreAboutTwoFrames(run: seq<State>, i: nat, j: nat)
    requires IsRun(run) && i < |run| && j < |run[i].requests|
    ensures TwoFrames(run[i].buffer, run[i].requests[j])
    ensures var r := run[i].requests[j]; r.targetId != NO_FRAME && r.sourceId != NO_FRAME ==> r.targetId != r.sourceId
  {
    NamesInvAlways(run, i);
    hide IsRun, Publishable;
  }

  // ----- what adding and cancelling do to the queue -----

  /** A request that goes into the queue asks about the two names and the time that the caller gave. */
  lemma AddedAsGiven(s: State, pc: PC)
    requires ValidRegistry(s.buffer) && pc.AddCallbackWait? && AdderNamed(s.buffer, pc)
    ensures var q := NewData(s, pc).requests;
            && |q| == |s.requests| + 1 && q[..|s.requests|] == s.requests
            && AsksAbout(s.buffer, q[|s.requests|], pc.args.target, pc.args.source)
            && q[|s.requests|].time == pc.args.time && q[|s.requests|].handle == s.requestCounter + 1
  {
    hide AsksAbout, ValidRegistry, Callbacks;
    NewAsksAbout(s.buffer, pc.args, pc.targetId, pc.sourceId, s.requestCounter + 1, s.callbackCounter + 1);
  }

  /** The lookups of a test pass change one request at most, and only the ids by which it asks about the same frames. */
  lemma LookupsChangeIdsOnly(s: State, pc: PC, j: nat, target: string, source: string)
    requires ValidRegistry(s.buffer) && (pc.TestHead? || pc.TestSource?) && j < |s.requests|
    ensures var q := NewData(s, pc).requests;
            && |q| == |s.requests| && (j != pc.i ==> q[j] == s.requests[j])
            && q[j].time == s.requests[j].time && q[j].handle == s.requests[j].handle && q[j].callback == s.requests[j].callback
            && (AsksAbout(s.buffer, s.requests[j], target, source) ==> AsksAbout(s.buffer, q[j], target, source))
  {
    NumberNamed(s.buffer, s.requests[j].targetString);
    NumberNamed(s.buffer, s.requests[j].sourceString);
    hide Number, ValidRegistry;
  }

  /** Cancelling takes the requests with the handle out of the queue and leaves all others. */
  lemma CancelTakesOne(s: State, pc: PC, r: Request)
    requires ValidRegistry(s.buffer) && pc.CancelCallbackWait?
    ensures var s' := NewData(s, pc);
            && (r in s'.requests <==> r in s.requests && r.handle != pc.handle)
            && |s'.cancelled| >= |s.cancelled| && s'.cancelled[..|s.cancelled|] == s.cancelled
            && forall i :: |s.cancelled| <= i < |s'.cancelled| ==> s'.cancelled[i] == pc.handle
  {
    hide ValidRegistry, Callbacks;
    WithoutSubset(s.requests, pc.handle);
    MatchingHandles(s.requests, pc.handle);
    hide Without, Matching;
  }

  lemma {:induction false} MatchingHandles(q: seq<Request>, h: nat)
    ensures forall i :: 0 <= i < |Matching(q, h)| ==> Matching(q, h)[i].handle == h
  {
    if q != [] {
      MatchingHandles(q[1..], h);
    }
  }
}
