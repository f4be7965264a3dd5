/** The value of a transform buffer: the frame registry and one cache per frame,
    with the queries that tf2 answers from them. */
module Buffers {
  import opened Options
  import opened Rigid
  import opened TimeCaches
  import opened Forest
  import opened LatestCommonTimes

  datatype Cache = NoCache | Dynamic(storage: Storage) | Static(data: TransformStorage)

  /** frames and names are indexed by frame id; ids is the registry. */
  datatype Buffer = Buffer(frames: seq<Cache>, ids: map<string, FrameId>, names: seq<string>, cacheTime: nat)

  const NO_PARENT := "NO_PARENT"

  ghost predicate ValidCache(c: Cache, frames: nat) {
    match c
    case NoCache => true
    case Dynamic(s) => ValidList(s) && forall i :: 0 <= i < |s| ==> ValidData(s[i], frames)
    case Static(d) => ValidData(d, frames)
  }

  ghost predicate ValidData(d: TransformStorage, frames: nat) {
    Unit(d.rotation) && NO_FRAME < d.frameId < frames
  }

  /** Names and ids are inverse to each other, and id 0 is reserved. */
  ghost predicate ValidRegistry(b: Buffer) {
    && 1 <= |b.frames| == |b.names|
    && b.names[0] == NO_PARENT
    && (forall i :: 0 <= i < |b.names| ==> b.names[i] in b.ids && b.ids[b.names[i]] == i)
    && (forall n :: n in b.ids ==> b.ids[n] < |b.names| && b.names[b.ids[n]] == n)
  }

  ghost predicate Valid(b: Buffer) {
    && ValidRegistry(b)
    && b.frames[0] == NoCache
    && forall f :: 0 <= f < |b.frames| ==> ValidCache(b.frames[f], |b.frames|)
  }

  // ----- one cache -----

  function CacheParent(c: Cache, t: Time): FrameId {
    match c
    case NoCache => NO_FRAME
    case Dynamic(s) => ParentAt(s, t)
    case Static(d) => d.frameId
  }

  function CacheData(c: Cache, t: Time, slerp: Slerp): Option<TransformStorage> {
    match c
    case NoCache => None
    case Dynamic(s) => DataAt(s, t, slerp)
    case Static(d) => Some(d.(stamp := t))
  }

  function CacheLatestTime(c: Cache): Time {
    if c.Dynamic? then LatestStamp(c.storage) else TIME_ZERO
  }

  function CacheLatestParent(c: Cache): FrameId {
    match c
    case NoCache => NO_FRAME
    case Dynamic(s) => if s == [] then NO_FRAME else s[0].frameId
    case Static(d) => d.frameId
  }

  // ----- the graphs -----

  function GetFrame(b: Buffer, f: FrameId): Cache {
    if f < |b.frames| then b.frames[f] else NoCache
  }

  /** The parents at time t, as getParent reports them. */
  function Parents(b: Buffer, t: Time): Graph {
    map f: nat | f < |b.frames| && CacheParent(b.frames[f], t) != NO_FRAME :: CacheParent(b.frames[f], t)
  }

  function DataParent(c: Cache, t: Time, slerp: Slerp): FrameId {
    var d := CacheData(c, t, slerp);
    if d.Some? then d.value.frameId else NO_FRAME
  }

  /** The parents at time t, as getData reports them. */
  function DataParents(b: Buffer, t: Time, slerp: Slerp): Graph {
    map f: nat | f < |b.frames| && DataParent(b.frames[f], t, slerp) != NO_FRAME :: DataParent(b.frames[f], t, slerp)
  }

  function LatestParents(b: Buffer): Graph {
    map f: nat | f < |b.frames| && CacheLatestParent(b.frames[f]) != NO_FRAME :: CacheLatestParent(b.frames[f])
  }

  function LatestStamps(b: Buffer): Stamps {
    map f: nat | f < |b.frames| && CacheLatestTime(b.frames[f]) != TIME_ZERO :: CacheLatestTime(b.frames[f])
  }

  function Cached(b: Buffer): set<nat> {
    set f: nat | f < |b.frames| && !b.frames[f].NoCache?
  }

  /** getData and getParent see the same parent, for both cache kinds and at every time. */
  lemma SameParents(b: Buffer, t: Time, slerp: Slerp)
    requires Valid(b)
    ensures DataParents(b, t, slerp) == Parents(b, t)
  {
    forall f: nat | f < |b.frames|
      ensures DataParent(b.frames[f], t, slerp) == CacheParent(b.frames[f], t)
    {
      var c := b.frames[f];
      if c.Dynamic? {
        DataAvailability(c.storage, t, slerp);
      }
    }
  }

  // ----- queries by id -----

  function LatestCommonTime(b: Buffer, target: FrameId, source: FrameId): Outcome {
    if source == NO_FRAME || target == NO_FRAME then Error(LookupError)
    else if source == target then Ok(CacheLatestTime(GetFrame(b, source)))
    else LatestCommon(LatestParents(b), LatestStamps(b), target, source)
  }

  /** Time zero stands for the latest common time. */
  function QueryTime(b: Buffer, t: Time, target: FrameId, source: FrameId): Outcome {
    if t == TIME_ZERO then LatestCommonTime(b, target, source) else Ok(t)
  }

  datatype Accumulator = TransformAccum(slerp: Slerp) | CanTransformAccum

  /** The parents that an accumulator gathers during its walk */
  function Gathered(b: Buffer, accum: Accumulator, t: Time): Graph {
    match accum
    case TransformAccum(slerp) => DataParents(b, t, slerp)
    case CanTransformAccum => Parents(b, t)
  }

  /** walkToTopParent: the ending and the time it was reached for */
  function WalkToTop(b: Buffer, accum: Accumulator, t: Time, target: FrameId, source: FrameId): (WalkResult, Time) {
    if source == target then (Connected(Identity, 0, 0), t)
    else
      match QueryTime(b, t, target, source)
      case Error(e) => (Failed(e), t)
      case Ok(t') => (Walk(Gathered(b, accum, t'), Cached(b), target, source), t')
  }

  predicate CanTransformInternal(b: Buffer, target: FrameId, source: FrameId, t: Time) {
    && target != NO_FRAME && source != NO_FRAME
    && (target == source || WalkToTop(b, CanTransformAccum, t, target, source).0.Connected?)
  }

  // ----- the transform along a path -----

  /** The transform of the edge above f at time t. */
  function Edge(b: Buffer, t: Time, slerp: Slerp, f: FrameId): Transform {
    match CacheData(GetFrame(b, f), t, slerp)
    case Some(d) => Transform(d.rotation, d.translation)
    case None => Id
  }

  /** From f to its ancestor n edges above. */
  function Path(b: Buffer, t: Time, slerp: Slerp, f: FrameId, n: nat): Transform {
    if n == 0 then Id
    else Compose(Edge(b, t, slerp, Anc(Parents(b, t), f, n - 1)), Path(b, t, slerp, f, n - 1))
  }

  function Relative(b: Buffer, t: Time, slerp: Slerp, target: FrameId, source: FrameId, up: nat, down: nat): Transform {
    Compose(Inverse(Path(b, t, slerp, target, down)), Path(b, t, slerp, source, up))
  }

  lemma {:induction false} PathProper(b: Buffer, t: Time, slerp: Slerp, f: FrameId, n: nat)
    requires Valid(b) && GoodSlerp(slerp)
    ensures Proper(Path(b, t, slerp, f, n))
  {
    hide Compose, Edge, Parents, Anc, Valid, GoodSlerp;
    if n > 0 {
      PathProper(b, t, slerp, f, n - 1);
      var e := Anc(Parents(b, t), f, n - 1);
      EdgeProper(b, t, slerp, e);
      ProperCompose(Edge(b, t, slerp, e), Path(b, t, slerp, f, n - 1));
    }
  }

  lemma EdgeProper(b: Buffer, t: Time, slerp: Slerp, f: FrameId)
    requires Valid(b) && GoodSlerp(slerp)
    ensures Proper(Edge(b, t, slerp, f))
  {
    var c := GetFrame(b, f);
    if c.Dynamic? {
      assert ValidCache(b.frames[f], |b.frames|);
      DataAtUnit(c.storage, t, slerp);
    }
  }

  lemma {:induction false} PathAppend(b: Buffer, t: Time, slerp: Slerp, f: FrameId, n: nat, m: nat)
    ensures Path(b, t, slerp, f, n + m) == Compose(Path(b, t, slerp, Anc(Parents(b, t), f, n), m), Path(b, t, slerp, f, n))
  {
    hide Compose, Edge, Parents, Up;
    var g, p := Parents(b, t), Path(b, t, slerp, f, n);
    if m == 0 {
      ComposeIdentity(p);
    } else {
      PathAppend(b, t, slerp, f, n, m - 1);
      AncAdd(g, f, n, m - 1);
      var a := Anc(g, f, n);
      ComposeAssoc(Edge(b, t, slerp, Anc(g, f, n + m - 1)), Path(b, t, slerp, a, m - 1), p);
    }
  }

  /** Walking on from one meeting point to a higher one does not change the relative transform. */
  lemma RelativeHigher(b: Buffer, t: Time, slerp: Slerp, target: FrameId, source: FrameId, i: nat, j: nat, k: nat)
    requires Valid(b) && GoodSlerp(slerp)
    requires Meets(Parents(b, t), source, target, i, j)
    ensures Relative(b, t, slerp, target, source, i + k, j + k) == Relative(b, t, slerp, target, source, i, j)
  {
    hide Compose, Inverse, Path, Parents, Anc, Valid, GoodSlerp;
    var a := Anc(Parents(b, t), source, i);
    PathAppend(b, t, slerp, source, i, k);
    PathAppend(b, t, slerp, target, j, k);
    PathProper(b, t, slerp, a, k);
    PathProper(b, t, slerp, target, j);
    Cancel(Path(b, t, slerp, a, k), Path(b, t, slerp, target, j), Path(b, t, slerp, source, i));
  }

  /** In a forest every common ancestor gives the same relative transform. */
  lemma RelativeUnique(b: Buffer, t: Time, slerp: Slerp, target: FrameId, source: FrameId,
                       n: nat, m: nat, i: nat, j: nat, i': nat, j': nat)
    requires Valid(b) && GoodSlerp(slerp)
    requires Ends(Parents(b, t), source, n) && Ends(Parents(b, t), target, m)
    requires Meets(Parents(b, t), source, target, i, j) && Meets(Parents(b, t), source, target, i', j')
    ensures Relative(b, t, slerp, target, source, i, j) == Relative(b, t, slerp, target, source, i', j')
  {
    hide *;
    var g := Parents(b, t);
    MeetAligned(g, source, target, n, m, i, j);
    MeetAligned(g, source, target, n, m, i', j');
    if i <= i' {
      RelativeHigher(b, t, slerp, target, source, i, j, i' - i);
    } else {
      RelativeHigher(b, t, slerp, target, source, i', j', i - i');
    }
  }
}
