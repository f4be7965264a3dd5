/** Lookups by frame name, and what they mean on the tree of frames. */
module Lookups {
  import opened Rigid
  import opened TimeCaches
  import opened Forest
  import opened LatestCommonTimes
  import opened Buffers

  datatype Exception = InvalidArgumentException | LookupException | ConnectivityException | ExtrapolationException

  datatype LookupResult = Found(transform: Transform, time: Time) | Thrown(exception: Exception)

  datatype NameCheck = Known(id: FrameId) | Rejected(exception: Exception)

  /** lookupFrameNumber */
  function Number(b: Buffer, name: string): FrameId {
    if name in b.ids then b.ids[name] else NO_FRAME
  }

  predicate StartsWithSlash(name: string) {
    name != "" && name[0] == '/'
  }

  /** validateFrameId */
  function CheckName(b: Buffer, name: string): NameCheck {
    if name == "" || StartsWithSlash(name) then Rejected(InvalidArgumentException)
    else if Number(b, name) == NO_FRAME then Rejected(LookupException)
    else Known(Number(b, name))
  }

  function ExceptionOf(e: TF2Error): Exception {
    match e
    case ConnectivityError => ConnectivityException
    case ExtrapolationError => ExtrapolationException
    case _ => LookupException
  }

  /** TransformAccum::finalize */
  function Finalized(ending: WalkEnding, sourceToTop: Transform, targetToTop: Transform): Transform {
    match ending
    case Identity => Id
    case TargetParentOfSource => sourceToTop
    case SourceParentOfTarget => Inverse(targetToTop)
    case FullPath => Compose(Inverse(targetToTop), sourceToTop)
  }

  function LookupById(b: Buffer, slerp: Slerp, target: FrameId, source: FrameId, t: Time): LookupResult {
    var (w, t') := WalkToTop(b, TransformAccum(slerp), t, target, source);
    match w
    case Failed(e) => Thrown(ExceptionOf(e))
    case Connected(ending, up, down) =>
      Found(Finalized(ending, Path(b, t', slerp, source, up), Path(b, t', slerp, target, down)), t')
  }

  function LookupTransform(b: Buffer, slerp: Slerp, target: string, source: string, t: Time): LookupResult {
    if target == source then
      Found(Id, if t == TIME_ZERO then CacheLatestTime(GetFrame(b, Number(b, target))) else t)
    else
      match CheckName(b, target)
      case Rejected(e) => Thrown(e)
      case Known(targetId) =>
        match CheckName(b, source)
        case Rejected(e) => Thrown(e)
        case Known(sourceId) => LookupById(b, slerp, targetId, sourceId, t)
  }

  /** The form with a fixed frame: the two halves are looked up at their own times. */
  function LookupFixed(b: Buffer, slerp: Slerp, target: string, targetTime: Time,
                       source: string, sourceTime: Time, fixed: string): LookupResult {
    match CheckName(b, target)
    case Rejected(e) => Thrown(e)
    case Known(_) =>
      match CheckName(b, source)
      case Rejected(e) => Thrown(e)
      case Known(_) =>
        match CheckName(b, fixed)
        case Rejected(e) => Thrown(e)
        case Known(_) =>
          match LookupTransform(b, slerp, fixed, source, sourceTime)
          case Thrown(e) => Thrown(e)
          case Found(first, _) =>
            match LookupTransform(b, slerp, target, fixed, targetTime)
            case Thrown(e) => Thrown(e)
            case Found(second, time) => Found(Compose(second, first), time)
  }

  predicate CanTransform(b: Buffer, target: string, source: string, t: Time) {
    target == source ||
    (CheckName(b, target).Known? && CheckName(b, source).Known? &&
     CanTransformInternal(b, CheckName(b, target).id, CheckName(b, source).id, t))
  }

  predicate CanTransformFixed(b: Buffer, target: string, targetTime: Time,
                              source: string, sourceTime: Time, fixed: string) {
    && CheckName(b, target).Known? && CheckName(b, source).Known? && CheckName(b, fixed).Known?
    && CanTransformInternal(b, CheckName(b, target).id, CheckName(b, fixed).id, targetTime)
    && CanTransformInternal(b, CheckName(b, fixed).id, CheckName(b, source).id, sourceTime)
  }

  // ----- canTransform agrees with lookupTransform -----

  /** The two accumulators drive the same walk. */
  lemma SameWalk(b: Buffer, slerp: Slerp, t: Time, target: FrameId, source: FrameId)
    requires Valid(b)
    ensures WalkToTop(b, TransformAccum(slerp), t, target, source) == WalkToTop(b, CanTransformAccum, t, target, source)
  {
    var q := QueryTime(b, t, target, source);
    if q.Ok? {
      SameParents(b, q.time, slerp);
    }
  }

  /** canTransform is true exactly when lookupTransform would not throw, at every time and on every graph. */
  lemma CanIffLookup(b: Buffer, slerp: Slerp, target: string, source: string, t: Time)
    requires Valid(b)
    ensures CanTransform(b, target, source, t) <==> LookupTransform(b, slerp, target, source, t).Found?
  {
    var p, q := CheckName(b, target), CheckName(b, source);
    if p.Known? && q.Known? {
      SameWalk(b, slerp, t, p.id, q.id);
    }
  }

  lemma SameNameSameId(b: Buffer, p: string, q: string)
    requires Valid(b) && CheckName(b, p).Known? && CheckName(b, q).Known?
    ensures CheckName(b, p).id == CheckName(b, q).id <==> p == q
    ensures CheckName(b, p).id != NO_FRAME && CheckName(b, q).id != NO_FRAME
  {
  }

  lemma CanIffLookupFixed(b: Buffer, slerp: Slerp, target: string, targetTime: Time,
                          source: string, sourceTime: Time, fixed: string)
    requires Valid(b)
    ensures CanTransformFixed(b, target, targetTime, source, sourceTime, fixed)
            <==> LookupFixed(b, slerp, target, targetTime, source, sourceTime, fixed).Found?
  {
    hide Compose, LookupTransform, CheckName, WalkToTop, Valid;
    if CheckName(b, target).Known? && CheckName(b, source).Known? && CheckName(b, fixed).Known? {
      SameNameSameId(b, target, fixed);
      SameNameSameId(b, fixed, source);
      CanIffLookup(b, slerp, fixed, source, sourceTime);
      CanIffLookup(b, slerp, target, fixed, targetTime);
    }
  }

  // ----- a lookup is the transform of the tree path -----

  /** No loop above the frame at this time, and within the depth limit */
  ghost predicate ShallowAt(b: Buffer, t: Time, f: FrameId) {
    Shallow(Parents(b, t), f)
  }

  /** All four endings are one formula: the inverse of the target's path after the source's path. */
  lemma FinalizedIsRelative(b: Buffer, t: Time, slerp: Slerp, target: FrameId, source: FrameId)
    requires Valid(b)
    ensures var w := Walk(Parents(b, t), Cached(b), target, source);
            w.Connected? ==>
              Finalized(w.ending, Path(b, t, slerp, source, w.up), Path(b, t, slerp, target, w.down))
              == Relative(b, t, slerp, target, source, w.up, w.down)
  {
    hide Compose, Inverse, ClimbSource, ClimbTarget, Parents, Cached, Valid, Anc, Edge;
    var w := Walk(Parents(b, t), Cached(b), target, source);
    if w.Connected? {
      var p, q := Path(b, t, slerp, source, w.up), Path(b, t, slerp, target, w.down);
      ComposeIdentity(p);
      ComposeIdentity(Inverse(q));
      InverseId();
    }
  }

  /** A successful lookup by id returns, for every common ancestor of the two frames, the inverse
      of the target-to-ancestor transform composed with the source-to-ancestor transform. */
  lemma LookupIsTreePath(b: Buffer, slerp: Slerp, target: FrameId, source: FrameId, t: Time, i: nat, j: nat)
    requires Valid(b) && GoodSlerp(slerp) && source != NO_FRAME && target != NO_FRAME && source != target
    requires LookupById(b, slerp, target, source, t).Found?
    requires var t' := LookupById(b, slerp, target, source, t).time;
             && ShallowAt(b, t', source) && ShallowAt(b, t', target)
             && Meets(Parents(b, t'), source, target, i, j)
    ensures var r := LookupById(b, slerp, target, source, t);
            && r.transform == Relative(b, r.time, slerp, target, source, i, j)
            && (t != TIME_ZERO ==> r.time == t)
            && (t == TIME_ZERO ==> LatestCommonTime(b, target, source) == Ok(r.time))
  {
    var t' := LookupById(b, slerp, target, source, t).time;
    var g := Parents(b, t');
    SameParents(b, t', slerp);
    WalkSound(g, Cached(b), target, source);
    FinalizedIsRelative(b, t', slerp, target, source);
    var n: nat :| n <= MAX_GRAPH_DEPTH && Ends(g, source, n);
    var m: nat :| m <= MAX_GRAPH_DEPTH && Ends(g, target, m);
    var w := Walk(g, Cached(b), target, source);
    hide Relative, Walk, Parents, Finalized, Path;
    RelativeUnique(b, t', slerp, target, source, n, m, w.up, w.down, i, j);
  }

  /** At a nonzero time, without loops: the lookup succeeds exactly when the frames share an
      ancestor, and the exception says why it does not. */
  lemma LookupDecides(b: Buffer, slerp: Slerp, target: FrameId, source: FrameId, t: Time, n: nat, m: nat)
    requires Valid(b) && source != NO_FRAME && target != NO_FRAME && source != target && t != TIME_ZERO
    requires n <= MAX_GRAPH_DEPTH && Ends(Parents(b, t), source, n)
    requires m <= MAX_GRAPH_DEPTH && Ends(Parents(b, t), target, m)
    ensures var r := LookupById(b, slerp, target, source, t);
            var p, q := Anc(Parents(b, t), source, n), Anc(Parents(b, t), target, m);
            && (r.Found? <==> Shares(Parents(b, t), source, target))
            && (r == Thrown(ConnectivityException) <==> p != q && p !in Cached(b) && q !in Cached(b))
            && (r == Thrown(ExtrapolationException) <==> p != q && (p in Cached(b) || q in Cached(b)))
  {
    hide Shares, Walk, Parents, DataParents, Anc, Ends, Path, Finalized, Valid, Cached;
    SameParents(b, t, slerp);
    WalkDecides(Parents(b, t), Cached(b), target, source, n, m);
    SharesRootOf(b, t, target, source, n, m);
  }

  lemma SharesRootOf(b: Buffer, t: Time, target: FrameId, source: FrameId, n: nat, m: nat)
    requires Ends(Parents(b, t), source, n) && Ends(Parents(b, t), target, m)
    ensures Shares(Parents(b, t), source, target) <==> Anc(Parents(b, t), source, n) == Anc(Parents(b, t), target, m)
  {
    SharesRoot(Parents(b, t), source, target, n, m);
  }

  /** Lookups are coherent: from c to b and from b to a gives the lookup from c to a. */
  lemma LookupsCompose(b: Buffer, slerp: Slerp, t: Time, x: FrameId, y: FrameId, z: FrameId)
    requires Valid(b) && GoodSlerp(slerp) && t != TIME_ZERO
    requires x != NO_FRAME && y != NO_FRAME && z != NO_FRAME && x != y && y != z && x != z
    requires ShallowAt(b, t, x) && ShallowAt(b, t, y) && ShallowAt(b, t, z)
    requires LookupById(b, slerp, x, y, t).Found? && LookupById(b, slerp, y, z, t).Found?
    ensures var r := LookupById(b, slerp, x, z, t);
            r.Found? && r.transform == Compose(LookupById(b, slerp, x, y, t).transform, LookupById(b, slerp, y, z, t).transform)
  {
    var g := Parents(b, t);
    var l: nat :| l <= MAX_GRAPH_DEPTH && Ends(g, x, l);
    var m: nat :| m <= MAX_GRAPH_DEPTH && Ends(g, y, m);
    var n: nat :| n <= MAX_GRAPH_DEPTH && Ends(g, z, n);
    hide *;
    LookupDecides(b, slerp, x, y, t, m, l);
    LookupDecides(b, slerp, y, z, t, n, m);
    LookupDecides(b, slerp, x, z, t, n, l);
    SharesRootOf(b, t, x, y, m, l);
    SharesRootOf(b, t, y, z, n, m);
    SharesRootOf(b, t, x, z, n, l);
    LookupAtRoot(b, slerp, x, y, t, m, l);
    LookupAtRoot(b, slerp, y, z, t, n, m);
    LookupAtRoot(b, slerp, x, z, t, n, l);
    RelativesCompose(b, slerp, t, x, y, z, l, m, n);
  }

  lemma LookupAtRoot(b: Buffer, slerp: Slerp, target: FrameId, source: FrameId, t: Time, n: nat, m: nat)
    requires Valid(b) && GoodSlerp(slerp) && source != NO_FRAME && target != NO_FRAME && source != target && t != TIME_ZERO
    requires n <= MAX_GRAPH_DEPTH && Ends(Parents(b, t), source, n)
    requires m <= MAX_GRAPH_DEPTH && Ends(Parents(b, t), target, m)
    requires Anc(Parents(b, t), source, n) == Anc(Parents(b, t), target, m)
    requires LookupById(b, slerp, target, source, t).Found?
    ensures LookupById(b, slerp, target, source, t).transform == Relative(b, t, slerp, target, source, n, m)
  {
    assert ShallowAt(b, t, source) && ShallowAt(b, t, target);
    assert Meets(Parents(b, t), source, target, n, m);
    assert LookupById(b, slerp, target, source, t).time == t;
    hide *;
    LookupIsTreePath(b, slerp, target, source, t, n, m);
  }

  lemma RelativesCompose(b: Buffer, slerp: Slerp, t: Time, x: FrameId, y: FrameId, z: FrameId, l: nat, m: nat, n: nat)
    requires Valid(b) && GoodSlerp(slerp)
    ensures Compose(Relative(b, t, slerp, x, y, m, l), Relative(b, t, slerp, y, z, n, m)) == Relative(b, t, slerp, x, z, n, l)
  {
    hide Compose, Inverse, Path, Valid, GoodSlerp, Proper;
    var p, q, r := Inverse(Path(b, t, slerp, x, l)), Path(b, t, slerp, y, m), Path(b, t, slerp, z, n);
    PathProper(b, t, slerp, y, m);
    calc {
      Compose(Compose(p, q), Compose(Inverse(q), r));
      { ComposeAssoc(p, q, Compose(Inverse(q), r)); ComposeAssoc(q, Inverse(q), r); }
      Compose(p, Compose(Compose(q, Inverse(q)), r));
      { ComposeInverse(q); ComposeIdentity(r); }
      Compose(p, r);
    }
  }

  // ----- nothing is available after the latest common time -----

  /** Every cache has had one parent throughout. */
  ghost predicate SingleParents(b: Buffer) {
    forall f :: 0 <= f < |b.frames| && b.frames[f].Dynamic? ==> OneParent(b.frames[f].storage)
  }

  ghost predicate OneParent(s: Storage) {
    forall i :: 0 <= i < |s| ==> s[i].frameId == s[0].frameId
  }

  lemma SingleParentsSubgraph(b: Buffer, t: Time)
    requires SingleParents(b)
    ensures Subgraph(Parents(b, t), LatestParents(b))
  {
    forall f: nat
      ensures Up(Parents(b, t), f) == 0 || Up(Parents(b, t), f) == Up(LatestParents(b), f)
    {
      if f < |b.frames| && b.frames[f].Dynamic? {
        assert OneParent(b.frames[f].storage);
      }
    }
  }

  lemma NoParentAfterLatest(b: Buffer, t: Time, f: FrameId)
    requires Valid(b) && t != TIME_ZERO
    requires StampOf(LatestStamps(b), f) != TIME_ZERO && StampOf(LatestStamps(b), f) < t
    ensures Up(Parents(b, t), f) == 0
  {
    assert ValidCache(b.frames[f], |b.frames|);
  }

  /** When the latest common time is not zero, no lookup at a later time succeeds. */
  lemma NoLaterLookup(b: Buffer, target: FrameId, source: FrameId, t: Time)
    requires Valid(b) && SingleParents(b)
    requires source != NO_FRAME && target != NO_FRAME && source != target
    requires Shallow(LatestParents(b), source) && Shallow(LatestParents(b), target)
    requires forall f :: f in LatestStamps(b) ==> LatestStamps(b)[f] < TIME_MAX
    requires LatestCommonTime(b, target, source).Ok?
    requires LatestCommonTime(b, target, source).time != TIME_ZERO
    requires t > LatestCommonTime(b, target, source).time && t != TIME_ZERO
    ensures !CanTransformInternal(b, target, source, t)
  {
    var g, w, h := LatestParents(b), LatestStamps(b), Parents(b, t);
    var r := LatestCommonTime(b, target, source).time;
    forall f: nat | StampOf(w, f) == r
      ensures Up(h, f) == 0
    {
      NoParentAfterLatest(b, t, f);
    }
    SingleParentsSubgraph(b, t);
    LaterUnrelated(h, g, w, target, source, r);
    hide Parents, LatestParents, LatestStamps, Walk, Cached;
    WalkSound(h, Cached(b), target, source);
  }
}
