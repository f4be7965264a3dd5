/** The buffer as the program holds it: shared cache objects in a vector, updated in
    place, and the walk loops.  Every method is proved against the value level. */
module BufferCores {
  import opened Rigid
  import opened TimeCaches
  import opened Forest
  import opened LatestCommonTimes
  import opened Buffers
  import opened Lookups
  import opened Publishing

  datatype Slot = Vacant | Timed(time: TimeCache) | Fixed(fixed: StaticCache)

  ghost function ObjectsOf(s: Slot): set<object> {
    match s
    case Vacant => {}
    case Timed(c) => {c}
    case Fixed(c) => {c}
  }

  ghost function SlotValue(s: Slot): Cache
    reads ObjectsOf(s)
  {
    match s
    case Vacant => NoCache
    case Timed(c) => Dynamic(c.storage)
    case Fixed(c) => Static(c.storage)
  }

  ghost predicate Within(fs: seq<Slot>, repr: set<object>) {
    forall i :: 0 <= i < |fs| ==> ObjectsOf(fs[i]) <= repr
  }

  ghost function SlotValues(fs: seq<Slot>, repr: set<object>): seq<Cache>
    requires Within(fs, repr)
    reads repr
  {
    seq(|fs|, i requires 0 <= i < |fs| && Within(fs, repr) reads repr => SlotValue(fs[i]))
  }

  class BufferCore {
    const cacheTime: nat
    var frames: seq<Slot>
    var ids: map<string, FrameId>
    var names: seq<string>
    ghost var Repr: set<object>

    /** The cache objects are in Repr, distinct, and keep data for the buffer's cache time. */
    ghost predicate Separate()
      reads this
    {
      && this !in Repr && Within(frames, Repr)
      && (forall i, j :: 0 <= i < j < |frames| ==> ObjectsOf(frames[i]) !! ObjectsOf(frames[j]))
      && (forall i :: 0 <= i < |frames| && frames[i].Timed? ==> frames[i].time.maxStorageTime == cacheTime)
    }

    ghost function View(): Buffer
      requires Separate()
      reads this, Repr
    {
      Buffer(SlotValues(frames, Repr), ids, names, cacheTime)
    }

    ghost predicate Inv()
      reads this, Repr
    {
      Separate() && Buffers.Valid(View())
    }

    constructor (cacheTime: nat)
      ensures Inv() && fresh(Repr) && this.cacheTime == cacheTime
      ensures frames == [Vacant] && ids == map[NO_PARENT := NO_FRAME] && names == [NO_PARENT]
    {
      this.cacheTime := cacheTime;
      frames := [Vacant];
      ids := map[NO_PARENT := NO_FRAME];
      names := [NO_PARENT];
      Repr := {};
      new;
      assert View().frames == [NoCache];
    }

    // ----- caches -----

    /** A valid cache object behind a frame id */
    lemma SlotFacts(f: FrameId)
      requires Inv() && f < |frames|
      ensures View().frames[f] == SlotValue(frames[f]) && ValidCache(View().frames[f], |frames|)
      ensures frames[f].Timed? ==> frames[f].time.Valid()
      ensures |View().frames| == |frames|
    {
    }

    method HasCache(f: FrameId) returns (has: bool)
      requires Inv()
      ensures has <==> f in Cached(View())
    {
      has := f < |frames| && !frames[f].Vacant?;
      if f < |frames| {
        SlotFacts(f);
      }
    }

    /** gather() of the two accumulators: the parent at this time, and the transform to it */
    method Gather(accum: Accumulator, f: FrameId, t: Time) returns (parent: FrameId, edge: Transform)
      requires Inv() && f != NO_FRAME
      ensures parent == Up(Gathered(View(), accum, t), f) == Up(Parents(View(), t), f)
      ensures accum.TransformAccum? && parent != NO_FRAME ==> edge == Edge(View(), t, accum.slerp, f)
    {
      edge := Id;
      if accum.TransformAccum? {
        SameParents(View(), t, accum.slerp);
      }
      if f >= |frames| {
        return NO_FRAME, edge;
      }
      SlotFacts(f);
      match frames[f] {
        case Vacant => parent := NO_FRAME;
        case Timed(c) =>
          match accum {
            case CanTransformAccum => parent := c.GetParent(t);
            case TransformAccum(slerp) =>
              var data := c.GetData(t, slerp);
              if data.Some? {
                parent, edge := data.value.frameId, Transform(data.value.rotation, data.value.translation);
              } else {
                parent := NO_FRAME;
              }
          }
        case Fixed(c) =>
          parent, edge := c.storage.frameId, Transform(c.storage.rotation, c.storage.translation);
      }
    }

    /** getLatestTimeAndParent, (0, 0) for a frame without a cache */
    function LatestOf(f: FrameId): (r: (Time, FrameId))
      requires Separate()
      reads this, Repr
      ensures r.0 == StampOf(LatestStamps(View()), f)
      ensures f != NO_FRAME ==> r.1 == Up(LatestParents(View()), f)
    {
      if f >= |frames| then (TIME_ZERO, NO_FRAME)
      else
        match frames[f]
        case Vacant => (TIME_ZERO, NO_FRAME)
        case Timed(c) => if c.storage == [] then (TIME_ZERO, NO_FRAME) else (c.storage[0].stamp, c.storage[0].frameId)
        case Fixed(c) => (TIME_ZERO, c.storage.frameId)
    }

    // ----- getLatestCommonTime -----

    /** One pass of the first loop collects the latest stamp and parent of each ancestor of the source. */
    method CollectAncestors(target: FrameId, source: FrameId) returns (climb: Climb, list: seq<(Time, FrameId)>, time: Time)
      requires Separate() && source != NO_FRAME && target != NO_FRAME
      ensures climb == ClimbLatest(LatestParents(View()), target, source, 0)
      ensures climb.AtTarget? ==> time == ChainMin(LatestParents(View()), LatestStamps(View()), source, climb.n, TIME_MAX)
      ensures climb.AtRoot? ==> IsAncestorList(LatestParents(View()), LatestStamps(View()), source, climb.n, list)
    {
      ghost var v := View();
      ghost var g, w := LatestParents(v), LatestStamps(v);
      var frame, depth := source, 0;
      list, time, climb := [], TIME_MAX, Loop;
      assert IsAncestorList(g, w, source, 0, list);
      hide LatestParents, LatestStamps, ClimbLatest, ChainMin, Anc, Up, StampOf;
      ChainStart(g, w, source);
      while frame != NO_FRAME
        invariant 0 <= depth <= MAX_GRAPH_DEPTH && frame == Anc(g, source, depth) != NO_FRAME
        invariant time == ChainMin(g, w, source, depth, TIME_MAX)
        invariant IsAncestorList(g, w, source, depth, list)
        invariant ClimbLatest(g, target, source, 0) == ClimbLatest(g, target, source, depth)
        decreases MAX_GRAPH_DEPTH - depth
      {
        var (stamp, parent) := LatestOf(frame);
        ChainStep(g, w, source, depth);
        ClimbLatestStep(g, target, source, depth);
        if parent == NO_FRAME {
          climb := AtRoot(depth);
          break;
        }
        time := MinStamp(time, stamp);
        list := list + [(stamp, parent)];
        if parent == target {
          climb := AtTarget(depth + 1);
          break;
        }
        if depth + 1 > MAX_GRAPH_DEPTH {
          climb := Loop;
          break;
        }
        frame := parent;
        depth := depth + 1;
      }
    }

    /** The second loop climbs from the target until it meets the list or the source. */
    method ClimbToList(target: FrameId, source: FrameId, list: seq<(Time, FrameId)>, ghost g: Graph, ghost w: Stamps)
      returns (descent: Descent, time: Time)
      requires Separate() && source != NO_FRAME && target != NO_FRAME
      requires g == LatestParents(View()) && w == LatestStamps(View())
      requires IsAncestorList(g, w, source, |list|, list)
      ensures descent == ClimbToCommon(g, target, source, |list|, 0)
      ensures descent.Common? || descent.AtSource? ==> time == ChainMin(g, w, target, descent.j, TIME_MAX)
      ensures descent.Common? ==> 1 <= descent.i <= |list|
    {
      var frame, depth := target, 0;
      time, descent := TIME_MAX, Unrelated;
      hide LatestParents, LatestStamps, IsAncestorList, ClimbToCommon, ChainMin, Anc, Up, StampOf, PositionOf, FindAncestor, MinStamp;
      ChainStart(g, w, target);
      while true
        invariant 0 <= depth <= MAX_GRAPH_DEPTH && frame == Anc(g, target, depth) != NO_FRAME
        invariant time == ChainMin(g, w, target, depth, TIME_MAX)
        invariant ClimbToCommon(g, target, source, |list|, 0) == ClimbToCommon(g, target, source, |list|, depth)
        decreases MAX_GRAPH_DEPTH - depth
      {
        var (stamp, parent) := LatestOf(frame);
        ChainStep(g, w, target, depth);
        ClimbToCommonStep(g, target, source, |list|, depth);
        if parent == NO_FRAME {
          descent := Unrelated;
          break;
        }
        time := MinStamp(time, stamp);
        var at := FindAncestor(list, parent, 1);
        FindAncestorIs(g, w, source, list, parent, 1);
        if at != 0 {
          descent := Common(at, depth + 1);
          break;
        }
        if parent == source {
          descent := AtSource(depth + 1);
          break;
        }
        if depth + 1 > MAX_GRAPH_DEPTH {
          descent := DescentLoop;
          break;
        }
        frame := parent;
        depth := depth + 1;
      }
    }

    method GetLatestCommonTime(target: FrameId, source: FrameId) returns (r: Outcome)
      requires Separate()
      ensures r == LatestCommonTime(View(), target, source)
    {
      if source == NO_FRAME || target == NO_FRAME {
        return Error(LookupError);
      }
      if source == target {
        var latest := LatestStampOf(source);
        return Ok(latest);
      }
      ghost var g, w := LatestParents(View()), LatestStamps(View());
      var climb, list, time := CollectAncestors(target, source);
      match climb {
        case AtTarget(_) => return Ok(OrZero(time));
        case Loop => return Error(LookupError);
        case AtRoot(_) =>
      }
      assert climb.n == |list|;
      hide LatestParents, LatestStamps, ClimbLatest, ClimbToCommon, IsAncestorList;
      var descent, common := ClimbToList(target, source, list, g, w);
      match descent {
        case Unrelated => return Error(ConnectivityError);
        case DescentLoop => return Error(LookupError);
        case AtSource(_) => return Ok(OrZero(common));
        case Common(i, j) =>
          // the rest of the path: the source's edges up to the common parent
          ghost var below := common;
          var k := 0;
          while k < i
            invariant 0 <= k <= i
            invariant common == ChainMin(g, w, source, k, below)
          {
            AncestorAt(g, w, source, list, k);
            if list[k].0 != TIME_ZERO && list[k].0 < common {
              common := list[k].0;
            }
            k := k + 1;
          }
          return Ok(OrZero(common));
      }
    }

    method LatestStampOf(f: FrameId) returns (stamp: Time)
      requires Separate()
      ensures stamp == CacheLatestTime(GetFrame(View(), f))
    {
      stamp := TIME_ZERO;
      if f < |frames| {
        if frames[f].Timed? && frames[f].time.storage != [] {
          stamp := frames[f].time.storage[0].stamp;
        }
      }
    }

    // ----- walkToTopParent -----

    /** The first walk, from the source towards the root, accumulating the transform */
    method ClimbFromSource(accum: Accumulator, t: Time, target: FrameId, source: FrameId, ghost b: Buffer, ghost g: Graph)
      returns (climb: SourceClimb, sourceToTop: Transform)
      requires Inv() && b == View() && g == Parents(b, t) && source != NO_FRAME
      ensures climb == ClimbSource(g, Cached(b), target, source, 0)
      ensures accum.TransformAccum? && !climb.SourceLoop? ==> sourceToTop == Path(b, t, accum.slerp, source, climb.n)
    {
      var frame, depth := source, 0;
      sourceToTop, climb := Id, SourceLoop;
      hide Parents, ClimbSource, Anc, Up, Compose, Path, Cached, Edge;
      WalkStart(b, t, accum, source);
      while frame != NO_FRAME
        invariant Inv() && View() == b
        invariant 0 <= depth <= MAX_GRAPH_DEPTH && frame == Anc(g, source, depth) != NO_FRAME
        invariant accum.TransformAccum? ==> sourceToTop == Path(b, t, accum.slerp, source, depth)
        invariant ClimbSource(g, Cached(b), target, source, 0) == ClimbSource(g, Cached(b), target, source, depth)
        decreases MAX_GRAPH_DEPTH - depth
      {
        WalkStep(b, t, accum, source, depth);
        ClimbSourceStep(g, Cached(b), target, source, depth);
        var parent, edge := Gather(accum, frame, t);
        if parent == NO_FRAME {
          var has := HasCache(frame);
          climb := Top(frame, depth, has);
          break;
        }
        if frame == target {
          climb := MetTarget(depth);
          break;
        }
        sourceToTop := Compose(edge, sourceToTop);
        if depth + 1 > MAX_GRAPH_DEPTH {
          climb := SourceLoop;
          break;
        }
        frame := parent;
        depth := depth + 1;
      }
    }

    /** The second walk, from the target towards the frame where the first one stopped */
    method ClimbFromTarget(accum: Accumulator, t: Time, target: FrameId, source: FrameId, top: FrameId, ghost b: Buffer, ghost g: Graph)
      returns (climb: TargetClimb, targetToTop: Transform)
      requires Inv() && b == View() && g == Parents(b, t) && target != NO_FRAME
      ensures climb == ClimbTarget(g, Cached(b), target, source, top, 0)
      ensures accum.TransformAccum? && (climb.MetTop? || climb.MetSource?) ==> targetToTop == Path(b, t, accum.slerp, target, climb.n)
    {
      var frame, depth := target, 0;
      targetToTop, climb := Id, TargetLoop;
      hide Parents, ClimbTarget, Anc, Up, Compose, Path, Cached, Edge;
      WalkStart(b, t, accum, target);
      while true
        invariant Inv() && View() == b
        invariant 0 <= depth <= MAX_GRAPH_DEPTH && frame == Anc(g, target, depth) != NO_FRAME
        invariant accum.TransformAccum? ==> targetToTop == Path(b, t, accum.slerp, target, depth)
        invariant ClimbTarget(g, Cached(b), target, source, top, 0) == ClimbTarget(g, Cached(b), target, source, top, depth)
        decreases MAX_GRAPH_DEPTH - depth
      {
        WalkStep(b, t, accum, target, depth);
        ClimbTargetStep(g, Cached(b), target, source, top, depth);
        if frame == top {
          climb := MetTop(depth);
          break;
        }
        var parent, edge := Gather(accum, frame, t);
        if parent == NO_FRAME {
          var has := HasCache(frame);
          climb := Stopped(has);
          break;
        }
        if frame == source {
          climb := MetSource(depth);
          break;
        }
        targetToTop := Compose(edge, targetToTop);
        if depth + 1 > MAX_GRAPH_DEPTH {
          climb := TargetLoop;
          break;
        }
        frame := parent;
        depth := depth + 1;
      }
    }

    method WalkToTopParent(accum: Accumulator, time: Time, target: FrameId, source: FrameId)
      returns (walk: WalkResult, t: Time, result: Transform)
      requires Inv() && source != NO_FRAME && target != NO_FRAME
      ensures (walk, t) == WalkToTop(View(), accum, time, target, source)
      ensures accum.TransformAccum? && walk.Connected? ==>
                result == Finalized(walk.ending, Path(View(), t, accum.slerp, source, walk.up), Path(View(), t, accum.slerp, target, walk.down))
    {
      hide Parents, ClimbSource, ClimbTarget, Compose, Inverse, Path, Cached, DataParents;
      t, result := time, Id;
      if source == target {
        return Connected(Identity, 0, 0), t, result;
      }
      if time == TIME_ZERO {
        var latest := GetLatestCommonTime(target, source);
        match latest {
          case Error(e) => return Failed(e), t, result;
          case Ok(common) => t := common;
        }
      }
      ghost var b := View();
      ghost var g := Parents(b, t);
      if accum.TransformAccum? {
        SameParents(b, t, accum.slerp);
      }
      var climb, sourceToTop := ClimbFromSource(accum, t, target, source, b, g);
      match climb {
        case MetTarget(n) => return Connected(TargetParentOfSource, n, 0), t, Finalized(TargetParentOfSource, sourceToTop, Id);
        case SourceLoop => return Failed(LookupError), t, result;
        case Top(_, _, _) =>
      }
      var descent, targetToTop := ClimbFromTarget(accum, t, target, source, climb.top, b, g);
      match descent {
        case MetTop(m) => return Connected(FullPath, climb.n, m), t, Finalized(FullPath, sourceToTop, targetToTop);
        case MetSource(m) => return Connected(SourceParentOfTarget, 0, m), t, Finalized(SourceParentOfTarget, sourceToTop, targetToTop);
        case TargetLoop => return Failed(LookupError), t, result;
        case Stopped(extrapolated) =>
          return Failed(if climb.extrapolated || extrapolated then ExtrapolationError else ConnectivityError), t, result;
      }
    }

    // ----- queries by name -----

    function LookupFrameNumber(name: string): FrameId
      reads this
    {
      if name in ids then ids[name] else NO_FRAME
    }

    function ValidateFrameId(name: string): NameCheck
      reads this
    {
      if name == "" || StartsWithSlash(name) then Rejected(InvalidArgumentException)
      else if LookupFrameNumber(name) == NO_FRAME then Rejected(LookupException)
      else Known(LookupFrameNumber(name))
    }

    method LookupTransform(slerp: Slerp, target: string, source: string, time: Time) returns (r: LookupResult)
      requires Inv()
      ensures r == Lookups.LookupTransform(View(), slerp, target, source, time)
    {
      if target == source {
        if time == TIME_ZERO {
          var latest := LatestStampOf(LookupFrameNumber(target));
          return Found(Id, latest);
        }
        return Found(Id, time);
      }
      var targetCheck := ValidateFrameId(target);
      if targetCheck.Rejected? {
        return Thrown(targetCheck.exception);
      }
      var sourceCheck := ValidateFrameId(source);
      if sourceCheck.Rejected? {
        return Thrown(sourceCheck.exception);
      }
      hide WalkToTop, Path, Finalized, Buffers.Valid;
      var walk, t, result := WalkToTopParent(TransformAccum(slerp), time, targetCheck.id, sourceCheck.id);
      return if walk.Failed? then Thrown(ExceptionOf(walk.error)) else Found(result, t);
    }

    method CanTransformInternally(target: FrameId, source: FrameId, time: Time) returns (can: bool)
      requires Inv()
      ensures can == CanTransformInternal(View(), target, source, time)
    {
      if target == NO_FRAME || source == NO_FRAME {
        return false;
      }
      if target == source {
        return true;
      }
      var walk, _, _ := WalkToTopParent(CanTransformAccum, time, target, source);
      return walk.Connected?;
    }

    method CanTransform(target: string, source: string, time: Time) returns (can: bool)
      requires Inv()
      ensures can == Lookups.CanTransform(View(), target, source, time)
    {
      if target == source {
        return true;
      }
      var targetCheck, sourceCheck := ValidateFrameId(target), ValidateFrameId(source);
      if targetCheck.Rejected? || sourceCheck.Rejected? {
        return false;
      }
      can := CanTransformInternally(targetCheck.id, sourceCheck.id, time);
    }

    // ----- setTransform -----

    method LookupOrInsertFrameNumber(name: string) returns (id: FrameId)
      requires Inv()
      modifies this
      ensures Inv() && Repr == old(Repr) && id < |frames|
      ensures (View(), id) == Register(old(View()), name)
    {
      RegisterValid(View(), name);
      if name in ids {
        return ids[name];
      }
      id := |frames|;
      frames := frames + [Vacant];
      ids := ids[name := id];
      names := names + [name];
      assert View().frames == old(View()).frames + [NoCache];
    }

    method SetTransformImpl(m: Message) returns (accepted: bool)
      requires Inv() && Unreserved(m)
      modifies this, Repr
      ensures Inv() && fresh(Repr - old(Repr))
      ensures Stored(View(), accepted) == SetTransform(old(View()), m)
    {
      hide Register, Inserted, Unit, Store, Acceptable;
      if !Acceptable(m) {
        return false;
      }
      ghost var b := View();
      StoreParts(b, m);
      var child := LookupOrInsertFrameNumber(StripSlash(m.childFrameId));
      var parent := LookupOrInsertFrameNumber(StripSlash(m.frameId));
      SlotFacts(child);
      var d := TransformStorage(m.transform.rotation, m.transform.origin, m.stamp, parent, child);
      if m.isStatic {
        accepted := InsertStatic(child, d);
      } else {
        accepted := InsertTimed(child, d);
      }
      assert View() == Store(b, m).buffer;
    }

    /** Overwrites the static cache, replacing a cache of the other kind */
    method InsertStatic(child: FrameId, d: TransformStorage) returns (accepted: bool)
      requires Separate() && child < |frames|
      modifies this, Repr
      ensures Separate() && fresh(Repr - old(Repr)) && ids == old(ids) && names == old(names)
      ensures View().frames == old(View()).frames[child := Static(d)] && accepted
    {
      if frames[child].Fixed? {
        accepted := frames[child].fixed.InsertData(d);
      } else {
        var cache := new StaticCache(d);
        Repr := Repr + {cache};
        frames := frames[child := Fixed(cache)];
        accepted := true;
      }
    }

    /** Inserts into the history, replacing a cache of the other kind by an empty one first */
    method InsertTimed(child: FrameId, d: TransformStorage) returns (accepted: bool)
      requires Separate() && child < |frames| && (frames[child].Timed? ==> frames[child].time.Valid())
      modifies this, Repr
      ensures Separate() && fresh(Repr - old(Repr)) && ids == old(ids) && names == old(names)
      ensures View().frames == old(View()).frames[child := Dynamic(Inserted(DynamicStorage(old(View()).frames[child]), cacheTime, d))]
      ensures accepted == !TooOld(DynamicStorage(old(View()).frames[child]), cacheTime, d)
    {
      if !frames[child].Timed? {
        var cache := new TimeCache(cacheTime);
        Repr := Repr + {cache};
        frames := frames[child := Timed(cache)];
        assert ValidList(cache.storage);
      }
      hide Inserted, ValidList;
      accepted := frames[child].time.InsertData(d);
    }
  }

  lemma StoreParts(b: Buffer, m: Message)
    requires Buffers.Valid(b) && Acceptable(m) && Unreserved(m)
    ensures var (b1, child) := Register(b, StripSlash(m.childFrameId));
            var (b2, parent) := Register(b1, StripSlash(m.frameId));
            var d := TransformStorage(m.transform.rotation, m.transform.origin, m.stamp, parent, child);
            && child < |b1.frames| <= |b2.frames|
            && Store(b, m).buffer == b2.(frames := b2.frames[child := CacheWith(b2.frames[child], b.cacheTime, m.isStatic, d)])
            && Store(b, m).accepted == (m.isStatic || !TooOld(DynamicStorage(b2.frames[child]), b.cacheTime, d))
            && b2.cacheTime == b.cacheTime
    ensures Buffers.Valid(Store(b, m).buffer)
  {
    StoreValid(b, m);
    RegisterValid(b, StripSlash(m.childFrameId));
    RegisterValid(Register(b, StripSlash(m.childFrameId)).0, StripSlash(m.frameId));
  }

  lemma WalkStart(b: Buffer, t: Time, accum: Accumulator, f: FrameId)
    ensures Anc(Parents(b, t), f, 0) == f
    ensures accum.TransformAccum? ==> Path(b, t, accum.slerp, f, 0) == Id
  {
  }

  lemma WalkStep(b: Buffer, t: Time, accum: Accumulator, f: FrameId, n: nat)
    ensures var g := Parents(b, t); Anc(g, f, n + 1) == Up(g, Anc(g, f, n))
    ensures accum.TransformAccum? ==>
              Path(b, t, accum.slerp, f, n + 1) ==
              Compose(Edge(b, t, accum.slerp, Anc(Parents(b, t), f, n)), Path(b, t, accum.slerp, f, n))
  {
  }

  lemma ClimbSourceStep(g: Graph, cached: set<nat>, target: nat, source: nat, n: nat)
    requires n <= MAX_GRAPH_DEPTH
    ensures ClimbSource(g, cached, target, source, n) ==
            var f := Anc(g, source, n);
            if Up(g, f) == 0 then Top(f, n, f in cached)
            else if f == target then MetTarget(n)
            else if n == MAX_GRAPH_DEPTH then SourceLoop
            else ClimbSource(g, cached, target, source, n + 1)
  {
  }

  lemma ClimbTargetStep(g: Graph, cached: set<nat>, target: nat, source: nat, top: nat, n: nat)
    requires n <= MAX_GRAPH_DEPTH
    ensures ClimbTarget(g, cached, target, source, top, n) ==
            var f := Anc(g, target, n);
            if f == top then MetTop(n)
            else if Up(g, f) == 0 then Stopped(f in cached)
            else if f == source then MetSource(n)
            else if n == MAX_GRAPH_DEPTH then TargetLoop
            else ClimbTarget(g, cached, target, source, top, n + 1)
  {
  }

  lemma ChainStart(g: Graph, w: Stamps, f: nat)
    ensures Anc(g, f, 0) == f && ChainMin(g, w, f, 0, TIME_MAX) == TIME_MAX
  {
  }

  lemma ChainStep(g: Graph, w: Stamps, f: nat, n: nat)
    ensures Anc(g, f, n + 1) == Up(g, Anc(g, f, n))
    ensures ChainMin(g, w, f, n + 1, TIME_MAX) == MinStamp(ChainMin(g, w, f, n, TIME_MAX), StampOf(w, Anc(g, f, n)))
  {
  }

  lemma ClimbLatestStep(g: Graph, target: nat, source: nat, n: nat)
    requires n <= MAX_GRAPH_DEPTH
    ensures ClimbLatest(g, target, source, n) ==
            if Anc(g, source, n + 1) == 0 then AtRoot(n)
            else if Anc(g, source, n + 1) == target then AtTarget(n + 1)
            else if n == MAX_GRAPH_DEPTH then Loop
            else ClimbLatest(g, target, source, n + 1)
  {
  }

  lemma ClimbToCommonStep(g: Graph, target: nat, source: nat, n: nat, m: nat)
    requires m <= MAX_GRAPH_DEPTH
    ensures ClimbToCommon(g, target, source, n, m) ==
            var p := Anc(g, target, m + 1);
            var at := PositionOf(g, source, n, p, 1);
            if p == 0 then Unrelated
            else if at != 0 then Common(at, m + 1)
            else if p == source then AtSource(m + 1)
            else if m == MAX_GRAPH_DEPTH then DescentLoop
            else ClimbToCommon(g, target, source, n, m + 1)
  {
  }

  /** The first ancestor in the list that is the given frame, as a one-based position; 0 if there is none */
  function FindAncestor(list: seq<(Time, FrameId)>, p: FrameId, from: nat): (at: nat)
    requires 1 <= from <= |list| + 1
    ensures at <= |list|
    decreases |list| + 1 - from
  {
    if from > |list| then 0
    else if list[from - 1].1 == p then from
    else FindAncestor(list, p, from + 1)
  }

  lemma {:induction false} FindAncestorIs(g: Graph, w: Stamps, s: nat, list: seq<(Time, FrameId)>, p: FrameId, from: nat)
    requires IsAncestorList(g, w, s, |list|, list) && 1 <= from <= |list| + 1
    ensures FindAncestor(list, p, from) == PositionOf(g, s, |list|, p, from)
    decreases |list| + 1 - from
  {
    if from <= |list| {
      AncestorAt(g, w, s, list, from - 1);
      FindAncestorIs(g, w, s, list, p, from + 1);
    }
  }

  lemma AncestorAt(g: Graph, w: Stamps, s: nat, list: seq<(Time, FrameId)>, k: nat)
    requires IsAncestorList(g, w, s, |list|, list) && k < |list|
    ensures list[k] == (StampOf(w, Anc(g, s, k)), Anc(g, s, k + 1))
  {
  }

  /** list holds the latest stamp and parent of the first n edges above s. */
  ghost predicate IsAncestorList(g: Graph, w: Stamps, s: nat, n: nat, list: seq<(Time, FrameId)>) {
    |list| == n && forall k: nat :: k < n ==> list[k] == (StampOf(w, Anc(g, s, k)), Anc(g, s, k + 1))
  }
}
