/** When a request is given up: what the age check means on the path between its frames, and when it is right. */
module RequestExpiry {
  import opened TimeCaches
  import opened Forest
  import opened LatestCommonTimes
  import opened Buffers
  import opened Lookups
  import opened Publishing
  import opened RejectedUpdates
  import opened TransformableRequests

  // ----- what it means -----

  /** The latest parents form a forest within the depth limit, and no stamp is the end of time. */
  ghost predicate LatestTree(b: Buffer) {
    && (forall f: FrameId :: f != NO_FRAME ==> Shallow(LatestParents(b), f))
    && (forall f :: f in LatestStamps(b) ==> LatestStamps(b)[f] < TIME_MAX)
  }

  /** The frame is the lower end of an edge of the path, and has a history. */
  ghost predicate DatedEdge(b: Buffer, target: FrameId, source: FrameId, i: nat, j: nat, f: FrameId) {
    OnPath(LatestParents(b), source, target, i, j, f) && StampOf(LatestStamps(b), f) != TIME_ZERO
  }

  /** The path runs over i and j edges, something on it has a history, and everything on it that has is ahead of the time
      by more than the cache keeps. */
  ghost predicate LateOn(b: Buffer, target: FrameId, source: FrameId, time: Time, i: nat, j: nat) {
    && Forks(LatestParents(b), source, target, i, j)
    && (exists f :: DatedEdge(b, target, source, i, j, f))
    && forall f :: DatedEdge(b, target, source, i, j, f) ==> StampOf(LatestStamps(b), f) > time + b.cacheTime
  }

  ghost predicate Late(b: Buffer, target: FrameId, source: FrameId, time: Time) {
    exists i: nat, j: nat :: LateOn(b, target, source, time, i, j)
  }

  /** The stamp of a frame is that of its newest entry, and its latest parent is that entry's. */
  lemma LatestIsNewest(b: Buffer, f: FrameId)
    requires Valid(b) && f < |b.frames| && b.frames[f].Dynamic? && b.frames[f].storage != []
    ensures exists e :: e in b.frames[f].storage && e.stamp == StampOf(LatestStamps(b), f) && e.frameId == Up(LatestParents(b), f)
    ensures forall e :: e in b.frames[f].storage ==> e.stamp <= StampOf(LatestStamps(b), f)
  {
    var s := b.frames[f].storage;
    assert ValidCache(b.frames[f], |b.frames|);
    NewestFirst(s);
    assert s[0] in s;
  }

  lemma ExpiredAtFork(b: Buffer, target: FrameId, source: FrameId, time: Time, i: nat, j: nat)
    requires target != source && target != NO_FRAME && source != NO_FRAME && LatestTree(b)
    requires Forks(LatestParents(b), source, target, i, j)
    ensures Expired(b, target, source, time) <==> LateOn(b, target, source, time, i, j)
  {
    var g, w := LatestParents(b), LatestStamps(b);
    var r := PathTime(g, w, source, target, i, j);
    assert LatestCommonTime(b, target, source) == Ok(r) by {
      assert Shallow(g, source) && Shallow(g, target);
      hide LatestParents, LatestStamps, Ends, LatestCommon, Forks, PathTime;
      var n: nat :| n <= MAX_GRAPH_DEPTH && Ends(g, source, n);
      var e: nat :| e <= MAX_GRAPH_DEPTH && Ends(g, target, e);
      LatestCommonIsPathTime(g, w, target, source, n, e);
    }
    hide LatestParents, LatestStamps, PathTime, OnPath, Forks;
    PathTimeIsMinimum(g, w, source, target, i, j);
    assert forall f :: DatedEdge(b, target, source, i, j, f) <==> OnPath(g, source, target, i, j, f) && StampOf(w, f) != 0;
    if r != 0 {
      var f :| OnPath(g, source, target, i, j, f) && StampOf(w, f) == r;
      assert DatedEdge(b, target, source, i, j, f);
    }
  }

  /** The age check gives a request up exactly when it is late. */
  lemma ExpiredIsLate(b: Buffer, target: FrameId, source: FrameId, time: Time)
    requires target != source && target != NO_FRAME && source != NO_FRAME && LatestTree(b)
    ensures Expired(b, target, source, time) <==> Late(b, target, source, time)
  {
    var g := LatestParents(b);
    if Shares(g, source, target) {
      var i: nat, j: nat :| Meets(g, source, target, i, j);
      var i', j' := ForkExists(g, source, target, i, j);
      ExpiredAtFork(b, target, source, time, i', j');
      assert LateOn(b, target, source, time, i', j') ==> Late(b, target, source, time);
    } else {
      NotShared(b, target, source, time);
    }
    hide Expired, LatestParents, LatestStamps, DatedEdge, Shares, LatestTree, Forks;
    if i: nat, j: nat :| LateOn(b, target, source, time, i, j) {
      ExpiredAtFork(b, target, source, time, i, j);
    }
  }

  lemma NotShared(b: Buffer, target: FrameId, source: FrameId, time: Time)
    requires target != source && target != NO_FRAME && source != NO_FRAME && LatestTree(b)
    requires !Shares(LatestParents(b), source, target)
    ensures !Expired(b, target, source, time)
  {
    var g, w := LatestParents(b), LatestStamps(b);
    assert Shallow(g, source) && Shallow(g, target);
    hide LatestParents, LatestStamps, Ends, LatestCommon, Shares;
    var n: nat :| n <= MAX_GRAPH_DEPTH && Ends(g, source, n);
    var e: nat :| e <= MAX_GRAPH_DEPTH && Ends(g, target, e);
    LatestCommonIsPathTime(g, w, target, source, n, e);
  }

  // ----- when it is right -----

  /** Every history spans no more than the cache keeps. */
  ghost predicate Spans(b: Buffer) {
    forall f :: 0 <= f < |b.frames| && b.frames[f].Dynamic? ==> SpanWithin(b.frames[f].storage, b.cacheTime)
  }

  ghost predicate SpanWithin(s: Storage, maxAge: nat) {
    forall d, e :: d in s && e in s ==> d.stamp - maxAge <= e.stamp
  }

  lemma NoDataBefore(b: Buffer, f: FrameId, time: Time)
    requires Valid(b) && Spans(b) && time != TIME_ZERO
    requires StampOf(LatestStamps(b), f) != TIME_ZERO && StampOf(LatestStamps(b), f) > time + b.cacheTime
    ensures Up(Parents(b, time), f) == 0
  {
    assert f < |b.frames| && b.frames[f].Dynamic?;
    var s := b.frames[f].storage;
    assert ValidCache(b.frames[f], |b.frames|) && SpanWithin(s, b.cacheTime);
    assert s[0] in s && s[|s| - 1] in s;
    DataAvailability(s, time, (p, q, r) => p);
  }

  /** A request for a time is not transformable any more when it is late, if every cache has had one parent and spans no
      more than it keeps. */
  lemma LateIsGone(b: Buffer, target: FrameId, source: FrameId, time: Time)
    requires Valid(b) && SingleParents(b) && Spans(b) && LatestTree(b) && time != TIME_ZERO
    requires target != source && target != NO_FRAME && source != NO_FRAME && Late(b, target, source, time)
    ensures !CanTransformInternal(b, target, source, time)
  {
    var g, h := LatestParents(b), Parents(b, time);
    var i: nat, j: nat :| LateOn(b, target, source, time, i, j);
    var f :| DatedEdge(b, target, source, i, j, f);
    assert Shallow(g, source) && Shallow(g, target);
    var n: nat :| n <= MAX_GRAPH_DEPTH && Ends(g, source, n);
    var m: nat :| m <= MAX_GRAPH_DEPTH && Ends(g, target, m);
    hide LatestParents, Parents, Valid, SingleParents, Spans, LatestTree, CanTransformInternal, LatestStamps, Forks, Ends, Shares;
    NoDataBefore(b, f, time);
    SingleParentsSubgraph(b, time);
    BrokenPathUnrelated(h, g, source, target, n, m, i, j, f);
    if CanTransformInternal(b, target, source, time) {
      SharesIfRelated(b, target, source, time);
    }
  }

  // ----- when it is wrong -----

  const OLD_AND_NEW := Buffer([NoCache, Dynamic([Datum(100, 2), Datum(1, 2)]), NoCache],
                              map[NO_PARENT := 0, "child" := 1, "odom" := 2], [NO_PARENT, "child", "odom"], 10)

  lemma ChildUnderOdom(t: Time)
    requires ParentAt([Datum(100, 2), Datum(1, 2)], t) == 2
    ensures CanTransformInternal(OLD_AND_NEW, 2, 1, t)
  {
    var b := OLD_AND_NEW;
    assert Up(LatestParents(b), 1) == 2 && StampOf(LatestStamps(b), 1) == 100;
    OdomIsParent(LatestParents(b), LatestStamps(b));
    var t' := if t == TIME_ZERO then 100 else t;
    assert QueryTime(b, t, 2, 1) == Ok(t');
    assert Up(Parents(b, t'), 1) == 2;
    hide LatestParents, LatestStamps, Parents, LatestCommonTime;
    OneStepWalk(Parents(b, t'), Cached(b), 1);
  }

  lemma OdomIsParent(g: Graph, w: Stamps)
    requires Up(g, 1) == 2 && StampOf(w, 1) == 100
    ensures LatestCommon(g, w, 2, 1) == Ok(100)
  {
    assert Anc(g, 1, 0) == 1 && Anc(g, 1, 1) == 2;
    assert ClimbLatest(g, 2, 1, 0) == AtTarget(1);
    assert ChainMin(g, w, 1, 1, TIME_MAX) == MinStamp(ChainMin(g, w, 1, 0, TIME_MAX), 100);
  }

  /** A history may span more than the cache keeps, because it is pruned before the newest entry comes in; and a request
      for the latest time is always late, once the clock is past what the cache keeps.  Both are then given up although
      they are transformable. */
  lemma GivenUpTooEarly()
    ensures Expired(OLD_AND_NEW, 2, 1, 50) && CanTransformInternal(OLD_AND_NEW, 2, 1, 50)
    ensures Expired(OLD_AND_NEW, 2, 1, TIME_ZERO) && CanTransformInternal(OLD_AND_NEW, 2, 1, TIME_ZERO)
  {
    var b := OLD_AND_NEW;
    assert Up(LatestParents(b), 1) == 2 && StampOf(LatestStamps(b), 1) == 100;
    OdomIsParent(LatestParents(b), LatestStamps(b));
    FirstNotAfterUnique([Datum(100, 2), Datum(1, 2)], 50, 1);
    hide CanTransformInternal, LatestParents, LatestStamps;
    ChildUnderOdom(50);
    ChildUnderOdom(TIME_ZERO);
  }
}
