/** Publish, then look up: an accepted transform is what a lookup between its two frames returns. */
module PublishedLookups {
  import opened Options
  import opened Rigid
  import opened TimeCaches
  import opened Forest
  import opened LatestCommonTimes
  import opened Buffers
  import opened Lookups
  import opened NamedLookups
  import opened Publishing

  /** The message is about these two frames, and fit to be stored; a leading slash of a name is not part of it. */
  ghost predicate Tells(m: Message, parent: string, child: string) {
    && m.frameId in {parent, "/" + parent} && m.childFrameId in {child, "/" + child}
    && !Misspelt(parent) && !Misspelt(child) && parent != child
    && parent != NO_PARENT && child != NO_PARENT && Unit(m.transform.rotation)
  }

  /** The history that the frame with the name has */
  function History(b: Buffer, name: string): Storage {
    if name in b.ids && b.ids[name] < |b.frames| && b.frames[b.ids[name]].Dynamic? then b.frames[b.ids[name]].storage else []
  }

  /** The message as an entry of its child's history, for the ids that its frames have */
  function DatumOf(m: Message, parent: FrameId, child: FrameId): TransformStorage {
    TransformStorage(m.transform.rotation, m.transform.origin, m.stamp, parent, child)
  }

  lemma StripNamed(name: string)
    requires !Misspelt(name)
    ensures StripSlash(name) == name && StripSlash("/" + name) == name
  {
    assert ("/" + name)[1..] == name;
  }

  lemma TellsAcceptable(m: Message, parent: string, child: string)
    requires Tells(m, parent, child)
    ensures Acceptable(m) && Unreserved(m) && StripSlash(m.frameId) == parent && StripSlash(m.childFrameId) == child
  {
    StripNamed(parent);
    StripNamed(child);
  }

  /** A message about one frame alone, without one of the frames, or with something that is no rotation changes nothing. */
  lemma UnfitIsRefused(b: Buffer, m: Message, name: string)
    requires Valid(b)
    requires || (m.frameId in {name, "/" + name} && m.childFrameId in {name, "/" + name} && !Misspelt(name))
             || m.frameId in {"", "/"} || m.childFrameId in {"", "/"} || !Unit(m.transform.rotation)
    ensures SetTransform(b, m) == Stored(b, false)
  {
    if !Misspelt(name) {
      StripNamed(name);
    }
    assert "/"[1..] == "";
  }

  /** The buffer after the message, by way of the buffer in which only the names are registered */
  lemma StoreShape(b: Buffer, m: Message, parent: string, child: string)
    requires Valid(b) && Tells(m, parent, child)
    ensures var (b1, x) := Register(b, child);
            var (b2, y) := Register(b1, parent);
            var b' := SetTransform(b, m).buffer;
            && b'.names == b2.names && b'.ids == b2.ids && b'.cacheTime == b.cacheTime && x < |b2.frames| == |b'.frames|
            && forall f :: 0 <= f < |b'.frames| && f != x ==> b'.frames[f] == b2.frames[f]
  {
    TellsAcceptable(m, parent, child);
    RegisterValid(b, child);
    RegisterValid(Register(b, child).0, parent);
    hide Acceptable, CacheWith, Unreserved;
  }

  lemma RegisterShape(b: Buffer, name: string)
    requires Valid(b)
    ensures var (b', id) := Register(b, name);
            && |b.frames| <= |b'.frames| == |b'.names| <= |b.frames| + 1 && id < |b'.frames| && b'.names[id] == name
            && (forall f :: 0 <= f < |b.frames| ==> b'.names[f] == b.names[f] && b'.frames[f] == b.frames[f])
            && (forall f :: |b.frames| <= f < |b'.frames| ==> b'.names[f] == name && b'.frames[f] == NoCache)
  {
  }

  /** Only the child's frame gets something new, and every frame keeps its name. */
  lemma PublishedFrames(b: Buffer, m: Message, parent: string, child: string)
    requires Valid(b) && Tells(m, parent, child)
    ensures var b' := SetTransform(b, m).buffer;
            && Valid(b') && IsKnown(b', parent) && IsKnown(b', child) && b'.cacheTime == b.cacheTime
            && |b.frames| == |b.names| <= |b'.frames| == |b'.names| && (forall f :: 0 <= f < |b.frames| ==> b'.names[f] == b.names[f])
            && (forall f :: 0 <= f < |b'.frames| && b'.names[f] != child ==> b'.frames[f] == GetFrame(b, f))
            && (forall f :: |b.frames| <= f < |b'.frames| ==> b'.names[f] in {child, parent})
  {
    TellsAcceptable(m, parent, child);
    StoreValid(b, m);
    StoreShape(b, m, parent, child);
    var (b1, x) := Register(b, child);
    var (b2, y) := Register(b1, parent);
    RegisterValid(b, child);
    RegisterShape(b, child);
    RegisterShape(b1, parent);
    ReservedFrame(b, child);
    ReservedFrame(b1, parent);
    var b' := SetTransform(b, m).buffer;
    hide Register, Acceptable, Store, Unreserved, Valid, ValidRegistry;
    assert b'.names[x] == child;
    assert IsFrame(b', child, x) && IsFrame(b', parent, y);
  }

  lemma ReservedFrame(b: Buffer, name: string)
    requires Valid(b) && name != NO_PARENT
    ensures |b.frames| == |b.names| && Register(b, name).1 != NO_FRAME
  {
  }

  /** What the child's frame gets */
  lemma PublishedCache(b: Buffer, m: Message, parent: string, child: string, y: FrameId, x: FrameId)
    requires Valid(b) && Tells(m, parent, child)
    requires IsFrame(SetTransform(b, m).buffer, parent, y) && IsFrame(SetTransform(b, m).buffer, child, x)
    ensures var b', d := SetTransform(b, m).buffer, DatumOf(m, y, x);
            && x < |b'.frames|
            && b'.frames[x] == (if m.isStatic then Static(d) else Dynamic(Inserted(History(b, child), b.cacheTime, d)))
            && (SetTransform(b, m).accepted <==> m.isStatic || !TooOld(History(b, child), b.cacheTime, d))
  {
    TellsAcceptable(m, parent, child);
    StoreValid(b, m);
    RegisterValid(b, child);
    RegisterValid(Register(b, child).0, parent);
    hide Acceptable, Inserted, Unreserved, TooOld;
    var b' := SetTransform(b, m).buffer;
    assert b'.ids[child] == x && b'.ids[parent] == y;
  }

  // ----- one edge -----

  lemma OneEdgeWalk(g: Graph, cached: set<nat>, f: nat, p: nat)
    requires Up(g, f) == p != 0 && p != f
    ensures Walk(g, cached, p, f) in {Connected(TargetParentOfSource, 1, 0), Connected(FullPath, 1, 0)}
  {
    assert Anc(g, f, 0) == f && Anc(g, f, 1) == p && Anc(g, p, 0) == p;
    assert ClimbSource(g, cached, p, f, 0) == ClimbSource(g, cached, p, f, 1);
  }

  lemma OneEdgePath(b: Buffer, slerp: Slerp, f: FrameId, t: Time)
    ensures Path(b, t, slerp, f, 0) == Id && Path(b, t, slerp, f, 1) == Edge(b, t, slerp, f)
  {
    var e := Edge(b, t, slerp, f);
    assert Anc(Parents(b, t), f, 0) == f;
    assert Path(b, t, slerp, f, 0) == Id;
    assert Path(b, t, slerp, f, 1) == Compose(e, Path(b, t, slerp, f, 0));
    ComposeIdentity(e);
  }

  /** From a frame to its parent the lookup returns the edge between them, loops above them or not. */
  lemma EdgeLookup(b: Buffer, slerp: Slerp, parent: FrameId, child: FrameId, t: Time, t': Time)
    requires Valid(b) && parent != child && Up(Parents(b, t'), child) == parent != NO_FRAME && child != NO_FRAME
    requires QueryTime(b, t, parent, child) == Ok(t')
    ensures LookupById(b, slerp, parent, child, t) == Found(Edge(b, t', slerp, child), t')
  {
    hide Path, Edge, Compose, Inverse, Parents, DataParents, Walk, QueryTime, Valid;
    SameParents(b, t', slerp);
    OneEdgeWalk(Parents(b, t'), Cached(b), child, parent);
    OneEdgePath(b, slerp, child, t');
    OneEdgePath(b, slerp, parent, t');
    ComposeIdentity(Edge(b, t', slerp, child));
    InverseId();
  }

  /** The latest common time of a frame and its latest parent is the stamp of the edge between them. */
  lemma EdgeTime(b: Buffer, parent: FrameId, child: FrameId)
    requires parent != child && parent != NO_FRAME && child != NO_FRAME && Up(LatestParents(b), child) == parent
    requires StampOf(LatestStamps(b), child) < TIME_MAX
    ensures QueryTime(b, TIME_ZERO, parent, child) == Ok(StampOf(LatestStamps(b), child))
  {
    var g, w := LatestParents(b), LatestStamps(b);
    hide LatestParents, LatestStamps;
    assert Anc(g, child, 0) == child && Anc(g, child, 1) == parent;
    assert ClimbLatest(g, parent, child, 0) == AtTarget(1);
    assert ChainMin(g, w, child, 1, TIME_MAX) == MinStamp(ChainMin(g, w, child, 0, TIME_MAX), StampOf(w, child));
  }

  lemma NamedEdgeLookup(b: Buffer, slerp: Slerp, parent: string, child: string, y: FrameId, x: FrameId, t: Time)
    requires Valid(b) && parent != child && IsFrame(b, parent, y) && IsFrame(b, child, x)
    ensures LookupTransform(b, slerp, parent, child, t) == LookupById(b, slerp, y, x, t)
  {
    hide LookupById, Valid;
    FrameIsKnown(b, parent, y);
    FrameIsKnown(b, child, x);
  }

  // ----- static -----

  /** A static transform is what a lookup returns, at every time. */
  lemma StaticIsFound(b: Buffer, m: Message, slerp: Slerp, parent: string, child: string, t: Time)
    requires Valid(b) && Tells(m, parent, child) && m.isStatic
    ensures SetTransform(b, m).accepted
    ensures LookupTransform(SetTransform(b, m).buffer, slerp, parent, child, t) == Found(m.transform, t)
  {
    PublishedFrames(b, m, parent, child);
    var b' := SetTransform(b, m).buffer;
    var y: FrameId :| IsFrame(b', parent, y);
    var x: FrameId :| IsFrame(b', child, x);
    PublishedCache(b, m, parent, child, y, x);
    StaticEdge(b', slerp, DatumOf(m, y, x), y, x, t);
    hide SetTransform, LookupById, Valid, Edge;
    NamedEdgeLookup(b', slerp, parent, child, y, x, t);
  }

  lemma StaticEdge(b: Buffer, slerp: Slerp, d: TransformStorage, y: FrameId, x: FrameId, t: Time)
    requires Valid(b) && NO_FRAME < x < |b.frames| && NO_FRAME < y && x != y && b.frames[x] == Static(d) && d.frameId == y
    ensures LookupById(b, slerp, y, x, t) == Found(Transform(d.rotation, d.translation), t)
  {
    assert Up(Parents(b, t), x) == y;
    assert Up(LatestParents(b), x) == y && StampOf(LatestStamps(b), x) == TIME_ZERO;
    if t == TIME_ZERO {
      EdgeTime(b, y, x);
    }
    EdgeLookup(b, slerp, y, x, t, t);
  }

  // ----- dynamic -----

  lemma DynamicEdge(b: Buffer, slerp: Slerp, d: TransformStorage, y: FrameId, x: FrameId, t: Time, t': Time)
    requires Valid(b) && NO_FRAME < x < |b.frames| && NO_FRAME < y && x != y && b.frames[x].Dynamic? && d.frameId == y
    requires DataAt(b.frames[x].storage, t', slerp) == Some(d) && ParentAt(b.frames[x].storage, t') == y
    requires QueryTime(b, t, y, x) == Ok(t')
    ensures LookupById(b, slerp, y, x, t) == Found(Transform(d.rotation, d.translation), t')
  {
    hide DataAt, ParentAt;
    assert Up(Parents(b, t'), x) == y;
    EdgeLookup(b, slerp, y, x, t, t');
  }

  lemma InsertedOnce(s: Storage, maxAge: nat, d: TransformStorage, slerp: Slerp)
    requires ValidList(s) && GoodSlerp(slerp) && d.stamp != TIME_ZERO && !TooOld(s, maxAge, d)
    requires forall e :: e in s && e.stamp == d.stamp ==> e == d
    ensures var s' := Inserted(s, maxAge, d);
            DataAt(s', d.stamp, slerp) == Some(d) && ParentAt(s', d.stamp) == d.frameId
  {
    var s' := Inserted(s, maxAge, d);
    InsertRefinesSet(s, maxAge, d);
    InsertedEntries(s, maxAge, d, d);
    var i :| 0 <= i < |s'| && s'[i] == d;
    forall j | 0 <= j < |s'| && s'[j].stamp == s'[i].stamp
      ensures j == i
    {
      InsertedEntries(s, maxAge, d, s'[j]);
      assert s'[j] in s';
      assert s'[j] == d;
    }
    hide Inserted, TooOld;
    RecordedOnceAnswers(s', i, slerp);
    DataAvailability(s', d.stamp, slerp);
  }

  /** A dynamic transform is accepted exactly when no entry of its child is newer by more than the storage time; the
      history then holds it, and of what it held before, what is not older than that. */
  lemma PublishedHistory(b: Buffer, m: Message, parent: string, child: string, y: FrameId, x: FrameId, e: TransformStorage)
    requires Valid(b) && Tells(m, parent, child) && !m.isStatic
    requires IsFrame(SetTransform(b, m).buffer, parent, y) && IsFrame(SetTransform(b, m).buffer, child, x)
    ensures SetTransform(b, m).accepted <==> forall d :: d in History(b, child) ==> d.stamp - b.cacheTime <= m.stamp
    ensures e in History(SetTransform(b, m).buffer, child) <==>
              || (e in History(b, child) && forall d :: d in History(b, child) ==> d.stamp - b.cacheTime <= e.stamp)
              || (e == DatumOf(m, y, x) && SetTransform(b, m).accepted)
  {
    hide Inserted, TooOld, SetTransform, History, ValidList;
    var b', s := SetTransform(b, m).buffer, History(b, child);
    PublishedFrames(b, m, parent, child);
    PublishedCache(b, m, parent, child, y, x);
    HistoryValid(b, child);
    InsertedEntries(s, b.cacheTime, DatumOf(m, y, x), e);
    HistoryOf(b', child, x);
  }

  lemma HistoryOf(b: Buffer, name: string, id: FrameId)
    requires Valid(b) && IsFrame(b, name, id)
    ensures id < |b.frames| && History(b, name) == if b.frames[id].Dynamic? then b.frames[id].storage else []
  {
  }

  lemma HistoryValid(b: Buffer, name: string)
    requires Valid(b)
    ensures ValidList(History(b, name))
  {
    if name in b.ids && b.frames[b.ids[name]].Dynamic? {
      assert ValidCache(b.frames[b.ids[name]], |b.frames|);
    }
  }

  /** An accepted transform is what a lookup at its stamp returns, unless the history has something else with that stamp. */
  lemma DynamicIsFound(b: Buffer, m: Message, slerp: Slerp, parent: string, child: string, y: FrameId, x: FrameId)
    requires Valid(b) && GoodSlerp(slerp) && Tells(m, parent, child) && !m.isStatic && m.stamp != TIME_ZERO
    requires SetTransform(b, m).accepted
    requires IsFrame(SetTransform(b, m).buffer, parent, y) && IsFrame(SetTransform(b, m).buffer, child, x)
    requires forall e :: e in History(b, child) && e.stamp == m.stamp ==> e == DatumOf(m, y, x)
    ensures LookupTransform(SetTransform(b, m).buffer, slerp, parent, child, m.stamp) == Found(m.transform, m.stamp)
  {
    hide LookupById, Inserted, TooOld, SetTransform, DataAt, ParentAt, History, GoodSlerp;
    var b', d := SetTransform(b, m).buffer, DatumOf(m, y, x);
    PublishedFrames(b, m, parent, child);
    PublishedCache(b, m, parent, child, y, x);
    HistoryValid(b, child);
    InsertedOnce(History(b, child), b.cacheTime, d, slerp);
    DifferentFrames(b', parent, child, y, x);
    DynamicEdge(b', slerp, d, y, x, m.stamp, m.stamp);
    NamedEdgeLookup(b', slerp, parent, child, y, x, m.stamp);
  }

  lemma InsertedNewest(s: Storage, maxAge: nat, d: TransformStorage, slerp: Slerp)
    requires ValidList(s) && forall e :: e in s ==> e.stamp < d.stamp
    ensures !TooOld(s, maxAge, d)
    ensures var s' := Inserted(s, maxAge, d); s' != [] && s'[0] == d
  {
    var s' := Inserted(s, maxAge, d);
    InsertRefinesSet(s, maxAge, d);
    InsertedEntries(s, maxAge, d, d);
    var i :| 0 <= i < |s'| && s'[i] == d;
    InsertedEntries(s, maxAge, d, s'[0]);
    assert s'[0] in s';
  }

  /** The newest transform is accepted, and it is what a lookup for the latest time returns. */
  lemma NewestIsFound(b: Buffer, m: Message, slerp: Slerp, parent: string, child: string)
    requires Valid(b) && GoodSlerp(slerp) && Tells(m, parent, child) && !m.isStatic && m.stamp != TIME_ZERO && m.stamp < TIME_MAX
    requires forall e :: e in History(b, child) ==> e.stamp < m.stamp
    ensures SetTransform(b, m).accepted
    ensures LookupTransform(SetTransform(b, m).buffer, slerp, parent, child, TIME_ZERO) == Found(m.transform, m.stamp)
  {
    hide LookupById, Inserted, TooOld, SetTransform, DataAt, ParentAt, History, GoodSlerp;
    PublishedFrames(b, m, parent, child);
    var b' := SetTransform(b, m).buffer;
    var y: FrameId :| IsFrame(b', parent, y);
    var x: FrameId :| IsFrame(b', child, x);
    var d := DatumOf(m, y, x);
    PublishedCache(b, m, parent, child, y, x);
    HistoryValid(b, child);
    InsertedNewest(History(b, child), b.cacheTime, d, slerp);
    InsertedOnce(History(b, child), b.cacheTime, d, slerp);
    DifferentFrames(b', parent, child, y, x);
    NewestEdge(b', d, y, x);
    DynamicEdge(b', slerp, d, y, x, TIME_ZERO, m.stamp);
    NamedEdgeLookup(b', slerp, parent, child, y, x, TIME_ZERO);
  }

  lemma NewestEdge(b: Buffer, d: TransformStorage, y: FrameId, x: FrameId)
    requires Valid(b) && NO_FRAME < x < |b.frames| && NO_FRAME < y && x != y && b.frames[x].Dynamic? && b.frames[x].storage != []
    requires b.frames[x].storage[0] == d && d.frameId == y && d.stamp != TIME_ZERO && d.stamp < TIME_MAX
    ensures QueryTime(b, TIME_ZERO, y, x) == Ok(d.stamp)
  {
    assert Up(LatestParents(b), x) == y && StampOf(LatestStamps(b), x) == d.stamp;
    EdgeTime(b, y, x);
  }
}
