/** setTransform on the value of a buffer: registering names, choosing the cache kind,
    inserting the datum - and what a rejected datum may still change. */
module Publishing {
  import opened Rigid
  import opened TimeCaches
  import opened Forest
  import opened Buffers
  import opened Lookups

  datatype Message = Message(transform: Transform, frameId: string, childFrameId: string, stamp: Time, isStatic: bool)

  datatype Stored = Stored(buffer: Buffer, accepted: bool)

  function StripSlash(name: string): string {
    if StartsWithSlash(name) then name[1..] else name
  }

  /** The checks made before the buffer is touched. */
  predicate Acceptable(m: Message) {
    && StripSlash(m.childFrameId) != StripSlash(m.frameId)
    && StripSlash(m.childFrameId) != "" && StripSlash(m.frameId) != ""
    && Unit(m.transform.rotation)
  }

  /** The name of id 0 is not for publishers. */
  predicate Unreserved(m: Message) {
    StripSlash(m.childFrameId) != NO_PARENT && StripSlash(m.frameId) != NO_PARENT
  }

  /** lookupOrInsertFrameNumber */
  function Register(b: Buffer, name: string): (Buffer, FrameId) {
    if name in b.ids then (b, b.ids[name])
    else
      (b.(frames := b.frames + [NoCache], ids := b.ids[name := |b.frames|], names := b.names + [name]), |b.frames|)
  }

  function DynamicStorage(c: Cache): Storage {
    if c.Dynamic? then c.storage else []
  }

  function CacheWith(c: Cache, cacheTime: nat, isStatic: bool, d: TransformStorage): Cache {
    if isStatic then Static(d) else Dynamic(Inserted(DynamicStorage(c), cacheTime, d))
  }

  function Store(b: Buffer, m: Message): Stored
    requires ValidRegistry(b)
  {
    var (b1, child) := Register(b, StripSlash(m.childFrameId));
    var (b2, parent) := Register(b1, StripSlash(m.frameId));
    var d := TransformStorage(m.transform.rotation, m.transform.origin, m.stamp, parent, child);
    var c := b1.frames[child];
    Stored(b2.(frames := b2.frames[child := CacheWith(c, b.cacheTime, m.isStatic, d)]),
           m.isStatic || !TooOld(DynamicStorage(c), b.cacheTime, d))
  }

  function SetTransform(b: Buffer, m: Message): Stored
    requires ValidRegistry(b)
  {
    if Acceptable(m) then Store(b, m) else Stored(b, false)
  }

  // ----- the buffer stays valid -----

  lemma RegisterValid(b: Buffer, name: string)
    requires Valid(b)
    ensures Valid(Register(b, name).0)
    ensures var (b', id) := Register(b, name);
            && id < |b'.frames| && b'.names[id] == name && Number(b', name) == id
            && (id == NO_FRAME <==> name == NO_PARENT)
            && |b.frames| <= |b'.frames|
            && (forall f :: 0 <= f < |b.frames| ==> b'.frames[f] == b.frames[f])
            && (forall f :: |b.frames| <= f < |b'.frames| ==> b'.frames[f] == NoCache)
            && (forall n :: n in b.ids ==> n in b'.ids && b'.ids[n] == b.ids[n])
  {
    var (b', id) := Register(b, name);
    forall f | 0 <= f < |b'.frames|
      ensures ValidCache(b'.frames[f], |b'.frames|)
    {
      if f < |b.frames| {
        ValidCacheGrows(b.frames[f], |b.frames|, |b'.frames|);
      }
    }
  }

  lemma ValidCacheGrows(c: Cache, n: nat, n': nat)
    requires ValidCache(c, n) && n <= n'
    ensures ValidCache(c, n')
  {
  }

  lemma CacheWithValid(c: Cache, cacheTime: nat, isStatic: bool, d: TransformStorage, n: nat)
    requires ValidCache(c, n) && ValidData(d, n)
    ensures ValidCache(CacheWith(c, cacheTime, isStatic, d), n)
  {
    if !isStatic {
      var s := DynamicStorage(c);
      InsertRefinesSet(s, cacheTime, d);
      var r := Inserted(s, cacheTime, d);
      forall i | 0 <= i < |r|
        ensures ValidData(r[i], n)
      {
        assert r[i] in Entries(r);
      }
    }
  }

  lemma StoreValid(b: Buffer, m: Message)
    requires Valid(b) && Acceptable(m) && Unreserved(m)
    ensures Valid(Store(b, m).buffer)
    ensures forall n :: n in b.ids ==> n in Store(b, m).buffer.ids && Store(b, m).buffer.ids[n] == b.ids[n]
  {
    var (b1, child) := Register(b, StripSlash(m.childFrameId));
    var (b2, parent) := Register(b1, StripSlash(m.frameId));
    RegisterValid(b, StripSlash(m.childFrameId));
    RegisterValid(b1, StripSlash(m.frameId));
    var d := TransformStorage(m.transform.rotation, m.transform.origin, m.stamp, parent, child);
    ValidCacheGrows(b1.frames[child], |b1.frames|, |b2.frames|);
    CacheWithValid(b1.frames[child], b.cacheTime, m.isStatic, d, |b2.frames|);
  }

  // ----- a rejected datum -----

  /** No loop and no chain beyond the depth limit, at any time. */
  ghost predicate LoopFree(b: Buffer) {
    forall t: Time, f: FrameId :: f != NO_FRAME ==> Shallow(Parents(b, t), f)
  }

  /** A buffer that differs from b only by caches pruned at their old end and by new names without data. */
  ghost predicate Weakened(b: Buffer, b': Buffer) {
    && |b.frames| <= |b'.frames| && b'.cacheTime == b.cacheTime
    && (forall f :: |b.frames| <= f < |b'.frames| ==> b'.frames[f] == NoCache)
    && (forall f :: 0 <= f < |b.frames| ==>
          b'.frames[f] == b.frames[f] ||
          (b.frames[f].Dynamic? && b'.frames[f] == Dynamic(Pruned(b.frames[f].storage, b.cacheTime))))
    && (forall n :: n in b.ids ==> n in b'.ids && b'.ids[n] == b.ids[n])
    && (forall n :: n in b'.ids && n !in b.ids ==> b'.ids[n] >= |b.frames|)
  }

  /** All that a rejected datum does is prune the child's cache and, possibly, name the parent. */
  lemma RejectedWeakens(b: Buffer, m: Message)
    requires Valid(b) && Acceptable(m) && Unreserved(m) && !Store(b, m).accepted
    ensures Valid(Store(b, m).buffer) && Weakened(b, Store(b, m).buffer)
  {
    StoreValid(b, m);
    RegisterValid(b, StripSlash(m.childFrameId));
    RegisterValid(Register(b, StripSlash(m.childFrameId)).0, StripSlash(m.frameId));
  }

  lemma PrunedLatest(s: Storage, maxAge: nat)
    ensures LatestStamp(Pruned(s, maxAge)) == LatestStamp(s)
    ensures CacheLatestParent(Dynamic(Pruned(s, maxAge))) == CacheLatestParent(Dynamic(s))
  {
  }

  lemma WeakenedLatest(b: Buffer, b': Buffer)
    requires Weakened(b, b')
    ensures LatestParents(b') == LatestParents(b)
    ensures LatestStamps(b') == LatestStamps(b)
    ensures Cached(b') == Cached(b)
  {
    forall f | 0 <= f < |b.frames|
      ensures CacheLatestParent(b'.frames[f]) == CacheLatestParent(b.frames[f])
      ensures CacheLatestTime(b'.frames[f]) == CacheLatestTime(b.frames[f])
      ensures b'.frames[f].NoCache? <==> b.frames[f].NoCache?
    {
      if b'.frames[f] != b.frames[f] {
        PrunedLatest(b.frames[f].storage, b.cacheTime);
      }
    }
  }

  // ----- why ties matter -----

  function Datum(stamp: Time, parent: FrameId): TransformStorage {
    TransformStorage(One, Zero, stamp, parent, 1)
  }

  /** The child (id 1) was under frame 2, and once, at stamp 5, under frames 2 and 3. */
  const TIED: Storage := [Datum(9, 2), Datum(5, 2), Datum(5, 3), Datum(2, 2)]

  const TIED_BUFFER :=
    Buffer([NoCache, Dynamic(TIED), NoCache, NoCache],
           map[NO_PARENT := 0, "child" := 1, "odom" := 2, "map" := 3],
           [NO_PARENT, "child", "odom", "map"], 4)

  const LATE_MESSAGE := Message(Id, "odom", "child", 1, false)

  lemma TiedBufferValid()
    ensures Valid(TIED_BUFFER)
  {
    assert Unit(One);
    assert ValidCache(TIED_BUFFER.frames[1], 4);
  }

  lemma TiedRejected()
    ensures var r := SetTransform(TIED_BUFFER, LATE_MESSAGE);
            !r.accepted && r.buffer.frames == [NoCache, Dynamic(TIED[..3]), NoCache, NoCache]
  {
    assert Unit(One);
    NotOlderIsPrefix(TIED, 5, 3);
  }

  lemma TiedAnswers()
    ensures ParentAt(TIED, 5) == 2 && ParentAt(TIED[..3], 5) == 3
  {
    FirstNotAfterUnique(TIED, 5, 1);
  }

  /** The child under frame p, the map being frame 3. */
  lemma OneEdgeWalk(b: Buffer, p: FrameId)
    requires |b.frames| == 4 && b.frames[0] == b.frames[2] == b.frames[3] == NoCache
    requires CacheParent(b.frames[1], 5) == p && p in {2, 3}
    ensures CanTransformInternal(b, 3, 1, 5) <==> p == 3
  {
    var g := Parents(b, 5);
    assert g == map[1 := p];
    hide Parents;
    assert Anc(g, 1, 0) == 1 && Anc(g, 1, 1) == p && Up(g, p) == 0;
    assert ClimbSource(g, Cached(b), 3, 1, 0) == ClimbSource(g, Cached(b), 3, 1, 1) == Top(p, 1, false);
    assert Anc(g, 3, 0) == 3;
  }

  /** With two parents at one stamp, a rejected message can make a request transformable, although
      no test pass follows it: pruning moves the tied stamp to the end of the list. */
  lemma RejectionCanEnable()
    ensures Valid(TIED_BUFFER) && Unreserved(LATE_MESSAGE)
    ensures !SetTransform(TIED_BUFFER, LATE_MESSAGE).accepted
    ensures !CanTransformInternal(TIED_BUFFER, 3, 1, 5)
    ensures CanTransformInternal(SetTransform(TIED_BUFFER, LATE_MESSAGE).buffer, 3, 1, 5)
  {
    hide CanTransformInternal, SetTransform, ParentAt, Valid;
    TiedBufferValid();
    TiedRejected();
    TiedAnswers();
    OneEdgeWalk(TIED_BUFFER, 2);
    OneEdgeWalk(SetTransform(TIED_BUFFER, LATE_MESSAGE).buffer, 3);
  }
}
