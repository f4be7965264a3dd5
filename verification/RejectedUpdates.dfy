/** Exactly when a rejected setTransform, after which no test pass follows, relates frames that were not related. */
module RejectedUpdates {
  import opened TimeCaches
  import opened Forest
  import opened Buffers
  import opened Lookups
  import opened Publishing

  // ----- rewiring one edge of a forest -----

  ghost predicate AllShallow(g: Graph) {
    forall f: nat :: f != 0 ==> Shallow(g, f)
  }

  lemma SharesTransitive(g: Graph, x: nat, y: nat, z: nat)
    requires AllShallow(g) && x != 0 && y != 0 && z != 0
    requires Shares(g, x, y) && Shares(g, y, z)
    ensures Shares(g, x, z)
  {
    hide Shares, Ends;
    assert Shallow(g, x) && Shallow(g, y) && Shallow(g, z);
    var l: nat :| l <= MAX_GRAPH_DEPTH && Ends(g, x, l);
    var m: nat :| m <= MAX_GRAPH_DEPTH && Ends(g, y, m);
    var n: nat :| n <= MAX_GRAPH_DEPTH && Ends(g, z, n);
    SharesRoot(g, x, y, l, m);
    SharesRoot(g, y, z, m, n);
    SharesRoot(g, x, z, l, n);
  }

  lemma SharesSymmetric(g: Graph, s: nat, t: nat)
    ensures Shares(g, s, t) <==> Shares(g, t, s)
  {
    if i: nat, j: nat :| Meets(g, s, t, i, j) {
      assert Meets(g, t, s, j, i);
    }
    if i: nat, j: nat :| Meets(g, t, s, i, j) {
      assert Meets(g, s, t, j, i);
    }
  }

  lemma IsolatedUnrelated(g: Graph, added: nat, other: nat)
    requires added != other && Up(g, added) == 0
    requires forall f: nat :: Up(g, f) != added
    ensures !Shares(g, other, added)
  {
    forall i: nat, j: nat
      ensures !Meets(g, other, added, i, j)
    {
      if j > 0 {
        assert Anc(g, added, 1) == 0;
        AncStaysZero(g, added, 1, j);
      } else {
        assert Anc(g, other, i) != added;
      }
    }
  }

  lemma SharesSelf(g: Graph, f: nat)
    requires f != 0
    ensures Shares(g, f, f)
  {
    assert Meets(g, f, f, 0, 0);
  }

  lemma SharesParent(g: Graph, f: nat)
    requires Up(g, f) != 0
    ensures Shares(g, f, Up(g, f))
  {
    assert Anc(g, f, 1) == Up(g, Anc(g, f, 0)) == Up(g, f);
    assert Meets(g, f, Up(g, f), 1, 0);
  }

  /** Moving a frame to another parent of its own tree takes no frame out of its tree. */
  lemma {:induction false} RewiredChain(g: Graph, g': Graph, child: nat, f: nat, n: nat)
    requires AllShallow(g) && f != 0 && Anc(g', f, n) != 0
    requires forall e: nat :: e != child ==> Up(g', e) == Up(g, e)
    requires Up(g', child) != 0 ==> Shares(g, child, Up(g', child))
    ensures Shares(g, f, Anc(g', f, n))
  {
    if n == 0 {
      assert Meets(g, f, f, 0, 0);
    } else {
      var a := Anc(g', f, n - 1);
      RewiredChain(g, g', child, f, n - 1);
      if a != child {
        SharesParent(g, a);
      }
      hide Shares, AllShallow;
      SharesTransitive(g, f, a, Up(g', a));
    }
  }

  lemma RewiredShares(g: Graph, g': Graph, child: nat, x: nat, y: nat)
    requires AllShallow(g) && x != 0 && y != 0 && Shares(g', x, y)
    requires forall e: nat :: e != child ==> Up(g', e) == Up(g, e)
    requires Up(g', child) != 0 ==> Shares(g, child, Up(g', child))
    ensures Shares(g, x, y)
  {
    var i: nat, j: nat :| Meets(g', x, y, i, j);
    MeetIs(g', x, y, i, j);
    hide Shares, AllShallow;
    RewiredChain(g, g', child, x, i);
    RewiredChain(g, g', child, y, j);
    SharesSymmetric(g, y, Anc(g', y, j));
    SharesTransitive(g, x, Anc(g', x, i), y);
  }

  // ----- the cut -----

  /** b' is b with the child's history pruned, and perhaps more names. */
  ghost predicate Cut(b: Buffer, b': Buffer, child: FrameId) {
    && Weakened(b, b') && child != NO_FRAME && HasHistory(b, child)
    && b'.frames[child] == Dynamic(Pruned(b.frames[child].storage, b.cacheTime))
    && forall f :: 0 <= f < |b.frames| && f != child ==> b'.frames[f] == b.frames[f]
  }

  lemma RejectionCuts(b: Buffer, m: Message)
    requires Valid(b) && Acceptable(m) && Unreserved(m) && !Store(b, m).accepted
    ensures Valid(Store(b, m).buffer) && Cut(b, Store(b, m).buffer, Number(b, StripSlash(m.childFrameId)))
  {
    RejectedWeakens(b, m);
    RegisterValid(b, StripSlash(m.childFrameId));
    RegisterValid(Register(b, StripSlash(m.childFrameId)).0, StripSlash(m.frameId));
  }

  predicate HasHistory(b: Buffer, child: FrameId) {
    child < |b.frames| && b.frames[child].Dynamic? && b.frames[child].storage != []
  }

  /** The oldest entry that pruning leaves in the child's history */
  ghost function Oldest(b: Buffer, child: FrameId): TransformStorage
    requires HasHistory(b, child)
  {
    var s := b.frames[child].storage;
    PrunedNonempty(s, b.cacheTime);
    Pruned(s, b.cacheTime)[|Pruned(s, b.cacheTime)| - 1]
  }

  /** The stamp of that entry is tied between two parents, and the entry's own parent is not in the tree
      in which the child was at that stamp. */
  ghost predicate Reparents(b: Buffer, child: FrameId)
    requires HasHistory(b, child)
  {
    var s, d := b.frames[child].storage, Oldest(b, child);
    ParentFlips(s, |Pruned(s, b.cacheTime)|) && !Shares(Parents(b, d.stamp), child, d.frameId)
  }

  lemma HistoryValid(b: Buffer, child: FrameId)
    requires Valid(b) && HasHistory(b, child)
    ensures ValidList(b.frames[child].storage) && NO_FRAME < Oldest(b, child).frameId < |b.frames|
  {
    var s := b.frames[child].storage;
    assert ValidCache(b.frames[child], |b.frames|);
    var k := NotOlderSplits(s, LatestStamp(s) - b.cacheTime);
    PrunedNonempty(s, b.cacheTime);
    assert Oldest(b, child) == s[k - 1];
  }

  /** Where the cut list ends, and what it answers there and elsewhere */
  lemma CutParents(s: Storage, maxAge: nat, t: Time)
    requires ValidList(s) && s != []
    ensures var p := Pruned(s, maxAge);
            && 1 <= |p| <= |s| && p == s[..|p|]
            && (if ParentFlips(s, |p|) && t == p[|p| - 1].stamp then ParentAt(p, t) == p[|p| - 1].frameId
                else ParentAt(p, t) in {NO_FRAME, ParentAt(s, t)})
  {
    var k := NotOlderSplits(s, LatestStamp(s) - maxAge);
    PrunedNonempty(s, maxAge);
    var o := s[k - 1].stamp;
    if t == TIME_ZERO || t > o {
      PruneKeepsAnswersAbove(s, k, t);
    } else if t == o {
      CutParentAtOldest(s, k);
    }
  }

  lemma OtherParents(b: Buffer, b': Buffer, child: FrameId, t: Time)
    requires Valid(b) && Cut(b, b', child)
    ensures forall f: FrameId :: f != child ==> Up(Parents(b', t), f) == Up(Parents(b, t), f)
    ensures Up(Parents(b', t), child) == ParentAt(Pruned(b.frames[child].storage, b.cacheTime), t)
    ensures Up(Parents(b, t), child) == ParentAt(b.frames[child].storage, t)
  {
  }

  lemma RelatedIfShares(b: Buffer, target: FrameId, source: FrameId, t: Time)
    requires LoopFree(b) && target != NO_FRAME && source != NO_FRAME
    requires QueryTime(b, t, target, source).Ok? && Shares(Parents(b, QueryTime(b, t, target, source).time), source, target)
    ensures CanTransformInternal(b, target, source, t)
  {
    var g := Parents(b, QueryTime(b, t, target, source).time);
    hide Parents, Shares, Ends, QueryTime;
    assert Shallow(g, source) && Shallow(g, target);
    var n: nat :| n <= MAX_GRAPH_DEPTH && Ends(g, source, n);
    var m: nat :| m <= MAX_GRAPH_DEPTH && Ends(g, target, m);
    WalkDecides(g, Cached(b), target, source, n, m);
  }

  lemma SharesIfRelated(b: Buffer, target: FrameId, source: FrameId, t: Time)
    requires CanTransformInternal(b, target, source, t) && target != source
    ensures QueryTime(b, t, target, source).Ok? && Shares(Parents(b, QueryTime(b, t, target, source).time), source, target)
  {
    var g := Parents(b, QueryTime(b, t, target, source).time);
    hide Parents;
    WalkSound(g, Cached(b), target, source);
  }

  /** A cut that does not reparent relates no existing frames that were not related. */
  lemma CutRelatesNoMore(b: Buffer, b': Buffer, child: FrameId, target: FrameId, source: FrameId, t: Time)
    requires Valid(b) && LoopFree(b) && Cut(b, b', child) && !Reparents(b, child)
    requires CanTransformInternal(b', target, source, t)
    ensures CanTransformInternal(b, target, source, t)
  {
    if target != source {
      SharesIfRelated(b', target, source, t);
      WeakenedLatest(b, b');
      assert QueryTime(b', t, target, source) == QueryTime(b, t, target, source);
      var t' := QueryTime(b, t, target, source).time;
      CutKeepsTrees(b, b', child, t');
      hide Parents, Shares, QueryTime, CanTransformInternal, Cut;
      RewiredShares(Parents(b, t'), Parents(b', t'), child, source, target);
      RelatedIfShares(b, target, source, t);
    }
  }

  lemma CutKeepsTrees(b: Buffer, b': Buffer, child: FrameId, t: Time)
    requires Valid(b) && LoopFree(b) && Cut(b, b', child) && !Reparents(b, child)
    ensures AllShallow(Parents(b, t))
    ensures forall e: nat :: e != child ==> Up(Parents(b', t), e) == Up(Parents(b, t), e)
    ensures Up(Parents(b', t), child) != 0 ==> Shares(Parents(b, t), child, Up(Parents(b', t), child))
  {
    hide Parents, Shares, ParentFlips, ParentAt, Pruned, ValidList, Weakened, Valid, Shallow;
    var s := b.frames[child].storage;
    HistoryValid(b, child);
    CutParents(s, b.cacheTime, t);
    OtherParents(b, b', child, t);
    if Up(Parents(b, t), child) != 0 {
      SharesParent(Parents(b, t), child);
    }
  }

  /** A cut that reparents relates the child to its new parent. */
  lemma CutRelatesMore(b: Buffer, b': Buffer, child: FrameId)
    requires Valid(b) && Cut(b, b', child) && Reparents(b, child)
    ensures var d := Oldest(b, child);
            && NO_FRAME < d.frameId < |b.frames|
            && CanTransformInternal(b', d.frameId, child, d.stamp) && !CanTransformInternal(b, d.frameId, child, d.stamp)
  {
    hide Parents, ParentAt, Pruned, ValidList, Weakened, Valid, Shares;
    var s, d := b.frames[child].storage, Oldest(b, child);
    HistoryValid(b, child);
    CutParents(s, b.cacheTime, d.stamp);
    OtherParents(b, b', child, d.stamp);
    var g, g' := Parents(b, d.stamp), Parents(b', d.stamp);
    assert Up(g', child) == d.frameId;
    assert d.stamp != TIME_ZERO;
    SharesSelf(g, child);
    OneStepWalk(g', Cached(b'), child);
    assert !CanTransformInternal(b, d.frameId, child, d.stamp) by {
      if CanTransformInternal(b, d.frameId, child, d.stamp) {
        SharesIfRelated(b, d.frameId, child, d.stamp);
      }
    }
  }

  /** A frame is always related to its parent, even when there is a loop above. */
  lemma OneStepWalk(g: Graph, cached: set<nat>, f: nat)
    requires Up(g, f) != 0 && Up(g, f) != f
    ensures Walk(g, cached, Up(g, f), f).Connected?
  {
    var p := Up(g, f);
    assert Anc(g, f, 0) == f && Anc(g, f, 1) == p && Anc(g, p, 0) == p;
    assert ClimbSource(g, cached, p, f, 0) == ClimbSource(g, cached, p, f, 1);
  }

  /** A rejected setTransform makes nothing transformable, for any two frames and any time, exactly
      when the cut that it makes does not reparent the child. */
  lemma RejectionHarmless(b: Buffer, m: Message)
    requires Valid(b) && LoopFree(b) && Acceptable(m) && Unreserved(m) && !Store(b, m).accepted
    ensures var b' := Store(b, m).buffer;
            var child := Number(b, StripSlash(m.childFrameId));
            && Cut(b, b', child)
            && ((forall target: FrameId, source: FrameId, t: Time ::
                   target < |b.frames| && source < |b.frames| && CanTransformInternal(b', target, source, t)
                   ==> CanTransformInternal(b, target, source, t))
                <==> !Reparents(b, child))
  {
    var b', child := Store(b, m).buffer, Number(b, StripSlash(m.childFrameId));
    RejectionCuts(b, m);
    hide Store, CanTransformInternal, LoopFree, Number;
    if Reparents(b, child) {
      CutRelatesMore(b, b', child);
    } else {
      forall target: FrameId, source: FrameId, t: Time
        | target < |b.frames| && source < |b.frames| && CanTransformInternal(b', target, source, t)
        ensures CanTransformInternal(b, target, source, t)
      {
        CutRelatesNoMore(b, b', child, target, source, t);
      }
    }
  }

  // ----- rejections that do no harm -----

  ghost predicate Steady(b: Buffer) {
    forall child: FrameId :: HasHistory(b, child) ==> !Reparents(b, child)
  }

  ghost predicate WellBehaved(b: Buffer) {
    Valid(b) && LoopFree(b)
  }

  /** The same stamp is never recorded with two parents. */
  ghost predicate TiesAgree(b: Buffer) {
    forall f :: 0 <= f < |b.frames| && b.frames[f].Dynamic? ==> StampDecidesParent(b.frames[f].storage)
  }

  ghost predicate StampDecidesParent(s: Storage) {
    forall i, j :: 0 <= i < j < |s| && s[i].stamp == s[j].stamp ==> s[i].frameId == s[j].frameId
  }

  /** It is enough that no stamp is recorded with two parents. */
  lemma TiesAgreeIsSteady(b: Buffer)
    requires Valid(b) && TiesAgree(b)
    ensures Steady(b)
  {
    forall child: FrameId | HasHistory(b, child)
      ensures !Reparents(b, child)
    {
      var s := b.frames[child].storage;
      var k := |Pruned(s, b.cacheTime)|;
      assert ValidCache(b.frames[child], |b.frames|) && StampDecidesParent(s);
      CutParents(s, b.cacheTime, TIME_ZERO);
      if TieAtEnd(s, k) {
        var j := FirstNotAfter(s, s[k - 1].stamp);
        assert j <= k - 1;
        assert s[j].stamp == s[k - 1].stamp;
      }
    }
  }

  /** b' may be what a rejected setTransform has left of b, without reparenting. */
  ghost predicate Worn(b: Buffer, b': Buffer) {
    exists child: FrameId :: Cut(b, b', child) && !Reparents(b, child)
  }

  lemma RejectionWears(b: Buffer, m: Message)
    requires Valid(b) && Acceptable(m) && Unreserved(m) && !Store(b, m).accepted
    requires var child := Number(b, StripSlash(m.childFrameId)); HasHistory(b, child) ==> !Reparents(b, child)
    ensures var b' := Store(b, m).buffer; Valid(b') && Worn(b, b') && |b.frames| <= |b'.frames|
  {
    RejectionCuts(b, m);
    hide Store, Reparents, Weakened, Valid;
    WeakenedGrows(b, Store(b, m).buffer);
  }

  lemma WeakenedGrows(b: Buffer, b': Buffer)
    requires Weakened(b, b')
    ensures |b.frames| <= |b'.frames|
  {
  }

  /** It relates no two existing frames that were not related before, at any time. */
  lemma WornRelatesNoMore(b: Buffer, b': Buffer, target: FrameId, source: FrameId, t: Time)
    requires WellBehaved(b) && Worn(b, b')
    requires CanTransformInternal(b', target, source, t)
    ensures CanTransformInternal(b, target, source, t)
  {
    hide CanTransformInternal, Valid, LoopFree, Reparents;
    var child: FrameId :| Cut(b, b', child) && !Reparents(b, child);
    CutRelatesNoMore(b, b', child, target, source, t);
  }

  /** A name that has only just been registered is related to nothing else. */
  lemma NewNameUnrelated(b: Buffer, b': Buffer, target: FrameId, source: FrameId, t: Time)
    requires Valid(b) && Worn(b, b')
    requires target != source && (|b.frames| <= target || |b.frames| <= source)
    ensures !CanTransformInternal(b', target, source, t)
  {
    var child: FrameId :| Cut(b, b', child);
    if CanTransformInternal(b', target, source, t) {
      SharesIfRelated(b', target, source, t);
      var g := Parents(b', QueryTime(b', t, target, source).time);
      NoEdgeToNew(b, b', child, QueryTime(b', t, target, source).time);
      hide Parents, QueryTime, CanTransformInternal, Cut, Valid, Shares;
      if |b.frames| <= target {
        IsolatedUnrelated(g, target, source);
      } else {
        IsolatedUnrelated(g, source, target);
        SharesSymmetric(g, source, target);
      }
    }
  }

  lemma ParentsInRange(b: Buffer, t: Time)
    requires Valid(b)
    ensures forall f: FrameId :: Up(Parents(b, t), f) < |b.frames| && (|b.frames| <= f ==> Up(Parents(b, t), f) == 0)
  {
    forall f: FrameId
      ensures Up(Parents(b, t), f) < |b.frames| && (|b.frames| <= f ==> Up(Parents(b, t), f) == 0)
    {
      if f < |b.frames| {
        assert ValidCache(b.frames[f], |b.frames|);
      }
    }
  }

  lemma NoEdgeToNew(b: Buffer, b': Buffer, child: FrameId, t: Time)
    requires Valid(b) && Cut(b, b', child)
    ensures forall f: FrameId :: Up(Parents(b', t), f) < |b.frames|
    ensures forall f: FrameId :: |b.frames| <= f ==> Up(Parents(b', t), f) == 0
  {
    hide Parents, ParentAt, Pruned, ValidList, Weakened, Valid, ParentFlips, Up;
    HistoryValid(b, child);
    OtherParents(b, b', child, t);
    CutParents(b.frames[child].storage, b.cacheTime, t);
    ParentsInRange(b, t);
  }
}
