/** What a lookup by names returns: the transform of the tree path between the frames that have the names. */
module NamedLookups {
  import opened Rigid
  import opened TimeCaches
  import opened Forest
  import opened LatestCommonTimes
  import opened Buffers
  import opened Lookups

  predicate Misspelt(name: string) {
    name == "" || name[0] == '/'
  }

  /** The frame with the id has the name. */
  ghost predicate IsFrame(b: Buffer, name: string, id: FrameId) {
    NO_FRAME < id < |b.names| && b.names[id] == name && !Misspelt(name)
  }

  ghost predicate IsKnown(b: Buffer, name: string) {
    exists id: FrameId :: IsFrame(b, name, id)
  }

  /** The lookup is for time t', the time asked for or else the latest common one; no chain is too long or loops
      there, and the chains of the frames meet after i and j edges. */
  ghost predicate MeetsAt(b: Buffer, t: Time, target: FrameId, source: FrameId, t': Time, i: nat, j: nat) {
    && (if t == TIME_ZERO then LatestCommonTime(b, target, source) == Ok(t') else t' == t)
    && ShallowAt(b, t', source) && ShallowAt(b, t', target)
    && Meets(Parents(b, t'), source, target, i, j)
  }

  lemma FrameIsKnown(b: Buffer, name: string, id: FrameId)
    requires Valid(b) && IsFrame(b, name, id)
    ensures CheckName(b, name) == Known(id)
  {
  }

  lemma MeetingIsFound(b: Buffer, slerp: Slerp, target: FrameId, source: FrameId, t: Time, t': Time, i: nat, j: nat)
    requires Valid(b) && GoodSlerp(slerp) && target != source && target != NO_FRAME && source != NO_FRAME
    requires MeetsAt(b, t, target, source, t', i, j)
    ensures LookupById(b, slerp, target, source, t) == Found(Relative(b, t', slerp, target, source, i, j), t')
  {
    var g := Parents(b, t');
    assert QueryTime(b, t, target, source) == Ok(t');
    SameParents(b, t', slerp);
    var n: nat :| n <= MAX_GRAPH_DEPTH && Ends(g, source, n);
    var m: nat :| m <= MAX_GRAPH_DEPTH && Ends(g, target, m);
    hide Relative, Parents, DataParents, Path, Finalized, Anc, Meets, Walk, LatestCommonTime;
    WalkDecides(g, Cached(b), target, source, n, m);
    assert LookupById(b, slerp, target, source, t).Found?;
    LookupIsTreePath(b, slerp, target, source, t, i, j);
  }

  /** For two known names the lookup returns, at its time, the inverse of the target's path composed with the
      source's path, for every common ancestor. */
  lemma NamedLookup(b: Buffer, slerp: Slerp, target: string, source: string, t: Time, x: FrameId, y: FrameId, t': Time, i: nat, j: nat)
    requires Valid(b) && GoodSlerp(slerp) && target != source && IsFrame(b, target, x) && IsFrame(b, source, y)
    requires MeetsAt(b, t, x, y, t', i, j)
    ensures LookupTransform(b, slerp, target, source, t) == Found(Relative(b, t', slerp, x, y, i, j), t')
  {
    hide Relative, MeetsAt, LookupById, Valid, GoodSlerp;
    FrameIsKnown(b, target, x);
    FrameIsKnown(b, source, y);
    DifferentFrames(b, target, source, x, y);
    MeetingIsFound(b, slerp, x, y, t, t', i, j);
  }

  lemma DifferentFrames(b: Buffer, target: string, source: string, x: FrameId, y: FrameId)
    requires target != source && IsFrame(b, target, x) && IsFrame(b, source, y)
    ensures x != y && x != NO_FRAME && y != NO_FRAME
  {
  }

  /** A frame seen from itself is not moved, whether it is known or not. */
  lemma SameNameLookup(b: Buffer, slerp: Slerp, name: string, t: Time)
    ensures var r := LookupTransform(b, slerp, name, name, t);
            && r.Found? && (forall p :: Apply(r.transform, p) == p)
            && (t != TIME_ZERO ==> r.time == t)
            && (t == TIME_ZERO ==> forall id: FrameId :: Valid(b) && IsFrame(b, name, id) ==> r.time == CacheLatestTime(GetFrame(b, id)))
  {
    forall p
      ensures Apply(Id, p) == p
    {
      RotateOne(p);
    }
    forall id: FrameId | Valid(b) && IsFrame(b, name, id)
      ensures Number(b, name) == id
    {
      FrameIsKnown(b, name, id);
    }
  }

  /** A misspelt name is an invalid argument, and an unknown one a lookup error; the target is looked at first. */
  lemma LookupRefuses(b: Buffer, slerp: Slerp, target: string, source: string, t: Time)
    requires Valid(b) && target != source
    ensures var r, bad := LookupTransform(b, slerp, target, source, t), if IsKnown(b, target) then source else target;
            && (Misspelt(bad) ==> r == Thrown(InvalidArgumentException))
            && (!Misspelt(bad) && !IsKnown(b, bad) ==> r == Thrown(LookupException))
  {
    hide LookupById;
    UnknownName(b, target);
    UnknownName(b, source);
    if id: FrameId :| IsFrame(b, target, id) {
      FrameIsKnown(b, target, id);
    }
  }

  lemma UnknownName(b: Buffer, name: string)
    requires Valid(b)
    ensures Misspelt(name) ==> CheckName(b, name) == Rejected(InvalidArgumentException)
    ensures !Misspelt(name) && !IsKnown(b, name) ==> CheckName(b, name) == Rejected(LookupException)
  {
    if !Misspelt(name) && Number(b, name) != NO_FRAME {
      assert IsFrame(b, name, Number(b, name));
    }
  }

  /** A lookup error for known frames at a nonzero time means that a chain is too long or loops. */
  lemma LookupErrorMeansLoop(b: Buffer, slerp: Slerp, target: FrameId, source: FrameId, t: Time)
    requires Valid(b) && target != source && target != NO_FRAME && source != NO_FRAME && t != TIME_ZERO
    requires LookupById(b, slerp, target, source, t) in {Thrown(LookupException), Thrown(InvalidArgumentException)}
    ensures !ShallowAt(b, t, source) || !ShallowAt(b, t, target)
  {
    SameParents(b, t, slerp);
    var g := Parents(b, t);
    hide Parents, DataParents, Ends, Shares, Walk;
    if ShallowAt(b, t, source) && ShallowAt(b, t, target) {
      var n: nat :| n <= MAX_GRAPH_DEPTH && Ends(g, source, n);
      var m: nat :| m <= MAX_GRAPH_DEPTH && Ends(g, target, m);
      WalkDecides(g, Cached(b), target, source, n, m);
      WalkSound(g, Cached(b), target, source);
      NoOtherFailure(g, Cached(b), target, source);
    }
  }

  lemma NoOtherFailure(g: Graph, cached: set<nat>, target: nat, source: nat)
    ensures Walk(g, cached, target, source).Failed? ==>
              Walk(g, cached, target, source).error in {LookupError, ConnectivityError, ExtrapolationError}
  {
  }

  /** With a fixed frame: from the source to the fixed frame at the one time, then from there to the target at the other. */
  lemma NamedLookupFixed(b: Buffer, slerp: Slerp, target: string, targetTime: Time, source: string, sourceTime: Time, fixed: string,
                         x: FrameId, y: FrameId, z: FrameId, t1: Time, i1: nat, j1: nat, t2: Time, i2: nat, j2: nat)
    requires Valid(b) && GoodSlerp(slerp) && target != fixed && source != fixed
    requires IsFrame(b, target, x) && IsFrame(b, source, y) && IsFrame(b, fixed, z)
    requires MeetsAt(b, sourceTime, z, y, t1, i1, j1) && MeetsAt(b, targetTime, x, z, t2, i2, j2)
    ensures LookupFixed(b, slerp, target, targetTime, source, sourceTime, fixed) ==
            Found(Compose(Relative(b, t2, slerp, x, z, i2, j2), Relative(b, t1, slerp, z, y, i1, j1)), t2)
  {
    hide Relative, MeetsAt, LookupTransform, Valid, GoodSlerp, Compose, IsFrame, CheckName;
    FrameIsKnown(b, target, x);
    FrameIsKnown(b, source, y);
    FrameIsKnown(b, fixed, z);
    NamedLookup(b, slerp, fixed, source, sourceTime, z, y, t1, i1, j1);
    NamedLookup(b, slerp, target, fixed, targetTime, x, z, t2, i2, j2);
  }
}
