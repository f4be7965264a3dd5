/** The per-frame history of transforms: a list kept newest first, pruned by
    age, free of exact duplicates, and searched by time.

    The pure functions below say what the list means; the classes are the two
    implementations of tf2's cache interface and are proved against them. */
module TimeCaches {
  import opened Options
  import opened Rigid

  /** Nanoseconds since the epoch; zero asks for the latest data. */
  type Time = int

  type FrameId = nat

  const TIME_ZERO: Time := 0
  const NO_FRAME: FrameId := 0

  datatype TransformStorage = TransformStorage(
    rotation: Quaternion, translation: Vector3, stamp: Time, frameId: FrameId, childFrameId: FrameId)

  type Slerp = (Quaternion, Quaternion, real) -> Quaternion

  type Storage = seq<TransformStorage>

  // ----- the list invariant -----

  /** Newest first. */
  ghost predicate Sorted(s: Storage) {
    forall i, j :: 0 <= i < j < |s| ==> s[i].stamp >= s[j].stamp
  }

  ghost predicate NoDuplicates(s: Storage) {
    forall i, j :: 0 <= i < j < |s| ==> s[i] != s[j]
  }

  ghost predicate ValidList(s: Storage) {
    Sorted(s) && NoDuplicates(s)
  }

  ghost predicate DistinctStamps(s: Storage) {
    forall i, j :: 0 <= i < j < |s| ==> s[i].stamp != s[j].stamp
  }

  function LatestStamp(s: Storage): Time {
    if s == [] then TIME_ZERO else s[0].stamp
  }

  // ----- pruning -----

  /** The entries that are not older than bound, in their order. */
  function NotOlder(s: Storage, bound: Time): Storage {
    if s == [] then []
    else if s[0].stamp >= bound then [s[0]] + NotOlder(s[1..], bound)
    else NotOlder(s[1..], bound)
  }

  function Pruned(s: Storage, maxAge: nat): Storage {
    NotOlder(s, LatestStamp(s) - maxAge)
  }

  lemma {:induction false} NotOlderIsPrefix(s: Storage, bound: Time, k: nat)
    requires k <= |s|
    requires forall i :: 0 <= i < k ==> s[i].stamp >= bound
    requires forall i :: k <= i < |s| ==> s[i].stamp < bound
    ensures NotOlder(s, bound) == s[..k]
  {
    if s != [] {
      if k == 0 {
        NotOlderIsPrefix(s[1..], bound, 0);
      } else {
        NotOlderIsPrefix(s[1..], bound, k - 1);
        assert s[..k] == [s[0]] + s[1..][..k - 1];
      }
    }
  }

  /** On a sorted list the retained entries are a prefix, and it is the only one that splits by age. */
  lemma {:induction false} NotOlderSplits(s: Storage, bound: Time) returns (k: nat)
    requires Sorted(s)
    ensures k <= |s| && NotOlder(s, bound) == s[..k]
    ensures forall i :: 0 <= i < k ==> s[i].stamp >= bound
    ensures forall i :: k <= i < |s| ==> s[i].stamp < bound
  {
    k := 0;
    while k < |s| && s[k].stamp >= bound
      invariant k <= |s|
      invariant forall i :: 0 <= i < k ==> s[i].stamp >= bound
    {
      k := k + 1;
    }
    NotOlderIsPrefix(s, bound, k);
  }

  /** The newest entry always survives. */
  lemma PrunedNonempty(s: Storage, maxAge: nat)
    ensures s != [] <==> Pruned(s, maxAge) != []
  {
  }

  // ----- insertion -----

  /** Index of the newest entry that is not newer than t; |s| when all are newer. */
  function FirstNotAfter(s: Storage, t: Time): (k: nat)
    ensures k <= |s|
    ensures forall i :: 0 <= i < k ==> s[i].stamp > t
    ensures k < |s| ==> s[k].stamp <= t
  {
    if s == [] || s[0].stamp <= t then 0
    else
      var k := FirstNotAfter(s[1..], t);
      assert forall i :: 1 <= i < k + 1 ==> s[i] == s[1..][i - 1];
      k + 1
  }

  function Place(s: Storage, d: TransformStorage): Storage {
    if d in s then s
    else
      var k := FirstNotAfter(s, d.stamp);
      s[..k] + [d] + s[k..]
  }

  predicate TooOld(s: Storage, maxAge: nat, d: TransformStorage) {
    s != [] && d.stamp < LatestStamp(s) - maxAge
  }

  function Inserted(s: Storage, maxAge: nat, d: TransformStorage): Storage {
    if TooOld(s, maxAge, d) then Pruned(s, maxAge) else Place(Pruned(s, maxAge), d)
  }

  ghost function Entries(s: Storage): set<TransformStorage> {
    set e | e in s
  }

  /** Entry i of s[..k] + [d] + s[k..] */
  lemma SplicedAt(s: Storage, k: nat, d: TransformStorage, i: nat)
    requires k <= |s| && i <= |s|
    ensures (s[..k] + [d] + s[k..])[i] == if i < k then s[i] else if i == k then d else s[i - 1]
  {
  }

  lemma PlaceEntries(s: Storage, d: TransformStorage)
    ensures Entries(Place(s, d)) == Entries(s) + {d}
  {
    if d !in s {
      var k := FirstNotAfter(s, d.stamp);
      assert s == s[..k] + s[k..];
    } else {
      assert d in Entries(s);
    }
  }

  lemma PlaceKeepsValid(s: Storage, d: TransformStorage)
    requires ValidList(s)
    ensures ValidList(Place(s, d))
    ensures Entries(Place(s, d)) == Entries(s) + {d}
  {
    PlaceEntries(s, d);
    if d !in s {
      var k := FirstNotAfter(s, d.stamp);
      var r := s[..k] + [d] + s[k..];
      forall i, j | 0 <= i < j < |r|
        ensures r[i].stamp >= r[j].stamp && r[i] != r[j]
      {
        SplicedAt(s, k, d, i);
        SplicedAt(s, k, d, j);
      }
    }
  }

  /** insertData refines a set: what is kept is exactly what is young enough, plus the accepted datum. */
  lemma InsertRefinesSet(s: Storage, maxAge: nat, d: TransformStorage)
    requires ValidList(s)
    ensures ValidList(Inserted(s, maxAge, d))
    ensures Entries(Inserted(s, maxAge, d)) ==
            (set e | e in s && e.stamp >= LatestStamp(s) - maxAge) +
            (if TooOld(s, maxAge, d) then {} else {d})
    ensures s != [] ==> Inserted(s, maxAge, d) != []
  {
    PrunedEntries(s, LatestStamp(s) - maxAge);
    PrunedNonempty(s, maxAge);
    PlaceKeepsValid(Pruned(s, maxAge), d);
  }

  /** No entry is newer than the datum by more than the storage time. */
  ghost predicate YoungEnough(s: Storage, maxAge: nat, d: TransformStorage) {
    forall e :: e in s ==> e.stamp - maxAge <= d.stamp
  }

  /** What is in the list after an insertion, said of each entry alone */
  lemma InsertedEntries(s: Storage, maxAge: nat, d: TransformStorage, e: TransformStorage)
    requires ValidList(s)
    ensures !TooOld(s, maxAge, d) <==> YoungEnough(s, maxAge, d)
    ensures e in Inserted(s, maxAge, d) <==> (e in s && YoungEnough(s, maxAge, e)) || (e == d && YoungEnough(s, maxAge, d))
  {
    NewestFirst(s);
    InsertRefinesSet(s, maxAge, d);
    assert e in Inserted(s, maxAge, d) <==> e in Entries(Inserted(s, maxAge, d));
    if s != [] {
      assert s[0] in s;
    }
    hide ValidList, Inserted;
  }

  lemma NewestFirst(s: Storage)
    requires ValidList(s)
    ensures forall e :: e in s ==> e.stamp <= LatestStamp(s)
    ensures s != [] ==> LatestStamp(s) == s[0].stamp && s[0] in s
  {
  }

  lemma SortedBefore(s: Storage, k: nat)
    requires ValidList(s) && k <= |s|
    ensures forall i :: 0 <= i < k ==> s[i].stamp >= s[k - 1].stamp
  {
  }

  lemma PrefixValid(s: Storage, k: nat)
    requires ValidList(s) && k <= |s|
    ensures ValidList(s[..k])
  {
  }

  lemma PrunedEntries(s: Storage, bound: Time)
    requires ValidList(s)
    ensures ValidList(NotOlder(s, bound))
    ensures Entries(NotOlder(s, bound)) == set e | e in s && e.stamp >= bound
  {
    var k := NotOlderSplits(s, bound);
    PrefixValid(s, k);
    forall e
      ensures e in s[..k] <==> e in s && e.stamp >= bound
    {
      if e in s && e.stamp >= bound {
        var i :| 0 <= i < |s| && s[i] == e;
        assert s[..k][i] == e;
      }
    }
  }

  // ----- arrival order does not matter -----

  /** The list after a run of insertions into an empty cache. */
  function InsertedAll(s: Storage, maxAge: nat, ds: seq<TransformStorage>): Storage
    decreases |ds|
  {
    if ds == [] then s
    else InsertedAll(Inserted(s, maxAge, ds[0]), maxAge, ds[1..])
  }

  ghost predicate WithinSpan(ds: set<TransformStorage>, maxAge: nat) {
    forall d, e :: d in ds && e in ds ==> d.stamp - e.stamp <= maxAge
  }

  ghost predicate StampsIdentify(ds: set<TransformStorage>) {
    forall d, e :: d in ds && e in ds && d.stamp == e.stamp ==> d == e
  }

  lemma InsertedWithinSpan(s: Storage, maxAge: nat, d: TransformStorage)
    requires ValidList(s)
    requires WithinSpan(Entries(s) + {d}, maxAge)
    ensures ValidList(Inserted(s, maxAge, d))
    ensures Entries(Inserted(s, maxAge, d)) == Entries(s) + {d}
  {
    InsertRefinesSet(s, maxAge, d);
    if s != [] {
      assert s[0] in Entries(s);
      assert forall e :: e in s ==> e in Entries(s) + {d};
    }
  }

  lemma SpanOfSubset(ds: set<TransformStorage>, es: set<TransformStorage>, maxAge: nat)
    requires ds <= es && WithinSpan(es, maxAge)
    ensures WithinSpan(ds, maxAge)
  {
  }

  lemma HeadEntries(ds: seq<TransformStorage>)
    requires ds != []
    ensures Entries(ds) == {ds[0]} + Entries(ds[1..])
  {
    assert ds == [ds[0]] + ds[1..];
  }

  lemma InsertedAllStep(s: Storage, maxAge: nat, ds: seq<TransformStorage>)
    requires ds != []
    ensures InsertedAll(s, maxAge, ds) == InsertedAll(Inserted(s, maxAge, ds[0]), maxAge, ds[1..])
  {
  }

  lemma {:induction false} InsertedAllWithinSpan(s: Storage, maxAge: nat, ds: seq<TransformStorage>)
    requires ValidList(s)
    requires WithinSpan(Entries(s) + Entries(ds), maxAge)
    ensures ValidList(InsertedAll(s, maxAge, ds))
    ensures Entries(InsertedAll(s, maxAge, ds)) == Entries(s) + Entries(ds)
    decreases |ds|
  {
    if ds == [] {
      assert Entries(s) + Entries(ds) == Entries(s);
    } else {
      var s' := Inserted(s, maxAge, ds[0]);
      HeadEntries(ds);
      SpanOfSubset(Entries(s) + {ds[0]}, Entries(s) + Entries(ds), maxAge);
      InsertedWithinSpan(s, maxAge, ds[0]);
      assert Entries(s') + Entries(ds[1..]) == Entries(s) + Entries(ds);
      hide *;
      InsertedAllWithinSpan(s', maxAge, ds[1..]);
      InsertedAllStep(s, maxAge, ds);
    }
  }

  /** A sorted list without duplicates is determined by its entries when stamps identify them. */
  lemma {:induction false} SortedListUnique(s: Storage, r: Storage)
    requires ValidList(s) && ValidList(r)
    requires Entries(s) == Entries(r)
    requires StampsIdentify(Entries(s))
    ensures s == r
    decreases |s|
  {
    if s == [] {
      NonemptyEntries(r);
    } else {
      assert s[0] in Entries(s);
      assert r != [];
      assert r[0] in Entries(r);
      assert s[0] in r && r[0] in s;
      assert s[0].stamp == r[0].stamp;
      assert s[0] == r[0];
      TailEntries(s);
      TailEntries(r);
      SortedListUnique(s[1..], r[1..]);
      assert s == [s[0]] + s[1..] && r == [r[0]] + r[1..];
    }
  }

  lemma NonemptyEntries(s: Storage)
    ensures s != [] ==> Entries(s) != {}
  {
    if s != [] {
      assert s[0] in Entries(s);
    }
  }

  lemma TailEntries(s: Storage)
    requires s != [] && NoDuplicates(s)
    ensures Entries(s[1..]) == Entries(s) - {s[0]}
  {
    forall e
      ensures e in s[1..] <==> e in s && e != s[0]
    {
      if e in s && e != s[0] {
        var i :| 0 <= i < |s| && s[i] == e;
        assert s[1..][i - 1] == e;
      }
    }
  }

  /** Any two arrival orders of the same data, with distinct stamps and within the
      storage span, leave the same list. */
  lemma ArrivalOrderIrrelevant(maxAge: nat, ds: seq<TransformStorage>, es: seq<TransformStorage>)
    requires multiset(ds) == multiset(es)
    requires WithinSpan(Entries(ds), maxAge) && StampsIdentify(Entries(ds))
    ensures InsertedAll([], maxAge, ds) == InsertedAll([], maxAge, es)
  {
    assert Entries(ds) == Entries(es) by {
      forall e
        ensures e in ds <==> e in es
      {
        assert e in multiset(ds) <==> e in multiset(es);
      }
    }
    assert Entries([]) + Entries(ds) == Entries(ds);
    assert Entries([]) + Entries(es) == Entries(ds);
    InsertedAllWithinSpan([], maxAge, ds);
    InsertedAllWithinSpan([], maxAge, es);
    SortedListUnique(InsertedAll([], maxAge, ds), InsertedAll([], maxAge, es));
  }

  // ----- searching by time -----

  datatype Closest = Nothing | Exact(at: nat) | Between(older: nat, newer: nat)

  /** The entry or the two neighbours that answer for time t.  The result never
      leaves the list and, between two entries, older <= t < newer. */
  function FindClosest(s: Storage, t: Time): (c: Closest)
    ensures c.Exact? ==> c.at < |s| && (t == TIME_ZERO || s[c.at].stamp == t)
    ensures c.Between? ==>
              && c.newer + 1 == c.older < |s|
              && s[c.older].stamp <= t < s[c.newer].stamp
              && forall i :: 0 <= i < c.older ==> s[i].stamp > t
  {
    if s == [] then Nothing
    else if t == TIME_ZERO then Exact(0)
    else if |s| == 1 then
      if s[0].stamp == t then Exact(0) else Nothing
    else if t == s[0].stamp then Exact(0)
    else if t == s[|s| - 1].stamp then Exact(|s| - 1)
    else if t > s[0].stamp || t < s[|s| - 1].stamp then Nothing
    else
      var k := FirstNotAfter(s, t);
      Between(k, k - 1)
  }

  function Ratio(older: TransformStorage, newer: TransformStorage, t: Time): real
    requires older.stamp != newer.stamp
  {
    (t - older.stamp) as real / (newer.stamp - older.stamp) as real
  }

  function Lerp(a: Vector3, b: Vector3, r: real): Vector3 {
    var s := 1.0 - r;
    Vector3(s * a.x + r * b.x, s * a.y + r * b.y, s * a.z + r * b.z)
  }

  function Interpolated(older: TransformStorage, newer: TransformStorage, t: Time, slerp: Slerp): TransformStorage {
    if newer.stamp == older.stamp then newer
    else
      var r := Ratio(older, newer, t);
      TransformStorage(slerp(older.rotation, newer.rotation, r), Lerp(older.translation, newer.translation, r),
                       older.stamp, older.frameId, older.childFrameId)
  }

  function DataAt(s: Storage, t: Time, slerp: Slerp): Option<TransformStorage> {
    match FindClosest(s, t)
    case Nothing => None
    case Exact(i) => Some(s[i])
    case Between(o, n) =>
      if s[o].frameId == s[n].frameId then Some(Interpolated(s[o], s[n], t, slerp)) else Some(s[o])
  }

  function ParentAt(s: Storage, t: Time): FrameId {
    match FindClosest(s, t)
    case Nothing => NO_FRAME
    case Exact(i) => s[i].frameId
    case Between(o, _) => s[o].frameId
  }

  /** What slerp has to do: keep rotations rotations, and return its first argument at ratio zero. */
  ghost predicate GoodSlerp(slerp: Slerp) {
    && (forall a, b, r :: Unit(a) && Unit(b) && 0.0 <= r < 1.0 ==> Unit(slerp(a, b, r)))
    && (forall a, b :: slerp(a, b, 0.0) == a)
  }

  /** Data is there exactly for the times inside the recorded span (and for "latest"). */
  lemma DataAvailability(s: Storage, t: Time, slerp: Slerp)
    requires Sorted(s)
    ensures DataAt(s, t, slerp).Some? <==>
            s != [] && (t == TIME_ZERO || s[|s| - 1].stamp <= t <= s[0].stamp)
    ensures DataAt(s, t, slerp).Some? ==> DataAt(s, t, slerp).value.frameId == ParentAt(s, t)
    ensures DataAt(s, t, slerp).None? ==> ParentAt(s, t) == NO_FRAME
  {
  }

  lemma RatioBounds(a: int, b: int)
    requires 0 <= a < b
    ensures 0.0 <= a as real / b as real < 1.0
  {
    var x, y := a as real, b as real;
    assert x / y < y / y;
  }

  /** The interpolation ratio is in [0, 1), and getData never interpolates between equal stamps. */
  lemma InterpolationInRange(s: Storage, t: Time)
    ensures var c := FindClosest(s, t);
            c.Between? ==>
              && s[c.older].stamp != s[c.newer].stamp
              && 0.0 <= Ratio(s[c.older], s[c.newer], t) < 1.0
  {
    var c := FindClosest(s, t);
    if c.Between? {
      RatioBounds(t - s[c.older].stamp, s[c.newer].stamp - s[c.older].stamp);
    }
  }

  /** Answers are rotations when the recorded data are. */
  lemma DataAtUnit(s: Storage, t: Time, slerp: Slerp)
    requires GoodSlerp(slerp)
    requires forall i :: 0 <= i < |s| ==> Unit(s[i].rotation)
    ensures DataAt(s, t, slerp).Some? ==> Unit(DataAt(s, t, slerp).value.rotation)
  {
    InterpolationInRange(s, t);
  }

  /** Interpolating at the older entry's own stamp returns that entry. */
  lemma InterpolatedAtOlder(older: TransformStorage, newer: TransformStorage, slerp: Slerp)
    requires GoodSlerp(slerp) && older.stamp != newer.stamp
    ensures Interpolated(older, newer, older.stamp, slerp) == older
  {
    var d := (newer.stamp - older.stamp) as real;
    assert 0.0 / d == 0.0;
    assert Lerp(older.translation, newer.translation, 0.0) == older.translation;
  }

  /** A stamp that is recorded once answers with the datum recorded at it. */
  lemma RecordedOnceAnswers(s: Storage, i: nat, slerp: Slerp)
    requires Sorted(s) && GoodSlerp(slerp) && i < |s| && s[i].stamp != TIME_ZERO
    requires forall j :: 0 <= j < |s| && s[j].stamp == s[i].stamp ==> j == i
    ensures DataAt(s, s[i].stamp, slerp) == Some(s[i])
  {
    var t := s[i].stamp;
    var c := FindClosest(s, t);
    DataAvailability(s, t, slerp);
    match c
    case Exact(k) => assert s[k].stamp == t;
    case Between(o, n) =>
      assert o <= i;
      assert s[o].stamp >= s[i].stamp;
      assert o == i;
      InterpolatedAtOlder(s[o], s[n], slerp);
    case Nothing =>
  }

  /** With distinct stamps that is every recorded stamp. */
  lemma RecordedStampAnswers(s: Storage, i: nat, slerp: Slerp)
    requires Sorted(s) && DistinctStamps(s) && GoodSlerp(slerp)
    requires i < |s| && s[i].stamp != TIME_ZERO
    ensures DataAt(s, s[i].stamp, slerp) == Some(s[i])
  {
    RecordedOnceAnswers(s, i, slerp);
  }

  /** Time zero asks for the newest entry. */
  lemma ZeroAsksForNewest(s: Storage, slerp: Slerp)
    requires Sorted(s) && s != []
    ensures DataAt(s, TIME_ZERO, slerp).Some? && DataAt(s, TIME_ZERO, slerp).value in s
    ensures forall e :: e in s ==> e.stamp <= DataAt(s, TIME_ZERO, slerp).value.stamp
  {
  }

  lemma Weighted(a: real, b: real, span: real, gone: real, r: real)
    requires r * span == gone
    ensures span * ((1.0 - r) * a + r * b) == (span - gone) * a + gone * b
  {
    assert span * ((1.0 - r) * a) == (span - r * span) * a;
    assert span * (r * b) == (r * span) * b;
  }

  lemma RatioTimesSpan(older: TransformStorage, newer: TransformStorage, t: Time)
    requires older.stamp != newer.stamp
    ensures Ratio(older, newer, t) * (newer.stamp - older.stamp) as real == (t - older.stamp) as real
  {
    var d := (newer.stamp - older.stamp) as real;
    var n := (t - older.stamp) as real;
    assert n / d * d == n;
  }

  lemma SameRatio(r: real, r': real, span: real)
    requires span > 0.0 && r * span == r' * span
    ensures r == r'
  {
    assert (r - r') * span == 0.0;
  }

  /** Neighbours in the list around a time, where the list is not at its end */
  ghost predicate Around(s: Storage, k: nat, t: Time) {
    0 < k < |s| && s[k].stamp <= t < s[k - 1].stamp && t != TIME_ZERO && (k == |s| - 1 || s[|s| - 1].stamp < t)
  }

  /** The value is as far between the two as the time is between the stamps. */
  ghost predicate Linear(o: TransformStorage, n: TransformStorage, t: Time, a: real, b: real, x: real) {
    (n.stamp - o.stamp) as real * x == (n.stamp - t) as real * a + (t - o.stamp) as real * b
  }

  /** Between two stamps under one parent each coordinate runs linearly in time from one entry to the other, and
      slerp is given the two rotations and the part of the time that is gone. */
  lemma InterpolationIsLinear(s: Storage, k: nat, t: Time, slerp: Slerp, r: real)
    requires Sorted(s) && GoodSlerp(slerp) && Around(s, k, t) && s[k].frameId == s[k - 1].frameId
    requires r * (s[k - 1].stamp - s[k].stamp) as real == (t - s[k].stamp) as real
    ensures var o, n := s[k], s[k - 1];
            DataAt(s, t, slerp).Some? && var d := DataAt(s, t, slerp).value;
            && Linear(o, n, t, o.translation.x, n.translation.x, d.translation.x)
            && Linear(o, n, t, o.translation.y, n.translation.y, d.translation.y)
            && Linear(o, n, t, o.translation.z, n.translation.z, d.translation.z)
            && d.rotation == slerp(o.rotation, n.rotation, r)
            && d.frameId == o.frameId
  {
    hide Interpolated, DataAt, Linear, GoodSlerp;
    AroundData(s, k, t, slerp);
    InterpolatedLinear(s[k], s[k - 1], t, slerp, r);
  }

  lemma AroundClosest(s: Storage, k: nat, t: Time)
    requires Sorted(s) && Around(s, k, t)
    ensures FindClosest(s, t) == Between(k, k - 1) || (FindClosest(s, t) == Exact(k) && s[k].stamp == t)
  {
    FirstNotAfterUnique(s, t, k);
  }

  lemma AroundData(s: Storage, k: nat, t: Time, slerp: Slerp)
    requires Sorted(s) && GoodSlerp(slerp) && Around(s, k, t) && s[k].frameId == s[k - 1].frameId
    ensures DataAt(s, t, slerp) == Some(Interpolated(s[k], s[k - 1], t, slerp))
  {
    AroundClosest(s, k, t);
    if s[k].stamp == t {
      InterpolatedAtOlder(s[k], s[k - 1], slerp);
    }
    hide FindClosest, Interpolated;
  }

  lemma InterpolatedLinear(o: TransformStorage, n: TransformStorage, t: Time, slerp: Slerp, r: real)
    requires o.stamp < n.stamp && r * (n.stamp - o.stamp) as real == (t - o.stamp) as real
    ensures var d := Interpolated(o, n, t, slerp);
            && Linear(o, n, t, o.translation.x, n.translation.x, d.translation.x)
            && Linear(o, n, t, o.translation.y, n.translation.y, d.translation.y)
            && Linear(o, n, t, o.translation.z, n.translation.z, d.translation.z)
            && d.rotation == slerp(o.rotation, n.rotation, r)
            && d.frameId == o.frameId
  {
    var span, gone := (n.stamp - o.stamp) as real, (t - o.stamp) as real;
    RatioTimesSpan(o, n, t);
    SameRatio(r, Ratio(o, n, t), span);
    hide Ratio;
    assert (n.stamp - t) as real == span - gone;
    Weighted(o.translation.x, n.translation.x, span, gone, r);
    Weighted(o.translation.y, n.translation.y, span, gone, r);
    Weighted(o.translation.z, n.translation.z, span, gone, r);
  }

  /** Between two stamps with different parents the older entry is the answer. */
  lemma OlderAnswersAcrossParents(s: Storage, k: nat, t: Time, slerp: Slerp)
    requires Sorted(s) && Around(s, k, t) && s[k].frameId != s[k - 1].frameId
    ensures DataAt(s, t, slerp) == Some(s[k])
  {
    AroundClosest(s, k, t);
    hide FindClosest;
  }

  // ----- pruning and answers -----

  /** The one situation in which cutting s to its first k entries changes an answer:
      something is dropped, and the oldest retained stamp, which then becomes the end of
      the list, is shared by several entries while it is not the newest stamp. */
  ghost predicate TieAtEnd(s: Storage, k: nat) {
    && 2 <= k < |s|
    && s[k - 1].stamp != s[0].stamp && s[k - 2].stamp == s[k - 1].stamp
    && s[k - 1].stamp != TIME_ZERO
  }

  lemma PruneKeepsClosest(s: Storage, k: nat, t: Time)
    requires ValidList(s) && 1 <= k <= |s|
    requires t == TIME_ZERO || t > s[k - 1].stamp
    ensures FindClosest(s[..k], t) == FindClosest(s, t)
  {
    hide NoDuplicates;
    if t != TIME_ZERO && t < s[0].stamp && k >= 2 {
      FirstNotAfterUnique(s, t, FirstNotAfter(s[..k], t));
    }
  }

  lemma SameClosest(s: Storage, k: nat, t: Time, slerp: Slerp)
    requires k <= |s| && FindClosest(s[..k], t) == FindClosest(s, t)
    ensures DataAt(s[..k], t, slerp) == DataAt(s, t, slerp)
  {
    hide FindClosest, Interpolated;
  }

  lemma PruneKeepsAnswersAbove(s: Storage, k: nat, t: Time)
    requires ValidList(s) && 1 <= k <= |s|
    requires t == TIME_ZERO || t > s[k - 1].stamp
    ensures FindClosest(s[..k], t) == FindClosest(s, t)
    ensures forall slerp :: DataAt(s[..k], t, slerp) == DataAt(s, t, slerp)
  {
    hide *;
    PruneKeepsClosest(s, k, t);
    forall slerp
      ensures DataAt(s[..k], t, slerp) == DataAt(s, t, slerp)
    {
      SameClosest(s, k, t, slerp);
    }
  }

  lemma {:induction false} FirstNotAfterUnique(s: Storage, t: Time, k: nat)
    requires k <= |s|
    requires forall i :: 0 <= i < k ==> s[i].stamp > t
    requires k < |s| ==> s[k].stamp <= t
    ensures FirstNotAfter(s, t) == k
  {
    var f := FirstNotAfter(s, t);
    assert !(f < k) && !(k < f);
  }

  /** Where the oldest retained stamp is found before the cut, when something is cut off and it is not the newest */
  lemma OldestInside(s: Storage, k: nat) returns (j: nat)
    requires ValidList(s) && 1 <= k < |s| && s[k].stamp < s[k - 1].stamp
    requires s[k - 1].stamp != TIME_ZERO && s[k - 1].stamp != s[0].stamp
    ensures 1 <= j <= k - 1 && s[j].stamp == s[k - 1].stamp && j == FirstNotAfter(s, s[k - 1].stamp)
    ensures FindClosest(s, s[k - 1].stamp) == Between(j, j - 1) && s[j - 1].stamp != s[j].stamp
    ensures TieAtEnd(s, k) <==> j < k - 1
  {
    hide NoDuplicates;
    j := FirstNotAfter(s, s[k - 1].stamp);
    assert s[j].stamp == s[k - 1].stamp && 1 <= j <= k - 1;
  }

  lemma OldestAtEnd(s: Storage, k: nat)
    requires ValidList(s) && 1 <= k <= |s| && s[k - 1].stamp != TIME_ZERO
    ensures FindClosest(s[..k], s[k - 1].stamp) == Exact(if s[k - 1].stamp == s[0].stamp then 0 else k - 1)
  {
    hide NoDuplicates;
  }

  lemma ExactData(s: Storage, t: Time, slerp: Slerp, i: nat)
    requires FindClosest(s, t) == Exact(i) && i < |s|
    ensures DataAt(s, t, slerp) == Some(s[i])
  {
    hide FindClosest;
  }

  lemma OlderData(s: Storage, slerp: Slerp, j: nat)
    requires GoodSlerp(slerp) && 1 <= j < |s| && s[j - 1].stamp != s[j].stamp
    requires FindClosest(s, s[j].stamp) == Between(j, j - 1)
    ensures DataAt(s, s[j].stamp, slerp) == Some(s[j])
  {
    InterpolatedAtOlder(s[j], s[j - 1], slerp);
    hide FindClosest, Interpolated;
  }

  lemma Distinct(s: Storage, i: nat, j: nat)
    requires ValidList(s) && i < j < |s|
    ensures s[i] != s[j]
  {
  }

  /** Answers at the oldest retained stamp survive pruning exactly when there is no tie there. */
  lemma PruneAtOldest(s: Storage, k: nat, slerp: Slerp)
    requires ValidList(s) && 1 <= k <= |s| && GoodSlerp(slerp)
    requires k < |s| ==> s[k].stamp < s[k - 1].stamp
    requires s[k - 1].stamp != TIME_ZERO
    ensures DataAt(s[..k], s[k - 1].stamp, slerp) == DataAt(s, s[k - 1].stamp, slerp) <==> !TieAtEnd(s, k)
  {
    hide DataAt, FindClosest, ValidList, GoodSlerp;
    var t := s[k - 1].stamp;
    OldestAtEnd(s, k);
    if k == |s| {
      assert s[..k] == s;
    } else if t == s[0].stamp {
      ExactData(s[..k], t, slerp, 0);
      NewestData(s, slerp);
    } else {
      var j := OldestInside(s, k);
      ExactData(s[..k], t, slerp, k - 1);
      OlderData(s, slerp, j);
      if j < k - 1 {
        Distinct(s, j, k - 1);
      }
    }
  }

  lemma NewestData(s: Storage, slerp: Slerp)
    requires s != []
    ensures DataAt(s, s[0].stamp, slerp) == Some(s[0])
  {
  }

  /** Pruning changes no answer at or after the oldest retained stamp, exactly when that stamp is not tied. */
  lemma PruneKeepsAnswers(s: Storage, maxAge: nat, slerp: Slerp)
    requires ValidList(s) && s != [] && GoodSlerp(slerp)
    ensures var p := Pruned(s, maxAge);
            && 1 <= |p| <= |s| && p == s[..|p|]
            && ((forall t :: t == TIME_ZERO || t >= p[|p| - 1].stamp ==> DataAt(p, t, slerp) == DataAt(s, t, slerp))
                <==> !TieAtEnd(s, |p|))
  {
    var k := NotOlderSplits(s, LatestStamp(s) - maxAge);
    PrunedNonempty(s, maxAge);
    CutKeepsAnswers(s, k, slerp);
  }

  lemma NoTieAtZero(s: Storage, k: nat)
    requires 1 <= k <= |s| && s[k - 1].stamp == TIME_ZERO
    ensures !TieAtEnd(s, k)
  {
  }

  lemma CutKeepsAnswers(s: Storage, k: nat, slerp: Slerp)
    requires ValidList(s) && 1 <= k <= |s| && GoodSlerp(slerp)
    requires k < |s| ==> s[k].stamp < s[k - 1].stamp
    ensures (forall t :: t == TIME_ZERO || t >= s[k - 1].stamp ==> DataAt(s[..k], t, slerp) == DataAt(s, t, slerp))
            <==> !TieAtEnd(s, k)
  {
    hide *;
    var p, o := s[..k], s[k - 1].stamp;
    if o == TIME_ZERO {
      NoTieAtZero(s, k);
    }
    forall t | t == TIME_ZERO || t > o
      ensures DataAt(p, t, slerp) == DataAt(s, t, slerp)
    {
      PruneKeepsAnswersAbove(s, k, t);
    }
    if o != TIME_ZERO {
      PruneAtOldest(s, k, slerp);
    }
  }

  /** Cutting the list makes it answer with another parent than before. */
  ghost predicate ParentFlips(s: Storage, k: nat) {
    && TieAtEnd(s, k) && s[k - 1].frameId != NO_FRAME
    && s[FirstNotAfter(s, s[k - 1].stamp)].frameId != s[k - 1].frameId
  }

  /** Pruning only ever takes parents away, exactly when the oldest retained stamp is not tied
      between two parents. */
  lemma PruneKeepsParents(s: Storage, maxAge: nat)
    requires ValidList(s)
    ensures (forall t :: ParentAt(Pruned(s, maxAge), t) in {NO_FRAME, ParentAt(s, t)})
            <==> !ParentFlips(s, |Pruned(s, maxAge)|)
  {
    if s != [] {
      var k := NotOlderSplits(s, LatestStamp(s) - maxAge);
      PrunedNonempty(s, maxAge);
      CutKeepsParents(s, k);
    }
  }

  lemma CutKeepsParents(s: Storage, k: nat)
    requires ValidList(s) && 1 <= k <= |s|
    requires k < |s| ==> s[k].stamp < s[k - 1].stamp
    ensures (forall t :: ParentAt(s[..k], t) in {NO_FRAME, ParentAt(s, t)}) <==> !ParentFlips(s, k)
  {
    var o := s[k - 1].stamp;
    forall t | t == TIME_ZERO || t != o
      ensures ParentAt(s[..k], t) in {NO_FRAME, ParentAt(s, t)}
    {
      if t == TIME_ZERO || t > o {
        PruneKeepsAnswersAbove(s, k, t);
      }
    }
    CutParentAtOldest(s, k);
    assert o == TIME_ZERO ==> !ParentFlips(s, k);
    hide *;
  }

  lemma CutParentAtOldest(s: Storage, k: nat)
    requires ValidList(s) && 1 <= k <= |s|
    requires k < |s| ==> s[k].stamp < s[k - 1].stamp
    ensures s[k - 1].stamp != TIME_ZERO ==>
              (ParentAt(s[..k], s[k - 1].stamp) in {NO_FRAME, ParentAt(s, s[k - 1].stamp)} <==> !ParentFlips(s, k))
  {
    var t := s[k - 1].stamp;
    if k < |s| && t != s[0].stamp && t != TIME_ZERO {
      var j := FirstNotAfter(s, t);
      assert s[j].stamp == t && 1 <= j <= k - 1;
      assert FindClosest(s, t) == Between(j, j - 1);
      assert FindClosest(s[..k], t) == Exact(k - 1);
      assert TieAtEnd(s, k) <==> j < k - 1;
    }
  }

  // ----- the two cache implementations -----

  class TimeCache {
    var storage: Storage
    const maxStorageTime: nat

    constructor (maxStorageTime: nat)
      ensures storage == [] && this.maxStorageTime == maxStorageTime
    {
      storage := [];
      this.maxStorageTime := maxStorageTime;
    }

    ghost predicate Valid()
      reads this
    {
      ValidList(storage)
    }

    /** Pops from the old end while it is out of date. */
    method PruneList()
      requires Valid()
      modifies this
      ensures Valid() && storage == Pruned(old(storage), maxStorageTime)
    {
      ghost var before := storage;
      assert Sorted(before);
      hide ValidList, Sorted, NoDuplicates;
      var latest := LatestStamp(storage);
      var k := |storage|;
      while k > 0 && storage[k - 1].stamp + maxStorageTime < latest
        invariant 0 <= k == |storage| <= |before| && storage == before[..k]
        invariant forall i :: k <= i < |before| ==> before[i].stamp < latest - maxStorageTime
        decreases k
      {
        storage := storage[..k - 1];
        k := k - 1;
      }
      PrefixValid(before, k);
      SortedBefore(before, k);
      NotOlderIsPrefix(before, latest - maxStorageTime, k);
    }

    /** Step (2) of insertData: the newest entry that is not newer than the datum. */
    method FindInsertion(stamp: Time) returns (pos: nat)
      ensures pos == FirstNotAfter(storage, stamp)
    {
      pos := 0;
      while pos < |storage| && storage[pos].stamp > stamp
        invariant 0 <= pos <= |storage|
        invariant forall i :: 0 <= i < pos ==> storage[i].stamp > stamp
      {
        pos := pos + 1;
      }
      FirstNotAfterUnique(storage, stamp, pos);
    }

    /** Step (3): an exact duplicate can only be among the entries with the same stamp. */
    method HasDuplicate(pos: nat, newData: TransformStorage) returns (found: bool)
      requires Valid() && pos == FirstNotAfter(storage, newData.stamp)
      ensures found <==> newData in storage
    {
      var same := pos;
      while same < |storage| && storage[same].stamp == newData.stamp
        invariant pos <= same <= |storage|
        invariant forall i :: 0 <= i < same ==> storage[i] != newData
      {
        if storage[same] == newData {
          return true;
        }
        same := same + 1;
      }
      assert forall i :: same <= i < |storage| ==> storage[i].stamp < newData.stamp;
      return false;
    }

    method InsertData(newData: TransformStorage) returns (accepted: bool)
      requires Valid()
      modifies this
      ensures Valid()
      ensures accepted == !TooOld(old(storage), maxStorageTime, newData)
      ensures storage == Inserted(old(storage), maxStorageTime, newData)
    {
      InsertRefinesSet(storage, maxStorageTime, newData);
      PrunedNonempty(storage, maxStorageTime);
      var latest := LatestStamp(storage);
      PruneList();
      if storage != [] && newData.stamp < latest - maxStorageTime {
        return false;
      }
      var pos := FindInsertion(newData.stamp);
      var duplicate := HasDuplicate(pos, newData);
      if !duplicate {
        storage := storage[..pos] + [newData] + storage[pos..];
      }
      return true;
    }

    method FindClosestEntries(targetTime: Time) returns (c: Closest)
      requires Valid()
      ensures c == FindClosest(storage, targetTime)
    {
      if storage == [] {
        return Nothing;
      }
      if targetTime == TIME_ZERO {
        return Exact(0);
      }
      if |storage| == 1 {
        return if storage[0].stamp == targetTime then Exact(0) else Nothing;
      }
      var latest, earliest := storage[0].stamp, storage[|storage| - 1].stamp;
      if targetTime == latest {
        return Exact(0);
      } else if targetTime == earliest {
        return Exact(|storage| - 1);
      } else if targetTime > latest {
        return Nothing;
      } else if targetTime < earliest {
        return Nothing;
      }
      var it := 0;
      while it < |storage|
        invariant 0 <= it < |storage|
        invariant forall i :: 0 <= i < it ==> storage[i].stamp > targetTime
      {
        if storage[it].stamp <= targetTime {
          break;
        }
        it := it + 1;
      }
      FirstNotAfterUnique(storage, targetTime, it);
      return Between(it, it - 1);
    }

    method GetData(time: Time, slerp: Slerp) returns (data: Option<TransformStorage>)
      requires Valid()
      ensures data == DataAt(storage, time, slerp)
    {
      var c := FindClosestEntries(time);
      match c {
        case Nothing => data := None;
        case Exact(i) => data := Some(storage[i]);
        case Between(o, n) =>
          if storage[o].frameId == storage[n].frameId {
            data := Some(Interpolated(storage[o], storage[n], time, slerp));
          } else {
            data := Some(storage[o]);
          }
      }
    }

    method GetParent(time: Time) returns (parent: FrameId)
      requires Valid()
      ensures parent == ParentAt(storage, time)
    {
      var c := FindClosestEntries(time);
      match c {
        case Nothing => parent := NO_FRAME;
        case Exact(i) => parent := storage[i].frameId;
        case Between(o, _) => parent := storage[o].frameId;
      }
    }
  }

  class StaticCache {
    var storage: TransformStorage

    constructor (data: TransformStorage)
      ensures storage == data
    {
      storage := data;
    }

    method InsertData(newData: TransformStorage) returns (accepted: bool)
      modifies this
      ensures accepted && storage == newData
    {
      storage := newData;
      accepted := true;
    }
  }
}
