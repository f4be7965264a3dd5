/** The interactive waypoint editor: every edit keeps each waypoint's index equal to its position. */
module WaypointEditors {
  import opened Options
  import opened Yamls
  import opened StableSorts
  import opened Decimals
  import opened WaypointFiles

  // ----- marker names -----

  function Signed(n: int): string {
    if n < 0 then "-" + Digits(-n) else Digits(n)
  }

  /** str() of the index */
  function Text(index: Index): string {
    match index
    case Whole(n) => Signed(n)
    case Decimal(n) => Signed(n) + ".0"
    case Truth(b) => if b then "True" else "False"
  }

  function MarkerName(index: Index): string {
    "waypoint_" + Text(index)
  }

  /** Everything up to the first underscore, and the text after it */
  function Split(s: string): (string, Option<string>) {
    if s == [] then ([], None)
    else if s[0] == '_' then ([], Some(s[1..]))
    else
      var (head, tail) := Split(s[1..]);
      ([s[0]] + head, tail)
  }

  /** int() of the second piece between underscores; None where there is none or it is not made of digits */
  function IndexFromName(name: string): Option<nat> {
    match Split(name).1
    case None => None
    case Some(rest) =>
      var digits := Split(rest).0;
      if digits != [] && forall k :: 0 <= k < |digits| ==> IsDigit(digits[k]) then Some(FromDigits(digits)) else None
  }

  lemma {:induction false} SplitAt(head: string, tail: string)
    requires '_' !in head
    ensures Split(head + ['_'] + tail) == (head, Some(tail))
    ensures Split(head) == (head, None)
  {
    var s := head + ['_'] + tail;
    if head == [] {
      assert s[1..] == tail;
    } else {
      assert s[1..] == head[1..] + ['_'] + tail && s[0] == head[0];
      SplitAt(head[1..], tail);
      assert head == [head[0]] + head[1..];
    }
  }

  /** int() does not take the piece when something in it is no digit. */
  lemma OddPiece(piece: string, j: nat)
    requires '_' !in piece && j < |piece| && !IsDigit(piece[j])
    ensures IndexFromName("waypoint_" + piece) == None
  {
    hide Split, FromDigits;
    assert "waypoint_" + piece == "waypoint" + ['_'] + piece;
    SplitAt("waypoint", piece);
    SplitAt(piece, []);
  }

  /** The callbacks find the index that the marker was named after, if the index is spelled as an integer;
      with any other spelling they raise. */
  lemma NameGivesIndex(index: Index)
    requires Value(index) >= 0
    ensures IndexFromName(MarkerName(index)) == if index.Whole? then Some(index.n) else None
  {
    hide Digits, FromDigits, Split, IndexFromName;
    match index
    case Truth(b) => OddPiece(Text(index), 0);
    case Decimal(n) =>
      DigitsRoundTrip(n);
      assert Text(index)[|Digits(n)|] == '.';
      OddPiece(Text(index), |Digits(n)|);
    case Whole(n) => DigitsName(n);
  }

  lemma DigitsName(n: nat)
    ensures IndexFromName("waypoint_" + Digits(n)) == Some(n)
  {
    hide Digits, FromDigits, Split;
    DigitsRoundTrip(n);
    assert "waypoint_" + Digits(n) == "waypoint" + ['_'] + Digits(n);
    SplitAt("waypoint", Digits(n));
    SplitAt(Digits(n), []);
  }

  // ----- edits as functions of the list -----

  function Renumbered(ws: seq<Waypoint>): seq<Waypoint> {
    seq(|ws|, i requires 0 <= i < |ws| => ws[i].(index := Whole(i)))
  }

  const NEW_NAVIGATION := NavigationConfig(Float(1.0), Float(3.0), Bool(true))

  datatype Edit =
    | Add(pose: Pose)
    | CopyNext(at: nat)
    | CopyPose(at: nat)
    | Delete(at: nat)
    | SetThrough(at: nat, through: bool)
    | Drag(at: nat, pose: Pose)

  /** The edit does not raise: the menu callbacks need a marker whose name they can read. */
  predicate Applies(ws: seq<Waypoint>, e: Edit) {
    e.Add? || (e.at < |ws| && (e.Drag? || ws[e.at].index.Whole?))
  }

  function WithThrough(w: Waypoint, through: bool): Waypoint {
    w.(navigation := w.navigation.(isThroughPoint := Bool(through)))
  }

  /** A marker floats one above its waypoint. */
  function Dragged(w: Waypoint, pose: Pose): Waypoint {
    w.(pose := pose.(z := pose.z - 1.0))
  }

  /** w behind position k */
  function Put(ws: seq<Waypoint>, k: nat, w: Waypoint): seq<Waypoint>
    requires k < |ws|
  {
    ws[..k + 1] + [w] + ws[k + 1..]
  }

  function Without(ws: seq<Waypoint>, k: nat): seq<Waypoint>
    requires k < |ws|
  {
    ws[..k] + ws[k + 1..]
  }

  /** The list after the edit, without any talk of indices */
  function Edited(ws: seq<Waypoint>, e: Edit): seq<Waypoint>
    requires Applies(ws, e)
  {
    match e
    case Add(pose) => ws + [Waypoint(Whole(0), pose, NEW_NAVIGATION, [])]
    case CopyNext(k) => Put(ws, k, ws[k])
    case CopyPose(k) => Put(ws, k, Waypoint(Whole(0), ws[k].pose, NEW_NAVIGATION, []))
    case Delete(k) => Without(ws, k)
    case SetThrough(k, through) => ws[k := WithThrough(ws[k], through)]
    case Drag(k, pose) => ws[k := Dragged(ws[k], pose)]
  }

  /** Python's index + 1: a float stays one, a bool does not. */
  function Next(index: Index): Index {
    match index
    case Whole(n) => Whole(n + 1)
    case Decimal(n) => Decimal(n + 1)
    case Truth(b) => Whole(Value(index) + 1)
  }

  function Shifted(ws: seq<Waypoint>): seq<Waypoint> {
    seq(|ws|, i requires 0 <= i < |ws| => ws[i].(index := Next(ws[i].index)))
  }

  /** w behind position k, with what follows it moved on */
  function PutNext(ws: seq<Waypoint>, k: nat, w: Waypoint): seq<Waypoint>
    requires k < |ws|
  {
    ws[..k + 1] + [w] + Shifted(ws[k + 1..])
  }

  /** The list after the edit, down to the spelling of the indices */
  function After(ws: seq<Waypoint>, e: Edit): seq<Waypoint>
    requires Applies(ws, e)
  {
    match e
    case Add(pose) => ws + [Waypoint(Whole(|ws|), pose, NEW_NAVIGATION, [])]
    case CopyNext(k) => PutNext(ws, k, ws[k].(index := Whole(k + 1)))
    case CopyPose(k) => PutNext(ws, k, Waypoint(Whole(k + 1), ws[k].pose, NEW_NAVIGATION, []))
    case Delete(k) => Renumbered(Without(ws, k))
    case SetThrough(_, _) => Edited(ws, e)
    case Drag(_, _) => Edited(ws, e)
  }

  /** Indices spelled as integers */
  function Respelled(ws: seq<Waypoint>): seq<Waypoint> {
    seq(|ws|, i requires 0 <= i < |ws| => ws[i].(index := Whole(IndexOf(ws[i]))))
  }

  /** Every edit does to the list what it says, and every index is again its position. */
  lemma AfterIsEdited(ws: seq<Waypoint>, e: Edit)
    requires InOrder(ws) && Applies(ws, e)
    ensures InOrder(After(ws, e))
    ensures Respelled(After(ws, e)) == Renumbered(Edited(ws, e))
  {
    AfterLength(ws, e);
    hide After, Edited, InOrder;
    forall i | 0 <= i < |Edited(ws, e)|
      ensures Fits(After(ws, e)[i], Edited(ws, e)[i], i)
    {
      AfterAt(ws, e, i);
    }
    IsInOrder(After(ws, e));
    assert Respelled(After(ws, e)) == Renumbered(Edited(ws, e));
  }

  lemma IsInOrder(ws: seq<Waypoint>)
    requires forall i :: 0 <= i < |ws| ==> IndexOf(ws[i]) == i
    ensures InOrder(ws)
  {
  }

  lemma PutNextAt(ws: seq<Waypoint>, k: nat, w: Waypoint, i: nat)
    requires k < |ws| && i <= |ws|
    ensures |PutNext(ws, k, w)| == |ws| + 1
    ensures PutNext(ws, k, w)[i] ==
      if i <= k then ws[i] else if i == k + 1 then w else ws[i - 1].(index := Next(ws[i - 1].index))
  {
  }

  lemma PutAt(ws: seq<Waypoint>, k: nat, w: Waypoint, i: nat)
    requires k < |ws| && i <= |ws|
    ensures |Put(ws, k, w)| == |ws| + 1
    ensures Put(ws, k, w)[i] == if i <= k then ws[i] else if i == k + 1 then w else ws[i - 1]
  {
  }

  lemma WithoutAt(ws: seq<Waypoint>, k: nat, i: nat)
    requires k < |ws| && i < |ws| - 1
    ensures |Without(ws, k)| == |ws| - 1
    ensures Without(ws, k)[i] == if i < k then ws[i] else ws[i + 1]
  {
  }

  lemma AfterLength(ws: seq<Waypoint>, e: Edit)
    requires Applies(ws, e)
    ensures |After(ws, e)| == |Edited(ws, e)| ==
      if e.Add? || e.CopyNext? || e.CopyPose? then |ws| + 1 else if e.Delete? then |ws| - 1 else |ws|
  {
  }

  /** Equal but for the index, which is right in the first */
  ghost predicate Fits(w: Waypoint, v: Waypoint, i: nat) {
    IndexOf(w) == i && w.(index := Whole(i)) == v.(index := Whole(i))
  }

  lemma PutFits(ws: seq<Waypoint>, k: nat, w: Waypoint, v: Waypoint, i: nat)
    requires InOrder(ws) && k < |ws| && i <= |ws| && Fits(w, v, k + 1)
    ensures |PutNext(ws, k, w)| == |Put(ws, k, v)| == |ws| + 1 && Fits(PutNext(ws, k, w)[i], Put(ws, k, v)[i], i)
  {
    hide PutNext, Put;
    PutNextAt(ws, k, w, i);
    PutAt(ws, k, v, i);
  }

  lemma DeleteFits(ws: seq<Waypoint>, i: nat)
    requires i < |ws|
    ensures Fits(Renumbered(ws)[i], ws[i], i)
  {
  }

  lemma AddFits(ws: seq<Waypoint>, w: Waypoint, v: Waypoint, i: nat)
    requires InOrder(ws) && i <= |ws| && Fits(w, v, |ws|)
    ensures Fits((ws + [w])[i], (ws + [v])[i], i)
  {
  }

  lemma ReplaceFits(ws: seq<Waypoint>, k: nat, w: Waypoint, i: nat)
    requires InOrder(ws) && k < |ws| && i < |ws| && w.index == ws[k].index
    ensures Fits(ws[k := w][i], ws[k := w][i], i)
  {
  }

  lemma AfterAt(ws: seq<Waypoint>, e: Edit, i: nat)
    requires InOrder(ws) && Applies(ws, e) && i < |Edited(ws, e)| == |After(ws, e)|
    ensures Fits(After(ws, e)[i], Edited(ws, e)[i], i)
  {
    AfterLength(ws, e);
    hide PutNext, Put, Renumbered, Without, InOrder;
    match e
    case Add(pose) => AddFits(ws, Waypoint(Whole(|ws|), pose, NEW_NAVIGATION, []), Waypoint(Whole(0), pose, NEW_NAVIGATION, []), i);
    case CopyNext(k) =>
      InOrderAt(ws, k);
      PutFits(ws, k, ws[k].(index := Whole(k + 1)), ws[k], i);
    case CopyPose(k) =>
      PutFits(ws, k, Waypoint(Whole(k + 1), ws[k].pose, NEW_NAVIGATION, []), Waypoint(Whole(0), ws[k].pose, NEW_NAVIGATION, []), i);
    case Delete(k) => DeleteFits(Without(ws, k), i);
    case SetThrough(k, through) => ReplaceFits(ws, k, WithThrough(ws[k], through), i);
    case Drag(k, pose) => ReplaceFits(ws, k, Dragged(ws[k], pose), i);
  }

  lemma InOrderAt(ws: seq<Waypoint>, i: nat)
    requires InOrder(ws) && i < |ws|
    ensures IndexOf(ws[i]) == i
  {
  }

  /** A new waypoint has the pose, the editor's settings and no actions; a copy has everything that the original has. */
  lemma WhatIsNew(ws: seq<Waypoint>, e: Edit)
    requires Applies(ws, e) && (e.Add? || e.CopyNext? || e.CopyPose?)
    ensures |After(ws, e)| == |ws| + 1
    ensures var w := After(ws, e)[if e.Add? then |ws| else e.at + 1];
            && w.pose == (if e.Add? then e.pose else ws[e.at].pose)
            && w.navigation == (if e.CopyNext? then ws[e.at].navigation else NavigationConfig(Float(1.0), Float(3.0), Bool(true)))
            && w.actions == if e.CopyNext? then ws[e.at].actions else []
  {
    AfterLength(ws, e);
    if e.CopyNext? {
      PutNextAt(ws, e.at, ws[e.at].(index := Whole(e.at + 1)), e.at + 1);
    } else if e.CopyPose? {
      PutNextAt(ws, e.at, Waypoint(Whole(e.at + 1), ws[e.at].pose, NEW_NAVIGATION, []), e.at + 1);
    }
    hide PutNext;
  }

  /** What is set or dragged changes in that alone, and nothing else changes. */
  lemma WhatIsChanged(ws: seq<Waypoint>, e: Edit, i: nat)
    requires Applies(ws, e) && (e.SetThrough? || e.Drag?) && i < |ws|
    ensures |After(ws, e)| == |ws| && (i != e.at ==> After(ws, e)[i] == ws[i])
    ensures var v, w := ws[e.at], After(ws, e)[e.at];
            && w.index == v.index && w.actions == v.actions
            && w.navigation.reachTolerance == v.navigation.reachTolerance && w.navigation.throughTolerance == v.navigation.throughTolerance
            && w.navigation.isThroughPoint == (if e.SetThrough? then Bool(e.through) else v.navigation.isThroughPoint)
            && (e.SetThrough? ==> w.pose == v.pose)
            && (e.Drag? ==> w.pose.z == e.pose.z - 1.0 && w.pose.(z := e.pose.z) == e.pose)
  {
  }

  // ----- the editor -----

  class Marker {
    var waypoint: Waypoint

    constructor (w: Waypoint)
      ensures waypoint == w
    {
      waypoint := w;
    }

    method SetIndex(index: Index)
      modifies this
      ensures waypoint == old(waypoint).(index := index)
    {
      waypoint := waypoint.(index := index);
    }

    /** The marker was dragged and let go at the pose. */
    method UpdatePose(pose: Pose)
      modifies this
      ensures waypoint == Dragged(old(waypoint), pose)
    {
      waypoint := waypoint.(pose := pose.(z := pose.z - 1.0));
    }
  }

  function KeyOf(p: (Waypoint, Marker)): int {
    IndexOf(p.0)
  }

  function Firsts(ps: seq<(Waypoint, Marker)>): seq<Waypoint> {
    seq(|ps|, i requires 0 <= i < |ps| => ps[i].0)
  }

  function Seconds(ps: seq<(Waypoint, Marker)>): seq<Marker> {
    seq(|ps|, i requires 0 <= i < |ps| => ps[i].1)
  }

  ghost predicate Distinct(ms: seq<Marker>) {
    forall i, j :: 0 <= i < j < |ms| ==> ms[i] != ms[j]
  }

  lemma {:induction false} InsertFirsts(x: (Waypoint, Marker), ps: seq<(Waypoint, Marker)>)
    ensures Firsts(Insert(KeyOf, x, ps)) == Insert(IndexOf, x.0, Firsts(ps))
  {
    if ps != [] {
      InsertFirsts(x, ps[1..]);
      assert Firsts(ps)[1..] == Firsts(ps[1..]);
    }
  }

  lemma {:induction false} SortFirsts(ps: seq<(Waypoint, Marker)>)
    ensures Firsts(Sort(KeyOf, ps)) == Sort(IndexOf, Firsts(ps))
  {
    if ps != [] {
      var init := ps[..|ps| - 1];
      SortFirsts(init);
      InsertFirsts(ps[|ps| - 1], Sort(KeyOf, init));
      assert Firsts(ps)[..|ps| - 1] == Firsts(init);
    }
  }

  lemma SecondsCons(x: (Waypoint, Marker), ps: seq<(Waypoint, Marker)>)
    ensures multiset(Seconds([x] + ps)) == multiset{x.1} + multiset(Seconds(ps))
  {
    assert Seconds([x] + ps) == [x.1] + Seconds(ps);
  }

  lemma {:induction false} InsertSeconds(x: (Waypoint, Marker), ps: seq<(Waypoint, Marker)>)
    ensures multiset(Seconds(Insert(KeyOf, x, ps))) == multiset(Seconds(ps)) + multiset{x.1}
  {
    SecondsCons(x, []);
    if ps == [] {
      assert [x] + [] == [x];
    } else {
      InsertSeconds(x, ps[1..]);
      HeadTail(ps);
      hide Seconds, KeyOf;
      SecondsCons(ps[0], ps[1..]);
      SecondsCons(ps[0], Insert(KeyOf, x, ps[1..]));
      SecondsCons(x, ps);
    }
  }

  lemma {:induction false} SortSeconds(ps: seq<(Waypoint, Marker)>)
    ensures multiset(Seconds(Sort(KeyOf, ps))) == multiset(Seconds(ps))
  {
    if ps != [] {
      var init, x := ps[..|ps| - 1], ps[|ps| - 1];
      SortSeconds(init);
      InsertSeconds(x, Sort(KeyOf, init));
      assert Seconds(ps) == Seconds(init) + [x.1];
    }
  }

  lemma DistinctIsOnce(ms: seq<Marker>)
    ensures Distinct(ms) <==> forall m :: multiset(ms)[m] <= 1
  {
    if !Distinct(ms) {
      var i, j :| 0 <= i < j < |ms| && ms[i] == ms[j];
      assert ms == ms[..i] + [ms[i]] + ms[i + 1..j] + [ms[j]] + ms[j + 1..];
      assert multiset(ms)[ms[i]] >= 2;
    } else {
      forall m
        ensures multiset(ms)[m] <= 1
      {
        OnceEach(ms, m);
      }
    }
  }

  lemma {:induction false} OnceEach(ms: seq<Marker>, m: Marker)
    requires Distinct(ms)
    ensures multiset(ms)[m] <= 1
  {
    if ms != [] {
      var init, x := ms[..|ms| - 1], ms[|ms| - 1];
      OnceEach(init, m);
      assert ms == init + [x];
      assert x !in init;
    }
  }

  ghost function Contents(ms: seq<Marker>): seq<Waypoint>
    reads ms
  {
    seq(|ms|, i requires 0 <= i < |ms| reads ms => ms[i].waypoint)
  }

  function BumpedOne(w: Waypoint, index: int): Waypoint {
    if IndexOf(w) >= index then w.(index := Next(w.index)) else w
  }

  function Bumped(ws: seq<Waypoint>, index: int): seq<Waypoint> {
    seq(|ws|, i requires 0 <= i < |ws| => BumpedOne(ws[i], index))
  }

  /** Where list.insert puts a new element */
  function Clamp(index: int, n: nat): (k: nat)
    ensures k <= n
  {
    if index > n then n else if index >= 0 then index else if n + index >= 0 then n + index else 0
  }

  class Editor {
    var markers: seq<Marker>

    /** Index equal to position, over distinct objects */
    ghost predicate Valid()
      reads this, markers
    {
      Distinct(markers) && InOrder(Contents(markers))
    }

    /** The editor over the waypoints of a list */
    constructor (ws: seq<Waypoint>)
      ensures Distinct(markers) && Contents(markers) == ws && (Valid() <==> InOrder(ws))
      ensures forall m :: m in markers ==> fresh(m)
    {
      markers := [];
      new;
      for i := 0 to |ws|
        invariant |markers| == i && Distinct(markers) && forall m :: m in markers ==> fresh(m)
        invariant forall j :: 0 <= j < i ==> markers[j].waypoint == ws[j]
      {
        var m := new Marker(ws[i]);
        markers := markers + [m];
      }
    }

    method SortByIndex()
      modifies this`markers
      ensures multiset(markers) == multiset(old(markers))
      ensures Contents(markers) == Sort(IndexOf, old(Contents(markers)))
    {
      var keyed := seq(|markers|, i requires 0 <= i < |markers| reads this, markers => (markers[i].waypoint, markers[i]));
      ghost var before := Contents(markers);
      assert Seconds(keyed) == markers && Firsts(keyed) == before;
      var sorted := Sort(KeyOf, keyed);
      SortSeconds(keyed);
      SortFirsts(keyed);
      SortIsStable(KeyOf, keyed);
      hide Sort;
      markers := Seconds(sorted);
      forall i | 0 <= i < |sorted|
        ensures sorted[i].0 == sorted[i].1.waypoint
      {
        assert sorted[i] in multiset(keyed);
      }
      assert Contents(markers) == Firsts(sorted);
    }

    method Reindex()
      requires Distinct(markers)
      modifies this`markers, markers
      ensures multiset(markers) == multiset(old(markers))
      ensures Contents(markers) == Renumbered(Sort(IndexOf, old(Contents(markers))))
    {
      hide Sort;
      SortByIndex();
      DistinctIsOnce(old(markers));
      DistinctIsOnce(markers);
      SameObjects(markers, old(markers));
      ghost var ms, sorted := markers, Contents(markers);
      for i := 0 to |markers|
        invariant markers == ms
        invariant forall j :: 0 <= j < i ==> ms[j].waypoint == sorted[j].(index := Whole(j))
        invariant forall j :: i <= j < |ms| ==> ms[j].waypoint == sorted[j]
      {
        assert ms[i] in old(markers);
        markers[i].SetIndex(Whole(i));
      }
    }

    /** Makes room for a waypoint at the index. */
    method InsertIndex(index: int)
      requires Distinct(markers)
      modifies this`markers, markers
      ensures multiset(markers) == multiset(old(markers))
      ensures Contents(markers) == Bumped(Sort(IndexOf, old(Contents(markers))), index)
    {
      hide Sort;
      SortByIndex();
      DistinctIsOnce(old(markers));
      DistinctIsOnce(markers);
      SameObjects(markers, old(markers));
      ghost var ms, sorted := markers, Contents(markers);
      for i := 0 to |markers|
        invariant markers == ms
        invariant forall j :: 0 <= j < i ==> ms[j].waypoint == BumpedOne(sorted[j], index)
        invariant forall j :: i <= j < |ms| ==> ms[j].waypoint == sorted[j]
      {
        if IndexOf(markers[i].waypoint) >= index {
          assert ms[i] in old(markers);
          markers[i].SetIndex(Next(markers[i].waypoint.index));
        }
      }
    }

    /** The insertion keeps the indices right exactly when the new waypoint carries the position it lands
        on and the index was not a negative one inside the list. */
    method Insert(index: int, m: Marker)
      requires Valid() && m !in markers
      modifies this`markers, markers
      ensures multiset(markers) == multiset(old(markers)) + multiset{m} && Distinct(markers)
      ensures Contents(markers) == Inserted(old(Contents(markers)), index, m.waypoint)
      ensures Valid() <==> IndexOf(m.waypoint) == Clamp(index, |old(markers)|) && (index >= 0 || |old(markers)| + index <= 0)
    {
      hide Sort, Bumped, InOrder;
      ghost var ws, w := Contents(markers), m.waypoint;
      InOrderIsSorted(ws);
      BumpedLength(ws, index);
      InsertIndex(index);
      assert Contents(markers) == Bumped(ws, index);
      SameObjects(markers, old(markers));
      DistinctIsOnce(old(markers));
      ghost var ms := markers;
      var k := Clamp(index, |markers|);
      markers := markers[..k] + [m] + markers[k..];
      PutIn(ms, k, m);
      DistinctIsOnce(markers);
      ContentsInserted(ms, k, m);
      assert Contents(markers) == Inserted(ws, index, w);
      InsertedInOrder(ws, index, w);
    }

    method AddDefault(pose: Pose)
      requires Valid()
      modifies this`markers
      ensures Valid() && Contents(markers) == After(old(Contents(markers)), Add(pose))
    {
      ghost var ws := Contents(markers);
      var m := new Marker(Waypoint(Whole(|markers|), pose, NEW_NAVIGATION, []));
      markers := markers + [m];
      assert Contents(markers) == ws + [m.waypoint];
    }

    /** Pops as list.pop does, which fails for an index outside the list. */
    method Remove(index: int) returns (ok: bool)
      requires Valid()
      modifies this`markers, markers
      ensures ok <==> -|old(markers)| <= index < |old(markers)|
      ensures Valid()
      ensures Contents(markers) ==
        if ok then Renumbered(Without(old(Contents(markers)), if index < 0 then |old(markers)| + index else index))
        else old(Contents(markers))
    {
      hide Sort, Sorted;
      var n := |markers|;
      ok := -n <= index < n;
      if ok {
        var k := if index < 0 then n + index else index;
        ghost var ws := Contents(markers);
        markers := markers[..k] + markers[k + 1..];
        assert Contents(markers) == Without(ws, k);
        DeletedIsSorted(ws, k);
        ghost var ms := markers;
        Reindex();
        DistinctIsOnce(ms);
        DistinctIsOnce(markers);
      }
    }

    /** The menu entry on the marker at position k, which is told apart by its name; false where it raises */
    method CopyNextCallback(name: string, ghost k: nat) returns (ok: bool)
      requires Valid() && k < |markers| && name == MarkerName(markers[k].waypoint.index)
      modifies this`markers, markers
      ensures Valid() && (ok <==> Applies(old(Contents(markers)), CopyNext(k)))
      ensures Contents(markers) == if ok then After(old(Contents(markers)), CopyNext(k)) else old(Contents(markers))
    {
      hide MarkerName, IndexFromName;
      ghost var ws := Contents(markers);
      NameGivesIndex(ws[k].index);
      var index := IndexFromName(name);
      ok := index.Some?;
      if ok {
        var m := new Marker(markers[index.value].waypoint);
        m.SetIndex(Whole(index.value + 1));
        Insert(index.value + 1, m);
        InsertedNext(ws, k, ws[k].(index := Whole(k + 1)));
      }
    }

    method CopyPoseCallback(name: string, ghost k: nat) returns (ok: bool)
      requires Valid() && k < |markers| && name == MarkerName(markers[k].waypoint.index)
      modifies this`markers, markers
      ensures Valid() && (ok <==> Applies(old(Contents(markers)), CopyPose(k)))
      ensures Contents(markers) == if ok then After(old(Contents(markers)), CopyPose(k)) else old(Contents(markers))
    {
      hide MarkerName, IndexFromName;
      ghost var ws := Contents(markers);
      NameGivesIndex(ws[k].index);
      var index := IndexFromName(name);
      ok := index.Some?;
      if ok {
        var m := new Marker(Waypoint(Whole(index.value + 1), markers[index.value].waypoint.pose, NEW_NAVIGATION, []));
        Insert(index.value + 1, m);
        InsertedNext(ws, k, m.waypoint);
      }
    }

    method DeleteCallback(name: string, ghost k: nat) returns (ok: bool)
      requires Valid() && k < |markers| && name == MarkerName(markers[k].waypoint.index)
      modifies this`markers, markers
      ensures Valid() && (ok <==> Applies(old(Contents(markers)), Delete(k)))
      ensures Contents(markers) == if ok then After(old(Contents(markers)), Delete(k)) else old(Contents(markers))
    {
      hide MarkerName, IndexFromName;
      ghost var ws := Contents(markers);
      NameGivesIndex(ws[k].index);
      var index := IndexFromName(name);
      ok := index.Some?;
      if ok {
        var _ := Remove(index.value);
      }
    }

    /** "Set through point" and "Set target point" */
    method SetThroughCallback(name: string, through: bool, ghost k: nat) returns (ok: bool)
      requires Valid() && k < |markers| && name == MarkerName(markers[k].waypoint.index)
      modifies markers
      ensures Valid() && (ok <==> Applies(old(Contents(markers)), SetThrough(k, through)))
      ensures Contents(markers) == if ok then After(old(Contents(markers)), SetThrough(k, through)) else old(Contents(markers))
    {
      hide MarkerName, IndexFromName;
      ghost var ws := Contents(markers);
      NameGivesIndex(ws[k].index);
      var index := IndexFromName(name);
      ok := index.Some?;
      if ok {
        var m := markers[index.value];
        m.waypoint := WithThrough(m.waypoint, through);
        assert Contents(markers) == ws[k := WithThrough(ws[k], through)];
      }
    }

    method DragMarker(k: nat, pose: Pose)
      requires Valid() && k < |markers|
      modifies markers
      ensures Valid() && Contents(markers) == After(old(Contents(markers)), Drag(k, pose))
    {
      ghost var ws := Contents(markers);
      markers[k].UpdatePose(pose);
      assert Contents(markers) == ws[k := Dragged(ws[k], pose)];
    }

    /** The waypoints to be saved */
    method ConvertWaypointList() returns (ws: seq<Waypoint>)
      ensures ws == Contents(markers)
    {
      ws := [];
      for i := 0 to |markers|
        invariant ws == Contents(markers[..i])
      {
        ws := ws + [markers[i].waypoint];
      }
      assert markers[..|markers|] == markers;
    }
  }

  function Inserted(ws: seq<Waypoint>, index: int, w: Waypoint): seq<Waypoint> {
    var k := Clamp(index, |ws|);
    Bumped(ws, index)[..k] + [w] + Bumped(ws, index)[k..]
  }

  lemma ContentsInserted(ms: seq<Marker>, k: nat, m: Marker)
    requires k <= |ms|
    ensures Contents(ms[..k] + [m] + ms[k..]) == Contents(ms)[..k] + [m.waypoint] + Contents(ms)[k..]
  {
  }

  lemma BumpedLength(ws: seq<Waypoint>, index: int)
    ensures |Bumped(ws, index)| == |ws|
  {
  }

  lemma NextValue(index: Index)
    ensures Value(Next(index)) == Value(index) + 1
  {
  }

  lemma InsertedInOrder(ws: seq<Waypoint>, index: int, w: Waypoint)
    requires InOrder(ws)
    ensures InOrder(Inserted(ws, index, w)) <==> IndexOf(w) == Clamp(index, |ws|) && (index >= 0 || |ws| + index <= 0)
  {
    hide Next;
    var k, r := Clamp(index, |ws|), Inserted(ws, index, w);
    assert r[k] == w;
    forall i: nat | i < |ws|
      ensures IndexOf(BumpedOne(ws[i], index)) == if i >= index then i + 1 else i
    {
      NextValue(ws[i].index);
    }
    assert forall i :: 0 <= i < k ==> r[i] == BumpedOne(ws[i], index);
    assert forall i :: k < i < |r| ==> r[i] == BumpedOne(ws[i - 1], index);
    if index < 0 && k > 0 {
      assert IndexOf(r[0]) == 1;
    }
  }

  lemma DeletedIsSorted(ws: seq<Waypoint>, k: nat)
    requires InOrder(ws) && k < |ws|
    ensures Sort(IndexOf, Without(ws, k)) == Without(ws, k)
  {
    SortOfSorted(IndexOf, Without(ws, k));
  }

  lemma InOrderIsSorted(ws: seq<Waypoint>)
    requires InOrder(ws)
    ensures Sort(IndexOf, ws) == ws
  {
    SortOfSorted(IndexOf, ws);
  }

  lemma InsertedNext(ws: seq<Waypoint>, k: nat, w: Waypoint)
    requires InOrder(ws) && k < |ws|
    ensures Inserted(ws, k + 1, w) == PutNext(ws, k, w)
  {
  }

  lemma PutIn(ms: seq<Marker>, k: nat, m: Marker)
    requires k <= |ms|
    ensures multiset(ms[..k] + [m] + ms[k..]) == multiset(ms) + multiset{m}
  {
    assert ms == ms[..k] + ms[k..];
  }

  lemma SameObjects(ms: seq<Marker>, ns: seq<Marker>)
    requires multiset(ms) == multiset(ns)
    ensures forall i :: 0 <= i < |ms| ==> ms[i] in ns
  {
    forall i | 0 <= i < |ms|
      ensures ms[i] in ns
    {
      assert ms[i] in multiset(ms);
      assert ms[i] in multiset(ns);
    }
  }

  // ----- whole editing sessions -----

  /** The lists of a session: each is the one before it after an edit. */
  ghost predicate IsSession(lists: seq<seq<Waypoint>>, edits: seq<Edit>) {
    && |lists| == |edits| + 1
    && forall i :: 0 <= i < |edits| ==> Applies(lists[i], edits[i]) && lists[i + 1] == After(lists[i], edits[i])
  }

  /** Where an editor may start: nothing, or a file that was loaded */
  predicate Starts(ws: seq<Waypoint>, raw: Yaml, importable: (Yaml, Yaml) -> bool) {
    ws == [] || Loaded(raw, importable) == Some(ws)
  }

  ghost predicate Saveable(ws: seq<Waypoint>, importable: (Yaml, Yaml) -> bool) {
    InOrder(ws) && forall i :: 0 <= i < |ws| ==> Performable(ws[i], importable)
  }

  ghost predicate Inherits(w: Waypoint, v: Waypoint) {
    w.actions == v.actions && w.navigation.throughTolerance == v.navigation.throughTolerance
  }

  ghost predicate Derived(ws: seq<Waypoint>, w: Waypoint) {
    || (w.actions == [] && w.navigation.throughTolerance == Float(3.0))
    || exists j :: 0 <= j < |ws| && Inherits(w, ws[j])
  }

  lemma PutDerived(ws: seq<Waypoint>, k: nat, w: Waypoint, i: nat)
    requires k < |ws| && i <= |ws| && Derived(ws, w)
    ensures |PutNext(ws, k, w)| == |ws| + 1 && Derived(ws, PutNext(ws, k, w)[i])
  {
    PutNextAt(ws, k, w, i);
    hide PutNext;
    if i != k + 1 {
      assert Inherits(PutNext(ws, k, w)[i], ws[if i <= k then i else i - 1]);
    }
  }

  lemma WithoutDerived(ws: seq<Waypoint>, k: nat, i: nat)
    requires k < |ws| && i < |ws| - 1
    ensures |Without(ws, k)| == |ws| - 1 && Derived(ws, Renumbered(Without(ws, k))[i])
  {
    WithoutAt(ws, k, i);
    hide Without;
    assert Inherits(Renumbered(Without(ws, k))[i], ws[if i < k then i else i + 1]);
  }

  /** Each waypoint is new, or it has the actions and the tolerance of one that was there. */
  lemma Inherited(ws: seq<Waypoint>, e: Edit, i: nat)
    requires Applies(ws, e) && i < |After(ws, e)|
    ensures Derived(ws, After(ws, e)[i])
  {
    AfterLength(ws, e);
    hide PutNext, Put, Renumbered, Without;
    var w := After(ws, e)[i];
    match e
    case CopyNext(k) =>
      assert Inherits(ws[k].(index := Whole(k + 1)), ws[k]);
      PutDerived(ws, k, ws[k].(index := Whole(k + 1)), i);
    case CopyPose(k) => PutDerived(ws, k, Waypoint(Whole(k + 1), ws[k].pose, NEW_NAVIGATION, []), i);
    case Delete(k) => WithoutDerived(ws, k, i);
    case Add(_) =>
      if i < |ws| {
        assert Inherits(w, ws[i]);
      }
    case SetThrough(_, _) => assert Inherits(w, ws[i]);
    case Drag(_, _) => assert Inherits(w, ws[i]);
  }

  lemma EditedSaveable(ws: seq<Waypoint>, e: Edit, importable: (Yaml, Yaml) -> bool)
    requires Saveable(ws, importable) && Applies(ws, e)
    ensures Saveable(After(ws, e), importable)
  {
    hide Validates, After, Applies;
    AfterIsEdited(ws, e);
    forall i | 0 <= i < |After(ws, e)|
      ensures Performable(After(ws, e)[i], importable)
    {
      Inherited(ws, e, i);
    }
  }

  lemma {:induction false} SessionSaveable(lists: seq<seq<Waypoint>>, edits: seq<Edit>, i: nat, importable: (Yaml, Yaml) -> bool)
    requires IsSession(lists, edits) && i < |lists| && Saveable(lists[0], importable)
    ensures Saveable(lists[i], importable)
  {
    hide Saveable, After, Applies;
    if i > 0 {
      SessionSaveable(lists, edits, i - 1, importable);
      EditedSaveable(lists[i - 1], edits[i - 1], importable);
    }
  }

  lemma StartSaveable(ws: seq<Waypoint>, raw: Yaml, importable: (Yaml, Yaml) -> bool)
    requires Starts(ws, raw, importable)
    ensures Saveable(ws, importable)
  {
    hide Loaded, Performable;
    if ws != [] {
      LoadedIsPerformable(raw, importable);
    }
  }

  /** After any edits the saved list is loaded back exactly when no waypoint but the first is a through point
      with a tolerance that is no number. */
  lemma SessionLoads(lists: seq<seq<Waypoint>>, edits: seq<Edit>, i: nat, raw: Yaml, importable: (Yaml, Yaml) -> bool)
    requires IsSession(lists, edits) && i < |lists| && Starts(lists[0], raw, importable)
    ensures Loaded(Saved(lists[i]), importable) == if AllComparable(lists[i]) then Some(RereadAll(lists[i])) else None
  {
    hide Loaded, Saved, RereadAll, Performable, IsSession, Starts, AllComparable;
    StartSaveable(lists[0], raw, importable);
    SessionSaveable(lists, edits, i, importable);
    InOrderLoads(lists[i], importable);
  }

  /** The tolerance is a number. */
  predicate Measured(w: Waypoint) {
    Number(w.navigation.throughTolerance).Some?
  }

  ghost predicate AllMeasured(ws: seq<Waypoint>) {
    forall i :: 0 <= i < |ws| ==> Measured(ws[i])
  }

  lemma {:induction false} SessionMeasured(lists: seq<seq<Waypoint>>, edits: seq<Edit>, i: nat)
    requires IsSession(lists, edits) && i < |lists| && AllMeasured(lists[0])
    ensures AllMeasured(lists[i])
  {
    hide After, Applies;
    if i > 0 {
      SessionMeasured(lists, edits, i - 1);
      forall j | 0 <= j < |lists[i]|
        ensures Measured(lists[i][j])
      {
        Inherited(lists[i - 1], edits[i - 1], j);
      }
    }
  }

  /** Every list of every session from here can be loaded back. */
  ghost predicate AlwaysLoads(start: seq<Waypoint>, importable: (Yaml, Yaml) -> bool) {
    forall lists: seq<seq<Waypoint>>, edits: seq<Edit>, i: nat ::
      IsSession(lists, edits) && i < |lists| && lists[0] == start ==>
        Loaded(Saved(lists[i]), importable) == Some(RereadAll(lists[i]))
  }

  /** Four edits that make the waypoint at k, or its copy, a later through point */
  function Spoiling(ws: seq<Waypoint>, k: nat, pose: Pose): seq<Edit> {
    [Add(pose), Delete(|ws|), CopyNext(k), SetThrough(k + 1, true)]
  }

  lemma SpoilingSession(ws: seq<Waypoint>, k: nat, pose: Pose) returns (lists: seq<seq<Waypoint>>)
    requires InOrder(ws) && k < |ws| && !Measured(ws[k])
    ensures IsSession(lists, Spoiling(ws, k, pose)) && lists[0] == ws && !AllComparable(lists[4])
  {
    var es := Spoiling(ws, k, pose);
    var l1 := After(ws, es[0]);
    assert Without(l1, |ws|) == ws;
    var l2 := After(l1, es[1]);
    assert l2 == Renumbered(ws);
    var l3 := After(l2, es[2]);
    assert l3[k + 1] == l2[k].(index := Whole(k + 1));
    var l4 := After(l3, es[3]);
    assert l4[k + 1] == WithThrough(l3[k + 1], true);
    assert !Comparable(l4[k + 1]);
    lists := [ws, l1, l2, l3, l4];
  }

  /** What is loaded can be edited, saved and loaded at will, exactly when every tolerance in it is a number. */
  lemma EverySessionLoads(start: seq<Waypoint>, raw: Yaml, importable: (Yaml, Yaml) -> bool)
    requires Starts(start, raw, importable)
    ensures AlwaysLoads(start, importable) <==> AllMeasured(start)
  {
    hide Loaded, Saved, RereadAll, Starts, IsSession, After, Saveable;
    StartSaveable(start, raw, importable);
    if AllMeasured(start) {
      forall lists: seq<seq<Waypoint>>, edits: seq<Edit>, i: nat | IsSession(lists, edits) && i < |lists| && lists[0] == start
        ensures Loaded(Saved(lists[i]), importable) == Some(RereadAll(lists[i]))
      {
        SessionMeasured(lists, edits, i);
        SessionLoads(lists, edits, i, raw, importable);
      }
    } else {
      var k :| 0 <= k < |start| && !Measured(start[k]);
      SaveableInOrder(start, importable);
      var lists := SpoilingSession(start, k, start[k].pose);
      SessionLoads(lists, Spoiling(start, k, start[k].pose), 4, raw, importable);
    }
  }

  lemma SaveableInOrder(ws: seq<Waypoint>, importable: (Yaml, Yaml) -> bool)
    requires Saveable(ws, importable)
    ensures InOrder(ws)
  {
  }

  // ----- a file that loads, and does not load any more after Copy Next -----

  const BLANK_TOLERANCE := Waypoint(Whole(0), Pose(0.0, 0.0, 1.0, 0.0, 0.0, 0.0, 1.0), NavigationConfig(Float(0.5), Null, Bool(true)), [])

  lemma CopyCanSpoil(importable: (Yaml, Yaml) -> bool)
    ensures Loaded(Saved([BLANK_TOLERANCE]), importable) == Some([BLANK_TOLERANCE])
    ensures Loaded(Saved(After([BLANK_TOLERANCE], CopyNext(0))), importable) == None
  {
    hide Loaded, Saved;
    var l0 := [BLANK_TOLERANCE];
    var l1 := After(l0, CopyNext(0));
    InOrderLoads(l0, importable);
    assert RereadAll(l0) == l0;
    assert l1 == [BLANK_TOLERANCE, BLANK_TOLERANCE.(index := Whole(1))];
    InOrderLoads(l1, importable);
    assert !Comparable(l1[1]);
  }
}
