/** The latest time at which two frames are related: a second, separate walk over
    the graph of latest parents, looking for the lowest common ancestor. */
module LatestCommonTimes {
  import opened Forest

  const TIME_MAX: int := 0x7fff_ffff_ffff_ffff

  /** Latest stamp of each frame's edge to its latest parent; zero means "any time". */
  type Stamps = map<nat, int>

  function StampOf(w: Stamps, f: nat): int {
    if f in w then w[f] else 0
  }

  function MinStamp(time: int, stamp: int): int {
    if stamp != 0 && stamp < time then stamp else time
  }

  /** Minimum of time and the nonzero stamps of the first n edges above f. */
  function ChainMin(g: Graph, w: Stamps, f: nat, n: nat, time: int): int {
    if n == 0 then time else MinStamp(ChainMin(g, w, f, n - 1, time), StampOf(w, Anc(g, f, n - 1)))
  }

  function OrZero(time: int): int {
    if time == TIME_MAX then 0 else time
  }

  /** The time for the path that leaves s by i edges and t by j edges. */
  function PathTime(g: Graph, w: Stamps, s: nat, t: nat, i: nat, j: nat): int {
    OrZero(ChainMin(g, w, s, i, ChainMin(g, w, t, j, TIME_MAX)))
  }

  datatype Outcome = Ok(time: int) | Error(error: TF2Error)

  /** The first walk ends at the target, at the root of the source, or nowhere. */
  datatype Climb = AtTarget(n: nat) | AtRoot(n: nat) | Loop

  function ClimbLatest(g: Graph, target: nat, source: nat, n: nat): Climb
    requires n <= MAX_GRAPH_DEPTH
    decreases MAX_GRAPH_DEPTH - n
  {
    if Anc(g, source, n + 1) == 0 then AtRoot(n)
    else if Anc(g, source, n + 1) == target then AtTarget(n + 1)
    else if n == MAX_GRAPH_DEPTH then Loop
    else ClimbLatest(g, target, source, n + 1)
  }

  /** First position from i on at which frame p occurs among the n ancestors of s; 0 if it does not. */
  function PositionOf(g: Graph, s: nat, n: nat, p: nat, i: nat): nat
    requires 1 <= i <= n + 1
    decreases n + 1 - i
  {
    if i == n + 1 then 0
    else if Anc(g, s, i) == p then i
    else PositionOf(g, s, n, p, i + 1)
  }

  datatype Descent = Common(i: nat, j: nat) | AtSource(j: nat) | Unrelated | DescentLoop

  function ClimbToCommon(g: Graph, target: nat, source: nat, n: nat, m: nat): Descent
    requires m <= MAX_GRAPH_DEPTH
    decreases MAX_GRAPH_DEPTH - m
  {
    var p := Anc(g, target, m + 1);
    if p == 0 then Unrelated
    else if PositionOf(g, source, n, p, 1) != 0 then Common(PositionOf(g, source, n, p, 1), m + 1)
    else if p == source then AtSource(m + 1)
    else if m == MAX_GRAPH_DEPTH then DescentLoop
    else ClimbToCommon(g, target, source, n, m + 1)
  }

  /** getLatestCommonTime for two different existing frames */
  function LatestCommon(g: Graph, w: Stamps, target: nat, source: nat): Outcome {
    match ClimbLatest(g, target, source, 0)
    case AtTarget(n) => Ok(OrZero(ChainMin(g, w, source, n, TIME_MAX)))
    case Loop => Error(LookupError)
    case AtRoot(n) =>
      match ClimbToCommon(g, target, source, n, 0)
      case Common(i, j) => Ok(PathTime(g, w, source, target, i, j))
      case AtSource(j) => Ok(OrZero(ChainMin(g, w, target, j, TIME_MAX)))
      case Unrelated => Error(ConnectivityError)
      case DescentLoop => Error(LookupError)
  }

  // ----- the minimum -----

  /** f is the lower end of an edge on the path. */
  ghost predicate OnPath(g: Graph, s: nat, t: nat, i: nat, j: nat, f: nat) {
    (exists k: nat :: k < i && Anc(g, s, k) == f) || (exists k: nat :: k < j && Anc(g, t, k) == f)
  }

  ghost predicate Occurs(g: Graph, w: Stamps, f: nat, n: nat, stamp: int) {
    stamp != 0 && exists k: nat :: k < n && StampOf(w, Anc(g, f, k)) == stamp
  }

  lemma {:induction false} ChainMinBounds(g: Graph, w: Stamps, f: nat, n: nat, time: int)
    ensures ChainMin(g, w, f, n, time) <= time
    ensures forall k: nat :: k < n && StampOf(w, Anc(g, f, k)) != 0 ==> ChainMin(g, w, f, n, time) <= StampOf(w, Anc(g, f, k))
    ensures ChainMin(g, w, f, n, time) == time ||
            Occurs(g, w, f, n, ChainMin(g, w, f, n, time))
  {
    if n > 0 {
      ChainMinBounds(g, w, f, n - 1, time);
      var below, last := ChainMin(g, w, f, n - 1, time), StampOf(w, Anc(g, f, n - 1));
      if last != 0 && last < below {
        var k: nat := n - 1;
        assert k < n && StampOf(w, Anc(g, f, k)) == last != 0;
        assert Occurs(g, w, f, n, last);
      } else if below != time {
        assert Occurs(g, w, f, n, below);
      }
    }
  }

  /** PathTime is the smallest nonzero stamp over exactly the edges of the path, and zero when there is none. */
  lemma PathTimeIsMinimum(g: Graph, w: Stamps, s: nat, t: nat, i: nat, j: nat)
    requires forall f :: f in w ==> w[f] < TIME_MAX
    ensures var r := PathTime(g, w, s, t, i, j);
            && (r != 0 ==> exists f :: OnPath(g, s, t, i, j, f) && StampOf(w, f) == r)
            && (forall f :: OnPath(g, s, t, i, j, f) && StampOf(w, f) != 0 ==> r != 0 && r <= StampOf(w, f))
  {
    var m := ChainMin(g, w, t, j, TIME_MAX);
    var r := ChainMin(g, w, s, i, m);
    ChainMinBounds(g, w, t, j, TIME_MAX);
    ChainMinBounds(g, w, s, i, m);
    forall f: nat | OnPath(g, s, t, i, j, f) && StampOf(w, f) != 0
      ensures r <= StampOf(w, f) < TIME_MAX
    {
    }
    if r != TIME_MAX {
      if r == m {
        var k: nat :| k < j && StampOf(w, Anc(g, t, k)) == m;
        assert OnPath(g, s, t, i, j, Anc(g, t, k));
      } else {
        var k: nat :| k < i && StampOf(w, Anc(g, s, k)) == r;
        assert OnPath(g, s, t, i, j, Anc(g, s, k));
      }
    }
  }

  // ----- the lowest common ancestor -----

  lemma {:induction false} ClimbLatestSound(g: Graph, target: nat, source: nat, n: nat)
    requires n <= MAX_GRAPH_DEPTH && Anc(g, source, n) != 0 && target != 0
    requires forall k: nat :: 1 <= k <= n ==> Anc(g, source, k) != target
    ensures match ClimbLatest(g, target, source, n)
            case AtTarget(k) => k >= 1 && Anc(g, source, k) == target && Anc(g, source, k - 1) != 0
            case AtRoot(k) => Ends(g, source, k) && forall i: nat :: 1 <= i ==> Anc(g, source, i) != target
            case Loop => Anc(g, source, MAX_GRAPH_DEPTH + 1) != 0
    decreases MAX_GRAPH_DEPTH - n
  {
    if Anc(g, source, n + 1) == 0 {
      forall i: nat | i > n
        ensures Anc(g, source, i) == 0
      {
        AncStaysZero(g, source, n + 1, i);
      }
    } else if Anc(g, source, n + 1) != target && n < MAX_GRAPH_DEPTH {
      ClimbLatestSound(g, target, source, n + 1);
    }
  }

  lemma {:induction false} PositionOfFinds(g: Graph, s: nat, n: nat, p: nat, i: nat)
    requires 1 <= i <= n + 1
    ensures var k := PositionOf(g, s, n, p, i);
            if k == 0 then forall l: nat :: i <= l <= n ==> Anc(g, s, l) != p
            else i <= k <= n && Anc(g, s, k) == p
    decreases n + 1 - i
  {
    if i <= n && Anc(g, s, i) != p {
      PositionOfFinds(g, s, n, p, i + 1);
    }
  }

  /** The second walk stops exactly at the fork. */
  lemma {:induction false} ClimbToFork(g: Graph, target: nat, source: nat, n: nat, i: nat, j: nat, m: nat, e: nat)
    requires m < j && j <= MAX_GRAPH_DEPTH
    requires Ends(g, source, n) && Ends(g, target, e) && Forks(g, source, target, i, j)
    ensures ClimbToCommon(g, target, source, n, m) == if i == 0 then AtSource(j) else Common(i, j)
    decreases j - m
  {
    var p := Anc(g, target, m + 1);
    MeetAligned(g, source, target, n, e, i, j);
    EndsCuts(g, target, e, m + 1);
    PositionOfFinds(g, source, n, p, 1);
    var k := PositionOf(g, source, n, p, 1);
    if k != 0 {
      assert Meets(g, source, target, k, m + 1);
      ForkIsLowest(g, source, target, n, e, i, j, k, m + 1);
    } else if m + 1 == j {
      assert Anc(g, source, i) == p;
    } else {
      if p == source {
        assert Meets(g, source, target, 0, m + 1);
        ForkIsLowest(g, source, target, n, e, i, j, 0, m + 1);
      }
      ClimbToFork(g, target, source, n, i, j, m + 1, e);
    }
  }

  /** Without a common ancestor the second walk runs to the root of the target. */
  lemma {:induction false} ClimbToNothing(g: Graph, target: nat, source: nat, n: nat, m: nat, e: nat)
    requires m <= e <= MAX_GRAPH_DEPTH
    requires Ends(g, source, n) && Ends(g, target, e) && !Shares(g, source, target)
    ensures ClimbToCommon(g, target, source, n, m) == Unrelated
    decreases e - m
  {
    var p := Anc(g, target, m + 1);
    EndsCuts(g, target, e, m + 1);
    if p != 0 {
      PositionOfFinds(g, source, n, p, 1);
      var k := PositionOf(g, source, n, p, 1);
      assert !Meets(g, source, target, k, m + 1);
      assert !Meets(g, source, target, 0, m + 1);
      ClimbToNothing(g, target, source, n, m + 1, e);
    }
  }

  /** On a loop-free graph getLatestCommonTime answers for exactly the path over the lowest
      common ancestor, and reports missing connectivity exactly when there is none. */
  lemma LatestCommonIsPathTime(g: Graph, w: Stamps, target: nat, source: nat, n: nat, e: nat)
    requires source != 0 && target != 0 && source != target
    requires n <= MAX_GRAPH_DEPTH && Ends(g, source, n)
    requires e <= MAX_GRAPH_DEPTH && Ends(g, target, e)
    ensures !Shares(g, source, target) ==> LatestCommon(g, w, target, source) == Error(ConnectivityError)
    ensures forall i: nat, j: nat :: Forks(g, source, target, i, j) ==>
              LatestCommon(g, w, target, source) == Ok(PathTime(g, w, source, target, i, j))
  {
    ClimbLatestSound(g, target, source, 0);
    EndsCuts(g, source, n, MAX_GRAPH_DEPTH + 1);
    var c := ClimbLatest(g, target, source, 0);
    if c.AtRoot? {
      EndsOnce(g, source, n, c.n);
    }
    if !Shares(g, source, target) {
      assert c.AtTarget? ==> Meets(g, source, target, c.n, 0);
      ClimbToNothing(g, target, source, n, 0, e);
    }
    forall i: nat, j: nat | Forks(g, source, target, i, j)
      ensures LatestCommon(g, w, target, source) == Ok(PathTime(g, w, source, target, i, j))
    {
      LatestCommonAtFork(g, w, target, source, n, e, i, j);
    }
  }

  lemma LatestCommonAtFork(g: Graph, w: Stamps, target: nat, source: nat, n: nat, e: nat, i: nat, j: nat)
    requires source != 0 && target != 0 && source != target
    requires n <= MAX_GRAPH_DEPTH && Ends(g, source, n)
    requires e <= MAX_GRAPH_DEPTH && Ends(g, target, e)
    requires Forks(g, source, target, i, j)
    ensures LatestCommon(g, w, target, source) == Ok(PathTime(g, w, source, target, i, j))
  {
    ClimbLatestSound(g, target, source, 0);
    EndsCuts(g, source, n, MAX_GRAPH_DEPTH + 1);
    var c := ClimbLatest(g, target, source, 0);
    MeetAligned(g, source, target, n, e, i, j);
    if c.AtTarget? {
      assert Meets(g, source, target, c.n, 0);
      ForkIsLowest(g, source, target, n, e, i, j, c.n, 0);
    } else {
      EndsOnce(g, source, n, c.n);
      assert j > 0;
      ClimbToFork(g, target, source, n, i, j, 0, e);
    }
  }

  // ----- later times -----

  /** h has no edge that g does not have. */
  ghost predicate Subgraph(h: Graph, g: Graph) {
    forall f: nat :: Up(h, f) == 0 || Up(h, f) == Up(g, f)
  }

  lemma {:induction false} SubgraphAnc(h: Graph, g: Graph, f: nat, n: nat)
    requires Subgraph(h, g) && Anc(h, f, n) != 0
    ensures Anc(g, f, n) == Anc(h, f, n)
    ensures forall k: nat :: k < n ==> Up(h, Anc(g, f, k)) != 0
    decreases n
  {
    if n > 0 {
      assert Anc(h, f, n - 1) != 0;
      SubgraphAnc(h, g, f, n - 1);
    }
  }

  /** Without an edge of the path, a subgraph of a forest does not relate the two frames. */
  lemma BrokenPathUnrelated(h: Graph, g: Graph, s: nat, t: nat, n: nat, m: nat, i: nat, j: nat, f: nat)
    requires Subgraph(h, g)
    requires Ends(g, s, n) && Ends(g, t, m) && Forks(g, s, t, i, j)
    requires OnPath(g, s, t, i, j, f) && Up(h, f) == 0
    ensures !Shares(h, s, t)
  {
    if i': nat, j': nat :| Meets(h, s, t, i', j') {
      SubgraphAnc(h, g, s, i');
      SubgraphAnc(h, g, t, j');
      assert Meets(g, s, t, i', j');
      ForkIsLowest(g, s, t, n, m, i, j, i', j');
      assert false;
    }
  }

  /** A subgraph that has lost every edge with the latest common time r no longer relates the two frames. */
  lemma LaterUnrelated(h: Graph, g: Graph, w: Stamps, target: nat, source: nat, r: int)
    requires source != 0 && target != 0 && source != target
    requires Shallow(g, source) && Shallow(g, target)
    requires forall f :: f in w ==> w[f] < TIME_MAX
    requires LatestCommon(g, w, target, source) == Ok(r) && r != 0
    requires Subgraph(h, g) && forall f: nat :: StampOf(w, f) == r ==> Up(h, f) == 0
    ensures !Shares(h, source, target)
  {
    var n: nat :| n <= MAX_GRAPH_DEPTH && Ends(g, source, n);
    var e: nat :| e <= MAX_GRAPH_DEPTH && Ends(g, target, e);
    hide Anc, LatestCommon, PathTime, Ends, Up, OnPath;
    LatestCommonIsPathTime(g, w, target, source, n, e);
    var i0: nat, j0: nat :| Meets(g, source, target, i0, j0);
    var i, j := ForkExists(g, source, target, i0, j0);
    PathTimeIsMinimum(g, w, source, target, i, j);
    var f: nat :| OnPath(g, source, target, i, j, f) && StampOf(w, f) == r;
    BrokenPathUnrelated(h, g, source, target, n, e, i, j, f);
  }
}
