/** Parent graphs and the two-phase walk of tf2 on them.

    A graph maps the frames that have one to their parent, and 0 stands for "none".
    Nothing says that it is a forest: the walk has to cope with loops. */
module Forest {

  type Graph = map<nat, nat>

  const MAX_GRAPH_DEPTH: nat := 1000

  function Up(g: Graph, f: nat): nat {
    if f != 0 && f in g then g[f] else 0
  }

  /** The frame n edges above f; 0 when the chain is shorter than that. */
  function Anc(g: Graph, f: nat, n: nat): nat {
    if n == 0 then f else Up(g, Anc(g, f, n - 1))
  }

  /** The chain above f has exactly n edges. */
  ghost predicate Ends(g: Graph, f: nat, n: nat) {
    Anc(g, f, n) != 0 && Anc(g, f, n + 1) == 0
  }

  /** No loop above f, and the chain is within the depth limit. */
  ghost predicate Shallow(g: Graph, f: nat) {
    exists n: nat :: n <= MAX_GRAPH_DEPTH && Ends(g, f, n)
  }

  /** The chains of s and t pass through one frame, after i and j edges. */
  ghost predicate Meets(g: Graph, s: nat, t: nat, i: nat, j: nat) {
    Anc(g, s, i) == Anc(g, t, j) != 0
  }

  /** s and t have a common ancestor-or-self. */
  ghost predicate Shares(g: Graph, s: nat, t: nat) {
    exists i: nat, j: nat :: Meets(g, s, t, i, j)
  }

  /** They meet there for the first time: i edges from s and j edges from t are the path between them. */
  ghost predicate Forks(g: Graph, s: nat, t: nat, i: nat, j: nat) {
    && Meets(g, s, t, i, j)
    && (i == 0 || j == 0 || Anc(g, s, i - 1) != Anc(g, t, j - 1))
  }

  // ----- chains -----

  lemma {:induction false} AncAdd(g: Graph, f: nat, n: nat, m: nat)
    ensures Anc(g, Anc(g, f, n), m) == Anc(g, f, n + m)
  {
    if m > 0 {
      AncAdd(g, f, n, m - 1);
    }
  }

  lemma {:induction false} AncStaysZero(g: Graph, f: nat, n: nat, m: nat)
    requires n <= m && Anc(g, f, n) == 0
    ensures Anc(g, f, m) == 0
    decreases m
  {
    if n < m {
      AncStaysZero(g, f, n, m - 1);
    }
  }

  lemma EndsCuts(g: Graph, f: nat, n: nat, k: nat)
    requires Ends(g, f, n)
    ensures Anc(g, f, k) != 0 <==> k <= n
  {
    if k <= n && Anc(g, f, k) == 0 {
      AncStaysZero(g, f, k, n);
    }
    if n < k {
      AncStaysZero(g, f, n + 1, k);
    }
  }

  lemma EndsFrom(g: Graph, f: nat, n: nat, k: nat)
    requires Ends(g, f, n) && k <= n
    ensures Ends(g, Anc(g, f, k), n - k)
  {
    AncAdd(g, f, k, n - k);
    AncAdd(g, f, k, n - k + 1);
  }

  lemma EndsOnce(g: Graph, f: nat, n: nat, m: nat)
    requires Ends(g, f, n) && Ends(g, f, m)
    ensures n == m
  {
    EndsCuts(g, f, n, m);
    EndsCuts(g, f, m, n);
  }

  /** In a forest, chains that meet continue together: the distances to the root agree. */
  lemma MeetAligned(g: Graph, s: nat, t: nat, n: nat, m: nat, i: nat, j: nat)
    requires Ends(g, s, n) && Ends(g, t, m) && Meets(g, s, t, i, j)
    ensures i <= n && j <= m && n - i == m - j
    ensures Anc(g, s, n) == Anc(g, t, m)
  {
    hide *;
    MeetIs(g, s, t, i, j);
    EndsCuts(g, s, n, i);
    EndsCuts(g, t, m, j);
    EndsFrom(g, s, n, i);
    EndsFrom(g, t, m, j);
    EndsOnce(g, Anc(g, s, i), n - i, m - j);
    AncAdd(g, s, i, n - i);
    AncAdd(g, t, j, m - j);
  }

  lemma MeetIs(g: Graph, s: nat, t: nat, i: nat, j: nat)
    requires Meets(g, s, t, i, j)
    ensures Anc(g, s, i) == Anc(g, t, j) != 0
  {
  }

  lemma SharesRoot(g: Graph, s: nat, t: nat, n: nat, m: nat)
    requires Ends(g, s, n) && Ends(g, t, m)
    ensures Shares(g, s, t) <==> Anc(g, s, n) == Anc(g, t, m)
  {
    if i: nat, j: nat :| Meets(g, s, t, i, j) {
      MeetAligned(g, s, t, n, m, i, j);
    }
    if Anc(g, s, n) == Anc(g, t, m) {
      assert Meets(g, s, t, n, m);
    }
  }

  /** Any meeting point lies at or above the fork, equally far on both sides. */
  lemma ForkIsLowest(g: Graph, s: nat, t: nat, n: nat, m: nat, i: nat, j: nat, i': nat, j': nat)
    requires Ends(g, s, n) && Ends(g, t, m)
    requires Forks(g, s, t, i, j) && Meets(g, s, t, i', j')
    ensures i <= i' && j <= j' && i' - i == j' - j
  {
    hide Anc;
    MeetAligned(g, s, t, n, m, i, j);
    MeetAligned(g, s, t, n, m, i', j');
    if i' < i {
      AncAdd(g, s, i', i - 1 - i');
      AncAdd(g, t, j', j - 1 - j');
      assert false;
    }
  }

  lemma {:induction false} ForkExists(g: Graph, s: nat, t: nat, i: nat, j: nat) returns (i': nat, j': nat)
    requires Meets(g, s, t, i, j)
    ensures i' <= i && j' <= j && Forks(g, s, t, i', j')
    decreases i
  {
    if i == 0 || j == 0 || Anc(g, s, i - 1) != Anc(g, t, j - 1) {
      return i, j;
    } else {
      i', j' := ForkExists(g, s, t, i - 1, j - 1);
    }
  }

  // ----- the walk -----

  datatype WalkEnding = Identity | TargetParentOfSource | SourceParentOfTarget | FullPath

  datatype TF2Error = NoError | LookupError | ConnectivityError | ExtrapolationError

  /** up and down are the numbers of edges accumulated on the source and on the target side. */
  datatype WalkResult = Connected(ending: WalkEnding, up: nat, down: nat) | Failed(error: TF2Error)

  datatype SourceClimb = MetTarget(n: nat) | Top(top: nat, n: nat, extrapolated: bool) | SourceLoop

  datatype TargetClimb = MetTop(n: nat) | MetSource(n: nat) | Stopped(extrapolated: bool) | TargetLoop

  /** The first walk, n edges above the source.  A frame without a parent may have a
      cache that does not cover the time: that is a possible extrapolation. */
  function ClimbSource(g: Graph, cached: set<nat>, target: nat, source: nat, n: nat): SourceClimb
    requires n <= MAX_GRAPH_DEPTH
    decreases MAX_GRAPH_DEPTH - n
  {
    var f := Anc(g, source, n);
    if Up(g, f) == 0 then Top(f, n, f in cached)
    else if f == target then MetTarget(n)
    else if n == MAX_GRAPH_DEPTH then SourceLoop
    else ClimbSource(g, cached, target, source, n + 1)
  }

  function ClimbTarget(g: Graph, cached: set<nat>, target: nat, source: nat, top: nat, n: nat): TargetClimb
    requires n <= MAX_GRAPH_DEPTH
    decreases MAX_GRAPH_DEPTH - n
  {
    var f := Anc(g, target, n);
    if f == top then MetTop(n)
    else if Up(g, f) == 0 then Stopped(f in cached)
    else if f == source then MetSource(n)
    else if n == MAX_GRAPH_DEPTH then TargetLoop
    else ClimbTarget(g, cached, target, source, top, n + 1)
  }

  function Walk(g: Graph, cached: set<nat>, target: nat, source: nat): WalkResult {
    if source == target then Connected(Identity, 0, 0)
    else
      match ClimbSource(g, cached, target, source, 0)
      case MetTarget(n) => Connected(TargetParentOfSource, n, 0)
      case SourceLoop => Failed(LookupError)
      case Top(top, n, extrapolated) =>
        match ClimbTarget(g, cached, target, source, top, 0)
        case MetTop(m) => Connected(FullPath, n, m)
        case MetSource(m) => Connected(SourceParentOfTarget, 0, m)
        case TargetLoop => Failed(LookupError)
        case Stopped(extrapolated') =>
          Failed(if extrapolated || extrapolated' then ExtrapolationError else ConnectivityError)
  }

  lemma {:induction false} ClimbSourceSound(g: Graph, cached: set<nat>, target: nat, source: nat, n: nat)
    requires n <= MAX_GRAPH_DEPTH && Anc(g, source, n) != 0
    ensures match ClimbSource(g, cached, target, source, n)
            case MetTarget(k) => n <= k <= MAX_GRAPH_DEPTH && Anc(g, source, k) == target != 0
            case Top(top, k, ex) => n <= k <= MAX_GRAPH_DEPTH && top == Anc(g, source, k) && Ends(g, source, k) && (ex <==> top in cached)
            case SourceLoop => Anc(g, source, MAX_GRAPH_DEPTH + 1) != 0
    decreases MAX_GRAPH_DEPTH - n
  {
    var f := Anc(g, source, n);
    if Up(g, f) != 0 && f != target && n < MAX_GRAPH_DEPTH {
      ClimbSourceSound(g, cached, target, source, n + 1);
    }
  }

  lemma {:induction false} ClimbTargetSound(g: Graph, cached: set<nat>, target: nat, source: nat, top: nat, n: nat)
    requires n <= MAX_GRAPH_DEPTH && Anc(g, target, n) != 0
    ensures match ClimbTarget(g, cached, target, source, top, n)
            case MetTop(k) => n <= k <= MAX_GRAPH_DEPTH && Anc(g, target, k) == top
            case MetSource(k) => n <= k <= MAX_GRAPH_DEPTH && Anc(g, target, k) == source
            case Stopped(ex) => exists k: nat :: n <= k <= MAX_GRAPH_DEPTH && Ends(g, target, k) && Anc(g, target, k) != top && (ex <==> Anc(g, target, k) in cached)
            case TargetLoop => Anc(g, target, MAX_GRAPH_DEPTH + 1) != 0
    decreases MAX_GRAPH_DEPTH - n
  {
    var f := Anc(g, target, n);
    if f != top && Up(g, f) == 0 {
      assert Ends(g, target, n);
    } else if f != top && f != source && n < MAX_GRAPH_DEPTH {
      ClimbTargetSound(g, cached, target, source, top, n + 1);
    }
  }

  /** On every graph, loops included: a walk that succeeds has found a common ancestor,
      and neither side climbed more than the depth limit. */
  lemma WalkSound(g: Graph, cached: set<nat>, target: nat, source: nat)
    requires source != 0 && target != 0
    ensures var w := Walk(g, cached, target, source);
            w.Connected? ==>
              && Meets(g, source, target, w.up, w.down)
              && w.up <= MAX_GRAPH_DEPTH && w.down <= MAX_GRAPH_DEPTH
    ensures Walk(g, cached, target, source) == Failed(LookupError) ==> !Shallow(g, source) || !Shallow(g, target)
  {
    ClimbSourceSound(g, cached, target, source, 0);
    var c := ClimbSource(g, cached, target, source, 0);
    if c.Top? {
      ClimbTargetSound(g, cached, target, source, c.top, 0);
    }
    forall f: nat | Anc(g, f, MAX_GRAPH_DEPTH + 1) != 0
      ensures !Shallow(g, f)
    {
      forall n: nat | n <= MAX_GRAPH_DEPTH
        ensures !Ends(g, f, n)
      {
        if Ends(g, f, n) {
          EndsCuts(g, f, n, MAX_GRAPH_DEPTH + 1);
        }
      }
    }
  }

  /** Where the two walks end when the chains do. */
  lemma ClimbsEnd(g: Graph, cached: set<nat>, target: nat, source: nat, n: nat, m: nat)
    requires source != 0 && target != 0
    requires n <= MAX_GRAPH_DEPTH && Ends(g, source, n)
    requires m <= MAX_GRAPH_DEPTH && Ends(g, target, m)
    ensures var p, q := Anc(g, source, n), Anc(g, target, m);
            var c, d := ClimbSource(g, cached, target, source, 0), ClimbTarget(g, cached, target, source, p, 0);
            && (c.MetTarget? || c == Top(p, n, p in cached))
            && (d.MetTop? || d.MetSource? || (d == Stopped(q in cached) && p != q))
  {
    ClimbSourceSound(g, cached, target, source, 0);
    var c := ClimbSource(g, cached, target, source, 0);
    EndsCuts(g, source, n, MAX_GRAPH_DEPTH + 1);
    if c.Top? {
      EndsOnce(g, source, n, c.n);
    }
    var p := Anc(g, source, n);
    ClimbTargetSound(g, cached, target, source, p, 0);
    EndsCuts(g, target, m, MAX_GRAPH_DEPTH + 1);
    var d := ClimbTarget(g, cached, target, source, p, 0);
    if d.Stopped? {
      var k: nat :| k <= MAX_GRAPH_DEPTH && Ends(g, target, k) && Anc(g, target, k) != p && (d.extrapolated <==> Anc(g, target, k) in cached);
      EndsOnce(g, target, m, k);
    }
  }

  /** Without loops the walk decides connectedness, and its error tells why it failed:
      connectivity exactly when both chains end in distinct roots that have no cache. */
  lemma WalkDecides(g: Graph, cached: set<nat>, target: nat, source: nat, n: nat, m: nat)
    requires source != 0 && target != 0
    requires n <= MAX_GRAPH_DEPTH && Ends(g, source, n)
    requires m <= MAX_GRAPH_DEPTH && Ends(g, target, m)
    ensures var w := Walk(g, cached, target, source);
            var p, q := Anc(g, source, n), Anc(g, target, m);
            && (w.Connected? <==> Shares(g, source, target))
            && (w == Failed(ConnectivityError) <==> p != q && p !in cached && q !in cached)
            && (w == Failed(ExtrapolationError) <==> p != q && (p in cached || q in cached))
  {
    hide *;
    ClimbsEnd(g, cached, target, source, n, m);
    SharesRoot(g, source, target, n, m);
    WalkSound(g, cached, target, source);
    var w := Walk(g, cached, target, source);
    if w.Connected? {
      MeetAligned(g, source, target, n, m, w.up, w.down);
    }
    WalkFailure(g, cached, target, source);
  }

  lemma WalkFailure(g: Graph, cached: set<nat>, target: nat, source: nat)
    ensures var c := ClimbSource(g, cached, target, source, 0);
            var w := Walk(g, cached, target, source);
            w.Failed? ==>
              && source != target && !c.MetTarget?
              && (c.Top? ==>
                    var d := ClimbTarget(g, cached, target, source, c.top, 0);
                    && !d.MetTop? && !d.MetSource?
                    && (d.Stopped? ==> w.error == if c.extrapolated || d.extrapolated then ExtrapolationError else ConnectivityError))
  {
  }
}
