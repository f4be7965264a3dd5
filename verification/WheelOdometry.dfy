/** Wheel odometry correction, twice: the incremental corrector that runs on the robot and
    wraps its angle at every step, and the batch integrator of the calibration tool that works
    on unwrapped angles. */
module WheelOdometry {
  import opened Options
  import opened Planar

  datatype Pose = Pose(x: real, y: real, yaw: real)

  datatype Gains = Gains(kV: real, kW: real, bias: real)

  const UNIT_GAINS := Gains(1.0, 1.0, 0.0)

  function Position(p: Pose): Vector {
    Vector(p.x, p.y)
  }

  // ----- the incremental corrector -----

  datatype Corrector = Corrector(prevRaw: Option<Pose>, pose: Pose, wasReset: bool)

  const FRESH := Corrector(None, Pose(0.0, 0.0, 0.0), true)

  /** hypot(dx, dy) > limit */
  predicate Jumped(d: Vector, limit: real) {
    limit < 0.0 || d.x * d.x + d.y * d.y > limit * limit
  }

  /** An increment in the body frame at the middle of the step */
  datatype Step = Step(move: Vector, dyaw: real)

  /** The increment from p to q when the heading changes by dyaw */
  function BodyStep(o: Circle, p: Pose, q: Pose, dyaw: real): Step {
    Step(Turn(Back(o.rot(p.yaw + 0.5 * dyaw)), Sub(Position(q), Position(p))), dyaw)
  }

  function Corrected(g: Gains, s: Step): Step {
    var move := Scale(g.kV, s.move);
    Step(move, g.kW * s.dyaw + g.bias * move.x)
  }

  /** Moves a pose by an increment, without wrapping */
  function Moved(o: Circle, p: Pose, s: Step): Pose {
    var v := Add(Position(p), Turn(o.rot(p.yaw + 0.5 * s.dyaw), s.move));
    Pose(v.x, v.y, p.yaw + s.dyaw)
  }

  predicate Resets(c: Corrector, limit: real, raw: Pose) {
    c.prevRaw.None? || Jumped(Sub(Position(raw), Position(c.prevRaw.value)), limit)
  }

  function Updated(o: Circle, g: Gains, limit: real, c: Corrector, raw: Pose): Corrector
    requires o.pi != 0.0
  {
    if Resets(c, limit, raw) then Corrector(Some(raw), raw, true)
    else
      var prev := c.prevRaw.value;
      var s := Corrected(g, BodyStep(o, prev, raw, WrapAngle(o, raw.yaw - prev.yaw)));
      var p := Moved(o, c.pose, s);
      Corrector(Some(raw), p.(yaw := WrapAngle(o, p.yaw)), false)
  }

  class OdomCorrector {
    var kV: real
    var kW: real
    var yawBiasPerMeter: real
    var resetJump: real
    var prevRaw: Option<Pose>
    var pose: Pose
    var wasReset: bool

    constructor (kV: real, kW: real, yawBiasPerMeter: real, resetJump: real)
      ensures State() == FRESH && CurrentGains() == Gains(kV, kW, yawBiasPerMeter) && this.resetJump == resetJump
    {
      this.kV, this.kW, this.yawBiasPerMeter, this.resetJump := kV, kW, yawBiasPerMeter, resetJump;
      prevRaw, pose, wasReset := None, Pose(0.0, 0.0, 0.0), true;
    }

    ghost function State(): Corrector
      reads this
    {
      Corrector(prevRaw, pose, wasReset)
    }

    ghost function CurrentGains(): Gains
      reads this
    {
      Gains(kV, kW, yawBiasPerMeter)
    }

    method Update(o: Circle, raw: Pose) returns (out: Pose)
      requires o.pi != 0.0
      modifies this`prevRaw, this`pose, this`wasReset
      ensures State() == Updated(o, CurrentGains(), resetJump, old(State()), raw)
      ensures out == pose
    {
      hide Turn, Back, Scale, WrapAngle, Jumped;
      wasReset := false;
      if prevRaw.None? {
        prevRaw, pose, wasReset := Some(raw), raw, true;
        return pose;
      }
      var prev := prevRaw.value;
      prevRaw := Some(raw);
      var dx, dy := raw.x - prev.x, raw.y - prev.y;
      if Jumped(Vector(dx, dy), resetJump) {
        pose, wasReset := raw, true;
        return pose;
      }
      var dyaw := WrapAngle(o, raw.yaw - prev.yaw);
      // the raw increment in the body frame at the middle of the step
      ghost var step := BodyStep(o, prev, raw, dyaw);
      assert step == Step(Turn(Back(o.rot(prev.yaw + 0.5 * dyaw)), Vector(dx, dy)), dyaw);
      var move := Scale(kV, Turn(Back(o.rot(prev.yaw + 0.5 * dyaw)), Vector(dx, dy)));
      dyaw := kW * dyaw + yawBiasPerMeter * move.x;
      assert Corrected(CurrentGains(), step) == Step(move, dyaw);
      var turned := Turn(o.rot(pose.yaw + 0.5 * dyaw), move);
      ghost var p := Moved(o, pose, Step(move, dyaw));
      assert p == Pose(pose.x + turned.x, pose.y + turned.y, pose.yaw + dyaw);
      assert !Resets(old(State()), resetJump, raw);
      assert Updated(o, CurrentGains(), resetJump, old(State()), raw) == Corrector(Some(raw), p.(yaw := WrapAngle(o, p.yaw)), false);
      pose := Pose(pose.x + turned.x, pose.y + turned.y, WrapAngle(o, pose.yaw + dyaw));
      return pose;
    }
  }

  // ----- the batch integrator -----

  /** The increments along a list of poses with unwrapped angles */
  function StepsOf(o: Circle, ps: seq<Pose>): seq<Step>
    requires ps != []
  {
    seq(|ps| - 1, i requires 0 <= i < |ps| - 1 => BodyStep(o, ps[i], ps[i + 1], ps[i + 1].yaw - ps[i].yaw))
  }

  /** cumsum of the corrected turns: the heading after n steps */
  function YawAfter(g: Gains, steps: seq<Step>, n: nat): real
    requires n <= |steps|
  {
    if n == 0 then 0.0 else YawAfter(g, steps, n - 1) + Corrected(g, steps[n - 1]).dyaw
  }

  /** The sum of the corrected moves of the first n steps, each turned to the heading at its middle */
  function MoveAfter(o: Circle, g: Gains, steps: seq<Step>, n: nat): Vector
    requires n <= |steps|
  {
    if n == 0 then Vector(0.0, 0.0)
    else
      var s := Corrected(g, steps[n - 1]);
      var mid := YawAfter(g, steps, n) - s.dyaw + 0.5 * s.dyaw;
      Add(MoveAfter(o, g, steps, n - 1), Turn(o.rot(mid), s.move))
  }

  function PoseAfter(o: Circle, g: Gains, steps: seq<Step>, n: nat): Pose
    requires n <= |steps|
  {
    var v := MoveAfter(o, g, steps, n);
    Pose(v.x, v.y, YawAfter(g, steps, n))
  }

  /** integrate: the end pose in the frame of the start */
  function Integrated(o: Circle, g: Gains, steps: seq<Step>): Pose {
    PoseAfter(o, g, steps, |steps|)
  }

  /** The loop form of the cumulative sums */
  method Integrate(o: Circle, g: Gains, steps: seq<Step>) returns (end: Pose)
    ensures end == Integrated(o, g, steps)
  {
    var v, yaw := Vector(0.0, 0.0), 0.0;
    for n := 0 to |steps|
      invariant v == MoveAfter(o, g, steps, n) && yaw == YawAfter(g, steps, n)
    {
      var s := Corrected(g, steps[n]);
      yaw := yaw + s.dyaw;
      v := Add(v, Turn(o.rot(yaw - s.dyaw + 0.5 * s.dyaw), s.move));
    }
    end := Pose(v.x, v.y, yaw);
  }

  // ----- they agree -----

  /** Feeds raw poses to the corrector, one after the other */
  function RunCorrector(o: Circle, g: Gains, limit: real, c: Corrector, raws: seq<Pose>): Corrector
    requires o.pi != 0.0
  {
    if raws == [] then c
    else Updated(o, g, limit, RunCorrector(o, g, limit, c, raws[..|raws| - 1]), raws[|raws| - 1])
  }

  /** us are the raw poses with the angles unwrapped: equal up to full turns, and no step turns by half a turn. */
  ghost predicate Unwraps(o: Circle, raws: seq<Pose>, us: seq<Pose>) {
    && |us| == |raws|
    && (forall i :: 0 <= i < |raws| ==> Position(us[i]) == Position(raws[i]) && Same(o, raws[i].yaw, us[i].yaw))
    && (forall i :: 0 <= i < |raws| - 1 ==> -o.pi < us[i + 1].yaw - us[i].yaw < o.pi)
  }

  ghost predicate NoJump(raws: seq<Pose>, limit: real) {
    forall i :: 0 <= i < |raws| - 1 ==> !Jumped(Sub(Position(raws[i + 1]), Position(raws[i])), limit)
  }

  /** The pose is start composed with (move, yaw), the heading up to full turns. */
  ghost predicate IsMoved(o: Circle, start: Pose, move: Vector, yaw: real, p: Pose) {
    && Position(p) == Add(Position(start), Turn(o.rot(start.yaw), move))
    && Same(o, p.yaw, start.yaw + yaw)
  }

  /** The corrector sees the same increment as the batch tool. */
  lemma SameBodyStep(o: Circle, p: Pose, q: Pose, p': Pose, q': Pose)
    requires Laws(o)
    requires Position(p) == Position(p') && Position(q) == Position(q')
    requires Same(o, p.yaw, p'.yaw) && Same(o, q.yaw, q'.yaw) && -o.pi < q'.yaw - p'.yaw < o.pi
    ensures BodyStep(o, p, q, WrapAngle(o, q.yaw - p.yaw)) == BodyStep(o, p', q', q'.yaw - p'.yaw)
  {
    hide *;
    var d := q'.yaw - p'.yaw;
    PiPositive(o);
    SameSum(o, q.yaw, q'.yaw, p.yaw, p'.yaw);
    WrapUnique(o, q.yaw - p.yaw, d);
    SameSelf(o, 0.5 * d);
    SameSum(o, p.yaw, p'.yaw, 0.5 * d, 0.5 * d);
    SameRot(o, p.yaw + 0.5 * d, p'.yaw + 0.5 * d);
    BodyStepBy(o, p, q, p', q', d);
  }

  lemma PiPositive(o: Circle)
    requires Laws(o)
    ensures o.pi > 0.0
  {
  }

  lemma BodyStepBy(o: Circle, p: Pose, q: Pose, p': Pose, q': Pose, d: real)
    requires Position(p) == Position(p') && Position(q) == Position(q')
    requires o.rot(p.yaw + 0.5 * d) == o.rot(p'.yaw + 0.5 * d)
    ensures BodyStep(o, p, q, d) == BodyStep(o, p', q', d)
  {
    hide Turn, Back;
  }

  /** One corrected step extends the integrated pose. */
  lemma MovedExtends(o: Circle, start: Pose, move: Vector, yaw: real, p: Pose, s: Step)
    requires Laws(o) && IsMoved(o, start, move, yaw, p)
    ensures IsMoved(o, start, Add(move, Turn(o.rot(yaw + 0.5 * s.dyaw), s.move)), yaw + s.dyaw, Moved(o, p, s))
  {
    var mid := yaw + 0.5 * s.dyaw;
    var r, m := o.rot(start.yaw), o.rot(mid);
    hide Laws, Same, Turn, Mul;
    SameSelf(o, s.dyaw);
    SameSum(o, p.yaw, start.yaw + yaw, s.dyaw, s.dyaw);
    SameSelf(o, 0.5 * s.dyaw);
    SameSum(o, p.yaw, start.yaw + yaw, 0.5 * s.dyaw, 0.5 * s.dyaw);
    assert start.yaw + yaw + 0.5 * s.dyaw == start.yaw + mid;
    assert start.yaw + yaw + s.dyaw == start.yaw + (yaw + s.dyaw);
    SameRot(o, p.yaw + 0.5 * s.dyaw, start.yaw + mid);
    RotSum(o, start.yaw, mid);
    TurnMul(r, m, s.move);
    TurnAdd(r, move, Turn(m, s.move));
  }

  lemma WrapKeepsMoved(o: Circle, start: Pose, move: Vector, yaw: real, p: Pose)
    requires o.pi > 0.0 && IsMoved(o, start, move, yaw, p)
    ensures IsMoved(o, start, move, yaw, p.(yaw := WrapAngle(o, p.yaw)))
  {
    WrapIsSame(o, p.yaw);
    SameTrans(o, WrapAngle(o, p.yaw), p.yaw, start.yaw + yaw);
  }

  lemma IntegrateStep(o: Circle, g: Gains, steps: seq<Step>, n: nat)
    requires n < |steps|
    ensures YawAfter(g, steps, n + 1) == YawAfter(g, steps, n) + Corrected(g, steps[n]).dyaw
    ensures var s := Corrected(g, steps[n]);
            MoveAfter(o, g, steps, n + 1) == Add(MoveAfter(o, g, steps, n), Turn(o.rot(YawAfter(g, steps, n) + 0.5 * s.dyaw), s.move))
  {
    hide Turn, Corrected;
    var s := Corrected(g, steps[n]);
    var y := YawAfter(g, steps, n);
    assert YawAfter(g, steps, n + 1) - s.dyaw + 0.5 * s.dyaw == y + 0.5 * s.dyaw;
  }

  /** The state of the corrector after n + 1 raw poses */
  ghost predicate Follows(o: Circle, g: Gains, raws: seq<Pose>, us: seq<Pose>, n: nat, c: Corrector)
    requires n < |raws| == |us|
  {
    && c.prevRaw == Some(raws[n])
    && IsMoved(o, raws[0], MoveAfter(o, g, StepsOf(o, us), n), YawAfter(g, StepsOf(o, us), n), c.pose)
  }

  lemma FollowsFirst(o: Circle, g: Gains, limit: real, raws: seq<Pose>, us: seq<Pose>)
    requires Laws(o) && |raws| == |us| && raws != []
    ensures Follows(o, g, raws, us, 0, Updated(o, g, limit, FRESH, raws[0]))
  {
    var p := raws[0];
    SameSelf(o, p.yaw);
    hide Laws, Same, Turn;
    TurnNothing(o.rot(p.yaw));
    assert Position(p) == Add(Position(p), Vector(0.0, 0.0));
    assert p.yaw + 0.0 == p.yaw;
  }

  lemma TurnNothing(r: Rotation)
    ensures Turn(r, Vector(0.0, 0.0)) == Vector(0.0, 0.0)
  {
  }

  lemma FollowsNext(o: Circle, g: Gains, limit: real, raws: seq<Pose>, us: seq<Pose>, n: nat, c: Corrector)
    requires Laws(o) && Unwraps(o, raws, us) && NoJump(raws, limit) && n + 1 < |raws|
    requires Follows(o, g, raws, us, n, c)
    ensures Follows(o, g, raws, us, n + 1, Updated(o, g, limit, c, raws[n + 1]))
  {
    hide Laws, Same, Turn, Back, WrapAngle, Corrected, IsMoved, Moved, BodyStep, Jumped, Unwraps, NoJump, Updated, YawAfter, MoveAfter, Position, Resets;
    NextRaw(o, limit, raws, us, n, c);
    var steps := StepsOf(o, us);
    var s := Corrected(g, steps[n]);
    UpdatedIs(o, g, limit, c, raws[n + 1]);
    SameBodyStep(o, raws[n], raws[n + 1], us[n], us[n + 1]);
    IntegrateStep(o, g, steps, n);
    MovedExtends(o, raws[0], MoveAfter(o, g, steps, n), YawAfter(g, steps, n), c.pose, s);
    WrapKeepsMoved(o, raws[0], MoveAfter(o, g, steps, n + 1), YawAfter(g, steps, n + 1), Moved(o, c.pose, s));
  }

  lemma NextRaw(o: Circle, limit: real, raws: seq<Pose>, us: seq<Pose>, n: nat, c: Corrector)
    requires Laws(o) && Unwraps(o, raws, us) && NoJump(raws, limit) && n + 1 < |raws| && c.prevRaw == Some(raws[n])
    ensures |raws| == |us| && Unwrapped(o, raws, us, n) && !Resets(c, limit, raws[n + 1]) && o.pi > 0.0
  {
    hide Jumped, Same;
  }

  lemma UpdatedIs(o: Circle, g: Gains, limit: real, c: Corrector, raw: Pose)
    requires o.pi != 0.0 && !Resets(c, limit, raw)
    ensures var prev := c.prevRaw.value;
            var p := Moved(o, c.pose, Corrected(g, BodyStep(o, prev, raw, WrapAngle(o, raw.yaw - prev.yaw))));
            Updated(o, g, limit, c, raw) == Corrector(Some(raw), p.(yaw := WrapAngle(o, p.yaw)), false)
  {
    hide Turn, Back, WrapAngle, Corrected, Moved, BodyStep;
  }

  ghost predicate Unwrapped(o: Circle, raws: seq<Pose>, us: seq<Pose>, n: nat)
    requires n + 1 < |raws| == |us|
  {
    && Position(raws[n]) == Position(us[n]) && Position(raws[n + 1]) == Position(us[n + 1])
    && Same(o, raws[n].yaw, us[n].yaw) && Same(o, raws[n + 1].yaw, us[n + 1].yaw)
    && -o.pi < us[n + 1].yaw - us[n].yaw < o.pi
  }

  lemma {:induction false} CorrectorFollows(o: Circle, g: Gains, limit: real, raws: seq<Pose>, us: seq<Pose>, n: nat)
    requires Laws(o) && Unwraps(o, raws, us) && NoJump(raws, limit) && n < |raws| && |raws| == |us|
    ensures Follows(o, g, raws, us, n, RunCorrector(o, g, limit, FRESH, raws[..n + 1]))
  {
    PiPositive(o);
    hide Laws, Follows, Updated, Unwraps, NoJump;
    assert raws[..n + 1][..n] == raws[..n];
    if n == 0 {
      assert RunCorrector(o, g, limit, FRESH, raws[..0]) == FRESH;
      FollowsFirst(o, g, limit, raws, us);
    } else {
      CorrectorFollows(o, g, limit, raws, us, n - 1);
      FollowsNext(o, g, limit, raws, us, n - 1, RunCorrector(o, g, limit, FRESH, raws[..n]));
    }
  }

  /** For any raw poses without a reset jump and with turns below half a turn, the corrector, wrapping at
      every step, ends at the start pose composed with what the batch tool integrates from the unwrapped poses. */
  lemma IncrementalEqualsBatch(o: Circle, g: Gains, limit: real, raws: seq<Pose>, us: seq<Pose>)
    requires Laws(o) && Unwraps(o, raws, us) && NoJump(raws, limit) && raws != []
    ensures var end := Integrated(o, g, StepsOf(o, us));
            IsMoved(o, raws[0], Position(end), end.yaw, RunCorrector(o, g, limit, FRESH, raws).pose)
  {
    CorrectorFollows(o, g, limit, raws, us, |raws| - 1);
    assert raws[..|raws|] == raws;
    hide Laws, Unwraps, NoJump, IsMoved, RunCorrector;
  }

  // ----- the calibration window -----

  datatype Sample = Sample(t: real, pose: Pose)

  function Between(p: Pose, q: Pose, r: real): Pose {
    Pose(p.x + r * (q.x - p.x), p.y + r * (q.y - p.y), p.yaw + r * (q.yaw - p.yaw))
  }

  /** Linear interpolation of the samples at time t, constant outside their range */
  function PoseAt(odom: seq<Sample>, t: real): Pose
    requires odom != []
  {
    if t <= odom[0].t || |odom| == 1 then odom[0].pose
    else if t < odom[1].t then
      Between(odom[0].pose, odom[1].pose, (t - odom[0].t) / (odom[1].t - odom[0].t))
    else PoseAt(odom[1..], t)
  }

  /** The sample times strictly inside the window */
  function Inside(odom: seq<Sample>, a: real, b: real): seq<real> {
    if odom == [] then []
    else if a < odom[0].t < b then [odom[0].t] + Inside(odom[1..], a, b)
    else Inside(odom[1..], a, b)
  }

  function Shifted(odom: seq<Sample>, offset: real): seq<Sample> {
    seq(|odom|, i requires 0 <= i < |odom| => odom[i].(t := odom[i].t - offset))
  }

  function PosesAt(odom: seq<Sample>, ts: seq<real>): seq<Pose>
    requires odom != []
  {
    seq(|ts|, i requires 0 <= i < |ts| => PoseAt(odom, ts[i]))
  }

  /** steps_between: the increments from a to b, or none when the window leaves the samples */
  function StepsBetween(o: Circle, odom: seq<Sample>, a: real, b: real, offset: real): Option<seq<Step>>
    requires odom != []
  {
    var samples := Shifted(odom, offset);
    if a < samples[0].t || b > samples[|samples| - 1].t then None
    else Some(StepsOf(o, PosesAt(samples, [a] + Inside(samples, a, b) + [b])))
  }

  ghost predicate Increasing(odom: seq<Sample>) {
    forall i, j :: 0 <= i < j < |odom| ==> odom[i].t < odom[j].t
  }

  function PosesOf(odom: seq<Sample>): seq<Pose> {
    seq(|odom|, i requires 0 <= i < |odom| => odom[i].pose)
  }

  lemma {:induction false} PoseAtSample(odom: seq<Sample>, i: nat)
    requires Increasing(odom) && i < |odom|
    ensures PoseAt(odom, odom[i].t) == odom[i].pose
  {
    if i > 0 {
      PoseAtSample(odom[1..], i - 1);
    }
  }

  lemma {:induction false} InsideSamples(odom: seq<Sample>, a: real, b: real, n: nat)
    requires Increasing(odom) && n <= |odom|
    requires forall i :: 0 <= i < |odom| ==> a < odom[i].t
    requires forall i :: 0 <= i < n ==> odom[i].t < b
    requires forall i :: n <= i < |odom| ==> odom[i].t >= b
    ensures Inside(odom, a, b) == seq(n, i requires 0 <= i < n => odom[i].t)
  {
    if odom != [] {
      InsideSamples(odom[1..], a, b, if n > 0 then n - 1 else 0);
    }
  }

  /** Over the whole recording the window's increments are those between consecutive samples. */
  lemma WholeRecording(o: Circle, odom: seq<Sample>)
    requires Increasing(odom) && |odom| >= 2
    ensures StepsBetween(o, odom, odom[0].t, odom[|odom| - 1].t, 0.0) == Some(StepsOf(o, PosesOf(odom)))
  {
    var n := |odom| - 1;
    var a, b := odom[0].t, odom[n].t;
    assert Shifted(odom, 0.0) == odom;
    InsideSamples(odom[1..], a, b, n - 1);
    var ts := [a] + Inside(odom, a, b) + [b];
    assert |ts| == n + 1;
    forall i | 0 <= i <= n
      ensures PoseAt(odom, ts[i]) == odom[i].pose
    {
      assert ts[i] == odom[i].t;
      PoseAtSample(odom, i);
    }
    assert PosesAt(odom, ts) == PosesOf(odom);
  }

  lemma {:induction false} InsideLater(odom: seq<Sample>, a: real, m: real, c: real)
    requires a < m && forall i :: 0 <= i < |odom| ==> odom[i].t > m
    ensures Inside(odom, a, m) == [] && Inside(odom, a, c) == Inside(odom, m, c)
  {
    if odom != [] {
      InsideLater(odom[1..], a, m, c);
    }
  }

  lemma {:induction false} InsideSplits(odom: seq<Sample>, a: real, c: real, k: nat)
    requires Increasing(odom) && k < |odom| && a < odom[k].t < c
    ensures Inside(odom, a, c) == Inside(odom, a, odom[k].t) + [odom[k].t] + Inside(odom, odom[k].t, c)
  {
    if k == 0 {
      InsideLater(odom[1..], a, odom[k].t, c);
    } else {
      InsideSplits(odom[1..], a, c, k - 1);
      assert odom[0].t < odom[k].t;
    }
  }

  /** Windows chain: cut at the time of a sample, the increments of a window are those of its two parts in turn. */
  lemma WindowsChain(o: Circle, odom: seq<Sample>, a: real, c: real, offset: real, k: nat)
    requires Increasing(odom) && k < |odom| && a < odom[k].t - offset < c
    requires StepsBetween(o, odom, a, c, offset).Some?
    ensures var m := odom[k].t - offset;
            var first, second := StepsBetween(o, odom, a, m, offset), StepsBetween(o, odom, m, c, offset);
            first.Some? && second.Some? && StepsBetween(o, odom, a, c, offset) == Some(first.value + second.value)
  {
    hide PoseAt, Inside, PosesAt, StepsOf;
    var samples, m := Shifted(odom, offset), odom[k].t - offset;
    assert Increasing(samples) && samples[k].t == m;
    InsideSplits(samples, a, c, k);
    var before, after := Inside(samples, a, m), Inside(samples, m, c);
    PosesChain(samples, a, before, m, after, c);
    StepsChain(o, PosesAt(samples, [a] + before + [m]), PosesAt(samples, [m] + after + [c]));
  }

  lemma PosesChain(odom: seq<Sample>, a: real, before: seq<real>, m: real, after: seq<real>, c: real)
    requires odom != []
    ensures var ps, qs := PosesAt(odom, [a] + before + [m]), PosesAt(odom, [m] + after + [c]);
            && ps != [] && qs != [] && ps[|ps| - 1] == qs[0]
            && PosesAt(odom, [a] + (before + [m] + after) + [c]) == ps + qs[1..]
  {
    hide PoseAt;
    assert [a] + (before + [m] + after) + [c] == [a] + before + [m] + (after + [c]);
    assert ([m] + after + [c])[1..] == after + [c];
  }

  lemma StepsChain(o: Circle, ps: seq<Pose>, qs: seq<Pose>)
    requires ps != [] && qs != [] && ps[|ps| - 1] == qs[0]
    ensures StepsOf(o, ps + qs[1..]) == StepsOf(o, ps) + StepsOf(o, qs)
  {
    hide BodyStep;
    var us := ps + qs[1..];
    assert forall i :: |ps| - 1 <= i < |us| ==> us[i] == qs[i - |ps| + 1];
  }

  lemma {:induction false} PrefixIntegrates(o: Circle, g: Gains, first: seq<Step>, second: seq<Step>, n: nat)
    requires n <= |first|
    ensures YawAfter(g, first + second, n) == YawAfter(g, first, n)
    ensures MoveAfter(o, g, first + second, n) == MoveAfter(o, g, first, n)
  {
    if n > 0 {
      hide Corrected, Turn;
      PrefixIntegrates(o, g, first, second, n - 1);
    }
  }

  lemma PoseAfterStep(o: Circle, g: Gains, steps: seq<Step>, n: nat)
    requires n < |steps|
    ensures PoseAfter(o, g, steps, n + 1) == Moved(o, PoseAfter(o, g, steps, n), Corrected(g, steps[n]))
  {
    hide Turn, Corrected;
    var s := Corrected(g, steps[n]);
    assert YawAfter(g, steps, n + 1) - s.dyaw + 0.5 * s.dyaw == YawAfter(g, steps, n) + 0.5 * s.dyaw;
  }

  lemma {:induction false} SecondFollows(o: Circle, g: Gains, first: seq<Step>, second: seq<Step>, n: nat)
    requires Laws(o) && n <= |second|
    ensures IsMoved(o, Integrated(o, g, first), MoveAfter(o, g, second, n), YawAfter(g, second, n),
                    PoseAfter(o, g, first + second, |first| + n))
  {
    if n == 0 {
      PrefixIntegrates(o, g, first, second, |first|);
      NotMoved(o, Integrated(o, g, first));
    } else {
      SecondFollows(o, g, first, second, n - 1);
      IntegrateStep(o, g, second, n - 1);
      PoseAfterStep(o, g, first + second, |first| + n - 1);
      assert (first + second)[|first| + n - 1] == second[n - 1];
      hide Laws, IsMoved, Integrated, MoveAfter, YawAfter, PoseAfter, Corrected, Moved;
      MovedExtends(o, Integrated(o, g, first), MoveAfter(o, g, second, n - 1), YawAfter(g, second, n - 1),
                   PoseAfter(o, g, first + second, |first| + n - 1), Corrected(g, second[n - 1]));
    }
  }

  lemma NotMoved(o: Circle, p: Pose)
    requires Laws(o)
    ensures IsMoved(o, p, Vector(0.0, 0.0), 0.0, p)
  {
    hide Laws, Same;
    SameSelf(o, p.yaw);
    TurnNothing(o.rot(p.yaw));
  }

  /** Integrating one window after another composes their end poses. */
  lemma IntegrationsChain(o: Circle, g: Gains, first: seq<Step>, second: seq<Step>)
    requires Laws(o)
    ensures var end := Integrated(o, g, second);
            IsMoved(o, Integrated(o, g, first), Position(end), end.yaw, Integrated(o, g, first + second))
  {
    hide Laws, IsMoved;
    SecondFollows(o, g, first, second, |second|);
  }

  /** The calibration tool and the robot agree: over a whole recording with unwrapped angles, what the tool
      integrates is where the corrector ends, seen from its first pose. */
  lemma CalibrationMatchesRobot(o: Circle, g: Gains, limit: real, raws: seq<Pose>, odom: seq<Sample>)
    requires Laws(o) && Increasing(odom) && |odom| >= 2
    requires Unwraps(o, raws, PosesOf(odom)) && NoJump(raws, limit)
    ensures var steps := StepsBetween(o, odom, odom[0].t, odom[|odom| - 1].t, 0.0);
            && steps.Some?
            && var end := Integrated(o, g, steps.value);
               IsMoved(o, raws[0], Position(end), end.yaw, RunCorrector(o, g, limit, FRESH, raws).pose)
  {
    WholeRecording(o, odom);
    hide Laws, Unwraps, NoJump, IsMoved, RunCorrector, StepsOf, Integrated;
    assert |PosesOf(odom)| == |odom|;
    UnwrapsLength(o, raws, PosesOf(odom));
    IncrementalEqualsBatch(o, g, limit, raws, PosesOf(odom));
  }

  lemma UnwrapsLength(o: Circle, raws: seq<Pose>, us: seq<Pose>)
    requires Unwraps(o, raws, us)
    ensures |raws| == |us|
  {
  }

  // ----- unit gains -----

  /** The rigid motion that takes the raw pose to the corrected one */
  datatype Offset = Offset(rotation: Rotation, translation: Vector)

  ghost function OffsetOf(o: Circle, pose: Pose, raw: Pose): Offset {
    var r := o.rot(pose.yaw - raw.yaw);
    Offset(r, Sub(Position(pose), Turn(r, Position(raw))))
  }

  lemma UnitCorrection(s: Step)
    ensures Corrected(UNIT_GAINS, s) == s
  {
  }

  /** With unit gains the heading offset is kept up to full turns. */
  lemma UnitYaw(o: Circle, limit: real, c: Corrector, raw: Pose)
    requires Laws(o) && !Resets(c, limit, raw)
    ensures Same(o, Updated(o, UNIT_GAINS, limit, c, raw).pose.yaw - raw.yaw, c.pose.yaw - c.prevRaw.value.yaw)
  {
    PiPositive(o);
    hide Laws, Same, WrapAngle, BodyStep, Turn, Corrected, Updated;
    var prev := c.prevRaw.value;
    var d := WrapAngle(o, raw.yaw - prev.yaw);
    var s := BodyStep(o, prev, raw, d);
    BodyStepTurn(o, prev, raw, d);
    UnitCorrection(s);
    UpdatedIs(o, UNIT_GAINS, limit, c, raw);
    WrapIsSame(o, raw.yaw - prev.yaw);
    WrapIsSame(o, c.pose.yaw + d);
    SameSelf(o, c.pose.yaw);
    SameSum(o, c.pose.yaw, c.pose.yaw, d, raw.yaw - prev.yaw);
    var y := WrapAngle(o, c.pose.yaw + d);
    SameTrans(o, y, c.pose.yaw + d, c.pose.yaw + (raw.yaw - prev.yaw));
    SameSelf(o, raw.yaw);
    SameSum(o, y, c.pose.yaw + (raw.yaw - prev.yaw), raw.yaw, raw.yaw);
    assert c.pose.yaw + (raw.yaw - prev.yaw) - raw.yaw == c.pose.yaw - prev.yaw;
  }

  lemma BodyStepTurn(o: Circle, p: Pose, q: Pose, d: real)
    ensures BodyStep(o, p, q, d).dyaw == d
  {
  }

  /** With unit gains the body step, turned to the corrected heading, is the raw move turned by the heading offset. */
  lemma UnitMove(o: Circle, pose: Pose, prev: Pose, raw: Pose, d: real)
    requires Laws(o)
    ensures Position(Moved(o, pose, BodyStep(o, prev, raw, d))) ==
            Add(Position(pose), Turn(o.rot(pose.yaw - prev.yaw), Sub(Position(raw), Position(prev))))
  {
    hide Laws, Turn, Back, Mul;
    var a, b := pose.yaw + 0.5 * d, prev.yaw + 0.5 * d;
    var move := Sub(Position(raw), Position(prev));
    RotBack(o, b);
    RotSum(o, a, -b);
    assert a + -b == pose.yaw - prev.yaw;
    TurnMul(o.rot(a), Back(o.rot(b)), move);
  }

  /** A step with unit gains keeps the rigid offset between corrected and raw pose, from any state:
      a slip that was injected before persists unchanged. */
  lemma UnitGainsKeepOffset(o: Circle, limit: real, c: Corrector, raw: Pose)
    requires Laws(o) && !Resets(c, limit, raw)
    ensures OffsetOf(o, Updated(o, UNIT_GAINS, limit, c, raw).pose, raw) == OffsetOf(o, c.pose, c.prevRaw.value)
  {
    PiPositive(o);
    hide Laws, Same, WrapAngle, BodyStep, Turn, Corrected, Updated, Moved;
    var prev := c.prevRaw.value;
    var d := WrapAngle(o, raw.yaw - prev.yaw);
    var after := Updated(o, UNIT_GAINS, limit, c, raw).pose;
    UnitYaw(o, limit, c, raw);
    SameRot(o, after.yaw - raw.yaw, c.pose.yaw - prev.yaw);
    UpdatedIs(o, UNIT_GAINS, limit, c, raw);
    UnitCorrection(BodyStep(o, prev, raw, d));
    UnitMove(o, c.pose, prev, raw, d);
    var r, move := o.rot(c.pose.yaw - prev.yaw), Sub(Position(raw), Position(prev));
    assert Position(raw) == Add(Position(prev), move);
    TurnAdd(r, Position(prev), move);
  }

  /** The corrected pose is the raw pose, the heading up to full turns. */
  ghost predicate Reproduces(o: Circle, c: Corrector, raw: Pose) {
    c.prevRaw == Some(raw) && Position(c.pose) == Position(raw) && Same(o, c.pose.yaw, raw.yaw)
  }

  lemma ReproducesNext(o: Circle, limit: real, c: Corrector, prev: Pose, raw: Pose)
    requires Laws(o) && (c.prevRaw.None? || Reproduces(o, c, prev))
    ensures Reproduces(o, Updated(o, UNIT_GAINS, limit, c, raw), raw)
  {
    PiPositive(o);
    SameSelf(o, raw.yaw);
    if !Resets(c, limit, raw) {
      hide Laws, Same, WrapAngle, Turn, Updated, Resets;
      var after := Updated(o, UNIT_GAINS, limit, c, raw);
      UpdatedIs(o, UNIT_GAINS, limit, c, raw);
      UnitYaw(o, limit, c, raw);
      UnitGainsKeepOffset(o, limit, c, raw);
      SameSelf(o, prev.yaw);
      SameSum(o, c.pose.yaw, prev.yaw, prev.yaw, prev.yaw);
      SameTrans(o, after.pose.yaw - raw.yaw, c.pose.yaw - prev.yaw, prev.yaw - prev.yaw);
      SameSum(o, after.pose.yaw - raw.yaw, prev.yaw - prev.yaw, raw.yaw, raw.yaw);
      assert after.pose.yaw - raw.yaw + raw.yaw == after.pose.yaw;
      assert prev.yaw - prev.yaw + raw.yaw == raw.yaw;
      IdentityOffset(o, c.pose, prev);
      IdentityOffset(o, after.pose, raw);
    } else {
      hide Laws, Same, WrapAngle, Turn;
    }
  }

  lemma IdentityOffset(o: Circle, pose: Pose, raw: Pose)
    requires Laws(o) && Same(o, pose.yaw, raw.yaw)
    ensures OffsetOf(o, pose, raw) == Offset(Still, Vector(0.0, 0.0)) <==> Position(pose) == Position(raw)
  {
    SameZero(o, pose.yaw, raw.yaw);
    TurnStill(Position(raw));
    hide Laws, Same, Turn;
  }

  lemma TurnStill(v: Vector)
    ensures Turn(Still, v) == v
  {
  }

  /** A corrector that always had unit gains outputs the raw pose on every run, jumps included. */
  lemma {:induction false} UnitGainsReproduce(o: Circle, limit: real, raws: seq<Pose>)
    requires Laws(o) && raws != []
    ensures Reproduces(o, RunCorrector(o, UNIT_GAINS, limit, FRESH, raws), raws[|raws| - 1])
  {
    PiPositive(o);
    hide Laws, Reproduces, Updated;
    var n := |raws| - 1;
    if n > 0 {
      UnitGainsReproduce(o, limit, raws[..n]);
      ReproducesNext(o, limit, RunCorrector(o, UNIT_GAINS, limit, FRESH, raws[..n]), raws[n - 1], raws[n]);
    } else {
      ReproducesNext(o, limit, FRESH, raws[0], raws[0]);
    }
  }
}
