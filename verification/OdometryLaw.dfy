/** Laws of whole integrations, for all gains: what the gains do to the end of a drive, and what does not depend on them. */
module OdometryLaws {
  import opened Options
  import opened Planar
  import opened WheelOdometry

  // ----- the end heading -----

  /** How far the poses go forward from i to i + 1, along the heading half way between them */
  function Forward(o: Circle, us: seq<Pose>, i: nat): real
    requires i + 1 < |us|
  {
    var mid := o.rot((us[i].yaw + us[i + 1].yaw) / 2.0);
    mid.c * (us[i + 1].x - us[i].x) + mid.s * (us[i + 1].y - us[i].y)
  }

  /** How far they go forward in the first n steps */
  function ForwardSum(o: Circle, us: seq<Pose>, n: nat): real
    requires n < |us|
  {
    if n == 0 then 0.0 else ForwardSum(o, us, n - 1) + Forward(o, us, n - 1)
  }

  /** The turns times the turn gain, plus the bias for every corrected meter forward */
  function EndTurn(o: Circle, g: Gains, us: seq<Pose>): real
    requires us != []
  {
    g.kW * (us[|us| - 1].yaw - us[0].yaw) + g.bias * g.kV * ForwardSum(o, us, |us| - 1)
  }

  lemma StepTurn(o: Circle, g: Gains, us: seq<Pose>, i: nat)
    requires i + 1 < |us|
    ensures Corrected(g, StepsOf(o, us)[i]).dyaw == g.kW * (us[i + 1].yaw - us[i].yaw) + g.bias * (g.kV * Forward(o, us, i))
  {
    var p, q := us[i], us[i + 1];
    assert p.yaw + 0.5 * (q.yaw - p.yaw) == (p.yaw + q.yaw) / 2.0;
    BodyMove(o, p, q);
    assert StepsOf(o, us)[i] == BodyStep(o, p, q, q.yaw - p.yaw);
    hide BodyStep, StepsOf;
  }

  lemma BodyMove(o: Circle, p: Pose, q: Pose)
    ensures var r, s := o.rot((p.yaw + q.yaw) / 2.0), BodyStep(o, p, q, q.yaw - p.yaw);
            && s.dyaw == q.yaw - p.yaw
            && s.move.x == r.c * (q.x - p.x) + r.s * (q.y - p.y)
            && s.move.y == r.c * (q.y - p.y) - r.s * (q.x - p.x)
  {
    assert p.yaw + 0.5 * (q.yaw - p.yaw) == (p.yaw + q.yaw) / 2.0;
  }

  lemma Distributed(k: real, a: real, b: real)
    ensures k * (a + b) == k * a + k * b
  {
  }

  lemma Regrouped(a: real, b: real, c: real)
    ensures a * (b * c) == a * b * c
  {
  }

  /** One more step: from heading b to e after starting at a, with f more forward after s */
  lemma Accumulate(kW: real, kV: real, bias: real, a: real, b: real, e: real, s: real, f: real, y: real, step: real)
    requires y == kW * (b - a) + bias * kV * s && step == kW * (e - b) + bias * (kV * f)
    ensures y + step == kW * (e - a) + bias * kV * (s + f)
  {
    Distributed(kW, b - a, e - b);
    Regrouped(bias, kV, f);
    Distributed(bias * kV, s, f);
  }

  lemma ForwardSumStep(o: Circle, us: seq<Pose>, n: nat)
    requires 0 < n < |us|
    ensures ForwardSum(o, us, n) == ForwardSum(o, us, n - 1) + Forward(o, us, n - 1)
    ensures ForwardSum(o, us, 0) == 0.0
  {
  }

  lemma {:induction false} YawOfSteps(o: Circle, g: Gains, us: seq<Pose>, n: nat)
    requires n < |us| == |StepsOf(o, us)| + 1
    ensures YawAfter(g, StepsOf(o, us), n) == g.kW * (us[n].yaw - us[0].yaw) + g.bias * g.kV * ForwardSum(o, us, n)
  {
    hide *;
    if n == 0 {
      YawStart(o, g, us);
    } else {
      YawOfSteps(o, g, us, n - 1);
      YawStep(o, g, us, n);
    }
  }

  lemma YawStart(o: Circle, g: Gains, us: seq<Pose>)
    requires us != []
    ensures YawAfter(g, StepsOf(o, us), 0) == 0.0 == g.kW * (us[0].yaw - us[0].yaw) + g.bias * g.kV * ForwardSum(o, us, 0)
  {
    Nothing(g.kW);
    Nothing(g.bias * g.kV);
  }

  lemma Nothing(k: real)
    ensures k * 0.0 == 0.0
  {
  }

  lemma YawStep(o: Circle, g: Gains, us: seq<Pose>, n: nat)
    requires 0 < n < |us| == |StepsOf(o, us)| + 1
    requires YawAfter(g, StepsOf(o, us), n - 1) == g.kW * (us[n - 1].yaw - us[0].yaw) + g.bias * g.kV * ForwardSum(o, us, n - 1)
    ensures YawAfter(g, StepsOf(o, us), n) == g.kW * (us[n].yaw - us[0].yaw) + g.bias * g.kV * ForwardSum(o, us, n)
  {
    hide *;
    StepTurn(o, g, us, n - 1);
    IntegrateStep(o, g, StepsOf(o, us), n - 1);
    ForwardSumStep(o, us, n);
    Accumulate(g.kW, g.kV, g.bias, us[0].yaw, us[n - 1].yaw, us[n].yaw, ForwardSum(o, us, n - 1), Forward(o, us, n - 1),
               YawAfter(g, StepsOf(o, us), n - 1), Corrected(g, StepsOf(o, us)[n - 1]).dyaw);
  }

  lemma StepsLength(o: Circle, us: seq<Pose>)
    requires us != []
    ensures |StepsOf(o, us)| == |us| - 1
  {
  }

  /** What the calibration tool integrates ends at this heading. */
  lemma IntegratedTurn(o: Circle, g: Gains, us: seq<Pose>)
    requires us != []
    ensures Integrated(o, g, StepsOf(o, us)).yaw == EndTurn(o, g, us)
  {
    hide StepsOf, YawAfter, MoveAfter, ForwardSum;
    StepsLength(o, us);
    YawOfSteps(o, g, us, |us| - 1);
  }

  /** And so does the corrector on the robot, up to full turns. */
  lemma CorrectedTurn(o: Circle, g: Gains, limit: real, raws: seq<Pose>, us: seq<Pose>)
    requires Laws(o) && Unwraps(o, raws, us) && NoJump(raws, limit) && raws != []
    ensures Same(o, RunCorrector(o, g, limit, FRESH, raws).pose.yaw, raws[0].yaw + EndTurn(o, g, us))
  {
    hide Laws, Unwraps, NoJump, RunCorrector, Integrated, StepsOf, EndTurn, Same;
    UnwrapsLength(o, raws, us);
    IncrementalEqualsBatch(o, g, limit, raws, us);
    IntegratedTurn(o, g, us);
  }

  // ----- the end position -----

  lemma TurnScale(r: Rotation, k: real, v: Vector)
    ensures Turn(r, Scale(k, v)) == Scale(k, Turn(r, v))
  {
    Regrouped(r.c, k, v.x);
    Regrouped(r.s, k, v.y);
    Regrouped(r.s, k, v.x);
    Regrouped(r.c, k, v.y);
    Distributed(k, r.c * v.x, -(r.s * v.y));
    Distributed(k, r.s * v.x, r.c * v.y);
    assert r.c * k * v.x == k * (r.c * v.x) && r.s * k * v.y == k * (r.s * v.y);
    assert r.s * k * v.x == k * (r.s * v.x) && r.c * k * v.y == k * (r.c * v.y);
  }

  lemma ScaleAdd(k: real, v: Vector, w: Vector)
    ensures Scale(k, Add(v, w)) == Add(Scale(k, v), Scale(k, w))
  {
    Distributed(k, v.x, w.x);
    Distributed(k, v.y, w.y);
  }

  /** A corrector of distances alone */
  predicate ScalesOnly(g: Gains) {
    g.kW == 1.0 && g.bias == 0.0
  }

  lemma ScaledStep(g: Gains, s: Step)
    requires ScalesOnly(g)
    ensures Corrected(g, s) == Step(Scale(g.kV, s.move), s.dyaw) && Corrected(UNIT_GAINS, s) == s
  {
  }

  lemma NoMove(o: Circle, g: Gains, steps: seq<Step>)
    ensures YawAfter(g, steps, 0) == YawAfter(UNIT_GAINS, steps, 0)
    ensures MoveAfter(o, g, steps, 0) == Scale(g.kV, MoveAfter(o, UNIT_GAINS, steps, 0))
  {
    Nothing(g.kV);
  }

  lemma {:induction false} ScaledMoves(o: Circle, g: Gains, steps: seq<Step>, n: nat)
    requires ScalesOnly(g) && n <= |steps|
    ensures YawAfter(g, steps, n) == YawAfter(UNIT_GAINS, steps, n)
    ensures MoveAfter(o, g, steps, n) == Scale(g.kV, MoveAfter(o, UNIT_GAINS, steps, n))
  {
    hide *;
    if n == 0 {
      NoMove(o, g, steps);
    } else {
      ScaledMoves(o, g, steps, n - 1);
      ScaledStep(g, steps[n - 1]);
      IntegrateStep(o, g, steps, n - 1);
      IntegrateStep(o, UNIT_GAINS, steps, n - 1);
      var s := steps[n - 1];
      var r := o.rot(YawAfter(UNIT_GAINS, steps, n - 1) + 0.5 * s.dyaw);
      TurnScale(r, g.kV, s.move);
      ScaleAdd(g.kV, MoveAfter(o, UNIT_GAINS, steps, n - 1), Turn(r, s.move));
    }
  }

  /** With the distance gain alone the end position is that many times the one without correction. */
  lemma IntegratedScale(o: Circle, g: Gains, steps: seq<Step>)
    requires ScalesOnly(g)
    ensures var end, unit := Integrated(o, g, steps), Integrated(o, UNIT_GAINS, steps);
            end.x == g.kV * unit.x && end.y == g.kV * unit.y && end.yaw == unit.yaw
  {
    hide MoveAfter, YawAfter;
    ScaledMoves(o, g, steps, |steps|);
  }

  lemma ScaledEnd(r: Rotation, k: real, a: Vector, z: Vector, unit: Vector, end: Vector, p: Vector)
    requires z == Add(a, Turn(r, unit)) && end == Scale(k, unit) && p == Add(a, Turn(r, end))
    ensures Sub(p, a) == Scale(k, Sub(z, a))
  {
    TurnScale(r, k, unit);
    var t := Turn(r, unit);
    AddedSub(a, t);
    AddedSub(a, Scale(k, t));
    hide *;
  }

  lemma AddedSub(a: Vector, t: Vector)
    ensures Sub(Add(a, t), a) == t
  {
  }

  lemma ScaledPosition(o: Circle, g: Gains, steps: seq<Step>)
    requires ScalesOnly(g)
    ensures Position(Integrated(o, g, steps)) == Scale(g.kV, Position(Integrated(o, UNIT_GAINS, steps)))
    ensures Integrated(o, g, steps).yaw == Integrated(o, UNIT_GAINS, steps).yaw
  {
    hide MoveAfter, YawAfter;
    ScaledMoves(o, g, steps, |steps|);
  }

  lemma MovedTo(o: Circle, start: Pose, end: Pose, p: Pose)
    requires IsMoved(o, start, Position(end), end.yaw, p)
    ensures Position(p) == Add(Position(start), Turn(o.rot(start.yaw), Position(end))) && Same(o, p.yaw, start.yaw + end.yaw)
  {
    hide Same, Turn;
  }

  lemma RawReached(o: Circle, limit: real, raws: seq<Pose>)
    requires Laws(o) && raws != [] && o.pi != 0.0
    ensures var p, z := RunCorrector(o, UNIT_GAINS, limit, FRESH, raws).pose, raws[|raws| - 1];
            Position(p) == Position(z) && Same(o, p.yaw, z.yaw)
  {
    hide Laws, RunCorrector, Same;
    UnitGainsReproduce(o, limit, raws);
  }

  lemma CorrectedScaleVector(o: Circle, g: Gains, limit: real, raws: seq<Pose>, us: seq<Pose>)
    requires Laws(o) && Unwraps(o, raws, us) && NoJump(raws, limit) && raws != [] && us != [] && ScalesOnly(g) && o.pi != 0.0
    ensures var p, a, z := RunCorrector(o, g, limit, FRESH, raws).pose, raws[0], raws[|raws| - 1];
            Sub(Position(p), Position(a)) == Scale(g.kV, Sub(Position(z), Position(a))) && Same(o, p.yaw, z.yaw)
  {
    hide *;
    var steps, a, z := StepsOf(o, us), raws[0], raws[|raws| - 1];
    var end, unit := Integrated(o, g, steps), Integrated(o, UNIT_GAINS, steps);
    var p, q := RunCorrector(o, g, limit, FRESH, raws).pose, RunCorrector(o, UNIT_GAINS, limit, FRESH, raws).pose;
    IncrementalEqualsBatch(o, g, limit, raws, us);
    IncrementalEqualsBatch(o, UNIT_GAINS, limit, raws, us);
    MovedTo(o, a, end, p);
    MovedTo(o, a, unit, q);
    RawReached(o, limit, raws);
    ScaledPosition(o, g, steps);
    ScaledEnd(o.rot(a.yaw), g.kV, Position(a), Position(z), Position(unit), Position(end), Position(p));
    SameFlipped(o, z.yaw, q.yaw, a.yaw + unit.yaw);
    SameTrans(o, p.yaw, a.yaw + unit.yaw, z.yaw);
  }

  /** On the robot: the corrected pose has moved that many times as far from the start as the raw pose, in the same direction. */
  lemma CorrectedScale(o: Circle, g: Gains, limit: real, raws: seq<Pose>, us: seq<Pose>)
    requires Laws(o) && Unwraps(o, raws, us) && NoJump(raws, limit) && raws != [] && ScalesOnly(g) && o.pi != 0.0
    ensures var p, a, z := RunCorrector(o, g, limit, FRESH, raws).pose, raws[0], raws[|raws| - 1];
            p.x - a.x == g.kV * (z.x - a.x) && p.y - a.y == g.kV * (z.y - a.y) && Same(o, p.yaw, z.yaw)
  {
    hide Laws, Unwraps, NoJump, RunCorrector, Same;
    UnwrapsLength(o, raws, us);
    CorrectedScaleVector(o, g, limit, raws, us);
  }

  lemma FullTurnsDiffer(o: Circle, k: int, l: int)
    ensures FullTurn(o, k - l) == FullTurn(o, k) - FullTurn(o, l)
  {
  }

  lemma SameFlipped(o: Circle, z: real, p: real, y: real)
    requires Same(o, p, z) && Same(o, p, y)
    ensures Same(o, y, z)
  {
    var k: int :| Turns(o, p, z, k);
    var l: int :| Turns(o, p, y, l);
    FullTurnsDiffer(o, k, l);
    assert Turns(o, y, z, k - l);
  }

  // ----- single steps -----

  function Distance2(p: Pose, q: Pose): real {
    (q.x - p.x) * (q.x - p.x) + (q.y - p.y) * (q.y - p.y)
  }

  /** The first raw pose, and one that is further from the last than the limit, is taken over as it is; and no other. */
  lemma ResetMeans(o: Circle, g: Gains, limit: real, c: Corrector, raw: Pose)
    requires o.pi != 0.0
    ensures var c' := Updated(o, g, limit, c, raw);
            && c'.prevRaw == Some(raw)
            && (c'.wasReset <==> c.prevRaw.None? || limit < 0.0 || Distance2(c.prevRaw.value, raw) > limit * limit)
            && (c'.wasReset ==> c'.pose == raw)
  {
    hide Moved, Corrected, BodyStep, WrapAngle;
  }

  lemma WrapZero(o: Circle)
    requires o.pi > 0.0
    ensures WrapAngle(o, 0.0) == 0.0
  {
    SameSelf(o, 0.0);
    WrapUnique(o, 0.0, 0.0);
  }

  lemma BackTurned(r: Rotation, ahead: real, aside: real)
    requires r.c * r.c + r.s * r.s == 1.0
    ensures Turn(Back(r), Vector(ahead * r.c - aside * r.s, ahead * r.s + aside * r.c)) == Vector(ahead, aside)
  {
    var c, s := r.c, r.s;
    assert c * (ahead * c - aside * s) + s * (ahead * s + aside * c) == ahead * (c * c + s * s);
    assert c * (ahead * s + aside * c) - s * (ahead * c - aside * s) == aside * (c * c + s * s);
  }

  lemma TurnIs(r: Rotation, v: Vector)
    ensures Turn(r, v).x == v.x * r.c - v.y * r.s && Turn(r, v).y == v.x * r.s + v.y * r.c
  {
  }

  /** From p to q it is this far ahead and this far aside, seen along the heading. */
  ghost predicate Apart(r: Rotation, p: Pose, q: Pose, ahead: real, aside: real) {
    q.x == p.x + (ahead * r.c - aside * r.s) && q.y == p.y + (ahead * r.s + aside * r.c)
  }

  /** A raw step ahead and aside along its heading, without a turn: the corrected pose makes the scaled step along its own
      heading half way through the turn that the bias adds. */
  lemma StraightStep(o: Circle, g: Gains, limit: real, c: Corrector, raw: Pose, ahead: real, aside: real)
    requires Laws(o) && o.pi != 0.0 && c.prevRaw.Some? && !Updated(o, g, limit, c, raw).wasReset
    requires raw.yaw == c.prevRaw.value.yaw && Apart(o.rot(raw.yaw), c.prevRaw.value, raw, ahead, aside)
    ensures var q, q', turn := c.pose, Updated(o, g, limit, c, raw).pose, g.bias * (g.kV * ahead);
            && Apart(o.rot(q.yaw + 0.5 * turn), q, q', g.kV * ahead, g.kV * aside)
            && q'.yaw == WrapAngle(o, q.yaw + turn)
  {
    PiPositive(o);
    NotReset(o, g, limit, c, raw);
    hide *;
    var p := c.prevRaw.value;
    StraightBody(o, p, raw, ahead, aside);
    UpdatedIs(o, g, limit, c, raw);
    StraightMoved(o, g, c.pose, ahead, aside);
    var q := Moved(o, c.pose, Corrected(g, Step(Vector(ahead, aside), 0.0)));
    Respelt(o.rot(c.pose.yaw + 0.5 * (g.bias * (g.kV * ahead))), c.pose, q, WrapAngle(o, q.yaw), g.kV * ahead, g.kV * aside);
  }

  lemma NotReset(o: Circle, g: Gains, limit: real, c: Corrector, raw: Pose)
    requires o.pi != 0.0 && !Updated(o, g, limit, c, raw).wasReset
    ensures !Resets(c, limit, raw)
  {
  }

  lemma Respelt(r: Rotation, p: Pose, q: Pose, yaw: real, ahead: real, aside: real)
    requires Apart(r, p, q, ahead, aside)
    ensures Apart(r, p, q.(yaw := yaw), ahead, aside)
  {
  }

  lemma StraightBody(o: Circle, p: Pose, q: Pose, ahead: real, aside: real)
    requires Laws(o) && o.pi > 0.0 && q.yaw == p.yaw && Apart(o.rot(q.yaw), p, q, ahead, aside)
    ensures BodyStep(o, p, q, WrapAngle(o, q.yaw - p.yaw)) == Step(Vector(ahead, aside), 0.0)
  {
    WrapZero(o);
    assert OnCircle(o, p.yaw);
    var r := o.rot(p.yaw);
    BackTurned(r, ahead, aside);
    hide Laws, WrapAngle, Turn, Back;
    assert p.yaw + 0.5 * 0.0 == p.yaw;
    assert Sub(Position(q), Position(p)) == Vector(ahead * r.c - aside * r.s, ahead * r.s + aside * r.c);
  }

  lemma StraightCorrected(g: Gains, ahead: real, aside: real)
    ensures Corrected(g, Step(Vector(ahead, aside), 0.0)) == Step(Vector(g.kV * ahead, g.kV * aside), g.bias * (g.kV * ahead))
  {
    Nothing(g.kW);
  }

  lemma StraightMoved(o: Circle, g: Gains, q: Pose, ahead: real, aside: real)
    ensures var q', turn := Moved(o, q, Corrected(g, Step(Vector(ahead, aside), 0.0))), g.bias * (g.kV * ahead);
            Apart(o.rot(q.yaw + 0.5 * turn), q, q', g.kV * ahead, g.kV * aside) && q'.yaw == q.yaw + turn
  {
    hide Corrected;
    StraightCorrected(g, ahead, aside);
    MovedApart(o, q, g.kV * ahead, g.kV * aside, g.bias * (g.kV * ahead));
  }

  lemma MovedApart(o: Circle, q: Pose, ahead: real, aside: real, turn: real)
    ensures var q' := Moved(o, q, Step(Vector(ahead, aside), turn));
            Apart(o.rot(q.yaw + 0.5 * turn), q, q', ahead, aside) && q'.yaw == q.yaw + turn
  {
    TurnIs(o.rot(q.yaw + 0.5 * turn), Vector(ahead, aside));
    hide Turn;
  }

  // ----- there and back -----

  /** Along the poses to the last one and back the same way */
  function ThereAndBack(us: seq<Pose>): (r: seq<Pose>)
    requires us != []
    ensures r != [] && r[0] == us[0] == r[|r| - 1]
  {
    if |us| == 1 then us else [us[0]] + ThereAndBack(us[1..]) + [us[0]]
  }

  /** Drives the steps from a pose, all corrected */
  function Driven(o: Circle, g: Gains, p: Pose, steps: seq<Step>): Pose {
    if steps == [] then p else Moved(o, Driven(o, g, p, steps[..|steps| - 1]), Corrected(g, steps[|steps| - 1]))
  }

  lemma {:induction false} DrivenIsIntegrated(o: Circle, g: Gains, steps: seq<Step>, n: nat)
    requires n <= |steps|
    ensures Driven(o, g, Pose(0.0, 0.0, 0.0), steps[..n]) == PoseAfter(o, g, steps, n)
  {
    if n > 0 {
      hide Moved, Corrected;
      DrivenIsIntegrated(o, g, steps, n - 1);
      PoseAfterStep(o, g, steps, n - 1);
      assert steps[..n][..n - 1] == steps[..n - 1];
    }
  }

  lemma {:induction false} DrivenOn(o: Circle, g: Gains, p: Pose, first: seq<Step>, second: seq<Step>)
    ensures Driven(o, g, p, first + second) == Driven(o, g, Driven(o, g, p, first), second)
  {
    if second == [] {
      assert first + second == first;
    } else {
      hide Moved, Corrected;
      var n := |second| - 1;
      DrivenOn(o, g, p, first, second[..n]);
      assert (first + second)[..|first + second| - 1] == first + second[..n];
    }
  }

  lemma NegTurn(r: Rotation, v: Vector)
    ensures Turn(r, Vector(-v.x, -v.y)) == Vector(-Turn(r, v).x, -Turn(r, v).y)
  {
  }

  /** The step back is the step there, negated. */
  lemma StepBack(o: Circle, p: Pose, q: Pose)
    ensures var s, t := BodyStep(o, p, q, q.yaw - p.yaw), BodyStep(o, q, p, p.yaw - q.yaw);
            t == Step(Vector(-s.move.x, -s.move.y), -s.dyaw)
  {
    assert p.yaw + 0.5 * (q.yaw - p.yaw) == q.yaw + 0.5 * (p.yaw - q.yaw);
    NegTurn(Back(o.rot(p.yaw + 0.5 * (q.yaw - p.yaw))), Sub(Position(q), Position(p)));
    hide Turn, Back;
  }

  lemma CorrectedBack(g: Gains, s: Step)
    ensures var c := Corrected(g, s);
            Corrected(g, Step(Vector(-s.move.x, -s.move.y), -s.dyaw)) == Step(Vector(-c.move.x, -c.move.y), -c.dyaw)
  {
    var m := g.kV * s.move.x;
    assert g.kV * -s.move.x == -m && g.kV * -s.move.y == -(g.kV * s.move.y);
    assert g.kW * -s.dyaw == -(g.kW * s.dyaw) && g.bias * -m == -(g.bias * m);
  }

  lemma MovedBack(o: Circle, p: Pose, s: Step)
    ensures Moved(o, Moved(o, p, s), Step(Vector(-s.move.x, -s.move.y), -s.dyaw)) == p
  {
    assert p.yaw + s.dyaw + 0.5 * -s.dyaw == p.yaw + 0.5 * s.dyaw;
    NegTurn(o.rot(p.yaw + 0.5 * s.dyaw), s.move);
    hide Turn;
  }

  lemma RoundSteps(o: Circle, a: Pose, b: Pose, r: seq<Pose>)
    requires r != [] && r[0] == b == r[|r| - 1]
    ensures StepsOf(o, [a] + r + [a]) == [BodyStep(o, a, b, b.yaw - a.yaw)] + StepsOf(o, r) + [BodyStep(o, b, a, a.yaw - b.yaw)]
  {
    hide BodyStep;
  }

  lemma DrivenRound(o: Circle, g: Gains, p: Pose, s: Step, inner: seq<Step>, t: Step)
    requires Driven(o, g, Moved(o, p, Corrected(g, s)), inner) == Moved(o, p, Corrected(g, s))
    requires t == Step(Vector(-s.move.x, -s.move.y), -s.dyaw)
    ensures Driven(o, g, p, [s] + inner + [t]) == p
  {
    hide *;
    DrivenOn(o, g, p, [s] + inner, [t]);
    DrivenOn(o, g, p, [s], inner);
    DrivenOne(o, g, p, s);
    DrivenOne(o, g, Moved(o, p, Corrected(g, s)), t);
    CorrectedBack(g, s);
    MovedBack(o, p, Corrected(g, s));
  }

  lemma NowhereDriven(o: Circle, g: Gains, p: Pose, a: Pose)
    ensures Driven(o, g, p, StepsOf(o, ThereAndBack([a]))) == p
  {
    assert StepsOf(o, [a]) == [];
  }

  lemma RoundTripSteps(o: Circle, a: Pose, b: Pose, rest: seq<Pose>, us: seq<Pose>)
    requires |us| > 1 && rest == us[1..] && rest[0] == b && us[0] == a
    ensures StepsOf(o, ThereAndBack(us)) ==
      [BodyStep(o, a, b, b.yaw - a.yaw)] + StepsOf(o, ThereAndBack(rest)) + [BodyStep(o, b, a, a.yaw - b.yaw)]
  {
    hide *;
    RoundEnds(rest);
    ThereAndBackStep(us);
    RoundSteps(o, a, b, ThereAndBack(rest));
  }

  lemma RoundEnds(us: seq<Pose>)
    requires us != []
    ensures var r := ThereAndBack(us); r != [] && r[0] == us[0] == r[|r| - 1]
  {
  }

  lemma ThereAndBackStep(us: seq<Pose>)
    requires |us| > 1
    ensures ThereAndBack(us) == [us[0]] + ThereAndBack(us[1..]) + [us[0]]
  {
  }

  lemma {:induction false} DrivenBack(o: Circle, g: Gains, p: Pose, us: seq<Pose>)
    requires us != []
    ensures Driven(o, g, p, StepsOf(o, ThereAndBack(us))) == p
    decreases |us|
  {
    hide *;
    if |us| == 1 {
      assert us == [us[0]];
      NowhereDriven(o, g, p, us[0]);
    } else {
      var a, b := us[0], us[1];
      var s := BodyStep(o, a, b, b.yaw - a.yaw);
      DrivenBack(o, g, Moved(o, p, Corrected(g, s)), us[1..]);
      RoundTripSteps(o, a, b, us[1..], us);
      StepBack(o, a, b);
      DrivenRound(o, g, p, s, StepsOf(o, ThereAndBack(us[1..])), BodyStep(o, b, a, a.yaw - b.yaw));
    }
  }

  lemma DrivenOne(o: Circle, g: Gains, p: Pose, s: Step)
    ensures Driven(o, g, p, [s]) == Moved(o, p, Corrected(g, s))
  {
    assert [s][..0] == [];
    hide Moved, Corrected;
  }

  /** Out and back the same way the integration ends where it began, whatever the gains and the bias are. */
  lemma BackWhereItBegan(o: Circle, g: Gains, us: seq<Pose>)
    requires us != []
    ensures Integrated(o, g, StepsOf(o, ThereAndBack(us))) == Pose(0.0, 0.0, 0.0)
  {
    hide StepsOf, PoseAfter, Driven, ThereAndBack;
    var steps := StepsOf(o, ThereAndBack(us));
    DrivenIsIntegrated(o, g, steps, |steps|);
    assert steps[..|steps|] == steps;
    DrivenBack(o, g, Pose(0.0, 0.0, 0.0), us);
  }

  // ----- between the samples -----

  /** The value is as far between the two as the time is between theirs. */
  ghost predicate LinearIn(t0: real, t1: real, t: real, a: real, b: real, x: real) {
    (t1 - t0) * x == (t1 - t) * a + (t - t0) * b
  }

  lemma Mixed(t0: real, t1: real, t: real, a: real, b: real)
    requires t0 < t1
    ensures LinearIn(t0, t1, t, a, b, a + (t - t0) / (t1 - t0) * (b - a))
  {
    var d, e := t1 - t0, t - t0;
    var r := e / d;
    assert r * d == e;
    assert d * (r * (b - a)) == (r * d) * (b - a);
    assert d * (a + r * (b - a)) == d * a + e * (b - a);
    assert d * a + e * (b - a) == (d - e) * a + e * b;
  }

  lemma AtStart(t0: real, t1: real, a: real, b: real)
    ensures LinearIn(t0, t1, t0, a, b, a)
  {
    assert (t0 - t0) * b == 0.0;
  }

  ghost predicate LinearPose(a: Sample, b: Sample, t: real, p: Pose) {
    && LinearIn(a.t, b.t, t, a.pose.x, b.pose.x, p.x)
    && LinearIn(a.t, b.t, t, a.pose.y, b.pose.y, p.y)
    && LinearIn(a.t, b.t, t, a.pose.yaw, b.pose.yaw, p.yaw)
  }

  lemma FirstIsLinear(odom: seq<Sample>, t: real)
    requires |odom| >= 2 && odom[0].t <= t < odom[1].t
    ensures LinearPose(odom[0], odom[1], t, PoseAt(odom, t))
  {
    var a, b := odom[0], odom[1];
    hide LinearIn;
    if t == a.t {
      AtStart(a.t, b.t, a.pose.x, b.pose.x);
      AtStart(a.t, b.t, a.pose.y, b.pose.y);
      AtStart(a.t, b.t, a.pose.yaw, b.pose.yaw);
    } else {
      Mixed(a.t, b.t, t, a.pose.x, b.pose.x);
      Mixed(a.t, b.t, t, a.pose.y, b.pose.y);
      Mixed(a.t, b.t, t, a.pose.yaw, b.pose.yaw);
    }
  }

  /** Between two samples position and heading run linearly in time. */
  lemma {:induction false} PoseIsLinear(odom: seq<Sample>, i: nat, t: real)
    requires Increasing(odom) && i + 1 < |odom| && odom[i].t <= t < odom[i + 1].t
    ensures LinearPose(odom[i], odom[i + 1], t, PoseAt(odom, t))
  {
    hide LinearPose, Between;
    if i == 0 {
      FirstIsLinear(odom, t);
    } else {
      assert odom[0].t < odom[1].t <= t;
      PoseIsLinear(odom[1..], i - 1, t);
    }
  }

  /** A window without a sample inside is one increment between the poses at its ends; longer ones are put together from such. */
  lemma WindowOfOne(o: Circle, odom: seq<Sample>, a: real, b: real, offset: real)
    requires odom != [] && odom[0].t - offset <= a < b <= odom[|odom| - 1].t - offset
    requires forall i :: 0 <= i < |odom| ==> !(a < odom[i].t - offset < b)
    ensures var samples := Shifted(odom, offset);
            var p, q := PoseAt(samples, a), PoseAt(samples, b);
            StepsBetween(o, odom, a, b, offset) == Some([BodyStep(o, p, q, q.yaw - p.yaw)])
  {
    hide PoseAt, BodyStep;
    var samples := Shifted(odom, offset);
    NothingInside(samples, a, b);
    assert [a] + [] + [b] == [a, b];
    var p, q := PoseAt(samples, a), PoseAt(samples, b);
    assert PosesAt(samples, [a, b]) == [p, q];
    assert StepsOf(o, [p, q]) == [BodyStep(o, p, q, q.yaw - p.yaw)];
  }

  lemma {:induction false} NothingInside(odom: seq<Sample>, a: real, b: real)
    requires forall i :: 0 <= i < |odom| ==> !(a < odom[i].t < b)
    ensures Inside(odom, a, b) == []
  {
    if odom != [] {
      NothingInside(odom[1..], a, b);
    }
  }
}
