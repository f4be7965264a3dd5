/** Rotations and vectors of the plane, and angles up to full turns. */
module Planar {

  datatype Vector = Vector(x: real, y: real)

  datatype Rotation = Rotation(c: real, s: real)

  const Still := Rotation(1.0, 0.0)

  function Add(a: Vector, b: Vector): Vector {
    Vector(a.x + b.x, a.y + b.y)
  }

  function Sub(a: Vector, b: Vector): Vector {
    Vector(a.x - b.x, a.y - b.y)
  }

  function Scale(k: real, a: Vector): Vector {
    Vector(k * a.x, k * a.y)
  }

  function Turn(r: Rotation, v: Vector): Vector {
    Vector(r.c * v.x - r.s * v.y, r.s * v.x + r.c * v.y)
  }

  function Mul(a: Rotation, b: Rotation): Rotation {
    Rotation(a.c * b.c - a.s * b.s, a.s * b.c + a.c * b.s)
  }

  function Back(r: Rotation): Rotation {
    Rotation(r.c, -r.s)
  }

  // The products are distributed one at a time, with the functions hidden.

  lemma Products(r: Rotation, q: Rotation, v: Vector)
    ensures Turn(r, v) == Vector(r.c * v.x - r.s * v.y, r.s * v.x + r.c * v.y)
    ensures Mul(r, q) == Rotation(r.c * q.c - r.s * q.s, r.s * q.c + r.c * q.s)
  {
  }

  lemma Distribute(m: real, a: real, b: real, s: real)
    ensures m == a - b ==> m * s == a * s - b * s
    ensures m == a + b ==> m * s == a * s + b * s
  {
  }

  lemma TurnMul(a: Rotation, b: Rotation, v: Vector)
    ensures Turn(Mul(a, b), v) == Turn(a, Turn(b, v))
  {
    hide *;
    var m, w := Mul(a, b), Turn(b, v);
    Products(a, b, w);
    Products(b, b, v);
    Products(m, b, v);
    TurnMulTerms(a.c, a.s, b.c, b.s, v.x, v.y, m.c, m.s, w.x, w.y);
  }

  lemma TurnMulTerms(a: real, b: real, c: real, d: real, x: real, y: real, mc: real, ms: real, wx: real, wy: real)
    requires mc == a * c - b * d && ms == b * c + a * d
    requires wx == c * x - d * y && wy == d * x + c * y
    ensures mc * x - ms * y == a * wx - b * wy
    ensures ms * x + mc * y == b * wx + a * wy
  {
    Distribute(mc, a * c, b * d, x);
    Distribute(mc, a * c, b * d, y);
    Distribute(ms, b * c, a * d, x);
    Distribute(ms, b * c, a * d, y);
    Distribute(wx, c * x, d * y, a);
    Distribute(wx, c * x, d * y, b);
    Distribute(wy, d * x, c * y, a);
    Distribute(wy, d * x, c * y, b);
  }

  lemma TurnAdd(r: Rotation, a: Vector, b: Vector)
    ensures Turn(r, Add(a, b)) == Add(Turn(r, a), Turn(r, b))
  {
    var s := Add(a, b);
    Distribute(s.x, a.x, b.x, r.c);
    Distribute(s.x, a.x, b.x, r.s);
    Distribute(s.y, a.y, b.y, r.c);
    Distribute(s.y, a.y, b.y, r.s);
  }

  lemma MulAssoc(a: Rotation, b: Rotation, c: Rotation)
    ensures Mul(Mul(a, b), c) == Mul(a, Mul(b, c))
  {
    hide *;
    var m, w := Mul(a, b), Mul(b, c);
    var v := Vector(0.0, 0.0);
    Products(m, c, v);
    Products(a, b, v);
    Products(b, c, v);
    Products(a, w, v);
    TurnMulTerms(a.c, a.s, b.c, b.s, c.c, c.s, m.c, m.s, w.c, w.s);
  }

  // ----- angles -----

  /** The cosine and the sine of an angle, and the half turn */
  datatype Circle = Circle(rot: real -> Rotation, pi: real)

  /** What is known of them: adding angles composes rotations, a full turn is none, and
      cos^2 + sin^2 = 1. */
  ghost predicate Laws(o: Circle) {
    && o.pi > 0.0
    && o.rot(0.0) == Still
    && (forall a, b :: AddsUp(o, a, b))
    && o.rot(2.0 * o.pi) == Still
    && (forall a :: OnCircle(o, a))
  }

  ghost predicate AddsUp(o: Circle, a: real, b: real) {
    o.rot(a + b) == Mul(o.rot(a), o.rot(b))
  }

  ghost predicate OnCircle(o: Circle, a: real) {
    o.rot(a).c * o.rot(a).c + o.rot(a).s * o.rot(a).s == 1.0
  }

  /** (angle + pi) % (2 pi) - pi, with the modulo of Python */
  function WrapAngle(o: Circle, a: real): real
    requires o.pi != 0.0
  {
    var x := a + o.pi;
    x - 2.0 * o.pi * (x / (2.0 * o.pi)).Floor as real - o.pi
  }

  function FullTurn(o: Circle, k: int): real {
    2.0 * o.pi * k as real
  }

  /** a and b differ by k full turns. */
  ghost predicate Turns(o: Circle, a: real, b: real, k: int) {
    a - b == FullTurn(o, k)
  }

  /** Equal modulo 2 pi */
  ghost predicate Same(o: Circle, a: real, b: real) {
    exists k: int :: Turns(o, a, b, k)
  }

  lemma RotSum(o: Circle, a: real, b: real)
    requires Laws(o)
    ensures o.rot(a + b) == Mul(o.rot(a), o.rot(b))
  {
    assert AddsUp(o, a, b);
  }

  lemma RotFacts(o: Circle, a: real)
    requires Laws(o)
    ensures o.rot(0.0) == Still == o.rot(2.0 * o.pi)
    ensures Mul(Back(o.rot(a)), o.rot(a)) == Still
  {
    hide Mul;
    assert OnCircle(o, a);
    BackMul(o.rot(a));
  }

  lemma BackMul(r: Rotation)
    ensures r.c * r.c + r.s * r.s == 1.0 ==> Mul(Back(r), r) == Still
  {
  }

  lemma MulStill(r: Rotation)
    ensures Mul(Still, r) == r == Mul(r, Still)
  {
  }

  lemma RotBack(o: Circle, a: real)
    requires Laws(o)
    ensures o.rot(-a) == Back(o.rot(a))
  {
    hide *;
    var r, m := o.rot(a), o.rot(-a);
    RotSum(o, a, -a);
    assert a + -a == 0.0;
    RotFacts(o, a);
    MulAssoc(Back(r), r, m);
    MulStill(m);
    MulStill(Back(r));
  }

  lemma FullTurnStep(o: Circle, k: int)
    ensures FullTurn(o, 0) == 0.0 && FullTurn(o, 1) == 2.0 * o.pi
    ensures FullTurn(o, k - 1) + FullTurn(o, 1) == FullTurn(o, k)
    ensures -FullTurn(o, -k) == FullTurn(o, k)
  {
  }

  lemma {:induction false} FullTurns(o: Circle, k: int)
    requires Laws(o)
    ensures o.rot(FullTurn(o, k)) == Still
    decreases if k < 0 then 1 - k else k
  {
    hide *;
    RotFacts(o, 0.0);
    FullTurnStep(o, k);
    if k > 0 {
      FullTurns(o, k - 1);
      RotSum(o, FullTurn(o, k - 1), FullTurn(o, 1));
      MulStill(Still);
    } else if k < 0 {
      FullTurns(o, -k);
      RotBack(o, FullTurn(o, -k));
      BackStill();
    }
  }

  lemma BackStill()
    ensures Back(Still) == Still
  {
  }

  lemma SameRot(o: Circle, a: real, b: real)
    requires Laws(o) && Same(o, a, b)
    ensures o.rot(a) == o.rot(b)
  {
    hide Laws, Mul, FullTurn;
    var k: int :| Turns(o, a, b, k);
    FullTurns(o, k);
    RotSum(o, b, FullTurn(o, k));
    assert b + FullTurn(o, k) == a;
    MulStill(o.rot(b));
  }

  lemma SameSum(o: Circle, a: real, b: real, c: real, d: real)
    requires Same(o, a, b) && Same(o, c, d)
    ensures Same(o, a + c, b + d) && Same(o, a - c, b - d)
  {
    var k: int :| Turns(o, a, b, k);
    var l: int :| Turns(o, c, d, l);
    assert Turns(o, a + c, b + d, k + l);
    assert Turns(o, a - c, b - d, k - l);
  }

  lemma SameSelf(o: Circle, a: real)
    ensures Same(o, a, a)
  {
    assert Turns(o, a, a, 0);
  }

  lemma SameTrans(o: Circle, a: real, b: real, c: real)
    requires Same(o, a, b) && Same(o, b, c)
    ensures Same(o, a, c)
  {
    var k: int :| Turns(o, a, b, k);
    var l: int :| Turns(o, b, c, l);
    assert Turns(o, a, c, k + l);
  }

  /** Wrapping stays within the half turns and changes the angle by full turns only. */
  lemma WrapIsSame(o: Circle, a: real)
    requires o.pi > 0.0
    ensures Same(o, WrapAngle(o, a), a)
    ensures -o.pi <= WrapAngle(o, a) < o.pi
  {
    var x, p := a + o.pi, 2.0 * o.pi;
    var y := x / p;
    var n := y.Floor as real;
    assert Turns(o, WrapAngle(o, a), a, -y.Floor) by {
      assert p * (-y.Floor) as real == -(p * n);
    }
    assert x == y * p;
    assert n <= y < n + 1.0;
    Monotone(n, y, p);
    Monotone(y, n + 1.0, p);
    assert (n + 1.0) * p == n * p + p;
    assert x - p * n < p;
  }

  lemma Monotone(a: real, b: real, p: real)
    requires p > 0.0
    ensures a <= b ==> a * p <= b * p
    ensures a < b ==> a * p < b * p
  {
    if a < b {
      assert (b - a) * p > 0.0;
    }
  }

  lemma Multiples(o: Circle, k: int)
    requires o.pi > 0.0
    ensures k >= 1 ==> FullTurn(o, k) >= 2.0 * o.pi
    ensures k <= -1 ==> FullTurn(o, k) <= -2.0 * o.pi
    ensures k == 0 ==> FullTurn(o, k) == 0.0
  {
    Monotone(1.0, k as real, 2.0 * o.pi);
    Monotone(k as real, -1.0, 2.0 * o.pi);
  }

  /** Within the half turns there is one representative. */
  lemma WrapUnique(o: Circle, a: real, d: real)
    requires o.pi > 0.0 && Same(o, a, d) && -o.pi <= d < o.pi
    ensures WrapAngle(o, a) == d
  {
    hide WrapAngle, FullTurn;
    var w := WrapAngle(o, a);
    WrapIsSame(o, a);
    SameTrans(o, w, a, d);
    var k: int :| Turns(o, w, d, k);
    Multiples(o, k);
    assert k == 0;
  }

  lemma SameZero(o: Circle, a: real, b: real)
    requires Laws(o) && Same(o, a, b)
    ensures o.rot(a - b) == Still
  {
    hide Laws, FullTurn;
    var k: int :| Turns(o, a, b, k);
    FullTurns(o, k);
  }
}
