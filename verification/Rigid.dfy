/** Rigid transforms as tf2 stores them: a unit quaternion and a translation,
    over exact reals.  The formulas are those of tf2's LinearMath headers; the
    lemmas say that they form a group acting on points. */
module Rigid {

  datatype Vector3 = Vector3(x: real, y: real, z: real)

  datatype Quaternion = Quaternion(x: real, y: real, z: real, w: real)

  datatype Transform = Transform(rotation: Quaternion, origin: Vector3)

  const Zero := Vector3(0.0, 0.0, 0.0)
  const One := Quaternion(0.0, 0.0, 0.0, 1.0)
  const Id := Transform(One, Zero)

  function Add(a: Vector3, b: Vector3): Vector3 {
    Vector3(a.x + b.x, a.y + b.y, a.z + b.z)
  }

  function Neg(a: Vector3): Vector3 {
    Vector3(-a.x, -a.y, -a.z)
  }

  function Mul(p: Quaternion, q: Quaternion): Quaternion {
    Quaternion(
      p.w * q.x + p.x * q.w + p.y * q.z - p.z * q.y,
      p.w * q.y + p.y * q.w + p.z * q.x - p.x * q.z,
      p.w * q.z + p.z * q.w + p.x * q.y - p.y * q.x,
      p.w * q.w - p.x * q.x - p.y * q.y - p.z * q.z)
  }

  /** tf2's inverse() is the conjugate; it inverts unit quaternions only. */
  function Inv(q: Quaternion): Quaternion {
    Quaternion(-q.x, -q.y, -q.z, q.w)
  }

  function Norm2(q: Quaternion): real {
    q.x * q.x + q.y * q.y + q.z * q.z + q.w * q.w
  }

  predicate Unit(q: Quaternion) {
    Norm2(q) == 1.0
  }

  /** A vector seen as a quaternion without a real part. */
  function Pure(v: Vector3): Quaternion {
    Quaternion(v.x, v.y, v.z, 0.0)
  }

  function Imag(q: Quaternion): Vector3 {
    Vector3(q.x, q.y, q.z)
  }

  /** quatRotate */
  function Rotate(q: Quaternion, v: Vector3): Vector3 {
    Imag(Mul(Mul(q, Pure(v)), Inv(q)))
  }

  function Compose(a: Transform, b: Transform): Transform {
    Transform(Mul(a.rotation, b.rotation), Add(Rotate(a.rotation, b.origin), a.origin))
  }

  function Inverse(t: Transform): Transform {
    Transform(Inv(t.rotation), Rotate(Inv(t.rotation), Neg(t.origin)))
  }

  function Apply(t: Transform, p: Vector3): Vector3 {
    Add(Rotate(t.rotation, p), t.origin)
  }

  predicate Proper(t: Transform) {
    Unit(t.rotation)
  }

  // ----- quaternions -----
  // Polynomial identities are proved one component at a time, with the
  // functions hidden so that the solver sees only the terms it needs.

  /** Equality from two-sided bounds: inequalities suit the solver's arithmetic better. */
  lemma Same(p: Quaternion, q: Quaternion)
    requires p.x <= q.x <= p.x && p.y <= q.y <= p.y && p.z <= q.z <= p.z && p.w <= q.w <= p.w
    ensures p == q
  {
  }

  lemma Components(p: Quaternion, q: Quaternion)
    ensures Mul(p, q).x == p.w * q.x + p.x * q.w + p.y * q.z - p.z * q.y
    ensures Mul(p, q).y == p.w * q.y + p.y * q.w + p.z * q.x - p.x * q.z
    ensures Mul(p, q).z == p.w * q.z + p.z * q.w + p.x * q.y - p.y * q.x
    ensures Mul(p, q).w == p.w * q.w - p.x * q.x - p.y * q.y - p.z * q.z
  {
  }

  lemma Scaled(a: real, b: real, s: real)
    requires a == b
    ensures a * s == b * s
  {
  }

  /** Associativity in the first component: (a,b,c,d)(e,f,g,h) = (x,y,z,w) and
      (e,f,g,h)(i,j,k,l) = (x',y',z',w').  The next two components are its cyclic permutations. */
  lemma AssocImag(a: real, b: real, c: real, d: real, e: real, f: real, g: real, h: real, i: real, j: real, k: real, l: real,
                  x: real, y: real, z: real, w: real, x': real, y': real, z': real, w': real)
    requires x == d*e + a*h + b*g - c*f && y == d*f + b*h + c*e - a*g && z == d*g + c*h + a*f - b*e && w == d*h - a*e - b*f - c*g
    requires x' == h*i + e*l + f*k - g*j && y' == h*j + f*l + g*i - e*k && z' == h*k + g*l + e*j - f*i && w' == h*l - e*i - f*j - g*k
    ensures w*i + x*l + y*k - z*j <= d*x' + a*w' + b*z' - c*y' <= w*i + x*l + y*k - z*j
  {
    Scaled(x, d*e + a*h + b*g - c*f, l);
    Scaled(y, d*f + b*h + c*e - a*g, k);
    Scaled(z, d*g + c*h + a*f - b*e, j);
    Scaled(w, d*h - a*e - b*f - c*g, i);
    Scaled(x', h*i + e*l + f*k - g*j, d);
    Scaled(y', h*j + f*l + g*i - e*k, c);
    Scaled(z', h*k + g*l + e*j - f*i, b);
    Scaled(w', h*l - e*i - f*j - g*k, a);
  }

  lemma AssocReal(a: real, b: real, c: real, d: real, e: real, f: real, g: real, h: real, i: real, j: real, k: real, l: real,
                  x: real, y: real, z: real, w: real, x': real, y': real, z': real, w': real)
    requires x == d*e + a*h + b*g - c*f && y == d*f + b*h + c*e - a*g && z == d*g + c*h + a*f - b*e && w == d*h - a*e - b*f - c*g
    requires x' == h*i + e*l + f*k - g*j && y' == h*j + f*l + g*i - e*k && z' == h*k + g*l + e*j - f*i && w' == h*l - e*i - f*j - g*k
    ensures w*l - x*i - y*j - z*k <= d*w' - a*x' - b*y' - c*z' <= w*l - x*i - y*j - z*k
  {
    Scaled(x, d*e + a*h + b*g - c*f, i);
    Scaled(y, d*f + b*h + c*e - a*g, j);
    Scaled(z, d*g + c*h + a*f - b*e, k);
    Scaled(w, d*h - a*e - b*f - c*g, l);
    Scaled(x', h*i + e*l + f*k - g*j, a);
    Scaled(y', h*j + f*l + g*i - e*k, b);
    Scaled(z', h*k + g*l + e*j - f*i, c);
    Scaled(w', h*l - e*i - f*j - g*k, d);
  }

  lemma MulAssocX(p: Quaternion, q: Quaternion, r: Quaternion)
    ensures Mul(Mul(p, q), r).x <= Mul(p, Mul(q, r)).x <= Mul(Mul(p, q), r).x
  {
    hide *;
    var m, n := Mul(p, q), Mul(q, r);
    Components(p, q);
    Components(q, r);
    Components(m, r);
    Components(p, n);
    AssocImag(p.x, p.y, p.z, p.w, q.x, q.y, q.z, q.w, r.x, r.y, r.z, r.w, m.x, m.y, m.z, m.w, n.x, n.y, n.z, n.w);
  }

  lemma MulAssocY(p: Quaternion, q: Quaternion, r: Quaternion)
    ensures Mul(Mul(p, q), r).y <= Mul(p, Mul(q, r)).y <= Mul(Mul(p, q), r).y
  {
    hide *;
    var m, n := Mul(p, q), Mul(q, r);
    Components(p, q);
    Components(q, r);
    Components(m, r);
    Components(p, n);
    AssocImag(p.y, p.z, p.x, p.w, q.y, q.z, q.x, q.w, r.y, r.z, r.x, r.w, m.y, m.z, m.x, m.w, n.y, n.z, n.x, n.w);
  }

  lemma MulAssocZ(p: Quaternion, q: Quaternion, r: Quaternion)
    ensures Mul(Mul(p, q), r).z <= Mul(p, Mul(q, r)).z <= Mul(Mul(p, q), r).z
  {
    hide *;
    var m, n := Mul(p, q), Mul(q, r);
    Components(p, q);
    Components(q, r);
    Components(m, r);
    Components(p, n);
    AssocImag(p.z, p.x, p.y, p.w, q.z, q.x, q.y, q.w, r.z, r.x, r.y, r.w, m.z, m.x, m.y, m.w, n.z, n.x, n.y, n.w);
  }

  lemma MulAssocW(p: Quaternion, q: Quaternion, r: Quaternion)
    ensures Mul(Mul(p, q), r).w <= Mul(p, Mul(q, r)).w <= Mul(Mul(p, q), r).w
  {
    hide *;
    var m, n := Mul(p, q), Mul(q, r);
    Components(p, q);
    Components(q, r);
    Components(m, r);
    Components(p, n);
    AssocReal(p.x, p.y, p.z, p.w, q.x, q.y, q.z, q.w, r.x, r.y, r.z, r.w, m.x, m.y, m.z, m.w, n.x, n.y, n.z, n.w);
  }

  lemma MulAssoc(p: Quaternion, q: Quaternion, r: Quaternion)
    ensures Mul(Mul(p, q), r) == Mul(p, Mul(q, r))
  {
    hide *;
    MulAssocX(p, q, r);
    MulAssocY(p, q, r);
    MulAssocZ(p, q, r);
    MulAssocW(p, q, r);
    Same(Mul(Mul(p, q), r), Mul(p, Mul(q, r)));
  }

  lemma MulOne(q: Quaternion)
    ensures Mul(One, q) == q == Mul(q, One)
  {
  }

  function Plus(p: Quaternion, q: Quaternion): Quaternion {
    Quaternion(p.x + q.x, p.y + q.y, p.z + q.z, p.w + q.w)
  }

  lemma InvMulX(p: Quaternion, q: Quaternion)
    ensures Inv(Mul(p, q)).x == Mul(Inv(q), Inv(p)).x
  {
  }

  lemma InvMulY(p: Quaternion, q: Quaternion)
    ensures Inv(Mul(p, q)).y == Mul(Inv(q), Inv(p)).y
  {
  }

  lemma InvMulZ(p: Quaternion, q: Quaternion)
    ensures Inv(Mul(p, q)).z == Mul(Inv(q), Inv(p)).z
  {
  }

  lemma InvMulW(p: Quaternion, q: Quaternion)
    ensures Inv(Mul(p, q)).w == Mul(Inv(q), Inv(p)).w
  {
  }

  lemma InvMul(p: Quaternion, q: Quaternion)
    ensures Inv(Mul(p, q)) == Mul(Inv(q), Inv(p))
  {
    hide *;
    InvMulX(p, q);
    InvMulY(p, q);
    InvMulZ(p, q);
    InvMulW(p, q);
  }

  lemma MulInv(q: Quaternion)
    requires Unit(q)
    ensures Mul(Inv(q), q) == One == Mul(q, Inv(q))
    ensures Unit(Inv(q))
  {
  }

  lemma UnitMul(p: Quaternion, q: Quaternion)
    requires Unit(p) && Unit(q)
    ensures Unit(Mul(p, q))
  {
    // |pq|^2 is the real part of (pq)(pq)^-1 = p (q q^-1) p^-1
    hide *;
    InvMul(p, q);
    MulAssoc(p, q, Mul(Inv(q), Inv(p)));
    MulAssoc(q, Inv(q), Inv(p));
    MulInv(q);
    MulInv(p);
    MulOne(Inv(p));
    UnitNorm(p);
    UnitNorm(q);
    UnitNorm(Mul(p, q));
    UnitNorm(One);
  }

  lemma UnitNorm(q: Quaternion)
    ensures Unit(q) <==> Mul(q, Inv(q)).w == 1.0
    ensures One.w == 1.0
  {
  }

  lemma MulPlusX(p: Quaternion, q: Quaternion, r: Quaternion)
    ensures Mul(p, Plus(q, r)).x == Plus(Mul(p, q), Mul(p, r)).x
    ensures Mul(Plus(q, r), p).x == Plus(Mul(q, p), Mul(r, p)).x
  {
  }

  lemma MulPlusY(p: Quaternion, q: Quaternion, r: Quaternion)
    ensures Mul(p, Plus(q, r)).y == Plus(Mul(p, q), Mul(p, r)).y
    ensures Mul(Plus(q, r), p).y == Plus(Mul(q, p), Mul(r, p)).y
  {
  }

  lemma MulPlusZ(p: Quaternion, q: Quaternion, r: Quaternion)
    ensures Mul(p, Plus(q, r)).z == Plus(Mul(p, q), Mul(p, r)).z
    ensures Mul(Plus(q, r), p).z == Plus(Mul(q, p), Mul(r, p)).z
  {
  }

  lemma MulPlusW(p: Quaternion, q: Quaternion, r: Quaternion)
    ensures Mul(p, Plus(q, r)).w == Plus(Mul(p, q), Mul(p, r)).w
    ensures Mul(Plus(q, r), p).w == Plus(Mul(q, p), Mul(r, p)).w
  {
  }

  lemma MulPlus(p: Quaternion, q: Quaternion, r: Quaternion)
    ensures Mul(p, Plus(q, r)) == Plus(Mul(p, q), Mul(p, r))
    ensures Mul(Plus(q, r), p) == Plus(Mul(q, p), Mul(r, p))
  {
    hide *;
    MulPlusX(p, q, r);
    MulPlusY(p, q, r);
    MulPlusZ(p, q, r);
    MulPlusW(p, q, r);
  }

  // ----- rotation of vectors -----

  lemma RotatePure(q: Quaternion, v: Vector3)
    ensures Pure(Rotate(q, v)) == Mul(Mul(q, Pure(v)), Inv(q))
  {
  }

  lemma RotateMul(p: Quaternion, q: Quaternion, v: Vector3)
    ensures Rotate(Mul(p, q), v) == Rotate(p, Rotate(q, v))
  {
    var m := Mul(q, Pure(v));
    calc {
      Mul(Mul(p, Mul(m, Inv(q))), Inv(p));
      { MulAssoc(p, m, Inv(q)); }
      Mul(Mul(Mul(p, m), Inv(q)), Inv(p));
      { MulAssoc(Mul(p, m), Inv(q), Inv(p)); }
      Mul(Mul(p, m), Mul(Inv(q), Inv(p)));
      { MulAssoc(p, q, Pure(v)); InvMul(p, q); }
      Mul(Mul(Mul(p, q), Pure(v)), Inv(Mul(p, q)));
    }
    RotatePure(q, v);
  }

  lemma RotateAdd(q: Quaternion, a: Vector3, b: Vector3)
    ensures Rotate(q, Add(a, b)) == Add(Rotate(q, a), Rotate(q, b))
  {
    calc {
      Mul(Mul(q, Pure(Add(a, b))), Inv(q));
      { assert Pure(Add(a, b)) == Plus(Pure(a), Pure(b)); MulPlus(q, Pure(a), Pure(b)); }
      Mul(Plus(Mul(q, Pure(a)), Mul(q, Pure(b))), Inv(q));
      { MulPlus(Inv(q), Mul(q, Pure(a)), Mul(q, Pure(b))); }
      Plus(Mul(Mul(q, Pure(a)), Inv(q)), Mul(Mul(q, Pure(b)), Inv(q)));
    }
  }

  lemma InvOne()
    ensures Inv(One) == One
  {
  }

  lemma RotateOne(v: Vector3)
    ensures Rotate(One, v) == v
  {
    calc {
      Rotate(One, v);
      { MulOne(Pure(v)); InvOne(); }
      Imag(Mul(Pure(v), One));
      { MulOne(Pure(v)); }
      Imag(Pure(v));
    }
  }

  lemma RotateZero(q: Quaternion)
    ensures Rotate(q, Zero) == Zero
  {
  }

  lemma RotateNeg(q: Quaternion, v: Vector3)
    ensures Rotate(q, Neg(v)) == Neg(Rotate(q, v))
  {
    RotateAdd(q, v, Neg(v));
    assert Add(v, Neg(v)) == Zero;
    RotateZero(q);
  }

  lemma RotateTerms(x: real, y: real, z: real, w: real, a: real, b: real, c: real, px: real, py: real, pz: real, pw: real)
    requires px == w*a + y*c - z*b && py == w*b + z*a - x*c && pz == w*c + x*b - y*a && pw == -x*a - y*b - z*c
    ensures w*px - x*pw - z*py + y*pz == (w*w - x*x - y*y - z*z)*a + 2.0*(x*a + y*b + z*c)*x + 2.0*w*(y*c - z*b)
  {
    assert w*px == w*w*a + w*(y*c) - w*(z*b);
    assert x*pw == -(x*x*a) - x*(y*b) - x*(z*c);
    assert z*py == w*(z*b) + z*z*a - x*(z*c);
    assert y*pz == w*(y*c) + x*(y*b) - y*y*a;
  }

  lemma RotateComponents(q: Quaternion, v: Vector3)
    ensures var p := Mul(q, Pure(v));
            && Rotate(q, v).x == q.w*p.x - q.x*p.w - q.z*p.y + q.y*p.z
            && Rotate(q, v).y == q.w*p.y - q.y*p.w - q.x*p.z + q.z*p.x
            && Rotate(q, v).z == q.w*p.z - q.z*p.w - q.y*p.x + q.x*p.y
            && p.x == q.w*v.x + q.y*v.z - q.z*v.y && p.y == q.w*v.y + q.z*v.x - q.x*v.z
            && p.z == q.w*v.z + q.x*v.y - q.y*v.x && p.w == -q.x*v.x - q.y*v.y - q.z*v.z
  {
    var p := Mul(q, Pure(v));
    Components(q, Pure(v));
    Components(p, Inv(q));
    hide Mul;
  }

  /** The quaternion (u, w) turns v to (w^2 - u.u) v + 2 (u.v) u + 2 w (u x v), right-handed. */
  lemma RotateFormula(q: Quaternion, v: Vector3)
    ensures var k, d := q.w*q.w - q.x*q.x - q.y*q.y - q.z*q.z, q.x*v.x + q.y*v.y + q.z*v.z;
            && Rotate(q, v).x == k*v.x + 2.0*d*q.x + 2.0*q.w*(q.y*v.z - q.z*v.y)
            && Rotate(q, v).y == k*v.y + 2.0*d*q.y + 2.0*q.w*(q.z*v.x - q.x*v.z)
            && Rotate(q, v).z == k*v.z + 2.0*d*q.z + 2.0*q.w*(q.x*v.y - q.y*v.x)
  {
    hide *;
    var p := Mul(q, Pure(v));
    RotateComponents(q, v);
    RotateTerms(q.x, q.y, q.z, q.w, v.x, v.y, v.z, p.x, p.y, p.z, p.w);
    RotateTerms(q.y, q.z, q.x, q.w, v.y, v.z, v.x, p.y, p.z, p.x, p.w);
    RotateTerms(q.z, q.x, q.y, q.w, v.z, v.x, v.y, p.z, p.x, p.y, p.w);
  }

  // ----- the group of rigid transforms -----

  /** Composition is what applying one transform after the other does to every point. */
  lemma ApplyCompose(a: Transform, b: Transform, p: Vector3)
    ensures Apply(Compose(a, b), p) == Apply(a, Apply(b, p))
  {
    RotateMul(a.rotation, b.rotation, p);
    RotateAdd(a.rotation, Rotate(b.rotation, p), b.origin);
  }

  lemma ComposeAssoc(a: Transform, b: Transform, c: Transform)
    ensures Compose(Compose(a, b), c) == Compose(a, Compose(b, c))
  {
    MulAssoc(a.rotation, b.rotation, c.rotation);
    ApplyCompose(a, b, c.origin);
  }

  lemma ComposeIdentity(a: Transform)
    ensures Compose(Id, a) == a == Compose(a, Id)
  {
    MulOne(a.rotation);
    RotateOne(a.origin);
    RotateZero(a.rotation);
  }

  lemma ComposeInverse(a: Transform)
    requires Proper(a)
    ensures Compose(Inverse(a), a) == Id == Compose(a, Inverse(a))
  {
    var q := a.rotation;
    MulInv(q);
    RotateNeg(Inv(q), a.origin);
    RotateMul(q, Inv(q), Neg(a.origin));
    RotateOne(Neg(a.origin));
  }

  lemma InverseId()
    ensures Inverse(Id) == Id
  {
    assert Proper(Id);
    hide *;
    ComposeInverse(Id);
    ComposeIdentity(Inverse(Id));
  }

  lemma ProperCompose(a: Transform, b: Transform)
    requires Proper(a) && Proper(b)
    ensures Proper(Compose(a, b)) && Proper(Inverse(a))
  {
    UnitMul(a.rotation, b.rotation);
    MulInv(a.rotation);
  }

  lemma InverseCompose(a: Transform, b: Transform)
    requires Proper(a) && Proper(b)
    ensures Inverse(Compose(a, b)) == Compose(Inverse(b), Inverse(a))
  {
    var ab, ba := Compose(a, b), Compose(Inverse(b), Inverse(a));
    ProperCompose(a, b);
    calc {
      Compose(ab, ba);
      { ComposeAssoc(a, b, ba); ComposeAssoc(b, Inverse(b), Inverse(a)); }
      Compose(a, Compose(Compose(b, Inverse(b)), Inverse(a)));
      { ComposeInverse(b); ComposeIdentity(Inverse(a)); ComposeInverse(a); }
      Id;
    }
    calc {
      ba;
      { ComposeIdentity(ba); ComposeInverse(ab); }
      Compose(Compose(Inverse(ab), ab), ba);
      { ComposeAssoc(Inverse(ab), ab, ba); }
      Compose(Inverse(ab), Id);
      { ComposeIdentity(Inverse(ab)); }
      Inverse(ab);
    }
  }

  /** A common left factor cancels between the two sides of a relative transform. */
  lemma Cancel(c: Transform, a: Transform, b: Transform)
    requires Proper(c) && Proper(a)
    ensures Compose(Inverse(Compose(c, a)), Compose(c, b)) == Compose(Inverse(a), b)
  {
    calc {
      Compose(Inverse(Compose(c, a)), Compose(c, b));
      { InverseCompose(c, a); }
      Compose(Compose(Inverse(a), Inverse(c)), Compose(c, b));
      { ComposeAssoc(Inverse(a), Inverse(c), Compose(c, b)); ComposeAssoc(Inverse(c), c, b); }
      Compose(Inverse(a), Compose(Compose(Inverse(c), c), b));
      { ComposeInverse(c); ComposeIdentity(b); }
      Compose(Inverse(a), b);
    }
  }
}
