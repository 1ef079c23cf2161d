/** Vectors over the reals, with the identities that volume and centroid rest on. */
module Vectors {

  datatype Vec = Vec(x: real, y: real, z: real) {
    function Plus(v: Vec): Vec {
      Vec(x + v.x, y + v.y, z + v.z)
    }

    function Minus(v: Vec): Vec {
      Vec(x - v.x, y - v.y, z - v.z)
    }

    function Times(k: real): Vec {
      Vec(x * k, y * k, z * k)
    }

    function Over(k: real): Vec
      requires k != 0.0
    {
      Vec(x / k, y / k, z / k)
    }

    function Cross(v: Vec): Vec {
      Vec(y * v.z - z * v.y, z * v.x - x * v.z, x * v.y - y * v.x)
    }

    function Dot(v: Vec): real {
      x * v.x + y * v.y + z * v.z
    }
  }

  const ZERO := Vec(0.0, 0.0, 0.0)

  function Abs(r: real): real {
    if r < 0.0 then -r else r
  }

  /** Six times the signed volume of the tetrahedron spanned by a, b, c and the origin. */
  function Det(a: Vec, b: Vec, c: Vec): real {
    a.Cross(b).Dot(c)
  }

  /** The flux of t through the directed edge from u to v. */
  function Flux(t: Vec, u: Vec, v: Vec): real {
    t.Dot(u.Cross(v))
  }

  // Distribution of products, kept apart so that the identities below are linear in their monomials.

  lemma Distribute2(a: real, b: real, k: real)
    ensures (a + b) * k == a * k + b * k
  {
  }

  lemma Distribute3(a: real, b: real, c: real, k: real)
    ensures (a + b + c) * k == a * k + b * k + c * k
  {
    Distribute2(a + b, c, k);
    Distribute2(a, b, k);
  }

  lemma Difference(p: real, q: real, k: real)
    ensures (p - q) * k == p * k - q * k
    ensures k * (p - q) == p * k - q * k
  {
  }

  lemma Product3(a: real, b: real, c: real, s: real, t: real, u: real)
    ensures (a + s) * (b + t) * (c + u)
         == a * b * c + a * b * u + a * t * c + a * t * u + s * b * c + s * b * u + s * t * c + s * t * u
  {
    Distribute2(a, s, b + t);
    Distribute2(b, t, a);
    Distribute2(b, t, s);
    Distribute2(a * b, a * t, c + u);
    Distribute2(s * b, s * t, c + u);
    Distribute2(a * (b + t), s * (b + t), c + u);
    Distribute2(c, u, a * b);
    Distribute2(c, u, a * t);
    Distribute2(c, u, s * b);
    Distribute2(c, u, s * t);
  }

  /** The determinant written out in its six monomials. */
  function Six(a: Vec, b: Vec, c: Vec): real {
    a.x * b.y * c.z - a.x * b.z * c.y + a.y * b.z * c.x - a.y * b.x * c.z + a.z * b.x * c.y - a.z * b.y * c.x
  }

  lemma DetMonomials(a: Vec, b: Vec, c: Vec)
    ensures Det(a, b, c) == Six(a, b, c)
    ensures Flux(c, a, b) == Six(a, b, c)
  {
    Difference(a.y * b.z, a.z * b.y, c.x);
    Difference(a.z * b.x, a.x * b.z, c.y);
    Difference(a.x * b.y, a.y * b.x, c.z);
  }

  lemma SixShift(a: Vec, b: Vec, c: Vec, t: Vec)
    ensures Six(a.Plus(t), b.Plus(t), c.Plus(t)) == Six(a, b, c) + Six(a, b, t) + Six(b, c, t) + Six(c, a, t)
  {
    Product3(a.x, b.y, c.z, t.x, t.y, t.z);
    Product3(a.x, b.z, c.y, t.x, t.z, t.y);
    Product3(a.y, b.z, c.x, t.y, t.z, t.x);
    Product3(a.y, b.x, c.z, t.y, t.x, t.z);
    Product3(a.z, b.x, c.y, t.z, t.x, t.y);
    Product3(a.z, b.y, c.x, t.z, t.y, t.x);
  }

  /** Moving a triangle by t changes its signed volume by the flux of t through its three edges. */
  lemma DetShift(a: Vec, b: Vec, c: Vec, t: Vec)
    ensures Det(a.Plus(t), b.Plus(t), c.Plus(t))
         == Det(a, b, c) + Flux(t, a, b) + Flux(t, b, c) + Flux(t, c, a)
  {
    DetMonomials(a.Plus(t), b.Plus(t), c.Plus(t));
    DetMonomials(a, b, c);
    DetMonomials(a, b, t);
    DetMonomials(b, c, t);
    DetMonomials(c, a, t);
    SixShift(a, b, c, t);
    hide *;
  }

  lemma FluxFlip(t: Vec, u: Vec, v: Vec)
    ensures Flux(t, v, u) == -Flux(t, u, v)
  {
    DetMonomials(u, v, t);
    DetMonomials(v, u, t);
    hide Flux, Det;
  }

  lemma SixTimes(a: Vec, b: Vec, c: Vec, k: real)
    ensures Six(a, b, c) * k
         == a.x * b.y * c.z * k - a.x * b.z * c.y * k + a.y * b.z * c.x * k
          - a.y * b.x * c.z * k + a.z * b.x * c.y * k - a.z * b.y * c.x * k
  {
    var p, q, r, s := a.x * b.y * c.z - a.x * b.z * c.y, a.y * b.z * c.x, a.y * b.x * c.z, a.z * b.x * c.y;
    Difference(p + q - r + s, a.z * b.y * c.x, k);
    Distribute2(p + q - r, s, k);
    Difference(p + q, r, k);
    Distribute2(p, q, k);
    Difference(a.x * b.y * c.z, a.x * b.z * c.y, k);
  }

  /** Cramer's rule: t written in the basis a, b, c. */
  lemma Cramer(a: Vec, b: Vec, c: Vec, t: Vec)
    ensures a.Times(Flux(t, b, c)).Plus(b.Times(Flux(t, c, a))).Plus(c.Times(Flux(t, a, b)))
         == t.Times(Det(a, b, c))
  {
    DetMonomials(a, b, c);
    DetMonomials(b, c, t);
    DetMonomials(c, a, t);
    DetMonomials(a, b, t);
    CramerX(a, b, c, t);
    CramerY(a, b, c, t);
    CramerZ(a, b, c, t);
    hide Det, Flux, Six;
  }

  lemma CramerX(a: Vec, b: Vec, c: Vec, t: Vec)
    ensures a.x * Six(b, c, t) + b.x * Six(c, a, t) + c.x * Six(a, b, t) == t.x * Six(a, b, c)
  {
    SixTimes(b, c, t, a.x);
    SixTimes(c, a, t, b.x);
    SixTimes(a, b, t, c.x);
    SixTimes(a, b, c, t.x);
    hide Six;
  }

  lemma CramerY(a: Vec, b: Vec, c: Vec, t: Vec)
    ensures a.y * Six(b, c, t) + b.y * Six(c, a, t) + c.y * Six(a, b, t) == t.y * Six(a, b, c)
  {
    SixTimes(b, c, t, a.y);
    SixTimes(c, a, t, b.y);
    SixTimes(a, b, t, c.y);
    SixTimes(a, b, c, t.y);
    hide Six;
  }

  lemma CramerZ(a: Vec, b: Vec, c: Vec, t: Vec)
    ensures a.z * Six(b, c, t) + b.z * Six(c, a, t) + c.z * Six(a, b, t) == t.z * Six(a, b, c)
  {
    SixTimes(b, c, t, a.z);
    SixTimes(c, a, t, b.z);
    SixTimes(a, b, t, c.z);
    SixTimes(a, b, c, t.z);
    hide Six;
  }

  lemma QuotientShift(m: real, k: real, t: real)
    requires k != 0.0
    ensures (m + t * k) / k == m / k + t
  {
    assert (m + t * k) / k == m / k + t * k / k;
  }

  lemma OverShift(m: Vec, k: real, t: Vec)
    requires k != 0.0
    ensures m.Plus(t.Times(k)).Over(k) == m.Over(k).Plus(t)
  {
    QuotientShift(m.x, k, t.x);
    QuotientShift(m.y, k, t.y);
    QuotientShift(m.z, k, t.z);
  }
}
