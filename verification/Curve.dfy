/** Jacobian arithmetic on Koblitz curves y² = x³ + b, against the chord and tangent law. */
module Curve {
  import opened Congruence

  // ---- The formulas ----

  /** A curve over the integers modulo `P` whose base point has order `N`. */
  datatype BitCurve = BitCurve(P: nat, N: nat, B: int)

  /** The point (x/z², y/z³). */
  datatype Jacobian = Jacobian(x: int, y: int, z: int)

  predicate IsOnCurve(c: BitCurve, x: int, y: int)
    requires c.P > 0
  {
    (x * x * x + c.B) % c.P == (y * y) % c.P
  }

  function DoubleJacobian(c: BitCurve, q: Jacobian): (r: Jacobian)
    requires c.P > 0
  {
    var a := q.x * q.x;
    var b := q.y * q.y;
    var cc := b * b;
    var d := ((q.x + b) * (q.x + b) - a - cc) * 2;
    var e := 3 * a;
    var f := e * e;
    var x3 := (f - 2 * d) % c.P;
    var y3 := (e * (d - x3) - 8 * cc) % c.P;
    var z3 := (2 * (q.y * q.z)) % c.P;
    Jacobian(x3, y3, z3)
  }

  /** A difference brought back into range when negative. */
  function Wrapped(c: BitCurve, n: int): (r: int) {
    if n < 0 then n + c.P else n
  }

  function AddJacobian(c: BitCurve, q1: Jacobian, q2: Jacobian): (r: Jacobian)
    requires c.P > 0
  {
    var z1z1 := (q1.z * q1.z) % c.P;
    var z2z2 := (q2.z * q2.z) % c.P;
    var u1 := (q1.x * z2z2) % c.P;
    var u2 := (q2.x * z1z1) % c.P;
    var h := Wrapped(c, u2 - u1);
    var i := (2 * h) * (2 * h);
    var j := h * i;
    var s1 := (q1.y * q2.z * z2z2) % c.P;
    var s2 := (q2.y * q1.z * z1z1) % c.P;
    var r := 2 * Wrapped(c, s2 - s1);
    var v := u1 * i;
    var x3 := (r * r - j - v - v) % c.P;
    var y3 := (r * (v - x3) - 2 * (s1 * j)) % c.P;
    var z := (q1.z + q2.z) * (q1.z + q2.z);
    var z3 := (Wrapped(c, Wrapped(c, z - z1z1) - z2z2) * h) % c.P;
    Jacobian(x3, y3, z3)
  }

  // ---- Points and the chord and tangent law ----

  /** A point of the curve other than the point at infinity. */
  datatype Point = Point(x: int, y: int)

  /** `q` stands for the affine point `a`. */
  ghost predicate Represents(p: nat, q: Jacobian, a: Point)
    requires p > 0
  {
    Cong(p, q.x, a.x * (q.z * q.z)) && Cong(p, q.y, a.y * (q.z * q.z * q.z)) && !Cong(p, q.z, 0)
  }

  /** The line of slope `l` through `a` and `b` meets the curve again in the mirror image of `r`. */
  ghost predicate OnLine(p: nat, a: Point, b: Point, l: int, r: Point)
    requires p > 0
  {
    Cong(p, r.x, l * l - a.x - b.x) && Cong(p, r.y, l * (a.x - r.x) - a.y)
  }

  /** The line is the tangent in `a`. */
  ghost predicate TangentLine(p: nat, a: Point, r: Point)
    requires p > 0
  {
    exists l :: Cong(p, l * (2 * a.y), 3 * (a.x * a.x)) && OnLine(p, a, a, l, r)
  }

  /** `r` doubles `a`, whose tangent is not vertical. */
  ghost predicate Tangent(p: nat, a: Point, r: Point)
    requires p > 0
  {
    !Cong(p, 2 * a.y, 0) && TangentLine(p, a, r)
  }

  /** `r` is the sum of `a` and `b`: the line is the chord. */
  ghost predicate Chord(p: nat, a: Point, b: Point, r: Point)
    requires p > 0
  {
    !Cong(p, b.x - a.x, 0) && exists l :: Cong(p, l * (b.x - a.x), b.y - a.y) && OnLine(p, a, b, l, r)
  }

  lemma {:induction false} FinishX(l: int, ax: int, bx: int, w: int)
    ensures (l * l - ax - bx) * (w * w) == (l * w) * (l * w) - (bx - ax) * (w * w) - 2 * (ax * (w * w))
  {
    Swap(l, w, l, w);
    Spread(l * l, ax, bx, w * w);
    Spread(bx, ax, 0, w * w);
  }

  lemma {:induction false} FinishY(l: int, ax: int, rx: int, ay: int, w: int)
    ensures (l * w) * (ax * (w * w) - rx * (w * w)) - ay * (w * w * w) == (l * (ax - rx) - ay) * (w * w * w)
  {
    Spread(ax, rx, 0, w * w);
    Swap(l, w, ax - rx, w * w);
    assert w * (w * w) == w * w * w;
    Spread(l * (ax - rx), ay, 0, w * w * w);
  }

  /** With `w` for the new z, both formulas end the same way: the slope times `w`, squared,
      minus the multiples of w² gives x·w², and so on. */
  lemma {:induction false} Finish(p: nat, a: Point, b: Point, l: int, r: Point, w: int, x3: int, y3: int)
    requires p > 0 && OnLine(p, a, b, l, r)
    requires Cong(p, x3, (l * w) * (l * w) - (b.x - a.x) * (w * w) - 2 * (a.x * (w * w)))
    requires Cong(p, y3, (l * w) * (a.x * (w * w) - x3) - a.y * (w * w * w))
    ensures Cong(p, x3, r.x * (w * w)) && Cong(p, y3, r.y * (w * w * w))
  {
    FinishX(l, a.x, b.x, w);
    FinishY(l, a.x, r.x, a.y, w);
    Finished(p, r, l * l - a.x - b.x, l * (a.x - r.x) - a.y, l * w, a.x * (w * w), a.y * (w * w * w), w * w, w * w * w,
      x3, y3);
  }

  lemma {:induction false} Finished(p: nat, r: Point, rx: int, ry: int, m: int, n: int, o: int, ww: int, www: int,
                                    x3: int, y3: int)
    requires p > 0 && Cong(p, r.x, rx) && Cong(p, r.y, ry)
    requires Cong(p, x3, rx * ww) && Cong(p, y3, m * (n - x3) - o) && m * (n - r.x * ww) - o == ry * www
    ensures Cong(p, x3, r.x * ww) && Cong(p, y3, r.y * www)
  {
    CongMul(p, r.x, rx, ww, ww);
    CongSym(p, r.x * ww, rx * ww);
    CongTrans(p, x3, rx * ww, r.x * ww);
    CongAdd(p, n, n, x3, r.x * ww);
    CongScale(p, m, n - x3, n - r.x * ww);
    CongAdd(p, m * (n - x3), m * (n - r.x * ww), o, o);
    CongTrans(p, y3, m * (n - x3) - o, ry * www);
    CongMul(p, r.y, ry, www, www);
    CongSym(p, r.y * www, ry * www);
    CongTrans(p, y3, ry * www, r.y * www);
  }

  // ---- Doubling ----

  ghost function Fourth(z: int): (f: int) {
    (z * z) * (z * z)
  }

  /** The intermediate values of doubling, in terms of the new z. */
  lemma {:induction false} DoubleParts(p: nat, q: Jacobian, a: Point, l: int, w: int)
    requires p > 0 && Represents(p, q, a) && Cong(p, l * (2 * a.y), 3 * (a.x * a.x))
    requires Cong(p, w, 2 * (q.y * q.z))
    ensures Cong(p, w, (2 * a.y) * Fourth(q.z))
    ensures Cong(p, 3 * (q.x * q.x), l * w)
    ensures Cong(p, 4 * (q.x * (q.y * q.y)), a.x * (w * w))
    ensures Cong(p, 8 * ((q.y * q.y) * (q.y * q.y)), a.y * (w * w * w))
  {
    var z := q.z;
    var x, y, z4 := a.x * (z * z), a.y * (z * z * z), Fourth(z);
    var W := (2 * a.y) * z4;
    CongMul(p, q.y, y, z, z);
    CongScale(p, 2, q.y * z, y * z);
    assert 2 * (y * z) == W;
    CongTrans(p, w, 2 * (q.y * z), W);
    DoubleSlope(p, q.x, a, l, z, w);
    CongMul(p, q.y, y, q.y, y);
    CongMul(p, q.x, x, q.y * q.y, y * y);
    CongScale(p, 4, q.x * (q.y * q.y), x * (y * y));
    CongMul(p, w, W, w, W);
    CongMul(p, a.x, a.x, w * w, W * W);
    assert 4 * (x * (y * y)) == a.x * (W * W) by {
      DoubleMonomials(a, z);
    }
    CongSym(p, a.x * (w * w), a.x * (W * W));
    CongTrans(p, 4 * (q.x * (q.y * q.y)), a.x * (W * W), a.x * (w * w));
    CongMul(p, q.y * q.y, y * y, q.y * q.y, y * y);
    CongScale(p, 8, (q.y * q.y) * (q.y * q.y), (y * y) * (y * y));
    CongMul(p, w * w, W * W, w, W);
    CongMul(p, a.y, a.y, w * w * w, W * W * W);
    assert 8 * ((y * y) * (y * y)) == a.y * (W * W * W) by {
      DoubleMonomials(a, z);
    }
    CongSym(p, a.y * (w * w * w), a.y * (W * W * W));
    CongTrans(p, 8 * ((q.y * q.y) * (q.y * q.y)), a.y * (W * W * W), a.y * (w * w * w));
  }

  lemma {:induction false} DoubleMonomials(a: Point, z: int)
    ensures var x, y, W := a.x * (z * z), a.y * (z * z * z), (2 * a.y) * Fourth(z);
            4 * (x * (y * y)) == a.x * (W * W) && 8 * ((y * y) * (y * y)) == a.y * (W * W * W)
  {
    var x, y, z4 := a.x * (z * z), a.y * (z * z * z), Fourth(z);
    var v, W := 2 * a.y, (2 * a.y) * z4;
    var z6 := (z * z * z) * (z * z * z);
    ZPowers(z);
    Swap(v, z4, v, z4);
    Swap(a.y, z * z * z, a.y, z * z * z);
    Swap(a.x, z * z, a.y * a.y, z6);
    assert v * v == 4 * (a.y * a.y);
    assert a.x * (4 * (a.y * a.y) * (z4 * z4)) == 4 * ((a.x * (a.y * a.y)) * (z4 * z4));
    Swap(a.y * a.y, z6, a.y * a.y, z6);
    Swap(v * v, z4 * z4, v, z4);
    CubeOfDouble(a.y);
    assert a.y * ((v * v * v) * (z6 * z6)) == (a.y * (v * v * v)) * (z6 * z6);
    assert 8 * (((a.y * a.y) * (a.y * a.y)) * (z6 * z6)) == (8 * ((a.y * a.y) * (a.y * a.y))) * (z6 * z6);
  }

  lemma {:induction false} CubeOfDouble(y: int)
    ensures var v := 2 * y; y * (v * v * v) == 8 * ((y * y) * (y * y))
  {
    var v := 2 * y;
    assert v * v == 4 * (y * y);
    assert v * v * v == 8 * (y * y * y);
    assert y * (y * y * y) == (y * y) * (y * y);
  }

  lemma {:induction false} ZPowers(z: int)
    ensures var z4, z6 := Fourth(z), (z * z * z) * (z * z * z);
            (z * z) * z6 == z4 * z4 && (z4 * z4) * z4 == z6 * z6
  {
    var s := z * z;
    var z6 := (z * z * z) * (z * z * z);
    Swap(s, z, s, z);
    assert z6 == (s * s) * s;
    assert s * ((s * s) * s) == (s * s) * (s * s);
    var q := s * s;
    assert (q * q) * q == (q * s) * (q * s) by {
      Swap(q, s, q, s);
    }
  }

  lemma {:induction false} DoubleSlope(p: nat, qx: int, a: Point, l: int, z: int, w: int)
    requires p > 0 && Cong(p, qx, a.x * (z * z)) && Cong(p, l * (2 * a.y), 3 * (a.x * a.x))
    requires Cong(p, w, (2 * a.y) * Fourth(z))
    ensures Cong(p, 3 * (qx * qx), l * w)
  {
    var x, z4 := a.x * (z * z), Fourth(z);
    CongMul(p, qx, x, qx, x);
    CongScale(p, 3, qx * qx, x * x);
    CongMul(p, l * (2 * a.y), 3 * (a.x * a.x), z4, z4);
    assert 3 * (x * x) == 3 * (a.x * a.x) * z4;
    CongScale(p, l, w, (2 * a.y) * z4);
    assert l * ((2 * a.y) * z4) == l * (2 * a.y) * z4;
    CongSym(p, l * (2 * a.y) * z4, 3 * (x * x));
    CongSym(p, l * w, l * (2 * a.y) * z4);
    CongTrans(p, 3 * (qx * qx), 3 * (x * x), l * (2 * a.y) * z4);
    CongTrans(p, 3 * (qx * qx), l * (2 * a.y) * z4, l * w);
  }

  lemma {:induction false} Binomial(x: int, b: int)
    ensures ((x + b) * (x + b) - x * x - b * b) * 2 == 4 * (x * b)
  {
    assert (x + b) * (x + b) == x * x + 2 * (x * b) + b * b;
  }

  lemma {:induction false} DoubleForm(c: BitCurve, q: Jacobian, e: int, d: int, c8: int)
    requires c.P > 0 && e == 3 * (q.x * q.x)
             && d == ((q.x + q.y * q.y) * (q.x + q.y * q.y) - q.x * q.x - (q.y * q.y) * (q.y * q.y)) * 2
    requires c8 == 8 * ((q.y * q.y) * (q.y * q.y))
    ensures var r := DoubleJacobian(c, q);
            && r.x == (e * e - 2 * d) % c.P && r.y == (e * (d - r.x) - c8) % c.P && r.z == (2 * (q.y * q.z)) % c.P
  {
  }

  /** What the doubling formula computes before reduction. */
  lemma {:induction false} DoubleShape(c: BitCurve, q: Jacobian, e: int, d: int, c8: int)
    requires c.P > 0 && e == 3 * (q.x * q.x) && d == 4 * (q.x * (q.y * q.y)) && c8 == 8 * ((q.y * q.y) * (q.y * q.y))
    ensures var r := DoubleJacobian(c, q);
            Cong(c.P, r.x, e * e - 2 * d) && Cong(c.P, r.y, e * (d - r.x) - c8) && Cong(c.P, r.z, 2 * (q.y * q.z))
  {
    Binomial(q.x, q.y * q.y);
    DoubleForm(c, q, e, d, c8);
    var r := DoubleJacobian(c, q);
    CongMod(c.P, e * e - 2 * d);
    CongMod(c.P, e * (d - r.x) - c8);
    CongMod(c.P, 2 * (q.y * q.z));
  }

  lemma {:induction false} DoubleReduced(p: nat, e: int, d: int, c8: int, a: Point, l: int, w: int, x3: int, y3: int)
    requires p > 0 && Cong(p, e, l * w) && Cong(p, d, a.x * (w * w)) && Cong(p, c8, a.y * (w * w * w))
    requires Cong(p, x3, e * e - 2 * d) && Cong(p, y3, e * (d - x3) - c8)
    ensures Cong(p, x3, (l * w) * (l * w) - (a.x - a.x) * (w * w) - 2 * (a.x * (w * w)))
    ensures Cong(p, y3, (l * w) * (a.x * (w * w) - x3) - a.y * (w * w * w))
  {
    CongMul(p, e, l * w, e, l * w);
    CongScale(p, 2, d, a.x * (w * w));
    CongAdd(p, e * e, (l * w) * (l * w), 2 * d, 2 * (a.x * (w * w)));
    CongTrans(p, x3, e * e - 2 * d, (l * w) * (l * w) - 2 * (a.x * (w * w)));
    CongAdd(p, d, a.x * (w * w), x3, x3);
    CongMul(p, e, l * w, d - x3, a.x * (w * w) - x3);
    CongAdd(p, e * (d - x3), (l * w) * (a.x * (w * w) - x3), c8, a.y * (w * w * w));
    CongTrans(p, y3, e * (d - x3) - c8, (l * w) * (a.x * (w * w) - x3) - a.y * (w * w * w));
  }

  /** Doubling a representative gives a representative of the doubled point. */
  lemma {:induction false} DoubleRepresents(c: BitCurve, q: Jacobian, a: Point, r: Point)
    requires Field(c.P) && Represents(c.P, q, a) && Tangent(c.P, a, r)
    ensures Represents(c.P, DoubleJacobian(c, q), r)
  {
    var p, o := c.P, DoubleJacobian(c, q);
    var l :| Cong(p, l * (2 * a.y), 3 * (a.x * a.x)) && OnLine(p, a, a, l, r);
    var e, d, c8 := 3 * (q.x * q.x), 4 * (q.x * (q.y * q.y)), 8 * ((q.y * q.y) * (q.y * q.y));
    DoubleShape(c, q, e, d, c8);
    DoubleParts(p, q, a, l, o.z);
    DoubleReduced(p, e, d, c8, a, l, o.z, o.x, o.y);
    Finish(p, a, a, l, r, o.z, o.x, o.y);
    ProductNonZero(p, q.z, q.z);
    ProductNonZero(p, q.z * q.z, q.z * q.z);
    ProductNonZero(p, 2 * a.y, Fourth(q.z));
    CongZero(p, o.z, (2 * a.y) * Fourth(q.z));
  }

  // ---- Doubling keeps the curve equation ----

  /** y² = x³ + b·z⁶ in Jacobian coordinates. */
  ghost predicate OnJacobian(c: BitCurve, q: Jacobian)
    requires c.P > 0
  {
    Cong(c.P, q.y * q.y - q.x * q.x * q.x - c.B * Sixth(q.z), 0)
  }

  ghost function Sixth(z: int): (s: int) {
    (z * z * z) * (z * z * z)
  }

  lemma {:induction false} SquareOut(p: int, q: int, r: int)
    ensures (36 * p - 27 * q - 8 * r) * (36 * p - 27 * q - 8 * r)
         == 1296 * (p * p) + 729 * (q * q) + 64 * (r * r) - 1944 * (p * q) - 576 * (p * r) + 432 * (q * r)
  {
  }

  lemma {:induction false} CubeOut(p: int, q: int, r: int)
    ensures (9 * q - 8 * p) * (81 * q - 144 * p + 64 * r)
         == 729 * (q * q) - 1944 * (p * q) + 576 * (q * r) + 1152 * (p * p) - 512 * (p * r)
  {
  }

  /** The key identity: doubling multiplies the residual by 64·y⁶. */
  lemma {:induction false} Residual(u: int, v: int)
    ensures var X, Y := 9 * u - 8 * v, 36 * (u * v) - 27 * (u * u) - 8 * (v * v);
            Y * Y - u * X * (X * X) == 64 * ((v * v) * (v * v) - (u * v) * (v * v))
  {
    var p, q, r := u * v, u * u, v * v;
    SquareOut(p, q, r);
    CubeOut(p, q, r);
    var X := 9 * u - 8 * v;
    assert u * X == 9 * q - 8 * p;
    assert X * X == 81 * q - 144 * p + 64 * r;
    assert q * r == p * p;
  }

  lemma {:induction false} SixthCong(p: nat, a: int, b: int)
    requires p > 0 && Cong(p, a, b)
    ensures Cong(p, a * a * a, b * b * b) && Cong(p, Sixth(a), Sixth(b))
  {
    CongMul(p, a, b, a, b);
    CongMul(p, a * a, b * b, a, b);
    CongMul(p, a * a * a, b * b * b, a * a * a, b * b * b);
  }

  /** The doubled coordinates through u = x³ and v = y². */
  lemma {:induction false} DoubleExact(x: int, u: int, v: int)
    requires u == x * x * x
    ensures var e, d := 3 * (x * x), 4 * (x * v);
            var X := x * (9 * u - 8 * v);
            && e * e - 2 * d == X
            && e * (d - X) - 8 * (v * v) == 36 * (u * v) - 27 * (u * u) - 8 * (v * v)
            && X * X * X == u * (9 * u - 8 * v) * ((9 * u - 8 * v) * (9 * u - 8 * v))
  {
    var k := 9 * u - 8 * v;
    var X := x * k;
    assert (x * x) * (x * x) == x * u;
    assert X == 9 * (x * u) - 8 * (x * v);
    assert 4 * (x * v) - X == x * (12 * v - 9 * u);
    assert (x * x) * (x * (12 * v - 9 * u)) == u * (12 * v - 9 * u);
    assert X * X * X == (x * x * x) * (k * (k * k));
  }

  lemma {:induction false} SixthOfProduct(y: int, z: int)
    ensures Sixth(2 * (y * z)) == 64 * (((y * y) * (y * y) * (y * y)) * Sixth(z))
  {
    var w := y * z;
    assert (2 * w) * (2 * w) * (2 * w) == 8 * (w * w * w);
    assert w * w * w == (y * y * y) * (z * z * z);
    assert (w * w * w) * (w * w * w) == ((y * y * y) * (y * y * y)) * Sixth(z);
    assert (y * y * y) * (y * y * y) == (y * y) * (y * y) * (y * y);
  }

  lemma {:induction false} ResidualFactor(u: int, v: int, b: int, s: int)
    ensures 64 * ((v * v) * (v * v) - (u * v) * (v * v)) - b * (64 * ((v * v * v) * s))
            == 64 * (v * v * v) * (v - u - b * s)
  {
    var w := v * v * v;
    assert (v * v) * (v * v) == w * v;
    assert (u * v) * (v * v) == w * u;
    assert b * (64 * (w * s)) == 64 * w * (b * s);
  }

  /** Doubling any triple that satisfies the curve equation gives one that does. */
  lemma {:induction false} DoubleKeepsCurve(c: BitCurve, q: Jacobian)
    requires c.P > 0 && OnJacobian(c, q)
    ensures OnJacobian(c, DoubleJacobian(c, q))
  {
    var p, r := c.P, DoubleJacobian(c, q);
    var u, v := q.x * q.x * q.x, q.y * q.y;
    var e, d, c8 := 3 * (q.x * q.x), 4 * (q.x * v), 8 * (v * v);
    var X, Y, Z := q.x * (9 * u - 8 * v), 36 * (u * v) - 27 * (u * u) - 8 * (v * v), 2 * (q.y * q.z);
    DoubleShape(c, q, e, d, c8);
    DoubleExact(q.x, u, v);
    DoubledY(p, e, d, c8, r.x, r.y, X);
    CongMul(p, r.y, Y, r.y, Y);
    SixthCong(p, r.x, X);
    SixthCong(p, r.z, Z);
    CongAdd(p, r.y * r.y, Y * Y, r.x * r.x * r.x, X * X * X);
    CongScale(p, c.B, Sixth(r.z), Sixth(Z));
    CongAdd(p, r.y * r.y - r.x * r.x * r.x, Y * Y - X * X * X, c.B * Sixth(r.z), c.B * Sixth(Z));
    Residual(u, v);
    SixthOfProduct(q.y, q.z);
    ResidualFactor(u, v, c.B, Sixth(q.z));
    var rest := v - u - c.B * Sixth(q.z);
    CongScale(p, 64 * (v * v * v), rest, 0);
    CongTrans(p, r.y * r.y - r.x * r.x * r.x - c.B * Sixth(r.z), 64 * (v * v * v) * rest, 0);
  }

  lemma {:induction false} DoubledY(p: nat, e: int, d: int, c8: int, x3: int, y3: int, X: int)
    requires p > 0 && Cong(p, x3, X) && Cong(p, y3, e * (d - x3) - c8)
    ensures Cong(p, y3, e * (d - X) - c8)
  {
    CongAdd(p, d, d, x3, X);
    CongScale(p, e, d - x3, d - X);
    CongAdd(p, e * (d - x3), e * (d - X), c8, c8);
    CongTrans(p, y3, e * (d - x3) - c8, e * (d - X) - c8);
  }

  // ---- Adding ----

  lemma {:induction false} WrappedCong(c: BitCurve, a: int, b: int)
    requires c.P > 0 && Cong(c.P, a, b)
    ensures Cong(c.P, Wrapped(c, a), b)
  {
    CongWith(c.P, a + c.P, a, 1);
    CongTrans(c.P, a + c.P, a, b);
  }

  lemma {:induction false} ReducedMul(p: nat, x: int, m: int, n: int)
    requires p > 0 && Cong(p, m, n)
    ensures Cong(p, (x * m) % p, x * n)
  {
    CongMod(p, x * m);
    CongScale(p, x, m, n);
    CongTrans(p, (x * m) % p, x * m, x * n);
  }

  /** What the addition formula computes: the differences `h` and `r` and the rest. */
  lemma {:induction false} AddShape(c: BitCurve, q1: Jacobian, q2: Jacobian) returns (u1: int, s1: int, h: int, r: int)
    requires c.P > 0
    ensures Cong(c.P, u1, q1.x * (q2.z * q2.z)) && Cong(c.P, s1, q1.y * (q2.z * q2.z * q2.z))
    ensures Cong(c.P, h, q2.x * (q1.z * q1.z) - q1.x * (q2.z * q2.z))
    ensures Cong(c.P, r, 2 * (q2.y * (q1.z * q1.z * q1.z) - q1.y * (q2.z * q2.z * q2.z)))
    ensures var o, i := AddJacobian(c, q1, q2), (2 * h) * (2 * h);
            && Cong(c.P, o.x, r * r - h * i - u1 * i - u1 * i)
            && Cong(c.P, o.y, r * (u1 * i - o.x) - 2 * (s1 * (h * i)))
            && Cong(c.P, o.z, 2 * (q1.z * q2.z) * h)
  {
    var p := c.P;
    var z1z1, z2z2 := (q1.z * q1.z) % p, (q2.z * q2.z) % p;
    CongMod(p, q1.z * q1.z);
    CongMod(p, q2.z * q2.z);
    var u2, s2;
    u1, u2 := (q1.x * z2z2) % p, (q2.x * z1z1) % p;
    ReducedMul(p, q1.x, z2z2, q2.z * q2.z);
    ReducedMul(p, q2.x, z1z1, q1.z * q1.z);
    s1, s2 := (q1.y * q2.z * z2z2) % p, (q2.y * q1.z * z1z1) % p;
    ReducedMul(p, q1.y * q2.z, z2z2, q2.z * q2.z);
    ReducedMul(p, q2.y * q1.z, z1z1, q1.z * q1.z);
    Reassociate(q1.y, q2.z);
    Reassociate(q2.y, q1.z);
    CongAdd(p, u2, q2.x * (q1.z * q1.z), u1, q1.x * (q2.z * q2.z));
    CongAdd(p, s2, q2.y * (q1.z * q1.z * q1.z), s1, q1.y * (q2.z * q2.z * q2.z));
    h := Wrapped(c, u2 - u1);
    WrappedCong(c, u2 - u1, q2.x * (q1.z * q1.z) - q1.x * (q2.z * q2.z));
    WrappedCong(c, s2 - s1, q2.y * (q1.z * q1.z * q1.z) - q1.y * (q2.z * q2.z * q2.z));
    r := 2 * Wrapped(c, s2 - s1);
    CongScale(p, 2, Wrapped(c, s2 - s1), q2.y * (q1.z * q1.z * q1.z) - q1.y * (q2.z * q2.z * q2.z));
    AddOutputs(c, q1, q2, u1, s1, h, r);
  }

  lemma {:induction false} Reassociate(y: int, z: int)
    ensures y * z * (z * z) == y * (z * z * z)
  {
  }

  lemma {:induction false} AddOutputs(c: BitCurve, q1: Jacobian, q2: Jacobian, u1: int, s1: int, h: int, r: int)
    requires c.P > 0
    requires u1 == (q1.x * ((q2.z * q2.z) % c.P)) % c.P && s1 == (q1.y * q2.z * ((q2.z * q2.z) % c.P)) % c.P
    requires h == Wrapped(c, (q2.x * ((q1.z * q1.z) % c.P)) % c.P - u1)
    requires r == 2 * Wrapped(c, (q2.y * q1.z * ((q1.z * q1.z) % c.P)) % c.P - s1)
    ensures var o, i := AddJacobian(c, q1, q2), (2 * h) * (2 * h);
            && Cong(c.P, o.x, r * r - h * i - u1 * i - u1 * i)
            && Cong(c.P, o.y, r * (u1 * i - o.x) - 2 * (s1 * (h * i)))
            && Cong(c.P, o.z, 2 * (q1.z * q2.z) * h)
  {
    var p, o, i := c.P, AddJacobian(c, q1, q2), (2 * h) * (2 * h);
    CongMod(p, r * r - h * i - u1 * i - u1 * i);
    CongMod(p, r * (u1 * i - o.x) - 2 * (s1 * (h * i)));
    AddedZ(c, q1.z, q2.z, h);
  }

  lemma {:induction false} AddedZ(c: BitCurve, z1: int, z2: int, h: int)
    requires c.P > 0
    ensures var z := (z1 + z2) * (z1 + z2);
            Cong(c.P, (Wrapped(c, Wrapped(c, z - (z1 * z1) % c.P) - (z2 * z2) % c.P) * h) % c.P, 2 * (z1 * z2) * h)
  {
    var p, z := c.P, (z1 + z2) * (z1 + z2);
    CongMod(p, z1 * z1);
    CongMod(p, z2 * z2);
    CongAdd(p, z, z, (z1 * z1) % p, z1 * z1);
    WrappedCong(c, z - (z1 * z1) % p, z - z1 * z1);
    CongAdd(p, Wrapped(c, z - (z1 * z1) % p), z - z1 * z1, (z2 * z2) % p, z2 * z2);
    assert z - z1 * z1 - z2 * z2 == 2 * (z1 * z2);
    WrappedCong(c, Wrapped(c, z - (z1 * z1) % p) - (z2 * z2) % p, 2 * (z1 * z2));
    var m := Wrapped(c, Wrapped(c, z - (z1 * z1) % p) - (z2 * z2) % p);
    CongMul(p, m, 2 * (z1 * z2), h, h);
    CongMod(p, m * h);
    CongTrans(p, (m * h) % p, m * h, 2 * (z1 * z2) * h);
  }

  ghost function Cube(z: int): (r: int) {
    z * z * z
  }

  /** With g = z₁·z₂, what both points contribute to the sum. */
  lemma {:induction false} AddCommon(p: nat, q1: Jacobian, q2: Jacobian, a: Point, b: Point)
    requires p > 0 && Represents(p, q1, a) && Represents(p, q2, b)
    ensures var g := q1.z * q2.z;
            && Cong(p, q1.x * (q2.z * q2.z), a.x * (g * g)) && Cong(p, q2.x * (q1.z * q1.z), b.x * (g * g))
            && Cong(p, q1.y * Cube(q2.z), a.y * Cube(g)) && Cong(p, q2.y * Cube(q1.z), b.y * Cube(g))
  {
    var z1, z2 := q1.z, q2.z;
    CongMul(p, q1.x, a.x * (z1 * z1), z2 * z2, z2 * z2);
    CongMul(p, q2.x, b.x * (z2 * z2), z1 * z1, z1 * z1);
    CongMul(p, q1.y, a.y * Cube(z1), Cube(z2), Cube(z2));
    CongMul(p, q2.y, b.y * Cube(z2), Cube(z1), Cube(z1));
    Pairing(a.x, z1, z2);
    Pairing(b.x, z2, z1);
    Pairing(a.y, z1, z2);
    Pairing(b.y, z2, z1);
  }

  lemma {:induction false} Pairing(n: int, y: int, z: int)
    ensures n * (y * y) * (z * z) == n * ((y * z) * (y * z)) && n * ((z * y) * (z * y)) == n * ((y * z) * (y * z))
    ensures n * Cube(y) * Cube(z) == n * Cube(y * z) && Cube(z * y) == Cube(y * z)
  {
    assert (y * y) * (z * z) == (y * z) * (y * z);
    assert Cube(y) * Cube(z) == Cube(y * z) by {
      assert Cube(y) * Cube(z) == (y * z) * ((y * z) * (y * z));
    }
    assert z * y == y * z;
  }

  /** The intermediate values of addition in terms of w = 2·g·h. */
  lemma {:induction false} AddParts(p: nat, a: Point, b: Point, l: int, g: int, u1: int, s1: int, h: int, r: int)
    requires p > 0 && Cong(p, l * (b.x - a.x), b.y - a.y)
    requires Cong(p, u1, a.x * (g * g)) && Cong(p, s1, a.y * Cube(g))
    requires Cong(p, h, b.x * (g * g) - a.x * (g * g)) && Cong(p, r, 2 * (b.y * Cube(g) - a.y * Cube(g)))
    ensures var w, i := 2 * g * h, (2 * h) * (2 * h);
            && Cong(p, r, l * w) && Cong(p, u1 * i, a.x * (w * w))
            && Cong(p, h * i, (b.x - a.x) * (w * w)) && Cong(p, 2 * (s1 * (h * i)), a.y * Cube(w))
  {
    var w, i, d := 2 * g * h, (2 * h) * (2 * h), b.x - a.x;
    AddSlope(p, a, b, l, g, h, r);
    AddSquares(g, h);
    ScaledBy(p, u1, a.x, g * g, i, w * w);
    assert b.x * (g * g) - a.x * (g * g) == d * (g * g);
    ScaledBy(p, h, d, g * g, i, w * w);
    ScaledBy(p, s1, a.y, Cube(g), 2 * (h * i), Cube(w));
    assert s1 * (2 * (h * i)) == 2 * (s1 * (h * i));
  }

  lemma {:induction false} ScaledBy(p: nat, m: int, n: int, f: int, i: int, e: int)
    requires p > 0 && Cong(p, m, n * f) && f * i == e
    ensures Cong(p, m * i, n * e)
  {
    CongMul(p, m, n * f, i, i);
    assert n * f * i == n * (f * i);
  }

  lemma {:induction false} AddSquares(g: int, h: int)
    ensures var w, i := 2 * g * h, (2 * h) * (2 * h);
            (g * g) * i == w * w && Cube(g) * (2 * (h * i)) == Cube(w)
  {
    var w, i := 2 * g * h, (2 * h) * (2 * h);
    var m := g * h;
    assert w == 2 * m;
    assert (g * g) * (h * h) == m * m;
    assert w * w == 4 * (m * m);
    assert Cube(g) * Cube(h) == Cube(m) by {
      Pairing(1, g, h);
    }
    assert h * i == 4 * Cube(h);
    assert Cube(w) == 8 * Cube(m);
    assert Cube(g) * (2 * (4 * Cube(h))) == 8 * (Cube(g) * Cube(h));
  }

  lemma {:induction false} AddSlope(p: nat, a: Point, b: Point, l: int, g: int, h: int, r: int)
    requires p > 0 && Cong(p, l * (b.x - a.x), b.y - a.y)
    requires Cong(p, h, b.x * (g * g) - a.x * (g * g)) && Cong(p, r, 2 * (b.y * Cube(g) - a.y * Cube(g)))
    ensures Cong(p, r, l * (2 * g * h))
  {
    var d, g3 := b.x - a.x, Cube(g);
    CongMul(p, l * d, b.y - a.y, g3, g3);
    CongScale(p, 2, l * d * g3, (b.y - a.y) * g3);
    assert 2 * ((b.y - a.y) * g3) == 2 * (b.y * g3 - a.y * g3);
    CongSym(p, 2 * (l * d * g3), 2 * (b.y * g3 - a.y * g3));
    CongTrans(p, r, 2 * (b.y * g3 - a.y * g3), 2 * (l * d * g3));
    assert b.x * (g * g) - a.x * (g * g) == d * (g * g);
    CongScale(p, l * (2 * g), h, d * (g * g));
    assert l * (2 * g) * (d * (g * g)) == 2 * (l * d * g3);
    assert l * (2 * g) * h == l * (2 * g * h);
    CongSym(p, l * (2 * g * h), 2 * (l * d * g3));
    CongTrans(p, r, 2 * (l * d * g3), l * (2 * g * h));
  }

  lemma {:induction false} AddReduced(p: nat, L: int, A: int, D: int, T: int, r: int, v: int, j: int, t: int, x3: int,
                                      y3: int)
    requires p > 0 && Cong(p, r, L) && Cong(p, v, A) && Cong(p, j, D) && Cong(p, t, T)
    requires Cong(p, x3, r * r - j - v - v) && Cong(p, y3, r * (v - x3) - t)
    ensures Cong(p, x3, L * L - D - 2 * A) && Cong(p, y3, L * (A - x3) - T)
  {
    CongMul(p, r, L, r, L);
    CongAdd(p, r * r, L * L, j, D);
    CongAdd(p, r * r - j, L * L - D, v, A);
    CongAdd(p, r * r - j - v, L * L - D - A, v, A);
    CongTrans(p, x3, r * r - j - v - v, L * L - D - A - A);
    CongAdd(p, v, A, x3, x3);
    CongMul(p, r, L, v - x3, A - x3);
    CongAdd(p, r * (v - x3), L * (A - x3), t, T);
    CongTrans(p, y3, r * (v - x3) - t, L * (A - x3) - T);
  }

  /** Exchanging `w` for a congruent value. */
  lemma {:induction false} PartsAt(p: nat, a: Point, b: Point, l: int, w: int, w': int, r: int, v: int, j: int, t: int)
    requires p > 0 && Cong(p, w', w)
    requires Cong(p, r, l * w) && Cong(p, v, a.x * (w * w)) && Cong(p, j, (b.x - a.x) * (w * w))
             && Cong(p, t, a.y * Cube(w))
    ensures Cong(p, r, l * w') && Cong(p, v, a.x * (w' * w')) && Cong(p, j, (b.x - a.x) * (w' * w'))
            && Cong(p, t, a.y * Cube(w'))
  {
    CongSym(p, w', w);
    CongMul(p, w, w', w, w');
    CongMul(p, w * w, w' * w', w, w');
    CongScale(p, l, w, w');
    CongScale(p, a.x, w * w, w' * w');
    CongScale(p, b.x - a.x, w * w, w' * w');
    CongScale(p, a.y, Cube(w), Cube(w'));
    CongTrans(p, r, l * w, l * w');
    CongTrans(p, v, a.x * (w * w), a.x * (w' * w'));
    CongTrans(p, j, (b.x - a.x) * (w * w), (b.x - a.x) * (w' * w'));
    CongTrans(p, t, a.y * Cube(w), a.y * Cube(w'));
  }

  lemma {:induction false} AddedNonZero(p: nat, g: int, d: int, h: int)
    requires Field(p) && p > 2 && !Cong(p, g, 0) && !Cong(p, d, 0) && Cong(p, h, d * (g * g))
    ensures !Cong(p, 2 * g * h, 0)
  {
    ProductNonZero(p, g, g);
    ProductNonZero(p, d, g * g);
    CongZero(p, h, d * (g * g));
    ProductNonZero(p, 2, g);
    ProductNonZero(p, 2 * g, h);
  }

  lemma {:induction false} AddCoordinates(p: nat, a: Point, b: Point, l: int, r: Point, g: int, u1: int, s1: int,
                                          h: int, rr: int, o: Jacobian)
    requires p > 0 && Cong(p, l * (b.x - a.x), b.y - a.y) && OnLine(p, a, b, l, r)
    requires Cong(p, u1, a.x * (g * g)) && Cong(p, s1, a.y * Cube(g))
    requires Cong(p, h, b.x * (g * g) - a.x * (g * g)) && Cong(p, rr, 2 * (b.y * Cube(g) - a.y * Cube(g)))
    requires var i := (2 * h) * (2 * h);
             && Cong(p, o.x, rr * rr - h * i - u1 * i - u1 * i)
             && Cong(p, o.y, rr * (u1 * i - o.x) - 2 * (s1 * (h * i)))
             && Cong(p, o.z, 2 * g * h)
    ensures Cong(p, o.x, r.x * (o.z * o.z)) && Cong(p, o.y, r.y * (o.z * o.z * o.z))
  {
    var i, w := (2 * h) * (2 * h), o.z;
    AddParts(p, a, b, l, g, u1, s1, h, rr);
    PartsAt(p, a, b, l, 2 * g * h, w, rr, u1 * i, h * i, 2 * (s1 * (h * i)));
    AddReduced(p, l * w, a.x * (w * w), (b.x - a.x) * (w * w), a.y * Cube(w), rr, u1 * i, h * i, 2 * (s1 * (h * i)),
      o.x, o.y);
    Finish(p, a, b, l, r, w, o.x, o.y);
  }

  /** Adding representatives of two points with different x gives one of their sum. */
  lemma {:induction false} AddRepresents(c: BitCurve, q1: Jacobian, q2: Jacobian, a: Point, b: Point, r: Point)
    requires Field(c.P) && c.P > 2 && Represents(c.P, q1, a) && Represents(c.P, q2, b) && Chord(c.P, a, b, r)
    ensures Represents(c.P, AddJacobian(c, q1, q2), r)
  {
    var p, o, g := c.P, AddJacobian(c, q1, q2), q1.z * q2.z;
    var l :| Cong(p, l * (b.x - a.x), b.y - a.y) && OnLine(p, a, b, l, r);
    var u1, s1, h, rr := AddShape(c, q1, q2);
    AddCommon(p, q1, q2, a, b);
    AddInputs(p, q1, q2, a, b, g, u1, s1, h, rr);
    AddCoordinates(p, a, b, l, r, g, u1, s1, h, rr, o);
    ProductNonZero(p, q1.z, q2.z);
    DifferenceTimes(a.x, b.x, g * g);
    AddedNonZero(p, g, b.x - a.x, h);
    CongZero(p, o.z, 2 * g * h);
  }

  lemma {:induction false} DifferenceTimes(a: int, b: int, f: int)
    ensures b * f - a * f == (b - a) * f
  {
  }

  lemma {:induction false} AddInputs(p: nat, q1: Jacobian, q2: Jacobian, a: Point, b: Point, g: int, u1: int, s1: int,
                                     h: int, r: int)
    requires p > 0
    requires Cong(p, q1.x * (q2.z * q2.z), a.x * (g * g)) && Cong(p, q2.x * (q1.z * q1.z), b.x * (g * g))
    requires Cong(p, q1.y * Cube(q2.z), a.y * Cube(g)) && Cong(p, q2.y * Cube(q1.z), b.y * Cube(g))
    requires Cong(p, u1, q1.x * (q2.z * q2.z)) && Cong(p, s1, q1.y * (q2.z * q2.z * q2.z))
    requires Cong(p, h, q2.x * (q1.z * q1.z) - q1.x * (q2.z * q2.z))
    requires Cong(p, r, 2 * (q2.y * (q1.z * q1.z * q1.z) - q1.y * (q2.z * q2.z * q2.z)))
    ensures Cong(p, u1, a.x * (g * g)) && Cong(p, s1, a.y * Cube(g))
    ensures Cong(p, h, b.x * (g * g) - a.x * (g * g)) && Cong(p, r, 2 * (b.y * Cube(g) - a.y * Cube(g)))
  {
    CongTrans(p, u1, q1.x * (q2.z * q2.z), a.x * (g * g));
    CongTrans(p, s1, q1.y * Cube(q2.z), a.y * Cube(g));
    CongAdd(p, q2.x * (q1.z * q1.z), b.x * (g * g), q1.x * (q2.z * q2.z), a.x * (g * g));
    CongTrans(p, h, q2.x * (q1.z * q1.z) - q1.x * (q2.z * q2.z), b.x * (g * g) - a.x * (g * g));
    CongAdd(p, q2.y * Cube(q1.z), b.y * Cube(g), q1.y * Cube(q2.z), a.y * Cube(g));
    CongScale(p, 2, q2.y * Cube(q1.z) - q1.y * Cube(q2.z), b.y * Cube(g) - a.y * Cube(g));
    CongTrans(p, r, 2 * (q2.y * Cube(q1.z) - q1.y * Cube(q2.z)), 2 * (b.y * Cube(g) - a.y * Cube(g)));
  }
}
