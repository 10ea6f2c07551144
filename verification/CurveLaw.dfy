/** Adding stays on the curve: the third point of a line through two curve points. */
module CurveLaw {
  import opened Congruence
  import opened Curve

  ghost predicate OnCurve(c: BitCurve, a: Point)
    requires c.P > 0
  {
    Cong(c.P, a.y * a.y - a.x * a.x * a.x - c.B, 0)
  }

  lemma {:induction false} OnCurveIsChecked(c: BitCurve, x: int, y: int)
    requires c.P > 0
    ensures OnCurve(c, Point(x, y)) <==> IsOnCurve(c, x, y)
  {
    var l, r := x * x * x + c.B, y * y;
    if l % c.P == r % c.P {
      assert r - l == c.P * (r / c.P - l / c.P) by {
        Spread(r / c.P, l / c.P, 0, c.P);
      }
      CongWith(c.P, r - l, 0, r / c.P - l / c.P);
    }
    if Cong(c.P, r - l, 0) {
      assert Cong(c.P, r, l);
      CongSameMod(c.P, r, l);
    }
  }

  // ---- Jacobian and affine points ----

  /** Every triple with invertible z stands for a point. */
  lemma {:induction false} HasAffine(p: nat, q: Jacobian) returns (a: Point)
    requires Field(p) && !Cong(p, q.z, 0)
    ensures Represents(p, q, a)
  {
    var i :| Inverse(p, q.z, i);
    InversePowers(p, q.z, i);
    a := Point(q.x * (i * i), q.y * (i * i * i));
    Undo(p, q.x, i * i, q.z * q.z);
    Undo(p, q.y, i * i * i, q.z * q.z * q.z);
  }

  lemma {:induction false} Undo(p: nat, x: int, i: int, z: int)
    requires p > 0 && Cong(p, z * i, 1)
    ensures Cong(p, x, x * i * z)
  {
    CongScale(p, x, z * i, 1);
    assert x * (z * i) == x * i * z;
    CongSym(p, x * i * z, x);
  }

  /** The curve equation holds for a triple exactly when it holds for its point. */
  lemma {:induction false} SameCurve(c: BitCurve, q: Jacobian, a: Point)
    requires Field(c.P) && Represents(c.P, q, a)
    ensures OnJacobian(c, q) <==> OnCurve(c, a)
  {
    var p, z := c.P, q.z;
    var x, y, s := a.x * (z * z), a.y * (z * z * z), Sixth(z);
    var res := a.y * a.y - a.x * a.x * a.x - c.B;
    CongMul(p, q.y, y, q.y, y);
    CongMul(p, q.x, x, q.x, x);
    CongMul(p, q.x * q.x, x * x, q.x, x);
    CongAdd(p, q.y * q.y, y * y, q.x * q.x * q.x, x * x * x);
    CongAdd(p, q.y * q.y - q.x * q.x * q.x, y * y - x * x * x, c.B * s, c.B * s);
    Homogeneous(a, c.B, z);
    CongZero(p, q.y * q.y - q.x * q.x * q.x - c.B * s, res * s);
    if OnCurve(c, a) {
      CongMul(p, res, 0, s, s);
    } else {
      ProductNonZero(p, z, z);
      ProductNonZero(p, z * z, z);
      ProductNonZero(p, z * z * z, z * z * z);
      ProductNonZero(p, res, s);
    }
  }

  lemma {:induction false} Homogeneous(a: Point, b: int, z: int)
    ensures var x, y := a.x * (z * z), a.y * (z * z * z);
            y * y - x * x * x - b * Sixth(z) == (a.y * a.y - a.x * a.x * a.x - b) * Sixth(z)
  {
    var x, y, s := a.x * (z * z), a.y * (z * z * z), z * z;
    Swap(a.y, z * z * z, a.y, z * z * z);
    Swap(a.x, s, a.x, s);
    Swap(a.x * a.x, s * s, a.x, s);
    assert s * s * s == Sixth(z) by {
      Swap(s, z, s, z);
    }
    Spread(a.y * a.y, a.x * a.x * a.x, b, Sixth(z));
  }

  // ---- The chord ----

  /** Following a line of slope `l` from `a` by `t` leaves the curve by this much. */
  lemma {:induction false} AlongLine(a: Point, b: int, l: int, t: int)
    ensures var x, y := a.x + t, a.y + l * t;
            y * y - x * x * x - b
            == (a.y * a.y - a.x * a.x * a.x - b) + t * ((2 * (a.y * l) - 3 * (a.x * a.x)) + t * (l * l - 3 * a.x - t))
  {
    var x, y, lt := a.x + t, a.y + l * t, l * t;
    assert y * y == a.y * a.y + 2 * (a.y * lt) + lt * lt;
    assert lt * lt == t * (t * (l * l));
    assert a.y * lt == t * (a.y * l);
    var ax2, tt := a.x * a.x, t * t;
    assert x * x == ax2 + 2 * (a.x * t) + tt;
    assert x * x * x == ax2 * a.x + 3 * (t * ax2) + 3 * (t * (t * a.x)) + t * tt by {
      assert (ax2 + 2 * (a.x * t) + tt) * (a.x + t)
          == ax2 * a.x + 2 * (a.x * t) * a.x + tt * a.x + ax2 * t + 2 * (a.x * t) * t + tt * t;
      assert (a.x * t) * a.x == t * ax2;
      assert (a.x * t) * t == t * (t * a.x);
    }
    assert t * (l * l - 3 * a.x - t) == t * (l * l) - 3 * (t * a.x) - tt;
  }

  /** If the line through `a` meets the curve at distance `d`, it meets it again where the
      three distances from `a` add up to l² - 3·ax. */
  lemma {:induction false} ThirdPoint(c: BitCurve, a: Point, l: int, d: int, t: int)
    requires Field(c.P) && OnCurve(c, a) && OnCurve(c, Point(a.x + d, a.y + l * d)) && !Cong(c.P, d, 0)
    requires t == l * l - 3 * a.x - d
    ensures OnCurve(c, Point(a.x + t, a.y + l * t))
  {
    var p, s := c.P, 2 * (a.y * l) - 3 * (a.x * a.x);
    var res := a.y * a.y - a.x * a.x * a.x - c.B;
    AlongLine(a, c.B, l, d);
    AlongLine(a, c.B, l, t);
    assert l * l - 3 * a.x - d == t && l * l - 3 * a.x - t == d;
    CongAdd(p, res + d * (s + d * t), 0, res, 0);
    if !Cong(p, s + d * t, 0) {
      ProductNonZero(p, d, s + d * t);
    }
    assert d * t == t * d;
    CongScale(p, t, s + t * d, 0);
    CongAdd(p, res, 0, t * (s + t * d), 0);
  }

  lemma {:induction false} OnCurveCong(c: BitCurve, a: Point, b: Point)
    requires c.P > 0 && Cong(c.P, a.x, b.x) && Cong(c.P, a.y, b.y)
    ensures OnCurve(c, a) <==> OnCurve(c, b)
  {
    var p := c.P;
    CongMul(p, a.x, b.x, a.x, b.x);
    CongMul(p, a.x * a.x, b.x * b.x, a.x, b.x);
    CongMul(p, a.y, b.y, a.y, b.y);
    CongAdd(p, a.y * a.y, b.y * b.y, a.x * a.x * a.x, b.x * b.x * b.x);
    CongAdd(p, a.y * a.y - a.x * a.x * a.x, b.y * b.y - b.x * b.x * b.x, c.B, c.B);
    CongZero(p, a.y * a.y - a.x * a.x * a.x - c.B, b.y * b.y - b.x * b.x * b.x - c.B);
  }

  lemma {:induction false} Mirror(c: BitCurve, a: Point)
    requires c.P > 0
    ensures OnCurve(c, a) <==> OnCurve(c, Point(a.x, -a.y))
  {
    assert (-a.y) * (-a.y) == a.y * a.y;
  }

  /** The law returns the mirror image of where the line meets the curve. */
  lemma {:induction false} MirrorStays(c: BitCurve, a: Point, l: int, r: Point, m: Point)
    requires c.P > 0 && OnCurve(c, m) && m.y == a.y + l * (m.x - a.x)
    requires Cong(c.P, r.x, m.x) && Cong(c.P, r.y, l * (a.x - r.x) - a.y)
    ensures OnCurve(c, r)
  {
    var p := c.P;
    Mirror(c, m);
    CongAdd(p, a.x, a.x, r.x, m.x);
    CongScale(p, l, a.x - r.x, a.x - m.x);
    CongAdd(p, l * (a.x - r.x), l * (a.x - m.x), a.y, a.y);
    assert l * (a.x - m.x) == -(l * (m.x - a.x));
    CongTrans(p, r.y, l * (a.x - r.x) - a.y, -m.y);
    OnCurveCong(c, r, Point(m.x, -m.y));
  }

  /** The chord law never leaves the curve. */
  lemma {:induction false} ChordStays(c: BitCurve, a: Point, b: Point, l: int, r: Point)
    requires Field(c.P) && OnCurve(c, a) && OnCurve(c, b) && !Cong(c.P, b.x - a.x, 0)
    requires Cong(c.P, l * (b.x - a.x), b.y - a.y) && OnLine(c.P, a, b, l, r)
    ensures OnCurve(c, r)
  {
    var p, d := c.P, b.x - a.x;
    CongAdd(p, a.y, a.y, l * d, b.y - a.y);
    assert Cong(p, b.x, b.x);
    OnCurveCong(c, Point(a.x + d, a.y + l * d), b);
    var t := l * l - 3 * a.x - d;
    ThirdPoint(c, a, l, d, t);
    MirrorStays(c, a, l, r, Point(a.x + t, a.y + l * t));
  }

  /** Two curve points with different x have a chord. */
  lemma {:induction false} HasChord(c: BitCurve, a: Point, b: Point) returns (r: Point)
    requires Field(c.P) && OnCurve(c, a) && OnCurve(c, b) && !Cong(c.P, b.x - a.x, 0)
    ensures Chord(c.P, a, b, r) && OnCurve(c, r)
  {
    var p, d := c.P, b.x - a.x;
    var i :| Inverse(p, d, i);
    var l := (b.y - a.y) * i;
    CongScale(p, b.y - a.y, d * i, 1);
    assert (b.y - a.y) * (d * i) == l * d;
    var x := l * l - a.x - b.x;
    r := Point(x, l * (a.x - x) - a.y);
    assert OnLine(p, a, b, l, r);
    ChordStays(c, a, b, l, r);
  }

  lemma {:induction false} DifferentX(p: nat, q1: Jacobian, q2: Jacobian, a: Point, b: Point)
    requires Field(p) && Represents(p, q1, a) && Represents(p, q2, b)
    requires !Cong(p, q2.x * (q1.z * q1.z) - q1.x * (q2.z * q2.z), 0)
    ensures !Cong(p, b.x - a.x, 0)
  {
    var g := q1.z * q2.z;
    AddCommon(p, q1, q2, a, b);
    CongAdd(p, q2.x * (q1.z * q1.z), b.x * (g * g), q1.x * (q2.z * q2.z), a.x * (g * g));
    CongZero(p, q2.x * (q1.z * q1.z) - q1.x * (q2.z * q2.z), b.x * (g * g) - a.x * (g * g));
    DifferenceTimes(a.x, b.x, g * g);
    if Cong(p, b.x - a.x, 0) {
      CongMul(p, b.x - a.x, 0, g * g, g * g);
    }
  }

  /** Adding two finite triples on the curve with different x gives a finite triple on the curve. */
  lemma {:induction false} AddKeepsCurve(c: BitCurve, q1: Jacobian, q2: Jacobian)
    requires Field(c.P) && c.P > 2 && OnJacobian(c, q1) && OnJacobian(c, q2) && !Cong(c.P, q1.z, 0)
             && !Cong(c.P, q2.z, 0)
    requires !Cong(c.P, q2.x * (q1.z * q1.z) - q1.x * (q2.z * q2.z), 0)
    ensures OnJacobian(c, AddJacobian(c, q1, q2)) && !Cong(c.P, AddJacobian(c, q1, q2).z, 0)
  {
    var a := HasAffine(c.P, q1);
    var b := HasAffine(c.P, q2);
    SameCurve(c, q1, a);
    SameCurve(c, q2, b);
    DifferentX(c.P, q1, q2, a, b);
    var r := HasChord(c, a, b);
    AddRepresents(c, q1, q2, a, b, r);
    SameCurve(c, AddJacobian(c, q1, q2), r);
  }

  /** Adding ends at infinity exactly when a summand is infinite or both have the same x:
      the formula fails on equal points as it does on opposite ones. */
  lemma {:induction false} AddInfiniteIff(c: BitCurve, q1: Jacobian, q2: Jacobian)
    requires Field(c.P) && c.P > 2
    ensures Cong(c.P, AddJacobian(c, q1, q2).z, 0) <==>
            || Cong(c.P, q1.z, 0) || Cong(c.P, q2.z, 0)
            || Cong(c.P, q2.x * (q1.z * q1.z) - q1.x * (q2.z * q2.z), 0)
  {
    var p, g := c.P, q1.z * q2.z;
    var d := q2.x * (q1.z * q1.z) - q1.x * (q2.z * q2.z);
    var u1, s1, h, r := AddShape(c, q1, q2);
    CongZero(p, AddJacobian(c, q1, q2).z, 2 * g * h);
    CongZero(p, h, d);
    ProductZeroIff(p, q1.z, q2.z);
    ProductZeroIff(p, 2, g);
    ProductZeroIff(p, 2 * g, h);
  }

  lemma {:induction false} ProductZeroIff(p: nat, a: int, b: int)
    requires Field(p)
    ensures Cong(p, a * b, 0) <==> Cong(p, a, 0) || Cong(p, b, 0)
  {
    if Cong(p, a, 0) {
      CongMul(p, a, 0, b, b);
    } else if Cong(p, b, 0) {
      CongScale(p, a, b, 0);
    } else {
      ProductNonZero(p, a, b);
    }
  }

  /** Doubling ends at infinity exactly when the point is infinite or its own mirror image. */
  lemma {:induction false} DoubleInfiniteIff(c: BitCurve, q: Jacobian)
    requires Field(c.P) && c.P > 2
    ensures Cong(c.P, DoubleJacobian(c, q).z, 0) <==> Cong(c.P, q.y, 0) || Cong(c.P, q.z, 0)
  {
    var p := c.P;
    DoubleShape(c, q, 3 * (q.x * q.x), 4 * (q.x * (q.y * q.y)), 8 * ((q.y * q.y) * (q.y * q.y)));
    CongZero(p, DoubleJacobian(c, q).z, 2 * (q.y * q.z));
    ProductZeroIff(p, q.y, q.z);
    ProductZeroIff(p, 2, q.y * q.z);
  }
}
