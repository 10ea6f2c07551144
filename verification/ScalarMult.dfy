/** Multiplying a curve point by a number: back to affine coordinates, and double-and-add
    over the bits of a big-endian byte string. */
module ScalarMult {
  import opened Bytes
  import opened Congruence
  import opened Curve
  import opened CurveGroup

  // ---- Back to affine coordinates ----

  lemma {:induction false} ScaleBack(p: nat, m: int, n: int, f: int, g: int)
    requires p > 0 && Cong(p, m, n * f) && Cong(p, f * g, 1)
    ensures (m * g) % p == n % p
  {
    CongMul(p, m, n * f, g, g);
    assert n * f * g == n * (f * g);
    CongScale(p, n, f * g, 1);
    CongTrans(p, m * g, n * (f * g), n);
    CongSameMod(p, m * g, n);
  }

  /** Dividing out z recovers the affine point, reduced modulo `P`. */
  method AffineFromJacobian(c: BitCurve, q: Jacobian, modInverse: int -> int, ghost a: Point) returns (x: int, y: int)
    requires c.P > 0 && Represents(c.P, q, a) && Inverse(c.P, q.z, modInverse(q.z))
    ensures x == a.x % c.P && y == a.y % c.P
  {
    var zinv := modInverse(q.z);
    InversePowers(c.P, q.z, zinv);
    var zinvsq := zinv * zinv;
    ScaleBack(c.P, q.x, a.x, q.z * q.z, zinvsq);
    x := (q.x * zinvsq) % c.P;
    ScaleBack(c.P, q.y, a.y, q.z * q.z * q.z, zinvsq * zinv);
    y := (q.y * (zinvsq * zinv)) % c.P;
  }

  // ---- Scalar multiplication ----

  /** The accumulator stands for the multiple given by the bits read so far. */
  ghost predicate Holds(c: BitCurve, mult: int -> Elem, seen: bool, q: Jacobian, m: nat)
    requires c.P > 0
  {
    (seen <==> m > 0) && Stands(c, q, mult(if m > 0 then m else 1))
  }

  ghost predicate Stands(c: BitCurve, q: Jacobian, e: Elem)
    requires c.P > 0
  {
    e.Fin? && Represents(c.P, q, e.point)
  }

  /** One bit: doubles, and adds the base point if the bit is set. Below the order the sum is
      only taken of finite points with different x, so never of equal or opposite ones. */
  method NextBit(c: BitCurve, base: Jacobian, q: Jacobian, seen: bool, bit: bool, ghost mult: int -> Elem, ghost m: nat)
    returns (q': Jacobian, seen': bool)
    requires Field(c.P) && c.P > 2 && Multiples(c, mult) && Stands(c, base, mult(1))
    requires Holds(c, mult, seen, q, m) && 2 * m + (if bit then 1 else 0) < c.N
    ensures Holds(c, mult, seen', q', 2 * m + if bit then 1 else 0)
  {
    q', seen' := q, seen;
    if seen {
      DoublesByTangent(c, mult, m);
      DoubleRepresents(c, q, mult(m).point, mult(2 * m).point);
      q' := DoubleJacobian(c, q);
    }
    if bit {
      if !seen {
        seen' := true;
      } else {
        AddsByChord(c, mult, 2 * m);
        AddRepresents(c, base, q', mult(1).point, mult(2 * m).point, mult(2 * m + 1).point);
        q' := AddJacobian(c, base, q');
      }
    }
  }

  lemma {:induction false} Pow2Split(b: nat)
    requires b <= 7
    ensures Pow2(b) * Pow2(7 - b) == 128
  {
    if b > 0 {
      Pow2Split(b - 1);
      assert Pow2(7 - (b - 1)) == 2 * Pow2(7 - b);
      assert Pow2(b - 1) * (2 * Pow2(7 - b)) == (2 * Pow2(b - 1)) * Pow2(7 - b);
    } else {
      assert Pow2(7) == 128;
    }
  }

  lemma {:induction false} TopBit(u: nat, v: nat, byte: int, rest: int)
    requires u >= 1 && v * u == 128 && byte == rest * u && 0 <= rest < 2 * v
    ensures byte >= 128 <==> rest >= v
    ensures var rest' := if rest >= v then rest - v else rest;
            0 <= rest' < v && 0 <= rest' * u < 128 && (2 * byte) % 256 == 2 * (rest' * u)
  {
    ScaleOrder(rest, v, u);
    var rest' := if rest >= v then rest - v else rest;
    Spread(rest, v, 0, u);
    ScaleOrder(v, rest', u);
    ScaleOrder(rest', 0, u);
  }

  /** Shifting the top bit out: `rest` is what the remaining 8 - b bits are worth. */
  lemma {:induction false} BitStep(b: nat, byte: int, rest: int)
    requires b < 8 && byte == rest * Pow2(b) && 0 <= rest < Pow2(8 - b)
    ensures byte >= 128 ==> rest >= Pow2(7 - b)
    ensures var rest' := if byte >= 128 then rest - Pow2(7 - b) else rest;
            0 <= rest' < Pow2(7 - b) && (2 * byte) % 256 == rest' * Pow2(b + 1)
  {
    Pow2Split(b);
    var u, v := Pow2(b), Pow2(7 - b);
    assert v * u == u * v;
    TopBit(u, v, byte, rest);
    Doubled(if byte >= 128 then rest - v else rest, u);
    assert Pow2(b + 1) == 2 * u;
  }

  lemma {:induction false} Doubled(x: int, u: int)
    ensures x * (2 * u) == 2 * (x * u)
  {
  }

  lemma {:induction false} ScaleOrder(x: int, y: int, u: int)
    requires u >= 1
    ensures x * u >= y * u <==> x >= y
    ensures x * u > y * u <==> x > y
  {
    if x > y {
      assert (x - y) * u >= 1;
    } else if y > x {
      assert (y - x) * u >= 1;
    }
  }

  /** The bits read so far and those left make up the same number. */
  lemma {:induction false} BitsSum(cur: nat, bit: nat, v: nat, rest: int, total: int)
    requires bit <= 1 && v >= 1 && rest >= bit * v && cur * (2 * v) + rest == total
    ensures (2 * cur + bit) * v + (rest - bit * v) == total && 2 * cur + bit <= total
  {
    assert (2 * cur + bit) * v == cur * (2 * v) + bit * v;
    assert (2 * cur + bit) * v >= 2 * cur + bit;
  }

  /** After `b` bits of a byte the number read is `cur`, and the shifted byte holds `rest`. */
  ghost predicate Halfway(b: nat, shifted: int, cur: nat, rest: int, total: int)
    requires b <= 8
  {
    shifted == rest * Pow2(b) && 0 <= rest < Pow2(8 - b) && cur * Pow2(8 - b) + rest == total
  }

  lemma {:induction false} HalfwayNext(b: nat, shifted: int, cur: nat, rest: int, total: int)
    returns (cur': nat, rest': int)
    requires b < 8 && Halfway(b, shifted, cur, rest, total)
    ensures cur' == 2 * cur + (if shifted >= 128 then 1 else 0) && cur' <= total
    ensures Halfway(b + 1, (2 * shifted) % 256, cur', rest', total)
  {
    var v := Pow2(7 - b);
    BitStep(b, shifted, rest);
    assert Pow2(8 - b) == 2 * v;
    var bit := if shifted >= 128 then 1 else 0;
    BitsSum(cur, bit, v, rest, total);
    cur', rest' := 2 * cur + bit, rest - bit * v;
  }

  lemma {:induction false} HalfwayEnds(shifted: int, m: nat, byte: int, cur: nat, rest: int, total: int)
    ensures 0 <= byte < 256 ==> Halfway(0, byte, m, byte, 256 * m + byte)
    ensures Halfway(8, shifted, cur, rest, total) ==> cur == total
  {
    assert Pow2(8) == 256 && Pow2(0) == 1;
  }

  /** The eight bits of one byte, highest first. */
  method NextByte(c: BitCurve, base: Jacobian, q: Jacobian, seen: bool, byte: Byte, ghost mult: int -> Elem,
                  ghost m: nat)
    returns (q': Jacobian, seen': bool)
    requires Field(c.P) && c.P > 2 && Multiples(c, mult) && Stands(c, base, mult(1))
    requires Holds(c, mult, seen, q, m) && 256 * m + byte < c.N
    ensures Holds(c, mult, seen', q', 256 * m + byte)
  {
    q', seen' := q, seen;
    var shifted: int := byte;
    ghost var cur: nat, rest: int := m, byte;
    HalfwayEnds(shifted, m, byte, cur, rest, 256 * m + byte);
    for bitNum := 0 to 8
      invariant Holds(c, mult, seen', q', cur)
      invariant Halfway(bitNum, shifted, cur, rest, 256 * m + byte)
    {
      ghost var cur', rest' := HalfwayNext(bitNum, shifted, cur, rest, 256 * m + byte);
      q', seen' := NextBit(c, base, q', seen', shifted >= 128, mult, cur);
      cur, rest := cur', rest';
      shifted := (2 * shifted) % 256;
    }
    HalfwayEnds(shifted, m, byte, cur, rest, 256 * m + byte);
  }

  lemma {:induction false} ValuePrefix(k: seq<Byte>, i: nat)
    requires i < |k|
    ensures Value(k[..i + 1]) == 256 * Value(k[..i]) + k[i] && Value(k[..i + 1]) <= Value(k)
    decreases |k| - i
  {
    assert k[..i + 1][..i] == k[..i];
    if i + 1 < |k| {
      ValuePrefix(k, i + 1);
    } else {
      assert k[..i + 1] == k;
    }
  }

  /** Returns k·(Bx, By) for every number 0 < k < N, and nothing for k = 0. */
  method ScalarMult(c: BitCurve, Bx: int, By: int, k: seq<Byte>, modInverse: int -> int, ghost mult: int -> Elem)
    returns (seen: bool, x: int, y: int)
    requires Field(c.P) && c.P > 2 && Multiples(c, mult) && mult(1) == Fin(Point(Bx, By)) && Value(k) < c.N
    requires forall z {:trigger modInverse(z)} :: !Cong(c.P, z, 0) ==> Inverse(c.P, z, modInverse(z))
    ensures seen <==> Value(k) > 0
    ensures seen ==> mult(Value(k)).Fin? && x == mult(Value(k)).point.x % c.P && y == mult(Value(k)).point.y % c.P
  {
    var base := Jacobian(Bx, By, 1);
    assert Stands(c, base, mult(1));
    var q := base;
    seen := false;
    for i := 0 to |k|
      invariant Value(k[..i]) <= Value(k) && Holds(c, mult, seen, q, Value(k[..i]))
    {
      ValuePrefix(k, i);
      q, seen := NextByte(c, base, q, seen, k[i], mult, Value(k[..i]));
    }
    assert k[..|k|] == k;
    x, y := 0, 0;
    if seen {
      x, y := AffineFromJacobian(c, q, modInverse, mult(Value(k)).point);
    }
  }
}
