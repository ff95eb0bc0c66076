/** The bench's fixed-point frame: Clarke and Park in Q15 on 32-bit accumulators, and the commutation angle. */
module Frame {

  const CLARKE_A := 0x49E6
  const CLARKE_B := 0x93CC
  const DECODE_SECTOR_LEAD := 2
  const TURN := 0x1_0000

  type I16 = x: int | -0x8000 <= x < 0x8000

  /** Q15's symmetric range. */
  type Q15 = x: int | -0x7FFF <= x <= 0x7FFF

  /** A quarter of a sine, rising: what the table holds. */
  type Quarter = t: seq<Q15> | |t| == 256 && forall i :: 0 <= i < 256 ==> t[i] >= 0 witness seq(256, _ => 0)

  /** The wrap of a 32-bit addition. */
  function I32(x: int): int {
    (x + 0x8000_0000) % 0x1_0000_0000 - 0x8000_0000
  }

  predicate Fits32(x: int) {
    -0x8000_0000 <= x < 0x8000_0000
  }

  function Sat16(x: int): Q15 {
    if x > 0x7FFF then 0x7FFF else if x <= -0x8000 then -0x7FFF else x
  }

  /** The Q15 shift with its bias on a negative, then saturate; the shift rounds down. */
  function MacQ15(acc: int): Q15 {
    Sat16(I32(acc + if acc < 0 then 0x7FFF else 0) / 0x8000)
  }

  /** Sine and cosine of any angle, out of the one quarter. */
  function SinCos(q: Quarter, theta: int): (Q15, Q15) {
    var t := theta % TURN;
    var quad := (t + 0x8000) / 0x4000 % 4;
    var i := t % 0x4000 / 0x40;
    var ti, tj := q[i], q[0xFF - i];
    if quad == 0 then (-ti, -tj) else if quad == 1 then (-tj, ti) else if quad == 2 then (ti, tj) else (tj, -ti)
  }

  function ClarkeAcc(ia: I16, ib: I16): int {
    -(ia * CLARKE_A + ib * CLARKE_B)
  }

  function Clarke(ia: I16, ib: I16): (I16, Q15) {
    (ia, MacQ15(ClarkeAcc(ia, ib)))
  }

  function ParkAccQ(alpha: I16, beta: Q15, s: Q15, c: Q15): int {
    alpha * c - beta * s
  }

  function ParkAccD(alpha: I16, beta: Q15, s: Q15, c: Q15): int {
    alpha * s + beta * c
  }

  /** The currents in the rotor's frame: the torque's first, the flux's second. */
  function Park(q: Quarter, alpha: I16, beta: Q15, theta: int): (Q15, Q15) {
    var (s, c) := SinCos(q, theta);
    (MacQ15(ParkAccQ(alpha, beta, s, c)), MacQ15(ParkAccD(alpha, beta, s, c)))
  }

  /** Where sector `sectors` begins, to the nearest step of the angle. */
  function SectorAngle(sectors: int): int {
    (sectors % 6 * TURN + 3) / 6
  }

  function AnglePathOffset(reverse: bool, align: int): int {
    (SectorAngle(DECODE_SECTOR_LEAD + align % 6) + if reverse then 0x8000 else 0) % TURN
  }

  /** The angle and both currents, at the aligned angle. */
  function HostFrame(q: Quarter, ia: I16, ib: I16, angle: int, reverse: bool, align: int): (int, Q15, Q15) {
    var theta := (angle + AnglePathOffset(reverse, align)) % TURN;
    var (alpha, beta) := Clarke(ia, ib);
    var (iq, id) := Park(q, alpha, beta, theta);
    (theta, iq, id)
  }

  // ---- the accumulators ----

  lemma ProductBound(a: int, b: int, m: nat, n: nat)
    requires 0 - m <= a <= m && 0 - n <= b <= n
    ensures -(m * n) <= a * b <= m * n
  {
    if a >= 0 {
      ScaleBound(a, b, m, n);
    } else {
      ScaleBound(-a, b, m, n);
      assert a * b == -(-a * b);
    }
  }

  lemma ScaleBound(a: nat, b: int, m: nat, n: nat)
    requires a <= m && 0 - n <= b <= n
    ensures -(m * n) <= a * b <= m * n
  {
    assert a * b <= a * n <= m * n;
    assert -(m * n) <= -(a * n) <= a * b;
  }

  /** No current makes the Clarke accumulator wrap, the bias included. */
  lemma ClarkeNeverWraps(ia: I16, ib: I16)
    ensures Fits32(ClarkeAcc(ia, ib)) && Fits32(ClarkeAcc(ia, ib) + 0x7FFF)
  {
  }

  /** Nor does any angle, at either accumulator of the Park step. */
  lemma ParkNeverWraps(alpha: I16, beta: Q15, s: Q15, c: Q15)
    ensures Fits32(ParkAccQ(alpha, beta, s, c)) && Fits32(ParkAccD(alpha, beta, s, c))
    ensures ParkAccQ(alpha, beta, s, c) < 0 ==> Fits32(ParkAccQ(alpha, beta, s, c) + 0x7FFF)
    ensures ParkAccD(alpha, beta, s, c) < 0 ==> Fits32(ParkAccD(alpha, beta, s, c) + 0x7FFF)
  {
    ProductBound(alpha, c, 0x8000, 0x7FFF);
    ProductBound(beta, s, 0x7FFF, 0x7FFF);
    ProductBound(alpha, s, 0x8000, 0x7FFF);
    ProductBound(beta, c, 0x7FFF, 0x7FFF);
  }

  /** Division rounded toward zero. */
  function Truncated(x: int, d: int): int
    requires d > 0
  {
    if x < 0 then -(-x / d) else x / d
  }

  /** On an accumulator that fits, the shift truncates toward zero and saturates symmetrically. */
  lemma MacTruncates(acc: int)
    requires Fits32(acc)
    ensures MacQ15(acc) == Sat16(Truncated(acc, 0x8000))
  {
    if acc < 0 {
      assert I32(acc + 0x7FFF) == acc + 0x7FFF;
      assert (acc + 0x7FFF) / 0x8000 == -(-acc / 0x8000);
    }
  }

  lemma MacIsOdd(acc: int)
    requires Fits32(acc) && Fits32(-acc)
    ensures MacQ15(-acc) == -MacQ15(acc)
  {
    MacTruncates(acc);
    MacTruncates(-acc);
  }

  /** Saturation keeps what fits and otherwise takes the nearest value that does. */
  lemma SaturatesNearest(x: int, y: Q15)
    ensures var d, e := Sat16(x) - x, y - x;
            && (if d < 0 then -d else d) <= (if e < 0 then -e else e)
            && (-0x7FFF <= x <= 0x7FFF ==> Sat16(x) == x)
  {
  }

  /** Rounding toward zero keeps the sign and loses less than one step. */
  lemma TruncatedIs(x: int)
    ensures var t := Truncated(x, 0x8000);
            if x >= 0 then 0x8000 * t <= x < 0x8000 * (t + 1) && 0 <= t else 0x8000 * (t - 1) < x <= 0x8000 * t && t <= 0
  {
  }

  // ---- the Clarke step ----

  /** The second axis is minus the first current and twice the second, over the root of three rounded down. */
  lemma ClarkeIs(ia: I16, ib: I16)
    ensures ClarkeAcc(ia, ib) == -0x49E6 * (ia + 2 * ib) && Clarke(ia, ib).0 == ia
    ensures 3 * 0x49E6 * 0x49E6 < 0x8000 * 0x8000 < 3 * 0x49E7 * 0x49E7
  {
  }

  /** Exchanging the two other phases of three currents that add up to nothing reverses it exactly. */
  lemma ClarkePhases(ia: I16, ib: I16, ic: I16)
    requires ia + ib + ic == 0
    ensures Clarke(ia, ic) == (ia, -Clarke(ia, ib).1)
  {
    ClarkeIs(ia, ib);
    ClarkeIs(ia, ic);
    ClarkeNeverWraps(ia, ib);
    ClarkeNeverWraps(ia, ic);
    assert ClarkeAcc(ia, ic) == -ClarkeAcc(ia, ib);
    MacIsOdd(ClarkeAcc(ia, ib));
    hide MacQ15, ClarkeAcc;
  }

  // ---- the frame ----

  /** The table is the first quarter's sine, and its cosine read from the other end. */
  lemma FirstQuarter(q: Quarter, theta: int)
    requires 0 <= theta < 0x4000
    ensures SinCos(q, theta) == (q[theta / 64], q[255 - theta / 64])
  {
    assert theta % TURN == theta && theta % 0x4000 == theta && (theta + 0x8000) / 0x4000 == 2;
  }

  /** Turned the other way, by the same number of steps, the sine changes its sign and the cosine does not. */
  lemma MirrorTurn(q: Quarter, theta: int)
    ensures SinCos(q, -1 - theta) == (-SinCos(q, theta).0, SinCos(q, theta).1)
  {
    var t, u := theta % TURN, (-1 - theta) % TURN;
    var k := theta / TURN;
    assert theta == TURN * k + t;
    assert u == TURN - 1 - t by {
      MirrorMod(k, t);
    }
    MirrorQuarter(t);
  }

  lemma MirrorMod(k: int, t: nat)
    requires t < TURN
    ensures (-1 - (TURN * k + t)) % TURN == TURN - 1 - t
  {
  }

  lemma MirrorQuarter(t: nat)
    requires t < TURN
    ensures (TURN - 1 - t) % 0x4000 / 0x40 == 0xFF - t % 0x4000 / 0x40
    ensures (TURN - 1 - t + 0x8000) / 0x4000 % 4 == (7 - (t + 0x8000) / 0x4000 % 4) % 4
  {
    var a, b := t / 0x4000, t % 0x4000;
    assert t == 0x4000 * a + b;
    assert TURN - 1 - t == 0x4000 * (3 - a) + (0x3FFF - b);
    assert (TURN - 1 - t) / 0x4000 == 3 - a && (TURN - 1 - t) % 0x4000 == 0x3FFF - b;
  }

  /** The frame is turned, not stretched: the currents' squares add up as before, a current along the torque's axis is all the
      first, and one along the flux's all the second. */
  lemma ParkTurns(alpha: I16, beta: Q15, s: Q15, c: Q15)
    ensures var x, y := ParkAccQ(alpha, beta, s, c), ParkAccD(alpha, beta, s, c);
            x * x + y * y == (alpha * alpha + beta * beta) * (s * s + c * c)
    ensures ParkAccQ(c, -s, s, c) == s * s + c * c && ParkAccD(c, -s, s, c) == 0
    ensures ParkAccQ(s, c, s, c) == 0 && ParkAccD(s, c, s, c) == s * s + c * c
  {
    SumOfSquares(alpha * c, beta * s, alpha * s, beta * c);
    Exchanged(alpha, c, beta, s);
    SquareOfProduct(alpha, c);
    SquareOfProduct(beta, s);
    SquareOfProduct(alpha, s);
    SquareOfProduct(beta, c);
    FourProducts(alpha * alpha, beta * beta, s * s, c * c);
  }

  lemma SumOfSquares(p: int, q: int, u: int, v: int)
    requires p * q == u * v
    ensures (p - q) * (p - q) + (u + v) * (u + v) == p * p + q * q + u * u + v * v
  {
    assert (p - q) * (p - q) == p * p - 2 * (p * q) + q * q;
    assert (u + v) * (u + v) == u * u + 2 * (u * v) + v * v;
  }

  lemma Exchanged(a: int, b: int, c: int, d: int)
    ensures (a * b) * (c * d) == (a * d) * (c * b)
  {
    assert (a * b) * (c * d) == a * (b * (c * d)) == a * (d * (c * b));
  }

  lemma SquareOfProduct(a: int, b: int)
    ensures (a * b) * (a * b) == (a * a) * (b * b)
  {
    Exchanged(a, b, b, a);
    assert (b * a) == a * b;
  }

  lemma FourProducts(a: int, b: int, c: int, d: int)
    ensures (a + b) * (c + d) == a * c + a * d + b * c + b * d
  {
  }

  /** The angle is the shaft's and two sectors and the alignment's beside it, to the nearest step. */
  lemma AngleIsAligned(q: Quarter, ia: I16, ib: I16, angle: int, align: nat)
    requires align < 6
    ensures var theta, k := HostFrame(q, ia, ib, angle, false, align).0, (2 + align) % 6;
            0 <= theta < TURN && exists d :: (theta - angle - d) % TURN == 0 && -3 <= 6 * d - k * TURN <= 3
  {
    SectorAngleNearest(DECODE_SECTOR_LEAD + align % 6);
    var d := AnglePathOffset(false, align);
    assert d == SectorAngle(DECODE_SECTOR_LEAD + align);
    var theta := (angle + d) % TURN;
    WholeTurns(angle + d);
    hide SinCos, MacQ15, SectorAngle, AnglePathOffset;
  }

  lemma WholeTurns(x: int)
    ensures (x % TURN - x) % TURN == 0
  {
    var k := x / TURN;
    assert x % TURN - x == TURN * -k;
  }

  /** A quarter turn on, sine and cosine change places. */
  lemma QuarterTurn(q: Quarter, theta: int)
    ensures SinCos(q, theta + 0x4000) == (SinCos(q, theta).1, -SinCos(q, theta).0)
  {
    var t, u := theta % TURN, (theta + 0x4000) % TURN;
    assert u == if t < 0xC000 then t + 0x4000 else t - 0xC000;
    assert u % 0x4000 == t % 0x4000;
  }

  /** Turning the frame a quarter turn turns the currents exactly. */
  lemma ParkQuarterTurn(q: Quarter, alpha: I16, beta: Q15, theta: int)
    ensures var (iq, id) := Park(q, alpha, beta, theta); Park(q, alpha, beta, theta + 0x4000) == (-id, iq)
  {
    var (s, c) := SinCos(q, theta);
    QuarterTurn(q, theta);
    ParkNeverWraps(alpha, beta, s, c);
    AccQuarterTurn(alpha, beta, s, c);
    ParkNeverWraps(alpha, beta, c, -s);
    hide SinCos, ParkAccQ, ParkAccD;
    MacIsOdd(ParkAccD(alpha, beta, s, c));
    hide MacQ15;
  }

  lemma AccQuarterTurn(alpha: I16, beta: Q15, s: Q15, c: Q15)
    ensures ParkAccQ(alpha, beta, c, -s) == -ParkAccD(alpha, beta, s, c)
    ensures ParkAccD(alpha, beta, c, -s) == ParkAccQ(alpha, beta, s, c)
  {
  }

  lemma ParkHalfTurn(q: Quarter, alpha: I16, beta: Q15, theta: int)
    ensures var (iq, id) := Park(q, alpha, beta, theta); Park(q, alpha, beta, theta + 0x8000) == (-iq, -id)
  {
    ParkQuarterTurn(q, alpha, beta, theta);
    ParkQuarterTurn(q, alpha, beta, theta + 0x4000);
  }

  /** Reversing the direction negates both currents exactly, whatever they and the angle are, and turns the angle half a
      turn. */
  lemma ReverseNegates(q: Quarter, ia: I16, ib: I16, angle: int, align: int)
    ensures var (t0, iq, id) := HostFrame(q, ia, ib, angle, false, align);
            var (t1, rq, rd) := HostFrame(q, ia, ib, angle, true, align);
            t1 == (t0 + 0x8000) % TURN && rq == -iq && rd == -id
  {
    var a := SectorAngle(DECODE_SECTOR_LEAD + align % 6);
    var (alpha, beta) := Clarke(ia, ib);
    var t0 := (angle + AnglePathOffset(false, align)) % TURN;
    var t1 := (angle + AnglePathOffset(true, align)) % TURN;
    OffsetTurns(angle, a);
    assert t1 == (t0 + 0x8000) % TURN;
    hide AnglePathOffset, SectorAngle, MacQ15;
    ParkHalfTurn(q, alpha, beta, t0);
    SinCosWraps(q, t0 + 0x8000);
    hide SinCos;
  }

  /** A quarter turn of the shaft turns the currents as it turns the frame. */
  lemma ShaftQuarterTurn(q: Quarter, ia: I16, ib: I16, angle: int, reverse: bool, align: int)
    ensures var (_, iq, id) := HostFrame(q, ia, ib, angle, reverse, align);
            var (_, rq, rd) := HostFrame(q, ia, ib, angle + 0x4000, reverse, align);
            (rq, rd) == (-id, iq)
  {
    var a := AnglePathOffset(reverse, align);
    var (alpha, beta) := Clarke(ia, ib);
    var t0, t1 := (angle + a) % TURN, (angle + 0x4000 + a) % TURN;
    hide AnglePathOffset, MacQ15, Clarke;
    ParkQuarterTurn(q, alpha, beta, t0);
    QuarterOn(angle + a);
    SinCosWraps(q, t0 + 0x4000);
    hide SinCos;
  }

  lemma QuarterOn(x: int)
    ensures (x + 0x4000) % TURN == (x % TURN + 0x4000) % TURN
  {
  }

  lemma OffsetTurns(angle: int, a: int)
    ensures (angle + (a + 0x8000) % TURN) % TURN == ((angle + a % TURN) % TURN + 0x8000) % TURN
  {
    var k, l := a / TURN, (a + 0x8000) / TURN;
    assert a % TURN == a - TURN * k && (a + 0x8000) % TURN == a + 0x8000 - TURN * l;
  }

  lemma SinCosWraps(q: Quarter, theta: int)
    ensures SinCos(q, theta % TURN) == SinCos(q, theta)
  {
  }

  /** A sector's angle is the nearest sixteen-bit angle to its sixth of a turn, and six sectors on it is the same. */
  lemma SectorAngleNearest(sectors: int)
    ensures -3 <= 6 * SectorAngle(sectors) - sectors % 6 * TURN <= 3
    ensures 0 <= SectorAngle(sectors) < TURN && SectorAngle(sectors + 6) == SectorAngle(sectors)
  {
  }
}
