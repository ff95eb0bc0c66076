/** The mean of a window of angles, in thousandths of a degree, across the wrap. */
module Mean {
  import opened Parts

  const TURN := 360_000
  const HALF := 180_000

  /** The shortest arc around zero. */
  function Wrapped(x: int): (r: int)
    ensures -HALF <= r < HALF
  {
    (x + HALF) % TURN - HALF
  }

  function Sum(s: seq<int>): int {
    if s == [] then 0 else s[0] + Sum(s[1..])
  }

  /** Each sample unwrapped against the first. */
  function Unwrapped(samples: seq<int>): (u: seq<int>)
    ensures |u| == |samples|
  {
    seq(|samples|, i requires 0 <= i < |samples| => samples[0] + Wrapped(samples[i] - samples[0]))
  }

  function CircularMean(samples: seq<int>): Option<int> {
    if samples == [] then None else Some(Sum(Unwrapped(samples)) / |samples|)
  }

  // ---- what it is the mean of ----

  /** A sample's place in the turn that starts at `base`. */
  function Place(x: int, base: int): (r: int)
    ensures base <= r < base + TURN
  {
    base + (x - base) % TURN
  }

  function Places(samples: seq<int>, base: int): (p: seq<int>)
    ensures |p| == |samples| && forall i :: 0 <= i < |samples| ==> p[i] == Place(samples[i], base)
  {
    seq(|samples|, i requires 0 <= i < |samples| => Place(samples[i], base))
  }

  /** The window spans less than half a turn, from `base`. */
  predicate Narrow(samples: seq<int>, base: int) {
    forall i :: 0 <= i < |samples| ==> Place(samples[i], base) < base + HALF
  }

  predicate SameAngle(a: int, b: int) {
    (a - b) % TURN == 0
  }

  lemma {:induction false} SumShift(s: seq<int>, t: seq<int>, d: int)
    requires |s| == |t| && forall i :: 0 <= i < |s| ==> t[i] == s[i] + d
    ensures Sum(t) == Sum(s) + |s| * d
  {
    if s != [] {
      SumShift(s[1..], t[1..], d);
    }
  }

  lemma FloorShift(total: int, n: nat, d: int)
    requires n > 0
    ensures (total + n * d) / n == total / n + d
  {
    var q, r := total / n, total % n;
    assert total + n * d == n * (q + d) + r;
    DivUnique(total + n * d, n, q + d, r);
  }

  lemma DivUnique(x: int, n: nat, q: int, r: int)
    requires n > 0 && x == n * q + r && 0 <= r < n
    ensures x / n == q
  {
    var p, s := x / n, x % n;
    assert x == n * p + s;
    if p > q {
      Scaled(n, q + 1, p);
    } else if p < q {
      Scaled(n, p + 1, q);
    }
  }

  lemma Scaled(n: nat, a: int, b: int)
    requires a <= b
    ensures n * a <= n * b
  {
    assert n * b - n * a == n * (b - a);
  }

  /** Two places less than half a turn apart differ by their shortest arc. */
  lemma ArcBetween(x: int, y: int, base: int)
    requires Place(x, base) < base + HALF && Place(y, base) < base + HALF
    ensures Wrapped(y - x) == Place(y, base) - Place(x, base)
  {
    var k, l := (x - base) / TURN, (y - base) / TURN;
    assert y - x == Place(y, base) - Place(x, base) + TURN * (l - k);
    ModTurns(Place(y, base) - Place(x, base) + HALF, l - k);
  }

  lemma ModTurns(x: int, k: int)
    ensures (x + TURN * k) % TURN == x % TURN
  {
  }

  /** In a narrow window the mean is that of the samples' places, in the turn of the first. */
  lemma MeanOfPlaces(samples: seq<int>, base: int)
    requires samples != [] && Narrow(samples, base)
    ensures CircularMean(samples) == Some(Sum(Places(samples, base)) / |samples| + samples[0] - Place(samples[0], base))
  {
    var p, u, d := Places(samples, base), Unwrapped(samples), samples[0] - Place(samples[0], base);
    forall i | 0 <= i < |samples|
      ensures u[i] == p[i] + d
    {
      ArcBetween(samples[0], samples[i], base);
    }
    SumShift(p, u, d);
    FloorShift(Sum(p), |p|, d);
  }

  lemma PlaceIsSame(x: int, base: int)
    ensures SameAngle(x, Place(x, base))
  {
    assert x - Place(x, base) == TURN * ((x - base) / TURN);
    ModTurns(0, (x - base) / TURN);
  }

  // ---- order and representation ----

  lemma {:induction false} SumWithout(s: seq<int>, i: nat)
    requires i < |s|
    ensures Sum(s) == s[i] + Sum(s[..i] + s[i + 1..])
  {
    if i > 0 {
      SumWithout(s[1..], i - 1);
      assert (s[..i] + s[i + 1..])[1..] == s[1..][..i - 1] + s[1..][i..];
    } else {
      assert s[..0] + s[1..] == s[1..];
    }
  }

  /** A sum does not depend on the order. */
  lemma {:induction false} SumOrder(s: seq<int>, t: seq<int>)
    requires multiset(s) == multiset(t)
    ensures Sum(s) == Sum(t) && |s| == |t|
    decreases |s|
  {
    assert |multiset(s)| == |s| && |multiset(t)| == |t|;
    if s != [] {
      hide Sum;
      assert s[0] in multiset(t);
      var i :| 0 <= i < |t| && t[i] == s[0];
      WithoutOne(s, t, i);
      SumOrder(s[1..], t[..i] + t[i + 1..]);
      SumWithout(t, i);
      SumWithout(s, 0);
      assert s[..0] + s[1..] == s[1..];
    }
  }

  lemma WithoutOne(s: seq<int>, t: seq<int>, i: nat)
    requires s != [] && i < |t| && t[i] == s[0] && multiset(s) == multiset(t)
    ensures multiset(s[1..]) == multiset(t[..i] + t[i + 1..])
  {
    assert t == t[..i] + [t[i]] + t[i + 1..];
    assert s == [s[0]] + s[1..];
    assert multiset(t[..i] + t[i + 1..]) == multiset(t) - multiset{t[i]} == multiset(s[1..]);
  }

  /** In a window of less than half a turn, neither the order of the samples nor the turns each is written with changes the
      mean's angle. */
  lemma MeanIsOfAngles(a: seq<int>, b: seq<int>, base: int)
    requires a != [] && Narrow(a, base) && Narrow(b, base) && multiset(Places(a, base)) == multiset(Places(b, base))
    ensures b != [] && SameAngle(CircularMean(a).value, CircularMean(b).value)
  {
    SumOrder(Places(a, base), Places(b, base));
    MeanOfPlaces(a, base);
    MeanOfPlaces(b, base);
    PlaceIsSame(a[0], base);
    PlaceIsSame(b[0], base);
    var x, y := a[0] - Place(a[0], base), b[0] - Place(b[0], base);
    assert x == TURN * (x / TURN) && y == TURN * (y / TURN);
    ModTurns(0, x / TURN - y / TURN);
  }

  /** A whole turn more or less on any sample changes no place, so no narrow window either. */
  lemma TurnsDoNotMatter(x: int, k: int, base: int)
    ensures Place(x + TURN * k, base) == Place(x, base)
  {
    ModTurns(x - base, k);
  }

  /** Shifting every sample shifts the mean exactly, in any window. */
  lemma MeanShifts(samples: seq<int>, moved: seq<int>, d: int)
    requires samples != [] && |moved| == |samples| && forall i :: 0 <= i < |samples| ==> moved[i] == samples[i] + d
    ensures CircularMean(moved) == Some(CircularMean(samples).value + d)
  {
    var u, v := Unwrapped(samples), Unwrapped(moved);
    forall i | 0 <= i < |u|
      ensures v[i] == u[i] + d
    {
      assert moved[i] - moved[0] == samples[i] - samples[0];
    }
    SumShift(u, v, d);
    FloorShift(Sum(u), |u|, d);
  }

  lemma {:induction false} SumBetween(s: seq<int>, lo: int, hi: int)
    requires forall i :: 0 <= i < |s| ==> lo <= s[i] <= hi
    ensures |s| * lo <= Sum(s) <= |s| * hi
  {
    if s != [] {
      SumBetween(s[1..], lo, hi);
    }
  }

  /** The mean is inside the window: between any two angles that hold every sample's place. */
  lemma MeanInside(samples: seq<int>, base: int, lo: int, hi: int)
    requires samples != [] && Narrow(samples, base)
    requires forall i :: 0 <= i < |samples| ==> lo <= Place(samples[i], base) <= hi
    ensures var m := CircularMean(samples).value - samples[0] + Place(samples[0], base);
            lo <= m <= hi && SameAngle(CircularMean(samples).value, m)
  {
    var p, n := Places(samples, base), |samples|;
    MeanOfPlaces(samples, base);
    SumBetween(p, lo, hi);
    PlaceIsSame(samples[0], base);
    Quotient(Sum(p), n, lo, hi);
  }

  lemma Quotient(x: int, n: nat, lo: int, hi: int)
    requires n > 0 && n * lo <= x <= n * hi
    ensures lo <= x / n <= hi
  {
    var q, r := x / n, x % n;
    assert n * q + r == x;
    if q > hi {
      Scaled(n, hi + 1, q);
    }
    if q < lo {
      Scaled(n, q + 1, lo);
    }
  }

  // ---- two angles ----

  /** The mean of two is halfway along the shortest arc from the first. */
  lemma PairMean(x: int, y: int)
    ensures CircularMean([x, y]) == Some(x + Wrapped(y - x) / 2)
  {
    var d := Wrapped(y - x);
    assert Wrapped(x - x) == 0 && Unwrapped([x, y]) == [x, x + d];
    assert Sum([x, x + d]) == x + Sum([x + d]) && [x + d][1..] == [];
    FloorShift(d, 2, x);
  }

  lemma WrappedTurns(x: int)
    ensures x == Wrapped(x) + TURN * ((x + HALF) / TURN)
  {
  }

  /** Two angles as far before the end of the turn as past it have their mean there while they are less than half a turn
      apart, and on the far side otherwise. */
  lemma AcrossTheWrap(d: nat)
    requires d < HALF
    ensures var m := CircularMean([HALF - d, d - HALF]).value; if 2 * d < HALF then SameAngle(m, HALF) else SameAngle(m, 0)
  {
    PairMean(HALF - d, d - HALF);
    assert Wrapped(2 * d - TURN) == if 2 * d < HALF then 2 * d else 2 * d - TURN;
  }

  /** The order of two samples decides their mean exactly when they are half a turn apart. */
  lemma HalfTurnTooWide(x: int, y: int)
    ensures SameAngle(CircularMean([x, y]).value, CircularMean([y, x]).value) <==> (y - x) % TURN != HALF
  {
    var d, k := Wrapped(y - x), (y - x + HALF) / TURN;
    PairMean(x, y);
    PairMean(y, x);
    WrappedTurns(y - x);
    BackArc(y - x);
    HalfArcs(d);
    hide Wrapped, CircularMean;
    if d == -HALF {
      ModTurns(HALF, -k - 1);
    } else {
      ModTurns(0, -k);
    }
  }

  /** The arc back is the arc reversed, but for half a turn, which is the same both ways. */
  lemma BackArc(x: int)
    ensures Wrapped(-x) == if Wrapped(x) == -HALF then -HALF else -Wrapped(x)
    ensures x % TURN == HALF <==> Wrapped(x) == -HALF
  {
    WrappedTurns(x);
    var d, k := Wrapped(x), (x + HALF) / TURN;
    ModTurns(-d + HALF, -k);
    ModTurns(d, k);
  }

  lemma HalfArcs(d: int)
    ensures d / 2 - (-d) / 2 == d
  {
  }
}
