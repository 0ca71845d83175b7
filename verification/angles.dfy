/** The player's heading helpers: wrapping an angle into [-PI, PI] and
    interpolating between two headings along the shorter arc. */
module PlayerAngles {

  /** `Math.PI`, as the decimal the runtime prints for it. */
  const PI: real := 3.141592653589793

  /** k whole turns. */
  function Turns(k: int): real {
    2.0 * (k as real) * PI
  }

  predicate InRange(a: real) {
    -PI <= a <= PI
  }

  function Abs(a: real): real {
    if a < 0.0 then -a else a
  }

  /** The first loop of `normalizeAngle`: take off whole turns while above PI. */
  function WrapDown(a: real): real
    decreases a
  {
    if a > PI then WrapDown(a - 2.0 * PI) else a
  }

  /** The second loop: add whole turns while below -PI. */
  function WrapUp(a: real): real
    decreases -a
  {
    if a < -PI then WrapUp(a + 2.0 * PI) else a
  }

  function Normalize(angle: real): real {
    WrapUp(WrapDown(angle))
  }

  lemma {:induction false} WrapDownFacts(a: real)
    ensures WrapDown(a) <= PI
    ensures exists k :: WrapDown(a) == a + Turns(k)
    ensures a > PI ==> WrapDown(a) > -PI
    ensures a <= PI ==> WrapDown(a) == a
    decreases a
  {
    if a > PI {
      WrapDownFacts(a - 2.0 * PI);
      var k :| WrapDown(a - 2.0 * PI) == a - 2.0 * PI + Turns(k);
      assert WrapDown(a) == a + Turns(k - 1);
    } else {
      assert WrapDown(a) == a + Turns(0);
    }
  }

  lemma {:induction false} WrapUpFacts(a: real)
    requires a <= PI
    ensures InRange(WrapUp(a))
    ensures exists k :: WrapUp(a) == a + Turns(k)
    ensures a >= -PI ==> WrapUp(a) == a
    decreases -a
  {
    if a < -PI {
      WrapUpFacts(a + 2.0 * PI);
      var k :| WrapUp(a + 2.0 * PI) == a + 2.0 * PI + Turns(k);
      assert WrapUp(a) == a + Turns(k + 1);
    } else {
      assert WrapUp(a) == a + Turns(0);
    }
  }

  /** `normalizeAngle` lands in [-PI, PI], moves its input by whole turns
      only, leaves an angle already in range alone, and is therefore
      idempotent. */
  lemma NormalizeFacts(angle: real)
    ensures InRange(Normalize(angle))
    ensures exists k :: Normalize(angle) == angle + Turns(k)
    ensures InRange(angle) ==> Normalize(angle) == angle
    ensures Normalize(Normalize(angle)) == Normalize(angle)
  {
    WrapDownFacts(angle);
    var d := WrapDown(angle);
    WrapUpFacts(d);
    var i :| d == angle + Turns(i);
    var j :| WrapUp(d) == d + Turns(j);
    assert Normalize(angle) == angle + Turns(i + j);
    var r := Normalize(angle);
    WrapDownFacts(r);
    WrapUpFacts(r);
  }

  /** Two angles of [-PI, PI] a whole number of turns apart are equal, or
      are the two ends -PI and PI. */
  lemma SameTurnClass(x: real, y: real, k: int)
    requires InRange(x) && InRange(y) && x == y + Turns(k)
    ensures x == y || (x == PI && y == -PI) || (x == -PI && y == PI)
  {
    if k >= 1 {
      assert Turns(k) >= 2.0 * PI;
    } else if k <= -1 {
      assert Turns(k) <= -2.0 * PI;
    }
  }

  /** Normalizing does not depend on how many whole turns the input holds,
      up to the choice between the ends -PI and PI. */
  lemma NormalizeTurnInvariant(angle: real, k: int)
    ensures var x, y := Normalize(angle + Turns(k)), Normalize(angle);
      x == y || (x == PI && y == -PI) || (x == -PI && y == PI)
  {
    NormalizeFacts(angle + Turns(k));
    NormalizeFacts(angle);
    var i :| Normalize(angle + Turns(k)) == angle + Turns(k) + Turns(i);
    var j :| Normalize(angle) == angle + Turns(j);
    SameTurnClass(Normalize(angle + Turns(k)), Normalize(angle), k + i - j);
  }

  /** `normalizeAngle`: two loops that reassign the angle. */
  method NormalizeAngle(angle: real) returns (r: real)
    ensures r == Normalize(angle)
  {
    r := angle;
    while r > PI
      invariant WrapDown(r) == WrapDown(angle)
      decreases r
    {
      r := r - 2.0 * PI;
    }
    while r < -PI
      invariant WrapUp(r) == Normalize(angle)
      decreases -r
    {
      r := r + 2.0 * PI;
    }
  }

  /** The unwrap step of `lerpAngle` on two normalized headings: when they
      are more than half a turn apart, the smaller one is moved up a turn. */
  function Unwrap(start: real, end: real): (real, real) {
    if Abs(end - start) > PI then
      if end > start then (start + 2.0 * PI, end) else (start, end + 2.0 * PI)
    else (start, end)
  }

  /** After unwrapping, the headings are at most half a turn apart, each has
      moved by zero or one whole turn, and their difference is the shortest
      of all the differences `end - start + k turns`: the interpolation goes
      the short way round. */
  lemma UnwrapShortArc(start: real, end: real)
    requires InRange(start) && InRange(end)
    ensures var s, e := Unwrap(start, end).0, Unwrap(start, end).1;
      && Abs(e - s) <= PI
      && (s == start || s == start + Turns(1))
      && (e == end || e == end + Turns(1))
      && forall k :: Abs(e - s) <= Abs(end - start + Turns(k))
  {
    var s, e := Unwrap(start, end).0, Unwrap(start, end).1;
    assert e - s == end - start || e - s == end - start - Turns(1) || e - s == end - start + Turns(1);
    forall k
      ensures Abs(e - s) <= Abs(end - start + Turns(k))
    {
      if k >= 1 {
        assert Turns(k) >= 2.0 * PI;
      } else if k <= -1 {
        assert Turns(k) <= -2.0 * PI;
      }
    }
  }

  /** Linear interpolation from s (t = 0) to e (t = 1). */
  function Mix(s: real, e: real, t: real): real {
    s + (e - s) * t
  }

  /** The final step of `lerpAngle`: interpolate, then normalize. */
  function Interpolate(s: real, e: real, t: real): real {
    Normalize(Mix(s, e, t))
  }

  lemma InterpolateInRange(s: real, e: real, t: real)
    ensures InRange(Interpolate(s, e, t))
  {
    NormalizeFacts(Mix(s, e, t));
  }

  /** What `lerpAngle` returns. */
  function Lerp(start: real, end: real, t: real): real {
    Interpolate(Unwrap(Normalize(start), Normalize(end)).0, Unwrap(Normalize(start), Normalize(end)).1, t)
  }

  /** `lerpAngle`'s result is a heading in [-PI, PI]. */
  lemma LerpInRange(start: real, end: real, t: real)
    ensures InRange(Lerp(start, end, t))
  {
    InterpolateInRange(Unwrap(Normalize(start), Normalize(end)).0, Unwrap(Normalize(start), Normalize(end)).1, t);
  }

  /** Each unwrapped heading is its original input plus whole turns. */
  lemma UnwrapTurns(start: real, end: real)
    ensures var u := Unwrap(Normalize(start), Normalize(end));
      (exists k :: u.0 == start + Turns(k)) && (exists k :: u.1 == end + Turns(k))
  {
    NormalizeFacts(start);
    NormalizeFacts(end);
    var ns, ne := Normalize(start), Normalize(end);
    var i :| ns == start + Turns(i);
    var j :| ne == end + Turns(j);
    UnwrapShortArc(ns, ne);
    var s, e := Unwrap(ns, ne).0, Unwrap(ns, ne).1;
    if s != ns {
      assert s == start + Turns(i + 1);
    } else {
      assert s == start + Turns(i);
    }
    if e != ne {
      assert e == end + Turns(j + 1);
    } else {
      assert e == end + Turns(j);
    }
  }

  /** At t = 0 `lerpAngle` gives the start heading, up to whole turns. */
  lemma LerpAtZero(start: real, end: real)
    ensures exists k :: Lerp(start, end, 0.0) == start + Turns(k)
  {
    UnwrapTurns(start, end);
    var s, e := Unwrap(Normalize(start), Normalize(end)).0, Unwrap(Normalize(start), Normalize(end)).1;
    var i :| s == start + Turns(i);
    assert Mix(s, e, 0.0) == s;
    NormalizeFacts(s);
    var a :| Normalize(s) == s + Turns(a);
    assert Lerp(start, end, 0.0) == start + Turns(i + a);
  }

  /** At t = 1 `lerpAngle` gives the end heading, up to whole turns. */
  lemma LerpAtOne(start: real, end: real)
    ensures exists k :: Lerp(start, end, 1.0) == end + Turns(k)
  {
    UnwrapTurns(start, end);
    var s, e := Unwrap(Normalize(start), Normalize(end)).0, Unwrap(Normalize(start), Normalize(end)).1;
    var j :| e == end + Turns(j);
    assert Mix(s, e, 1.0) == e;
    NormalizeFacts(e);
    var b :| Normalize(e) == e + Turns(b);
    assert Lerp(start, end, 1.0) == end + Turns(j + b);
  }

  /** Halfway from 3 to -3 radians is PI, across the back, not 0: the
      short way round between them passes through the ends of the range. */
  lemma LerpShortWayExample()
    ensures Lerp(3.0, -3.0, 0.5) == PI
  {
    NormalizeFacts(3.0);
    NormalizeFacts(-3.0);
    assert Unwrap(3.0, -3.0) == (3.0, -3.0 + 2.0 * PI);
    assert Mix(3.0, -3.0 + 2.0 * PI, 0.5) == PI;
    NormalizeFacts(PI);
  }

  /** `lerpAngle`: normalize both headings, unwrap, interpolate, normalize. */
  method LerpAngle(start: real, end: real, t: real) returns (r: real)
    ensures r == Lerp(start, end, t)
  {
    var s := NormalizeAngle(start);
    var e := NormalizeAngle(end);
    ghost var unwrapped := Unwrap(s, e);
    if Abs(e - s) > PI {
      if e > s {
        s := s + 2.0 * PI;
      } else {
        e := e + 2.0 * PI;
      }
    }
    assert s == unwrapped.0 && e == unwrapped.1;
    r := NormalizeAngle(Mix(s, e, t));
  }
}
