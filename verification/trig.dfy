/**
 * Trigonometry as the polygon aperture uses it. The values of `cos`, `sin` and `pi`
 * are not modelled: they are carried as an uninterpreted record, and each fact a
 * proof relies on is an explicit hypothesis about that record.
 */
module Trig {

  /** `np.cos`, `np.sin` and `np.pi`, left uninterpreted. */
  datatype Trig = Trig(cos: real -> real, sin: real -> real, pi: real)

  /** `np.cos(np.pi / n)`, the factor relating a regular n-gon's apothem to its circumradius. */
  function CosPiOver(t: Trig, n: int): real
    requires n != 0
  {
    t.cos(t.pi / (n as real))
  }

  /** The one fact the apothem needs: `cos(pi / n) > 0` for every polygon side count `n >= 3`. */
  ghost predicate CosPositive(t: Trig)
  {
    forall n: int :: n >= 3 ==> CosPiOver(t, n) > 0.0
  }

  /** Half-turn law at angle `u`: rotating by `pi` negates both cosine and sine. */
  predicate HalfTurn(t: Trig, u: real)
  {
    t.cos(u + t.pi) == -t.cos(u) && t.sin(u + t.pi) == -t.sin(u)
  }

  /** Mirror law at angle `u`: cosine is even and sine is odd. */
  predicate Mirror(t: Trig, u: real)
  {
    t.cos(-u) == t.cos(u) && t.sin(-u) == -t.sin(u)
  }

  /** Quarter-turn law at angle `u`: `cos(u - pi/2) = sin u` and `sin(u - pi/2) = -cos u`. */
  predicate QuarterTurn(t: Trig, u: real)
  {
    t.cos(u - t.pi / 2.0) == t.sin(u) && t.sin(u - t.pi / 2.0) == -t.cos(u)
  }

  /**
   * The laws of real trigonometry that the comparison of the polygon branches with a
   * test of every edge relies on. Real `cos`, `sin` and `pi` satisfy all of them.
   */
  ghost predicate TrigLaws(t: Trig)
  {
    && (forall u :: HalfTurn(t, u))
    && (forall u :: Mirror(t, u))
    && (forall u :: QuarterTurn(t, u))
  }

  /** `q` full turns, `2 pi q`. */
  function Turns(t: Trig, q: int): real
  {
    2.0 * t.pi * (q as real)
  }

  /** One more full turn adds `2 pi`. */
  lemma TurnsSucc(t: Trig, q: int)
    ensures Turns(t, q + 1) == Turns(t, q) + 2.0 * t.pi
  {
    var c := 2.0 * t.pi;
    var x := q as real;
    assert c * (x + 1.0) == c * x + c;
  }

  /** Rotating by a whole number `q` of full turns changes neither cosine nor sine. */
  lemma {:induction false} FullTurns(t: Trig, u: real, q: int)
    requires TrigLaws(t)
    ensures t.cos(u + Turns(t, q)) == t.cos(u)
    ensures t.sin(u + Turns(t, q)) == t.sin(u)
    decreases if q < 0 then -q else q
  {
    if q > 0 {
      var w := u + Turns(t, q - 1);
      FullTurns(t, u, q - 1);
      TurnsSucc(t, q - 1);
      assert HalfTurn(t, w);
      assert HalfTurn(t, w + t.pi);
      assert u + Turns(t, q) == w + t.pi + t.pi;
    } else if q < 0 {
      var w := u + Turns(t, q);
      FullTurns(t, u, q + 1);
      TurnsSucc(t, q);
      assert HalfTurn(t, w);
      assert HalfTurn(t, w + t.pi);
      assert u + Turns(t, q + 1) == w + t.pi + t.pi;
    }
  }
}
