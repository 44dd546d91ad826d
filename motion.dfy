/** Toroidal motion in the asteroids arena.
    The arena is MAX_X wide and MAX_Y high. Every entity moves by adding its
    velocity to its position and then wrapping each axis on its own: a
    coordinate at or past the upper bound restarts at 0, a coordinate below 0
    restarts at bound - 1. The overshoot is discarded, so this is not modular
    arithmetic. */
module Motion {

  const MAX_X: int := 800
  const MAX_Y: int := 600

  /** A 2D vector (the game's Vec2d), used for positions, velocities and directions. */
  datatype Vec = Vec(x: real, y: real)

  /** Vector sum (Vec2d's `+`). */
  function Add(a: Vec, b: Vec): Vec
  {
    Vec(a.x + b.x, a.y + b.y)
  }

  /** Scalar multiple (Vec2d's `*` by a number). */
  function Scale(a: Vec, k: real): Vec
  {
    Vec(a.x * k, a.y * k)
  }

  /** The point lies inside the arena [0, MAX_X) x [0, MAX_Y). */
  predicate InArena(p: Vec)
  {
    0.0 <= p.x < MAX_X as real && 0.0 <= p.y < MAX_Y as real
  }

  /** Wraps one coordinate that has just been moved, against the bound of its axis. */
  function WrapAxis(c: real, bound: int): (r: real)
    requires 1 <= bound
    ensures 0.0 <= r < bound as real
    ensures r == c || r == 0.0 || r == (bound - 1) as real
  {
    if c >= bound as real then 0.0
    else if c < 0.0 then (bound - 1) as real
    else c
  }

  /** The position after one move step from position p with velocity v. */
  function Moved(p: Vec, v: Vec): (r: Vec)
    ensures InArena(r)
  {
    var q := Add(p, v);
    Vec(WrapAxis(q.x, MAX_X), WrapAxis(q.y, MAX_Y))
  }

  /** The three outcomes of wrapping one axis. A coordinate is kept exactly when it
      already lies in [0, bound); otherwise it is replaced by an edge value. */
  lemma WrapAxisCases(c: real, bound: int)
    requires 1 <= bound
    ensures WrapAxis(c, bound) == c <==> 0.0 <= c < bound as real
    ensures c >= bound as real ==> WrapAxis(c, bound) == 0.0
    ensures c < 0.0 ==> WrapAxis(c, bound) == (bound - 1) as real
  {
  }

  /** Each axis of a move is decided by that axis alone. */
  lemma MovedAxesIndependent(p: Vec, v: Vec, p': Vec, v': Vec)
    ensures p.x == p'.x && v.x == v'.x ==> Moved(p, v).x == Moved(p', v').x
    ensures p.y == p'.y && v.y == v'.y ==> Moved(p, v).y == Moved(p', v').y
  {
  }

  /** Per axis, a move lands exactly on position + velocity when that sum is inside
      the arena, on 0 when it is at or past the upper bound and on bound - 1 when it
      is negative. */
  lemma MovedExact(p: Vec, v: Vec)
    ensures var s := p.x + v.x;
      (0.0 <= s < MAX_X as real ==> Moved(p, v).x == s) &&
      (s >= MAX_X as real ==> Moved(p, v).x == 0.0) &&
      (s < 0.0 ==> Moved(p, v).x == (MAX_X - 1) as real)
    ensures var s := p.y + v.y;
      (0.0 <= s < MAX_Y as real ==> Moved(p, v).y == s) &&
      (s >= MAX_Y as real ==> Moved(p, v).y == 0.0) &&
      (s < 0.0 ==> Moved(p, v).y == (MAX_Y - 1) as real)
  {
  }

  /** A position inside the arena with zero velocity stays where it is. */
  lemma MovedAtRest(p: Vec)
    requires InArena(p)
    ensures Moved(p, Vec(0.0, 0.0)) == p
  {
  }

  /** Wrapping discards the overshoot: leaving the right edge by 5 lands on 0, not on 5,
      and leaving the left edge by 5 lands on MAX_X - 1, not on MAX_X - 5. */
  lemma OvershootDiscarded()
    ensures Moved(Vec(795.0, 10.0), Vec(10.0, 0.0)) == Vec(0.0, 10.0)
    ensures Moved(Vec(5.0, 10.0), Vec(-10.0, 0.0)) == Vec(799.0, 10.0)
  {
  }
}
