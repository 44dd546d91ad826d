# Asteroids: a verified model of the simulation rules

This project models the deterministic simulation rules of a small arcade game
(`asteroids.py`). The player's ship, its bullets and a field of rocks move in an
800 x 600 arena whose edges wrap around. The modelled rules are these:

- **Toroidal move.** Every entity adds its velocity to its position and then wraps each
  axis on its own. A coordinate at or past the upper bound becomes 0. A coordinate
  below 0 becomes bound − 1. The overshoot is discarded.
- **Bullets.** A bullet is born with age 0. It grows one frame older per frame. It is
  alive while its age is at most `MAX_BULLET_AGE` (30).
- **The per-frame bullet pass.** The main loop ages and moves every bullet. It then
  keeps only the live ones, in their original order.
- **The ship.** It turns left or right by changing an unnormalised heading. It starts
  at rest in the centre of the arena.
- **The initial rock field.** This is exactly `MAX_ROCKS` (5) rocks, each placed inside
  the arena with a radius in [10, 50].

Layout:

- `motion.dfy` (module `Motion`): vectors, the arena bounds and the wrap rule, as pure
  functions with their lemmas.
- `entities.dfy` (module `Entities`): the classes `Rock`, `Bullet` and `SpaceShip`.
  Their methods update fields in place and declare `modifies` frames. The module also
  has the value-level bullet state (`BulletState`, `Step`, `Alive`, `Fired`).
- `game.dfy` (module `Game`): the start of a game, firing, and the rock spawner. It also
  has the frame's bullet, rock and ship passes. The bullet pass is a loop over the
  bullet objects. It is proved against `Pass`, a function on bullet states, and the
  lifetime and ordering lemmas are proved about `Pass`.

Positions, velocities and headings are Dafny `real`s. Random numbers, trigonometry and
square roots are not computed. Their results are parameters:

- `SpawnRocks` receives the `randint` draws, with their documented ranges as
  `requires` clauses.
- `Bullet`'s constructor receives the already normalised direction.
- `Fire` receives the heading's unit vector.

Notes on the code's behaviour:

- A bullet that expires in a frame is still moved in that frame. The main loop ages and
  moves each bullet before it tests whether the bullet is alive (asteroids.py:175-178).
- The ship starts with heading 0 and zero velocity (asteroids.py:89, asteroids.py:147).
- The code has no collision test, score, rock splitting, off-screen spawning or bullet
  cap, so the model has none either.

## Model

| member | source | states |
|---|---|---|
| Motion.WrapAxis | asteroids.py:43-50 | a wrapped coordinate always lies in [0, bound), and it is either the moved coordinate itself or one of the two edge values 0 and bound − 1 |
| Motion.Moved | asteroids.py:41-50 | after any move, from any position with any velocity, the position lies inside the arena [0, MAX_X) × [0, MAX_Y) |
| Motion.WrapAxisCases | asteroids.py:43-50 | a coordinate is kept if and only if it already lies in [0, bound); at or past the bound it becomes 0, below 0 it becomes bound − 1 |
| Motion.MovedExact | asteroids.py:42-50 | per axis, the move gives exactly position + velocity when that sum is inside, 0 when it reaches the upper bound, and bound − 1 when it is negative |
| Motion.MovedAxesIndependent | asteroids.py:43-50 | the new x depends only on the old x and the x velocity, and likewise for y |
| Motion.MovedAtRest | asteroids.py:41-50 | a position inside the arena with zero velocity does not change |
| Motion.OvershootDiscarded | asteroids.py:43-46 | wrapping is not modular: leaving the right edge by 5 lands on 0, and leaving the left edge by 5 lands on 799 |
| Entities.Rock.constructor | asteroids.py:32-35 | a new rock holds the given position, velocity and radius |
| Entities.Rock.Move | asteroids.py:41-50 | the position becomes the wrapped position + velocity and lies in the arena; velocity and radius are unchanged |
| Entities.Bullet.constructor | asteroids.py:53-57 | a new bullet has age 0, the given position and direction, and velocity = direction × BULLET_SPEED |
| Entities.Bullet.Move | asteroids.py:65-74 | the position becomes the wrapped position + velocity and lies in the arena; direction, velocity and age are unchanged |
| Entities.Bullet.GrowOlder | asteroids.py:76-77 | the age increases by exactly 1 and nothing else changes |
| Entities.Bullet.IsAlive | asteroids.py:79-83 | a bullet is alive if and only if its age is at most MAX_BULLET_AGE (30) |
| Entities.Step | asteroids.py:175-176 | one frame of a bullet makes it exactly one frame older, leaves it inside the arena, and keeps its direction and velocity |
| Entities.AliveBoundary | asteroids.py:79-83 | a bullet of age 30 is alive, one of age 31 is not, and a dead bullet stays dead as it ages |
| Entities.SpaceShip.constructor | asteroids.py:86-91 | a new ship has zero velocity and the given position, heading and sizes |
| Entities.SpaceShip.Move | asteroids.py:97-106 | the position becomes the wrapped position + velocity and lies in the arena; heading, velocity and sizes are unchanged |
| Entities.SpaceShip.TurnLeft | asteroids.py:108-109 | the heading decreases by the angle, with no normalisation; position and velocity are unchanged |
| Entities.SpaceShip.TurnRight | asteroids.py:111-112 | the heading increases by the angle, with no normalisation; position and velocity are unchanged |
| Entities.TurnLeftThenRight | asteroids.py:108-112 | turning left and then right by the same angle restores the heading |
| Game.Pass | asteroids.py:173-180 | one frame's bullet pass never makes the list longer, and every bullet it keeps is alive |
| Game.Survivors | asteroids.py:178-179 | the kept positions are strictly increasing, and a position is kept exactly when that bullet is alive after ageing |
| Game.PassSelects | asteroids.py:173-180 | the pass result is the aged and moved states of exactly the surviving bullets, in their original order |
| Game.PassAppend | asteroids.py:174-179 | each bullet's fate in a pass does not depend on the other bullets: the pass of a concatenation is the concatenation of the passes |
| Game.Passes | asteroids.py:153-180 | over any number of frames the bullet list never grows, and after at least one frame every bullet in it is alive |
| Game.PassesAppend | asteroids.py:153-180 | over any number of frames, the fate of each bullet is independent of the other bullets in the list |
| Game.Advance | asteroids.py:175-176 | after n frames a bullet is n frames older, keeps its direction and velocity, and lies in the arena once it has moved |
| Game.SingleBulletPasses | asteroids.py:173-180 | a bullet survives n frames exactly while its age stays ≤ MAX_BULLET_AGE, and it has then aged and moved n times |
| Game.FiredBulletLifetime | asteroids.py:168-180 | a freshly fired bullet is still in the list after 30 frames, with age 30, and is dropped in the 31st |
| Game.FiredBulletLifetimeInList | asteroids.py:168-180 | a bullet fired behind any other bullets stays at the end of the list, with age n, for n ≤ 30 frames and is dropped in the 31st; the bullets before it are unaffected |
| Game.AgeAndCull | asteroids.py:173-180 | every bullet ages by one and moves once; the returned list holds the same bullet objects that survive, in order, and its states equal `Pass` of the old states |
| Game.SpawnRocks | asteroids.py:135-142 | exactly MAX_ROCKS new, distinct rocks, each built from its draws, each inside the arena with a radius in [MIN_ROCK_RADIUS, MAX_ROCK_RADIUS] |
| Game.MoveRocks | asteroids.py:182-183 | every rock moves once, lands inside the arena, and keeps its velocity and radius |
| Game.Fire | asteroids.py:168-170 | the bullet list grows by exactly one new bullet at the end; it is at the ship's position with age 0, and the other bullets keep their places |
| Game.Start | asteroids.py:147-151 | the game starts with the ship at rest at (400, 300) with heading 0, no bullets, and a valid rock field |
| Game.Frame | asteroids.py:173-186 | one frame ages and moves every bullet and keeps the live ones in order, moves every rock, and then moves the ship; only the ship's position changes |

## Left out

- Drawing (`draw` methods, `ship_points`), the display, `terminate` and the frame clock
  are pygame I/O.
- Event polling and the key dispatch in `main` (asteroids.py:156-170) are input handling.
  The operations the keys trigger are modelled: `TurnLeft`, `TurnRight` and `Fire`.
- `SpaceShip.accelerate` (asteroids.py:114-120) needs a rotation and a vector length.
  Those use floating-point trigonometry and a square root, so the speed cap is not
  modelled.
- Normalising a bullet's direction (asteroids.py:55) is left out. The constructor takes
  the normalised direction as given.
- A rock's velocity comes from a random heading rotated by trigonometry
  (asteroids.py:140). It is passed to `SpawnRocks` as an opaque drawn vector.
- The module `vector2D` is not part of this model. Its vector objects are shared by
  reference; for example, a new bullet shares the ship's position object. Every move
  replaces the position object before it overwrites its coordinates, so that sharing is
  never visible, and the model treats positions as values.
- Python 2's split between integer and floating-point coordinates is not modelled. All
  coordinates are reals.
