/** The three kinds of moving entity: rocks, bullets and the player's ship.
    Each is an object whose fields are updated in place by its methods. */
module Entities {
  import opened Motion

  const BULLET_SPEED: real := 30.0
  const MAX_BULLET_AGE: int := 30
  const MIN_ROCK_RADIUS: int := 10
  const MAX_ROCK_RADIUS: int := 50

  class Rock {
    var position: Vec
    var velocity: Vec
    var radius: int

    constructor (position: Vec, velocity: Vec, radius: int)
      ensures this.position == position && this.velocity == velocity && this.radius == radius
    {
      this.position := position;
      this.velocity := velocity;
      this.radius := radius;
    }

    /** One move step with toroidal wrap; only the position changes. */
    method Move()
      modifies this`position
      ensures position == Moved(old(position), velocity)
      ensures InArena(position)
      ensures velocity == old(velocity) && radius == old(radius)
    {
      position := Moved(position, velocity);
    }
  }

  /** The observable state of a bullet, as a value. */
  datatype BulletState = BulletState(position: Vec, direction: Vec, velocity: Vec, age: int)

  /** A bullet of this age is still alive (the bound is inclusive). */
  predicate Alive(age: int)
  {
    !(age > MAX_BULLET_AGE)
  }

  /** The state of a bullet just fired from `position` along the unit vector `direction`. */
  function Fired(position: Vec, direction: Vec): BulletState
  {
    BulletState(position, direction, Scale(direction, BULLET_SPEED), 0)
  }

  /** One frame of a bullet: it grows one frame older and moves once. */
  function Step(b: BulletState): (r: BulletState)
    ensures r.age == b.age + 1 && InArena(r.position)
    ensures r.direction == b.direction && r.velocity == b.velocity
  {
    b.(age := b.age + 1, position := Moved(b.position, b.velocity))
  }

  class Bullet {
    var position: Vec
    var direction: Vec
    var velocity: Vec
    var age: int

    /** `direction` is the already normalised firing direction. */
    constructor (position: Vec, direction: Vec)
      ensures State() == Fired(position, direction)
      ensures age == 0
    {
      this.position := position;
      this.direction := direction;
      this.velocity := Scale(direction, BULLET_SPEED);
      this.age := 0;
    }

    function State(): BulletState
      reads this
    {
      BulletState(position, direction, velocity, age)
    }

    /** One move step with toroidal wrap; only the position changes. */
    method Move()
      modifies this`position
      ensures position == Moved(old(position), velocity)
      ensures InArena(position)
      ensures State() == old(State()).(position := position)
    {
      position := Moved(position, velocity);
    }

    method GrowOlder()
      modifies this`age
      ensures age == old(age) + 1
      ensures State() == old(State()).(age := age)
    {
      age := age + 1;
    }

    /** The bullet's `alive()` test. */
    predicate IsAlive()
      reads this
      ensures IsAlive() <==> age <= MAX_BULLET_AGE
    {
      Alive(age)
    }
  }

  class SpaceShip {
    var position: Vec
    var rotation: real  // degrees, never normalised
    var velocity: Vec
    var sizeMajor: int
    var sizeMinor: int

    constructor (position: Vec, rotation: real, sizeMajor: int, sizeMinor: int)
      ensures this.position == position && this.rotation == rotation
      ensures velocity == Vec(0.0, 0.0)
      ensures this.sizeMajor == sizeMajor && this.sizeMinor == sizeMinor
    {
      this.position := position;
      this.rotation := rotation;
      this.velocity := Vec(0.0, 0.0);
      this.sizeMajor := sizeMajor;
      this.sizeMinor := sizeMinor;
    }

    /** One move step with toroidal wrap; only the position changes. */
    method Move()
      modifies this`position
      ensures position == Moved(old(position), velocity)
      ensures InArena(position)
      ensures rotation == old(rotation) && velocity == old(velocity)
      ensures sizeMajor == old(sizeMajor) && sizeMinor == old(sizeMinor)
    {
      position := Moved(position, velocity);
    }

    method TurnLeft(angle: real)
      modifies this`rotation
      ensures rotation == old(rotation) - angle
      ensures position == old(position) && velocity == old(velocity)
    {
      rotation := rotation - angle;
    }

    method TurnRight(angle: real)
      modifies this`rotation
      ensures rotation == old(rotation) + angle
      ensures position == old(position) && velocity == old(velocity)
    {
      rotation := rotation + angle;
    }
  }

  /** Turning left and then right by the same angle restores the heading. */
  method TurnLeftThenRight(ship: SpaceShip, angle: real)
    modifies ship`rotation
    ensures ship.rotation == old(ship.rotation)
    ensures ship.position == old(ship.position) && ship.velocity == old(ship.velocity)
    ensures ship.sizeMajor == old(ship.sizeMajor) && ship.sizeMinor == old(ship.sizeMinor)
  {
    ship.TurnLeft(angle);
    ship.TurnRight(angle);
  }

  /** Age is an inclusive bound: a bullet of age MAX_BULLET_AGE is alive, one frame
      later it is not, and once dead it never becomes alive again by ageing. */
  lemma AliveBoundary(age: int, later: int)
    ensures Alive(MAX_BULLET_AGE) && !Alive(MAX_BULLET_AGE + 1)
    ensures !Alive(age) && age <= later ==> !Alive(later)
  {
  }
}
