/** The game's set-up and per-frame update: the initial rock field, firing, the
    bullet pass that ages, moves and culls bullets, and the rock and ship moves. */
module Game {
  import opened Motion
  import opened Entities

  const MAX_ROCKS: int := 5
  const START_X: int := MAX_X / 2
  const START_Y: int := MAX_Y / 2

  predicate Distinct<T(==)>(s: seq<T>)
  {
    forall i, j :: 0 <= i < j < |s| ==> s[i] != s[j]
  }

  // ---------------------------------------------------------------------------
  // The bullet pass, on values

  /** One frame's bullet pass over bullet states in list order: each bullet ages and
      moves, and it is kept, in place, only if it is still alive afterwards. */
  function Pass(bs: seq<BulletState>): (r: seq<BulletState>)
    ensures |r| <= |bs|
    ensures forall k :: 0 <= k < |r| ==> Alive(r[k].age)
    decreases |bs|
  {
    if bs == [] then []
    else
      var last := Step(bs[|bs| - 1]);
      Pass(bs[..|bs| - 1]) + (if Alive(last.age) then [last] else [])
  }

  /** The positions, in increasing order, of the bullets that survive a pass:
      exactly those whose aged state is alive. */
  function Survivors(bs: seq<BulletState>): (idx: seq<int>)
    ensures forall k :: 0 <= k < |idx| ==> 0 <= idx[k] < |bs| && Alive(Step(bs[idx[k]]).age)
    ensures forall k, l :: 0 <= k < l < |idx| ==> idx[k] < idx[l]
    ensures forall j :: 0 <= j < |bs| && Alive(Step(bs[j]).age) ==> j in idx
    decreases |bs|
  {
    if bs == [] then []
    else
      var n := |bs| - 1;
      Survivors(bs[..n]) + (if Alive(Step(bs[n]).age) then [n] else [])
  }

  /** Extending the list by one bullet extends the survivors by its position exactly
      when that bullet is alive after ageing. */
  lemma SurvivorsSnoc(bs: seq<BulletState>, i: int)
    requires 0 <= i < |bs|
    ensures Survivors(bs[..i + 1]) == Survivors(bs[..i]) + (if Alive(Step(bs[i]).age) then [i] else [])
  {
    assert bs[..i + 1][..i] == bs[..i];
  }

  /** The pass keeps the aged states of exactly the surviving bullets, in their
      original order. */
  lemma {:induction false} PassSelects(bs: seq<BulletState>)
    ensures |Pass(bs)| == |Survivors(bs)|
    ensures forall k :: 0 <= k < |Pass(bs)| ==> Pass(bs)[k] == Step(bs[Survivors(bs)[k]])
    decreases |bs|
  {
    if bs != [] {
      var n := |bs| - 1;
      PassSelects(bs[..n]);
    }
  }

  /** A pass treats every bullet on its own: passing two lists one after the other
      is the same as passing their concatenation. */
  lemma {:induction false} PassAppend(xs: seq<BulletState>, ys: seq<BulletState>)
    ensures Pass(xs + ys) == Pass(xs) + Pass(ys)
    decreases |ys|
  {
    if ys == [] {
      assert xs + ys == xs;
    } else {
      var n := |ys| - 1;
      assert (xs + ys)[..|xs + ys| - 1] == xs + ys[..n];
      PassAppend(xs, ys[..n]);
    }
  }

  /** `n` frames' worth of bullet passes. */
  function Passes(n: nat, bs: seq<BulletState>): (r: seq<BulletState>)
    ensures |r| <= |bs|
    ensures n > 0 ==> forall k :: 0 <= k < |r| ==> Alive(r[k].age)
  {
    if n == 0 then bs else Pass(Passes(n - 1, bs))
  }

  /** A bullet after `n` frames of ageing and moving. */
  function Advance(b: BulletState, n: nat): (r: BulletState)
    ensures r.age == b.age + n
    ensures r.direction == b.direction && r.velocity == b.velocity
    ensures InArena(r.position) || n == 0
  {
    if n == 0 then b else Step(Advance(b, n - 1))
  }

  /** A single bullet survives `n` frames exactly while its age stays within
      MAX_BULLET_AGE, having aged and moved once per frame. */
  lemma {:induction false} SingleBulletPasses(b: BulletState, n: nat)
    ensures Passes(n, [b]) == if n == 0 || b.age + n <= MAX_BULLET_AGE then [Advance(b, n)] else []
  {
    if n > 0 {
      SingleBulletPasses(b, n - 1);
    }
  }

  /** A freshly fired bullet is still in the list after 30 frames and is dropped in
      the 31st. */
  lemma {:induction false} FiredBulletLifetime(position: Vec, direction: Vec, n: nat)
    ensures |Passes(n, [Fired(position, direction)])| == if n <= MAX_BULLET_AGE then 1 else 0
    ensures n <= MAX_BULLET_AGE ==> Passes(n, [Fired(position, direction)])[0].age == n
  {
    SingleBulletPasses(Fired(position, direction), n);
  }

  /** Over any number of frames, each bullet's fate is independent of the others. */
  lemma {:induction false} PassesAppend(n: nat, xs: seq<BulletState>, ys: seq<BulletState>)
    ensures Passes(n, xs + ys) == Passes(n, xs) + Passes(n, ys)
  {
    if n > 0 {
      PassesAppend(n - 1, xs, ys);
      PassAppend(Passes(n - 1, xs), Passes(n - 1, ys));
    }
  }

  /** A bullet fired behind any list of bullets is still at the end of the list
      after 30 frames, with age 30, and is dropped in the 31st, whatever the other
      bullets do. */
  lemma {:induction false} FiredBulletLifetimeInList(xs: seq<BulletState>, position: Vec, direction: Vec, n: nat)
    ensures var r := Passes(n, xs + [Fired(position, direction)]);
      |r| == |Passes(n, xs)| + (if n <= MAX_BULLET_AGE then 1 else 0) &&
      r[..|Passes(n, xs)|] == Passes(n, xs) &&
      (n <= MAX_BULLET_AGE ==> r[|r| - 1].age == n)
  {
    PassesAppend(n, xs, [Fired(position, direction)]);
    FiredBulletLifetime(position, direction, n);
  }

  // ---------------------------------------------------------------------------
  // The bullet pass, on objects

  function States(bs: seq<Bullet>): (r: seq<BulletState>)
    reads set b | b in bs
    ensures |r| == |bs|
    ensures forall i :: 0 <= i < |bs| ==> r[i] == bs[i].State()
  {
    seq(|bs|, i reads bs requires 0 <= i < |bs| => bs[i].State())
  }

  /** The main loop's bullet pass: every bullet grows one frame older and moves once,
      and the returned list holds, in their original order, the bullets still alive. */
  method AgeAndCull(bullets: seq<Bullet>) returns (survivors: seq<Bullet>)
    requires Distinct(bullets)
    modifies set b | b in bullets
    ensures forall i :: 0 <= i < |bullets| ==> bullets[i].State() == Step(old(bullets[i].State()))
    ensures |survivors| == |Survivors(old(States(bullets)))|
    ensures forall k :: 0 <= k < |survivors| ==>
      survivors[k] == bullets[Survivors(old(States(bullets)))[k]]
    ensures States(survivors) == Pass(old(States(bullets)))
    ensures Distinct(survivors)
  {
    ghost var before := States(bullets);
    ghost var kept: seq<int> := [];
    survivors := [];
    var i := 0;
    while i < |bullets|
      invariant 0 <= i <= |bullets|
      invariant forall j :: 0 <= j < |bullets| ==>
        bullets[j].State() == if j < i then Step(before[j]) else before[j]
      invariant kept == Survivors(before[..i])
      invariant |survivors| == |kept|
      invariant forall k :: 0 <= k < |survivors| ==> survivors[k] == bullets[kept[k]]
    {
      var b := bullets[i];
      b.GrowOlder();
      b.Move();
      SurvivorsSnoc(before, i);
      if b.IsAlive() {
        survivors, kept := survivors + [b], kept + [i];
      }
      i := i + 1;
    }
    assert before[..i] == before;
    SelectedStates(bullets, survivors, before);
  }

  /** The bullets picked by `Survivors`, once aged and moved, have exactly the states
      of one pass, and they are distinct objects. */
  lemma SelectedStates(bullets: seq<Bullet>, survivors: seq<Bullet>, before: seq<BulletState>)
    requires Distinct(bullets) && |before| == |bullets|
    requires forall j :: 0 <= j < |bullets| ==> bullets[j].State() == Step(before[j])
    requires |survivors| == |Survivors(before)|
    requires forall k :: 0 <= k < |survivors| ==> survivors[k] == bullets[Survivors(before)[k]]
    ensures States(survivors) == Pass(before)
    ensures Distinct(survivors)
  {
    PassSelects(before);
  }

  // ---------------------------------------------------------------------------
  // Rocks, firing and the frame

  /** The random draws for one spawned rock: its position and radius (`randint`
      results) and its velocity (a random heading scaled by a random speed). */
  datatype RockDraw = RockDraw(x: int, y: int, radius: int, velocity: Vec)

  predicate DrawInRange(d: RockDraw)
  {
    0 <= d.x <= MAX_X - 1 && 0 <= d.y <= MAX_Y - 1 &&
    MIN_ROCK_RADIUS <= d.radius <= MAX_ROCK_RADIUS
  }

  /** The initial rock field: exactly MAX_ROCKS new rocks, each inside the arena and
      with a radius between MIN_ROCK_RADIUS and MAX_ROCK_RADIUS. */
  method SpawnRocks(draws: seq<RockDraw>) returns (rocks: seq<Rock>)
    requires |draws| == MAX_ROCKS
    requires forall i :: 0 <= i < |draws| ==> DrawInRange(draws[i])
    ensures |rocks| == MAX_ROCKS && Distinct(rocks)
    ensures forall i :: 0 <= i < |rocks| ==> fresh(rocks[i])
    ensures forall i :: 0 <= i < |rocks| ==>
      rocks[i].position == Vec(draws[i].x as real, draws[i].y as real) &&
      rocks[i].velocity == draws[i].velocity && rocks[i].radius == draws[i].radius
    ensures forall i :: 0 <= i < |rocks| ==>
      InArena(rocks[i].position) && MIN_ROCK_RADIUS <= rocks[i].radius <= MAX_ROCK_RADIUS
  {
    rocks := [];
    while |rocks| < MAX_ROCKS
      invariant |rocks| <= MAX_ROCKS && Distinct(rocks)
      invariant forall i :: 0 <= i < |rocks| ==> fresh(rocks[i])
      invariant forall i :: 0 <= i < |rocks| ==>
        rocks[i].position == Vec(draws[i].x as real, draws[i].y as real) &&
        rocks[i].velocity == draws[i].velocity && rocks[i].radius == draws[i].radius
    {
      var d := draws[|rocks|];
      var rock := new Rock(Vec(d.x as real, d.y as real), d.velocity, d.radius);
      rocks := rocks + [rock];
    }
  }

  /** The main loop's rock pass: every rock moves once. */
  method MoveRocks(rocks: seq<Rock>)
    requires Distinct(rocks)
    modifies set r | r in rocks
    ensures forall i :: 0 <= i < |rocks| ==>
      rocks[i].position == Moved(old(rocks[i].position), rocks[i].velocity) &&
      rocks[i].velocity == old(rocks[i].velocity) && rocks[i].radius == old(rocks[i].radius)
    ensures forall i :: 0 <= i < |rocks| ==> InArena(rocks[i].position)
  {
    var i := 0;
    while i < |rocks|
      invariant 0 <= i <= |rocks|
      invariant forall j :: 0 <= j < i ==>
        rocks[j].position == Moved(old(rocks[j].position), rocks[j].velocity) &&
        rocks[j].velocity == old(rocks[j].velocity) && rocks[j].radius == old(rocks[j].radius)
      invariant forall j :: i <= j < |rocks| ==>
        rocks[j].position == old(rocks[j].position) &&
        rocks[j].velocity == old(rocks[j].velocity) && rocks[j].radius == old(rocks[j].radius)
    {
      rocks[i].Move();
      i := i + 1;
    }
  }

  /** Firing appends a new bullet at the ship's position; `direction` is the unit
      vector of the ship's heading. */
  method Fire(ship: SpaceShip, bullets: seq<Bullet>, direction: Vec) returns (bullets': seq<Bullet>)
    requires Distinct(bullets)
    ensures |bullets'| == |bullets| + 1 && bullets'[..|bullets|] == bullets
    ensures fresh(bullets'[|bullets|])
    ensures bullets'[|bullets|].State() == Fired(ship.position, direction)
    ensures Distinct(bullets')
  {
    var b := new Bullet(ship.position, direction);
    bullets' := bullets + [b];
  }

  /** The state at the start of the game: the ship at the centre of the arena facing
      heading 0, no bullets and a freshly spawned rock field. */
  method Start(draws: seq<RockDraw>) returns (ship: SpaceShip, bullets: seq<Bullet>, rocks: seq<Rock>)
    requires |draws| == MAX_ROCKS
    requires forall i :: 0 <= i < |draws| ==> DrawInRange(draws[i])
    ensures fresh(ship)
    ensures ship.position == Vec(400.0, 300.0) && ship.rotation == 0.0
    ensures ship.velocity == Vec(0.0, 0.0) && ship.sizeMajor == 20 && ship.sizeMinor == 10
    ensures bullets == []
    ensures |rocks| == MAX_ROCKS && Distinct(rocks)
    ensures forall i :: 0 <= i < |rocks| ==>
      fresh(rocks[i]) && InArena(rocks[i].position) &&
      MIN_ROCK_RADIUS <= rocks[i].radius <= MAX_ROCK_RADIUS
  {
    ship := new SpaceShip(Vec(START_X as real, START_Y as real), 0.0, 20, 10);
    bullets := [];
    rocks := SpawnRocks(draws);
  }

  /** The simulation part of one frame, after the input events: the bullet pass,
      then every rock moves, then the ship moves. */
  method Frame(ship: SpaceShip, bullets: seq<Bullet>, rocks: seq<Rock>) returns (bullets': seq<Bullet>)
    requires Distinct(bullets) && Distinct(rocks)
    modifies ship`position, set b | b in bullets, set r | r in rocks
    ensures forall i :: 0 <= i < |bullets| ==> bullets[i].State() == Step(old(bullets[i].State()))
    ensures Distinct(bullets') && States(bullets') == Pass(old(States(bullets)))
    ensures forall k :: 0 <= k < |bullets'| ==> bullets'[k] in bullets && InArena(bullets'[k].position)
    ensures forall i :: 0 <= i < |rocks| ==>
      rocks[i].position == Moved(old(rocks[i].position), rocks[i].velocity) &&
      rocks[i].velocity == old(rocks[i].velocity) && rocks[i].radius == old(rocks[i].radius)
    ensures ship.position == Moved(old(ship.position), ship.velocity)
    ensures ship.rotation == old(ship.rotation) && ship.velocity == old(ship.velocity)
    ensures ship.sizeMajor == old(ship.sizeMajor) && ship.sizeMinor == old(ship.sizeMinor)
  {
    bullets' := AgeAndCull(bullets);
    MoveRocks(rocks);
    ship.Move();
  }
}
