/** The moving bodies of the game: the value a drone (or the player) holds,
    how a fresh drone is drawn from four random numbers, the contact test
    between the player and a drone, and the player's keyboard steering step.
    The source's single-precision floats are modelled as reals. */
module Drones {
  import opened Geometry

  /** Position and velocity; the player uses the same record. */
  datatype Drone = Drone(x: real, y: real, vx: real, vy: real)

  /** The four results of rand() consumed for one drone, in the order the
      source draws them: x, y, vx, vy. rand() never returns a negative value. */
  datatype Draw = Draw(x: nat, y: nat, vx: nat, vy: nat)

  /** Where the player restarts: the centre of the window, at rest. */
  const Centre: Drone := Drone((WIDTH / 2) as real, (HEIGHT / 2) as real, 0.0, 0.0)

  predicate IsWhole(v: real)
  {
    v == v.Floor as real
  }

  /** The velocity components a fresh drone can get. MAX_SPEED / 2 is integer
      division, so the range is lopsided: -2 up to 1, never 2. */
  predicate IsInitialSpeed(v: real)
  {
    v == -2.0 || v == -1.0 || v == 0.0 || v == 1.0
  }

  /** What a freshly drawn drone looks like: whole-pixel position inside the
      window, velocity components from the lopsided speed range. */
  predicate InitialRanges(d: Drone)
  {
    IsWhole(d.x) && 0.0 <= d.x < WIDTH as real
    && IsWhole(d.y) && 0.0 <= d.y < HEIGHT as real
    && IsInitialSpeed(d.vx) && IsInitialSpeed(d.vy)
  }

  /** One velocity component: rand() % MAX_SPEED, converted to float, minus MAX_SPEED / 2. */
  function InitialSpeed(draw: nat): (v: real)
    ensures IsInitialSpeed(v)
  {
    (draw % MAX_SPEED) as real - (MAX_SPEED / 2) as real
  }

  /** One drone as the reset loop fills it in from its four draws. */
  function InitialDrone(d: Draw): (r: Drone)
    ensures InitialRanges(r)
  {
    Drone((d.x % WIDTH) as real, (d.y % HEIGHT) as real, InitialSpeed(d.vx), InitialSpeed(d.vy))
  }

  /** The drones drawn from a batch of draws, one drone per draw, in order. */
  function InitialDrones(ds: seq<Draw>): (r: seq<Drone>)
    ensures |r| == |ds|
    ensures forall i :: 0 <= i < |r| ==> InitialRanges(r[i])
  {
    if ds == [] then [] else InitialDrones(ds[..|ds| - 1]) + [InitialDrone(ds[|ds| - 1])]
  }

  /** The i-th drone of a batch is drawn from the i-th draw alone. */
  lemma {:induction false} InitialDronesAt(ds: seq<Draw>, i: int)
    requires 0 <= i < |ds|
    ensures InitialDrones(ds)[i] == InitialDrone(ds[i])
  {
    if i < |ds| - 1 {
      InitialDronesAt(ds[..|ds| - 1], i);
    }
  }

  /** Every value in the initial ranges is produced by some draw, so the
      ranges are exact and not just bounds. */
  lemma InitialRangesReachable(x: int, y: int, vx: int, vy: int)
    requires 0 <= x < WIDTH && 0 <= y < HEIGHT && -2 <= vx <= 1 && -2 <= vy <= 1
    ensures InitialDrone(Draw(x, y, vx + 2, vy + 2)) == Drone(x as real, y as real, vx as real, vy as real)
  {
  }

  /** The source's contact test sqrt((px-dx)^2 + (py-dy)^2) < 10, stated on the
      squared distance, which is the same test over the reals. */
  predicate InContact(p: Drone, d: Drone)
  {
    (p.x - d.x) * (p.x - d.x) + (p.y - d.y) * (p.y - d.y) < 100.0
  }

  /** How many drones of ds touch the player p; counted from the end so that
      it grows one drone at a time as the collision loop advances. */
  function ContactCount(p: Drone, ds: seq<Drone>): (n: nat)
    ensures n <= |ds|
  {
    if ds == [] then 0
    else ContactCount(p, ds[..|ds| - 1]) + (if InContact(p, ds[|ds| - 1]) then 1 else 0)
  }

  /** The indices of the drones that touch the player. */
  function ContactIndices(p: Drone, ds: seq<Drone>): set<int>
  {
    set i | 0 <= i < |ds| && InContact(p, ds[i])
  }

  /** The count is the number of distinct drones in contact: each touching
      drone costs exactly one point of health. */
  lemma {:induction false} ContactCountIsCardinality(p: Drone, ds: seq<Drone>)
    ensures ContactCount(p, ds) == |ContactIndices(p, ds)|
  {
    if ds != [] {
      var n := |ds| - 1;
      var front := ds[..n];
      ContactCountIsCardinality(p, front);
      assert ContactIndices(p, front) == set i | 0 <= i < n && InContact(p, ds[i]);
      if InContact(p, ds[n]) {
        assert ContactIndices(p, ds) == ContactIndices(p, front) + {n};
        assert n !in ContactIndices(p, front);
      } else {
        assert ContactIndices(p, ds) == ContactIndices(p, front);
      }
    }
  }

  /** No health is lost exactly when no drone touches the player. */
  lemma NoContactIffZero(p: Drone, ds: seq<Drone>)
    ensures ContactCount(p, ds) == 0 <==> forall i :: 0 <= i < |ds| ==> !InContact(p, ds[i])
  {
  }

  /** Two drones on top of the player cost two points of health in one pass,
      so a player at 1 ends at -1: health is not clamped at zero. */
  lemma HealthCanGoNegative()
    ensures 1 - ContactCount(Centre, [Centre, Centre]) == -1
  {
  }

  /** The keys updatePlayer looks at; each flag is "letter key or arrow key held". */
  datatype Keys = Keys(up: bool, down: bool, left: bool, right: bool)

  const NoKeys: Keys := Keys(false, false, false, false)

  const PLAYER_ACCEL: real := 0.1
  const FRICTION: real := 0.98

  /** Net thrust along one axis: the negative key subtracts, the positive key adds. */
  function Thrust(negative: bool, positive: bool): real
  {
    (if positive then PLAYER_ACCEL else 0.0) - (if negative then PLAYER_ACCEL else 0.0)
  }

  /** One updatePlayer step: thrust from the held keys, friction on both
      components whatever is held, then position advanced by the new velocity. */
  function Steered(p: Drone, k: Keys): Drone
  {
    var vx := (p.vx + Thrust(k.left, k.right)) * FRICTION;
    var vy := (p.vy + Thrust(k.up, k.down)) * FRICTION;
    Drone(p.x + vx, p.y + vy, vx, vy)
  }

  function Abs(v: real): real
  {
    if v < 0.0 then -v else v
  }

  /** With no key held the player only slows down: each velocity component
      keeps its sign and shrinks, unless it is already zero. */
  lemma FrictionSlowsDown(p: Drone)
    ensures Abs(Steered(p, NoKeys).vx) <= Abs(p.vx) && Abs(Steered(p, NoKeys).vy) <= Abs(p.vy)
    ensures p.vx != 0.0 ==> Abs(Steered(p, NoKeys).vx) < Abs(p.vx)
    ensures p.vy != 0.0 ==> Abs(Steered(p, NoKeys).vy) < Abs(p.vy)
    ensures p.vx * Steered(p, NoKeys).vx >= 0.0 && p.vy * Steered(p, NoKeys).vy >= 0.0
  {
  }

  /** Holding both keys of an axis is the same as holding neither. */
  lemma OpposingKeysCancel(p: Drone, k: Keys)
    ensures Steered(p, Keys(true, true, k.left, k.right)) == Steered(p, Keys(false, false, k.left, k.right))
    ensures Steered(p, Keys(k.up, k.down, true, true)) == Steered(p, Keys(k.up, k.down, false, false))
  {
  }
}
