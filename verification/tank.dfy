/** The pose of a tank and the motions that change it (src/tank/Tank.java). */
module TankPose {
  import opened Wrappers
  import opened Geometry

  /** The discrete controls of a tank. */
  datatype Op = Forward | Right | Left | Reverse | Fire

  /** The controls that move the tank: every control but `Fire`. */
  predicate IsMotion(op: Op)
  {
    op != Fire
  }

  /** Per-tick speed, `VELOCITY`. */
  const Velocity: real := 3.0
  /** `Math.PI`, written as its shortest decimal; angles are exact reals here. */
  const MathPi: real := 3.141592653589793
  /** Angle of one turn, `TURNING_ANGLE` (5 degrees). */
  const TurningAngle: real := MathPi / 36.0

  const BodyWidth: real := 40.0
  const BodyHeight: real := 30.0
  const HeadWidth: real := BodyWidth / 2.0
  const HeadHeight: real := BodyHeight / 4.0

  /** The state of a tank. The rendered polygons are copied from `head` and `body` after
      every change, so they are not kept separately. */
  datatype Tank = Tank(
    head: Polygon,
    body: Polygon,
    pivot: Vec,
    theta: real,
    decomposedVelocity: Vec,
    negativeDecomposedVelocity: Vec,
    lastMovementOp: Option<Op>)

  /** The cached velocities are the ones derived from the current heading. */
  predicate VelocityCached(g: Physics, t: Tank)
  {
    && t.decomposedVelocity == g.decomposeVector(Velocity, t.theta)
    && t.negativeDecomposedVelocity == g.decomposeVector(-Velocity, t.theta)
  }

  /** The bookkeeping every tank keeps: velocities follow the heading, and the last
      movement, once set, is a motion. */
  predicate Invariant(g: Physics, t: Tank)
  {
    && VelocityCached(g, t)
    && (t.lastMovementOp.Some? ==> IsMotion(t.lastMovementOp.value))
  }

  /** The heading change a turning control applies. */
  function TurnAngle(op: Op): real
  {
    match op
    case Right => TurningAngle
    case Left => -TurningAngle
    case _ => 0.0
  }

  /** The displacement a moving control applies, read from the cached velocities. */
  function Displacement(t: Tank, op: Op): Vec
  {
    match op
    case Forward => t.decomposedVelocity
    case Reverse => t.negativeDecomposedVelocity
    case _ => Origin
  }

  /** `rotate`: turn head and body about the pivot and re-derive both velocities. */
  function Rotate(g: Physics, t: Tank, delta: real): (r: Tank)
    ensures r.theta == t.theta + delta
    ensures r.body == g.rotate(t.body, t.pivot, delta) && r.head == g.rotate(t.head, t.pivot, delta)
    ensures r.pivot == t.pivot && r.lastMovementOp == t.lastMovementOp
    ensures VelocityCached(g, r)
  {
    var theta := t.theta + delta;
    t.(theta := theta,
       body := g.rotate(t.body, t.pivot, delta),
       head := g.rotate(t.head, t.pivot, delta),
       decomposedVelocity := g.decomposeVector(Velocity, theta),
       negativeDecomposedVelocity := g.decomposeVector(-Velocity, theta))
  }

  /** `moveBy`: translate head, body and pivot by the same vector. */
  function MoveBy(g: Physics, t: Tank, v: Vec): (r: Tank)
    ensures r.pivot == Add(t.pivot, v)
    ensures r.head == g.moveBy(t.head, v) && r.body == g.moveBy(t.body, v)
    ensures r.theta == t.theta && r.lastMovementOp == t.lastMovementOp
    ensures r.decomposedVelocity == t.decomposedVelocity
    ensures r.negativeDecomposedVelocity == t.negativeDecomposedVelocity
  {
    t.(head := g.moveBy(t.head, v), body := g.moveBy(t.body, v), pivot := Add(t.pivot, v))
  }

  /** `right`: record the control, then turn by the turning angle. */
  function TurnRight(g: Physics, t: Tank): (r: Tank)
    ensures r.lastMovementOp == Some(Op.Right)
    ensures r.theta == t.theta + TurningAngle && r.pivot == t.pivot
    ensures r.body == g.rotate(t.body, t.pivot, TurningAngle)
    ensures r.head == g.rotate(t.head, t.pivot, TurningAngle)
    ensures VelocityCached(g, r)
  {
    Rotate(g, t.(lastMovementOp := Some(Op.Right)), TurnAngle(Op.Right))
  }

  /** `left`: record the control, then turn back by the turning angle. */
  function TurnLeft(g: Physics, t: Tank): (r: Tank)
    ensures r.lastMovementOp == Some(Op.Left)
    ensures r.theta == t.theta - TurningAngle && r.pivot == t.pivot
    ensures r.body == g.rotate(t.body, t.pivot, -TurningAngle)
    ensures r.head == g.rotate(t.head, t.pivot, -TurningAngle)
    ensures VelocityCached(g, r)
  {
    Rotate(g, t.(lastMovementOp := Some(Op.Left)), TurnAngle(Op.Left))
  }

  /** `forward`: record the control, then move by the cached forward velocity. */
  function MoveForward(g: Physics, t: Tank): (r: Tank)
    ensures r.lastMovementOp == Some(Forward)
    ensures r.theta == t.theta
    ensures r.pivot == Add(t.pivot, t.decomposedVelocity)
    ensures r.head == g.moveBy(t.head, t.decomposedVelocity)
    ensures r.body == g.moveBy(t.body, t.decomposedVelocity)
    ensures VelocityCached(g, t) ==> VelocityCached(g, r)
    ensures VelocityCached(g, t) ==> r.pivot == Add(t.pivot, g.decomposeVector(Velocity, t.theta))
  {
    MoveBy(g, t.(lastMovementOp := Some(Forward)), Displacement(t, Forward))
  }

  /** `back`: record the control, then move by the cached backward velocity. */
  function MoveBack(g: Physics, t: Tank): (r: Tank)
    ensures r.lastMovementOp == Some(Reverse)
    ensures r.theta == t.theta
    ensures r.pivot == Add(t.pivot, t.negativeDecomposedVelocity)
    ensures r.head == g.moveBy(t.head, t.negativeDecomposedVelocity)
    ensures r.body == g.moveBy(t.body, t.negativeDecomposedVelocity)
    ensures VelocityCached(g, t) ==> VelocityCached(g, r)
    ensures VelocityCached(g, t) ==> r.pivot == Add(t.pivot, g.decomposeVector(-Velocity, t.theta))
  {
    MoveBy(g, t.(lastMovementOp := Some(Reverse)), Displacement(t, Reverse))
  }

  /** Sum of a sequence of displacements. */
  function Sum(vs: seq<Vec>): Vec
  {
    if vs == [] then Origin else Add(vs[0], Sum(vs[1..]))
  }

  /** A polygon translated by each displacement in turn. */
  function MovePolygon(g: Physics, p: Polygon, vs: seq<Vec>): Polygon
    decreases |vs|
  {
    if vs == [] then p else MovePolygon(g, g.moveBy(p, vs[0]), vs[1..])
  }

  /** Successive `moveBy` calls, in order. */
  function MoveAll(g: Physics, t: Tank, vs: seq<Vec>): (r: Tank)
    ensures r.pivot == Add(t.pivot, Sum(vs))
    ensures r.head == MovePolygon(g, t.head, vs) && r.body == MovePolygon(g, t.body, vs)
    ensures r.theta == t.theta && r.lastMovementOp == t.lastMovementOp
    ensures VelocityCached(g, t) ==> VelocityCached(g, r)
    decreases |vs|
  {
    if vs == [] then t else MoveAll(g, MoveBy(g, t, vs[0]), vs[1..])
  }

  /** The tank before its spawn translations: body at the origin, head protruding by half
      its width from the right edge and centred vertically, pivot at the body centre,
      heading zero, and no movement recorded. */
  function Unrotated(g: Physics): (t: Tank)
    ensures t.body == g.rectangle(Origin, 40.0, 30.0)
    ensures t.head == g.rectangle(Vec(30.0, 11.25), 20.0, 7.5)
    ensures t.pivot == Vec(20.0, 15.0)
    ensures t.theta == 0.0 && t.lastMovementOp == None
  {
    var headPoint := Vec(BodyWidth - HeadWidth / 2.0, BodyHeight / 2.0 - HeadHeight / 2.0);
    Tank(g.rectangle(headPoint, HeadWidth, HeadHeight),
         g.rectangle(Origin, BodyWidth, BodyHeight),
         Vec(BodyWidth / 2.0, BodyHeight / 2.0),
         0.0, Origin, Origin, None)
  }

  /** The constructor: rotate to the initial heading, then apply the spawn translations.
      The translations come from a random cell and the maze dimensions, which are not part
      of this model, so they are a parameter. */
  function Create(g: Physics, initialAngle: real, spawnMoves: seq<Vec>): (t: Tank)
    ensures Invariant(g, t)
    ensures t.theta == initialAngle && t.lastMovementOp == None
    ensures t.pivot == Add(Vec(BodyWidth / 2.0, BodyHeight / 2.0), Sum(spawnMoves))
    ensures t.body == MovePolygon(g, g.rotate(g.rectangle(Origin, 40.0, 30.0), Vec(20.0, 15.0), initialAngle), spawnMoves)
    ensures t.head == MovePolygon(g, g.rotate(g.rectangle(Vec(30.0, 11.25), 20.0, 7.5), Vec(20.0, 15.0), initialAngle), spawnMoves)
  {
    MoveAll(g, Rotate(g, Unrotated(g), initialAngle), spawnMoves)
  }

  /** A right turn and a left turn cancel in heading, in either order (exact arithmetic). */
  lemma TurnsCancelInHeading(g: Physics, t: Tank)
    ensures TurnLeft(g, TurnRight(g, t)).theta == t.theta
    ensures TurnRight(g, TurnLeft(g, t)).theta == t.theta
  {
  }

  /** When a rotation is undone by the opposite rotation, a right turn followed by a left turn (or the
      other way round) restores the whole pose; only the recorded control differs. */
  lemma TurnsCancel(g: Physics, t: Tank)
    requires RotationsInvertible(g)
    requires VelocityCached(g, t)
    ensures TurnLeft(g, TurnRight(g, t)) == t.(lastMovementOp := Some(Op.Left))
    ensures TurnRight(g, TurnLeft(g, t)) == t.(lastMovementOp := Some(Op.Right))
  {
    var r := TurnLeft(g, TurnRight(g, t));
    assert r.theta == t.theta;
    assert r.body == t.body by {
      assert r.body == g.rotate(g.rotate(t.body, t.pivot, TurningAngle), t.pivot, -TurningAngle);
    }
    assert r.head == t.head by {
      assert r.head == g.rotate(g.rotate(t.head, t.pivot, TurningAngle), t.pivot, -TurningAngle);
    }
    var l := TurnRight(g, TurnLeft(g, t));
    assert l.theta == t.theta;
    assert l.body == t.body by {
      assert l.body == g.rotate(g.rotate(t.body, t.pivot, -TurningAngle), t.pivot, TurningAngle);
    }
    assert l.head == t.head by {
      assert l.head == g.rotate(g.rotate(t.head, t.pivot, -TurningAngle), t.pivot, TurningAngle);
    }
  }

  /** With linear decomposition, the cached backward velocity is the negated forward one. */
  lemma BackwardVelocityIsNegated(g: Physics, t: Tank)
    requires DecomposeLinear(g)
    requires VelocityCached(g, t)
    ensures t.negativeDecomposedVelocity == Neg(t.decomposedVelocity)
  {
    var u := g.decomposeVector(1.0, t.theta);
    assert t.decomposedVelocity == Scale(Velocity, u);
    assert t.negativeDecomposedVelocity == Scale(-Velocity, u);
  }

  /** When a translation is undone by the opposite translation and decomposition is linear,
      a forward step followed by a backward step (or the other way round) restores the
      whole pose; only the recorded control differs. */
  lemma StepsCancel(g: Physics, t: Tank)
    requires TranslationsInvertible(g) && DecomposeLinear(g)
    requires VelocityCached(g, t)
    ensures MoveBack(g, MoveForward(g, t)) == t.(lastMovementOp := Some(Reverse))
    ensures MoveForward(g, MoveBack(g, t)) == t.(lastMovementOp := Some(Forward))
  {
    BackwardVelocityIsNegated(g, t);
    var f := t.decomposedVelocity;
    var b := t.negativeDecomposedVelocity;
    assert f == Neg(b);
    var r := MoveBack(g, MoveForward(g, t));
    assert r.body == g.moveBy(g.moveBy(t.body, f), b);
    assert r.head == g.moveBy(g.moveBy(t.head, f), b);
    var l := MoveForward(g, MoveBack(g, t));
    assert l.body == g.moveBy(g.moveBy(t.body, b), f);
    assert l.head == g.moveBy(g.moveBy(t.head, b), f);
  }
}
