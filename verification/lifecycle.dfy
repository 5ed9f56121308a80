/** A tank over its lifetime: created, then driven through its entry points `right`, `left`,
    `forward`, `back` and `handleCollision`, in any order. */
module Lifecycle {
  import opened Wrappers
  import opened Geometry
  import opened TankPose
  import opened Collision

  /** One call into the tank. */
  datatype Call = DoRight | DoLeft | DoForward | DoBack | DoHandleCollision(sides: seq<Side>)

  /** The control a call records as its last movement, if any. */
  function Recorded(c: Call): Option<Op>
  {
    match c
    case DoRight => Some(Op.Right)
    case DoLeft => Some(Op.Left)
    case DoForward => Some(Forward)
    case DoBack => Some(Reverse)
    case DoHandleCollision(_) => None
  }

  /** The last movement recorded by `calls`, or `prior` when none of them is a movement. */
  function LastMotion(calls: seq<Call>, prior: Option<Op>): Option<Op>
    decreases |calls|
  {
    if calls == [] then prior
    else LastMotion(calls[1..], if Recorded(calls[0]).Some? then Recorded(calls[0]) else prior)
  }

  /** One call; `None` when collision handling faults or exhausts its step budget (where the
      source would throw, or keep looping past the budget). */
  function Step(g: Physics, t: Tank, c: Call, fuel: nat): (r: Option<Tank>)
    ensures !c.DoHandleCollision? ==> r.Some?
    ensures r.Some? && Recorded(c).Some? ==> r.value.lastMovementOp == Recorded(c)
    ensures c == DoRight ==> r.value.theta == t.theta + TurningAngle && r.value.pivot == t.pivot
    ensures c == DoLeft ==> r.value.theta == t.theta - TurningAngle && r.value.pivot == t.pivot
    ensures c == DoForward ==> r.value.theta == t.theta && r.value.pivot == Add(t.pivot, t.decomposedVelocity)
    ensures c == DoBack ==> r.value.theta == t.theta && r.value.pivot == Add(t.pivot, t.negativeDecomposedVelocity)
    ensures c.DoHandleCollision? ==>
      (r.Some? <==> Backtrack(g, t, c.sides, fuel).Resolved?) &&
      (r.Some? ==> r.value == Backtrack(g, t, c.sides, fuel).tank)
  {
    match c
    case DoRight => Some(TurnRight(g, t))
    case DoLeft => Some(TurnLeft(g, t))
    case DoForward => Some(MoveForward(g, t))
    case DoBack => Some(MoveBack(g, t))
    case DoHandleCollision(sides) =>
      match Backtrack(g, t, sides, fuel)
      case Resolved(s, _) => Some(s)
      case _ => None
  }

  /** Calls in order, stopping at the first that does not return. */
  function Run(g: Physics, t: Tank, calls: seq<Call>, fuel: nat): Option<Tank>
    decreases |calls|
  {
    if calls == [] then Some(t)
    else match Step(g, t, calls[0], fuel)
      case None => None
      case Some(s) => Run(g, s, calls[1..], fuel)
  }

  /** Each call keeps the velocity cache current and the last movement a motion. */
  lemma StepKeepsInvariant(g: Physics, t: Tank, c: Call, fuel: nat)
    requires Invariant(g, t)
    requires Step(g, t, c, fuel).Some?
    ensures Invariant(g, Step(g, t, c, fuel).value)
    ensures Step(g, t, c, fuel).value.lastMovementOp
         == if Recorded(c).Some? then Recorded(c) else t.lastMovementOp
  {
    if c.DoHandleCollision? {
      var o := Backtrack(g, t, c.sides, fuel);
      if o.steps > 0 {
        BacktrackResolved(g, t, c.sides, fuel);
      }
    }
  }

  /** Every reachable tank keeps the invariant; in particular `Fire` is never recorded. */
  lemma {:induction false} RunKeepsInvariant(g: Physics, t: Tank, calls: seq<Call>, fuel: nat)
    requires Invariant(g, t)
    requires Run(g, t, calls, fuel).Some?
    ensures Invariant(g, Run(g, t, calls, fuel).value)
    ensures Run(g, t, calls, fuel).value.lastMovementOp == LastMotion(calls, t.lastMovementOp)
    decreases |calls|
  {
    if calls != [] {
      StepKeepsInvariant(g, t, calls[0], fuel);
      RunKeepsInvariant(g, Step(g, t, calls[0], fuel).value, calls[1..], fuel);
    }
  }

  /** On a tank reached from the constructor, collision handling never meets the missing
      undo step of `Fire`, and it faults on the unset last movement exactly when a side
      collides before any movement call. */
  lemma FaultsOfReachableTanks(g: Physics, angle: real, moves: seq<Vec>, calls: seq<Call>, fuel: nat,
                               sides: seq<Side>, budget: nat)
    requires Run(g, Create(g, angle, moves), calls, fuel).Some?
    ensures var t := Run(g, Create(g, angle, moves), calls, fuel).value;
      Backtrack(g, t, sides, budget) != Faulted(NoReverseOp)
    ensures var t := Run(g, Create(g, angle, moves), calls, fuel).value;
      (Backtrack(g, t, sides, budget) == Faulted(UnsetLastMovementOp))
        <==> (Keep(g, t, sides) != [] && LastMotion(calls, None) == None)
  {
    RunKeepsInvariant(g, Create(g, angle, moves), calls, fuel);
  }

  /** Turn calls only. */
  predicate AllTurns(calls: seq<Call>)
  {
    forall i :: 0 <= i < |calls| ==> calls[i] == DoRight || calls[i] == DoLeft
  }

  /** Right turns minus left turns. */
  function NetTurns(calls: seq<Call>): int
    decreases |calls|
  {
    if calls == [] then 0
    else (if calls[0] == DoRight then 1 else if calls[0] == DoLeft then -1 else 0) + NetTurns(calls[1..])
  }

  /** After turns only, the heading has moved by the turning angle once per right turn and
      back once per left turn. */
  lemma {:induction false} HeadingAfterTurns(g: Physics, t: Tank, calls: seq<Call>, fuel: nat)
    requires AllTurns(calls)
    ensures Run(g, t, calls, fuel).Some?
    ensures Run(g, t, calls, fuel).value.theta == t.theta + NetTurns(calls) as real * TurningAngle
    decreases |calls|
  {
    if calls != [] {
      var s := Step(g, t, calls[0], fuel).value;
      assert AllTurns(calls[1..]) by {
        forall i | 0 <= i < |calls[1..]|
          ensures calls[1..][i] == DoRight || calls[1..][i] == DoLeft
        {
          assert calls[1..][i] == calls[i + 1];
        }
      }
      HeadingAfterTurns(g, s, calls[1..], fuel);
    }
  }

  /** Two right turns then two left turns restore the heading. */
  lemma TwoRightsTwoLefts(g: Physics, t: Tank, fuel: nat)
    ensures Run(g, t, [DoRight, DoRight, DoLeft, DoLeft], fuel).Some?
    ensures Run(g, t, [DoRight, DoRight, DoLeft, DoLeft], fuel).value.theta == t.theta
  {
    var calls := [DoRight, DoRight, DoLeft, DoLeft];
    assert NetTurns(calls[3..]) == -1;
    assert NetTurns(calls[2..]) == -2;
    assert NetTurns(calls[1..]) == -1;
    HeadingAfterTurns(g, t, calls, fuel);
  }
}
