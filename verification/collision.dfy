/** Wall-collision resolution, `handleCollision` in src/tank/Tank.java: keep the wall sides
    the tank still meets, then undo the last movement in small steps until none is left. */
module Collision {
  import opened Wrappers
  import opened Geometry
  import opened TankPose

  /** `checkCollision`: the side meets the head polygon or the body polygon. */
  predicate Collides(g: Physics, t: Tank, side: Side)
  {
    g.checkCollision(t.head, side) || g.checkCollision(t.body, side)
  }

  /** The collision test reads only the head and body polygons. */
  lemma CollisionDependsOnShapes(g: Physics, t: Tank, u: Tank, side: Side)
    requires t.head == u.head && t.body == u.body
    ensures Collides(g, t, side) == Collides(g, u, side)
  {
  }

  /** The sides of `sides` that meet the tank, in their order, duplicates included. */
  function Keep(g: Physics, t: Tank, sides: seq<Side>): (kept: seq<Side>)
    ensures |kept| <= |sides|
  {
    if sides == [] then []
    else if Collides(g, t, sides[0]) then [sides[0]] + Keep(g, t, sides[1..])
    else Keep(g, t, sides[1..])
  }

  /** A side passes the filter exactly when it is in the list and collides. */
  lemma {:induction false} KeepMembers(g: Physics, t: Tank, sides: seq<Side>, x: Side)
    ensures x in Keep(g, t, sides) <==> x in sides && Collides(g, t, x)
  {
    if sides != [] {
      KeepMembers(g, t, sides[1..], x);
      assert x in sides <==> x == sides[0] || x in sides[1..];
    }
  }

  /** `a` is `b` with some elements left out and the rest in their order. */
  predicate SubsequenceOf<T(==)>(a: seq<T>, b: seq<T>)
    decreases |b|
  {
    if b == [] then a == []
    else (a != [] && a[0] == b[0] && SubsequenceOf(a[1..], b[1..])) || SubsequenceOf(a, b[1..])
  }

  lemma {:induction false} SubsequenceTransitive<T>(a: seq<T>, b: seq<T>, c: seq<T>)
    requires SubsequenceOf(a, b) && SubsequenceOf(b, c)
    ensures SubsequenceOf(a, c)
    decreases |c|
  {
    if c == [] {
    } else if SubsequenceOf(b, c[1..]) {
      SubsequenceTransitive(a, b, c[1..]);
    } else {
      assert b != [] && b[0] == c[0] && SubsequenceOf(b[1..], c[1..]);
      if a != [] && a[0] == b[0] && SubsequenceOf(a[1..], b[1..]) {
        SubsequenceTransitive(a[1..], b[1..], c[1..]);
      } else {
        SubsequenceTransitive(a, b[1..], c[1..]);
      }
    }
  }

  /** Filtering keeps the original order. */
  lemma {:induction false} KeepIsSubsequence(g: Physics, t: Tank, sides: seq<Side>)
    ensures SubsequenceOf(Keep(g, t, sides), sides)
  {
    if sides != [] {
      KeepIsSubsequence(g, t, sides[1..]);
    }
  }

  /** Filtering keeps every colliding side as often as it occurs, and nothing else. */
  lemma {:induction false} KeepCounts(g: Physics, t: Tank, sides: seq<Side>, x: Side)
    ensures multiset(Keep(g, t, sides))[x] == if Collides(g, t, x) then multiset(sides)[x] else 0
  {
    if sides != [] {
      KeepCounts(g, t, sides[1..], x);
      assert sides == [sides[0]] + sides[1..];
    }
  }

  /** Filtering distributes over concatenation. */
  lemma {:induction false} KeepConcat(g: Physics, t: Tank, a: seq<Side>, b: seq<Side>)
    ensures Keep(g, t, a + b) == Keep(g, t, a) + Keep(g, t, b)
  {
    if a == [] {
      assert a + b == b;
    } else {
      assert (a + b)[1..] == a[1..] + b;
      KeepConcat(g, t, a[1..], b);
    }
  }

  /** A list whose every side collides passes the filter unchanged. */
  lemma {:induction false} KeepAllColliding(g: Physics, t: Tank, sides: seq<Side>)
    requires forall i :: 0 <= i < |sides| ==> Collides(g, t, sides[i])
    ensures Keep(g, t, sides) == sides
  {
    if sides != [] {
      KeepAllColliding(g, t, sides[1..]);
    }
  }

  /** Filtering twice against the same pose is filtering once. */
  lemma {:induction false} KeepIdempotent(g: Physics, t: Tank, sides: seq<Side>)
    ensures Keep(g, t, Keep(g, t, sides)) == Keep(g, t, sides)
  {
    var kept := Keep(g, t, sides);
    forall i | 0 <= i < |kept|
      ensures Collides(g, t, kept[i])
    {
      KeepMembers(g, t, sides, kept[i]);
    }
    KeepAllColliding(g, t, kept);
  }

  /** The in-place filter of `handleCollision`: walk the list, and when a side does not
      collide remove it and step the index back so the side shifted into its place is
      examined next. */
  method FilterSides(g: Physics, t: Tank, sides: seq<Side>) returns (kept: seq<Side>)
    ensures kept == Keep(g, t, sides)
  {
    kept := sides;
    var i: int := 0;
    ghost var k: int := 0;
    while i < |kept|
      invariant 0 <= i <= |kept| && 0 <= k <= |sides|
      invariant kept[..i] == Keep(g, t, sides[..k])
      invariant kept[i..] == sides[k..]
      decreases |kept| - i
    {
      assert kept[i] == sides[k];
      assert sides[..k + 1] == sides[..k] + [sides[k]];
      KeepConcat(g, t, sides[..k], [sides[k]]);
      if !Collides(g, t, kept[i]) {
        assert Keep(g, t, sides[..k + 1]) == Keep(g, t, sides[..k]);
        assert (kept[..i] + kept[i + 1..])[i..] == kept[i + 1..];
        kept := kept[..i] + kept[i + 1..];
        i := i - 1;
      } else {
        assert Keep(g, t, sides[..k + 1]) == Keep(g, t, sides[..k]) + [sides[k]];
        assert kept[..i + 1] == kept[..i] + [kept[i]];
      }
      i := i + 1;
      k := k + 1;
    }
    assert sides[..k] == sides;
  }

  /** The micro-operation that undoes a movement: a small translation or a small turn. */
  datatype ReverseOp = Translate(step: Vec) | Turn(delta: real)

  /** Why `handleCollision` throws: no movement recorded yet (the `switch` on a `null`
      control), or a control with no undo (`reverseOp` left `null`). */
  datatype Fault = UnsetLastMovementOp | NoReverseOp

  /** The `switch` choosing the undo step from the last movement. */
  function SelectReverse(g: Physics, t: Tank): (r: Result<ReverseOp, Fault>)
    ensures r == Failure(UnsetLastMovementOp) <==> t.lastMovementOp.None?
    ensures r == Failure(NoReverseOp) <==> t.lastMovementOp == Some(Fire)
    ensures r.Success? ==> (r.value.Turn? <==> t.lastMovementOp.value in {Op.Right, Op.Left})
    ensures r.Success? && r.value.Turn? ==> 12.0 * r.value.delta == -TurnAngle(t.lastMovementOp.value)
  {
    match t.lastMovementOp
    case None => Failure(UnsetLastMovementOp)
    case Some(op) =>
      match op
      case Forward => Success(Translate(g.decomposeVector(-1.0, t.theta)))
      case Reverse => Success(Translate(g.decomposeVector(1.0, t.theta)))
      case Right => Success(Turn(-TurningAngle / 12.0))
      case Left => Success(Turn(TurningAngle / 12.0))
      case Fire => Failure(NoReverseOp)
  }

  /** With linear decomposition and an up-to-date velocity cache, undoing a forward or
      backward movement steps back by a third of it: one unit against the velocity of
      three. */
  lemma ReverseStepUndoesMotion(g: Physics, t: Tank)
    requires DecomposeLinear(g) && VelocityCached(g, t)
    requires t.lastMovementOp == Some(Forward) || t.lastMovementOp == Some(Reverse)
    ensures SelectReverse(g, t)
         == Success(Translate(Scale(-1.0 / Velocity, Displacement(t, t.lastMovementOp.value))))
  {
    var u := g.decomposeVector(1.0, t.theta);
    if t.lastMovementOp == Some(Forward) {
      assert g.decomposeVector(-1.0, t.theta) == Scale(-1.0, u);
      assert t.decomposedVelocity == Scale(Velocity, u);
      assert Scale(-1.0 / Velocity, Scale(Velocity, u)) == Scale(-1.0, u);
    } else {
      assert g.decomposeVector(1.0, t.theta) == u;
      assert t.negativeDecomposedVelocity == Scale(-Velocity, u);
      assert Scale(-1.0 / Velocity, Scale(-Velocity, u)) == u;
    }
  }

  /** Run one undo step. */
  function ApplyReverse(g: Physics, t: Tank, r: ReverseOp): (s: Tank)
    ensures s.lastMovementOp == t.lastMovementOp
    ensures r.Translate? ==> s.pivot == Add(t.pivot, r.step) && s.theta == t.theta
    ensures r.Translate? ==> s.head == g.moveBy(t.head, r.step) && s.body == g.moveBy(t.body, r.step)
    ensures r.Turn? ==> s.pivot == t.pivot && s.theta == t.theta + r.delta
    ensures r.Turn? ==> s.head == g.rotate(t.head, t.pivot, r.delta) && s.body == g.rotate(t.body, t.pivot, r.delta)
    ensures Invariant(g, t) ==> Invariant(g, s)
  {
    match r
    case Translate(v) => MoveBy(g, t, v)
    case Turn(d) => Rotate(g, t, d)
  }

  /** The pose after `k` undo steps. */
  function Pose(g: Physics, r: ReverseOp, t: Tank, k: nat): (s: Tank)
    ensures s.lastMovementOp == t.lastMovementOp
    ensures r.Translate? ==> s.theta == t.theta && s.pivot == Add(t.pivot, Scale(k as real, r.step))
    ensures r.Turn? ==> s.pivot == t.pivot && s.theta == t.theta + k as real * r.delta
    ensures Invariant(g, t) ==> Invariant(g, s)
  {
    if k == 0 then t else ApplyReverse(g, Pose(g, r, t, k - 1), r)
  }

  /** The list after the initial filter (`k == 0`) and after `k` rounds of undo-and-filter. */
  function Survivors(g: Physics, r: ReverseOp, t: Tank, sides: seq<Side>, k: nat): (s: seq<Side>)
    ensures |s| <= |sides|
  {
    if k == 0 then Keep(g, t, sides)
    else Keep(g, Pose(g, r, t, k), Survivors(g, r, t, sides, k - 1))
  }

  /** The result of collision handling. `Stuck` replaces the unbounded loop of the source:
      the step budget ran out with sides still colliding. */
  datatype Outcome =
    | Resolved(tank: Tank, steps: nat)
    | Stuck(tank: Tank, steps: nat, remaining: seq<Side>)
    | Faulted(fault: Fault)

  /** The `do`-`while` loop runs its body once before testing, so at least one step. */
  function Limit(fuel: nat): nat
  {
    if fuel == 0 then 1 else fuel
  }

  /** Undo rounds from round `n` on, until the list empties or the limit is reached. */
  function Search(g: Physics, r: ReverseOp, t: Tank, sides: seq<Side>, n: nat, limit: nat): (o: Outcome)
    requires 1 <= n
    ensures !o.Faulted? && o.steps >= n
    decreases limit - n
  {
    if Survivors(g, r, t, sides, n) == [] then Resolved(Pose(g, r, t, n), n)
    else if n >= limit then Stuck(Pose(g, r, t, n), n, Survivors(g, r, t, sides, n))
    else Search(g, r, t, sides, n + 1, limit)
  }

  /** `handleCollision` with a step budget. */
  function Backtrack(g: Physics, t: Tank, sides: seq<Side>, fuel: nat): (o: Outcome)
    ensures o == Resolved(t, 0) <==> Keep(g, t, sides) == []
    ensures o.Faulted? <==> Keep(g, t, sides) != [] && SelectReverse(g, t).Failure?
    ensures o.Faulted? ==> o.fault == SelectReverse(g, t).error
  {
    if Keep(g, t, sides) == [] then Resolved(t, 0)
    else match SelectReverse(g, t)
      case Failure(f) => Faulted(f)
      case Success(r) => Search(g, r, t, sides, 1, Limit(fuel))
  }

  /** The imperative `handleCollision`: filter, pick the undo step, then undo and re-filter
      until the list is empty, at most `Limit(fuel)` times. `left` is the caller's list as the
      procedure leaves it. */
  method HandleCollision(g: Physics, t: Tank, sides: seq<Side>, fuel: nat)
    returns (o: Outcome, left: seq<Side>)
    ensures o == Backtrack(g, t, sides, fuel)
    ensures o.Resolved? ==> left == []
    ensures o.Stuck? ==> left == o.remaining && left != []
    ensures o.Faulted? ==> left == Keep(g, t, sides)
  {
    left := FilterSides(g, t, sides);
    if |left| == 0 {
      return Resolved(t, 0), left;
    }
    var selected := SelectReverse(g, t);
    if selected.Failure? {
      return Faulted(selected.error), left;
    }
    var r := selected.value;
    var limit := Limit(fuel);
    var cur := ApplyReverse(g, t, r);
    var n := 1;
    left := FilterSides(g, cur, left);
    while |left| > 0 && n < limit
      invariant 1 <= n <= limit
      invariant cur == Pose(g, r, t, n)
      invariant left == Survivors(g, r, t, sides, n)
      invariant Search(g, r, t, sides, n, limit) == Backtrack(g, t, sides, fuel)
      decreases limit - n
    {
      cur := ApplyReverse(g, cur, r);
      n := n + 1;
      left := FilterSides(g, cur, left);
    }
    if |left| == 0 {
      o := Resolved(cur, n);
    } else {
      o := Stuck(cur, n, left);
    }
  }

  /** Every side on the list after round `k` is one of the supplied sides and meets the
      tank at the pose of round `k`. */
  lemma {:induction false} SurvivorsCollide(g: Physics, r: ReverseOp, t: Tank, sides: seq<Side>, k: nat, x: Side)
    requires x in Survivors(g, r, t, sides, k)
    ensures x in sides && Collides(g, Pose(g, r, t, k), x)
  {
    if k == 0 {
      KeepMembers(g, t, sides, x);
    } else {
      KeepMembers(g, Pose(g, r, t, k), Survivors(g, r, t, sides, k - 1), x);
      SurvivorsCollide(g, r, t, sides, k - 1, x);
    }
  }

  /** A side leaves the list only at a round whose pose it does not meet. */
  lemma DroppedOnlyWhenClear(g: Physics, r: ReverseOp, t: Tank, sides: seq<Side>, k: nat, x: Side)
    requires x in Survivors(g, r, t, sides, k) && x !in Survivors(g, r, t, sides, k + 1)
    ensures !Collides(g, Pose(g, r, t, k + 1), x)
  {
    KeepMembers(g, Pose(g, r, t, k + 1), Survivors(g, r, t, sides, k), x);
  }

  /** A supplied side missing from the first filter's result does not meet the tank. */
  lemma FilteredOnlyWhenClear(g: Physics, r: ReverseOp, t: Tank, sides: seq<Side>, x: Side)
    requires x in sides && x !in Survivors(g, r, t, sides, 0)
    ensures !Collides(g, t, x)
  {
    KeepMembers(g, t, sides, x);
  }

  /** The list only shrinks: each round's list is an order-preserving sub-list of every
      earlier round's list, and of the supplied list. */
  lemma {:induction false} SurvivorsShrink(g: Physics, r: ReverseOp, t: Tank, sides: seq<Side>, j: nat, k: nat)
    requires j <= k
    ensures SubsequenceOf(Survivors(g, r, t, sides, k), Survivors(g, r, t, sides, j))
    ensures SubsequenceOf(Survivors(g, r, t, sides, k), sides)
    decreases k
  {
    if k == 0 {
      KeepIsSubsequence(g, t, sides);
      SubsequenceReflexive(Survivors(g, r, t, sides, 0));
    } else {
      var prev := Survivors(g, r, t, sides, k - 1);
      KeepIsSubsequence(g, Pose(g, r, t, k), prev);
      if j == k {
        SubsequenceReflexive(Survivors(g, r, t, sides, k));
        SurvivorsShrink(g, r, t, sides, k - 1, k - 1);
      } else {
        SurvivorsShrink(g, r, t, sides, j, k - 1);
        SubsequenceTransitive(Survivors(g, r, t, sides, k), prev, Survivors(g, r, t, sides, j));
      }
      SubsequenceTransitive(Survivors(g, r, t, sides, k), prev, sides);
    }
  }

  lemma {:induction false} SubsequenceReflexive<T>(a: seq<T>)
    ensures SubsequenceOf(a, a)
    decreases |a|
  {
    if a != [] {
      SubsequenceReflexive(a[1..]);
    }
  }

  /** What the search from round `n` finds: the pose and list of the round it stops at,
      every round before it still colliding, and the budget respected. */
  lemma {:induction false} SearchFinds(g: Physics, r: ReverseOp, t: Tank, sides: seq<Side>, n: nat, limit: nat)
    requires 1 <= n
    ensures var o := Search(g, r, t, sides, n, limit);
      && o.tank == Pose(g, r, t, o.steps)
      && n <= o.steps
      && (forall k :: n <= k < o.steps ==> Survivors(g, r, t, sides, k) != [])
      && (o.Resolved? ==> Survivors(g, r, t, sides, o.steps) == [] && o.steps <= if n <= limit then limit else n)
      && (o.Stuck? ==> o.remaining == Survivors(g, r, t, sides, o.steps) && o.remaining != []
                       && o.steps == if n <= limit then limit else n)
    decreases limit - n
  {
    if Survivors(g, r, t, sides, n) != [] && n < limit {
      SearchFinds(g, r, t, sides, n + 1, limit);
    }
  }

  /** A resolved collision took at least one and at most `Limit(fuel)` undo steps, stopped
      at the first round whose list is empty, and left the tank at that round's pose. */
  lemma BacktrackResolved(g: Physics, t: Tank, sides: seq<Side>, fuel: nat)
    requires Keep(g, t, sides) != []
    requires Backtrack(g, t, sides, fuel).Resolved?
    ensures SelectReverse(g, t).Success?
    ensures var o, r := Backtrack(g, t, sides, fuel), SelectReverse(g, t).value;
      && 1 <= o.steps <= Limit(fuel)
      && o.tank == Pose(g, r, t, o.steps)
      && Survivors(g, r, t, sides, o.steps) == []
      && (forall k :: 0 <= k < o.steps ==> Survivors(g, r, t, sides, k) != [])
  {
    var r := SelectReverse(g, t).value;
    SearchFinds(g, r, t, sides, 1, Limit(fuel));
  }

  /** A collision that is not resolved within the budget used all of it and reports the
      sides still colliding. */
  lemma BacktrackStuck(g: Physics, t: Tank, sides: seq<Side>, fuel: nat)
    requires Backtrack(g, t, sides, fuel).Stuck?
    ensures SelectReverse(g, t).Success?
    ensures var o, r := Backtrack(g, t, sides, fuel), SelectReverse(g, t).value;
      && o.steps == Limit(fuel)
      && o.tank == Pose(g, r, t, o.steps)
      && o.remaining == Survivors(g, r, t, sides, o.steps) && o.remaining != []
  {
    var r := SelectReverse(g, t).value;
    SearchFinds(g, r, t, sides, 1, Limit(fuel));
  }

  /** A collision resolved after `n` undo steps of a forward or backward movement leaves the
      pivot `n` thirds of the cached displacement back (with linear decomposition), heading
      unchanged. Nothing here bounds `n` below three, so the undo need not be partial. */
  lemma ResolvedRetreatsStep(g: Physics, t: Tank, sides: seq<Side>, fuel: nat)
    requires DecomposeLinear(g) && VelocityCached(g, t)
    requires t.lastMovementOp == Some(Forward) || t.lastMovementOp == Some(Reverse)
    requires Keep(g, t, sides) != [] && Backtrack(g, t, sides, fuel).Resolved?
    ensures var o := Backtrack(g, t, sides, fuel);
      && o.tank.theta == t.theta
      && o.tank.pivot == Add(t.pivot, Scale(-(o.steps as real) / Velocity, Displacement(t, t.lastMovementOp.value)))
  {
    ResolvedAtPose(g, t, sides, fuel);
    PoseRetreatsStep(g, t, Backtrack(g, t, sides, fuel).steps);
  }

  /** A collision resolved after `n` undo steps of a turn leaves the tank turned back by `n`
      undo turns, each minus one twelfth of the last turn, pivot unchanged. */
  lemma ResolvedRetreatsTurn(g: Physics, t: Tank, sides: seq<Side>, fuel: nat)
    requires t.lastMovementOp == Some(Op.Right) || t.lastMovementOp == Some(Op.Left)
    requires Keep(g, t, sides) != [] && Backtrack(g, t, sides, fuel).Resolved?
    ensures var o := Backtrack(g, t, sides, fuel);
      && o.tank.pivot == t.pivot
      && o.tank.theta == t.theta + o.steps as real * SelectReverse(g, t).value.delta
      && 12.0 * SelectReverse(g, t).value.delta == -TurnAngle(t.lastMovementOp.value)
  {
    ResolvedAtPose(g, t, sides, fuel);
  }

  /** A resolved collision leaves the tank at the pose after its undo steps. */
  lemma ResolvedAtPose(g: Physics, t: Tank, sides: seq<Side>, fuel: nat)
    requires Keep(g, t, sides) != [] && Backtrack(g, t, sides, fuel).Resolved?
    ensures SelectReverse(g, t).Success?
    ensures var o := Backtrack(g, t, sides, fuel);
      o.tank == Pose(g, SelectReverse(g, t).value, t, o.steps)
  {
    BacktrackResolved(g, t, sides, fuel);
  }

  /** `k` undo steps of a forward or backward movement: `k` thirds of it, backwards. */
  lemma PoseRetreatsStep(g: Physics, t: Tank, k: nat)
    requires DecomposeLinear(g) && VelocityCached(g, t)
    requires t.lastMovementOp == Some(Forward) || t.lastMovementOp == Some(Reverse)
    ensures var s := Pose(g, SelectReverse(g, t).value, t, k);
      && s.theta == t.theta
      && s.pivot == Add(t.pivot, Scale(-(k as real) / Velocity, Displacement(t, t.lastMovementOp.value)))
  {
    ReverseStepUndoesMotion(g, t);
    var d := Displacement(t, t.lastMovementOp.value);
    ScaleThirds(k as real, d);
  }

  /** `k` copies of minus a third of `d` are minus `k` thirds of `d`. */
  lemma ScaleThirds(k: real, d: Vec)
    ensures Scale(k, Scale(-1.0 / Velocity, d)) == Scale(-k / Velocity, d)
  {
    assert k * (-1.0 / Velocity * d.x) == -k / Velocity * d.x;
    assert k * (-1.0 / Velocity * d.y) == -k / Velocity * d.y;
  }

  /** `k` undo steps of a turn: `k` twelfths of it, the other way. */
  lemma PoseRetreatsTurn(g: Physics, t: Tank, k: nat)
    requires t.lastMovementOp == Some(Op.Right) || t.lastMovementOp == Some(Op.Left)
    ensures var s := Pose(g, SelectReverse(g, t).value, t, k);
      && s.pivot == t.pivot
      && s.theta == t.theta - (k as real / 12.0) * TurnAngle(t.lastMovementOp.value)
  {
    var r := SelectReverse(g, t).value;
    var kr := k as real;
    assert 12.0 * r.delta == -TurnAngle(t.lastMovementOp.value);
    assert kr * r.delta == -(kr / 12.0) * TurnAngle(t.lastMovementOp.value);
  }

  /** What a resolved collision guarantees about each supplied side: at some pose of the
      backtrack, the starting one or one after an undo step, it did not meet the tank.
      The source re-tests only the sides still on its list, so a side cleared at an earlier
      pose is not re-tested against the final one. */
  lemma ResolvedClearsEverySide(g: Physics, t: Tank, sides: seq<Side>, fuel: nat, x: Side)
    requires x in sides
    requires Backtrack(g, t, sides, fuel).Resolved?
    ensures var o := Backtrack(g, t, sides, fuel);
      o.steps == 0 ==> !Collides(g, t, x)
    ensures var o := Backtrack(g, t, sides, fuel);
      o.steps > 0 ==> exists j :: 0 <= j <= o.steps && !Collides(g, Pose(g, SelectReverse(g, t).value, t, j), x)
  {
    var o := Backtrack(g, t, sides, fuel);
    if o.steps == 0 {
      KeepMembers(g, t, sides, x);
    } else {
      BacktrackResolved(g, t, sides, fuel);
      var r := SelectReverse(g, t).value;
      if x !in Survivors(g, r, t, sides, 0) {
        FilteredOnlyWhenClear(g, r, t, sides, x);
        assert !Collides(g, Pose(g, r, t, 0), x);
      } else {
        var j := ClearedBy(g, r, t, sides, 0, o.steps, x);
        DroppedOnlyWhenClear(g, r, t, sides, j, x);
        assert !Collides(g, Pose(g, r, t, j + 1), x);
      }
    }
  }

  /** A round `j` in `[k, n)` at whose end `x` left the list, given it is on the list of
      round `k` and the list of round `n` is empty. */
  lemma {:induction false} ClearedBy(g: Physics, r: ReverseOp, t: Tank, sides: seq<Side>, k: nat, n: nat, x: Side)
    returns (j: nat)
    requires k <= n
    requires x in Survivors(g, r, t, sides, k) && Survivors(g, r, t, sides, n) == []
    ensures k <= j < n
    ensures x in Survivors(g, r, t, sides, j) && x !in Survivors(g, r, t, sides, j + 1)
    decreases n - k
  {
    if x in Survivors(g, r, t, sides, k + 1) {
      j := ClearedBy(g, r, t, sides, k + 1, n, x);
    } else {
      j := k;
    }
  }
}
