# Tank: pose bookkeeping and wall-collision backtracking

A Dafny model of the `Tank` entity of a two-player maze tank game (`src/tank/Tank.java`).
A tank has a heading `theta`, a pivot (the body centre), a body and a head rectangle
turned and moved together, two cached per-tick velocity vectors derived from the heading,
and the last movement control it applied. Its callers turn it (`right`, `left`), move it
(`forward`, `back`) and, when the maze finds wall sides near it, call `handleCollision`.
`handleCollision` first keeps only the wall sides that really meet the tank. If any remain,
it undoes the last movement in small steps until none does. Two static tables bind each
player's keys to the five controls.

The trigonometry and polygon geometry are not modelled. `Physics.decomposeVector`,
`Physics.checkCollision`, `Rectangle.rotate`, `Rectangle.moveBy` and the rectangle
constructor followed by `Rectangle.moveTo` (modelled together as one `rectangle(p, w, h)`,
a `w` by `h` rectangle placed at `p`; the body, never given a `moveTo`, is placed at the origin) are
the fields of a `Geometry.Physics` value, so every result holds for any choice of them. A few lemmas assume a named law as a premise: a rotation is undone by the
opposite rotation, a translation by the opposite translation, and decomposition is linear
in the magnitude.

Files and modules:
- `wrappers.dfy` (`Wrappers`): `Option` for Java `null`, and `Result`.
- `geometry.dfy` (`Geometry`): points, wall sides, polygons, the geometric collaborators and their optional laws.
- `tank.dfy` (`TankPose`): the `Op` enum, the tank state, `rotate`, `moveBy`, the four controls and the constructor.
- `collision.dfy` (`Collision`): the side filter (`FilterSides`, with `Keep` as its reference), the choice of the undo step, and the bounded backtrack (`HandleCollision`, with `Backtrack` as its reference).
- `controls.dfy` (`Controls`): the two key tables.
- `lifecycle.dfy` (`Lifecycle`): a tank driven through any sequence of its entry points.

`Collision.Collides` is `checkCollision` (source lines 126-128): a side meets the tank when
it meets the head polygon or the body polygon. The rendered polygons are re-copied from the
rectangles after every change, so the model tests the rectangles directly.

## Model

| member | source | states |
|---|---|---|
| TankPose.Rotate | src/tank/Tank.java:83-90 | the heading grows by the given angle; body and head are both rotated by that angle about the unchanged pivot; the recorded control stays; both velocities are re-derived from the new heading |
| TankPose.MoveBy | src/tank/Tank.java:107-112 | head, body and pivot are translated by the same vector; heading, velocities and recorded control are untouched |
| TankPose.TurnRight | src/tank/Tank.java:73-76 | records RIGHT; heading, body and head all turn by `+TURNING_ANGLE` about the unchanged pivot; velocities follow the new heading |
| TankPose.TurnLeft | src/tank/Tank.java:78-81 | records LEFT; heading, body and head all turn by `-TURNING_ANGLE` about the unchanged pivot; velocities follow the new heading |
| TankPose.MoveForward | src/tank/Tank.java:97-100 | records FORWARD, keeps the heading, and moves pivot, head and body by the cached forward velocity, which with a current cache is `decomposeVector(VELOCITY, theta)` |
| TankPose.MoveBack | src/tank/Tank.java:102-105 | records REVERSE, keeps the heading, and moves pivot, head and body by the cached backward velocity, which with a current cache is `decomposeVector(-VELOCITY, theta)` |
| TankPose.MoveAll | src/tank/Tank.java:59-62 | successive translations move the pivot by their sum and head and body through the same translations, keeping the heading, control and velocity cache |
| TankPose.Unrotated | src/tank/Tank.java:28-48 | before rotation the body is the 40 by 30 rectangle at the origin, the head the 20 by 7.5 rectangle at (30, 11.25) (half sticking out, vertically centred), the pivot the body centre (20, 15), the heading zero, and no control is recorded |
| TankPose.Create | src/tank/Tank.java:41-65 | a new tank has the initial heading, no recorded control and a current velocity cache; its body and head are the initial rectangles rotated by the initial angle about (20, 15) and then moved by the spawn translations, and its pivot is (20, 15) plus their sum |
| TankPose.TurnsCancelInHeading | src/tank/Tank.java:73-81 | a right turn and a left turn, in either order, restore the heading |
| TankPose.TurnsCancel | src/tank/Tank.java:73-90 | when rotations are invertible, right-then-left (or left-then-right) restores the whole pose; only the recorded control differs |
| TankPose.BackwardVelocityIsNegated | src/tank/Tank.java:87-88 | with linear decomposition the cached backward velocity is the negated forward velocity |
| TankPose.StepsCancel | src/tank/Tank.java:97-112 | when translations are invertible and decomposition linear, forward-then-back (or back-then-forward) restores the whole pose |
| Collision.CollisionDependsOnShapes | src/tank/Tank.java:126-128 | `Collides` (`checkCollision`): whether a side meets the tank depends only on its head and body polygons, so two tanks with the same head and body meet the same sides |
| Collision.Keep | src/tank/Tank.java:132-138 | reference filter: never longer than its input |
| Collision.KeepMembers | src/tank/Tank.java:132-138 | a side is in the filtered list exactly when it was supplied and meets the tank |
| Collision.KeepCounts | src/tank/Tank.java:132-138 | each colliding side is kept as many times as it occurs, and no other side is kept |
| Collision.KeepIsSubsequence | src/tank/Tank.java:132-138 | the filtered list keeps the original relative order |
| Collision.KeepConcat | src/tank/Tank.java:132-138 | filtering a concatenation is concatenating the filtered parts |
| Collision.KeepAllColliding | src/tank/Tank.java:177-182 | a list whose sides all collide passes the filter unchanged |
| Collision.KeepIdempotent | src/tank/Tank.java:177-182 | re-filtering against the same pose removes nothing more |
| Collision.FilterSides | src/tank/Tank.java:132-138 | the remove-then-decrement loop leaves exactly the reference filter's result, so no side is skipped |
| Collision.SelectReverse | src/tank/Tank.java:145-172 | faults with the unset control exactly when none is recorded and with no undo step exactly for FIRE; RIGHT and LEFT give a turn of one twelfth of the turning angle, against the turn |
| Collision.ReverseStepUndoesMotion | src/tank/Tank.java:149-161 | with linear decomposition, the undo step of FORWARD or REVERSE is minus one third of that movement's displacement |
| Collision.ApplyReverse | src/tank/Tank.java:173-175 | one undo step translates pivot, head and body by the chosen step, or turns heading, head and body about the pivot by the chosen angle; it keeps the recorded control and the tank invariant |
| Collision.Pose | src/tank/Tank.java:173-183 | after `k` undo steps a translation has moved the pivot by `k` times the step, heading kept, and a turn has moved the heading by `k` times the angle, pivot kept; the recorded control and the tank invariant are kept |
| Collision.Survivors | src/tank/Tank.java:173-183 | the list after each round is never longer than the supplied list |
| Collision.Search | src/tank/Tank.java:173-183 | the loop search never faults and stops no earlier than the round it starts from |
| Collision.Backtrack | src/tank/Tank.java:131-184 | the tank is returned unchanged after zero steps exactly when no side collides, and it faults exactly when some side collides and no undo step exists |
| Collision.HandleCollision | src/tank/Tank.java:131-184 | the imperative procedure agrees with `Backtrack`; on success the caller's list is left empty, on running out of steps it holds the sides still colliding |
| Collision.SurvivorsCollide | src/tank/Tank.java:177-182 | every side still listed after a round was supplied and meets the pose of that round |
| Collision.DroppedOnlyWhenClear | src/tank/Tank.java:177-182 | a side leaves the list only at a round whose pose it does not meet |
| Collision.FilteredOnlyWhenClear | src/tank/Tank.java:132-138 | a supplied side dropped by the first filter does not meet the starting pose |
| Collision.SurvivorsShrink | src/tank/Tank.java:177-183 | each round's list is an order-preserving sub-list of every earlier round's list and of the supplied list |
| Collision.SearchFinds | src/tank/Tank.java:173-183 | the search stops at the first empty round or at the budget, returning that round's pose and list |
| Collision.BacktrackResolved | src/tank/Tank.java:173-183 | a resolved collision took between one and `Limit(fuel)` undo steps, ended at the first round with an empty list, and returned that round's pose |
| Collision.BacktrackStuck | src/tank/Tank.java:173-183 | an unresolved collision used the whole budget and reports the non-empty list of sides still colliding |
| Collision.ClearedBy | src/tank/Tank.java:173-183 | a side listed at one round and gone by a later empty round left the list at some round in between |
| Collision.ResolvedAtPose | src/tank/Tank.java:173-183 | a resolved collision leaves the tank at the pose after its undo steps |
| Collision.PoseRetreatsStep | src/tank/Tank.java:149-161 | with linear decomposition, `k` undo steps of a forward or backward movement move the pivot back by `k` thirds of that movement, heading kept |
| Collision.PoseRetreatsTurn | src/tank/Tank.java:162-171 | `k` undo steps of a turn move the heading back by `k` twelfths of that turn, pivot kept |
| Collision.ResolvedRetreatsStep | src/tank/Tank.java:149-183 | a collision after a forward or backward movement, resolved in `n` steps, leaves the pivot `n` thirds of that movement back, heading kept |
| Collision.ResolvedRetreatsTurn | src/tank/Tank.java:162-183 | a collision after a turn, resolved in `n` steps, leaves the heading turned back by `n` undo turns of minus one twelfth of the last turn each, pivot kept |
| Collision.ResolvedClearsEverySide | src/tank/Tank.java:131-184 | after a resolved collision, each supplied side failed to meet the tank at some pose of the backtrack |
| Controls.Lookup | src/tank/Tank.java:196-213 | a key yields a control exactly when the player's table binds it |
| Controls.KeyFor | src/tank/Tank.java:196-213 | the key named for a control is bound to that control in the player's table |
| Controls.TableKeys | src/tank/Tank.java:196-213 | player one binds the four arrows and `.`, player two binds W, D, S, A and V: five keys each |
| Controls.KeyForInvertsTable | src/tank/Tank.java:196-213 | every bound key is the key `KeyFor` names for its control |
| Controls.TableCoversOps | src/tank/Tank.java:196-213 | every control is bound to some key in each table |
| Controls.TableIsBijection | src/tank/Tank.java:196-213 | each table binds five keys, reaches every control, and binds no control twice |
| Controls.TablesShareNoKey | src/tank/Tank.java:196-213 | no key is bound in both tables |
| Controls.OtherKeysUnbound | src/tank/Tank.java:196-213 | a key other than the ten bound ones is bound in neither table |
| Lifecycle.Step | src/tank/Tank.java:73-112 | the four controls always return and record their control, turning the heading by the turning angle about a fixed pivot or moving the pivot by the cached velocity; `handleCollision` returns exactly when the backtrack resolves, with the backtrack's tank |
| Lifecycle.StepKeepsInvariant | src/tank/Tank.java:73-105 | each entry point keeps the velocity cache current and records only motion controls, never FIRE |
| Lifecycle.RunKeepsInvariant | src/tank/Tank.java:73-105 | over any run the invariant holds, and the recorded control is the last movement call's |
| Lifecycle.FaultsOfReachableTanks | src/tank/Tank.java:145-174 | on a constructed tank the FIRE fault cannot occur, and the unset-control fault occurs exactly when a side collides before any movement call |
| Lifecycle.HeadingAfterTurns | src/tank/Tank.java:73-81 | after turn calls only, the heading moved by the turning angle times (right turns minus left turns) |
| Lifecycle.TwoRightsTwoLefts | src/tank/Tank.java:73-81 | two right turns then two left turns restore the heading |

## Left out

- Geometry: the bodies of `Physics.decomposeVector`, `Physics.checkCollision`, `Rectangle.rotate`, `Rectangle.moveBy` and `Rectangle.getMidRight` are not part of this model. They are parameters. So the rigidity of head and body is stated as "every turn, step and undo step gives both the same rotation about the pivot or the same translation", not as a fixed offset in the plane.
- Floating point: angles and coordinates are exact reals. `Math.PI` is the decimal 3.141592653589793. The turn-cancelling lemmas hold in exact arithmetic only.
- Spawn placement (lines 55-62): the random cell and the maze constants `Maze.COLUMNS`, `Maze.ROWS`, `Cell.LENGTH` and `Maze.THICKNESS` are not part of this model. `Create` takes the spawn translations as a parameter.
- Rendering: `headPolygon`, `bodyPolygon`, `syncPolygons`, `getNode` and the fill colour are left out. The polygons always equal the rectangles after each change.
- Firing: `BulletManager`, `getBulletManager` and `getBulletLaunchPoint` are left out. The getters `getTheta` and `getCenter` are the fields `theta` and `pivot`.
- Key dispatch: `Tank.java` never reads its key tables, since they and `Op` are private to `Tank`. Callers invoke `right`, `left`, `forward`, `back` and `handleCollision` directly, and `Lifecycle.Call` stands for those calls.
- The unbounded backtrack loop: the source loops until the list is empty. The model takes a step budget `fuel` and reports `Stuck` when it runs out; a run without a budget is not modelled. Geometric termination is not claimed.
- Wall sides are values `(x, y, width, height)`, not javafx `Rectangle` objects. Two distinct wall rectangles with the same coordinates are the same side to `KeepMembers` and `KeepCounts`. The filter itself works by position in the list, so it treats them as separate entries either way.
- `KeyCode.Other` stands for every javafx key the tables do not bind.
- Collision.ResolvedRetreatsStep: does not claim the undo is partial. The model does not bound the number of undo steps below three, and whether fewer than three suffice depends on the geometry.
- Faults: the source throws a `NullPointerException`. The model returns `Faulted` instead, with `UnsetLastMovementOp` for the switch on a `null` control (line 149) and `NoReverseOp` for FIRE's missing undo step (line 174).
- Collision.ResolvedClearsEverySide: weaker than the reading "on return no supplied side meets the tank". The code re-tests only the sides still on its list, so a side cleared at an earlier pose is never re-tested against the final pose. The lemma states what the code does guarantee.
