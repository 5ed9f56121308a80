/** The plane and the geometric collaborators of the tank.
    Trigonometry, polygon rotation and the intersection test are not modelled: they enter
    as the fields of a `Physics` value, so every statement about the tank holds for every
    choice of them, unless a lemma names one of the laws below as a premise. */
module Geometry {

  /** A point or a displacement (javafx `Point2D`), with exact real coordinates. */
  datatype Vec = Vec(x: real, y: real)

  const Origin: Vec := Vec(0.0, 0.0)

  function Add(a: Vec, b: Vec): Vec
  {
    Vec(a.x + b.x, a.y + b.y)
  }

  function Neg(a: Vec): Vec
  {
    Vec(-a.x, -a.y)
  }

  function Scale(k: real, a: Vec): Vec
  {
    Vec(k * a.x, k * a.y)
  }

  /** The vertex list of one of the tank's own rectangles (body or head). */
  type Polygon = seq<Vec>

  /** A maze wall side: an axis-aligned javafx `Rectangle`. */
  datatype Side = Side(x: real, y: real, width: real, height: real)

  /** The collaborators the tank calls but whose code is not part of this model.
      - `decomposeVector(m, a)`: `Physics.decomposeVector`, magnitude `m` projected on heading `a`;
      - `checkCollision(p, s)`: `Physics.checkCollision`, whether polygon `p` meets side `s`;
      - `rotate(p, c, a)`: `Rectangle.rotate`, rotation of `p` about centre `c` by `a`;
      - `moveBy(p, v)`: `Rectangle.moveBy`, translation of `p` by `v`;
      - `rectangle(o, w, h)`: `new Rectangle(w, h)` followed by `moveTo(o)`, a rectangle of
        width `w` and height `h` with top-left corner `o`. */
  datatype Physics = Physics(
    decomposeVector: (real, real) -> Vec,
    checkCollision: (Polygon, Side) -> bool,
    rotate: (Polygon, Vec, real) -> Polygon,
    moveBy: (Polygon, Vec) -> Polygon,
    rectangle: (Vec, real, real) -> Polygon)

  /** A rotation about a centre is undone by the opposite rotation about that centre. */
  ghost predicate RotationsInvertible(g: Physics)
  {
    forall p, c, a :: g.rotate(g.rotate(p, c, a), c, -a) == p
  }

  /** A translation is undone by the opposite translation. */
  ghost predicate TranslationsInvertible(g: Physics)
  {
    forall p, v :: g.moveBy(g.moveBy(p, v), Neg(v)) == p
  }

  /** Decomposition is linear in the magnitude, as `m * (cos a, sin a)` is. */
  ghost predicate DecomposeLinear(g: Physics)
  {
    forall m, a :: g.decomposeVector(m, a) == Scale(m, g.decomposeVector(1.0, a))
  }
}
