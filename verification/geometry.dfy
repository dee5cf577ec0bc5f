/** Points in space and the geometric primitives the detectors consume.

    The numeric implementations of distance and angles live outside the
    modelled code, so they are not defined here: a `Space` carries them as
    function values and every detector takes a `Space` as a parameter.
    An angle that is not a number (a degenerate or padded direction) is
    `None`. */
module Geometry {
  import opened Wrappers

  /** A point, or a free vector, in three dimensions. */
  datatype Point = Point(x: real, y: real, z: real)

  function Add(p: Point, q: Point): Point {
    Point(p.x + q.x, p.y + q.y, p.z + q.z)
  }

  function Sub(p: Point, q: Point): Point {
    Point(p.x - q.x, p.y - q.y, p.z - q.z)
  }

  /** An angle in degrees, or `None` where the computation yields NaN. */
  type Angle = Option<real>

  /** The geometric primitives:
      - `distance(p, q)`: euclidean distance between two points;
      - `angle(p, vertex, q)`: angle at `vertex` between the rays to `p` and to `q`;
      - `angle2v(u, v)`: angle between two free vectors. */
  datatype Space = Space(
    distance: (Point, Point) -> real,
    angle: (Point, Point, Point) -> Angle,
    angle2v: (Point, Point) -> Angle)

  /** The distance primitive does not depend on argument order (true of the
      euclidean distance); only the commutativity lemmas need this. */
  ghost predicate SymmetricDistance(g: Space) {
    forall p, q :: g.distance(p, q) == g.distance(q, p)
  }
}
