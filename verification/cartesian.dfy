/** Plane geometry over points. The floating-point primitives (`Math.sqrt`,
    `Math.sin`, `Math.cos`, `Math.atan2` and `Math.PI`) are not modelled:
    callers supply them in a `MathLib`, and every property proved here
    holds whatever they are. */
module Cartesian {

  datatype Point = Point(x: real, y: real)

  const Origin := Point(0.0, 0.0)

  /** The floating-point primitives, supplied by the caller. */
  datatype MathLib = MathLib(
    sqrt: real -> real,
    sin: real -> real,
    cos: real -> real,
    atan2: (real, real) -> real,
    pi: real)

  function Square(x: real): (r: real)
    ensures r >= 0.0
  {
    x * x
  }

  /** Euclidean distance between two points. */
  function Dist(m: MathLib, p1: Point, p2: Point): real {
    m.sqrt(Square(p1.x - p2.x) + Square(p1.y - p2.y))
  }

  /** Direction in radians from `p1` to `p2`. */
  function Bearing(m: MathLib, p1: Point, p2: Point): real {
    m.atan2(p2.y - p1.y, p2.x - p1.x)
  }

  /** The point `distance` away from `p` in direction `theta`. */
  function MoveAlongBearing(m: MathLib, p: Point, distance: real, theta: real): Point {
    Point(p.x + distance * m.cos(theta), p.y + distance * m.sin(theta))
  }

  /** `p` turned by `theta` radians around `axis`: kept at the same distance
      from the axis, with its bearing from the axis advanced by `theta`. */
  function RotateAroundPoint(m: MathLib, p: Point, theta: real, axis: Point): Point {
    MoveAlongBearing(m, axis, Dist(m, axis, p), Bearing(m, axis, p) + theta)
  }
}
