/** Points and vectors as the engine's Vector2/Vector3, over exact reals. */
module Geometry {

  datatype Vec2 = Vec2(x: real, y: real)

  datatype Vec3 = Vec3(x: real, y: real, z: real)

  const Zero: Vec3 := Vec3(0.0, 0.0, 0.0)

  /** The engine's unit directions Vector3.up/down/right/left. */
  const Up: Vec3 := Vec3(0.0, 1.0, 0.0)
  const Down: Vec3 := Vec3(0.0, -1.0, 0.0)
  const Right: Vec3 := Vec3(1.0, 0.0, 0.0)
  const Left: Vec3 := Vec3(-1.0, 0.0, 0.0)

  function Add(a: Vec3, b: Vec3): Vec3 {
    Vec3(a.x + b.x, a.y + b.y, a.z + b.z)
  }

  function Sub(a: Vec3, b: Vec3): Vec3 {
    Vec3(a.x - b.x, a.y - b.y, a.z - b.z)
  }

  function Scale(a: Vec3, k: real): Vec3 {
    Vec3(a.x * k, a.y * k, a.z * k)
  }

  function Negate(a: Vec3): Vec3 {
    Vec3(-a.x, -a.y, -a.z)
  }

  /** Vector3.sqrMagnitude */
  function SqrMagnitude(a: Vec3): real {
    a.x * a.x + a.y * a.y + a.z * a.z
  }

  /** A Vector2 widened to a Vector3, as the engine does implicitly (z = 0). */
  function Widen(p: Vec2): Vec3 {
    Vec3(p.x, p.y, 0.0)
  }

  /** A Vector3 narrowed to a Vector2, as the engine does implicitly (z dropped). */
  function Narrow(p: Vec3): Vec2 {
    Vec2(p.x, p.y)
  }

  /**
   * `(p - c).magnitude < radius`. A magnitude is a non-negative square root,
   * so over the reals this holds exactly when the radius is non-negative and
   * the squared distance is below the squared radius.
   */
  predicate WithinRadius(p: Vec3, c: Vec3, radius: real) {
    0.0 <= radius && SqrMagnitude(Sub(p, c)) < radius * radius
  }

  lemma ScaleNegate(a: Vec3, k: real)
    ensures Scale(Negate(a), k) == Negate(Scale(a, k))
  {
  }

  /** Shifting by `d` and then by `-d` gives the point back. */
  lemma AddNegateCancels(a: Vec3, d: Vec3)
    ensures Add(Add(a, d), Negate(d)) == a
  {
  }

  /** A coordinate that is -1, 0 or 1 squares to 0 exactly when it is 0, and to 1 otherwise. */
  lemma SquareOfUnit(v: real)
    requires v == 0.0 || v == 1.0 || v == -1.0
    ensures v * v == if v == 0.0 then 0.0 else 1.0
  {
    if v == 1.0 {
      assert v * v == 1.0 * 1.0;
    } else if v == -1.0 {
      assert v * v == -1.0 * -1.0;
    } else {
      assert v * v == 0.0 * 0.0;
    }
  }

  /**
   * A vector in the plane z = 0 whose coordinates are each -1, 0 or 1 has a
   * positive squared length exactly when it is not the zero vector.
   */
  lemma SqrMagnitudeOnUnitGrid(a: Vec3)
    requires a.z == 0.0
    requires a.x == 0.0 || a.x == 1.0 || a.x == -1.0
    requires a.y == 0.0 || a.y == 1.0 || a.y == -1.0
    ensures SqrMagnitude(a) > 0.0 <==> a != Zero
  {
    SquareOfUnit(a.x);
    SquareOfUnit(a.y);
    SquareOfUnit(a.z);
  }
}
