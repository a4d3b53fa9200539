/**
 * The deterministic part of homography estimation: the 8x9 linear system
 * built from four point correspondences, what its null space means, and the
 * reshape of a 9-vector into the upper-left 3x3 block of a 4x4 matrix. The
 * singular value decomposition that picks the null vector is a parameter.
 */
module Homography {
  import opened Geometry

  /** The nine entries of a 3x3 matrix, row-major. */
  type Vec9 = v: seq<real> | |v| == 9 witness [0.0, 0.0, 0.0, 0.0, 0.0, 0.0, 0.0, 0.0, 0.0]

  /** A 4x4 matrix as rows. */
  type Matrix4 = seq<seq<real>>

  /** The canonical unit square, counter-clockwise from the origin: the corners every homography maps onto. */
  const UnitSquare: seq<Vec3> := [Vec3(0.0, 0.0, 0.0), Vec3(1.0, 0.0, 0.0), Vec3(1.0, 1.0, 0.0), Vec3(0.0, 1.0, 0.0)]

  /** The 3x3 identity, row-major. */
  const Identity: Vec9 := [1.0, 0.0, 0.0, 0.0, 1.0, 0.0, 0.0, 0.0, 1.0]

  /**
   * The equation of a correspondence p1 -> p2 that fixes the image's x
   * coordinate: against any h it gives x2 * w - x, the residual of the
   * perspective divide x / w = x2 multiplied out.
   */
  function XRow(p1: Vec3, p2: Vec3): (row: seq<real>)
    ensures |row| == 9
    ensures forall h: Vec9 :: Dot(row, h) == p2.x * ImageW(h, p1) - ImageX(h, p1)
  {
    [-p1.x, -p1.y, -1.0, 0.0, 0.0, 0.0, p2.x * p1.x, p2.x * p1.y, p2.x]
  }

  /** Likewise for the image's y coordinate: against any h it gives y2 * w - y. */
  function YRow(p1: Vec3, p2: Vec3): (row: seq<real>)
    ensures |row| == 9
    ensures forall h: Vec9 :: Dot(row, h) == p2.y * ImageW(h, p1) - ImageY(h, p1)
  {
    [0.0, 0.0, 0.0, -p1.x, -p1.y, -1.0, p2.y * p1.x, p2.y * p1.y, p2.y]
  }

  /**
   * The equations of the correspondences from[i] -> to[i], in order: rows 2i
   * and 2i+1 come from correspondence i.
   */
  function Equations(from: seq<Vec3>, to: seq<Vec3>): (a: seq<seq<real>>)
    requires |from| == |to|
    ensures |a| == 2 * |from|
    ensures forall k :: 0 <= k < |a| ==> |a[k]| == 9
    ensures forall i :: 0 <= i < |from| ==> a[2 * i] == XRow(from[i], to[i]) && a[2 * i + 1] == YRow(from[i], to[i])
  {
    if from == [] then []
    else
      var n := |from| - 1;
      var earlier := Equations(from[..n], to[..n]);
      var a := earlier + [XRow(from[n], to[n]), YRow(from[n], to[n])];
      assert forall i :: 0 <= i < n ==>
        && from[..n][i] == from[i] && to[..n][i] == to[i]
        && a[2 * i] == earlier[2 * i] && a[2 * i + 1] == earlier[2 * i + 1];
      assert a[2 * n] == XRow(from[n], to[n]) && a[2 * n + 1] == YRow(from[n], to[n]);
      a
  }

  /** The 8x9 coefficient matrix of four correspondences. */
  function LinearSystem(from: seq<Vec3>, to: seq<Vec3>): (a: seq<seq<real>>)
    requires |from| == 4 && |to| == 4
    ensures |a| == 8
    ensures forall k :: 0 <= k < 8 ==> |a[k]| == 9
    ensures forall i :: 0 <= i < 4 ==> a[2 * i] == XRow(from[i], to[i]) && a[2 * i + 1] == YRow(from[i], to[i])
  {
    Equations(from, to)
  }

  function Dot(row: seq<real>, h: Vec9): real
    requires |row| == 9
  {
    row[0] * h[0] + row[1] * h[1] + row[2] * h[2] +
    row[3] * h[3] + row[4] * h[4] + row[5] * h[5] +
    row[6] * h[6] + row[7] * h[7] + row[8] * h[8]
  }

  /** `h` solves every equation of the system: A h = 0. */
  predicate InKernel(a: seq<seq<real>>, h: Vec9) {
    && |a| == 8
    && forall k :: 0 <= k < 8 ==> |a[k]| == 9 && Dot(a[k], h) == 0.0
  }

  /** The image of (p.x, p.y, 1) under h read row-major: its homogeneous coordinates. */
  function ImageX(h: Vec9, p: Vec3): real { h[0] * p.x + h[1] * p.y + h[2] }
  function ImageY(h: Vec9, p: Vec3): real { h[3] * p.x + h[4] * p.y + h[5] }
  function ImageW(h: Vec9, p: Vec3): real { h[6] * p.x + h[7] * p.y + h[8] }

  /** After the perspective divide, h sends p to q. */
  predicate MapsTo(h: Vec9, p: Vec3, q: Vec3) {
    && ImageW(h, p) != 0.0
    && ImageX(h, p) / ImageW(h, p) == q.x
    && ImageY(h, p) / ImageW(h, p) == q.y
  }

  /** A residual c * w - u vanishes exactly when the divide u / w gives c. */
  lemma ResidualVanishes(u: real, w: real, c: real)
    requires w != 0.0
    ensures c * w - u == 0.0 <==> u / w == c
  {
    if u / w == c {
      calc {
        u;
        (u / w) * w;
        c * w;
      }
    }
  }

  /** Both equations of a correspondence p -> q hold exactly when h maps p to q. */
  lemma CorrespondenceEquations(p: Vec3, q: Vec3, h: Vec9)
    requires ImageW(h, p) != 0.0
    ensures Dot(XRow(p, q), h) == 0.0 && Dot(YRow(p, q), h) == 0.0 <==> MapsTo(h, p, q)
  {
    var x, y, w := ImageX(h, p), ImageY(h, p), ImageW(h, p);
    var rx, ry := Dot(XRow(p, q), h), Dot(YRow(p, q), h);
    assert rx == q.x * w - x;
    assert ry == q.y * w - y;
    ResidualVanishes(x, w, q.x);
    ResidualVanishes(y, w, q.y);
    assert MapsTo(h, p, q) <==> x / w == q.x && y / w == q.y;
  }

  /**
   * The null space of the system is exactly the set of matrices that send
   * each source corner to its destination corner after the perspective
   * divide, wherever the third homogeneous coordinate is non-zero.
   */
  lemma KernelIffMapsCorners(from: seq<Vec3>, to: seq<Vec3>, h: Vec9)
    requires |from| == 4 && |to| == 4
    requires forall i :: 0 <= i < 4 ==> ImageW(h, from[i]) != 0.0
    ensures InKernel(LinearSystem(from, to), h) <==> forall i :: 0 <= i < 4 ==> MapsTo(h, from[i], to[i])
  {
    var a := LinearSystem(from, to);
    forall i | 0 <= i < 4
      ensures Dot(a[2 * i], h) == 0.0 && Dot(a[2 * i + 1], h) == 0.0 <==> MapsTo(h, from[i], to[i])
    {
      CorrespondenceEquations(from[i], to[i], h);
    }
    if forall i :: 0 <= i < 4 ==> MapsTo(h, from[i], to[i]) {
      forall k | 0 <= k < 8
        ensures Dot(a[k], h) == 0.0
      {
        var i := k / 2;
        assert MapsTo(h, from[i], to[i]);
        if k == 2 * i {
          assert Dot(a[2 * i], h) == 0.0;
        } else {
          assert k == 2 * i + 1;
          assert Dot(a[2 * i + 1], h) == 0.0;
        }
      }
    }
  }

  /** A kernel vector, wherever its third coordinate is non-zero, maps the corner onto its partner. */
  lemma KernelMapsCorner(from: seq<Vec3>, to: seq<Vec3>, h: Vec9, i: int)
    requires |from| == 4 && |to| == 4 && 0 <= i < 4
    requires InKernel(LinearSystem(from, to), h)
    requires ImageW(h, from[i]) != 0.0
    ensures ImageX(h, from[i]) / ImageW(h, from[i]) == to[i].x
    ensures ImageY(h, from[i]) / ImageW(h, from[i]) == to[i].y
  {
    CorrespondenceEquations(from[i], to[i], h);
  }

  /** When source and destination agree, the identity solves the system. */
  lemma IdentitySolvesFixedCorners(corners: seq<Vec3>)
    requires |corners| == 4
    ensures InKernel(LinearSystem(corners, corners), Identity)
  {
    var a := LinearSystem(corners, corners);
    forall k | 0 <= k < 8
      ensures Dot(a[k], Identity) == 0.0
    {
      var i := k / 2;
      var p := corners[i];
      assert ImageX(Identity, p) == p.x && ImageY(Identity, p) == p.y && ImageW(Identity, p) == 1.0;
      if k == 2 * i {
        assert Dot(XRow(p, p), Identity) == p.x * 1.0 - p.x;
      } else {
        assert k == 2 * i + 1;
        assert Dot(YRow(p, p), Identity) == p.y * 1.0 - p.y;
      }
    }
  }

  /** The eight residuals of the system that maps the unit square to itself, as sums of h's entries. */
  lemma UnitSquareResiduals(h: Vec9)
    ensures var a := LinearSystem(UnitSquare, UnitSquare);
      && Dot(a[0], h) == -h[2]
      && Dot(a[1], h) == -h[5]
      && Dot(a[2], h) == h[6] + h[8] - h[0] - h[2]
      && Dot(a[3], h) == -h[3] - h[5]
      && Dot(a[4], h) == h[6] + h[7] + h[8] - h[0] - h[1] - h[2]
      && Dot(a[5], h) == h[6] + h[7] + h[8] - h[3] - h[4] - h[5]
      && Dot(a[6], h) == -h[1] - h[2]
      && Dot(a[7], h) == h[7] + h[8] - h[4] - h[5]
  {
    var a := LinearSystem(UnitSquare, UnitSquare);
    assert a[0] == XRow(UnitSquare[0], UnitSquare[0]) && a[1] == YRow(UnitSquare[0], UnitSquare[0]);
    assert a[2] == XRow(UnitSquare[1], UnitSquare[1]) && a[3] == YRow(UnitSquare[1], UnitSquare[1]);
    assert a[4] == XRow(UnitSquare[2], UnitSquare[2]) && a[5] == YRow(UnitSquare[2], UnitSquare[2]);
    assert a[6] == XRow(UnitSquare[3], UnitSquare[3]) && a[7] == YRow(UnitSquare[3], UnitSquare[3]);
  }

  /**
   * The converse for the unit square: every solution of the system that maps
   * the unit square to itself is the identity scaled by its last entry.
   */
  lemma UnitSquareKernelIsIdentity(h: Vec9)
    requires InKernel(LinearSystem(UnitSquare, UnitSquare), h)
    ensures h == ScaleVec9(Identity, h[8])
  {
    var a := LinearSystem(UnitSquare, UnitSquare);
    UnitSquareResiduals(h);
    assert Dot(a[0], h) == 0.0 && Dot(a[1], h) == 0.0 && Dot(a[2], h) == 0.0 && Dot(a[3], h) == 0.0;
    assert Dot(a[4], h) == 0.0 && Dot(a[5], h) == 0.0 && Dot(a[6], h) == 0.0 && Dot(a[7], h) == 0.0;
    // The corners (0, 0), (1, 0) and (0, 1) clear the off-diagonal entries;
    // the corner (1, 1) then clears the perspective entries.
    assert h[1] == 0.0 && h[2] == 0.0 && h[3] == 0.0 && h[5] == 0.0;
    assert h[6] == 0.0 && h[7] == 0.0;
    assert h[0] == h[8] && h[4] == h[8];
    var c := h[8];
    assert ScaleVec9(Identity, c) == [1.0 * c, 0.0 * c, 0.0 * c, 0.0 * c, 1.0 * c, 0.0 * c, 0.0 * c, 0.0 * c, 1.0 * c];
  }

  function ScaleVec9(h: Vec9, c: real): Vec9 {
    [h[0] * c, h[1] * c, h[2] * c, h[3] * c, h[4] * c, h[5] * c, h[6] * c, h[7] * c, h[8] * c]
  }

  /** The null space is closed under scaling: a homography is defined up to a factor. */
  lemma KernelScales(a: seq<seq<real>>, h: Vec9, c: real)
    requires InKernel(a, h)
    ensures InKernel(a, ScaleVec9(h, c))
  {
    forall k | 0 <= k < 8
      ensures Dot(a[k], ScaleVec9(h, c)) == 0.0
    {
      calc {
        Dot(a[k], ScaleVec9(h, c));
        Dot(a[k], h) * c;
        0.0;
      }
    }
  }

  /** The 9-vector laid out row-major in the upper-left 3x3 block of a zero 4x4 matrix. */
  function Reshape(rsv: Vec9): (m: Matrix4)
    ensures |m| == 4 && forall r :: 0 <= r < 4 ==> |m[r]| == 4
    ensures forall r, c :: 0 <= r < 3 && 0 <= c < 3 ==> m[r][c] == rsv[3 * r + c]
    ensures forall r :: 0 <= r < 3 ==> m[r][3] == 0.0
    ensures m[3] == [0.0, 0.0, 0.0, 0.0]
  {
    [[rsv[0], rsv[1], rsv[2], 0.0],
     [rsv[3], rsv[4], rsv[5], 0.0],
     [rsv[6], rsv[7], rsv[8], 0.0],
     [0.0, 0.0, 0.0, 0.0]]
  }

  /** The upper-left 3x3 block, row-major. */
  function Block3x3(m: Matrix4): Vec9
    requires |m| == 4 && forall r :: 0 <= r < 4 ==> |m[r]| == 4
  {
    [m[0][0], m[0][1], m[0][2], m[1][0], m[1][1], m[1][2], m[2][0], m[2][1], m[2][2]]
  }

  /** Nothing of the vector is lost by the reshape. */
  lemma ReshapeRoundTrip(rsv: Vec9)
    ensures Block3x3(Reshape(rsv)) == rsv
  {
    var m := Reshape(rsv);
    forall k | 0 <= k < 9
      ensures Block3x3(m)[k] == rsv[k]
    {
      assert m[k / 3][k % 3] == rsv[3 * (k / 3) + k % 3];
    }
  }

  /**
   * The estimate: the right singular vector of the system for its smallest
   * singular value, reshaped. The decomposition is supplied by the caller.
   */
  function FindHomography(from: seq<Vec3>, to: seq<Vec3>, rightSingularVector: seq<seq<real>> -> Vec9): (m: Matrix4)
    requires |from| == 4 && |to| == 4
    ensures |m| == 4 && forall r :: 0 <= r < 4 ==> |m[r]| == 4
    ensures Block3x3(m) == rightSingularVector(LinearSystem(from, to))
    ensures forall r :: 0 <= r < 3 ==> m[r][3] == 0.0
    ensures m[3] == [0.0, 0.0, 0.0, 0.0]
  {
    ReshapeRoundTrip(rightSingularVector(LinearSystem(from, to)));
    Reshape(rightSingularVector(LinearSystem(from, to)))
  }

  /**
   * Whenever the decomposition returns an exact null vector of the system,
   * the matrix found sends each source corner to its destination corner
   * (where its third homogeneous coordinate is non-zero).
   */
  lemma FindHomographyMapsCorners(from: seq<Vec3>, to: seq<Vec3>, rightSingularVector: seq<seq<real>> -> Vec9, i: int)
    requires |from| == 4 && |to| == 4 && 0 <= i < 4
    requires InKernel(LinearSystem(from, to), rightSingularVector(LinearSystem(from, to)))
    ensures var h := Block3x3(FindHomography(from, to, rightSingularVector));
            ImageW(h, from[i]) != 0.0 ==> MapsTo(h, from[i], to[i])
  {
    var h := rightSingularVector(LinearSystem(from, to));
    ReshapeRoundTrip(h);
    if ImageW(h, from[i]) != 0.0 {
      KernelMapsCorner(from, to, h, i);
    }
  }

  /**
   * Solving from the unit square to itself: whenever the decomposition
   * returns a null vector, the matrix found is the identity scaled by the
   * vector's last entry.
   */
  lemma FindHomographyOfUnitSquare(rightSingularVector: seq<seq<real>> -> Vec9)
    requires InKernel(LinearSystem(UnitSquare, UnitSquare), rightSingularVector(LinearSystem(UnitSquare, UnitSquare)))
    ensures var h := rightSingularVector(LinearSystem(UnitSquare, UnitSquare));
            Block3x3(FindHomography(UnitSquare, UnitSquare, rightSingularVector)) == ScaleVec9(Identity, h[8])
  {
    UnitSquareKernelIsIdentity(rightSingularVector(LinearSystem(UnitSquare, UnitSquare)));
  }
}
