/** Cramer's rule on three planes of the dual space (solve3x3 in src/admission/fluid-lp.ts). */
module Cramer {
  import opened Numbers
  import opened Wrappers
  import opened FluidLp

  function Det(x: Vec, y: Vec, z: Vec): real {
    x.r * (y.c * z.k - y.k * z.c) - x.c * (y.r * z.k - y.k * z.r) + x.k * (y.r * z.c - y.c * z.r)
  }

  /** The row with column `col` replaced by the right-hand side. */
  function Replaced(p: Plane, col: nat): Vec {
    if col == 0 then Vec(p.b, p.a.c, p.a.k) else if col == 1 then Vec(p.a.r, p.b, p.a.k) else Vec(p.a.r, p.a.c, p.b)
  }

  function DetCol(x: Plane, y: Plane, z: Plane, col: nat): real {
    Det(Replaced(x, col), Replaced(y, col), Replaced(z, col))
  }

  function Solve3x3(x: Plane, y: Plane, z: Plane): Option<Vec> {
    var d := Det(x.a, y.a, z.a);
    if d == 0.0 then None
    else Some(Vec(DetCol(x, y, z, 0) / d, DetCol(x, y, z, 1) / d, DetCol(x, y, z, 2) / d))
  }

  ghost predicate On(p: Plane, q: Vec) { Gap(p, q) == 0.0 }

  /** A row dotted with the replaced determinants gives its right-hand side times the determinant. */
  ghost predicate RowHolds(p: Plane, d0: real, d1: real, d2: real, d: real) {
    p.a.r * d0 + p.a.c * d1 + p.a.k * d2 == p.b * d
  }

  lemma RowX(x: Plane, y: Plane, z: Plane)
    ensures RowHolds(x, DetCol(x, y, z, 0), DetCol(x, y, z, 1), DetCol(x, y, z, 2), Det(x.a, y.a, z.a))
  {
  }

  lemma RowY(x: Plane, y: Plane, z: Plane)
    ensures RowHolds(y, DetCol(x, y, z, 0), DetCol(x, y, z, 1), DetCol(x, y, z, 2), Det(x.a, y.a, z.a))
  {
  }

  lemma RowZ(x: Plane, y: Plane, z: Plane)
    ensures RowHolds(z, DetCol(x, y, z, 0), DetCol(x, y, z, 1), DetCol(x, y, z, 2), Det(x.a, y.a, z.a))
  {
  }

  /** If q lies on the three planes, each replaced determinant is a coordinate of q times the determinant. */
  lemma ColumnIdentity(x: Vec, y: Vec, z: Vec, q: Vec)
    ensures var px, py, pz := Plane(x, Dot(x, q)), Plane(y, Dot(y, q)), Plane(z, Dot(z, q));
      DetCol(px, py, pz, 0) == q.r * Det(x, y, z) && DetCol(px, py, pz, 1) == q.c * Det(x, y, z)
      && DetCol(px, py, pz, 2) == q.k * Det(x, y, z)
  {
  }

  /** solve3x3 solves every non-singular system, and its answer is the only solution. */
  lemma SolvesExactly(x: Plane, y: Plane, z: Plane, q: Vec)
    ensures Solve3x3(x, y, z).None? <==> Det(x.a, y.a, z.a) == 0.0
    ensures Solve3x3(x, y, z).Some? ==> (Solve3x3(x, y, z).value == q <==> On(x, q) && On(y, q) && On(z, q))
  {
    var d := Det(x.a, y.a, z.a);
    if d != 0.0 {
      RowX(x, y, z);
      RowY(x, y, z);
      RowZ(x, y, z);
      Solution(x, y, z, Solve3x3(x, y, z).value, DetCol(x, y, z, 0), DetCol(x, y, z, 1), DetCol(x, y, z, 2), d);
      if On(x, q) && On(y, q) && On(z, q) {
        UniqueSolution(x, y, z, q, Solve3x3(x, y, z).value, d);
      }
    }
  }

  lemma Solution(x: Plane, y: Plane, z: Plane, s: Vec, d0: real, d1: real, d2: real, d: real)
    requires d != 0.0 && s == Vec(d0 / d, d1 / d, d2 / d)
    requires RowHolds(x, d0, d1, d2, d) && RowHolds(y, d0, d1, d2, d) && RowHolds(z, d0, d1, d2, d)
    ensures On(x, s) && On(y, s) && On(z, s)
  {
    DividedRow(x, s, d0, d1, d2, d);
    DividedRow(y, s, d0, d1, d2, d);
    DividedRow(z, s, d0, d1, d2, d);
  }

  lemma UniqueSolution(x: Plane, y: Plane, z: Plane, q: Vec, s: Vec, d: real)
    requires On(x, q) && On(y, q) && On(z, q) && d == Det(x.a, y.a, z.a) && d != 0.0
    requires Solve3x3(x, y, z) == Some(s)
    ensures s == q
  {
    ColumnIdentity(x.a, y.a, z.a, q);
    assert x == Plane(x.a, Dot(x.a, q)) && y == Plane(y.a, Dot(y.a, q)) && z == Plane(z.a, Dot(z.a, q));
    Unscaled(q.r, d);
    Unscaled(q.c, d);
    Unscaled(q.k, d);
  }

  lemma Unscaled(x: real, d: real)
    requires d != 0.0
    ensures x * d / d == x
  {
  }

  lemma DividedRow(p: Plane, s: Vec, d0: real, d1: real, d2: real, d: real)
    requires d != 0.0 && s == Vec(d0 / d, d1 / d, d2 / d)
    requires RowHolds(p, d0, d1, d2, d)
    ensures On(p, s)
  {
    assert p.a.r * d0 == p.a.r * s.r * d && p.a.c * d1 == p.a.c * s.c * d && p.a.k * d2 == p.a.k * s.k * d;
    assert Dot(p.a, s) * d == p.b * d;
    assert (Dot(p.a, s) - p.b) * d == 0.0;
  }
}
