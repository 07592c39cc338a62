/**
 * Axis-aligned rectangles and the strict overlap test that the game server
 * uses to arbitrate collision claims (checkAABBCollision in server/src/server.ts).
 * (x, y) is the top-left corner; coordinates are JavaScript numbers, modelled as reals.
 */
module Geometry {

  datatype Rect = Rect(x: real, y: real, width: real, height: real)

  /** The four strict half-plane tests of the server's AABB check. */
  predicate Overlaps(a: Rect, b: Rect)
  {
    && a.x < b.x + b.width
    && a.x + a.width > b.x
    && a.y < b.y + b.height
    && a.y + a.height > b.y
  }

  /** A point strictly inside a rectangle (its open interior). */
  predicate Inside(r: Rect, px: real, py: real)
  {
    r.x < px < r.x + r.width && r.y < py < r.y + r.height
  }

  predicate NonDegenerate(r: Rect)
  {
    r.width > 0.0 && r.height > 0.0
  }

  function Max(a: real, b: real): real { if a < b then b else a }

  function Min(a: real, b: real): real { if a < b then a else b }

  /** Overlap does not depend on the order of the operands. */
  lemma OverlapsSymmetric(a: Rect, b: Rect)
    ensures Overlaps(a, b) <==> Overlaps(b, a)
  {
  }

  /** Rectangles that only share an edge (or lie further apart) do not collide. */
  lemma TouchingEdgesDoNotOverlap(a: Rect, b: Rect)
    requires a.x + a.width <= b.x || b.x + b.width <= a.x
          || a.y + a.height <= b.y || b.y + b.height <= a.y
    ensures !Overlaps(a, b)
  {
  }

  /** Every rectangle of positive size overlaps itself. */
  lemma SelfOverlap(a: Rect)
    requires NonDegenerate(a)
    ensures Overlaps(a, a)
  {
  }

  /**
   * Independent reading of the test: for rectangles of positive size, the
   * four inequalities hold exactly when some point lies strictly inside both.
   */
  lemma OverlapsIffCommonInteriorPoint(a: Rect, b: Rect)
    requires NonDegenerate(a) && NonDegenerate(b)
    ensures Overlaps(a, b) <==> exists px, py :: Inside(a, px, py) && Inside(b, px, py)
  {
    if Overlaps(a, b) {
      var px := (Max(a.x, b.x) + Min(a.x + a.width, b.x + b.width)) / 2.0;
      var py := (Max(a.y, b.y) + Min(a.y + a.height, b.y + b.height)) / 2.0;
      assert Inside(a, px, py) && Inside(b, px, py);
    }
    if exists px, py :: Inside(a, px, py) && Inside(b, px, py) {
      var px, py :| Inside(a, px, py) && Inside(b, px, py);
      assert Overlaps(a, b);
    }
  }

  /**
   * Without positive size the equivalence fails: a rectangle of width zero has
   * no interior, yet the four inequalities can hold for it.
   */
  lemma ZeroWidthRectangleCanOverlap()
    ensures var a := Rect(5.0, 0.0, 0.0, 10.0);
            var b := Rect(0.0, 0.0, 10.0, 10.0);
            Overlaps(a, b) && forall px, py :: !Inside(a, px, py)
  {
  }
}
