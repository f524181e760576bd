/** The shoelace formula for the area of a polygon given by its corner points in order,
    shared by the pipe loop (day 10) and the dig plan (day 18). A point is a pair (x, y). */
module Shoelace {
  import opened Common

  type Point = (int, int)

  /** The cross term of one edge: x_p * y_q - y_p * x_q. */
  function Cross(p: Point, q: Point): int {
    p.0 * q.1 - p.1 * q.0
  }

  /** The cross terms of the first k edges of the open path pts[0], pts[1], .... */
  function PathSum(pts: seq<Point>, k: nat): int
    requires k < |pts|
  {
    if k == 0 then 0 else PathSum(pts, k - 1) + Cross(pts[k - 1], pts[k])
  }

  /** Twice the signed area: the open path's cross terms plus the edge back to the start. */
  function ClosedSum(pts: seq<Point>): int
    requires |pts| > 0
  {
    PathSum(pts, |pts| - 1) + Cross(pts[|pts| - 1], pts[0])
  }

  /** The area of the polygon, rounded down. */
  function Area(pts: seq<Point>): (a: nat)
    requires |pts| > 0
    ensures a * 2 <= Abs(ClosedSum(pts)) < a * 2 + 2
  {
    Abs(ClosedSum(pts)) / 2
  }

  lemma CrossAntisymmetric(p: Point, q: Point)
    ensures Cross(q, p) == -Cross(p, q)
  {
  }

  /** Dropping the first point of an open path drops its first edge. */
  lemma {:induction false} PathSumTail(pts: seq<Point>, k: nat)
    requires 1 <= k < |pts|
    ensures PathSum(pts, k) == Cross(pts[0], pts[1]) + PathSum(pts[1..], k - 1)
  {
    if k > 1 {
      PathSumTail(pts, k - 1);
    }
  }

  /** The open path of the rotated polygon agrees with the original from its second point on. */
  lemma {:induction false} PathSumRotatedPrefix(pts: seq<Point>, k: nat)
    requires |pts| > 1 && k < |pts| - 1
    ensures PathSum(pts[1..] + [pts[0]], k) == PathSum(pts[1..], k)
  {
    if k > 0 {
      PathSumRotatedPrefix(pts, k - 1);
    }
  }

  /** Starting the polygon at its second corner does not change the sum. */
  lemma RotateClosedSum(pts: seq<Point>)
    requires |pts| > 0
    ensures ClosedSum(pts[1..] + [pts[0]]) == ClosedSum(pts)
  {
    var n := |pts|;
    var q := pts[1..] + [pts[0]];
    if n > 1 {
      PathSumRotatedPrefix(pts, n - 2);
      PathSumTail(pts, n - 1);
      assert PathSum(q, n - 1) == PathSum(q, n - 2) + Cross(pts[n - 1], pts[0]);
    } else {
      assert q == pts;
    }
  }

  /** The first k edges of the reversed path are the last k edges of the path, reversed. */
  lemma {:induction false} PathSumReversed(pts: seq<Point>, k: nat)
    requires k < |pts|
    ensures PathSum(Reverse(pts), k) == -(PathSum(pts, |pts| - 1) - PathSum(pts, |pts| - 1 - k))
  {
    if k > 0 {
      var n := |pts|;
      PathSumReversed(pts, k - 1);
      CrossAntisymmetric(pts[n - 1 - k], pts[n - k]);
    }
  }

  /** Going round the polygon the other way negates the sum, so the area is the same. */
  lemma ReverseClosedSum(pts: seq<Point>)
    requires |pts| > 0
    ensures ClosedSum(Reverse(pts)) == -ClosedSum(pts)
    ensures Area(Reverse(pts)) == Area(pts)
  {
    PathSumReversed(pts, |pts| - 1);
    CrossAntisymmetric(pts[0], pts[|pts| - 1]);
  }

  function Translate(pts: seq<Point>, d: Point): (r: seq<Point>)
    ensures |r| == |pts| && forall i :: 0 <= i < |pts| ==> r[i] == (pts[i].0 + d.0, pts[i].1 + d.1)
  {
    seq(|pts|, i requires 0 <= i < |pts| => (pts[i].0 + d.0, pts[i].1 + d.1))
  }

  /** Moving both ends of an edge by d changes its cross term by a difference of two
      terms, one per end. */
  lemma CrossTranslated(p: Point, q: Point, d: Point)
    ensures Cross((p.0 + d.0, p.1 + d.1), (q.0 + d.0, q.1 + d.1)) == Cross(p, q) + Cross(p, d) - Cross(q, d)
  {
    var p', q' := (p.0 + d.0, p.1 + d.1), (q.0 + d.0, q.1 + d.1);
    calc {
      Cross(p', q');
      (p.0 + d.0) * (q.1 + d.1) - (p.1 + d.1) * (q.0 + d.0);
      p.0 * q.1 + p.0 * d.1 + d.0 * q.1 + d.0 * d.1 - (p.1 * q.0 + p.1 * d.0 + d.1 * q.0 + d.1 * d.0);
      Cross(p, q) + Cross(p, d) - Cross(q, d);
    }
  }

  /** The translated open path telescopes: only the first and the last point add a term. */
  lemma {:induction false} PathSumTranslated(pts: seq<Point>, d: Point, k: nat)
    requires k < |pts|
    ensures PathSum(Translate(pts, d), k) == PathSum(pts, k) + Cross(pts[0], d) - Cross(pts[k], d)
  {
    if k > 0 {
      PathSumTranslated(pts, d, k - 1);
      CrossTranslated(pts[k - 1], pts[k], d);
    }
  }

  /** Moving the whole polygon does not change the sum, so where the dig starts does not
      change the area. */
  lemma TranslateClosedSum(pts: seq<Point>, d: Point)
    requires |pts| > 0
    ensures ClosedSum(Translate(pts, d)) == ClosedSum(pts)
  {
    var n := |pts|;
    PathSumTranslated(pts, d, n - 1);
    CrossTranslated(pts[n - 1], pts[0], d);
  }
}
