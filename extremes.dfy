/**
 * Minimum and maximum of a non-empty sequence of reals (Python's built-in
 * min and max), coordinate projections of point lists, and the axis-aligned
 * envelope of a set of points.
 */
module Extremes {
  import opened HandData

  function Min(a: real, b: real): real { if a <= b then a else b }
  function Max(a: real, b: real): real { if a >= b then a else b }

  /** m is an element of s and no element of s is smaller. */
  ghost predicate IsMin(m: real, s: seq<real>) { m in s && forall x :: x in s ==> m <= x }
  /** m is an element of s and no element of s is larger. */
  ghost predicate IsMax(m: real, s: seq<real>) { m in s && forall x :: x in s ==> x <= m }

  function MinOf(s: seq<real>): (m: real)
    requires |s| > 0
    ensures IsMin(m, s)
  {
    if |s| == 1 then s[0]
    else
      assert s == s[..|s| - 1] + [s[|s| - 1]];
      Min(MinOf(s[..|s| - 1]), s[|s| - 1])
  }

  function MaxOf(s: seq<real>): (m: real)
    requires |s| > 0
    ensures IsMax(m, s)
  {
    if |s| == 1 then s[0]
    else
      assert s == s[..|s| - 1] + [s[|s| - 1]];
      Max(MaxOf(s[..|s| - 1]), s[|s| - 1])
  }

  /** The minimum depends only on which values occur, not on their order or
      multiplicity. */
  lemma MinOfSameValues(s: seq<real>, t: seq<real>)
    requires |s| > 0 && forall x :: x in s <==> x in t
    ensures |t| > 0 && MinOf(s) == MinOf(t)
  {
    assert MinOf(s) in t;
    assert MinOf(t) in s;
  }

  lemma MaxOfSameValues(s: seq<real>, t: seq<real>)
    requires |s| > 0 && forall x :: x in s <==> x in t
    ensures |t| > 0 && MaxOf(s) == MaxOf(t)
  {
    assert MaxOf(s) in t;
    assert MaxOf(t) in s;
  }

  lemma MinOfConcat(s: seq<real>, t: seq<real>)
    requires |s| > 0 && |t| > 0
    ensures MinOf(s + t) == Min(MinOf(s), MinOf(t))
  {
    var m := Min(MinOf(s), MinOf(t));
    assert m in s + t;
    assert forall x :: x in s + t ==> x in s || x in t;
  }

  lemma MaxOfConcat(s: seq<real>, t: seq<real>)
    requires |s| > 0 && |t| > 0
    ensures MaxOf(s + t) == Max(MaxOf(s), MaxOf(t))
  {
    var m := Max(MaxOf(s), MaxOf(t));
    assert m in s + t;
    assert forall x :: x in s + t ==> x in s || x in t;
  }

  /** The x coordinates of a point list (keypoints[0::2] in the source). */
  function Xs(ps: seq<Point>): seq<real>
  {
    seq(|ps|, i requires 0 <= i < |ps| => ps[i].x)
  }

  /** The y coordinates of a point list (keypoints[1::2] in the source). */
  function Ys(ps: seq<Point>): seq<real>
  {
    seq(|ps|, i requires 0 <= i < |ps| => ps[i].y)
  }

  /** A value occurs among the x (y) coordinates exactly when some point has
      it as its x (y). */
  lemma ProjectionMembers(ps: seq<Point>)
    ensures forall p :: p in ps ==> p.x in Xs(ps) && p.y in Ys(ps)
    ensures forall x :: x in Xs(ps) ==> exists p :: p in ps && p.x == x
    ensures forall y :: y in Ys(ps) ==> exists p :: p in ps && p.y == y
  {
    forall p | p in ps
      ensures p.x in Xs(ps) && p.y in Ys(ps)
    {
      var i :| 0 <= i < |ps| && ps[i] == p;
      assert Xs(ps)[i] == p.x && Ys(ps)[i] == p.y;
    }
    forall x | x in Xs(ps)
      ensures exists p :: p in ps && p.x == x
    {
      var i :| 0 <= i < |Xs(ps)| && Xs(ps)[i] == x;
      assert ps[i] in ps;
    }
    forall y | y in Ys(ps)
      ensures exists p :: p in ps && p.y == y
    {
      var i :| 0 <= i < |Ys(ps)| && Ys(ps)[i] == y;
      assert ps[i] in ps;
    }
  }

  lemma ProjectionsAppend(a: seq<Point>, b: seq<Point>)
    ensures Xs(a + b) == Xs(a) + Xs(b) && Ys(a + b) == Ys(a) + Ys(b)
  {
  }

  /** An axis-aligned box in pixel space. */
  datatype Box = Box(xMin: real, yMin: real, xMax: real, yMax: real)

  /** The smallest box holding every point: extremal x and extremal y taken
      independently. */
  function Envelope(ps: seq<Point>): (b: Box)
    requires |ps| > 0
    ensures forall p :: p in ps ==> b.xMin <= p.x <= b.xMax && b.yMin <= p.y <= b.yMax
    ensures exists p :: p in ps && p.x == b.xMin
    ensures exists p :: p in ps && p.y == b.yMin
    ensures exists p :: p in ps && p.x == b.xMax
    ensures exists p :: p in ps && p.y == b.yMax
  {
    ProjectionMembers(ps);
    Box(MinOf(Xs(ps)), MinOf(Ys(ps)), MaxOf(Xs(ps)), MaxOf(Ys(ps)))
  }

  /** The smallest box holding two boxes. */
  function Join(a: Box, b: Box): Box
  {
    Box(Min(a.xMin, b.xMin), Min(a.yMin, b.yMin), Max(a.xMax, b.xMax), Max(a.yMax, b.yMax))
  }

  /** The envelope of two point lists put together joins their envelopes. */
  lemma EnvelopeAppend(a: seq<Point>, b: seq<Point>)
    requires |a| > 0 && |b| > 0
    ensures Envelope(a + b) == Join(Envelope(a), Envelope(b))
  {
    ProjectionsAppend(a, b);
    MinOfConcat(Xs(a), Xs(b));
    MinOfConcat(Ys(a), Ys(b));
    MaxOfConcat(Xs(a), Xs(b));
    MaxOfConcat(Ys(a), Ys(b));
  }

  /** Point lists with the same members have the same coordinate values. */
  lemma SameProjections(a: seq<Point>, b: seq<Point>)
    requires forall p :: p in a <==> p in b
    ensures forall x :: x in Xs(a) <==> x in Xs(b)
    ensures forall y :: y in Ys(a) <==> y in Ys(b)
  {
    forall x | x in Xs(a) ensures x in Xs(b) {
      IntoOther(a, b, x);
    }
    forall x | x in Xs(b) ensures x in Xs(a) {
      IntoOther(b, a, x);
    }
    forall y | y in Ys(a) ensures y in Ys(b) {
      IntoOther(a, b, y);
    }
    forall y | y in Ys(b) ensures y in Ys(a) {
      IntoOther(b, a, y);
    }
  }

  lemma IntoOther(a: seq<Point>, b: seq<Point>, v: real)
    requires forall p :: p in a ==> p in b
    ensures v in Xs(a) ==> v in Xs(b)
    ensures v in Ys(a) ==> v in Ys(b)
  {
    if v in Xs(a) {
      var i :| 0 <= i < |a| && Xs(a)[i] == v;
      assert a[i] in a;
      var j :| 0 <= j < |b| && b[j] == a[i];
      assert Xs(b)[j] == v;
    }
    if v in Ys(a) {
      var i :| 0 <= i < |a| && Ys(a)[i] == v;
      assert a[i] in a;
      var j :| 0 <= j < |b| && b[j] == a[i];
      assert Ys(b)[j] == v;
    }
  }

  /** The envelope depends only on which points occur. */
  lemma EnvelopeSamePoints(a: seq<Point>, b: seq<Point>)
    requires |a| > 0 && forall p :: p in a <==> p in b
    ensures |b| > 0 && Envelope(a) == Envelope(b)
  {
    assert a[0] in b;
    SameProjections(a, b);
    MinOfSameValues(Xs(a), Xs(b));
    MinOfSameValues(Ys(a), Ys(b));
    MaxOfSameValues(Xs(a), Xs(b));
    MaxOfSameValues(Ys(a), Ys(b));
  }
}
