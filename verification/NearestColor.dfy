/** Corrected colours are the nearest ones: exactly when. */
module NearestColor {
  import opened ColorGamut
  import opened Colors

  function Distance2(p: XY, q: XY): real {
    Dot(p, p, q)
  }

  // --- The case analysis ---

  lemma SignsAddUp(p: XY, a: XY, b: XY, c: XY)
    ensures Sign(p, a, b) + Sign(p, b, c) + Sign(p, c, a) == Sign(a, b, c)
  {
  }

  /** The branches cover all points: none is right of all three sides, so there is no fourth kind of corner. */
  lemma CasesAreComplete(g: Gamut, xy: XY)
    requires CounterClockwise(g)
    ensures !(IsRightOf(xy, g.red, g.green) && IsRightOf(xy, g.green, g.blue) && IsRightOf(xy, g.blue, g.red))
  {
    SignsAddUp(xy, g.red, g.green, g.blue);
  }

  /** The points that stay where they are are those inside, including the sides. */
  lemma FixedIffInside(g: Gamut, xy: XY)
    requires CounterClockwise(g)
    ensures Corrected(g, xy) == xy <==> Contains(g, xy)
  {
    SidesHaveLength(g);
    CornersAreInside(g);
    if IsRightOf(xy, g.red, g.green) && !IsRightOf(xy, g.green, g.blue) && !IsRightOf(xy, g.blue, g.red) {
      ProjectionIsOnTheLine(xy, g.red, g.green);
    } else if IsRightOf(xy, g.green, g.blue) && !IsRightOf(xy, g.red, g.green) && !IsRightOf(xy, g.blue, g.red) {
      ProjectionIsOnTheLine(xy, g.green, g.blue);
    } else if IsRightOf(xy, g.blue, g.red) && !IsRightOf(xy, g.red, g.green) && !IsRightOf(xy, g.green, g.blue) {
      ProjectionIsOnTheLine(xy, g.blue, g.red);
    }
  }

  lemma ProjectionIsOnTheLine(xy: XY, p1: XY, p2: XY)
    requires Dot(p2, p2, p1) != 0.0
    ensures Sign(ProjectOntoLine(xy, p1, p2), p1, p2) == 0.0
  {
    var k := Foot(xy, p1, p2);
    FootTimesLength(xy, p1, p2);
    ProjectionIsFoot(xy, p1, p2, k);
    SignsOnALine(p1, p2, p1, k, ProjectOntoLine(xy, p1, p2), Sign(p1, p2, p1));
  }

  // --- Vectors from a common origin ---

  /** The scalar product of a point of the cone opposite a corner with a point of the triangle, in terms of the
      sides (ax, ay) and (cx, cy) at that corner. */
  lemma OppositeCone(ax: real, ay: real, cx: real, cy: real, u: real, v: real, s: real, t: real)
    requires u <= 0.0 && v <= 0.0 && s >= 0.0 && t >= 0.0 && ax * cx + ay * cy >= 0.0
    ensures (u * ax + v * cx) * (s * ax + t * cx) + (u * ay + v * cy) * (s * ay + t * cy) <= 0.0
  {
    var aa, ac, cc := ax * ax + ay * ay, ax * cx + ay * cy, cx * cx + cy * cy;
    assert (u * ax + v * cx) * (s * ax + t * cx) + (u * ay + v * cy) * (s * ay + t * cy)
        == (u * s) * aa + (u * t + v * s) * ac + (v * t) * cc;
    SquareIsPositive(ax, ax * ax);
    SquareIsPositive(ay, ay * ay);
    SquareIsPositive(cx, cx * cx);
    SquareIsPositive(cy, cy * cy);
    NotPositive(u, s);
    NotPositive(u, t);
    NotPositive(v, s);
    NotPositive(v, t);
    NotPositive(u * s, aa);
    NotPositive(u * t + v * s, ac);
    NotPositive(v * t, cc);
  }

  /** Coordinates of a point along the two sides at corner b, scaled by the area. */
  lemma AlongTheSides(p: XY, a: XY, b: XY, c: XY)
    ensures Sign(a, b, c) * (p.x - b.x) == Sign(p, b, c) * (a.x - b.x) + Sign(p, a, b) * (c.x - b.x)
    ensures Sign(a, b, c) * (p.y - b.y) == Sign(p, b, c) * (a.y - b.y) + Sign(p, a, b) * (c.y - b.y)
  {
  }

  lemma ScaledDot(k: real, x1: real, x2: real, y1: real, y2: real)
    requires k > 0.0 && (k * x1) * (k * x2) + (k * y1) * (k * y2) <= 0.0
    ensures x1 * x2 + y1 * y2 <= 0.0
  {
    var d := x1 * x2 + y1 * y2;
    var scaled := k * d;
    assert (k * x1) * (k * x2) + (k * y1) * (k * y2) == k * scaled;
    if d > 0.0 {
      ProductIsPositive(k, d, scaled);
      ProductIsPositive(k, scaled, k * scaled);
    }
  }

  lemma FartherBehind(x: XY, b: XY, q: XY)
    requires Dot(x, q, b) <= 0.0
    ensures Distance2(x, b) <= Distance2(x, q)
  {
    SquareIsPositive(q.x - b.x, (q.x - b.x) * (q.x - b.x));
    SquareIsPositive(q.y - b.y, (q.y - b.y) * (q.y - b.y));
    assert Distance2(x, q) == Distance2(x, b) + Distance2(q, b) - 2.0 * Dot(x, q, b);
  }

  /** The same for points given by their coordinates, which are scaled by the area k. */
  lemma ScaledCone(k: real, ax: real, ay: real, cx: real, cy: real, u: real, v: real, s: real, t: real,
                   xx: real, xy: real, qx: real, qy: real)
    requires k > 0.0 && u <= 0.0 && v <= 0.0 && s >= 0.0 && t >= 0.0 && ax * cx + ay * cy >= 0.0
    requires k * xx == u * ax + v * cx && k * xy == u * ay + v * cy
    requires k * qx == s * ax + t * cx && k * qy == s * ay + t * cy
    ensures xx * qx + xy * qy <= 0.0
  {
    OppositeCone(ax, ay, cx, cy, u, v, s, t);
    ScaledDot(k, xx, qx, xy, qy);
  }

  /** With the signs k, u and v and the differences from the corner as variables. */
  lemma AlongTheSidesAt(p: XY, a: XY, b: XY, c: XY, k: real, ax: real, ay: real, cx: real, cy: real, px: real, py: real)
    returns (u: real, v: real)
    requires k == Sign(a, b, c) && px == p.x - b.x && py == p.y - b.y
    requires ax == a.x - b.x && ay == a.y - b.y && cx == c.x - b.x && cy == c.y - b.y
    ensures u == Sign(p, b, c) && v == Sign(p, a, b)
    ensures k * px == u * ax + v * cx && k * py == u * ay + v * cy
  {
    u, v := Sign(p, b, c), Sign(p, a, b);
    AlongTheSides(p, a, b, c);
  }

  lemma ConeInCoordinates(a: XY, b: XY, c: XY, x: XY, q: XY, k: real, ax: real, ay: real, cx: real, cy: real,
                          xx: real, xy: real, qx: real, qy: real)
    requires ax == a.x - b.x && ay == a.y - b.y && cx == c.x - b.x && cy == c.y - b.y
    requires xx == x.x - b.x && xy == x.y - b.y && qx == q.x - b.x && qy == q.y - b.y
    requires k == Sign(a, b, c) > 0.0 && Dot(a, c, b) >= 0.0
    requires Sign(x, a, b) <= 0.0 && Sign(x, b, c) <= 0.0
    requires Sign(q, a, b) >= 0.0 && Sign(q, b, c) >= 0.0
    ensures Dot(x, q, b) <= 0.0
  {
    var u, v := AlongTheSidesAt(x, a, b, c, k, ax, ay, cx, cy, xx, xy);
    var s, t := AlongTheSidesAt(q, a, b, c, k, ax, ay, cx, cy, qx, qy);
    DotAt(a, c, b, ax, ay, cx, cy);
    ScaledCone(k, ax, ay, cx, cy, u, v, s, t, xx, xy, qx, qy);
    DotAt(x, q, b, xx, xy, qx, qy);
  }

  /** From the cone opposite a corner that is not obtuse, the corner is the nearest point of the triangle. */
  lemma CornerIsNearest(a: XY, b: XY, c: XY, x: XY, q: XY)
    requires Sign(a, b, c) > 0.0 && Dot(a, c, b) >= 0.0
    requires Sign(x, a, b) <= 0.0 && Sign(x, b, c) <= 0.0
    requires Sign(q, a, b) >= 0.0 && Sign(q, b, c) >= 0.0
    ensures Distance2(x, b) <= Distance2(x, q)
  {
    ConeInCoordinates(a, b, c, x, q, Sign(a, b, c), a.x - b.x, a.y - b.y, c.x - b.x, c.y - b.y,
                      x.x - b.x, x.y - b.y, q.x - b.x, q.y - b.y);
    FartherBehind(x, b, q);
  }

  // --- Corners of any angle ---

  /** The point lies behind the corner b as seen from both neighbouring corners. */
  predicate Behind(x: XY, a: XY, b: XY, c: XY) {
    Dot(x, a, b) <= 0.0 && Dot(x, c, b) <= 0.0
  }

  lemma CombineDots(k: real, u: real, v: real, ax: real, ay: real, cx: real, cy: real,
                    xx: real, xy: real, qx: real, qy: real)
    requires k > 0.0 && u >= 0.0 && v >= 0.0 && k * qx == u * ax + v * cx && k * qy == u * ay + v * cy
    requires xx * ax + xy * ay <= 0.0 && xx * cx + xy * cy <= 0.0
    ensures xx * qx + xy * qy <= 0.0
  {
    var d, da, dc := xx * qx + xy * qy, xx * ax + xy * ay, xx * cx + xy * cy;
    SumUp(k, u, v, ax, ay, cx, cy, xx, xy, qx, qy);
    NotPositive(da, u);
    NotPositive(dc, v);
    if d > 0.0 {
      ProductIsPositive(k, d, k * d);
    }
  }

  lemma SumUp(k: real, u: real, v: real, ax: real, ay: real, cx: real, cy: real, xx: real, xy: real, qx: real, qy: real)
    requires k * qx == u * ax + v * cx && k * qy == u * ay + v * cy
    ensures k * (xx * qx + xy * qy) == (xx * ax + xy * ay) * u + (xx * cx + xy * cy) * v
  {
    assert k * (xx * qx + xy * qy) == xx * (k * qx) + xy * (k * qy);
    assert xx * (u * ax + v * cx) + xy * (u * ay + v * cy) == (xx * ax + xy * ay) * u + (xx * cx + xy * cy) * v;
  }

  lemma BehindInCoordinates(a: XY, b: XY, c: XY, x: XY, q: XY, k: real, ax: real, ay: real, cx: real, cy: real,
                            xx: real, xy: real, qx: real, qy: real)
    requires ax == a.x - b.x && ay == a.y - b.y && cx == c.x - b.x && cy == c.y - b.y
    requires xx == x.x - b.x && xy == x.y - b.y && qx == q.x - b.x && qy == q.y - b.y
    requires k == Sign(a, b, c) > 0.0 && Behind(x, a, b, c) && Sign(q, a, b) >= 0.0 && Sign(q, b, c) >= 0.0
    ensures Dot(x, q, b) <= 0.0
  {
    var u, v := AlongTheSidesAt(q, a, b, c, k, ax, ay, cx, cy, qx, qy);
    DotAt(x, a, b, xx, xy, ax, ay);
    DotAt(x, c, b, xx, xy, cx, cy);
    CombineDots(k, u, v, ax, ay, cx, cy, xx, xy, qx, qy);
    DotAt(x, q, b, xx, xy, qx, qy);
  }

  lemma BehindIsNearest(a: XY, b: XY, c: XY, x: XY, q: XY)
    requires Sign(a, b, c) > 0.0 && Behind(x, a, b, c) && Sign(q, a, b) >= 0.0 && Sign(q, b, c) >= 0.0
    ensures Distance2(x, b) <= Distance2(x, q)
  {
    BehindInCoordinates(a, b, c, x, q, Sign(a, b, c), a.x - b.x, a.y - b.y, c.x - b.x, c.y - b.y,
                        x.x - b.x, x.y - b.y, q.x - b.x, q.y - b.y);
    FartherBehind(x, b, q);
  }

  /** A fraction of the way along a side that uses up less than twice the scalar product. */
  lemma ShortWay(aa: real, d: real) returns (t: real)
    requires aa > 0.0 && d > 0.0
    ensures 0.0 < t <= 1.0 && t * aa < 2.0 * d
  {
    t := d / aa;
    assert t * aa == d;
    assert t > 0.0;
    if t > 1.0 {
      ProductIsPositive(t - 1.0, aa, (t - 1.0) * aa);
      t := 1.0;
    }
  }

  /** A point that is not behind the corner is nearer to some point of a side at the corner. */
  lemma NotBehind(a: XY, b: XY, c: XY, x: XY) returns (q: XY)
    requires Sign(a, b, c) > 0.0 && Dot(a, a, b) > 0.0 && Dot(c, c, b) > 0.0 && !Behind(x, a, b, c)
    ensures Sign(q, a, b) >= 0.0 && Sign(q, b, c) >= 0.0 && Sign(q, c, a) >= 0.0
    ensures Distance2(x, q) < Distance2(x, b)
  {
    if Dot(x, a, b) > 0.0 {
      q := NearerTowardA(a, b, c, x);
    } else {
      q := NearerTowardC(a, b, c, x);
    }
  }

  lemma NearerTowardA(a: XY, b: XY, c: XY, x: XY) returns (q: XY)
    requires Sign(a, b, c) > 0.0 && Dot(a, a, b) > 0.0 && Dot(x, a, b) > 0.0
    ensures Sign(q, a, b) >= 0.0 && Sign(q, b, c) >= 0.0 && Sign(q, c, a) >= 0.0
    ensures Distance2(x, q) < Distance2(x, b)
  {
    var t := ShortWay(Dot(a, a, b), Dot(x, a, b));
    q := PointOnSide(a, b, c, t);
    CloserAlong(a, b, x, q, t);
  }

  lemma NearerTowardC(a: XY, b: XY, c: XY, x: XY) returns (q: XY)
    requires Sign(a, b, c) > 0.0 && Dot(c, c, b) > 0.0 && Dot(x, c, b) > 0.0
    ensures Sign(q, a, b) >= 0.0 && Sign(q, b, c) >= 0.0 && Sign(q, c, a) >= 0.0
    ensures Distance2(x, q) < Distance2(x, b)
  {
    var t := ShortWay(Dot(c, c, b), Dot(x, c, b));
    q := PointOnOtherSide(a, b, c, t);
    CloserAlong(c, b, x, q, t);
  }

  // --- Sides ---

  /** How far along the side from p1 to p2 the foot of the perpendicular lies: 0 at p1, 1 at p2. */
  function Foot(xy: XY, p1: XY, p2: XY): real
    requires Dot(p2, p2, p1) != 0.0
  {
    Dot(xy, p2, p1) / Dot(p2, p2, p1)
  }

  lemma DivideFactor(a: real, b: real, c: real, k: real)
    requires c != 0.0 && b == k * c
    ensures a * b / c == a * k
  {
    var r := a * b / c;
    assert r * c == a * b;
    assert r * c == (a * k) * c;
  }

  lemma ProjectAt(xy: XY, p1: XY, p2: XY, abX: real, abY: real, l: real, d: real)
    requires l != 0.0 && l == Dot(p2, p2, p1) && d == Dot(xy, p2, p1) && abX == p2.x - p1.x && abY == p2.y - p1.y
    ensures ProjectOntoLine(xy, p1, p2) == XY(p1.x + abX * d / l, p1.y + abY * d / l)
  {
  }

  lemma ProjectAtFoot(xy: XY, p1: XY, p2: XY, abX: real, abY: real, l: real, d: real, k: real) returns (e: XY)
    requires l != 0.0 && l == Dot(p2, p2, p1) && d == Dot(xy, p2, p1) && abX == p2.x - p1.x && abY == p2.y - p1.y
    requires d == k * l
    ensures e == ProjectOntoLine(xy, p1, p2) == XY(p1.x + abX * k, p1.y + abY * k)
  {
    e := XY(p1.x + abX * d / l, p1.y + abY * d / l);
    ProjectAt(xy, p1, p2, abX, abY, l, d);
    DivideFactor(abX, d, l, k);
    DivideFactor(abY, d, l, k);
  }

  lemma FootTimesLength(xy: XY, p1: XY, p2: XY)
    requires Dot(p2, p2, p1) != 0.0
    ensures Dot(xy, p2, p1) == Foot(xy, p1, p2) * Dot(p2, p2, p1)
  {
  }

  /** The projection is the point at k along the line. */
  lemma ProjectionIsFoot(xy: XY, p1: XY, p2: XY, k: real)
    requires Dot(p2, p2, p1) != 0.0 && Dot(xy, p2, p1) == k * Dot(p2, p2, p1)
    ensures ProjectOntoLine(xy, p1, p2) == XY(p1.x + (p2.x - p1.x) * k, p1.y + (p2.y - p1.y) * k)
  {
    var e := ProjectAtFoot(xy, p1, p2, p2.x - p1.x, p2.y - p1.y, Dot(p2, p2, p1), Dot(xy, p2, p1), k);
  }

  lemma ProjectionAndFoot(xy: XY, p1: XY, p2: XY) returns (k: real, e: XY)
    requires Dot(p2, p2, p1) != 0.0
    ensures k == Foot(xy, p1, p2) && e == ProjectOntoLine(xy, p1, p2)
    ensures e == XY(p1.x + (p2.x - p1.x) * k, p1.y + (p2.y - p1.y) * k)
  {
    k, e := Foot(xy, p1, p2), ProjectOntoLine(xy, p1, p2);
    FootTimesLength(xy, p1, p2);
    ProjectionIsFoot(xy, p1, p2, k);
  }

  /** Where a point of a side's line lies with respect to the three sides. */
  lemma SignsOnALine(a: XY, b: XY, c: XY, k: real, e: XY, area: real)
    requires e == XY(a.x + (b.x - a.x) * k, a.y + (b.y - a.y) * k) && area == Sign(a, b, c)
    ensures Sign(e, a, b) == 0.0 && Sign(e, b, c) == (1.0 - k) * area && Sign(e, c, a) == k * area
  {
  }

  /** The vector from the foot (fx, fy) to the point (xx, xy) is perpendicular to the side (dx, dy) of squared
      length l. */
  lemma Perpendicular(dx: real, dy: real, xx: real, xy: real, fx: real, fy: real, k: real, l: real)
    requires l == dx * dx + dy * dy && k * l == xx * dx + xy * dy && fx == dx * k && fy == dy * k
    ensures l * (xx - fx) == -dy * (dx * xy - dy * xx)
    ensures l * (xy - fy) == dx * (dx * xy - dy * xx)
  {
    assert l * fx == dx * (k * l);
    assert l * fy == dy * (k * l);
    assert l * xx == dx * dx * xx + dy * dy * xx;
    assert l * xy == dx * dx * xy + dy * dy * xy;
    assert dx * (k * l) == dx * xx * dx + dx * xy * dy;
    assert dy * (k * l) == dy * xx * dx + dy * xy * dy;
  }

  /** From outside the side, it turns away from any point (qx, qy) on the inner side. */
  lemma PerpendicularDot(dx: real, dy: real, xx: real, xy: real, qx: real, qy: real, fx: real, fy: real,
                         k: real, l: real)
    requires l == dx * dx + dy * dy && l > 0.0 && k * l == xx * dx + xy * dy && fx == dx * k && fy == dy * k
    requires dx * xy - dy * xx <= 0.0 && dx * qy - dy * qx >= 0.0
    ensures (xx - fx) * (qx - fx) + (xy - fy) * (qy - fy) <= 0.0
  {
    Perpendicular(dx, dy, xx, xy, fx, fy, k, l);
    var s, t := dx * xy - dy * xx, dx * qy - dy * qx;
    DotByCross(dx, dy, xx - fx, xy - fy, qx - fx, qy - fy, l, s);
    assert dx * (qy - fy) - dy * (qx - fx) == t;
    NotPositive(s, t);
    var d := (xx - fx) * (qx - fx) + (xy - fy) * (qy - fy);
    if d > 0.0 {
      ProductIsPositive(l, d, l * d);
    }
  }

  lemma DotByCross(dx: real, dy: real, ux: real, uy: real, vx: real, vy: real, l: real, s: real)
    requires l * ux == -dy * s && l * uy == dx * s
    ensures l * (ux * vx + uy * vy) == s * (dx * vy - dy * vx)
  {
    assert l * (ux * vx + uy * vy) == (l * ux) * vx + (l * uy) * vy;
    assert (-dy * s) * vx + (dx * s) * vy == s * (dx * vy - dy * vx);
  }

  lemma NotPositive(s: real, t: real)
    requires s <= 0.0 && t >= 0.0
    ensures s * t <= 0.0
  {
  }

  /** From outside a side, the foot of the perpendicular is nearer than any point on the inner side of the line. */
  lemma FootIsNearest(x: XY, a: XY, b: XY, q: XY)
    requires Dot(b, b, a) > 0.0 && Sign(x, a, b) <= 0.0 && Sign(q, a, b) >= 0.0
    ensures Distance2(x, ProjectOntoLine(x, a, b)) <= Distance2(x, q)
  {
    var k := Foot(x, a, b);
    FootTimesLength(x, a, b);
    ProjectionIsFoot(x, a, b, k);
    var e := ProjectOntoLine(x, a, b);
    FootTurnsAway(x, a, b, q, e, k);
    FartherBehind(x, e, q);
  }

  lemma FootTurnsAway(x: XY, a: XY, b: XY, q: XY, e: XY, k: real)
    requires Dot(b, b, a) > 0.0 && k * Dot(b, b, a) == Dot(x, b, a)
    requires e.x - a.x == (b.x - a.x) * k && e.y - a.y == (b.y - a.y) * k
    requires Sign(x, a, b) <= 0.0 && Sign(q, a, b) >= 0.0
    ensures Dot(x, q, e) <= 0.0
  {
    InCoordinates(x, a, b, q, e, k, b.x - a.x, b.y - a.y, x.x - a.x, x.y - a.y, q.x - a.x, q.y - a.y, Dot(b, b, a));
  }

  /** The same, with the differences as variables. */
  lemma InCoordinates(x: XY, a: XY, b: XY, q: XY, e: XY, k: real,
                      dx: real, dy: real, xx: real, xy: real, qx: real, qy: real, l: real)
    requires dx == b.x - a.x && dy == b.y - a.y && xx == x.x - a.x && xy == x.y - a.y
    requires qx == q.x - a.x && qy == q.y - a.y && l == Dot(b, b, a)
    requires l > 0.0 && k * l == Dot(x, b, a) && e.x - a.x == dx * k && e.y - a.y == dy * k
    requires Sign(x, a, b) <= 0.0 && Sign(q, a, b) >= 0.0
    ensures Dot(x, q, e) <= 0.0
  {
    DotAt(b, b, a, dx, dy, dx, dy);
    DotAt(x, b, a, xx, xy, dx, dy);
    CrossAt(x, a, b, dx, dy, xx, xy);
    CrossAt(q, a, b, dx, dy, qx, qy);
    var fx, fy := e.x - a.x, e.y - a.y;
    PerpendicularDot(dx, dy, xx, xy, qx, qy, fx, fy, k, l);
    DotAt(x, q, e, xx - fx, xy - fy, qx - fx, qy - fy);
  }

  lemma DotAt(p: XY, q: XY, o: XY, px: real, py: real, qx: real, qy: real)
    requires px == p.x - o.x && py == p.y - o.y && qx == q.x - o.x && qy == q.y - o.y
    ensures Dot(p, q, o) == px * qx + py * qy
  {
  }

  lemma CrossAt(p: XY, a: XY, b: XY, dx: real, dy: real, px: real, py: real)
    requires dx == b.x - a.x && dy == b.y - a.y && px == p.x - a.x && py == p.y - a.y
    ensures Sign(p, a, b) == dx * py - dy * px
  {
    assert Sign(p, a, b) == (b.x - a.x) * (p.y - a.y) - (b.y - a.y) * (p.x - a.x);
  }

  // --- All points ---

  /** None of the triangle's angles is obtuse. */
  predicate NonObtuse(g: Gamut) {
    && Dot(g.blue, g.green, g.red) >= 0.0
    && Dot(g.red, g.blue, g.green) >= 0.0
    && Dot(g.green, g.red, g.blue) >= 0.0
  }

  /** In the triangle, and no point of the triangle is nearer. */
  ghost predicate IsNearest(g: Gamut, xy: XY, r: XY) {
    Contains(g, r) && forall q | Contains(g, q) :: Distance2(xy, r) <= Distance2(xy, q)
  }

  predicate OnSide(xy: XY, p1: XY, p2: XY)
    requires Dot(p2, p2, p1) != 0.0
  {
    0.0 <= Foot(xy, p1, p2) <= 1.0
  }

  /** If the point is corrected by projection, the foot lies on the side. */
  predicate FootWithin(g: Gamut, xy: XY)
    requires CounterClockwise(g)
  {
    SidesHaveLength(g);
    var rg, gb, br := IsRightOf(xy, g.red, g.green), IsRightOf(xy, g.green, g.blue), IsRightOf(xy, g.blue, g.red);
    && (rg && !gb && !br ==> OnSide(xy, g.red, g.green))
    && (gb && !rg && !br ==> OnSide(xy, g.green, g.blue))
    && (br && !rg && !gb ==> OnSide(xy, g.blue, g.red))
  }

  /** If the point is corrected to a corner, it lies behind that corner. */
  predicate BehindItsCorner(g: Gamut, xy: XY) {
    var rg, gb, br := IsRightOf(xy, g.red, g.green), IsRightOf(xy, g.green, g.blue), IsRightOf(xy, g.blue, g.red);
    && (rg && gb ==> Behind(xy, g.red, g.green, g.blue))
    && (rg && br ==> Behind(xy, g.blue, g.red, g.green))
    && (gb && br ==> Behind(xy, g.green, g.blue, g.red))
  }

  lemma CornersAreInside(g: Gamut)
    requires CounterClockwise(g)
    ensures Contains(g, g.red) && Contains(g, g.green) && Contains(g, g.blue)
    ensures Sign(g.green, g.blue, g.red) == Area(g) && Sign(g.blue, g.red, g.green) == Area(g)
  {
  }

  lemma ScaledSign(k: real, area: real)
    requires area > 0.0
    ensures k * area >= 0.0 <==> k >= 0.0
  {
    if k < 0.0 {
      ProductIsPositive(-k, area, -(k * area));
    }
  }

  /** The triangle in terms of its sides, starting from any corner. */
  ghost predicate Spans(g: Gamut, a: XY, b: XY, c: XY) {
    && Sign(a, b, c) > 0.0 && Dot(b, b, a) > 0.0 && Dot(a, a, b) > 0.0 && Dot(c, c, b) > 0.0 && Contains(g, b)
    && forall p :: Contains(g, p) <==> Sign(p, a, b) >= 0.0 && Sign(p, b, c) >= 0.0 && Sign(p, c, a) >= 0.0
  }

  lemma SpansFromAllCorners(g: Gamut)
    requires CounterClockwise(g)
    ensures Spans(g, g.red, g.green, g.blue) && Spans(g, g.green, g.blue, g.red) && Spans(g, g.blue, g.red, g.green)
  {
    CornersAreInside(g);
    SidesHaveLength(g);
    SideHasLength(g.green, g.red);
    SideHasLength(g.blue, g.green);
    SideHasLength(g.red, g.blue);
  }

  /** A projection stays in the triangle exactly when its foot is on the side. */
  lemma ProjectionIsInsideIff(g: Gamut, a: XY, b: XY, c: XY, x: XY)
    requires Spans(g, a, b, c)
    ensures Contains(g, ProjectOntoLine(x, a, b)) <==> OnSide(x, a, b)
  {
    var k, e := ProjectionAndFoot(x, a, b);
    PointOfLineIsInsideIff(g, a, b, c, k, e, Sign(a, b, c));
  }

  lemma PointOfLineIsInsideIff(g: Gamut, a: XY, b: XY, c: XY, k: real, e: XY, area: real)
    requires Spans(g, a, b, c) && e == XY(a.x + (b.x - a.x) * k, a.y + (b.y - a.y) * k) && area == Sign(a, b, c)
    ensures Contains(g, e) <==> 0.0 <= k <= 1.0
  {
    SignsOnALine(a, b, c, k, e, area);
    ScaledSign(k, area);
    ScaledSign(1.0 - k, area);
  }

  /** It is then the nearest point. */
  lemma ProjectionIsNearestIff(g: Gamut, a: XY, b: XY, c: XY, x: XY)
    requires Spans(g, a, b, c) && Sign(x, a, b) < 0.0
    ensures IsNearest(g, x, ProjectOntoLine(x, a, b)) <==> OnSide(x, a, b)
  {
    var e := ProjectOntoLine(x, a, b);
    ProjectionIsInsideIff(g, a, b, c, x);
    forall q | Contains(g, q)
      ensures Distance2(x, e) <= Distance2(x, q)
    {
      FootIsNearest(x, a, b, q);
    }
  }

  /** A corner is the nearest point exactly when the point lies behind it. */
  lemma CornerIsNearestIff(g: Gamut, a: XY, b: XY, c: XY, x: XY)
    requires Spans(g, a, b, c)
    ensures IsNearest(g, x, b) <==> Behind(x, a, b, c)
  {
    if Behind(x, a, b, c) {
      forall q | Contains(g, q)
        ensures Distance2(x, b) <= Distance2(x, q)
      {
        BehindIsNearest(a, b, c, x, q);
      }
    } else {
      var q := NotBehind(a, b, c, x);
      assert Contains(g, q);
    }
  }

  lemma InsideIsNearest(g: Gamut, xy: XY)
    requires Contains(g, xy)
    ensures IsNearest(g, xy, xy)
  {
    forall q
      ensures Distance2(xy, xy) <= Distance2(xy, q)
    {
      DistanceIsPositive(xy, q);
    }
  }

  lemma DistanceIsPositive(p: XY, q: XY)
    ensures Distance2(p, p) == 0.0 <= Distance2(p, q)
  {
    SquareIsPositive(p.x - q.x, (p.x - q.x) * (p.x - q.x));
    SquareIsPositive(p.y - q.y, (p.y - q.y) * (p.y - q.y));
  }

  /** The corrected colour is one the light can show exactly when the foot condition holds. */
  lemma CorrectedIsInsideIff(g: Gamut, xy: XY)
    requires CounterClockwise(g)
    ensures Contains(g, Corrected(g, xy)) <==> FootWithin(g, xy)
  {
    var r, gr, b := g.red, g.green, g.blue;
    SpansFromAllCorners(g);
    SignsAddUp(xy, r, gr, b);
    ProjectionIsInsideIff(g, r, gr, b, xy);
    ProjectionIsInsideIff(g, gr, b, r, xy);
    ProjectionIsInsideIff(g, b, r, gr, xy);
  }

  /** For any gamut and any point: the corrected colour is the nearest one the light can show, exactly when the
      foot of a projection lies on its side, and a point that is moved to a corner lies behind it. */
  lemma CorrectedIsNearestIff(g: Gamut, xy: XY)
    requires CounterClockwise(g)
    ensures IsNearest(g, xy, Corrected(g, xy)) <==> FootWithin(g, xy) && BehindItsCorner(g, xy)
  {
    var r, gr, b := g.red, g.green, g.blue;
    SpansFromAllCorners(g);
    SignsAddUp(xy, r, gr, b);
    if IsRightOf(xy, r, gr) {
      if IsRightOf(xy, gr, b) {
        CornerIsNearestIff(g, r, gr, b, xy);
      } else if IsRightOf(xy, b, r) {
        CornerIsNearestIff(g, b, r, gr, xy);
      } else {
        ProjectionIsNearestIff(g, r, gr, b, xy);
      }
    } else if IsRightOf(xy, gr, b) {
      if IsRightOf(xy, b, r) {
        CornerIsNearestIff(g, gr, b, r, xy);
      } else {
        ProjectionIsNearestIff(g, gr, b, r, xy);
      }
    } else if IsRightOf(xy, b, r) {
      ProjectionIsNearestIff(g, b, r, gr, xy);
    } else {
      InsideIsNearest(g, xy);
    }
  }

  /** At a corner that is not obtuse, all points of the opposite cone lie behind it. */
  lemma ConeIsBehind(g: Gamut, a: XY, b: XY, c: XY, x: XY)
    requires Spans(g, a, b, c) && Dot(a, c, b) >= 0.0 && Sign(x, a, b) < 0.0 && Sign(x, b, c) < 0.0
    ensures Behind(x, a, b, c)
  {
    if !Behind(x, a, b, c) {
      var q := NotBehind(a, b, c, x);
      CornerIsNearest(a, b, c, x, q);
      assert false;
    }
  }

  /** So without an obtuse angle the foot condition is all it takes. */
  lemma NonObtuseIsBehind(g: Gamut, xy: XY)
    requires CounterClockwise(g) && NonObtuse(g)
    ensures BehindItsCorner(g, xy)
  {
    var r, gr, b := g.red, g.green, g.blue;
    SpansFromAllCorners(g);
    DotIsSymmetric(r, b, gr);
    DotIsSymmetric(b, gr, r);
    DotIsSymmetric(gr, r, b);
    if IsRightOf(xy, r, gr) && IsRightOf(xy, gr, b) {
      ConeIsBehind(g, r, gr, b, xy);
    }
    if IsRightOf(xy, b, r) && IsRightOf(xy, r, gr) {
      ConeIsBehind(g, b, r, gr, xy);
    }
    if IsRightOf(xy, gr, b) && IsRightOf(xy, b, r) {
      ConeIsBehind(g, gr, b, r, xy);
    }
  }

  // --- Membership is mixing ---

  /** The colour is mixed from s parts of red, t parts of blue and the rest of green. */
  predicate MixedFrom(g: Gamut, xy: XY, s: real, t: real) {
    && s >= 0.0 && t >= 0.0 && s + t <= 1.0
    && xy.x == (1.0 - s - t) * g.green.x + s * g.red.x + t * g.blue.x
    && xy.y == (1.0 - s - t) * g.green.y + s * g.red.y + t * g.blue.y
  }

  lemma MixtureIsAlong(g: Gamut, xy: XY, s: real, t: real)
    requires MixedFrom(g, xy, s, t)
    ensures xy == Along(g.green, g.red, s, g.blue, t)
  {
  }

  lemma AlongIsMixture(g: Gamut, xy: XY, s: real, t: real)
    requires s >= 0.0 && t >= 0.0 && s + t <= 1.0 && xy == Along(g.green, g.red, s, g.blue, t)
    ensures MixedFrom(g, xy, s, t)
  {
  }

  lemma MixtureIsInside(g: Gamut, xy: XY, s: real, t: real)
    requires CounterClockwise(g) && MixedFrom(g, xy, s, t)
    ensures Contains(g, xy)
  {
    MixtureIsAlong(g, xy, s, t);
    SignsAlong(g.red, g.green, g.blue, s, t);
    ScaledSign(s, Area(g));
    ScaledSign(t, Area(g));
    ScaledSign(1.0 - s - t, Area(g));
  }

  lemma Divided(k: real, d: real, a: real, c: real, u: real, v: real)
    requires k > 0.0 && k * d == u * a + v * c
    ensures d == (u / k) * a + (v / k) * c
  {
    assert k * ((u / k) * a + (v / k) * c) == (k * (u / k)) * a + (k * (v / k)) * c == u * a + v * c;
    assert k * (d - ((u / k) * a + (v / k) * c)) == 0.0;
  }

  lemma PartOf(k: real, u: real, v: real)
    requires k > 0.0 && u >= 0.0 && v >= 0.0 && u + v <= k
    ensures u / k >= 0.0 && v / k >= 0.0 && u / k + v / k <= 1.0
  {
    var s, t := u / k, v / k;
    assert s * k == u && t * k == v;
    ScaledSign(s, k);
    ScaledSign(t, k);
    assert (1.0 - s - t) * k == k - u - v;
    ScaledSign(1.0 - s - t, k);
  }

  lemma InsideIsMixture(g: Gamut, xy: XY) returns (s: real, t: real)
    requires CounterClockwise(g) && Contains(g, xy)
    ensures MixedFrom(g, xy, s, t)
  {
    var k := Area(g);
    var u, v := AlongTheSidesAt(xy, g.red, g.green, g.blue, k, g.red.x - g.green.x, g.red.y - g.green.y,
                                g.blue.x - g.green.x, g.blue.y - g.green.y, xy.x - g.green.x, xy.y - g.green.y);
    SignsAddUp(xy, g.red, g.green, g.blue);
    s, t := u / k, v / k;
    PartOf(k, u, v);
    Divided(k, xy.x - g.green.x, g.red.x - g.green.x, g.blue.x - g.green.x, u, v);
    Divided(k, xy.y - g.green.y, g.red.y - g.green.y, g.blue.y - g.green.y, u, v);
    AlongIsMixture(g, xy, s, t);
  }

  /** The gamut contains the colours that can be mixed from its corners, and no others. */
  lemma ContainsIffMixed(g: Gamut, xy: XY)
    requires CounterClockwise(g)
    ensures Contains(g, xy) <==> exists s: real, t: real :: MixedFrom(g, xy, s, t)
  {
    if Contains(g, xy) {
      var s, t := InsideIsMixture(g, xy);
    }
    if exists s: real, t: real :: MixedFrom(g, xy, s, t) {
      var s: real, t: real :| MixedFrom(g, xy, s, t);
      MixtureIsInside(g, xy, s, t);
    }
  }

  // --- Obtuse angles ---

  function Along(b: XY, p: XY, s: real, q: XY, t: real): XY {
    XY(b.x + s * (p.x - b.x) + t * (q.x - b.x), b.y + s * (p.y - b.y) + t * (q.y - b.y))
  }

  /** Signs and scalar products of a point given by its coordinates along the sides at corner b. */
  lemma SignsAlong(a: XY, b: XY, c: XY, s: real, t: real)
    ensures var p := Along(b, a, s, c, t);
            && Sign(p, b, c) == s * Sign(a, b, c)
            && Sign(p, a, b) == t * Sign(a, b, c)
            && Sign(p, c, a) == (1.0 - s - t) * Sign(a, b, c)
  {
  }

  lemma DotAlong(a: XY, b: XY, c: XY, s: real, t: real, aa: real, ac: real)
    requires aa == Dot(a, a, b) && ac == Dot(a, c, b)
    ensures Dot(Along(b, a, s, c, t), a, b) == s * aa + t * ac
  {
    var p := Along(b, a, s, c, t);
    var ax, ay, cx, cy, px, py := a.x - b.x, a.y - b.y, c.x - b.x, c.y - b.y, p.x - b.x, p.y - b.y;
    DotAt(a, a, b, ax, ay, ax, ay);
    DotAt(a, c, b, ax, ay, cx, cy);
    DotAt(p, a, b, px, py, ax, ay);
    Distribute(s, t, ax, ay, cx, cy, px, py);
  }

  lemma Distribute(s: real, t: real, ax: real, ay: real, cx: real, cy: real, px: real, py: real)
    requires px == s * ax + t * cx && py == s * ay + t * cy
    ensures px * ax + py * ay == s * (ax * ax + ay * ay) + t * (ax * cx + ay * cy)
  {
  }

  /** Going from b toward a shortens the distance to x, as long as less than twice the scalar product is used up. */
  lemma CloserAlong(a: XY, b: XY, x: XY, q: XY, t: real)
    requires 0.0 < t && t * Dot(a, a, b) < 2.0 * Dot(x, a, b)
    requires q.x - b.x == t * (a.x - b.x) && q.y - b.y == t * (a.y - b.y)
    ensures Distance2(x, q) < Distance2(x, b)
  {
    CloserInCoordinates(a, b, x, q, t, a.x - b.x, a.y - b.y, x.x - b.x, x.y - b.y);
  }

  lemma CloserInCoordinates(a: XY, b: XY, x: XY, q: XY, t: real, ax: real, ay: real, xx: real, xy: real)
    requires ax == a.x - b.x && ay == a.y - b.y && xx == x.x - b.x && xy == x.y - b.y
    requires 0.0 < t && t * Dot(a, a, b) < 2.0 * Dot(x, a, b)
    requires q.x - b.x == t * ax && q.y - b.y == t * ay
    ensures Distance2(x, q) < Distance2(x, b)
  {
    DotAt(a, a, b, ax, ay, ax, ay);
    DotAt(x, a, b, xx, xy, ax, ay);
    DotAt(x, x, b, xx, xy, xx, xy);
    DotAt(x, x, q, xx - t * ax, xy - t * ay, xx - t * ax, xy - t * ay);
    ShorterBy(xx, xy, ax, ay, t);
  }

  lemma ShorterBy(xx: real, xy: real, ax: real, ay: real, t: real)
    requires 0.0 < t && t * (ax * ax + ay * ay) < 2.0 * (xx * ax + xy * ay)
    ensures (xx - t * ax) * (xx - t * ax) + (xy - t * ay) * (xy - t * ay) < xx * xx + xy * xy
  {
    var rest := 2.0 * (xx * ax + xy * ay) - t * (ax * ax + ay * ay);
    ShorterByRest(xx, xy, ax, ay, t);
    ProductIsPositive(t, rest, t * rest);
  }

  lemma ShorterByRest(xx: real, xy: real, ax: real, ay: real, t: real)
    ensures (xx - t * ax) * (xx - t * ax) + (xy - t * ay) * (xy - t * ay)
         == xx * xx + xy * xy - t * (2.0 * (xx * ax + xy * ay) - t * (ax * ax + ay * ay))
  {
  }

  /** At an obtuse corner, the cone opposite it has a point that is nearer to a side than to the corner. */
  lemma ObtuseCorner(a: XY, b: XY, c: XY) returns (x: XY, q: XY)
    requires Sign(a, b, c) > 0.0 && Dot(a, a, b) > 0.0 && Dot(a, c, b) < 0.0
    ensures Sign(x, a, b) < 0.0 && Sign(x, b, c) < 0.0
    ensures Sign(q, a, b) >= 0.0 && Sign(q, b, c) >= 0.0 && Sign(q, c, a) >= 0.0
    ensures Distance2(x, q) < Distance2(x, b)
  {
    var u, t := Slopes(Dot(a, a, b), Dot(a, c, b));
    x := PointInCone(a, b, c, u);
    q := PointOnSide(a, b, c, t);
    CloserAlong(a, b, x, q, t);
  }

  lemma PointInCone(a: XY, b: XY, c: XY, u: real) returns (x: XY)
    requires Sign(a, b, c) > 0.0 && u < 0.0
    ensures Sign(x, a, b) < 0.0 && Sign(x, b, c) < 0.0
    ensures Dot(x, a, b) == u * Dot(a, a, b) - Dot(a, c, b)
  {
    x := Along(b, a, u, c, -1.0);
    SignsAlong(a, b, c, u, -1.0);
    ProductIsPositive(-u, Sign(a, b, c), -u * Sign(a, b, c));
    DotAlong(a, b, c, u, -1.0, Dot(a, a, b), Dot(a, c, b));
  }

  lemma PointOnSide(a: XY, b: XY, c: XY, t: real) returns (q: XY)
    requires Sign(a, b, c) > 0.0 && 0.0 < t <= 1.0
    ensures Sign(q, a, b) >= 0.0 && Sign(q, b, c) >= 0.0 && Sign(q, c, a) >= 0.0
    ensures q.x - b.x == t * (a.x - b.x) && q.y - b.y == t * (a.y - b.y)
  {
    q := Along(b, a, t, c, 0.0);
    SignsAlong(a, b, c, t, 0.0);
    ScaledSign(t, Sign(a, b, c));
    ScaledSign(1.0 - t, Sign(a, b, c));
  }

  lemma PointOnOtherSide(a: XY, b: XY, c: XY, t: real) returns (q: XY)
    requires Sign(a, b, c) > 0.0 && 0.0 < t <= 1.0
    ensures Sign(q, a, b) >= 0.0 && Sign(q, b, c) >= 0.0 && Sign(q, c, a) >= 0.0
    ensures q.x - b.x == t * (c.x - b.x) && q.y - b.y == t * (c.y - b.y)
  {
    q := Along(b, a, 0.0, c, t);
    SignsAlong(a, b, c, 0.0, t);
    ScaledSign(t, Sign(a, b, c));
    ScaledSign(1.0 - t, Sign(a, b, c));
  }

  lemma Slopes(aa: real, ac: real) returns (u: real, t: real)
    requires aa > 0.0 && ac < 0.0
    ensures u < 0.0 && 0.0 < t <= 1.0 && t * aa < 2.0 * (u * aa - ac)
  {
    u := ac / (2.0 * aa);
    assert u * (2.0 * aa) == ac;
    assert u < 0.0;
    assert u * aa == ac / 2.0;
    t := if -u < 1.0 then -u else 1.0;
    if t < -u {
      ProductIsPositive(-u - t, aa, (-u - t) * aa);
    }
    assert t * aa <= -(u * aa);
  }

  lemma ObtuseCornerFails(g: Gamut, a: XY, b: XY, c: XY) returns (x: XY)
    requires CounterClockwise(g) && Sign(a, b, c) > 0.0 && Dot(a, a, b) > 0.0 && Dot(a, c, b) < 0.0
    requires forall p :: Contains(g, p) <==> Sign(p, a, b) >= 0.0 && Sign(p, b, c) >= 0.0 && Sign(p, c, a) >= 0.0
    ensures Sign(x, a, b) < 0.0 && Sign(x, b, c) < 0.0 && !IsNearest(g, x, b)
  {
    var q;
    x, q := ObtuseCorner(a, b, c);
    assert Contains(g, q);
  }

  lemma DotIsSymmetric(a: XY, c: XY, b: XY)
    ensures Dot(a, c, b) == Dot(c, a, b)
  {
  }

  /** The gamuts for which the foot condition is all it takes are exactly those without an obtuse angle. */
  lemma FootConditionSufficesIff(g: Gamut)
    requires CounterClockwise(g)
    ensures (forall xy :: FootWithin(g, xy) ==> IsNearest(g, xy, Corrected(g, xy))) <==> NonObtuse(g)
  {
    var r, gr, b := g.red, g.green, g.blue;
    if NonObtuse(g) {
      forall xy | FootWithin(g, xy)
        ensures IsNearest(g, xy, Corrected(g, xy))
      {
        NonObtuseIsBehind(g, xy);
        CorrectedIsNearestIff(g, xy);
      }
    } else {
      CornersAreInside(g);
      SideHasLength(gr, r);
      SideHasLength(r, b);
      SideHasLength(b, gr);
      DotIsSymmetric(r, b, gr);
      DotIsSymmetric(b, gr, r);
      DotIsSymmetric(gr, r, b);
      var xy: XY;
      if Dot(r, b, gr) < 0.0 {
        xy := ObtuseCornerFails(g, r, gr, b);
      } else if Dot(b, gr, r) < 0.0 {
        xy := ObtuseCornerFails(g, b, r, gr);
      } else {
        xy := ObtuseCornerFails(g, gr, b, r);
      }
      SignsAddUp(xy, r, gr, b);
      assert FootWithin(g, xy) && !IsNearest(g, xy, Corrected(g, xy));
    }
  }

  // --- The gamuts in use ---

  const GAMUT_A := Gamut(XY(0.704, 0.296), XY(0.2151, 0.7106), XY(0.138, 0.08))
  const GAMUT_B := Gamut(XY(0.675, 0.322), XY(0.409, 0.518), XY(0.167, 0.04))
  const GAMUT_C := Gamut(XY(0.692, 0.308), XY(0.17, 0.7), XY(0.153, 0.048))
  const MAX_GAMUT := Gamut(XY(1.0, 0.0), XY(0.0, 1.0), XY(0.0, 0.0))

  lemma GamutsAreSuitable()
    ensures CounterClockwise(GAMUT_A) && NonObtuse(GAMUT_A)
    ensures CounterClockwise(GAMUT_B) && NonObtuse(GAMUT_B)
    ensures CounterClockwise(GAMUT_C) && NonObtuse(GAMUT_C)
    ensures CounterClockwise(MAX_GAMUT) && NonObtuse(MAX_GAMUT)
  {
    GamutIsSuitable(GAMUT_A);
    GamutIsSuitable(GAMUT_B);
    GamutIsSuitable(GAMUT_C);
    GamutIsSuitable(MAX_GAMUT);
  }

  lemma GamutIsSuitable(g: Gamut)
    requires g == GAMUT_A || g == GAMUT_B || g == GAMUT_C || g == MAX_GAMUT
    ensures CounterClockwise(g) && NonObtuse(g)
  {
    if g == GAMUT_A {
      SuitableAt(g, 0.4889, -0.4146, 0.0771, 0.6306);
    } else if g == GAMUT_B {
      SuitableAt(g, 0.266, -0.196, 0.242, 0.478);
    } else if g == GAMUT_C {
      SuitableAt(g, 0.522, -0.392, 0.017, 0.652);
    } else {
      SuitableAt(g, 1.0, -1.0, 0.0, 1.0);
    }
  }

  /** From the differences of red and green, and of green and blue. */
  lemma SuitableAt(g: Gamut, rx: real, ry: real, gx: real, gy: real)
    requires rx == g.red.x - g.green.x && ry == g.red.y - g.green.y
    requires gx == g.green.x - g.blue.x && gy == g.green.y - g.blue.y
    requires (rx + gx) * gy - gx * (ry + gy) > 0.0
    requires rx * (rx + gx) + ry * (ry + gy) >= 0.0 && -(rx * gx + ry * gy) >= 0.0
    requires (rx + gx) * gx + (ry + gy) * gy >= 0.0
    ensures CounterClockwise(g) && NonObtuse(g)
  {
    SignAt(g.red, g.green, g.blue, rx + gx, ry + gy, gx, gy);
    DotAt(g.blue, g.green, g.red, -rx - gx, -ry - gy, -rx, -ry);
    DotAt(g.red, g.blue, g.green, rx, ry, -gx, -gy);
    DotAt(g.green, g.red, g.blue, gx, gy, rx + gx, ry + gy);
  }

  lemma SignAt(p0: XY, p1: XY, p2: XY, px: real, py: real, qx: real, qy: real)
    requires px == p0.x - p2.x && py == p0.y - p2.y && qx == p1.x - p2.x && qy == p1.y - p2.y
    ensures Sign(p0, p1, p2) == px * qy - qx * py
  {
  }

  lemma IsRight(p0: XY, p1: XY, p2: XY, px: real, py: real, qx: real, qy: real)
    requires px == p0.x - p2.x && py == p0.y - p2.y && qx == p1.x - p2.x && qy == p1.y - p2.y
    requires px * qy - qx * py < 0.0
    ensures IsRightOf(p0, p1, p2)
  {
    SignAt(p0, p1, p2, px, py, qx, qy);
  }

  lemma IsNotRight(p0: XY, p1: XY, p2: XY, px: real, py: real, qx: real, qy: real)
    requires px == p0.x - p2.x && py == p0.y - p2.y && qx == p1.x - p2.x && qy == p1.y - p2.y
    requires px * qy - qx * py >= 0.0
    ensures !IsRightOf(p0, p1, p2)
  {
    SignAt(p0, p1, p2, px, py, qx, qy);
  }

  lemma DotIs(p: XY, q: XY, o: XY, px: real, py: real, qx: real, qy: real, d: real)
    requires px == p.x - o.x && py == p.y - o.y && qx == q.x - o.x && qy == q.y - o.y && d == px * qx + py * qy
    ensures Dot(p, q, o) == d
  {
  }

  /** The foot of the perpendicular on a side (qx, qy) of squared length l is beyond its end or before its start. */
  lemma FootMissesSide(xy: XY, p1: XY, p2: XY, px: real, py: real, qx: real, qy: real, l: real, d: real)
    requires px == xy.x - p1.x && py == xy.y - p1.y && qx == p2.x - p1.x && qy == p2.y - p1.y
    requires l == qx * qx + qy * qy && d == px * qx + py * qy && l > 0.0 && (d < 0.0 || d > l)
    ensures Dot(p2, p2, p1) != 0.0 && !OnSide(xy, p1, p2)
  {
    DotIs(p2, p2, p1, qx, qy, qx, qy, l);
    DotIs(xy, p2, p1, px, py, qx, qy, d);
    FootIsOutside(xy, p1, p2);
  }

  lemma FootIsOutside(xy: XY, p1: XY, p2: XY)
    requires Dot(p2, p2, p1) > 0.0 && !(0.0 <= Dot(xy, p2, p1) <= Dot(p2, p2, p1))
    ensures !OnSide(xy, p1, p2)
  {
    FootTimesLength(xy, p1, p2);
    var k, l := Foot(xy, p1, p2), Dot(p2, p2, p1);
    ScaledSign(k, l);
    ScaledSign(1.0 - k, l);
    assert (1.0 - k) * l == l - k * l;
  }

  lemma FootIsInside(xy: XY, p1: XY, p2: XY)
    requires Dot(p2, p2, p1) > 0.0 && 0.0 <= Dot(xy, p2, p1) <= Dot(p2, p2, p1)
    ensures OnSide(xy, p1, p2)
  {
    FootTimesLength(xy, p1, p2);
    var k, l := Foot(xy, p1, p2), Dot(p2, p2, p1);
    ScaledSign(k, l);
    ScaledSign(1.0 - k, l);
    assert (1.0 - k) * l == l - k * l;
  }

  lemma MaxGamutFoot(g: Gamut, xy: XY)
    requires g == MAX_GAMUT && CounterClockwise(g) && 0.0 <= xy.x <= 1.0 && 0.0 <= xy.y <= 1.0
    ensures FootWithin(g, xy)
  {
    IsNotRight(xy, g.green, g.blue, xy.x, xy.y, 0.0, 1.0);
    IsNotRight(xy, g.blue, g.red, xy.x - 1.0, xy.y, -1.0, 0.0);
    DotIs(g.green, g.green, g.red, -1.0, 1.0, -1.0, 1.0, 2.0);
    DotIs(xy, g.green, g.red, xy.x - 1.0, xy.y, -1.0, 1.0, 1.0 - xy.x + xy.y);
    FootIsInside(xy, g.red, g.green);
  }

  /** In the largest gamut, the one used for lights of unknown type, every point with coordinates from 0 to 1 is
      corrected to the nearest one. */
  lemma MaxGamutIsSafe(g: Gamut, xy: XY)
    requires g == MAX_GAMUT && 0.0 <= xy.x <= 1.0 && 0.0 <= xy.y <= 1.0
    ensures CounterClockwise(g) && IsNearest(g, xy, Corrected(g, xy))
  {
    GamutIsSuitable(g);
    MaxGamutFoot(g, xy);
    NonObtuseIsBehind(g, xy);
    CorrectedIsNearestIff(g, xy);
  }

  /** A point whose foot condition fails is moved to a place that the light cannot show. */
  lemma LeavesTheGamut(g: Gamut, xy: XY)
    requires CounterClockwise(g) && !FootWithin(g, xy)
    ensures !Contains(g, Corrected(g, xy)) && !IsNearest(g, xy, Corrected(g, xy))
  {
    CorrectedIsInsideIff(g, xy);
    CorrectedIsNearestIff(g, xy);
  }

  /** The coordinates of RGB(0, 0, 255), for which no gamma correction matters: X = 0.162028, Y = 0.047685,
      Z = 0.986039, divided by their sum. */
  predicate IsPureBlue(xy: XY) {
    xy.x * 1.195752 == 0.162028 && xy.y * 1.195752 == 0.047685
  }

  /** The point is beyond the side from p1 to p2 only, and the foot of its perpendicular is not on that side. */
  ghost predicate Misses(xy: XY, p1: XY, p2: XY, p3: XY) {
    IsRightOf(xy, p1, p2) && !IsRightOf(xy, p2, p3) && !IsRightOf(xy, p3, p1) && Dot(p2, p2, p1) != 0.0
    && !OnSide(xy, p1, p2)
  }

  lemma PureBlueMissesA(g: Gamut, xy: XY)
    requires g == GAMUT_A && IsPureBlue(xy)
    ensures Misses(xy, g.blue, g.red, g.green)
  {
    var x, y := xy.x - 0.138, xy.y - 0.08;
    IsNotRight(xy, g.red, g.green, xy.x - 0.2151, xy.y - 0.7106, 0.4889, -0.4146);
    IsNotRight(xy, g.green, g.blue, x, y, 0.0771, 0.6306);
    IsRight(xy, g.blue, g.red, xy.x - 0.704, xy.y - 0.296, -0.566, -0.216);
    FootMissesSide(xy, g.blue, g.red, x, y, 0.566, 0.216, 0.367012, 0.566 * x + 0.216 * y);
  }

  lemma PureBlueMissesB(g: Gamut, xy: XY)
    requires g == GAMUT_B && IsPureBlue(xy)
    ensures Misses(xy, g.green, g.blue, g.red)
  {
    var x, y := xy.x - 0.409, xy.y - 0.518;
    IsNotRight(xy, g.red, g.green, x, y, 0.266, -0.196);
    IsRight(xy, g.green, g.blue, xy.x - 0.167, xy.y - 0.04, 0.242, 0.478);
    IsNotRight(xy, g.blue, g.red, xy.x - 0.675, xy.y - 0.322, -0.508, -0.282);
    FootMissesSide(xy, g.green, g.blue, x, y, -0.242, -0.478, 0.287048, -0.242 * x - 0.478 * y);
  }

  lemma PureBlueMissesC(g: Gamut, xy: XY)
    requires g == GAMUT_C && IsPureBlue(xy)
    ensures Misses(xy, g.green, g.blue, g.red)
  {
    var x, y := xy.x - 0.17, xy.y - 0.7;
    IsNotRight(xy, g.red, g.green, x, y, 0.522, -0.392);
    IsRight(xy, g.green, g.blue, xy.x - 0.153, xy.y - 0.048, 0.017, 0.652);
    IsNotRight(xy, g.blue, g.red, xy.x - 0.692, xy.y - 0.308, -0.539, -0.26);
    FootMissesSide(xy, g.green, g.blue, x, y, -0.017, -0.652, 0.425393, -0.017 * x - 0.652 * y);
  }

  lemma MissedSideFails(g: Gamut, xy: XY)
    requires CounterClockwise(g) && (Misses(xy, g.green, g.blue, g.red) || Misses(xy, g.blue, g.red, g.green))
    ensures !FootWithin(g, xy)
  {
  }

  lemma PureBlueFails(g: Gamut, xy: XY)
    requires (g == GAMUT_A || g == GAMUT_B || g == GAMUT_C) && IsPureBlue(xy)
    ensures CounterClockwise(g) && !FootWithin(g, xy)
  {
    GamutIsSuitable(g);
    if g == GAMUT_A {
      PureBlueMissesA(g, xy);
    } else if g == GAMUT_B {
      PureBlueMissesB(g, xy);
    } else {
      PureBlueMissesC(g, xy);
    }
    MissedSideFails(g, xy);
  }

  /** In none of the three gamuts in use can a light show what pure blue is corrected to. */
  lemma PureBlueLeavesTheGamut(g: Gamut, xy: XY)
    requires (g == GAMUT_A || g == GAMUT_B || g == GAMUT_C) && IsPureBlue(xy)
    ensures CounterClockwise(g) && !Contains(g, Corrected(g, xy)) && !IsNearest(g, xy, Corrected(g, xy))
  {
    PureBlueFails(g, xy);
    LeavesTheGamut(g, xy);
  }
}
