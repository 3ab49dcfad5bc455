/** The triangle of colours a light can show, and the correction of colours outside it, over exact reals
    (src/ColorUnits.cpp). */
module ColorGamut {
  import opened Colors

  datatype Gamut = Gamut(red: XY, green: XY, blue: XY)

  function Sign(p0: XY, p1: XY, p2: XY): real {
    (p0.x - p2.x) * (p1.y - p2.y) - (p1.x - p2.x) * (p0.y - p2.y)
  }

  predicate IsRightOf(xy: XY, p1: XY, p2: XY) {
    Sign(xy, p1, p2) < 0.0
  }

  function Dot(a: XY, b: XY, origin: XY): real {
    (a.x - origin.x) * (b.x - origin.x) + (a.y - origin.y) * (b.y - origin.y)
  }

  function ProjectOntoLine(xy: XY, p1: XY, p2: XY): XY
    requires Dot(p2, p2, p1) != 0.0
  {
    var lenABSquared, dot := Dot(p2, p2, p1), Dot(xy, p2, p1);
    XY(p1.x + (p2.x - p1.x) * dot / lenABSquared, p1.y + (p2.y - p1.y) * dot / lenABSquared)
  }

  predicate Contains(g: Gamut, xy: XY) {
    !IsRightOf(xy, g.red, g.green) && !IsRightOf(xy, g.green, g.blue) && !IsRightOf(xy, g.blue, g.red)
  }

  function Area(g: Gamut): real {
    Sign(g.red, g.green, g.blue)
  }

  predicate CounterClockwise(g: Gamut) {
    Area(g) > 0.0
  }

  lemma SidesHaveLength(g: Gamut)
    requires CounterClockwise(g)
    ensures g.red != g.green && g.green != g.blue && g.blue != g.red
    ensures Dot(g.green, g.green, g.red) > 0.0 && Dot(g.blue, g.blue, g.green) > 0.0 && Dot(g.red, g.red, g.blue) > 0.0
  {
    SideHasLength(g.red, g.green);
    SideHasLength(g.green, g.blue);
    SideHasLength(g.blue, g.red);
  }

  lemma SideHasLength(p: XY, q: XY)
    requires p != q
    ensures Dot(q, q, p) > 0.0
  {
    var x, y := q.x - p.x, q.y - p.y;
    assert p.x != q.x || p.y != q.y;
    assert x != 0.0 || y != 0.0;
    SquareIsPositive(x, x * x);
    SquareIsPositive(y, y * y);
  }

  lemma ProductIsPositive(a: real, b: real, ab: real)
    requires ab == a * b && a > 0.0 && b > 0.0
    ensures ab > 0.0
  {
  }

  lemma SquareIsPositive(x: real, xx: real)
    requires xx == x * x
    ensures xx >= 0.0 && (x != 0.0 ==> xx > 0.0)
  {
    if x > 0.0 {
      ProductIsPositive(x, x, xx);
    } else if x < 0.0 {
      ProductIsPositive(-x, -x, xx);
    }
  }

  function Corrected(g: Gamut, xy: XY): XY
    requires CounterClockwise(g)
  {
    SidesHaveLength(g);
    if IsRightOf(xy, g.red, g.green) then
      if IsRightOf(xy, g.green, g.blue) then g.green
      else if IsRightOf(xy, g.blue, g.red) then g.red
      else ProjectOntoLine(xy, g.red, g.green)
    else if IsRightOf(xy, g.green, g.blue) then
      if IsRightOf(xy, g.blue, g.red) then g.blue
      else ProjectOntoLine(xy, g.green, g.blue)
    else if IsRightOf(xy, g.blue, g.red) then ProjectOntoLine(xy, g.blue, g.red)
    else xy
  }
}
