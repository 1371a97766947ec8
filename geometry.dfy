/** Axis-aligned boxes `{x1, y1, x2, y2}` in pixel coordinates, shared by
    every service module. */
module Geometry {
  import opened Numeric

  datatype Box = Box(x1: real, y1: real, x2: real, y2: real)

  datatype Size = Size(width: real, height: real)

  function Width(b: Box): real { b.x2 - b.x1 }
  function Height(b: Box): real { b.y2 - b.y1 }

  /** The detector's contract: a box has positive extent on both axes. */
  predicate WellFormed(b: Box) { b.x1 < b.x2 && b.y1 < b.y2 }

  function CentreX(b: Box): real { (b.x1 + b.x2) / 2.0 }
  function CentreY(b: Box): real { (b.y1 + b.y2) / 2.0 }

  predicate IsIntegral(x: real) { x == x.Floor as real }

  /** `{"x1": int(b[0]), ...}`: every coordinate truncated toward zero. */
  function TruncBox(b: Box): (t: Box)
    ensures IsIntegral(t.x1) && IsIntegral(t.y1) && IsIntegral(t.x2) && IsIntegral(t.y2)
    ensures t.x1 == Trunc(b.x1) as real && t.y1 == Trunc(b.y1) as real
    ensures t.x2 == Trunc(b.x2) as real && t.y2 == Trunc(b.y2) as real
  {
    Box(Trunc(b.x1) as real, Trunc(b.y1) as real, Trunc(b.x2) as real, Trunc(b.y2) as real)
  }

  /** Grows a running maximum size by one box, component by component. */
  function GrowSize(m: Size, b: Box): (r: Size)
    ensures r.width >= m.width && r.height >= m.height
    ensures r.width >= Width(b) && r.height >= Height(b)
    ensures r.width == m.width || r.width == Width(b)
    ensures r.height == m.height || r.height == Height(b)
  {
    Size(MaxR(m.width, Width(b)), MaxR(m.height, Height(b)))
  }
}
