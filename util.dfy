/**
  The integer geometry of `src/util.rs`: the drawing colours, the centre of
  a rectangle, the rectangle around a marker's corners, and the line
  segments `draw_bounds` and `draw_x` hand to the drawing library. Corner
  coordinates are given after their `as i32` conversion; a drawn line is
  recorded as a `Segment` instead of being drawn.
 */
module Util {
  import opened Wire

  datatype Color = Red | Green | Blue | Yellow | Cyan | Magenta

  /** An OpenCV `Scalar` of small whole numbers (blue, green, red, alpha),
      each exactly representable as a double. */
  datatype Scalar = Scalar(b: nat, g: nat, r: nat, a: nat)

  /** `get_color` */
  function GetColor(c: Color): (s: Scalar)
    ensures s.a == 1 && s.b <= 255 && s.g <= 255 && s.r <= 255
  {
    match c
    case Red => Scalar(0, 0, 255, 1)
    case Green => Scalar(0, 255, 0, 1)
    case Blue => Scalar(255, 255, 0, 1)
    case Yellow => Scalar(255, 255, 0, 1)
    case Cyan => Scalar(0, 255, 255, 1)
    case Magenta => Scalar(255, 0, 255, 1)
  }

  /** Blue and Yellow are drawn in the same colour; every other pair of
      colours differs. */
  lemma BlueIsYellow(c1: Color, c2: Color)
    ensures GetColor(c1) == GetColor(c2) <==> c1 == c2 || (c1 in {Blue, Yellow} && c2 in {Blue, Yellow})
  {
  }

  datatype Point = Point(x: int, y: int)

  datatype Rect = Rect(x: int, y: int, width: int, height: int)

  /** Rust's `/` on `i32`: the quotient rounded toward zero, so the
      remainder takes the sign of the dividend. */
  function TruncDiv(n: int, d: int): (q: int)
    requires d > 0
    ensures n >= 0 ==> q * d <= n < q * d + d
    ensures n < 0 ==> q * d - d < n <= q * d
  {
    if n >= 0 then n / d
    else
      var k := (-n) / d;
      assert k * d <= -n < k * d + d;
      assert (-k) * d == -(k * d);
      -k
  }

  /** `Center for Rect`: the corner plus half the size, halves rounded
      toward zero. The centre of a rectangle of non-negative size lies
      inside it, at most half a unit before its exact middle; for a negative
      size the halves round toward the corner too. */
  function Center(r: Rect): (c: Point)
    ensures r.width >= 0 ==> r.x <= c.x <= r.x + r.width && 0 <= r.width - 2 * (c.x - r.x) <= 1
    ensures r.height >= 0 ==> r.y <= c.y <= r.y + r.height && 0 <= r.height - 2 * (c.y - r.y) <= 1
    ensures r.width < 0 ==> 0 <= 2 * (c.x - r.x) - r.width <= 1
    ensures r.height < 0 ==> 0 <= 2 * (c.y - r.y) - r.height <= 1
  {
    Point(r.x + TruncDiv(r.width, 2), r.y + TruncDiv(r.height, 2))
  }

  function MinX(ps: seq<Point>): (m: int)
    requires ps != []
    ensures (forall i :: 0 <= i < |ps| ==> m <= ps[i].x) && exists i :: 0 <= i < |ps| && m == ps[i].x
  {
    if |ps| == 1 then ps[0].x
    else var rest := MinX(ps[1..]); assert forall i :: 1 <= i < |ps| ==> ps[i] == ps[1..][i - 1]; if ps[0].x <= rest then ps[0].x else rest
  }

  function MaxX(ps: seq<Point>): (m: int)
    requires ps != []
    ensures (forall i :: 0 <= i < |ps| ==> ps[i].x <= m) && exists i :: 0 <= i < |ps| && m == ps[i].x
  {
    if |ps| == 1 then ps[0].x
    else var rest := MaxX(ps[1..]); assert forall i :: 1 <= i < |ps| ==> ps[i] == ps[1..][i - 1]; if ps[0].x >= rest then ps[0].x else rest
  }

  function MinY(ps: seq<Point>): (m: int)
    requires ps != []
    ensures (forall i :: 0 <= i < |ps| ==> m <= ps[i].y) && exists i :: 0 <= i < |ps| && m == ps[i].y
  {
    if |ps| == 1 then ps[0].y
    else var rest := MinY(ps[1..]); assert forall i :: 1 <= i < |ps| ==> ps[i] == ps[1..][i - 1]; if ps[0].y <= rest then ps[0].y else rest
  }

  function MaxY(ps: seq<Point>): (m: int)
    requires ps != []
    ensures (forall i :: 0 <= i < |ps| ==> ps[i].y <= m) && exists i :: 0 <= i < |ps| && m == ps[i].y
  {
    if |ps| == 1 then ps[0].y
    else var rest := MaxY(ps[1..]); assert forall i :: 1 <= i < |ps| ==> ps[i] == ps[1..][i - 1]; if ps[0].y >= rest then ps[0].y else rest
  }

  function Abs(n: int): (a: nat)
    ensures a == n || a == -n
  {
    if n >= 0 then n else -n
  }

  /** `bounding_to_rect`: no rectangle for no corners; otherwise the
      corners' bounding box grown by `offset` on every side. */
  function BoundingToRect(corners: seq<Point>, offset: int): (r: Option<Rect>)
    ensures r.None? <==> corners == []
  {
    if corners == [] then None
    else
      var sx, sy, ex, ey := MinX(corners), MinY(corners), MaxX(corners), MaxY(corners);
      Some(Rect(sx - offset, sy - offset, Abs(sx - ex) + 2 * offset, Abs(sy - ey) + 2 * offset))
  }

  /** The rectangle starts `offset` before the smallest coordinates and is
      the coordinate range plus `2 * offset` wide and high, so with a
      non-negative offset every corner lies inside it, and with offset 0 on
      its edges at the extremes. */
  lemma BoundingRectContains(corners: seq<Point>, offset: int)
    requires corners != []
    ensures var r := BoundingToRect(corners, offset).value;
      && r.x == MinX(corners) - offset && r.y == MinY(corners) - offset
      && r.width == MaxX(corners) - MinX(corners) + 2 * offset
      && r.height == MaxY(corners) - MinY(corners) + 2 * offset
      && (offset >= 0 ==> forall i :: 0 <= i < |corners| ==>
            r.x <= corners[i].x <= r.x + r.width && r.y <= corners[i].y <= r.y + r.height)
  {
    var r := BoundingToRect(corners, offset).value;
    assert MinX(corners) <= corners[0].x <= MaxX(corners);
    assert MinY(corners) <= corners[0].y <= MaxY(corners);
  }

  /** One `imgproc::line` call: the end points, colour and thickness. */
  datatype Segment = Segment(from: Point, to: Point, color: Scalar, thickness: nat)

  /** `draw_bounds`: nothing for fewer than four corners; otherwise one
      segment from each corner to the next, the last one back to the first
      (the loop over `windows(2)` of the corners with the first appended). */
  method DrawBounds(bounding: seq<Point>, c: Color) returns (segments: seq<Segment>)
    ensures |bounding| < 4 ==> segments == []
    ensures |bounding| >= 4 ==> |segments| == |bounding|
    ensures |bounding| >= 4 ==> forall i :: 0 <= i < |bounding| ==>
      segments[i] == Segment(bounding[i], bounding[(i + 1) % |bounding|], GetColor(c), 2)
  {
    segments := [];
    if |bounding| < 4 {
      return;
    }
    var vec := bounding + [bounding[0]];
    var i := 0;
    while i + 1 < |vec|
      invariant 0 <= i < |vec| && |segments| == i
      invariant forall j :: 0 <= j < i ==> segments[j] == Segment(vec[j], vec[j + 1], GetColor(c), 2)
    {
      segments := segments + [Segment(vec[i], vec[i + 1], GetColor(c), 2)];
      i := i + 1;
    }
    forall j | 0 <= j < |bounding|
      ensures segments[j] == Segment(bounding[j], bounding[(j + 1) % |bounding|], GetColor(c), 2)
    {
      assert segments[j] == Segment(vec[j], vec[j + 1], GetColor(c), 2);
      assert vec[j] == bounding[j];
      if j + 1 < |bounding| {
        assert (j + 1) % |bounding| == j + 1;
        assert vec[j + 1] == bounding[j + 1];
      } else {
        assert (j + 1) % |bounding| == 0;
        assert vec[j + 1] == bounding[0];
      }
    }
  }

  /** `draw_x`: a vertical and a horizontal segment of half-length 10
      through `p`. */
  function DrawX(p: Point, c: Color): (segments: seq<Segment>)
    ensures |segments| == 2 && forall i :: 0 <= i < 2 ==> segments[i].color == GetColor(c) && segments[i].thickness == 2
    ensures segments[0].from.x == segments[0].to.x == p.x && segments[0].from.y - segments[0].to.y == 20
    ensures segments[1].from.y == segments[1].to.y == p.y && segments[1].from.x - segments[1].to.x == 20
    ensures forall i :: 0 <= i < 2 ==>
      segments[i].from.x + segments[i].to.x == 2 * p.x && segments[i].from.y + segments[i].to.y == 2 * p.y
  {
    [Segment(Point(p.x, p.y + 10), Point(p.x, p.y - 10), GetColor(c), 2),
     Segment(Point(p.x + 10, p.y), Point(p.x - 10, p.y), GetColor(c), 2)]
  }
}
