/** The node canvas's coordinate transform, `CanvasTransform` of
    `CanvasTransformEnvironmentKey.swift`: a view point is divided by the
    zoom scale and shifted by the pan position to give a world point, and
    sizes are only scaled. Points are pairs combined component-wise, as
    the `CGPoint` operators do. Coordinates are real numbers. */
module Canvas {
  import opened Results

  datatype Point = Point(x: real, y: real)

  function Add(a: Point, b: Point): Point {
    Point(a.x + b.x, a.y + b.y)
  }

  function Sub(a: Point, b: Point): Point {
    Point(a.x - b.x, a.y - b.y)
  }

  function Scale(a: Point, s: real): Point {
    Point(a.x * s, a.y * s)
  }

  datatype Transform = Transform(scale: real, position: Point)

  /** The environment's default: scale 1 at the origin. */
  const DefaultTransform := Transform(1.0, Point(0.0, 0.0))

  /** `transform(viewPosition:)`: `viewPosition / scale - position`. A zero
      scale has no finite result. */
  function ViewToWorld(t: Transform, v: Point): (r: Option<Point>)
    ensures r.Some? <==> t.scale != 0.0
  {
    if t.scale == 0.0 then None else Some(Sub(Point(v.x / t.scale, v.y / t.scale), t.position))
  }

  /** `transform(worldPosition:)`: `(worldPosition + position) * scale`. */
  function WorldToView(t: Transform, w: Point): Point {
    Scale(Add(w, t.position), t.scale)
  }

  /** `transform(viewSize:)`: `viewSize / scale`. */
  function ViewToWorldSize(t: Transform, s: Point): (r: Option<Point>)
    ensures r.Some? <==> t.scale != 0.0
  {
    if t.scale == 0.0 then None else Some(Point(s.x / t.scale, s.y / t.scale))
  }

  /** `transform(worldSize:)`: `worldSize * scale`. */
  function WorldToViewSize(t: Transform, s: Point): Point {
    Scale(s, t.scale)
  }

  /** Converting a view point to the world and back gives it back. */
  lemma ViewWorldViewRoundTrip(t: Transform, v: Point)
    requires t.scale != 0.0
    ensures WorldToView(t, ViewToWorld(t, v).value) == v
  {
  }

  /** Converting a world point to the view and back gives it back. */
  lemma WorldViewWorldRoundTrip(t: Transform, w: Point)
    requires t.scale != 0.0
    ensures ViewToWorld(t, WorldToView(t, w)) == Some(w)
  {
    var s := t.scale;
    var v := WorldToView(t, w);
    assert v.x / s == w.x + t.position.x;
    assert v.y / s == w.y + t.position.y;
  }

  /** The size conversions undo each other and ignore the pan position. */
  lemma SizeRoundTrips(t: Transform, s: Point, p: Point)
    requires t.scale != 0.0
    ensures WorldToViewSize(t, ViewToWorldSize(t, s).value) == s
    ensures ViewToWorldSize(t, WorldToViewSize(t, s)) == Some(s)
    ensures ViewToWorldSize(t.(position := p), s) == ViewToWorldSize(t, s)
    ensures WorldToViewSize(t.(position := p), s) == WorldToViewSize(t, s)
  {
    var r := WorldToViewSize(t, s);
    assert r.x / t.scale == s.x && r.y / t.scale == s.y;
  }

  /** The default transform leaves points and sizes where they are. */
  lemma DefaultIsIdentity(p: Point)
    ensures ViewToWorld(DefaultTransform, p) == Some(p)
    ensures WorldToView(DefaultTransform, p) == p
    ensures ViewToWorldSize(DefaultTransform, p) == Some(p)
    ensures WorldToViewSize(DefaultTransform, p) == p
  {
  }
}
