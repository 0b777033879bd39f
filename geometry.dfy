/** The synthetic geometry drawn for one legend item: a box sized from the zoom level
    and the image size, and a fixed proportional shape inside it. */
module Geometry {
  import opened Errors

  type PositiveReal = r: real | r > 0.0 witness 1.0

  /** What the geometry needs from the map: the image size in pixels and the width of
      the projected world in metres (the renderer's projection supplies the latter). */
  datatype MapFrame = MapFrame(width: nat, height: nat, worldWidth: PositiveReal)

  datatype Coord = Coord(x: real, y: real)

  /** The shape a geometry's WKT text describes. */
  datatype Shape =
    | Point(at: Coord)
    | LineString(points: seq<Coord>)
    | MultiLineString(lines: seq<seq<Coord>>)
    | Polygon(rings: seq<seq<Coord>>)

  datatype Geometry = Geometry(minX: real, minY: real, maxX: real, maxY: real, shape: Shape)

  datatype Envelope = Envelope(minX: real, minY: real, maxX: real, maxY: real)

  /** 2 ** zoom, for any integer zoom. */
  function TileScale(zoom: int): (s: real)
    ensures s > 0.0
    decreases if zoom < 0 then -zoom else zoom
  {
    if zoom == 0 then 1.0
    else if zoom > 0 then 2.0 * TileScale(zoom - 1)
    else TileScale(zoom + 1) / 2.0
  }

  lemma TileScaleStep(zoom: int)
    ensures TileScale(zoom + 1) == 2.0 * TileScale(zoom)
  {
  }

  /** Width of the whole world in pixels at this zoom: 256-pixel tiles, 2 ** zoom across. */
  function WorldPixels(zoom: int): (p: real)
    ensures p > 0.0
  {
    TileScale(zoom) * 256.0
  }

  /** Metres covered by `pixels` pixels at this zoom. */
  function ImageMetres(pixels: nat, zoom: int, worldWidth: PositiveReal): (metres: real)
    ensures metres >= 0.0
  {
    pixels as real / WorldPixels(zoom) * worldWidth
  }

  /** The metres covered are to the world width in metres as the pixels are to the world
      width in pixels. */
  lemma ImageMetresScale(pixels: nat, zoom: int, worldWidth: PositiveReal)
    ensures ImageMetres(pixels, zoom, worldWidth) * WorldPixels(zoom) == pixels as real * worldWidth
  {
    var d := WorldPixels(zoom);
    var q := pixels as real / d;
    assert q * d == pixels as real;
    assert ImageMetres(pixels, zoom, worldWidth) * d == (q * d) * worldWidth;
  }

  const PolygonWithHole := "polygon-with-hole"

  /** The message of the TypeError that " ".join raises on a list of floats. */
  const JoinFloatsMessage := "sequence item 0: expected str instance, float found"

  /** Geometry.__init__: the box is (0, 0)-(image width, image height) in metres; the shape
      is chosen by kind. The polygon-with-hole branch joins lists of floats with " ".join,
      which raises TypeError before any shape exists. */
  function Synthesize(kind: Option<string>, zoom: int, m: MapFrame): (r: Result<Geometry>)
    ensures r.Err? <==> kind == Some(PolygonWithHole)
    ensures r.Err? ==> r.error == TypeError(JoinFloatsMessage)
    ensures r.Ok? ==> r.value.minX == 0.0 && r.value.minY == 0.0
  {
    var maxX := ImageMetres(m.width, zoom, m.worldWidth);
    var maxY := ImageMetres(m.height, zoom, m.worldWidth);
    var shape :=
      if kind == Some("point") then
        Point(Coord(maxX / 2.0, maxY / 2.0))
      else if kind == Some("point75") then
        Point(Coord(maxX * 0.5, maxY * 0.75))
      else if kind == Some("polygon") then
        Polygon([[Coord(0.0, 0.0), Coord(maxX, 0.0), Coord(maxX, maxY), Coord(0.0, maxY), Coord(0.0, 0.0)]])
      else if kind == Some("linestring-with-gap") then
        MultiLineString([[Coord(0.0, 0.0), Coord(maxX * 0.45, maxY * 0.45)],
                         [Coord(maxX * 0.55, maxY * 0.55), Coord(maxX, maxY)]])
      else
        LineString([Coord(0.0, 0.0), Coord(maxX, maxY)]);
    if kind == Some(PolygonWithHole) then Err(TypeError(JoinFloatsMessage))
    else Ok(Geometry(0.0, 0.0, maxX, maxY, shape))
  }

  /** The box is the image in metres: width and height in pixels, scaled by one and the
      same ratio of world metres to world pixels. */
  lemma SynthesizeBox(kind: Option<string>, zoom: int, m: MapFrame)
    requires kind != Some(PolygonWithHole)
    ensures Synthesize(kind, zoom, m).value.maxX * WorldPixels(zoom) == m.width as real * m.worldWidth
    ensures Synthesize(kind, zoom, m).value.maxY * WorldPixels(zoom) == m.height as real * m.worldWidth
  {
    ImageMetresScale(m.width, zoom, m.worldWidth);
    ImageMetresScale(m.height, zoom, m.worldWidth);
  }

  /** Geometry.envelope. */
  function EnvelopeOf(g: Geometry): (e: Envelope)
    ensures e.minX == g.minX && e.minY == g.minY && e.maxX == g.maxX && e.maxY == g.maxY
  {
    Envelope(g.minX, g.minY, g.maxX, g.maxY)
  }

  predicate Inside(e: Envelope, c: Coord) {
    e.minX <= c.x <= e.maxX && e.minY <= c.y <= e.maxY
  }

  /** Every vertex the shape mentions. */
  function Vertices(s: Shape): seq<Coord> {
    match s
    case Point(at) => [at]
    case LineString(points) => points
    case MultiLineString(lines) => Flatten(lines)
    case Polygon(rings) => Flatten(rings)
  }

  function Flatten(parts: seq<seq<Coord>>): seq<Coord> {
    if parts == [] then [] else parts[0] + Flatten(parts[1..])
  }

  /** One more zoom level halves the metres a fixed number of pixels covers. */
  lemma MetresHalve(pixels: nat, zoom: int, worldWidth: PositiveReal)
    ensures ImageMetres(pixels, zoom, worldWidth) == 2.0 * ImageMetres(pixels, zoom + 1, worldWidth)
  {
    TileScaleStep(zoom);
    var a, b := ImageMetres(pixels, zoom, worldWidth), ImageMetres(pixels, zoom + 1, worldWidth);
    var d := WorldPixels(zoom);
    assert WorldPixels(zoom + 1) == 2.0 * d;
    assert a * d == b * (2.0 * d);
    assert (a - 2.0 * b) * d == 0.0;
  }

  /** Raising the zoom by one halves the box in both directions. */
  lemma ZoomHalvesBox(kind: Option<string>, zoom: int, m: MapFrame)
    requires kind != Some(PolygonWithHole)
    ensures Synthesize(kind, zoom, m).value.maxX == 2.0 * Synthesize(kind, zoom + 1, m).value.maxX
    ensures Synthesize(kind, zoom, m).value.maxY == 2.0 * Synthesize(kind, zoom + 1, m).value.maxY
  {
    MetresHalve(m.width, zoom, m.worldWidth);
    MetresHalve(m.height, zoom, m.worldWidth);
    assert Synthesize(kind, zoom, m).value.maxX == ImageMetres(m.width, zoom, m.worldWidth);
    assert Synthesize(kind, zoom + 1, m).value.maxX == ImageMetres(m.width, zoom + 1, m.worldWidth);
  }

  /** Every vertex of every template lies inside the envelope. */
  lemma TemplateInsideEnvelope(kind: Option<string>, zoom: int, m: MapFrame)
    requires kind != Some(PolygonWithHole)
    ensures var g := Synthesize(kind, zoom, m).value;
            forall c :: c in Vertices(g.shape) ==> Inside(EnvelopeOf(g), c)
  {
    var g := Synthesize(kind, zoom, m).value;
    var x, y := g.maxX, g.maxY;
    assert 0.0 <= x * 0.45 <= x && 0.0 <= x * 0.55 <= x && 0.0 <= x * 0.5 <= x;
    assert 0.0 <= y * 0.45 <= y && 0.0 <= y * 0.55 <= y && 0.0 <= y * 0.75 <= y;
    match g.shape
    case Point(_) =>
    case LineString(_) =>
    case MultiLineString(lines) =>
      assert Flatten(lines[1..]) == lines[1] + Flatten(lines[2..]);
      assert Flatten(lines) == lines[0] + lines[1];
    case Polygon(rings) =>
      assert Flatten(rings) == rings[0];
  }

  /** The point sits at the centre of the box, point75 at half width and three quarters height. */
  lemma PointPlacement(kind: Option<string>, zoom: int, m: MapFrame)
    requires kind == Some("point") || kind == Some("point75")
    ensures var g := Synthesize(kind, zoom, m).value;
            && g.shape.Point?
            && g.shape.at.x == (g.minX + g.maxX) / 2.0
            && g.shape.at.y == (if kind == Some("point") then (g.minY + g.maxY) / 2.0
                                else g.minY + (g.maxY - g.minY) * 0.75)
  {
  }

  /** The polygon is the closed ring through the four corners of the envelope. */
  lemma PolygonIsBox(zoom: int, m: MapFrame)
    ensures var g := Synthesize(Some("polygon"), zoom, m).value;
            var e := EnvelopeOf(g);
            && g.shape.Polygon? && |g.shape.rings| == 1
            && g.shape.rings[0] == [Coord(e.minX, e.minY), Coord(e.maxX, e.minY), Coord(e.maxX, e.maxY),
                                    Coord(e.minX, e.maxY), Coord(e.minX, e.minY)]
  {
  }

  /** linestring-with-gap is two two-vertex strokes along the diagonal, from the origin to
      0.45 of the box and from 0.55 of the box to the far corner; on a non-empty image they
      do not touch: every vertex of the first is strictly left of and below every vertex of
      the second. */
  lemma GapSegmentsApart(zoom: int, m: MapFrame)
    ensures var g := Synthesize(Some("linestring-with-gap"), zoom, m).value;
            && g.shape.MultiLineString?
            && g.shape.lines == [[Coord(g.minX, g.minY), Coord(g.maxX * 0.45, g.maxY * 0.45)],
                                 [Coord(g.maxX * 0.55, g.maxY * 0.55), Coord(g.maxX, g.maxY)]]
            && (m.width > 0 && m.height > 0 ==>
                  forall p, q :: p in g.shape.lines[0] && q in g.shape.lines[1] ==> p.x < q.x && p.y < q.y)
  {
    var g := Synthesize(Some("linestring-with-gap"), zoom, m).value;
    if m.width > 0 && m.height > 0 {
      assert g.maxX * WorldPixels(zoom) > 0.0 && g.maxY * WorldPixels(zoom) > 0.0;
      assert g.maxX > 0.0 && g.maxY > 0.0;
    }
  }

  /** Any kind not recognised, an absent one included, draws the diagonal of the box. */
  lemma UnknownKindIsDiagonal(kind: Option<string>, zoom: int, m: MapFrame)
    requires kind !in {Some("point"), Some("point75"), Some("polygon"), Some("linestring-with-gap"), Some(PolygonWithHole)}
    ensures var g := Synthesize(kind, zoom, m).value;
            g.shape == LineString([Coord(g.minX, g.minY), Coord(g.maxX, g.maxY)])
  {
  }
}
