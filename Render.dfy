/**
 * MercatorHeatmap: the colour palette, the projection of one grid cell to a
 * four-vertex polygon, and a canvas that records the drawing calls made on it.
 * MercatorMap's role (one base image plus one projection, a fresh canvas per
 * frame) is kept as a value and a constructor.
 */
module Render {
  import opened JavaLang

  /** An RGBA colour with float components in [0, 1] (java.awt.Color). */
  datatype Color = Color(red: real, green: real, blue: real, alpha: real)

  const ALPHA: real := 1.0

  /** The nine heat colours, from blue through yellow to red. */
  const COLORS: seq<Color> := [
    Color(0.0, 0.0, 1.0, ALPHA),
    Color(0.4, 0.4, 1.0, ALPHA),
    Color(0.8, 0.8, 0.0, ALPHA),
    Color(1.0, 1.0, 0.0, ALPHA),
    Color(1.0, 0.8, 0.0, ALPHA),
    Color(1.0, 0.6, 0.0, ALPHA),
    Color(1.0, 0.4, 0.0, ALPHA),
    Color(1.0, 0.2, 0.0, ALPHA),
    Color(1.0, 0.0, 0.0, ALPHA)
  ]

  const BLACK: Color := Color(0.0, 0.0, 0.0, 1.0)

  lemma PaletteShape()
    ensures |COLORS| == 9
    ensures forall i :: 0 <= i < |COLORS| ==> COLORS[i].alpha == ALPHA == 1.0
    ensures COLORS[0].blue == 1.0 && COLORS[0].red == 0.0
    ensures COLORS[|COLORS| - 1].red == 1.0 && COLORS[|COLORS| - 1].green == 0.0 && COLORS[|COLORS| - 1].blue == 0.0
  {
  }

  /** A projected point, in fractional pixels. */
  datatype Xy = Xy(x: real, y: real)

  /** A geographic point, in degrees. */
  datatype LatLong = LatLong(lat: real, long: real)

  /** The projection of a map: (latitude, longitude) to pixels. Its calibration
      is outside this model, so it is any function of this type. */
  type Projection = (real, real) -> Xy

  /** The corners of a grid cell: top-left, top-right, bottom-right, bottom-left. */
  datatype Cell = Cell(tl: LatLong, tr: LatLong, br: LatLong, bl: LatLong)

  /** The square cell of side `size` degrees centred on (centerLat, centerLong). */
  function CellCorners(centerLat: real, centerLong: real, size: real): (c: Cell)
    ensures c.tl.lat == c.tr.lat && c.bl.lat == c.br.lat
    ensures c.tl.long == c.bl.long && c.tr.long == c.br.long
    ensures c.tl.lat - c.bl.lat == size && c.tr.long - c.tl.long == size
    ensures (c.tl.lat + c.bl.lat) / 2.0 == centerLat && (c.tl.long + c.tr.long) / 2.0 == centerLong
  {
    var north, south := centerLat + size / 2.0, centerLat - size / 2.0;
    var west, east := centerLong - size / 2.0, centerLong + size / 2.0;
    Cell(LatLong(north, west), LatLong(north, east), LatLong(south, east), LatLong(south, west))
  }

  /** The corners in the order the polygon visits them. */
  function Vertices(c: Cell): seq<LatLong> {
    [c.tl, c.tr, c.br, c.bl]
  }

  /** The integer vertex arrays handed to fillPolygon. */
  datatype Polygon = Polygon(xs: seq<int>, ys: seq<int>)

  /** Each corner projected independently and each coordinate cast to int. */
  function CellPolygon(projection: Projection, centerLat: real, centerLong: real, size: real): (p: Polygon)
    ensures |p.xs| == 4 && |p.ys| == 4
    ensures forall j :: 0 <= j < 4 ==>
      var v := Vertices(CellCorners(centerLat, centerLong, size))[j];
      p.xs[j] == JavaIntCast(projection(v.lat, v.long).x) && p.ys[j] == JavaIntCast(projection(v.lat, v.long).y)
  {
    var c := CellCorners(centerLat, centerLong, size);
    var tl, tr := projection(c.tl.lat, c.tl.long), projection(c.tr.lat, c.tr.long);
    var bl, br := projection(c.bl.lat, c.bl.long), projection(c.br.lat, c.br.long);
    Polygon([JavaIntCast(tl.x), JavaIntCast(tr.x), JavaIntCast(br.x), JavaIntCast(bl.x)],
            [JavaIntCast(tl.y), JavaIntCast(tr.y), JavaIntCast(br.y), JavaIntCast(bl.y)])
  }

  /** Vertices 0 and 1 lie on the north edge, 2 and 3 on the south edge;
      vertices 0 and 3 on the west edge, 1 and 2 on the east edge. */
  lemma VertexOrder(centerLat: real, centerLong: real, size: real, j: int)
    requires 0 <= j < 4
    ensures var v := Vertices(CellCorners(centerLat, centerLong, size))[j];
      && v.lat == (if j < 2 then centerLat + size / 2.0 else centerLat - size / 2.0)
      && v.long == (if j == 0 || j == 3 then centerLong - size / 2.0 else centerLong + size / 2.0)
  {
  }

  /** One drawing call on a canvas's Graphics2D, with the paint in effect. */
  datatype DrawCommand =
    | DrawString(text: string, x: int, y: int, paint: Color, fontSize: nat)
    | FillPolygon(xs: seq<int>, ys: seq<int>, nPoints: nat, paint: Color)

  const LABEL_MARGIN: int := 50
  const LABEL_FONT_SIZE: nat := 50

  /** Where and how a label is drawn on an image of the given height. */
  function LabelCommand(text: string, height: nat): (cmd: DrawCommand)
    ensures cmd.DrawString? && cmd.text == text && cmd.paint == BLACK && cmd.fontSize == 50
    ensures cmd.x == 50 && height - cmd.y == 50
  {
    DrawString(text, LABEL_MARGIN, height - LABEL_MARGIN, BLACK, LABEL_FONT_SIZE)
  }

  /** The polygon fill for one cell. */
  function FillCommand(projection: Projection, centerLat: real, centerLong: real, size: real, fill: Color): (cmd: DrawCommand)
    ensures cmd.FillPolygon? && cmd.paint == fill
    ensures cmd.nPoints == |cmd.xs| == |cmd.ys| == 4
    ensures Polygon(cmd.xs, cmd.ys) == CellPolygon(projection, centerLat, centerLong, size)
  {
    var p := CellPolygon(projection, centerLat, centerLong, size);
    FillPolygon(p.xs, p.ys, 4, fill)
  }

  /** A copy of the base map with its own drawing surface. */
  class MercatorHeatmap {
    const height: nat
    const projection: Projection
    var commands: seq<DrawCommand>

    constructor (height: nat, projection: Projection)
      ensures this.height == height && this.projection == projection
      ensures commands == []
    {
      this.height := height;
      this.projection := projection;
      commands := [];
    }

    method AddLabel(text: string)
      modifies this
      ensures commands == old(commands) + [LabelCommand(text, height)]
    {
      commands := commands + [DrawString(text, LABEL_MARGIN, height - LABEL_MARGIN, BLACK, LABEL_FONT_SIZE)];
    }

    method FillGrid(centerLatitude: real, centerLongitude: real, gridSizeDegrees: real, fill: Color)
      modifies this
      ensures commands == old(commands) + [FillCommand(projection, centerLatitude, centerLongitude, gridSizeDegrees, fill)]
    {
      var half := gridSizeDegrees / 2.0;
      var tl := projection(centerLatitude + half, centerLongitude - half);
      var tr := projection(centerLatitude + half, centerLongitude + half);
      var bl := projection(centerLatitude - half, centerLongitude - half);
      var br := projection(centerLatitude - half, centerLongitude + half);
      var polyX := [JavaIntCast(tl.x), JavaIntCast(tr.x), JavaIntCast(br.x), JavaIntCast(bl.x)];
      var polyY := [JavaIntCast(tl.y), JavaIntCast(tr.y), JavaIntCast(br.y), JavaIntCast(bl.y)];
      commands := commands + [FillPolygon(polyX, polyY, 4, fill)];
    }
  }

  /** The decoded base map (only its height matters here) and its projection. */
  datatype MercatorMap = MercatorMap(height: nat, projection: Projection)

  /** A fresh canvas per frame, so no frame sees another frame's drawing. */
  method MakeHeatmap(m: MercatorMap) returns (h: MercatorHeatmap)
    ensures fresh(h) && h.height == m.height && h.projection == m.projection
    ensures h.commands == []
  {
    h := new MercatorHeatmap(m.height, m.projection);
  }
}
