/** Screenshots put together from the captures of several outputs. */
module Canvas {
  import opened Wrappers
  import opened Pixels

  datatype Output = Output(bound: bool, logicalX: int, logicalY: int, logicalWidth: int, logicalHeight: int)

  datatype LogicalRect = LogicalRect(x: int, y: int, width: int, height: int)

  /** An image as a value: the pictures that are cropped, resampled and moved about. */
  datatype Picture = Picture(width: int, height: int, rgba: seq<Byte>) {
    ghost predicate Valid() {
      width > 0 && height > 0 ==> Sized(rgba, width, height)
    }

    ghost predicate Drawn() {
      Sized(rgba, width, height)
    }

    function Shape(): Size {
      Size(width, height)
    }

    ghost function Show(p: Point): Pixel {
      if Drawn() && Within(p, Shape()) then At(Rows(rgba, width, height, height), Shape(), p) else BLANK
    }
  }

  // ----- rounding -----

  /** `std::lround`: to the nearest integer, halves away from zero. */
  function LRound(x: real): (n: int)
    ensures x - 0.5 <= n as real <= x + 0.5
    ensures if x >= 0.0 then x - 0.5 < n as real else n as real < x + 0.5
  {
    if x >= 0.0 then (x + 0.5).Floor else -(0.5 - x).Floor
  }

  function Scaled(scale: real, logical: int): int {
    LRound(logical as real * scale)
  }

  /** To the nearest pixel. */
  lemma ScaledIs(scale: real, logical: int)
    ensures -0.5 <= Scaled(scale, logical) as real - scale * logical as real <= 0.5
  {
  }

  lemma ScaledSum(scale: real, a: int, b: int)
    ensures (a + b) as real * scale == a as real * scale + b as real * scale
    ensures -1 <= Scaled(scale, a) + Scaled(scale, b) - Scaled(scale, a + b) <= 1
  {
    assert (a + b) as real == a as real + b as real;
  }

  lemma ScaledGrows(scale: real, a: int, b: int)
    requires scale >= 1.0 && a <= b
    ensures Scaled(scale, a) <= Scaled(scale, b)
    ensures a >= 0 ==> Scaled(scale, a) >= a
  {
    assert (b - a) as real * scale >= 0.0;
    assert (b - a) as real == b as real - a as real;
    if a >= 0 {
      assert a as real * (scale - 1.0) >= 0.0;
    }
  }

  // ----- the rectangle a picture is copied to -----

  function From(p: Point, corner: Point): Point {
    Point(p.x - corner.x, p.y - corner.y)
  }

  datatype Layer = Layer(at: Point, image: Picture)

  /** The picture shows at `p` when it is put at the layer's place; nothing is shown of one put off the left or
      top edge. */
  predicate Covers(layer: Layer, p: Point) {
    layer.at.x >= 0 && layer.at.y >= 0 && Within(From(p, layer.at), layer.image.Shape())
  }

  const BLANK := Pixel(0, 0, 0, 0)

  /** What shows at `p` when the layers are put one on another. */
  ghost function Top(layers: seq<Layer>, p: Point): Pixel
  {
    if layers == [] then BLANK
    else
      var last := layers[|layers| - 1];
      if Covers(last, p) then last.image.Show(From(p, last.at)) else Top(layers[..|layers| - 1], p)
  }

  /** The picture covers the point, in plain numbers. */
  predicate Under(layer: Layer, p: Point) {
    && layer.at.x >= 0 && layer.at.x <= p.x < layer.at.x + layer.image.width
    && layer.at.y >= 0 && layer.at.y <= p.y < layer.at.y + layer.image.height
  }

  /** Of the pictures over a point the last one shows, at the point's distance from its corner. */
  lemma {:induction false} TopIsLast(layers: seq<Layer>, p: Point, k: nat)
    requires k < |layers| && Under(layers[k], p) && forall j :: k < j < |layers| ==> !Under(layers[j], p)
    ensures Top(layers, p) == layers[k].image.Show(Point(p.x - layers[k].at.x, p.y - layers[k].at.y))
    decreases layers
  {
    CoversIs(layers[|layers| - 1], p);
    if k < |layers| - 1 {
      TopIsLast(layers[..|layers| - 1], p, k);
    }
  }

  /** Where there is no picture nothing shows. */
  lemma {:induction false} TopIsBlank(layers: seq<Layer>, p: Point)
    requires forall k :: 0 <= k < |layers| ==> !Under(layers[k], p)
    ensures Top(layers, p) == Pixel(0, 0, 0, 0)
    decreases layers
  {
    if layers != [] {
      CoversIs(layers[|layers| - 1], p);
      TopIsBlank(layers[..|layers| - 1], p);
    }
  }

  lemma CoversIs(layer: Layer, p: Point)
    ensures Covers(layer, p) <==> Under(layer, p)
  {
  }

  /** The canvas shows the picture on exactly the part of the layer's rectangle that lies on it, and what it
      showed elsewhere. */
  ghost predicate Blitted(s: Size, was: Grid, now: Grid, layer: Layer) {
    && Fits(was, s) && Fits(now, s)
    && forall p :: Within(p, s) ==>
         At(now, s, p) == if Covers(layer, p) then layer.image.Show(From(p, layer.at)) else At(was, s, p)
  }

  /** From `corner`, so many pixels of each row are written as wanted, down to `here`. */
  ghost predicate WrittenTo(s: Size, was: Grid, now: Grid, wanted: Point -> Pixel, corner: Point, width: int, here: Point) {
    && Fits(was, s) && Fits(now, s)
    && forall p :: Within(p, s) ==>
         At(now, s, p) == if corner.x <= p.x < corner.x + width && corner.y <= p.y && Before(p, here) then wanted(p)
                          else At(was, s, p)
  }

  lemma WritesOn(s: Size, was: Grid, now: Grid, next: Grid, wanted: Point -> Pixel, corner: Point, width: int, here: Point)
    requires WrittenTo(s, was, now, wanted, corner, width, here) && Copied(s, now, next, here, wanted(here))
    requires corner.x <= here.x < corner.x + width && corner.y <= here.y
    ensures WrittenTo(s, was, next, wanted, corner, width, Point(here.x + 1, here.y))
  {
    forall p | Within(p, s)
      ensures At(next, s, p) == if corner.x <= p.x < corner.x + width && corner.y <= p.y && Before(p, Point(here.x + 1, here.y))
                                then wanted(p) else At(was, s, p)
    {
      assert Before(p, Point(here.x + 1, here.y)) <==> Before(p, here) || p == here;
    }
  }

  method CopyOne(canvas: array<Byte>, w: int, h: int, source: Picture, x: int, y: int, copyWidth: int, destX: int, destY: int,
                 ghost was: Grid, ghost wanted: Point -> Pixel)
    requires Sized(canvas[..], w, h) && source.Drawn() && 0 <= y < source.height && 0 <= x < copyWidth <= source.width
    requires 0 <= destX && 0 <= destY && destX + x < w && destY + y < h
    requires WrittenTo(Size(w, h), was, Rows(canvas[..], w, h, h), wanted, Point(destX, destY), copyWidth, Point(destX + x, destY + y))
    requires wanted(Point(destX + x, destY + y)) == source.Show(Point(x, y))
    modifies canvas
    ensures WrittenTo(Size(w, h), was, Rows(canvas[..], w, h, h), wanted, Point(destX, destY), copyWidth, Point(destX + x + 1, destY + y))
  {
    ghost var now := Rows(canvas[..], w, h, h);
    RowsAt(source.rgba, source.width, source.height, source.height, x, y);
    CellInside(source.width, source.height, x, y);
    var pixel := PixelAt(source.rgba, y * source.width + x);
    StorePixel(canvas, w, h, destX + x, destY + y, pixel);
    WritesOn(Size(w, h), was, now, Rows(canvas[..], w, h, h), wanted, Point(destX, destY), copyWidth, Point(destX + x, destY + y));
  }

  /** `memcpy` of the first `copyWidth` pixels of a row of the picture, one by one. */
  method CopyRow(canvas: array<Byte>, w: int, h: int, source: Picture, y: int, copyWidth: int, destX: int, destY: int,
                 ghost was: Grid, ghost wanted: Point -> Pixel)
    requires Sized(canvas[..], w, h) && source.Drawn() && 0 <= y < source.height && 0 < copyWidth <= source.width
    requires 0 <= destX && 0 <= destY && destX + copyWidth <= w && destY + y < h
    requires WrittenTo(Size(w, h), was, Rows(canvas[..], w, h, h), wanted, Point(destX, destY), copyWidth, Point(destX, destY + y))
    requires forall x :: 0 <= x < copyWidth ==> wanted(Point(destX + x, destY + y)) == source.Show(Point(x, y))
    modifies canvas
    ensures WrittenTo(Size(w, h), was, Rows(canvas[..], w, h, h), wanted, Point(destX, destY), copyWidth, Point(destX, destY + y + 1))
  {
    var x := 0;
    while x < copyWidth
      invariant 0 <= x <= copyWidth && Sized(canvas[..], w, h)
      invariant WrittenTo(Size(w, h), was, Rows(canvas[..], w, h, h), wanted, Point(destX, destY), copyWidth,
                          Point(destX + x, destY + y))
    {
      CopyOne(canvas, w, h, source, x, y, copyWidth, destX, destY, was, wanted);
      x := x + 1;
    }
  }

  lemma WrittenIsBlitted(s: Size, was: Grid, now: Grid, layer: Layer, wanted: Point -> Pixel, width: int, height: int)
    requires layer.at.x >= 0 && layer.at.y >= 0
    requires WrittenTo(s, was, now, wanted, layer.at, width, Point(layer.at.x, layer.at.y + height))
    requires forall p :: wanted(p) == layer.image.Show(From(p, layer.at))
    requires width == layer.image.width || (0 < width <= layer.image.width && layer.at.x + width == s.w)
    requires height == layer.image.height || (0 < height <= layer.image.height && layer.at.y + height == s.h)
    ensures Blitted(s, was, now, layer)
  {
    forall p | Within(p, s)
      ensures Covers(layer, p) <==> layer.at.x <= p.x < layer.at.x + width && layer.at.y <= p.y < layer.at.y + height
    {
    }
  }

  lemma WantedRow(source: Picture, destX: int, destY: int, wanted: Point -> Pixel, y: int)
    requires forall p :: wanted(p) == source.Show(From(p, Point(destX, destY)))
    ensures forall x :: 0 <= x < source.width ==> wanted(Point(destX + x, destY + y)) == source.Show(Point(x, y))
  {
    forall x | 0 <= x < source.width
      ensures wanted(Point(destX + x, destY + y)) == source.Show(Point(x, y))
    {
      assert From(Point(destX + x, destY + y), Point(destX, destY)) == Point(x, y);
    }
  }

  method CopyRows(canvas: array<Byte>, w: int, h: int, source: Picture, copyWidth: int, copyHeight: int, destX: int, destY: int,
                  ghost was: Grid, ghost wanted: Point -> Pixel)
    requires Sized(canvas[..], w, h) && source.Drawn() && was == Rows(canvas[..], w, h, h)
    requires 0 < copyWidth <= source.width && 0 < copyHeight <= source.height
    requires 0 <= destX && 0 <= destY && destX + copyWidth <= w && destY + copyHeight <= h
    requires forall p :: wanted(p) == source.Show(From(p, Point(destX, destY)))
    modifies canvas
    ensures WrittenTo(Size(w, h), was, Rows(canvas[..], w, h, h), wanted, Point(destX, destY), copyWidth,
                      Point(destX, destY + copyHeight))
  {
    var y := 0;
    while y < copyHeight
      invariant 0 <= y <= copyHeight && Sized(canvas[..], w, h)
      invariant WrittenTo(Size(w, h), was, Rows(canvas[..], w, h, h), wanted, Point(destX, destY), copyWidth,
                          Point(destX, destY + y))
    {
      WantedRow(source, destX, destY, wanted, y);
      CopyRow(canvas, w, h, source, y, copyWidth, destX, destY, was, wanted);
      y := y + 1;
    }
  }

  method BlitOpaqueRgba(canvas: array<Byte>, w: int, h: int, destX: int, destY: int, source: Picture)
    requires Sized(canvas[..], w, h) && source.Valid()
    modifies canvas
    ensures Blitted(Size(w, h), Rows(old(canvas[..]), w, h, h), Rows(canvas[..], w, h, h), Layer(Point(destX, destY), source))
  {
    if destX < 0 || destY < 0 || source.width <= 0 || source.height <= 0 {
      return;
    }
    var copyWidth := if source.width < w - destX then source.width else w - destX;
    var copyHeight := if source.height < h - destY then source.height else h - destY;
    if copyWidth <= 0 || copyHeight <= 0 {
      return;
    }
    ghost var was := Rows(canvas[..], w, h, h);
    ghost var wanted := (p: Point) => source.Show(From(p, Point(destX, destY)));
    CopyRows(canvas, w, h, source, copyWidth, copyHeight, destX, destY, was, wanted);
    WrittenIsBlitted(Size(w, h), was, Rows(canvas[..], w, h, h), Layer(Point(destX, destY), source), wanted, copyWidth, copyHeight);
  }

  // ----- cropping -----

  function Clamp(v: int, lo: int, hi: int): (c: int)
    requires lo <= hi
    ensures lo <= c <= hi && (lo <= v <= hi ==> c == v) && (c > v ==> c == lo) && (c < v ==> c == hi)
  {
    if v < lo then lo else if hi < v then hi else v
  }

  function Ceil(x: real): (n: int)
    ensures n as real - 1.0 < x <= n as real
  {
    -(-x).Floor
  }

  /** Where a place of the logical output falls among so many pixels. */
  function Edge(at: int, logical: int, pixels: int): real
    requires logical > 0
  {
    at as real * (pixels as real / logical as real)
  }

  predicate Overlaps(i: int, left: real, right: real) {
    (i + 1) as real > left && (i as real) < right
  }

  /** A pixel of the output, of so many, overlaps a stretch of its logical length. */
  predicate Touches(i: int, from: int, size: int, logical: int, pixels: int)
    requires logical > 0
  {
    Overlaps(i, Edge(from, logical, pixels), Edge(from + size, logical, pixels))
  }

  /** In whole numbers: the pixel ends after the stretch begins, and begins before it ends. */
  lemma TouchesIs(i: int, from: int, size: int, logical: int, pixels: int)
    requires logical > 0
    ensures Touches(i, from, size, logical, pixels) <==> from * pixels < (i + 1) * logical && i * logical < (from + size) * pixels
  {
    EdgeAgainst(from, logical, pixels, i + 1);
    EdgeAgainst(from + size, logical, pixels, i);
  }

  lemma EdgeAgainst(at: int, logical: int, pixels: int, n: int)
    requires logical > 0
    ensures Edge(at, logical, pixels) < n as real <==> at * pixels < n * logical
    ensures Edge(at, logical, pixels) > n as real <==> at * pixels > n * logical
  {
    var e, l := Edge(at, logical, pixels), logical as real;
    assert e * l == at as real * (pixels as real / l * l) == at as real * pixels as real;
    assert at as real * pixels as real == (at * pixels) as real;
    assert n as real * l == (n * logical) as real;
    TimesPositive(e, n as real, l);
  }

  lemma TimesPositive(a: real, b: real, c: real)
    requires c > 0.0
    ensures a < b <==> a * c < b * c
    ensures a > b <==> a * c > b * c
  {
    assert (b - a) * c == b * c - a * c;
    if a < b {
      assert (b - a) * c > 0.0;
    } else if a > b {
      assert (a - b) * c > 0.0;
      assert (a - b) * c == a * c - b * c;
    }
  }

  lemma FloorBounds(x: real, i: int)
    ensures (i + 1) as real > x <==> i >= x.Floor
  {
  }

  lemma CeilBounds(x: real, i: int)
    ensures (i as real) < x <==> i < Ceil(x)
  {
  }

  lemma SpanCovers(left: real, right: real, pixels: int, first: int, last: int)
    requires 0.0 <= left <= right <= pixels as real && (pixels > 0 ==> left < right)
    requires first == Clamp(left.Floor, 0, pixels) && last == Clamp(Ceil(right), 0, pixels)
    ensures 0 <= first <= last <= pixels && (pixels > 0 ==> first < last)
    ensures forall i :: 0 <= i < pixels ==> (first <= i < last <==> Overlaps(i, left, right))
  {
    forall i | 0 <= i < pixels
      ensures first <= i < last <==> Overlaps(i, left, right)
    {
      FloorBounds(left, i);
      CeilBounds(right, i);
    }
  }

  /** The edges of the stretch, in pixels. */
  method Edges(from: int, size: int, logical: int, pixels: int) returns (left: real, right: real)
    requires 0 < logical && 0 <= from && 0 < size && from + size <= logical && 0 <= pixels
    ensures 0.0 <= left <= right <= pixels as real && (pixels > 0 ==> left < right)
    ensures left == Edge(from, logical, pixels) && right == Edge(from + size, logical, pixels)
  {
    SpanLies(from, size, logical, pixels, pixels as real / logical as real);
    left, right := Edge(from, logical, pixels), Edge(from + size, logical, pixels);
  }

  lemma TouchedAre(from: int, size: int, logical: int, pixels: int, first: int, last: int, left: real, right: real)
    requires 0 < logical && left == Edge(from, logical, pixels) && right == Edge(from + size, logical, pixels)
    requires forall i :: 0 <= i < pixels ==> (first <= i < last <==> Overlaps(i, left, right))
    ensures forall i :: 0 <= i < pixels ==> (first <= i < last <==> Touches(i, from, size, logical, pixels))
  {
    forall i | 0 <= i < pixels
      ensures Overlaps(i, left, right) <==> Touches(i, from, size, logical, pixels)
    {
    }
  }

  /** The first and one past the last pixel of the stretch. */
  method CropSpan(from: int, size: int, logical: int, pixels: int) returns (first: int, last: int)
    requires 0 < logical && 0 <= from && 0 < size && from + size <= logical && 0 <= pixels
    ensures 0 <= first <= last <= pixels && (pixels > 0 ==> first < last)
    ensures forall i :: 0 <= i < pixels ==> (first <= i < last <==> Touches(i, from, size, logical, pixels))
  {
    var left, right := Edges(from, size, logical, pixels);
    first := Clamp(left.Floor, 0, pixels);
    last := Clamp(Ceil(right), 0, pixels);
    SpanCovers(left, right, pixels, first, last);
    TouchedAre(from, size, logical, pixels, first, last, left, right);
  }

  lemma SpanLies(from: int, size: int, logical: int, pixels: int, scale: real)
    requires 0 < logical && 0 <= from && 0 < size && from + size <= logical && 0 <= pixels && scale == pixels as real / logical as real
    ensures 0.0 <= from as real * scale <= (from + size) as real * scale <= pixels as real
    ensures pixels > 0 ==> from as real * scale < (from + size) as real * scale
  {
    assert scale * logical as real == pixels as real;
    assert (from + size) as real == from as real + size as real;
    assert (from + size) as real * scale == from as real * scale + size as real * scale;
    ScaledOrder(scale, 0, from);
    ScaledOrder(scale, 0, size);
    ScaledOrder(scale, from + size, logical);
  }

  lemma ScaledOrder(scale: real, a: int, b: int)
    requires scale >= 0.0 && a <= b
    ensures a as real * scale <= b as real * scale
    ensures scale > 0.0 && a < b ==> a as real * scale < b as real * scale
  {
    assert (b as real - a as real) * scale == b as real * scale - a as real * scale;
    if scale > 0.0 && a < b {
      assert (b as real - a as real) * scale > 0.0;
    } else {
      assert (b as real - a as real) * scale >= 0.0;
    }
  }

  /** The stretch that is cropped: a region that begins before the output is moved onto it. */
  function Clipped(from: int, size: int, logical: int): (span: (int, int))
    requires logical > 0
    ensures 0 <= span.0 && 0 <= span.1 && span.0 + span.1 <= logical
  {
    var first := Clamp(from, 0, logical);
    (first, Clamp(size, 0, logical - first))
  }

  predicate InSpan(span: (int, int), k: int) {
    span.0 <= k < span.0 + span.1
  }

  predicate InPart(from: int, size: int, logical: int, k: int) {
    0 <= k < logical && from <= k < from + size
  }

  /** It is the part of the region on the output if and only if the region does not begin before the output, is empty, or
      reaches to its other end. */
  lemma ClippedIsThePartExactlyWhen(from: int, size: int, logical: int)
    requires logical > 0
    ensures (forall k :: InSpan(Clipped(from, size, logical), k) <==> InPart(from, size, logical, k))
       <==> from >= 0 || size <= 0 || from + size >= logical
    ensures from < 0 ==> Clipped(from, size, logical) == Clipped(0, size, logical)
  {
    var span := Clipped(from, size, logical);
    if from < 0 && 0 < size && from + size < logical {
      var k := if from + size > 0 then from + size else 0;
      assert InSpan(span, k) && !InPart(from, size, logical, k);
    }
  }

  function Into(p: Point, corner: Point): Point {
    Point(corner.x + p.x, corner.y + p.y)
  }

  /** `memcpy` of the rows of a part of the picture, pixel by pixel. */
  method CopyPart(source: Picture, corner: Point, w: int, h: int) returns (cropped: Picture)
    requires source.Drawn() && 0 <= corner.x && 0 <= corner.y && 0 < w && 0 < h
    requires corner.x + w <= source.width && corner.y + h <= source.height
    ensures cropped.Drawn() && cropped.Shape() == Size(w, h)
    ensures forall p :: Within(p, Size(w, h)) ==> cropped.Show(p) == source.Show(Into(p, corner))
  {
    var rgba := new Byte[4 * (w * h)];
    ghost var wanted := (p: Point) => source.Show(Into(p, corner));
    var y := 0;
    while y < h
      invariant 0 <= y <= h && Painted(Size(w, h), wanted, Rows(rgba[..], w, h, h), Point(0, y))
    {
      CopyPartRow(source, corner, rgba, w, h, y, wanted);
      y := y + 1;
    }
    cropped := Picture(w, h, rgba[..]);
  }

  method CopyPartRow(source: Picture, corner: Point, rgba: array<Byte>, w: int, h: int, y: int, ghost wanted: Point -> Pixel)
    requires source.Drawn() && 0 <= corner.x && corner.x + w <= source.width && 0 <= corner.y + y < source.height
    requires Sized(rgba[..], w, h) && 0 <= y < h && Painted(Size(w, h), wanted, Rows(rgba[..], w, h, h), Point(0, y))
    requires forall p :: wanted(p) == source.Show(Into(p, corner))
    modifies rgba
    ensures Painted(Size(w, h), wanted, Rows(rgba[..], w, h, h), Point(0, y + 1))
  {
    var x := 0;
    while x < w
      invariant 0 <= x <= w && Painted(Size(w, h), wanted, Rows(rgba[..], w, h, h), Point(x, y))
    {
      ghost var was := Rows(rgba[..], w, h, h);
      var pixel := PixelFrom(source, corner.x + x, corner.y + y);
      StorePixel(rgba, w, h, x, y, pixel);
      PaintsOn(Size(w, h), wanted, was, Rows(rgba[..], w, h, h), Point(x, y));
      x := x + 1;
    }
  }

  method PixelFrom(source: Picture, x: int, y: int) returns (pixel: Pixel)
    requires source.Drawn() && Within(Point(x, y), source.Shape())
    ensures pixel == source.Show(Point(x, y))
  {
    CellInside(source.width, source.height, x, y);
    RowsAt(source.rgba, source.width, source.height, source.height, x, y);
    pixel := PixelAt(source.rgba, y * source.width + x);
  }

  /** `cropFrozenRegion`: exactly the pixels that overlap the region, or nothing when no part of it is on the output. */
  method CropFrozenRegion(source: Picture, logicalWidth: int, logicalHeight: int, region: LogicalRect)
    returns (r: Option<Picture>, ghost at: Point)
    requires source.width >= 0 && source.height >= 0 && source.Valid()
    ensures r.Some? <==> source.width > 0 && source.height > 0 && logicalWidth > 0 && logicalHeight > 0
                         && Clipped(region.x, region.width, logicalWidth).1 > 0
                         && Clipped(region.y, region.height, logicalHeight).1 > 0
    ensures r.Some? ==> r.value.Drawn() && at.x >= 0 && at.y >= 0
                        && forall p :: Within(p, r.value.Shape()) ==>
                             r.value.Show(p) == source.Show(Point(at.x + p.x, at.y + p.y))
    ensures r.Some? ==>
      var columns, rows := Clipped(region.x, region.width, logicalWidth), Clipped(region.y, region.height, logicalHeight);
      (forall i :: 0 <= i < source.width ==>
         (at.x <= i < at.x + r.value.width <==> Touches(i, columns.0, columns.1, logicalWidth, source.width)))
      && (forall j :: 0 <= j < source.height ==>
            (at.y <= j < at.y + r.value.height <==> Touches(j, rows.0, rows.1, logicalHeight, source.height)))
  {
    at := Point(0, 0);
    if logicalWidth <= 0 || logicalHeight <= 0 || region.width <= 0 || region.height <= 0 {
      return None, at;
    }
    var columns, rows := Clipped(region.x, region.width, logicalWidth), Clipped(region.y, region.height, logicalHeight);
    if columns.1 <= 0 || rows.1 <= 0 {
      return None, at;
    }
    var srcX0, srcX1 := CropSpan(columns.0, columns.1, logicalWidth, source.width);
    var srcY0, srcY1 := CropSpan(rows.0, rows.1, logicalHeight, source.height);
    var at0 := Point(srcX0, srcY0);
    at := at0;
    var outWidth, outHeight := srcX1 - srcX0, srcY1 - srcY0;
    if outWidth <= 0 || outHeight <= 0 {
      return None, at;
    }
    var cropped := CopyPart(source, at0, outWidth, outHeight);
    r := Some(cropped);
  }

  // ----- the parts of a region on the outputs -----

  datatype Target = Target(output: Output, localRegion: LogicalRect)

  predicate Counts(out: Output) {
    out.bound && out.logicalWidth > 0 && out.logicalHeight > 0
  }

  predicate Inside(x: int, y: int, r: LogicalRect) {
    r.x <= x < r.x + r.width && r.y <= y < r.y + r.height
  }

  function Area(out: Output): LogicalRect {
    LogicalRect(out.logicalX, out.logicalY, out.logicalWidth, out.logicalHeight)
  }

  /** The target is the part of the region on its output, in the output's own coordinates. */
  ghost predicate IsPart(t: Target, region: LogicalRect) {
    && Counts(t.output) && t.localRegion.width > 0 && t.localRegion.height > 0
    && forall x, y :: Inside(x - t.output.logicalX, y - t.output.logicalY, t.localRegion)
                      <==> Inside(x, y, region) && Inside(x, y, Area(t.output))
  }

  ghost predicate Meets(out: Output, region: LogicalRect) {
    Counts(out) && exists x, y :: Inside(x, y, region) && Inside(x, y, Area(out))
  }

  function Max(a: int, b: int): (m: int)
    ensures m >= a && m >= b && (m == a || m == b)
  {
    if a < b then b else a
  }

  function Min(a: int, b: int): (m: int)
    ensures m <= a && m <= b && (m == a || m == b)
  {
    if b < a then b else a
  }

  /** The region meets an output that is bound and not empty where the two overlap in both directions. */
  lemma MeetsIs(out: Output, region: LogicalRect)
    ensures Meets(out, region)
       <==> && out.bound && out.logicalWidth > 0 && out.logicalHeight > 0 && region.width > 0 && region.height > 0
            && region.x < out.logicalX + out.logicalWidth && out.logicalX < region.x + region.width
            && region.y < out.logicalY + out.logicalHeight && out.logicalY < region.y + region.height
  {
    var x, y := Max(region.x, out.logicalX), Max(region.y, out.logicalY);
    if Meets(out, region) {
      var i, j :| Inside(i, j, region) && Inside(i, j, Area(out));
    } else {
      assert !Counts(out) || !(Inside(x, y, region) && Inside(x, y, Area(out)));
    }
  }

  /** The part of the region on an output, in the output's own coordinates. */
  lemma PartIs(t: Target, region: LogicalRect)
    requires IsPart(t, region)
    ensures var r, out := t.localRegion, t.output;
            && out.bound && out.logicalX + r.x == Max(region.x, out.logicalX) && out.logicalY + r.y == Max(region.y, out.logicalY)
            && out.logicalX + r.x + r.width == Min(region.x + region.width, out.logicalX + out.logicalWidth)
            && out.logicalY + r.y + r.height == Min(region.y + region.height, out.logicalY + out.logicalHeight)
  {
    var r, out := t.localRegion, t.output;
    var left, top := out.logicalX + r.x, out.logicalY + r.y;
    var right, bottom := left + r.width, top + r.height;
    var a, b := Area(out), r;
    assert Inside(left - out.logicalX, top - out.logicalY, r) && Inside(right - 1 - out.logicalX, bottom - 1 - out.logicalY, r);
    assert Inside(left, top, region) && Inside(left, top, a) && Inside(right - 1, bottom - 1, region) && Inside(right - 1, bottom - 1, a);
    assert !Inside(left - 1 - out.logicalX, top - out.logicalY, r) && !Inside(right - out.logicalX, top - out.logicalY, r);
    assert !Inside(left - out.logicalX, top - 1 - out.logicalY, r) && !Inside(left - out.logicalX, bottom - out.logicalY, r);
    assert !(Inside(left - 1, top, region) && Inside(left - 1, top, a)) && !(Inside(right, top, region) && Inside(right, top, a));
    assert !(Inside(left, top - 1, region) && Inside(left, top - 1, a)) && !(Inside(left, bottom, region) && Inside(left, bottom, a));
  }

  /** One target for each output the region meets, in the order of the outputs; `source` are their indices. */
  method IntersectGlobalRegion(outputs: seq<Output>, globalRegion: LogicalRect)
    returns (targets: seq<Target>, ghost source: seq<nat>)
    ensures forall t <- targets :: t.output in outputs && IsPart(t, globalRegion)
    ensures forall out <- outputs :: Meets(out, globalRegion) ==> exists t :: t in targets && t.output == out
    ensures |source| == |targets|
    ensures forall k :: 0 <= k < |targets| ==>
      source[k] < |outputs| && targets[k].output == outputs[source[k]] && IsPart(targets[k], globalRegion)
    ensures forall j, k :: 0 <= j < k < |targets| ==> source[j] < source[k]
    ensures forall i :: 0 <= i < |outputs| && Meets(outputs[i], globalRegion) ==> i in source
  {
    var globalX0, globalY0 := globalRegion.x, globalRegion.y;
    var globalX1, globalY1 := globalRegion.x + globalRegion.width, globalRegion.y + globalRegion.height;
    targets, source := [], [];
    var i := 0;
    while i < |outputs|
      invariant 0 <= i <= |outputs| && |source| == |targets|
      invariant forall k :: 0 <= k < |targets| ==>
        source[k] < i && targets[k].output == outputs[source[k]] && IsPart(targets[k], globalRegion)
      invariant forall j, k :: 0 <= j < k < |targets| ==> source[j] < source[k]
      invariant forall n :: 0 <= n < i && Meets(outputs[n], globalRegion) ==> n in source
    {
      var out := outputs[i];
      i := i + 1;
      if !out.bound || out.logicalWidth <= 0 || out.logicalHeight <= 0 {
        continue;
      }
      var ix0, iy0 := Max(globalX0, out.logicalX), Max(globalY0, out.logicalY);
      var ix1, iy1 := Min(globalX1, out.logicalX + out.logicalWidth), Min(globalY1, out.logicalY + out.logicalHeight);
      if ix1 <= ix0 || iy1 <= iy0 {
        continue;
      }
      var target := Target(out, LogicalRect(ix0 - out.logicalX, iy0 - out.logicalY, ix1 - ix0, iy1 - iy0));
      targets, source := targets + [target], source + [i - 1];
    }
    MetHaveTargets(outputs, globalRegion, targets, source);
  }

  lemma MetHaveTargets(outputs: seq<Output>, region: LogicalRect, targets: seq<Target>, source: seq<nat>)
    requires |source| == |targets|
    requires forall k :: 0 <= k < |targets| ==> source[k] < |outputs| && targets[k].output == outputs[source[k]]
    requires forall i :: 0 <= i < |outputs| && Meets(outputs[i], region) ==> i in source
    ensures forall out <- outputs :: Meets(out, region) ==> exists t :: t in targets && t.output == out
  {
    forall out | out in outputs && Meets(out, region)
      ensures exists t :: t in targets && t.output == out
    {
      var n :| 0 <= n < |outputs| && outputs[n] == out;
      var k :| 0 <= k < |source| && source[k] == n;
      assert targets[k] in targets;
    }
  }

  // ----- composition -----

  /** A picture of the part of the layout that `rect` names, if its output is known. */
  datatype Tile = Tile(known: bool, rect: LogicalRect, image: Picture) {
    predicate Proper() {
      known && rect.width > 0 && rect.height > 0
    }

    /** Pixels for each unit of the layout, in the sharper direction. */
    function Density(): real
      requires Proper()
    {
      Larger(image.width as real / rect.width as real, image.height as real / rect.height as real)
    }
  }

  predicate AllProper(tiles: seq<Tile>) {
    forall i :: 0 <= i < |tiles| ==> tiles[i].Proper()
  }

  function Larger(a: real, b: real): (c: real)
    ensures c >= a && c >= b && (c == a || c == b)
  {
    if a < b then b else a
  }

  /** The density of the sharpest tile, and at least one. */
  function CanvasScale(tiles: seq<Tile>): (scale: real)
    requires AllProper(tiles)
    ensures scale >= 1.0 && forall i :: 0 <= i < |tiles| ==> scale >= tiles[i].Density()
    ensures scale == 1.0 || exists i :: 0 <= i < |tiles| && scale == tiles[i].Density()
  {
    if tiles == [] then 1.0
    else
      var before, last := tiles[..|tiles| - 1], tiles[|tiles| - 1];
      assert forall i :: 0 <= i < |before| ==> tiles[i] == before[i];
      Larger(CanvasScale(before), last.Density())
  }

  /** At its density a tile has its pixels in both directions, and no more than those in one. */
  lemma DensityIs(tile: Tile)
    requires tile.Proper()
    ensures var d, r, image := tile.Density(), tile.rect, tile.image;
            && d * r.width as real >= image.width as real && d * r.height as real >= image.height as real
            && (d * r.width as real == image.width as real || d * r.height as real == image.height as real)
  {
    Ratio(tile.Density(), tile.image.width, tile.rect.width);
    Ratio(tile.Density(), tile.image.height, tile.rect.height);
  }

  lemma Ratio(d: real, pixels: int, logical: int)
    requires logical > 0 && d >= pixels as real / logical as real
    ensures d * logical as real >= pixels as real
    ensures d == pixels as real / logical as real ==> d * logical as real == pixels as real
  {
    var ratio := pixels as real / logical as real;
    assert ratio * logical as real == pixels as real;
    assert (d - ratio) * logical as real >= 0.0;
  }

  /** No tile loses resolution. */
  lemma NoTileShrinks(tiles: seq<Tile>, i: nat)
    requires AllProper(tiles) && i < |tiles|
    ensures Scaled(CanvasScale(tiles), tiles[i].rect.width) >= tiles[i].image.width
    ensures Scaled(CanvasScale(tiles), tiles[i].rect.height) >= tiles[i].image.height
  {
    var tile, scale := tiles[i], CanvasScale(tiles);
    assert scale >= tile.Density();
    ScaleReaches(scale, tile.image.width, tile.rect.width);
    ScaleReaches(scale, tile.image.height, tile.rect.height);
  }

  lemma ScaleReaches(scale: real, pixels: int, logical: int)
    requires logical > 0 && scale >= pixels as real / logical as real
    ensures Scaled(scale, logical) >= pixels
  {
    var ratio := pixels as real / logical as real;
    assert ratio * logical as real == pixels as real;
    assert (scale - ratio) * logical as real >= 0.0;
  }

  /** `stbir_resize_uint8_srgb`: it may fail, and otherwise gives a picture of the size asked for. */
  type Resampler = (Picture, int, int) -> Option<Picture>

  ghost predicate Faithful(resample: Resampler) {
    forall image, w, h :: w > 0 && h > 0 && resample(image, w, h).Some? ==>
      resample(image, w, h).value.Shape() == Size(w, h) && resample(image, w, h).value.Drawn()
  }

  function ResampleRgbaImage(image: Picture, targetWidth: int, targetHeight: int, resample: Resampler): Option<Picture> {
    if targetWidth <= 0 || targetHeight <= 0 || image.width <= 0 || image.height <= 0 then None
    else if image.width == targetWidth && image.height == targetHeight then Some(image)
    else resample(image, targetWidth, targetHeight)
  }

  /** Where a tile goes on a canvas whose corner is at `origin` in the layout. */
  function Place(tile: Tile, scale: real, origin: Point, resample: Resampler): Option<Layer> {
    match ResampleRgbaImage(tile.image, Scaled(scale, tile.rect.width), Scaled(scale, tile.rect.height), resample)
    case Some(image) => Some(Layer(Point(Scaled(scale, tile.rect.x - origin.x), Scaled(scale, tile.rect.y - origin.y)), image))
    case None => None
  }

  /** A tile is put at the scaled place of its rectangle and made its scaled size: as it is when it has that size already,
      resampled otherwise; it has no place when it is empty or cannot be resampled. */
  lemma PlaceIs(tile: Tile, scale: real, origin: Point, resample: Resampler, w: int, h: int)
    requires Faithful(resample) && w == Scaled(scale, tile.rect.width) && h == Scaled(scale, tile.rect.height)
    ensures var placed, at := Place(tile, scale, origin, resample),
                              Point(Scaled(scale, tile.rect.x - origin.x), Scaled(scale, tile.rect.y - origin.y));
            if w <= 0 || h <= 0 || tile.image.width <= 0 || tile.image.height <= 0 then placed == None
            else if tile.image.Shape() == Size(w, h) then placed == Some(Layer(at, tile.image))
            else if resample(tile.image, w, h).None? then placed == None
            else placed == Some(Layer(at, resample(tile.image, w, h).value)) && placed.value.image.Shape() == Size(w, h)
  {
  }

  function PlaceAll(tiles: seq<Tile>, scale: real, origin: Point, resample: Resampler): (layers: Option<seq<Layer>>)
    ensures layers.Some? <==> forall i :: 0 <= i < |tiles| ==> Place(tiles[i], scale, origin, resample).Some?
    ensures layers.Some? ==> |layers.value| == |tiles|
                             && forall i :: 0 <= i < |tiles| ==> Some(layers.value[i]) == Place(tiles[i], scale, origin, resample)
  {
    if tiles == [] then Some([])
    else
      var before, last := tiles[..|tiles| - 1], tiles[|tiles| - 1];
      assert forall i :: 0 <= i < |before| ==> tiles[i] == before[i];
      match (PlaceAll(before, scale, origin, resample), Place(last, scale, origin, resample))
      case (Some(layers), Some(layer)) => Some(layers + [layer])
      case _ => None
  }

  /** The picture shows the layers one on another, and nothing where there is none. */
  ghost predicate Composed(r: Picture, layers: seq<Layer>) {
    r.Drawn() && forall p :: Within(p, r.Shape()) ==> r.Show(p) == Top(layers, p)
  }

  ghost predicate Stacked(s: Size, now: Grid, layers: seq<Layer>) {
    Fits(now, s) && forall p :: Within(p, s) ==> At(now, s, p) == Top(layers, p)
  }

  lemma StacksOn(s: Size, was: Grid, now: Grid, layers: seq<Layer>, layer: Layer)
    requires Stacked(s, was, layers) && Blitted(s, was, now, layer)
    ensures Stacked(s, now, layers + [layer])
  {
    assert (layers + [layer])[..|layers|] == layers;
  }

  method BlankCanvas(w: int, h: int) returns (canvas: array<Byte>)
    requires w > 0 && h > 0
    ensures fresh(canvas) && Sized(canvas[..], w, h) && Stacked(Size(w, h), Rows(canvas[..], w, h, h), [])
  {
    canvas := new Byte[4 * (w * h)](_ => 0);
    forall p | Within(p, Size(w, h))
      ensures At(Rows(canvas[..], w, h, h), Size(w, h), p) == BLANK
    {
      RowsAt(canvas[..], w, h, h, p.x, p.y);
      CellInside(w, h, p.x, p.y);
    }
  }

  method MeasureScale(tiles: seq<Tile>) returns (scale: Option<real>)
    ensures scale == if AllProper(tiles) then Some(CanvasScale(tiles)) else None
  {
    var canvasScale := 1.0;
    var i := 0;
    while i < |tiles|
      invariant 0 <= i <= |tiles| && AllProper(tiles[..i]) && canvasScale == CanvasScale(tiles[..i])
    {
      if !tiles[i].Proper() {
        return None;
      }
      assert tiles[..i + 1][..i] == tiles[..i];
      canvasScale := Larger(canvasScale, tiles[i].Density());
      i := i + 1;
    }
    assert tiles[..i] == tiles;
    scale := Some(canvasScale);
  }

  method BlitPiece(canvas: array<Byte>, w: int, h: int, piece: Tile, scale: real, origin: Point, resample: Resampler,
                   ghost layers: seq<Layer>)
    returns (ok: bool, ghost layer: Option<Layer>)
    requires Faithful(resample) && piece.image.Valid()
    requires Sized(canvas[..], w, h) && Stacked(Size(w, h), Rows(canvas[..], w, h, h), layers)
    modifies canvas
    ensures layer == Place(piece, scale, origin, resample) && ok == layer.Some?
    ensures ok ==> Stacked(Size(w, h), Rows(canvas[..], w, h, h), layers + [layer.value])
  {
    var destX, destY := Scaled(scale, piece.rect.x - origin.x), Scaled(scale, piece.rect.y - origin.y);
    var resampled := ResampleRgbaImage(piece.image, Scaled(scale, piece.rect.width), Scaled(scale, piece.rect.height), resample);
    if resampled.None? {
      return false, None;
    }
    ghost var was, placed := Rows(canvas[..], w, h, h), Layer(Point(destX, destY), resampled.value);
    BlitOpaqueRgba(canvas, w, h, destX, destY, resampled.value);
    StacksOn(Size(w, h), was, Rows(canvas[..], w, h, h), layers, placed);
    return true, Some(placed);
  }

  /** Each piece is resampled and blitted in turn; false when one cannot be. */
  method BlitPieces(canvas: array<Byte>, w: int, h: int, pieces: seq<Tile>, scale: real, origin: Point, resample: Resampler)
    returns (ok: bool)
    requires Faithful(resample) && (forall i :: 0 <= i < |pieces| ==> pieces[i].image.Valid())
    requires Sized(canvas[..], w, h) && Stacked(Size(w, h), Rows(canvas[..], w, h, h), [])
    modifies canvas
    ensures ok == PlaceAll(pieces, scale, origin, resample).Some?
    ensures ok ==> Stacked(Size(w, h), Rows(canvas[..], w, h, h), PlaceAll(pieces, scale, origin, resample).value)
  {
    ghost var layers: seq<Layer> := [];
    var i := 0;
    while i < |pieces|
      invariant 0 <= i <= |pieces| && Sized(canvas[..], w, h)
      invariant PlaceAll(pieces[..i], scale, origin, resample) == Some(layers)
      invariant Stacked(Size(w, h), Rows(canvas[..], w, h, h), layers)
    {
      assert pieces[..i + 1][..i] == pieces[..i];
      ghost var layer;
      ok, layer := BlitPiece(canvas, w, h, pieces[i], scale, origin, resample, layers);
      if !ok {
        return;
      }
      layers := layers + [layer.value];
      i := i + 1;
    }
    assert pieces[..i] == pieces;
    ok := true;
  }

  /** `composeGlobalRegion`, of pieces given in layout coordinates. */
  method ComposeGlobalRegion(globalRegion: LogicalRect, pieces: seq<Tile>, resample: Resampler) returns (r: Option<Picture>)
    requires Faithful(resample) && forall i :: 0 <= i < |pieces| ==> pieces[i].image.Valid()
    ensures globalRegion.width <= 0 || globalRegion.height <= 0 || pieces == [] ==> r == None
    ensures globalRegion.width > 0 && globalRegion.height > 0 && |pieces| == 1 ==> r == Some(pieces[0].image)
    ensures globalRegion.width > 0 && globalRegion.height > 0 && |pieces| > 1 ==>
      if !AllProper(pieces) then r == None
      else
        var scale := CanvasScale(pieces);
        var layers := PlaceAll(pieces, scale, Point(globalRegion.x, globalRegion.y), resample);
        (r.Some? <==> layers.Some?)
        && (r.Some? ==> r.value.Shape() == Size(Scaled(scale, globalRegion.width), Scaled(scale, globalRegion.height))
                        && Composed(r.value, layers.value))
  {
    if globalRegion.width <= 0 || globalRegion.height <= 0 || pieces == [] {
      return None;
    }
    if |pieces| == 1 {
      return Some(pieces[0].image);
    }
    var measured := MeasureScale(pieces);
    if measured.None? {
      return None;
    }
    var scale := measured.value;
    var canvasWidth, canvasHeight := Scaled(scale, globalRegion.width), Scaled(scale, globalRegion.height);
    ScaledGrows(scale, globalRegion.width, globalRegion.width);
    ScaledGrows(scale, globalRegion.height, globalRegion.height);
    if canvasWidth <= 0 || canvasHeight <= 0 {
      return None;
    }
    var canvas := BlankCanvas(canvasWidth, canvasHeight);
    var ok := BlitPieces(canvas, canvasWidth, canvasHeight, pieces, scale, Point(globalRegion.x, globalRegion.y), resample);
    if !ok {
      return None;
    }
    r := Some(Picture(canvasWidth, canvasHeight, canvas[..]));
  }

  predicate Encloses(outer: LogicalRect, inner: LogicalRect) {
    && outer.x <= inner.x && inner.x + inner.width <= outer.x + outer.width
    && outer.y <= inner.y && inner.y + inner.height <= outer.y + outer.height
  }

  /** The target's rectangle in layout coordinates. */
  function GlobalRect(t: Target): LogicalRect {
    LogicalRect(t.output.logicalX + t.localRegion.x, t.output.logicalY + t.localRegion.y,
                t.localRegion.width, t.localRegion.height)
  }

  lemma PartIsEnclosed(t: Target, region: LogicalRect)
    requires IsPart(t, region)
    ensures Encloses(region, GlobalRect(t))
  {
    var r, out := t.localRegion, t.output;
    var left, top := out.logicalX + r.x, out.logicalY + r.y;
    assert Inside(left, top, region);
    assert Inside(left + r.width - 1, top + r.height - 1, region);
  }

  /** Rounding puts a piece of the region at most one row and one column over the edge of its canvas. */
  lemma PieceLosesAtMostOne(piece: Tile, region: LogicalRect, scale: real, resample: Resampler)
    requires scale >= 1.0 && Faithful(resample) && Encloses(region, piece.rect)
    requires Place(piece, scale, Point(region.x, region.y), resample).Some?
    ensures var layer := Place(piece, scale, Point(region.x, region.y), resample).value;
            && 0 <= layer.at.x && layer.at.x + layer.image.width <= Scaled(scale, region.width) + 1
            && 0 <= layer.at.y && layer.at.y + layer.image.height <= Scaled(scale, region.height) + 1
  {
    OverlapsByAtMostOne(scale, piece.rect.x - region.x, piece.rect.width, region.width);
    OverlapsByAtMostOne(scale, piece.rect.y - region.y, piece.rect.height, region.height);
  }

  lemma OverlapsByAtMostOne(scale: real, offset: int, size: int, whole: int)
    requires scale >= 1.0 && 0 <= offset && offset + size <= whole
    ensures 0 <= Scaled(scale, offset) && Scaled(scale, offset) + Scaled(scale, size) <= Scaled(scale, whole) + 1
  {
    ScaledSum(scale, offset, size);
    ScaledGrows(scale, offset + size, whole);
    ScaledGrows(scale, offset, offset);
  }

  /** Where two tiles meet in the layout, they meet on the canvas within one pixel. */
  lemma EdgesMeet(a: Tile, b: Tile, scale: real, origin: Point, resample: Resampler)
    requires Faithful(resample)
    requires Place(a, scale, origin, resample).Some? && Place(b, scale, origin, resample).Some?
    ensures var p, q := Place(a, scale, origin, resample).value, Place(b, scale, origin, resample).value;
            && (a.rect.x + a.rect.width == b.rect.x ==> -1 <= q.at.x - (p.at.x + p.image.width) <= 1)
            && (a.rect.y + a.rect.height == b.rect.y ==> -1 <= q.at.y - (p.at.y + p.image.height) <= 1)
  {
    ScaledSum(scale, a.rect.x - origin.x, a.rect.width);
    ScaledSum(scale, a.rect.y - origin.y, a.rect.height);
  }

  // ----- stitching -----

  predicate Fitting(layer: Layer, s: Size) {
    && 0 <= layer.at.x && layer.at.x + layer.image.width <= s.w
    && 0 <= layer.at.y && layer.at.y + layer.image.height <= s.h
  }

  /** The smallest canvas the layers fit on. */
  predicate Snug(layers: seq<Layer>, s: Size) {
    && (forall i :: 0 <= i < |layers| ==> Fitting(layers[i], s))
    && (exists i :: 0 <= i < |layers| && layers[i].at.x + layers[i].image.width == s.w)
    && (exists i :: 0 <= i < |layers| && layers[i].at.y + layers[i].image.height == s.h)
  }

  predicate IsCorner(tiles: seq<Tile>, c: Point) {
    && (forall i :: 0 <= i < |tiles| ==> c.x <= tiles[i].rect.x && c.y <= tiles[i].rect.y)
    && (exists i :: 0 <= i < |tiles| && tiles[i].rect.x == c.x)
    && (exists i :: 0 <= i < |tiles| && tiles[i].rect.y == c.y)
  }

  method TopLeft(tiles: seq<Tile>) returns (corner: Point)
    requires tiles != []
    ensures IsCorner(tiles, corner)
  {
    var minLogicalX, minLogicalY := tiles[0].rect.x, tiles[0].rect.y;
    var i := 0;
    while i < |tiles|
      invariant 0 <= i <= |tiles|
      invariant forall k :: 0 <= k < i ==> minLogicalX <= tiles[k].rect.x && minLogicalY <= tiles[k].rect.y
      invariant exists k :: 0 <= k < |tiles| && tiles[k].rect.x == minLogicalX
      invariant exists k :: 0 <= k < |tiles| && tiles[k].rect.y == minLogicalY
    {
      minLogicalX := Min(minLogicalX, tiles[i].rect.x);
      minLogicalY := Min(minLogicalY, tiles[i].rect.y);
      i := i + 1;
    }
    corner := Point(minLogicalX, minLogicalY);
  }

  /** One frame is resampled, and the canvas grows to hold it. */
  method PlaceFrame(frame: Tile, scale: real, corner: Point, resample: Resampler, canvasWidth: int, canvasHeight: int)
    returns (layer: Option<Layer>, w: int, h: int)
    requires scale >= 1.0 && Faithful(resample) && frame.Proper() && corner.x <= frame.rect.x && corner.y <= frame.rect.y
    ensures layer == Place(frame, scale, corner, resample)
    ensures layer.Some? ==> Grown(layer.value, Size(canvasWidth, canvasHeight), Size(w, h))
                            && (frame.image.Valid() ==> layer.value.image.Valid())
  {
    var targetWidth, targetHeight := Scaled(scale, frame.rect.width), Scaled(scale, frame.rect.height);
    var resampled := ResampleRgbaImage(frame.image, targetWidth, targetHeight, resample);
    if resampled.None? {
      return None, canvasWidth, canvasHeight;
    }
    var x, y := Scaled(scale, frame.rect.x - corner.x), Scaled(scale, frame.rect.y - corner.y);
    ScaledGrows(scale, frame.rect.x - corner.x, frame.rect.x - corner.x);
    ScaledGrows(scale, frame.rect.y - corner.y, frame.rect.y - corner.y);
    layer := Some(Layer(Point(x, y), resampled.value));
    w, h := Max(canvasWidth, x + targetWidth), Max(canvasHeight, y + targetHeight);
  }

  /** The layer is on the canvas, which grew no more than it had to. */
  predicate Grown(layer: Layer, s: Size, s': Size) {
    && layer.at.x >= 0 && layer.at.y >= 0 && layer.image.width > 0 && layer.image.height > 0
    && s' == Size(Max(s.w, layer.at.x + layer.image.width), Max(s.h, layer.at.y + layer.image.height))
  }

  /** Every frame is resampled; nothing when one cannot be. */
  method PlaceFrames(frames: seq<Tile>, scale: real, corner: Point, resample: Resampler)
    returns (layers: Option<seq<Layer>>, w: int, h: int)
    requires scale >= 1.0 && Faithful(resample) && frames != [] && AllProper(frames) && IsCorner(frames, corner)
    requires forall i :: 0 <= i < |frames| ==> frames[i].image.Valid()
    ensures layers == PlaceAll(frames, scale, corner, resample)
    ensures layers.Some? ==> w > 0 && h > 0 && Snug(layers.value, Size(w, h))
                             && forall i :: 0 <= i < |layers.value| ==> layers.value[i].image.Valid()
  {
    var placed: seq<Layer> := [];
    w, h := 0, 0;
    var i := 0;
    while i < |frames|
      invariant 0 <= i <= |frames| && PlaceAll(frames[..i], scale, corner, resample) == Some(placed)
      invariant forall k :: 0 <= k < |placed| ==> placed[k].image.Valid()
      invariant if i == 0 then w == 0 && h == 0 else w > 0 && h > 0 && Snug(placed, Size(w, h))
    {
      assert frames[..i + 1][..i] == frames[..i];
      ghost var s := Size(w, h);
      var layer;
      layer, w, h := PlaceFrame(frames[i], scale, corner, resample, w, h);
      if layer.None? {
        return None, w, h;
      }
      StaysSnug(placed, layer.value, s, Size(w, h));
      placed := placed + [layer.value];
      i := i + 1;
    }
    assert frames[..i] == frames;
    layers := Some(placed);
  }

  lemma StaysSnug(layers: seq<Layer>, layer: Layer, s: Size, s': Size)
    requires (layers == [] && s == Size(0, 0)) || Snug(layers, s)
    requires Grown(layer, s, s')
    ensures Snug(layers + [layer], s')
  {
    var all := layers + [layer];
    assert all[|layers|] == layer;
    if layers != [] {
      var i :| 0 <= i < |layers| && layers[i].at.x + layers[i].image.width == s.w;
      var j :| 0 <= j < |layers| && layers[j].at.y + layers[j].image.height == s.h;
      assert all[i] == layers[i] && all[j] == layers[j];
    }
  }

  method CheckFrames(frames: seq<Tile>) returns (proper: bool)
    ensures proper == AllProper(frames)
  {
    var i := 0;
    while i < |frames|
      invariant 0 <= i <= |frames| && AllProper(frames[..i])
    {
      if !frames[i].Proper() {
        return false;
      }
      i := i + 1;
    }
    assert frames[..i] == frames;
    proper := true;
  }

  /** `stitchOutputFrames`: every frame in full, on the smallest canvas that holds them all. */
  method StitchOutputFrames(frames: seq<Tile>, resample: Resampler) returns (r: Option<Picture>, ghost corner: Point)
    requires Faithful(resample) && forall i :: 0 <= i < |frames| ==> frames[i].image.Valid()
    ensures frames == [] || !AllProper(frames) ==> r == None
    ensures |frames| == 1 && AllProper(frames) ==> r == Some(frames[0].image)
    ensures |frames| > 1 && AllProper(frames) ==>
      var layers := PlaceAll(frames, CanvasScale(frames), corner, resample);
      IsCorner(frames, corner) && (r.Some? <==> layers.Some?)
      && (r.Some? ==> Snug(layers.value, r.value.Shape()) && Composed(r.value, layers.value))
  {
    corner := Point(0, 0);
    if frames == [] {
      return None, corner;
    }
    var proper := CheckFrames(frames);
    if !proper {
      return None, corner;
    }
    if |frames| == 1 {
      return Some(frames[0].image), corner;
    }
    var scale := MeasureScale(frames);
    var topLeft := TopLeft(frames);
    corner := topLeft;
    var layers, canvasWidth, canvasHeight := PlaceFrames(frames, scale.value, topLeft, resample);
    if layers.None? {
      return None, corner;
    }
    var canvas := BlankCanvas(canvasWidth, canvasHeight);
    BlitFrames(canvas, canvasWidth, canvasHeight, layers.value);
    r := Some(Picture(canvasWidth, canvasHeight, canvas[..]));
  }

  method BlitFrames(canvas: array<Byte>, w: int, h: int, layers: seq<Layer>)
    requires Sized(canvas[..], w, h) && Stacked(Size(w, h), Rows(canvas[..], w, h, h), [])
    requires forall i :: 0 <= i < |layers| ==> layers[i].image.Valid()
    modifies canvas
    ensures Stacked(Size(w, h), Rows(canvas[..], w, h, h), layers)
  {
    var i := 0;
    while i < |layers|
      invariant 0 <= i <= |layers| && Sized(canvas[..], w, h)
      invariant Stacked(Size(w, h), Rows(canvas[..], w, h, h), layers[..i])
    {
      ghost var was := Rows(canvas[..], w, h, h);
      BlitOpaqueRgba(canvas, w, h, layers[i].at.x, layers[i].at.y, layers[i].image);
      StacksOn(Size(w, h), was, Rows(canvas[..], w, h, h), layers[..i], layers[i]);
      assert layers[..i + 1] == layers[..i] + [layers[i]];
      i := i + 1;
    }
    assert layers[..i] == layers;
  }
}
