/** Conversion of a shared-memory frame, whatever its pixel format, to RGBA bytes. */
module Convert {
  import opened Pixels

  datatype Format = ARGB8888 | XRGB8888 | ABGR8888 | XBGR8888
                  | XRGB2101010 | ARGB2101010 | XBGR2101010 | ABGR2101010
                  | RGBX1010102 | RGBA1010102 | BGRX1010102 | BGRA1010102
                  | OtherFormat(code: int)

  function BytesPerPixelFromStride(width: int, stride: int): (bytes: int)
    ensures bytes != 0 <==> 0 < width && 3 * width <= stride
    ensures bytes != 0 ==> (bytes == 3 || bytes == 4) && bytes * width <= stride
    ensures bytes == 3 ==> stride < 4 * width
  {
    if width <= 0 || stride <= 0 then 0
    else if stride >= width * 4 then 4
    else if stride >= width * 3 then 3
    else 0
  }

  predicate IsPacked2101010(format: Format) {
    !(format.ARGB8888? || format.XRGB8888? || format.ABGR8888? || format.XBGR8888? || format.OtherFormat?)
  }

  // ----- one pixel -----

  /** `(v >> shift) & (2^bits - 1)`, given the powers. */
  function Field(v: nat, shifted: nat, size: nat): (f: nat)
    requires shifted > 0 && size > 0
    ensures f < size
  {
    v / shifted % size
  }

  function Word(px: seq<Byte>): (v: nat)
    requires |px| == 4
    ensures v < 0x1_0000_0000
  {
    px[0] as nat + px[1] as nat * 0x100 + px[2] as nat * 0x1_0000 + px[3] as nat * 0x100_0000
  }

  /** The top eight of ten bits. */
  function Top8(channel: nat): (top: Byte)
    requires channel < 1024
    ensures 4 * top as nat <= channel < 4 * top as nat + 4
  {
    (channel / 4) as Byte
  }

  /** Two bits of alpha over the range of eight. */
  function Alpha8(a2: nat): (alpha: Byte)
    requires a2 < 4
    ensures 3 * alpha as nat == 255 * a2
  {
    (a2 * 0x55) as Byte
  }

  function DecodePacked2101010(px: seq<Byte>, format: Format): Pixel
    requires |px| == 4
  {
    var v := Word(px);
    if format.ARGB2101010? || format.XRGB2101010? then
      Pixel(Top8(Field(v, 0x10_0000, 1024)), Top8(Field(v, 0x400, 1024)), Top8(Field(v, 1, 1024)),
            if format.ARGB2101010? then Alpha8(Field(v, 0x4000_0000, 4)) else 255)
    else if format.ABGR2101010? || format.XBGR2101010? then
      Pixel(Top8(Field(v, 1, 1024)), Top8(Field(v, 0x400, 1024)), Top8(Field(v, 0x10_0000, 1024)),
            if format.ABGR2101010? then Alpha8(Field(v, 0x4000_0000, 4)) else 255)
    else if format.RGBA1010102? || format.RGBX1010102? then
      Pixel(Top8(Field(v, 0x40_0000, 1024)), Top8(Field(v, 0x1000, 1024)), Top8(Field(v, 4, 1024)),
            if format.RGBA1010102? then Alpha8(Field(v, 1, 4)) else 255)
    else if format.BGRA1010102? || format.BGRX1010102? then
      Pixel(Top8(Field(v, 4, 1024)), Top8(Field(v, 0x1000, 1024)), Top8(Field(v, 0x40_0000, 1024)),
            if format.BGRA1010102? then Alpha8(Field(v, 1, 4)) else 255)
    else Pixel(0, 0, 0, 255)
  }

  /** One pixel of `bytes` bytes. */
  function Decode(px: seq<Byte>, format: Format): Pixel
    requires |px| == 3 || |px| == 4
  {
    if |px| == 3 then Pixel(px[0], px[1], px[2], 255)
    else if IsPacked2101010(format) then DecodePacked2101010(px, format)
    else match format
         case ARGB8888 => Pixel(px[2], px[1], px[0], px[3])
         case XRGB8888 => Pixel(px[2], px[1], px[0], 255)
         case ABGR8888 => Pixel(px[0], px[1], px[2], px[3])
         case _ => Pixel(px[0], px[1], px[2], 255)
  }

  // ----- decoding undoes what a compositor packs -----

  predicate HasAlpha(format: Format) {
    format.ARGB8888? || format.ABGR8888? || format.ARGB2101010? || format.ABGR2101010?
    || format.RGBA1010102? || format.BGRA1010102?
  }

  /** The four bytes of a word, least significant first. */
  function LittleEndian(v: nat): (px: seq<Byte>)
    requires v < 0x1_0000_0000
    ensures |px| == 4
  {
    [(v % 0x100) as Byte, (v / 0x100 % 0x100) as Byte, (v / 0x1_0000 % 0x100) as Byte, (v / 0x100_0000) as Byte]
  }

  lemma WordOfLittleEndian(v: nat)
    requires v < 0x1_0000_0000
    ensures Word(LittleEndian(v)) == v
  {
    assert v / 0x100 / 0x100 == v / 0x1_0000;
    assert v / 0x1_0000 / 0x100 == v / 0x100_0000;
  }

  lemma Quotient(q: nat, d: nat, r: nat)
    requires r < d
    ensures (q * d + r) / d == q && (q * d + r) % d == r
  {
    var k, m := (q * d + r) / d, (q * d + r) % d;
    SameQuotient(q, k, d, r, m);
  }

  lemma SameQuotient(q: nat, k: nat, d: nat, r: nat, m: nat)
    requires r < d && m < d && q * d + r == k * d + m
    ensures q == k && r == m
  {
    var delta := k - q;
    assert delta * d == k * d - q * d == r - m;
    if delta >= 1 {
      ManyRows(delta, d);
    }
    if delta <= -1 {
      ManyRows(-delta, d);
    }
  }

  /** Reading a field skips what is above and below it. */
  lemma FieldIs(high: nat, f: nat, low: nat, shifted: nat, size: nat)
    requires shifted > 0 && f < size && low < shifted
    ensures Field((high * size + f) * shifted + low, shifted, size) == f
  {
    Quotient(high * size + f, shifted, low);
    Quotient(high, size, f);
  }

  /** Ten bits a colour and two of alpha: alpha on top for 2:10:10:10, at the bottom for 10:10:10:2. */
  function Packed(format: Format, r: nat, g: nat, b: nat, a: nat): (v: nat)
    requires r < 1024 && g < 1024 && b < 1024 && a < 4
    ensures v < 0x1_0000_0000
  {
    if format.ARGB2101010? || format.XRGB2101010? then a * 0x4000_0000 + r * 0x10_0000 + g * 0x400 + b
    else if format.ABGR2101010? || format.XBGR2101010? then a * 0x4000_0000 + b * 0x10_0000 + g * 0x400 + r
    else if format.RGBA1010102? || format.RGBX1010102? then r * 0x40_0000 + g * 0x1000 + b * 4 + a
    else b * 0x40_0000 + g * 0x1000 + r * 4 + a
  }

  lemma AlphaOnTop(a: nat, x: nat, y: nat, z: nat)
    requires a < 4 && x < 1024 && y < 1024 && z < 1024
    ensures var v := a * 0x4000_0000 + x * 0x10_0000 + y * 0x400 + z;
            Field(v, 0x4000_0000, 4) == a && Field(v, 0x10_0000, 1024) == x && Field(v, 0x400, 1024) == y && Field(v, 1, 1024) == z
  {
    FieldIs(0, a, x * 0x10_0000 + y * 0x400 + z, 0x4000_0000, 4);
    FieldIs(a, x, y * 0x400 + z, 0x10_0000, 1024);
    FieldIs(a * 1024 + x, y, z, 0x400, 1024);
    FieldIs((a * 1024 + x) * 1024 + y, z, 0, 1, 1024);
  }

  lemma AlphaAtBottom(x: nat, y: nat, z: nat, a: nat)
    requires a < 4 && x < 1024 && y < 1024 && z < 1024
    ensures var v := x * 0x40_0000 + y * 0x1000 + z * 4 + a;
            Field(v, 1, 4) == a && Field(v, 0x40_0000, 1024) == x && Field(v, 0x1000, 1024) == y && Field(v, 4, 1024) == z
  {
    FieldIs((x * 1024 + y) * 1024 + z, a, 0, 1, 4);
    FieldIs(0, x, y * 0x1000 + z * 4 + a, 0x40_0000, 1024);
    FieldIs(x, y, z * 4 + a, 0x1000, 1024);
    FieldIs(x * 1024 + y, z, a, 4, 1024);
  }

  /** A packed pixel decodes to the top eight bits of each colour, and to its alpha if the format has one. */
  lemma PackedDecodes(format: Format, r: nat, g: nat, b: nat, a: nat)
    requires !IsPlain8888(format) && !format.OtherFormat? && r < 1024 && g < 1024 && b < 1024 && a < 4
    ensures Decode(LittleEndian(Packed(format, r, g, b, a)), format)
         == Pixel(Top8(r), Top8(g), Top8(b), if HasAlpha(format) then Alpha8(a) else 255)
  {
    WordOfLittleEndian(Packed(format, r, g, b, a));
    if format.ARGB2101010? || format.XRGB2101010? {
      AlphaOnTop(a, r, g, b);
    } else if format.ABGR2101010? || format.XBGR2101010? {
      AlphaOnTop(a, b, g, r);
    } else if format.RGBA1010102? || format.RGBX1010102? {
      AlphaAtBottom(r, g, b, a);
    } else {
      AlphaAtBottom(b, g, r, a);
    }
  }

  // ----- eight bits a colour -----

  predicate IsPlain8888(format: Format) {
    format.ARGB8888? || format.XRGB8888? || format.ABGR8888? || format.XBGR8888?
  }

  /** Eight bits a colour and of alpha, in the order of the format's name from the top. */
  function Packed8888(format: Format, p: Pixel): (v: nat)
    ensures v < 0x1_0000_0000
  {
    var r, g, b, a := p.r as nat, p.g as nat, p.b as nat, p.a as nat;
    if format.ARGB8888? || format.XRGB8888? then a * 0x100_0000 + r * 0x1_0000 + g * 0x100 + b
    else a * 0x100_0000 + b * 0x1_0000 + g * 0x100 + r
  }

  lemma BytesOfWord(a: Byte, x: Byte, y: Byte, z: Byte)
    ensures var v := a as nat * 0x100_0000 + x as nat * 0x1_0000 + y as nat * 0x100 + z as nat;
            v < 0x1_0000_0000 && LittleEndian(v) == [z, y, x, a]
  {
    var v := a as nat * 0x100_0000 + x as nat * 0x1_0000 + y as nat * 0x100 + z as nat;
    assert v / 0x100 == a as nat * 0x1_0000 + x as nat * 0x100 + y as nat;
    assert v / 0x1_0000 == a as nat * 0x100 + x as nat;
  }

  /** A plain pixel decodes to the colours it was packed from, and to its alpha if the format has one. */
  lemma PlainDecodes(format: Format, p: Pixel)
    requires IsPlain8888(format)
    ensures Decode(LittleEndian(Packed8888(format, p)), format) == p.(a := if HasAlpha(format) then p.a else 255)
  {
    if format.ARGB8888? || format.XRGB8888? {
      BytesOfWord(p.a, p.r, p.g, p.b);
    } else {
      BytesOfWord(p.a, p.b, p.g, p.r);
    }
  }

  /** Three bytes are red, green and blue whatever the format says, and so are the first three of a format that is not
      known. */
  lemma BytesDecode(format: Format, r: Byte, g: Byte, b: Byte, x: Byte)
    ensures Decode([r, g, b], format) == Pixel(r, g, b, 255)
    ensures format.OtherFormat? ==> Decode([r, g, b, x], format) == Pixel(r, g, b, 255)
  {
  }

  // ----- the frame -----

  datatype Frame = Frame(src: seq<Byte>, width: int, height: int, stride: int, format: Format) {
    function Bytes(): int {
      BytesPerPixelFromStride(width, stride)
    }

    predicate Readable() {
      height > 0 && Bytes() != 0 && |src| >= stride * height
    }

    function Shape(): Size {
      Size(width, height)
    }

    /** The pixel at a point of the frame, whose rows are `stride` bytes apart. */
    function PixelOf(p: Point): Pixel
      requires Readable() && Within(p, Shape())
    {
      RowInside(width, height, stride, Bytes(), p.x, p.y);
      var start := p.y * stride + p.x * Bytes();
      Decode(src[start..start + Bytes()], format)
    }

    /** The same for every point, upside down if `yInvert`. */
    function Wanted(yInvert: bool, p: Point): Pixel {
      if Readable() && Within(p, Shape()) then PixelOf(if yInvert then Point(p.x, height - 1 - p.y) else p)
      else Pixel(0, 0, 0, 0)
    }
  }

  lemma RowInside(width: nat, height: nat, stride: nat, bytes: nat, x: nat, y: nat)
    requires x < width && y < height && bytes * width <= stride
    ensures y * stride + x * bytes + bytes <= stride * height
  {
    assert (x + 1) * bytes <= width * bytes;
    assert (y + 1) * stride <= height * stride;
  }

  ghost predicate Shows(frame: Frame, yInvert: bool, g: Grid)
    requires frame.Readable()
  {
    && Fits(g, frame.Shape())
    && forall p :: Within(p, frame.Shape()) ==>
         At(g, frame.Shape(), p) == frame.PixelOf(if yInvert then Point(p.x, frame.height - 1 - p.y) else p)
  }

  /** One pixel is read, inside the frame, and written. */
  method ConvertPixel(frame: Frame, bytesPerPixel: int, x: int, y: int, srcY: int, out: array<Byte>, ghost wanted: Point -> Pixel)
    requires frame.Readable() && bytesPerPixel == frame.Bytes() && Within(Point(x, y), frame.Shape())
    requires Sized(out[..], frame.width, frame.height) && 0 <= srcY < frame.height
    requires Painted(frame.Shape(), wanted, Rows(out[..], frame.width, frame.height, frame.height), Point(x, y))
    requires wanted(Point(x, y)) == frame.PixelOf(Point(x, srcY))
    modifies out
    ensures Painted(frame.Shape(), wanted, Rows(out[..], frame.width, frame.height, frame.height), Point(x + 1, y))
  {
    ghost var was := Rows(out[..], frame.width, frame.height, frame.height);
    RowInside(frame.width, frame.height, frame.stride, bytesPerPixel, x, srcY);
    var start := srcY * frame.stride + x * bytesPerPixel;
    var pixel := Decode(frame.src[start..start + bytesPerPixel], frame.format);
    StorePixel(out, frame.width, frame.height, x, y, pixel);
    PaintsOn(frame.Shape(), wanted, was, Rows(out[..], frame.width, frame.height, frame.height), Point(x, y));
  }

  method ConvertRow(frame: Frame, bytesPerPixel: int, y: int, srcY: int, out: array<Byte>, ghost wanted: Point -> Pixel)
    requires frame.Readable() && bytesPerPixel == frame.Bytes() && 0 <= y < frame.height && 0 <= srcY < frame.height
    requires Sized(out[..], frame.width, frame.height)
    requires Painted(frame.Shape(), wanted, Rows(out[..], frame.width, frame.height, frame.height), Point(0, y))
    requires forall x :: 0 <= x < frame.width ==> wanted(Point(x, y)) == frame.PixelOf(Point(x, srcY))
    modifies out
    ensures Painted(frame.Shape(), wanted, Rows(out[..], frame.width, frame.height, frame.height), Point(0, y + 1))
  {
    var x := 0;
    while x < frame.width
      invariant 0 <= x <= frame.width
      invariant Painted(frame.Shape(), wanted, Rows(out[..], frame.width, frame.height, frame.height), Point(x, y))
    {
      ConvertPixel(frame, bytesPerPixel, x, y, srcY, out, wanted);
      x := x + 1;
    }
  }

  /** `convertToRgba`, from a buffer of `stride * height` bytes; a frame without rows gives no bytes. */
  method ConvertToRgba(frame: Frame, yInvert: bool) returns (ok: bool, out: array<Byte>)
    requires frame.height >= 0 && (frame.stride > 0 ==> |frame.src| >= frame.stride * frame.height)
    ensures ok <==> 0 < frame.width && 3 * frame.width <= frame.stride
    ensures ok && frame.height == 0 ==> out.Length == 0
    ensures ok && frame.height > 0 ==>
      Sized(out[..], frame.width, frame.height)
      && Shows(frame, yInvert, Rows(out[..], frame.width, frame.height, frame.height))
  {
    var width, height := frame.width, frame.height;
    var bytesPerPixel := BytesPerPixelFromStride(width, frame.stride);
    if bytesPerPixel == 0 {
      out := new Byte[0];
      return false, out;
    }
    out := new Byte[4 * (width * height)];
    if height == 0 {
      return true, out;
    }
    ghost var wanted := p => frame.Wanted(yInvert, p);
    var y := 0;
    while y < height
      invariant 0 <= y <= height
      invariant Painted(frame.Shape(), wanted, Rows(out[..], width, height, height), Point(0, y))
    {
      var srcY := if yInvert then height - 1 - y else y;
      ConvertRow(frame, bytesPerPixel, y, srcY, out, wanted);
      y := y + 1;
    }
    return true, out;
  }

  lemma OverturnedGrid(s: Size, pixelOf: Point -> Pixel, plain: Grid, inverted: Grid)
    requires Fits(plain, s) && Fits(inverted, s)
    requires forall p {:trigger At(plain, s, p)} :: Within(p, s) ==> At(plain, s, p) == pixelOf(p)
    requires forall p {:trigger At(inverted, s, p)} :: Within(p, s) ==> At(inverted, s, p) == pixelOf(Point(p.x, s.h - 1 - p.y))
    ensures Transformed(Transform(true, 2), s, plain, inverted)
  {
    var t := Transform(true, 2);
    forall p | Within(p, After(t, s))
      ensures At(inverted, After(t, s), p) == At(plain, s, Source(t, s, p))
    {
      var q := Source(t, s, p);
      assert q == Point(p.x, s.h - 1 - p.y);
      assert At(plain, s, q) == pixelOf(q);
    }
  }

  /** A frame converted as inverted is the frame converted as it is, then overturned. */
  lemma InvertedIsOverturned(frame: Frame, plain: Grid, inverted: Grid)
    requires frame.Readable() && Shows(frame, false, plain) && Shows(frame, true, inverted)
    ensures Transformed(Transform(true, 2), frame.Shape(), plain, inverted)
  {
    OverturnedGrid(frame.Shape(), p => frame.Wanted(false, p), plain, inverted);
  }

  // ----- a frame laid out in rows -----

  /** Parts of the same length, one behind the other. */
  function Joined(parts: seq<seq<Byte>>): seq<Byte> {
    if parts == [] then [] else Joined(parts[..|parts| - 1]) + parts[|parts| - 1]
  }

  predicate AllOf(parts: seq<seq<Byte>>, size: nat) {
    forall part <- parts :: |part| == size
  }

  lemma {:induction false} JoinedAt(parts: seq<seq<Byte>>, k: nat) returns (rest: seq<Byte>)
    requires k < |parts|
    ensures Joined(parts) == Joined(parts[..k]) + parts[k] + rest
    decreases parts
  {
    var n := |parts| - 1;
    if k < n {
      var fewer := JoinedAt(parts[..n], k);
      rest := fewer + parts[n];
      assert parts[..n][..k] == parts[..k];
    } else {
      rest := [];
    }
  }

  lemma OneMore(n: nat, size: nat)
    ensures (n + 1) * size == n * size + size
  {
  }

  lemma {:induction false} JoinedLength(parts: seq<seq<Byte>>, size: nat)
    requires AllOf(parts, size)
    ensures |Joined(parts)| == |parts| * size
    decreases parts
  {
    if parts != [] {
      var n := |parts| - 1;
      JoinedLength(parts[..n], size);
      OneMore(n, size);
    }
  }

  lemma Around(parts: seq<seq<Byte>>, size: nat, k: nat) returns (front: seq<Byte>, rest: seq<Byte>)
    requires AllOf(parts, size) && k < |parts|
    ensures Joined(parts) == front + parts[k] + rest && |front| == k * size
  {
    front := Joined(parts[..k]);
    rest := JoinedAt(parts, k);
    JoinedLength(parts[..k], size);
  }

  lemma PartOfPart(src: seq<Byte>, above: seq<Byte>, text: seq<Byte>, below: seq<Byte>, left: seq<Byte>, px: seq<Byte>, right: seq<Byte>,
                   start: nat)
    requires src == above + text + below && text == left + px + right && start == |above| + |left|
    ensures start + |px| <= |src| && src[start..start + |px|] == px
  {
    assert src == (above + left) + px + (right + below);
  }

  /** The bytes of a row: its pixels, and what is behind them up to the stride. */
  datatype PixelRow = PixelRow(pixels: seq<seq<Byte>>, padding: seq<Byte>) {
    function Text(): seq<Byte> {
      Joined(pixels) + padding
    }
  }

  function Texts(rows: seq<PixelRow>): (texts: seq<seq<Byte>>)
    ensures |texts| == |rows| && forall y :: 0 <= y < |rows| ==> texts[y] == rows[y].Text()
  {
    if rows == [] then [] else Texts(rows[..|rows| - 1]) + [rows[|rows| - 1].Text()]
  }

  ghost predicate Regular(row: PixelRow, width: int, bytes: nat, stride: int) {
    |row.pixels| == width && AllOf(row.pixels, bytes) && |row.Text()| == stride
  }

  /** The source is these rows, from the top. */
  ghost predicate LaidOut(frame: Frame, rows: seq<PixelRow>) {
    |rows| == frame.height && frame.src == Joined(Texts(rows))
    && forall row <- rows :: Regular(row, frame.width, frame.Bytes(), frame.stride)
  }

  lemma AroundPixel(row: PixelRow, width: int, bytes: nat, stride: int, x: nat) returns (left: seq<Byte>, right: seq<Byte>)
    requires Regular(row, width, bytes, stride) && x < width
    ensures row.Text() == left + row.pixels[x] + right && |left| == x * bytes
  {
    var rest;
    left, rest := Around(row.pixels, bytes, x);
    right := rest + row.padding;
  }

  lemma AroundRow(rows: seq<PixelRow>, stride: nat, y: nat) returns (above: seq<Byte>, below: seq<Byte>)
    requires y < |rows| && forall row <- rows :: |row.Text()| == stride
    ensures Joined(Texts(rows)) == above + rows[y].Text() + below && |above| == y * stride
  {
    above, below := Around(Texts(rows), stride, y);
  }

  lemma PixelBytes(rows: seq<PixelRow>, width: int, bytes: nat, stride: nat, x: nat, y: nat) returns (start: nat, px: seq<Byte>)
    requires forall row <- rows :: Regular(row, width, bytes, stride)
    requires x < width && y < |rows|
    ensures x < |rows[y].pixels| && px == rows[y].pixels[x] && |px| == bytes && start == y * stride + x * bytes
    ensures start + |px| <= |Joined(Texts(rows))| && Joined(Texts(rows))[start..start + |px|] == px
  {
    assert rows[y] in rows;
    var above, below := AroundRow(rows, stride, y);
    var left, right := AroundPixel(rows[y], width, bytes, stride, x);
    px := rows[y].pixels[x];
    start := y * stride + x * bytes;
    PartOfPart(Joined(Texts(rows)), above, rows[y].Text(), below, left, px, right, start);
  }

  /** A picture of the frame has, at every point, what the pixel of that row and column decodes to. */
  lemma RowsAreShown(frame: Frame, rows: seq<PixelRow>, yInvert: bool, g: Grid, x: nat, y: nat)
    requires frame.Readable() && LaidOut(frame, rows) && Shows(frame, yInvert, g)
    requires x < frame.width && y < frame.height
    ensures x < |rows[y].pixels| && |rows[y].pixels[x]| == frame.Bytes()
    ensures At(g, frame.Shape(), Point(x, if yInvert then frame.height - 1 - y else y)) == Decode(rows[y].pixels[x], frame.format)
  {
    var start, px := PixelBytes(rows, frame.width, frame.Bytes(), frame.stride, x, y);
    PixelStarts(frame, x, y, start);
    ShowsAt(frame, yInvert, g, x, y);
  }

  lemma ShowsAt(frame: Frame, yInvert: bool, g: Grid, x: nat, y: nat)
    requires frame.Readable() && Shows(frame, yInvert, g) && x < frame.width && y < frame.height
    ensures At(g, frame.Shape(), Point(x, if yInvert then frame.height - 1 - y else y)) == frame.PixelOf(Point(x, y))
  {
    assert Within(Point(x, if yInvert then frame.height - 1 - y else y), frame.Shape());
  }

  lemma PixelStarts(frame: Frame, x: nat, y: nat, start: nat)
    requires frame.Readable() && x < frame.width && y < frame.height && start == y * frame.stride + x * frame.Bytes()
    ensures start + frame.Bytes() <= |frame.src|
    ensures frame.PixelOf(Point(x, y)) == Decode(frame.src[start..start + frame.Bytes()], frame.format)
  {
    RowInside(frame.width, frame.height, frame.stride, frame.Bytes(), x, y);
  }
}
