/** Captured images: flat RGBA bytes, and the output transforms that move their pixels. */
module Pixels {
  newtype Byte = b: int | 0 <= b < 256

  datatype Pixel = Pixel(r: Byte, g: Byte, b: Byte, a: Byte)

  // ----- the symmetries of a rectangle -----

  datatype Size = Size(w: int, h: int)

  datatype Point = Point(x: int, y: int)

  predicate Within(p: Point, s: Size) {
    0 <= p.x < s.w && 0 <= p.y < s.h
  }

  type Quarters = n: nat | n < 4

  /** An output transform: perhaps mirrored left to right, then turned clockwise by some quarters. */
  datatype Transform = Transform(mirrored: bool, quarters: Quarters)

  /** Where the pixel at `p` was before a quarter turn of a picture of height `h`: the left column becomes
      the top row. */
  function Unturned(h: int, p: Point): Point {
    Point(p.y, h - 1 - p.x)
  }

  function UnturnedBy(s: Size, quarters: Quarters, p: Point): Point {
    match quarters
    case 0 => p
    case 1 => Unturned(s.h, p)
    case 2 => Unturned(s.h, Unturned(s.w, p))
    case 3 => Unturned(s.h, Unturned(s.w, Unturned(s.h, p)))
  }

  function Mirrored(w: int, p: Point): Point {
    Point(w - 1 - p.x, p.y)
  }

  function Turned(s: Size, quarters: Quarters): Size {
    if quarters == 0 || quarters == 2 then s else Size(s.h, s.w)
  }

  function After(t: Transform, s: Size): Size {
    Turned(s, t.quarters)
  }

  /** Where the pixel at `p` of the transformed picture comes from. */
  function Source(t: Transform, s: Size, p: Point): (q: Point)
    ensures Within(p, After(t, s)) ==> Within(q, s)
  {
    var q := UnturnedBy(s, t.quarters, p);
    if t.mirrored then Mirrored(s.w, q) else q
  }

  function Opposite(n: Quarters): Quarters {
    if n == 0 then 0 else 4 - n
  }

  function Plus(m: Quarters, n: Quarters): Quarters {
    if m + n < 4 then m + n else m + n - 4
  }

  /** `second` after `first`. */
  function Compose(first: Transform, second: Transform): Transform {
    Transform(first.mirrored != second.mirrored,
              Plus(second.quarters, if second.mirrored then Opposite(first.quarters) else first.quarters))
  }

  function Inverse(t: Transform): Transform {
    if t.mirrored then t else Transform(false, Opposite(t.quarters))
  }

  lemma TurnsAdd(m: Quarters, n: Quarters, s: Size, p: Point)
    ensures UnturnedBy(s, m, UnturnedBy(Turned(s, m), n, p)) == UnturnedBy(s, Plus(n, m), p)
    ensures Turned(Turned(s, m), n) == Turned(s, Plus(n, m))
  {
  }

  /** Mirroring turns the other way round. */
  lemma MirrorReverses(m: Quarters, s: Size, p: Point)
    ensures UnturnedBy(s, m, Mirrored(Turned(s, m).w, p)) == Mirrored(s.w, UnturnedBy(s, Opposite(m), p))
    ensures Turned(s, m) == Turned(s, Opposite(m))
  {
  }

  /** The eight transforms are closed under composition, in the order they are applied. */
  lemma TransformsCompose(first: Transform, second: Transform, s: Size, p: Point)
    ensures Source(first, s, Source(second, After(first, s), p)) == Source(Compose(first, second), s, p)
    ensures After(second, After(first, s)) == After(Compose(first, second), s)
  {
    if second.mirrored {
      MirrorsCompose(first, second.quarters, s, p);
    } else {
      TurnsAdd(first.quarters, second.quarters, s, p);
    }
  }

  lemma MirrorsCompose(first: Transform, n: Quarters, s: Size, p: Point)
    ensures Source(first, s, Source(Transform(true, n), After(first, s), p))
         == Source(Transform(!first.mirrored, Plus(n, Opposite(first.quarters))), s, p)
  {
    var m := first.quarters;
    var q := UnturnedBy(Turned(s, m), n, p);
    MirrorReverses(m, s, q);
    TurnsAdd(Opposite(m), n, s, p);
    assert UnturnedBy(s, Opposite(m), q) == UnturnedBy(s, Plus(n, Opposite(m)), p);
  }

  /** A quarter turn and its reverse undo each other; a half turn and the mirrored four undo themselves. */
  lemma InverseUndoes(t: Transform, s: Size, p: Point)
    ensures Source(t, s, Source(Inverse(t), After(t, s), p)) == p && After(Inverse(t), After(t, s)) == s
  {
    TransformsCompose(t, Inverse(t), s, p);
  }

  // ----- pixels in flat bytes -----

  type Grid = seq<seq<Pixel>>

  predicate Fits(g: Grid, s: Size) {
    |g| == s.h && forall y :: 0 <= y < s.h ==> |g[y]| == s.w
  }

  function At(g: Grid, s: Size, p: Point): Pixel
    requires Fits(g, s) && Within(p, s)
  {
    g[p.y][p.x]
  }

  /** `now` shows what `was` shows, transformed. */
  ghost predicate Transformed(t: Transform, s: Size, was: Grid, now: Grid) {
    && Fits(was, s) && Fits(now, After(t, s))
    && forall p: Point :: Within(p, After(t, s)) ==> At(now, After(t, s), p) == At(was, s, Source(t, s, p))
  }

  /** One transform after another is the transform they compose to. */
  lemma TransformedTwice(first: Transform, second: Transform, s: Size, was: Grid, between: Grid, now: Grid)
    requires Transformed(first, s, was, between) && Transformed(second, After(first, s), between, now)
    ensures Transformed(Compose(first, second), s, was, now)
  {
    var third := Compose(first, second);
    TransformsCompose(first, second, s, Point(0, 0));
    forall p: Point | Within(p, After(third, s))
      ensures At(now, After(third, s), p) == At(was, s, Source(third, s, p))
    {
      TransformsCompose(first, second, s, p);
      var q := Source(second, After(first, s), p);
      assert At(between, After(first, s), q) == At(was, s, Source(first, s, q));
    }
  }

  lemma CellInside(w: int, h: int, x: int, y: int)
    requires 0 <= x < w && 0 <= y < h
    ensures 0 <= y * w + x < w * h
  {
    assert y * w <= (h - 1) * w;
  }

  lemma ManyRows(d: int, w: int)
    requires d >= 1 && w >= 0
    ensures d * w >= w
  {
  }

  lemma CellsApart(w: int, x: int, y: int, x': int, y': int)
    requires 0 <= x < w && 0 <= x' < w && y * w + x == y' * w + x'
    ensures x == x' && y == y'
  {
    var d := y' - y;
    assert d * w == y' * w - y * w;
    if d >= 1 {
      ManyRows(d, w);
    }
    if d <= -1 {
      ManyRows(-d, w);
    }
  }

  ghost predicate Sized(bytes: seq<Byte>, w: int, h: int) {
    w > 0 && h > 0 && |bytes| == 4 * (w * h)
  }

  /** The `i`-th group of four bytes. */
  function PixelAt(bytes: seq<Byte>, i: nat): Pixel
    requires 4 * i + 3 < |bytes|
  {
    Pixel(bytes[4 * i], bytes[4 * i + 1], bytes[4 * i + 2], bytes[4 * i + 3])
  }

  function Cell(bytes: seq<Byte>, w: int, h: int, x: int, y: int): Pixel
    requires 0 <= x < w && 0 <= y < h && Sized(bytes, w, h)
  {
    CellInside(w, h, x, y);
    PixelAt(bytes, y * w + x)
  }

  function Rows(bytes: seq<Byte>, w: int, h: int, n: nat): (rows: Grid)
    requires Sized(bytes, w, h) && n <= h
    ensures Fits(rows, Size(w, n))
  {
    if n == 0 then []
    else Rows(bytes, w, h, n - 1) + [seq(w, x requires 0 <= x < w => Cell(bytes, w, h, x, n - 1))]
  }

  lemma {:induction false} RowsAt(bytes: seq<Byte>, w: int, h: int, n: nat, x: int, y: int)
    requires Sized(bytes, w, h) && 0 <= x < w && 0 <= y < n <= h
    ensures Rows(bytes, w, h, n)[y][x] == Cell(bytes, w, h, x, y)
    decreases n
  {
    if y < n - 1 {
      RowsAt(bytes, w, h, n - 1, x, y);
    }
  }

  lemma CellIs(bytes: seq<Byte>, w: int, h: int, x: int, y: int) returns (k: nat)
    requires 0 <= x < w && 0 <= y < h && Sized(bytes, w, h)
    ensures k == 4 * (y * w + x) && k + 3 < |bytes|
    ensures Cell(bytes, w, h, x, y) == Pixel(bytes[k], bytes[k + 1], bytes[k + 2], bytes[k + 3])
  {
    CellInside(w, h, x, y);
    k := 4 * (y * w + x);
  }

  /** The picture that bytes show: rows from the top, pixels from the left, red, green, blue and alpha of each. */
  lemma RowsAreRgba(bytes: seq<Byte>, s: Size, p: Point) returns (k: nat)
    requires Sized(bytes, s.w, s.h) && Within(p, s)
    ensures k == 4 * (p.y * s.w + p.x) && k + 3 < |bytes|
    ensures At(Rows(bytes, s.w, s.h, s.h), s, p) == Pixel(bytes[k], bytes[k + 1], bytes[k + 2], bytes[k + 3])
  {
    RowsAt(bytes, s.w, s.h, s.h, p.x, p.y);
    k := CellIs(bytes, s.w, s.h, p.x, p.y);
  }

  ghost predicate Exchanged(s: Size, was: Grid, now: Grid, p: Point, q: Point) {
    && Fits(was, s) && Fits(now, s) && Within(p, s) && Within(q, s)
    && forall r :: Within(r, s) ==> At(now, s, r) == At(was, s, if r == p then q else if r == q then p else r)
  }

  ghost predicate Copied(s: Size, was: Grid, now: Grid, p: Point, pixel: Pixel) {
    && Fits(was, s) && Fits(now, s) && Within(p, s)
    && forall r :: Within(r, s) ==> At(now, s, r) == if r == p then pixel else At(was, s, r)
  }

  /** Where byte `k` was before the first `c` bytes of pixels `i` and `j` were exchanged. */
  function ByteSource(i: int, j: int, c: int, k: int): int {
    if 4 * i <= k < 4 * i + c then k - 4 * i + 4 * j else if 4 * j <= k < 4 * j + c then k - 4 * j + 4 * i else k
  }

  ghost predicate BytesExchanged(was: seq<Byte>, now: seq<Byte>, i: nat, j: nat, c: nat)
    requires c <= 4 && 4 * i + 4 <= |was| && 4 * j + 4 <= |was|
  {
    |now| == |was| && forall k :: 0 <= k < |was| ==> now[k] == was[ByteSource(i, j, c, k)]
  }

  lemma PixelExchanged(was: seq<Byte>, now: seq<Byte>, i: nat, j: nat, k: nat)
    requires i != j && 4 * i + 4 <= |was| && 4 * j + 4 <= |was| && 4 * k + 4 <= |was| && BytesExchanged(was, now, i, j, 4)
    ensures PixelAt(now, k) == PixelAt(was, if k == i then j else if k == j then i else k)
  {
  }

  lemma CellExchanged(w: int, h: int, was: seq<Byte>, now: seq<Byte>, p: Point, q: Point, i: nat, j: nat, r: Point)
    requires Sized(was, w, h) && Sized(now, w, h) && Within(p, Size(w, h)) && Within(q, Size(w, h)) && p != q
    requires i == p.y * w + p.x && j == q.y * w + q.x && i != j && i < w * h && j < w * h
    requires Within(r, Size(w, h)) && BytesExchanged(was, now, i, j, 4)
    ensures var source := if r == p then q else if r == q then p else r;
            Cell(now, w, h, r.x, r.y) == Cell(was, w, h, source.x, source.y)
  {
    var k := r.y * w + r.x;
    CellInside(w, h, r.x, r.y);
    PixelExchanged(was, now, i, j, k);
    if r != p && k == i {
      CellsApart(w, r.x, r.y, p.x, p.y);
    }
    if r != q && k == j {
      CellsApart(w, r.x, r.y, q.x, q.y);
    }
  }

  lemma CellsExchanged(w: int, h: int, was: seq<Byte>, now: seq<Byte>, p: Point, q: Point, i: nat, j: nat)
    requires Sized(was, w, h) && Within(p, Size(w, h)) && Within(q, Size(w, h)) && p != q
    requires i == p.y * w + p.x && j == q.y * w + q.x && i != j && i < w * h && j < w * h
    requires BytesExchanged(was, now, i, j, 4)
    ensures Exchanged(Size(w, h), Rows(was, w, h, h), Rows(now, w, h, h), p, q)
  {
    forall r | Within(r, Size(w, h))
      ensures At(Rows(now, w, h, h), Size(w, h), r)
           == At(Rows(was, w, h, h), Size(w, h), if r == p then q else if r == q then p else r)
    {
      var source := if r == p then q else if r == q then p else r;
      CellExchanged(w, h, was, now, p, q, i, j, r);
      RowsAt(now, w, h, h, r.x, r.y);
      RowsAt(was, w, h, h, source.x, source.y);
    }
  }

  /** Exchange of two groups of four bytes, byte by byte. */
  method SwapBytes(a: array<Byte>, i: nat, j: nat)
    requires i != j && 4 * i + 4 <= a.Length && 4 * j + 4 <= a.Length
    modifies a
    ensures BytesExchanged(old(a[..]), a[..], i, j, 4)
  {
    var c := 0;
    while c < 4
      invariant 0 <= c <= 4 && BytesExchanged(old(a[..]), a[..], i, j, c)
    {
      a[4 * i + c], a[4 * j + c] := a[4 * j + c], a[4 * i + c];
      c := c + 1;
    }
  }

  method SwapPixels(a: array<Byte>, w: int, h: int, x0: int, y0: int, x1: int, y1: int)
    requires Sized(a[..], w, h) && 0 <= x0 < w && 0 <= x1 < w && 0 <= y0 < h && 0 <= y1 < h
    requires x0 != x1 || y0 != y1
    modifies a
    ensures Exchanged(Size(w, h), Rows(old(a[..]), w, h, h), Rows(a[..], w, h, h), Point(x0, y0), Point(x1, y1))
  {
    CellInside(w, h, x0, y0);
    CellInside(w, h, x1, y1);
    var i, j := y0 * w + x0, y1 * w + x1;
    if i == j {
      CellsApart(w, x0, y0, x1, y1);
    }
    SwapBytes(a, i, j);
    CellsExchanged(w, h, old(a[..]), a[..], Point(x0, y0), Point(x1, y1), i, j);
  }

  /** A pixel is written. */
  method StorePixel(to: array<Byte>, w: int, h: int, x: int, y: int, pixel: Pixel)
    requires Sized(to[..], w, h) && 0 <= x < w && 0 <= y < h
    modifies to
    ensures Copied(Size(w, h), Rows(old(to[..]), w, h, h), Rows(to[..], w, h, h), Point(x, y), pixel)
  {
    ghost var bytes, size := to[..], Size(w, h);
    CellInside(w, h, x, y);
    var j := 4 * (y * w + x);
    to[j], to[j + 1], to[j + 2], to[j + 3] := pixel.r, pixel.g, pixel.b, pixel.a;
    forall r | Within(r, size)
      ensures At(Rows(to[..], w, h, h), size, r) == if r == Point(x, y) then pixel else At(Rows(bytes, w, h, h), size, r)
    {
      RowsAt(to[..], w, h, h, r.x, r.y);
      RowsAt(bytes, w, h, h, r.x, r.y);
      CellInside(w, h, r.x, r.y);
      if r.y * w + r.x == y * w + x {
        CellsApart(w, r.x, r.y, x, y);
      }
    }
  }

  /** `memcpy` of one pixel. */
  method CopyPixel(from: array<Byte>, w: int, h: int, x: int, y: int, to: array<Byte>, w': int, h': int, x': int, y': int)
    requires from != to && Sized(from[..], w, h) && Sized(to[..], w', h')
    requires 0 <= x < w && 0 <= y < h && 0 <= x' < w' && 0 <= y' < h'
    modifies to
    ensures Copied(Size(w', h'), Rows(old(to[..]), w', h', h'), Rows(to[..], w', h', h'), Point(x', y'),
                   At(Rows(from[..], w, h, h), Size(w, h), Point(x, y)))
  {
    CellInside(w, h, x, y);
    RowsAt(from[..], w, h, h, x, y);
    var i := 4 * (y * w + x);
    StorePixel(to, w', h', x', y', Pixel(from[i], from[i + 1], from[i + 2], from[i + 3]));
  }

  /** The pixels before `here` are written. */
  ghost predicate Painted(s: Size, wanted: Point -> Pixel, now: Grid, here: Point) {
    Fits(now, s) && forall p :: Within(p, s) && Before(p, here) ==> At(now, s, p) == wanted(p)
  }

  lemma PaintsOn(s: Size, wanted: Point -> Pixel, was: Grid, now: Grid, here: Point)
    requires Painted(s, wanted, was, here) && Copied(s, was, now, here, wanted(here))
    ensures Painted(s, wanted, now, Point(here.x + 1, here.y))
  {
    forall p | Within(p, s) && Before(p, Point(here.x + 1, here.y))
      ensures At(now, s, p) == wanted(p)
    {
      assert p == here || Before(p, here);
    }
  }

  // ----- the transforms in place -----

  /** `wl_output.transform`: 0 to 3 turn by so many quarters, 4 to 7 mirror first; others mean nothing. */
  function TransformOf(code: int): Transform {
    if 0 <= code < 4 then Transform(false, code) else if 4 <= code < 8 then Transform(true, code - 4) else Transform(false, 0)
  }

  /** Where each code takes the pixels from. */
  lemma CodesMean(code: int, s: Size, p: Point)
    requires Within(p, After(TransformOf(code), s))
    ensures After(TransformOf(code), s) == if code in {1, 3, 5, 7} then Size(s.h, s.w) else s
    ensures var q := Source(TransformOf(code), s, p);
            && (code == 1 ==> q == Point(p.y, s.h - 1 - p.x))
            && (code == 2 ==> q == Point(s.w - 1 - p.x, s.h - 1 - p.y))
            && (code == 3 ==> q == Point(s.w - 1 - p.y, p.x))
            && (code == 4 ==> q == Point(s.w - 1 - p.x, p.y))
            && (code == 5 ==> q == Point(s.w - 1 - p.y, s.h - 1 - p.x))
            && (code == 6 ==> q == Point(p.x, s.h - 1 - p.y))
            && (code == 7 ==> q == Point(p.y, p.x))
            && (code < 1 || code > 7 ==> q == p)
  {
  }

  predicate Before(p: Point, q: Point) {
    p.y < q.y || (p.y == q.y && p.x < q.x)
  }

  ghost predicate Involution(image: Point -> Point, s: Size) {
    forall p :: Within(p, s) ==> Within(image(p), s) && image(image(p)) == p
  }

  /** A loop that exchanges each pixel with its image stands at `here`: a pixel has moved once it or its image
      has been met. */
  ghost predicate MovedTo(image: Point -> Point, s: Size, was: Grid, now: Grid, here: Point) {
    && Fits(was, s) && Fits(now, s) && Involution(image, s)
    && forall p :: Within(p, s) ==>
         At(now, s, p) == if Before(p, here) || Before(image(p), here) then At(was, s, image(p)) else At(was, s, p)
  }

  lemma SwapMoves(image: Point -> Point, s: Size, was: Grid, now: Grid, next: Grid, here: Point, there: Point)
    requires Within(here, s) && MovedTo(image, s, was, now, here)
    requires image(here) == there && Before(here, there) && Exchanged(s, now, next, here, there)
    ensures MovedTo(image, s, was, next, Point(here.x + 1, here.y))
  {
    var after := Point(here.x + 1, here.y);
    forall p | Within(p, s)
      ensures At(next, s, p) == if Before(p, after) || Before(image(p), after) then At(was, s, image(p)) else At(was, s, p)
    {
      assert Before(p, after) <==> Before(p, here) || p == here;
      assert Before(image(p), after) <==> Before(image(p), here) || image(p) == here;
      if p == here || p == there {
        assert image(image(p)) == p;
      }
    }
  }

  lemma SkipMoves(image: Point -> Point, s: Size, was: Grid, now: Grid, here: Point)
    requires Within(here, s) && MovedTo(image, s, was, now, here)
    requires !Before(here, image(here))
    ensures MovedTo(image, s, was, now, Point(here.x + 1, here.y))
  {
    var after := Point(here.x + 1, here.y);
    forall p | Within(p, s)
      ensures At(now, s, p) == if Before(p, after) || Before(image(p), after) then At(was, s, image(p)) else At(was, s, p)
    {
      assert Before(p, after) <==> Before(p, here) || p == here;
      assert Before(image(p), after) <==> Before(image(p), here) || image(p) == here;
      assert image(image(p)) == p;
    }
  }

  /** At the end of row `y`, what is left of it are images of pixels met, or their own images. */
  lemma RowMoved(image: Point -> Point, s: Size, was: Grid, now: Grid, x: int, y: int)
    requires MovedTo(image, s, was, now, Point(x, y)) && 0 <= x <= s.w
    requires forall p :: Within(p, s) && p.y == y && p.x >= x ==> Before(image(p), Point(x, y)) || image(p) == p
    ensures MovedTo(image, s, was, now, Point(0, y + 1))
  {
    forall p | Within(p, s)
      ensures var after := Point(0, y + 1);
              At(now, s, p) == if Before(p, after) || Before(image(p), after) then At(was, s, image(p)) else At(was, s, p)
    {
      var here := Point(x, y);
      if !Before(p, here) && !Before(image(p), here) && image(p).y == y {
        assert image(image(p)) == p;
      }
    }
  }

  lemma AllMoved(t: Transform, image: Point -> Point, s: Size, was: Grid, now: Grid, here: Point)
    requires After(t, s) == s && (forall p :: image(p) == Source(t, s, p)) && MovedTo(image, s, was, now, here)
    requires forall p :: Within(p, s) && !Before(p, here) ==> Before(image(p), here) || image(p) == p
    ensures Transformed(t, s, was, now)
  {
  }

  /** The pixels before `here` have been copied to where the transform puts them. */
  ghost predicate FilledTo(t: Transform, s: Size, was: Grid, now: Grid, here: Point) {
    && Fits(was, s) && Fits(now, After(t, s))
    && forall p :: Within(p, After(t, s)) && Before(Source(t, s, p), here) ==>
         At(now, After(t, s), p) == At(was, s, Source(t, s, p))
  }

  lemma SourceIsInjective(t: Transform, s: Size, p: Point, p': Point)
    requires Source(t, s, p) == Source(t, s, p')
    ensures p == p'
  {
  }

  lemma FillsOn(t: Transform, s: Size, was: Grid, now: Grid, next: Grid, here: Point, target: Point)
    requires Within(here, s) && FilledTo(t, s, was, now, here)
    requires Within(target, After(t, s)) && Source(t, s, target) == here
    requires Copied(After(t, s), now, next, target, At(was, s, here))
    ensures FilledTo(t, s, was, next, Point(here.x + 1, here.y))
  {
    var after := Point(here.x + 1, here.y);
    forall p | Within(p, After(t, s)) && Before(Source(t, s, p), after)
      ensures At(next, After(t, s), p) == At(was, s, Source(t, s, p))
    {
      var q := Source(t, s, p);
      assert Before(q, after) <==> Before(q, here) || q == here;
      if q == here {
        SourceIsInjective(t, s, p, target);
      } else {
        assert p != target;
      }
    }
  }

  lemma EvenTransform(t: Transform, s: Size, image: Point -> Point)
    requires t.quarters == 2 || (t.mirrored && t.quarters == 0)
    requires forall p :: image(p) == Source(t, s, p)
    ensures Involution(image, s)
  {
    forall p | Within(p, s)
      ensures Within(image(p), s) && image(image(p)) == p
    {
      InverseUndoes(t, s, p);
    }
  }

  class Image {
    var width: int
    var height: int
    var rgba: array<Byte>
    var yInvert: bool

    predicate Drawn()
      reads this
    {
      width > 0 && height > 0 && rgba.Length > 0
    }

    ghost predicate Valid()
      reads this, rgba
    {
      Drawn() ==> Sized(rgba[..], width, height)
    }

    ghost function Shape(): Size
      reads this
    {
      if Drawn() then Size(width, height) else Size(0, 0)
    }

    ghost function Shown(): Grid
      requires Valid()
      reads this, rgba
    {
      if Drawn() then Rows(rgba[..], width, height, height) else []
    }

    /** The row's left half is exchanged with its right half. */
    method MirrorRow(w: int, h: int, y: int, ghost image: Point -> Point, ghost was: Grid)
      requires Sized(rgba[..], w, h) && 0 <= y < h && MovedTo(image, Size(w, h), was, Rows(rgba[..], w, h, h), Point(0, y))
      requires forall p :: Within(p, Size(w, h)) && p.y == y ==> image(p) == Point(w - 1 - p.x, y)
      modifies rgba
      ensures Sized(rgba[..], w, h) && MovedTo(image, Size(w, h), was, Rows(rgba[..], w, h, h), Point(0, y + 1))
    {
      var x := 0;
      while x < w / 2
        invariant 0 <= x <= w / 2 && Sized(rgba[..], w, h)
        invariant MovedTo(image, Size(w, h), was, Rows(rgba[..], w, h, h), Point(x, y))
      {
        ghost var now := Rows(rgba[..], w, h, h);
        SwapPixels(rgba, w, h, x, y, w - 1 - x, y);
        SwapMoves(image, Size(w, h), was, now, Rows(rgba[..], w, h, h), Point(x, y), Point(w - 1 - x, y));
        x := x + 1;
      }
      RowMoved(image, Size(w, h), was, Rows(rgba[..], w, h, h), x, y);
    }

    method FlipRgbaHorizontal()
      requires Valid()
      modifies rgba
      ensures Valid() && Transformed(Transform(true, 0), old(Shape()), old(Shown()), Shown())
    {
      if width <= 0 || height <= 0 || rgba.Length == 0 {
        return;
      }
      var w, h := width, height;
      ghost var t, size, was := Transform(true, 0), Size(w, h), Shown();
      ghost var image := p => Source(t, size, p);
      EvenTransform(t, size, image);
      var y := 0;
      while y < h
        invariant 0 <= y <= h && Sized(rgba[..], w, h)
        invariant MovedTo(image, size, was, Rows(rgba[..], w, h, h), Point(0, y))
      {
        MirrorRow(w, h, y, image, was);
        y := y + 1;
      }
      AllMoved(t, image, size, was, Shown(), Point(0, y));
    }

    /** The row is exchanged with the one as far from the bottom. */
    method OverturnRow(w: int, h: int, y: int, ghost image: Point -> Point, ghost was: Grid)
      requires Sized(rgba[..], w, h) && 0 <= y < h / 2 && MovedTo(image, Size(w, h), was, Rows(rgba[..], w, h, h), Point(0, y))
      requires forall p :: Within(p, Size(w, h)) && p.y == y ==> image(p) == Point(p.x, h - 1 - y)
      modifies rgba
      ensures Sized(rgba[..], w, h) && MovedTo(image, Size(w, h), was, Rows(rgba[..], w, h, h), Point(0, y + 1))
    {
      var x := 0;
      while x < w
        invariant 0 <= x <= w && Sized(rgba[..], w, h)
        invariant MovedTo(image, Size(w, h), was, Rows(rgba[..], w, h, h), Point(x, y))
      {
        ghost var now := Rows(rgba[..], w, h, h);
        SwapPixels(rgba, w, h, x, y, x, h - 1 - y);
        SwapMoves(image, Size(w, h), was, now, Rows(rgba[..], w, h, h), Point(x, y), Point(x, h - 1 - y));
        x := x + 1;
      }
      RowMoved(image, Size(w, h), was, Rows(rgba[..], w, h, h), x, y);
    }

    method FlipRgbaVertical()
      requires Valid()
      modifies rgba
      ensures Valid() && Transformed(Transform(true, 2), old(Shape()), old(Shown()), Shown())
    {
      if width <= 0 || height <= 0 || rgba.Length == 0 {
        return;
      }
      var w, h := width, height;
      ghost var t, size, was := Transform(true, 2), Size(w, h), Shown();
      ghost var image := p => Source(t, size, p);
      EvenTransform(t, size, image);
      var y := 0;
      while y < h / 2
        invariant 0 <= y <= h / 2 && Sized(rgba[..], w, h)
        invariant MovedTo(image, size, was, Rows(rgba[..], w, h, h), Point(0, y))
      {
        OverturnRow(w, h, y, image, was);
        y := y + 1;
      }
      AllMoved(t, image, size, was, Shown(), Point(0, y));
    }

    /** The pixel is exchanged with its opposite, unless they have been already. */
    method HalfTurnPixel(w: int, h: int, x: int, y: int, ghost image: Point -> Point, ghost was: Grid)
      requires Sized(rgba[..], w, h) && 0 <= x < w && 0 <= y < h
      requires MovedTo(image, Size(w, h), was, Rows(rgba[..], w, h, h), Point(x, y))
      requires image(Point(x, y)) == Point(w - 1 - x, h - 1 - y)
      modifies rgba
      ensures Sized(rgba[..], w, h) && MovedTo(image, Size(w, h), was, Rows(rgba[..], w, h, h), Point(x + 1, y))
    {
      ghost var now := Rows(rgba[..], w, h, h);
      var mirrorX, mirrorY := w - 1 - x, h - 1 - y;
      if mirrorY < y || (mirrorY == y && mirrorX <= x) {
        SkipMoves(image, Size(w, h), was, now, Point(x, y));
        return;
      }
      SwapPixels(rgba, w, h, x, y, mirrorX, mirrorY);
      SwapMoves(image, Size(w, h), was, now, Rows(rgba[..], w, h, h), Point(x, y), Point(mirrorX, mirrorY));
    }

    method HalfTurnRow(w: int, h: int, y: int, ghost image: Point -> Point, ghost was: Grid)
      requires Sized(rgba[..], w, h) && 0 <= y < h && MovedTo(image, Size(w, h), was, Rows(rgba[..], w, h, h), Point(0, y))
      requires forall p :: Within(p, Size(w, h)) && p.y == y ==> image(p) == Point(w - 1 - p.x, h - 1 - y)
      modifies rgba
      ensures Sized(rgba[..], w, h) && MovedTo(image, Size(w, h), was, Rows(rgba[..], w, h, h), Point(0, y + 1))
    {
      var x := 0;
      while x < w
        invariant 0 <= x <= w && Sized(rgba[..], w, h)
        invariant MovedTo(image, Size(w, h), was, Rows(rgba[..], w, h, h), Point(x, y))
      {
        HalfTurnPixel(w, h, x, y, image, was);
        x := x + 1;
      }
      RowMoved(image, Size(w, h), was, Rows(rgba[..], w, h, h), x, y);
    }

    method RotateRgba180()
      requires Valid()
      modifies rgba
      ensures Valid() && Transformed(Transform(false, 2), old(Shape()), old(Shown()), Shown())
    {
      if width <= 0 || height <= 0 || rgba.Length == 0 {
        return;
      }
      var w, h := width, height;
      ghost var t, size, was := Transform(false, 2), Size(w, h), Shown();
      ghost var image := p => Source(t, size, p);
      EvenTransform(t, size, image);
      var y := 0;
      while y < h
        invariant 0 <= y <= h && Sized(rgba[..], w, h)
        invariant MovedTo(image, size, was, Rows(rgba[..], w, h, h), Point(0, y))
      {
        HalfTurnRow(w, h, y, image, was);
        y := y + 1;
      }
      AllMoved(t, image, size, was, Shown(), Point(0, y));
    }

    method RotateRgbaCw90()
      requires Valid()
      modifies this
      ensures Valid() && Transformed(Transform(false, 1), old(Shape()), old(Shown()), Shown())
      ensures Shape() == After(Transform(false, 1), old(Shape()))
      ensures (rgba == old(rgba) || fresh(rgba)) && yInvert == old(yInvert)
    {
      if width <= 0 || height <= 0 || rgba.Length == 0 {
        return;
      }
      var srcW, srcH := width, height;
      var dstW, dstH := srcH, srcW;
      var rotated := new Byte[4 * (dstW * dstH)];
      ghost var t, size, was := Transform(false, 1), Size(srcW, srcH), Shown();
      var srcY := 0;
      while srcY < srcH
        invariant 0 <= srcY <= srcH && unchanged(this) && unchanged(old(rgba)) && Sized(rotated[..], dstW, dstH)
        invariant FilledTo(t, size, was, Rows(rotated[..], dstW, dstH, dstH), Point(0, srcY))
      {
        var srcX := 0;
        while srcX < srcW
          invariant 0 <= srcX <= srcW && unchanged(this) && unchanged(old(rgba)) && Sized(rotated[..], dstW, dstH)
          invariant FilledTo(t, size, was, Rows(rotated[..], dstW, dstH, dstH), Point(srcX, srcY))
        {
          var dstX, dstY := srcH - 1 - srcY, srcX;
          ghost var now := Rows(rotated[..], dstW, dstH, dstH);
          CopyPixel(rgba, srcW, srcH, srcX, srcY, rotated, dstW, dstH, dstX, dstY);
          FillsOn(t, size, was, now, Rows(rotated[..], dstW, dstH, dstH), Point(srcX, srcY), Point(dstX, dstY));
          srcX := srcX + 1;
        }
        srcY := srcY + 1;
      }
      width, height, rgba := dstW, dstH, rotated;
    }

    method RotateRgbaCw270()
      requires Valid()
      modifies this
      ensures Valid() && Transformed(Transform(false, 3), old(Shape()), old(Shown()), Shown())
      ensures Shape() == After(Transform(false, 3), old(Shape()))
      ensures (rgba == old(rgba) || fresh(rgba)) && yInvert == old(yInvert)
    {
      if width <= 0 || height <= 0 || rgba.Length == 0 {
        return;
      }
      var srcW, srcH := width, height;
      var dstW, dstH := srcH, srcW;
      var rotated := new Byte[4 * (dstW * dstH)];
      ghost var t, size, was := Transform(false, 3), Size(srcW, srcH), Shown();
      var srcY := 0;
      while srcY < srcH
        invariant 0 <= srcY <= srcH && unchanged(this) && unchanged(old(rgba)) && Sized(rotated[..], dstW, dstH)
        invariant FilledTo(t, size, was, Rows(rotated[..], dstW, dstH, dstH), Point(0, srcY))
      {
        var srcX := 0;
        while srcX < srcW
          invariant 0 <= srcX <= srcW && unchanged(this) && unchanged(old(rgba)) && Sized(rotated[..], dstW, dstH)
          invariant FilledTo(t, size, was, Rows(rotated[..], dstW, dstH, dstH), Point(srcX, srcY))
        {
          var dstX, dstY := srcY, srcW - 1 - srcX;
          ghost var now := Rows(rotated[..], dstW, dstH, dstH);
          CopyPixel(rgba, srcW, srcH, srcX, srcY, rotated, dstW, dstH, dstX, dstY);
          FillsOn(t, size, was, now, Rows(rotated[..], dstW, dstH, dstH), Point(srcX, srcY), Point(dstX, dstY));
          srcX := srcX + 1;
        }
        srcY := srcY + 1;
      }
      width, height, rgba := dstW, dstH, rotated;
    }

    method ApplyOutputTransform(transform: int)
      requires Valid()
      modifies this, rgba
      ensures Valid() && Transformed(TransformOf(transform), old(Shape()), old(Shown()), Shown())
      ensures Shape() == After(TransformOf(transform), old(Shape()))
      ensures (rgba == old(rgba) || fresh(rgba)) && yInvert == old(yInvert)
    {
      match transform {
        case 1 => RotateRgbaCw90();
        case 2 => RotateRgba180();
        case 3 => RotateRgbaCw270();
        case 4 => FlipRgbaHorizontal();
        case 5 =>
          FlipRgbaHorizontal();
          ghost var flipped := Shown();
          RotateRgbaCw90();
          TransformedTwice(Transform(true, 0), Transform(false, 1), old(Shape()), old(Shown()), flipped, Shown());
        case 6 => FlipRgbaVertical();
        case 7 =>
          FlipRgbaHorizontal();
          ghost var flipped := Shown();
          RotateRgbaCw270();
          TransformedTwice(Transform(true, 0), Transform(false, 3), old(Shape()), old(Shown()), flipped, Shown());
        case _ =>
      }
    }

    /** `orientCaptureToLogical`: `needed` is what `captureNeedsOutputTransform` answers. */
    method OrientCaptureToLogical(transform: int, needed: bool)
      requires Valid()
      modifies this, rgba
      ensures Valid() && !yInvert
      ensures var t := if needed then TransformOf(transform) else Transform(false, 0);
              Transformed(if old(yInvert) then Compose(t, Transform(true, 2)) else t, old(Shape()), old(Shown()), Shown())
    {
      if needed {
        ApplyOutputTransform(transform);
      }
      if yInvert {
        ghost var turned, shape := Shown(), Shape();
        FlipRgbaVertical();
        ghost var t := if needed then TransformOf(transform) else Transform(false, 0);
        TransformedTwice(t, Transform(true, 2), old(Shape()), old(Shown()), turned, Shown());
        yInvert := false;
      }
    }
  }
}
