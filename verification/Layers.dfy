/** Where a layer shows a pixel of its image: clipping, reflection, rotation and scaling. */
module Layers {
  import opened Common
  import opened Colors

  const MIN_SCALABLE_SIZE: nat := 32

  // ----- unsigned 32-bit arithmetic, which wraps around -----

  function Sub32(x: uint32, y: uint32): (z: uint32) {
    if x >= y then x - y else x - y + TWO_32
  }

  function Add32(x: uint32, y: uint32): (z: uint32) {
    if x + y < TWO_32 then x + y else x + y - TWO_32
  }

  datatype Frame = Frame(x: uint32, y: uint32, width: uint32, height: uint32)

  // ----- clipping -----

  /** The test of GetPixel: subtract the position, compare with the size, in wrapping arithmetic. */
  predicate HasPixel(dest: Frame, x: uint32, y: uint32) {
    Sub32(x, dest.x) < dest.width && Sub32(y, dest.y) < dest.height
  }

  predicate InRectangle(dest: Frame, x: uint32, y: uint32) {
    dest.x <= x < dest.x + dest.width && dest.y <= y < dest.y + dest.height
  }

  predicate Fits(dest: Frame) {
    dest.x + dest.width <= TWO_32 && dest.y + dest.height <= TWO_32
  }

  /**
   A layer shows a pixel at exactly the points of its destination rectangle if and only if the
   rectangle does not reach past the largest coordinate, or is empty.
   */
  lemma ClippingIsExactIffFits(dest: Frame)
    ensures (forall x: uint32, y: uint32 :: HasPixel(dest, x, y) <==> InRectangle(dest, x, y)) <==>
            Fits(dest) || dest.width == 0 || dest.height == 0
  {
    if Fits(dest) || dest.width == 0 || dest.height == 0 {
      forall x: uint32, y: uint32
        ensures HasPixel(dest, x, y) <==> InRectangle(dest, x, y)
      {
      }
    } else {
      // The first coordinate past the end wraps to zero, which the rectangle does not contain.
      var x := if dest.x + dest.width > TWO_32 then 0 else dest.x;
      var y := if dest.x + dest.width > TWO_32 then dest.y else 0;
      assert HasPixel(dest, x, y) && !InRectangle(dest, x, y);
    }
  }

  // ----- reflection and rotation -----

  datatype Transform =
    | IDENTITY | REFLECT_X | REFLECT_Y | ROT_90 | ROT_180 | ROT_270 | ROT_90_REFLECT_X | ROT_90_REFLECT_Y

  /** A point of a rectangle of the given size. */
  datatype Point = Point(width: nat, height: nat, x: int, y: int) {
    predicate Inside() {
      0 <= x < width && 0 <= y < height
    }
  }

  predicate ReflectsX(t: Transform) {
    t == REFLECT_X || t == ROT_180 || t == ROT_270 || t == ROT_90_REFLECT_X
  }

  predicate ReflectsY(t: Transform) {
    t == REFLECT_Y || t == ROT_180 || t == ROT_270 || t == ROT_90_REFLECT_Y
  }

  predicate Rotates(t: Transform) {
    t == ROT_90 || t == ROT_90_REFLECT_X || t == ROT_90_REFLECT_Y || t == ROT_270
  }

  /** GetPixel's reassignment of the coordinates, from a point of the destination to one of the unscaled source. */
  method Untransform(t: Transform, destWidth: uint32, destHeight: uint32, destX: uint32, destY: uint32)
    returns (x: uint32, y: uint32, width: uint32, height: uint32)
    requires destX < destWidth && destY < destHeight
    ensures Point(width, height, x, y) == Undone(t, Point(destWidth, destHeight, destX, destY))
  {
    x, y, width, height := destX, destY, destWidth, destHeight;
    if ReflectsX(t) {
      x := Sub32(Sub32(width, 1), x);
    }
    if ReflectsY(t) {
      y := Sub32(Sub32(height, 1), y);
    }
    if Rotates(t) {
      width, height := destHeight, destWidth;
      var tmp := x;
      x := Sub32(Sub32(width, 1), y);
      y := tmp;
    }
  }

  /** The same as a function. */
  function Undone(t: Transform, p: Point): (q: Point) {
    var x := if ReflectsX(t) then p.width - 1 - p.x else p.x;
    var y := if ReflectsY(t) then p.height - 1 - p.y else p.y;
    if Rotates(t) then Point(p.height, p.width, p.height - 1 - y, x) else Point(p.width, p.height, x, y)
  }

  // The transforms as the display controller's interface documents them: rotations are
  // counter-clockwise and are applied before reflections.

  function Rotated(p: Point): (q: Point) {
    Point(p.height, p.width, p.y, p.width - 1 - p.x)
  }

  function FlippedX(p: Point): (q: Point) {
    p.(x := p.width - 1 - p.x)
  }

  function FlippedY(p: Point): (q: Point) {
    p.(y := p.height - 1 - p.y)
  }

  /** Where a transform puts a point of the source. */
  function Applied(t: Transform, p: Point): (q: Point) {
    match t
    case IDENTITY => p
    case REFLECT_X => FlippedX(p)
    case REFLECT_Y => FlippedY(p)
    case ROT_90 => Rotated(p)
    case ROT_180 => Rotated(Rotated(p))
    case ROT_270 => Rotated(Rotated(Rotated(p)))
    case ROT_90_REFLECT_X => FlippedX(Rotated(p))
    case ROT_90_REFLECT_Y => FlippedY(Rotated(p))
  }

  /** GetPixel undoes each of the eight transforms, both ways and within the rectangles: a bijection. */
  lemma UndoneInvertsApplied(t: Transform, p: Point)
    ensures Undone(t, Applied(t, p)) == p && Applied(t, Undone(t, p)) == p
    ensures p.Inside() <==> Applied(t, p).Inside()
    ensures p.Inside() <==> Undone(t, p).Inside()
    ensures var q := Undone(t, p);
            if Rotates(t) then q.width == p.height && q.height == p.width
            else q.width == p.width && q.height == p.height
  {
    UndoneStaysInside(t, p);
    match t {
      case IDENTITY =>
      case REFLECT_X =>
      case REFLECT_Y =>
      case ROT_90 =>
      case ROT_180 =>
      case ROT_270 =>
      case ROT_90_REFLECT_X =>
      case ROT_90_REFLECT_Y =>
    }
  }

  lemma UndoneStaysInside(t: Transform, p: Point)
    ensures p.Inside() <==> Undone(t, p).Inside()
    ensures p.Inside() <==> Applied(t, p).Inside()
  {
  }

  /**
   The eight transforms of a square of at least two by two are pairwise different: a corner's neighbour
   tells them apart.
   */
  lemma TransformsDiffer(t: Transform, u: Transform, size: nat)
    requires size >= 2 && t != u
    ensures Undone(t, Point(size, size, 1, 0)) != Undone(u, Point(size, size, 1, 0))
            || Undone(t, Point(size, size, 0, 0)) != Undone(u, Point(size, size, 0, 0))
  {
  }

  // ----- scaling -----

  lemma QuotientFits(n: nat, d: nat)
    requires d >= 1
    ensures 0 <= n / d <= n
  {
  }

  /** scale(): rounding up, with the product and the sum wrapping. */
  function Scale(x: uint32, fromLimit: uint32, toLimit: uint32): (r: uint32)
    requires x < fromLimit
  {
    if fromLimit == toLimit then x
    else
      var n := Add32((x * toLimit) % TWO_32, fromLimit - 1);
      QuotientFits(n, fromLimit);
      n / fromLimit
  }

  /** The scaled coordinate is the exact one, rounded up, if and only if the product and the sum do not wrap. */
  lemma ScaleExactIff(x: uint32, fromLimit: uint32, toLimit: uint32)
    requires x < fromLimit
    ensures IsCeiling(Scale(x, fromLimit, toLimit), x * toLimit, fromLimit) <==>
            fromLimit == toLimit || x * toLimit + fromLimit - 1 < TWO_32
  {
    if fromLimit != toLimit {
      var n := x * toLimit;
      var m := Add32(n % TWO_32, fromLimit - 1);
      QuotientFits(m, fromLimit);
      Divided(m, fromLimit);
      WrapsUnlessSmall(n, fromLimit);
    }
  }

  lemma Divided(n: nat, d: nat)
    requires d > 0
    ensures n == d * (n / d) + n % d && 0 <= n % d < d
  {
  }

  lemma WrapsUnlessSmall(n: nat, d: uint32)
    requires d > 0
    ensures if n + d - 1 < TWO_32 then Add32(n % TWO_32, d - 1) == n + d - 1
            else Add32(n % TWO_32, d - 1) <= n + d - 1 - TWO_32
  {
  }

  // ----- images and layers -----

  datatype Image = Image(width: uint32, height: uint32, scalable: bool, fgColor: Color, bgColor: Color) {
    predicate IsFgPixel(x: uint32, y: uint32) {
      if scalable then (x < width / 2) != (y < height / 2)
      else if x < 4 || y < 4 then true
      else if x >= Sub32(width, 4) || y >= Sub32(height, 4) then false
      else y / 32 % 2 == x / 64 % 2
    }

    function GetPixel(x: uint32, y: uint32): (c: Color) {
      if IsFgPixel(x, y) then fgColor else bgColor
    }
  }

  /** A scalable image is split into four: its foreground is top right and bottom left. */
  lemma ScalablePattern(i: Image, x: uint32, y: uint32)
    requires i.scalable
    ensures x < i.width / 2 && y < i.height / 2 ==> i.GetPixel(x, y) == i.bgColor
    ensures x >= i.width / 2 && y < i.height / 2 ==> i.GetPixel(x, y) == i.fgColor
    ensures x < i.width / 2 && y >= i.height / 2 ==> i.GetPixel(x, y) == i.fgColor
    ensures x >= i.width / 2 && y >= i.height / 2 ==> i.GetPixel(x, y) == i.bgColor
  {
  }

  /**
   Any other image has a border of four pixels, foreground above and on the left, background below and
   on the right, around tiles of 64 by 32 pixels that alternate in both directions.
   */
  lemma TilePattern(i: Image, x: uint32, y: uint32, column: nat, row: nat)
    requires !i.scalable && i.width >= 8 && i.height >= 8 && x < i.width && y < i.height
    requires 64 * column <= x < 64 * (column + 1) && 32 * row <= y < 32 * (row + 1)
    ensures x < 4 || y < 4 ==> i.GetPixel(x, y) == i.fgColor
    ensures x >= 4 && y >= 4 && (i.width - x <= 4 || i.height - y <= 4) ==> i.GetPixel(x, y) == i.bgColor
    ensures 4 <= x < i.width - 4 && 4 <= y < i.height - 4 ==>
              i.GetPixel(x, y) == if (column + row) % 2 == 0 then i.fgColor else i.bgColor
  {
    assert x / 64 == column && y / 32 == row;
  }

  /** What an image shows at a point when a transform is applied to it. */
  function Shown(i: Image, t: Transform, p: Point): (fg: bool)
    requires p.Inside() && p.width < TWO_32 && p.height < TWO_32
  {
    UndoneInvertsApplied(t, p);
    i.IsFgPixel(Undone(t, p).x, Undone(t, p).y)
  }

  ghost predicate TellsApart(i: Image, t: Transform, u: Transform)
    requires i.width == i.height
  {
    exists p: Point :: p.Inside() && p.width == i.width && p.height == i.height && Shown(i, t, p) != Shown(i, u, p)
  }

  /** Of the corners only the last one is background. */
  lemma CornersOf(i: Image, x: uint32, y: uint32)
    requires !i.scalable && i.width == i.height && i.width >= 37
    requires (x == 0 || x == i.width - 1) && (y == 0 || y == i.width - 1)
    ensures i.IsFgPixel(x, y) <==> x == 0 || y == 0
  {
  }

  /** How a transform of a square is undone: the axes to be mirrored, and whether they are swapped then. */
  datatype Moves = Moves(mirrorX: bool, mirrorY: bool, swap: bool) {
    function Mirrored(n: nat, p: (int, int)): (q: (int, int)) {
      (if mirrorX then n - 1 - p.0 else p.0, if mirrorY then n - 1 - p.1 else p.1)
    }

    function Seen(n: nat, p: (int, int)): (q: (int, int)) {
      var m := Mirrored(n, p);
      if swap then (m.1, m.0) else m
    }
  }

  function MovesOf(t: Transform): (m: Moves) {
    Moves(ReflectsX(t), ReflectsY(t) != Rotates(t), Rotates(t))
  }

  lemma MovesDiffer(t: Transform, u: Transform)
    requires t != u
    ensures MovesOf(t) != MovesOf(u)
  {
  }

  lemma MovesUndo(t: Transform, n: nat, p: (int, int))
    ensures Undone(t, Point(n, n, p.0, p.1)) == Point(n, n, MovesOf(t).Seen(n, p).0, MovesOf(t).Seen(n, p).1)
  {
  }

  /** A place of the square where two transforms show different pixels. */
  lemma SeenAt(i: Image, t: Transform, u: Transform, p: (int, int))
    requires i.width == i.height && 0 <= p.0 < i.width && 0 <= p.1 < i.width
    requires var q, r := MovesOf(t).Seen(i.width, p), MovesOf(u).Seen(i.width, p);
             i.IsFgPixel(q.0, q.1) != i.IsFgPixel(r.0, r.1)
    ensures TellsApart(i, t, u)
  {
    MovesUndo(t, i.width, p);
    MovesUndo(u, i.width, p);
    assert Shown(i, t, Point(i.width, i.width, p.0, p.1)) != Shown(i, u, Point(i.width, i.width, p.0, p.1));
  }

  lemma LargeTellsApart(i: Image, t: Transform, u: Transform)
    requires !i.scalable && i.width == i.height && i.width >= 37 && t != u
    ensures TellsApart(i, t, u)
  {
    var n, m := i.width, MovesOf(t);
    MovesDiffer(t, u);
    if m.mirrorX != MovesOf(u).mirrorX || m.mirrorY != MovesOf(u).mirrorY {
      var p := m.Mirrored(n, (n - 1, n - 1));
      var q := MovesOf(u).Seen(n, p);
      CornersOf(i, n - 1, n - 1);
      CornersOf(i, q.0, q.1);
      SeenAt(i, t, u, p);
    } else {
      var p := m.Mirrored(n, if m.swap then (4, 32) else (32, 4));
      assert i.IsFgPixel(32, 4) && !i.IsFgPixel(4, 32);
      SeenAt(i, t, u, p);
    }
  }

  /**
   The border is there so that rotations and reflections look different. For a square image they do,
   all eight of them, if and only if it is at least 37 pixels wide: in a smaller one swapping the axes
   changes nothing.
   */
  lemma TransformsLookDifferentIff(i: Image)
    requires !i.scalable && i.width == i.height
    ensures (forall t, u :: t != u ==> TellsApart(i, t, u)) <==> i.width >= 37
  {
    if i.width >= 37 {
      forall t, u | t != u
        ensures TellsApart(i, t, u)
      {
        LargeTellsApart(i, t, u);
      }
    } else {
      forall p: Point | p.Inside() && p.width == i.width && p.height == i.height
        ensures Shown(i, IDENTITY, p) == Shown(i, ROT_90_REFLECT_Y, p)
      {
        assert Undone(ROT_90_REFLECT_Y, p) == Point(p.width, p.height, p.y, p.x);
      }
      assert !TellsApart(i, IDENTITY, ROT_90_REFLECT_Y);
    }
  }

  /** The applied state of a primary layer; no plane alpha is NaN. */
  datatype State = State(transform: Transform, src: Frame, dest: Frame, alphaMode: AlphaMode,
                         planeAlpha: Option<uint8>, image: Image)

  /** An image matches its layer's alpha mode. */
  predicate Matches(s: State) {
    s.alphaMode.PREMULTIPLIED? ==> Dominated(s.image.fgColor) && Dominated(s.image.bgColor)
  }

  /** Scaled pixels are certain only near the corners. */
  predicate NearCorner(x: uint32, y: uint32, width: uint32, height: uint32) {
    var bounds := MIN_SCALABLE_SIZE / 4;
    && (x < bounds || Sub32(width, bounds) <= x)
    && (y < bounds || Sub32(height, bounds) <= y)
  }

  /** Near a corner means within eight pixels of an edge in both directions. */
  lemma NearCornerMeans(x: uint32, y: uint32, width: uint32, height: uint32)
    requires x < width && y < height && width >= 8 && height >= 8
    ensures NearCorner(x, y, width, height) <==> (x < 8 || width - x <= 8) && (y < 8 || height - y <= 8)
  {
  }

  method GetPixel(s: State, globalX: uint32, globalY: uint32) returns (p: LayerPixel)
    ensures p == PixelAt(s, globalX, globalY)
  {
    var x0, y0 := Sub32(globalX, s.dest.x), Sub32(globalY, s.dest.y);
    if x0 >= s.dest.width || y0 >= s.dest.height {
      return Absent;
    }
    var x, y, width, height := Untransform(s.transform, s.dest.width, s.dest.height, x0, y0);
    UndoneInvertsApplied(s.transform, Point(s.dest.width, s.dest.height, x0, y0));
    x := Scale(x, width, s.src.width);
    y := Scale(y, height, s.src.height);
    var skip := false;
    if width != s.src.width || height != s.src.height {
      skip := !NearCorner(x, y, width, height);
    }
    var val := s.image.GetPixel(Add32(s.src.x, x), Add32(s.src.y, y));
    return Present(LayerColor(s.alphaMode, s.planeAlpha, val), skip);
  }

  /** The image pixel for a point of the unscaled source. */
  function SourceColor(s: State, q: Point): (c: Color)
    requires q.Inside() && q.width < TWO_32 && q.height < TWO_32
  {
    var x, y := Scale(q.x, q.width, s.src.width), Scale(q.y, q.height, s.src.height);
    s.image.GetPixel(Add32(s.src.x, x), Add32(s.src.y, y))
  }

  /** What a layer shows at a point of the unscaled source. */
  function SourcePixel(s: State, q: Point): (p: LayerPixel)
    requires q.Inside() && q.width < TWO_32 && q.height < TWO_32
  {
    var x, y := Scale(q.x, q.width, s.src.width), Scale(q.y, q.height, s.src.height);
    var scaled := q.width != s.src.width || q.height != s.src.height;
    Present(LayerColor(s.alphaMode, s.planeAlpha, SourceColor(s, q)), scaled && !NearCorner(x, y, q.width, q.height))
  }

  /**
   A pixel is left out of the comparison if and only if it is scaled and its coordinates in the source
   are not within eight pixels of an edge of the destination in both directions.
   */
  lemma SkippedIff(s: State, q: Point)
    requires q.Inside() && 8 <= q.width < TWO_32 && 8 <= q.height < TWO_32
    requires Scale(q.x, q.width, s.src.width) < q.width && Scale(q.y, q.height, s.src.height) < q.height
    ensures var x, y := Scale(q.x, q.width, s.src.width), Scale(q.y, q.height, s.src.height);
            SourcePixel(s, q).skip <==>
            && (q.width != s.src.width || q.height != s.src.height)
            && !((x < 8 || q.width - x <= 8) && (y < 8 || q.height - y <= 8))
  {
    NearCornerMeans(Scale(q.x, q.width, s.src.width), Scale(q.y, q.height, s.src.height), q.width, q.height);
  }

  lemma CeilingIsUnique(q: nat, r: nat, n: int, d: nat)
    requires d > 0 && IsCeiling(q, n, d) && IsCeiling(r, n, d)
    ensures q == r
  {
    if q < r {
      StepsApart(q, r, d);
    } else if r < q {
      StepsApart(r, q, d);
    }
  }

  lemma StepsApart(q: nat, r: nat, d: nat)
    requires q < r
    ensures d * r >= d * q + d
  {
    ProductLe(q + 1, r, d);
    assert (q + 1) * d == q * d + d;
  }

  /** A coordinate scaled exactly: the given one in proportion, rounded up, with nothing too large for 32 bits. */
  predicate IsScaledTo(x: int, fromLimit: int, toLimit: int, origin: int, r: nat) {
    IsCeiling(r, x * toLimit, fromLimit) && x * toLimit + fromLimit - 1 < TWO_32 && origin + r < TWO_32
  }

  lemma ScaleIs(x: uint32, fromLimit: uint32, toLimit: uint32, origin: uint32, r: nat)
    requires x < fromLimit && IsScaledTo(x, fromLimit, toLimit, origin, r)
    ensures Add32(origin, Scale(x, fromLimit, toLimit)) == origin + r
  {
    ScaleExactIff(x, fromLimit, toLimit);
    CeilingIsUnique(Scale(x, fromLimit, toLimit), r, x * toLimit, fromLimit);
  }

  /** What a layer shows at a point is its image's pixel at the coordinates in proportion, rounded up. */
  lemma ScaledShows(s: State, q: Point, x: nat, y: nat)
    requires q.Inside() && q.width < TWO_32 && q.height < TWO_32
    requires IsScaledTo(q.x, q.width, s.src.width, s.src.x, x) && IsScaledTo(q.y, q.height, s.src.height, s.src.y, y)
    ensures SourcePixel(s, q).color == LayerColor(s.alphaMode, s.planeAlpha, s.image.GetPixel(s.src.x + x, s.src.y + y))
  {
    ScaleIs(q.x, q.width, s.src.width, s.src.x, x);
    ScaleIs(q.y, q.height, s.src.height, s.src.y, y);
  }

  /** The point of the unscaled source that a point of the display shows. */
  function SourceOf(s: State, globalX: uint32, globalY: uint32): (q: Point)
    requires HasPixel(s.dest, globalX, globalY)
    ensures q.Inside() && q.width < TWO_32 && q.height < TWO_32
  {
    var d := Point(s.dest.width, s.dest.height, Sub32(globalX, s.dest.x), Sub32(globalY, s.dest.y));
    UndoneInvertsApplied(s.transform, d);
    Undone(s.transform, d)
  }

  /** What a layer shows at a point of the display. */
  function PixelAt(s: State, globalX: uint32, globalY: uint32): (p: LayerPixel) {
    if !HasPixel(s.dest, globalX, globalY) then Absent else SourcePixel(s, SourceOf(s, globalX, globalY))
  }

  /**
   A layer is opaque where it shows something exactly if alpha is disabled, or no plane alpha is set and
   its image is opaque there.
   */
  lemma PixelOpaqueIff(s: State, x: uint32, y: uint32)
    requires HasPixel(s.dest, x, y)
    ensures PixelAt(s, x, y).Present?
    ensures IsOpaque(PixelAt(s, x, y).color) <==>
            s.alphaMode.DISABLE? || (s.planeAlpha.None? && IsOpaque(SourceColor(s, SourceOf(s, x, y))))
  {
    LayerOpaqueIff(s.alphaMode, s.planeAlpha, SourceColor(s, SourceOf(s, x, y)));
  }

  /** Every colour of a layer whose image matches its alpha mode is premultiplied. */
  lemma LayerPixelsAreDominated(s: State, x: uint32, y: uint32)
    requires Matches(s) && PixelAt(s, x, y).Present?
    ensures Dominated(PixelAt(s, x, y).color)
  {
    LayerColorDominatedIff(s.alphaMode, s.image.fgColor);
    LayerColorDominatedIff(s.alphaMode, s.image.bgColor);
  }

  lemma SourceOfApplied(s: State, p: Point)
    requires Fits(s.dest) && p.Inside()
    requires Applied(s.transform, p).width == s.dest.width && Applied(s.transform, p).height == s.dest.height
    ensures var at := Applied(s.transform, p);
            && at.Inside() && s.dest.x + at.x < TWO_32 && s.dest.y + at.y < TWO_32
            && HasPixel(s.dest, s.dest.x + at.x, s.dest.y + at.y)
            && SourceOf(s, s.dest.x + at.x, s.dest.y + at.y) == p
  {
    var at := Applied(s.transform, p);
    UndoneInvertsApplied(s.transform, p);
    assert Sub32(s.dest.x + at.x, s.dest.x) == at.x && Sub32(s.dest.y + at.y, s.dest.y) == at.y;
    assert Point(s.dest.width, s.dest.height, at.x, at.y) == at;
  }

  /** A layer shows, at the place its transform puts a source point, what it has at that point. */
  lemma LayerShowsSource(s: State, p: Point)
    requires Fits(s.dest) && p.Inside() && p.width < TWO_32 && p.height < TWO_32
    requires Applied(s.transform, p).width == s.dest.width && Applied(s.transform, p).height == s.dest.height
    ensures var at := Applied(s.transform, p);
            && at.Inside() && s.dest.x + at.x < TWO_32 && s.dest.y + at.y < TWO_32
            && PixelAt(s, s.dest.x + at.x, s.dest.y + at.y) == SourcePixel(s, p)
  {
    SourceOfApplied(s, p);
  }

  /** Where the source is not scaled, that is, without doubt, the image's own pixel. */
  lemma UnscaledIsCertain(s: State, p: Point)
    requires p.Inside() && p.width == s.src.width && p.height == s.src.height
    requires s.src.x + s.src.width <= TWO_32 && s.src.y + s.src.height <= TWO_32
    ensures SourcePixel(s, p) ==
            Present(LayerColor(s.alphaMode, s.planeAlpha, s.image.GetPixel(s.src.x + p.x, s.src.y + p.y)), false)
  {
  }
}
