/** Colours of the display capture test: packed 32-bit ARGB words, premultiplication and blending. */
module Colors {
  import opened Common

  /** The four byte lanes of a packed word. */
  datatype Color = Color(a: uint8, r: uint8, g: uint8, b: uint8)

  function Pack(c: Color): (v: uint32) {
    ((c.a * 256 + c.r) * 256 + c.g) * 256 + c.b
  }

  function Unpack(v: uint32): (c: Color) {
    Color(v / 256 / 256 / 256, v / 256 / 256 % 256, v / 256 % 256, v % 256)
  }

  lemma LowByte(q: nat, b: uint8)
    ensures (q * 256 + b) / 256 == q && (q * 256 + b) % 256 == b
  {
  }

  lemma UnpackPack(c: Color)
    ensures Unpack(Pack(c)) == c
  {
    LowByte((c.a * 256 + c.r) * 256 + c.g, c.b);
    LowByte(c.a * 256 + c.r, c.g);
    LowByte(c.a, c.r);
  }

  predicate IsOpaque(c: Color) {
    c.a == 255
  }

  /** No colour channel exceeds the alpha channel: what premultiplied colours have in common. */
  predicate Dominated(c: Color) {
    c.r <= c.a && c.g <= c.a && c.b <= c.a
  }

  // ----- premultiplication -----

  lemma ProductLe(x: nat, y: nat, z: nat)
    requires x <= y
    ensures x * z <= y * z
  {
  }

  /** Division by 256 with the rounding of the code: (n + 254) >> 8. */
  function RoundedShift(n: nat): (q: nat) {
    (n + 254) / 256
  }

  lemma RoundedShiftBound(n: nat, k: nat)
    requires n <= 255 * k && k <= 255
    ensures RoundedShift(n) <= k
  {
  }

  /** A channel multiplied by an alpha value, rounded as the hardware is expected to. */
  function Multiplied(x: uint8, alpha: uint8): (y: uint8)
    ensures y <= alpha && y <= x
  {
    ProductLe(x, 255, alpha);
    ProductLe(alpha, 255, x);
    RoundedShiftBound(x * alpha, alpha);
    RoundedShiftBound(x * alpha, x);
    RoundedShift(x * alpha)
  }

  lemma MultipliedIsMonotone(x: uint8, y: uint8, alpha: uint8)
    requires x <= y
    ensures Multiplied(x, alpha) <= Multiplied(y, alpha)
  {
    ProductLe(x, y, alpha);
  }

  /** q is n over 256, rounded as the code does. */
  predicate IsRounded(q: int, n: int) {
    256 * q <= n + 254 < 256 * q + 256
  }

  /** q is n over d, rounded up. */
  predicate IsCeiling(q: int, n: int, d: int) {
    n <= d * q < n + d
  }

  lemma MultipliedMeans(x: uint8, alpha: uint8)
    ensures IsRounded(Multiplied(x, alpha), x * alpha)
  {
    var n := x * alpha + 254;
    assert n == 256 * (n / 256) + n % 256;
  }

  function Premultiplied(c: Color, alpha: uint8): (p: Color)
    ensures p.a == c.a && p.r <= alpha && p.g <= alpha && p.b <= alpha
  {
    Color(c.a, Multiplied(c.r, alpha), Multiplied(c.g, alpha), Multiplied(c.b, alpha))
  }

  lemma PremultipliedMeans(c: Color, alpha: uint8)
    ensures var p := Premultiplied(c, alpha);
            && p.a == c.a && IsRounded(p.r, c.r * alpha) && IsRounded(p.g, c.g * alpha) && IsRounded(p.b, c.b * alpha)
  {
    MultipliedMeans(c.r, alpha);
    MultipliedMeans(c.g, alpha);
    MultipliedMeans(c.b, alpha);
  }

  /** premultiply_color_channels, lane by lane on the packed word; or-ing into an empty lane is adding. */
  method PremultiplyColorChannels(val: uint32, alpha: uint8) returns (ret: uint32)
    ensures Unpack(ret) == Premultiplied(Unpack(val), alpha)
  {
    ghost var c := Unpack(val);
    ghost var p := Premultiplied(c, alpha);
    var acc := val / 256 / 256 / 256 * 0x100_0000;
    var rest, place := val, 1;
    for i := 0 to 3
      invariant rest == [val, val / 256, val / 256 / 256, val / 256 / 256 / 256][i]
      invariant place == [1, 0x100, 0x1_0000, 0x100_0000][i]
      invariant acc == c.a * 0x100_0000 + [0, p.b, p.g * 0x100 + p.b, p.r * 0x1_0000 + p.g * 0x100 + p.b][i]
    {
      var component := Multiplied(rest % 256, alpha);
      acc := acc + component * place;
      rest, place := rest / 256, place * 256;
    }
    assert acc == Pack(p);
    UnpackPack(p);
    ret := acc;
  }

  // ----- the colours of test images -----

  /** get_next_color: the three digits of the index become the high halves of the channels; alpha is zero. */
  function IndexedColor(index: nat): (c: Color)
    requires index <= 0xfff
  {
    Color(0, index / 0x100 * 16, index / 0x10 % 16 * 16, index % 16 * 16)
  }

  /** The index with the digits xyz gives the word with the digits x0y0z0. */
  lemma IndexedColorDigits(x: nat, y: nat, z: nat)
    requires x < 16 && y < 16 && z < 16
    ensures Pack(IndexedColor(x * 0x100 + y * 0x10 + z)) == x * 0x10_0000 + y * 0x1000 + z * 0x10
  {
    var i := x * 0x100 + y * 0x10 + z;
    LowDigit(x * 16 + y, z);
    LowDigit(x, y);
    assert i / 0x100 == i / 16 / 16;
    assert IndexedColor(i) == Color(0, x * 16, y * 16, z * 16);
  }

  lemma LowDigit(q: nat, d: nat)
    requires d < 16
    ensures (q * 16 + d) / 16 == q && (q * 16 + d) % 16 == d
  {
  }

  lemma IndexedColorsDiffer(i: nat, j: nat)
    requires i <= 0xfff && j <= 0xfff && IndexedColor(i) == IndexedColor(j)
    ensures i == j
  {
    ThreeDigits(i);
    ThreeDigits(j);
  }

  lemma ThreeDigits(i: nat)
    ensures i == i / 0x100 * 0x100 + i / 0x10 % 16 * 16 + i % 16
  {
    var q := i / 0x10;
    assert i == q * 16 + i % 16 && q == q / 16 * 16 + q % 16;
    assert i / 0x100 == q / 16;
  }

  /** The static counter of get_next_color. */
  class ColorSource {
    var nextIndex: nat
    var background: Option<Color>
    ghost var given: set<Color>

    /** Every colour given out belongs to an index already used. */
    ghost predicate Valid()
      reads this
    {
      && 1 <= nextIndex <= 0x1000
      && (forall c :: c in given <==> exists i :: 1 <= i < nextIndex && c == IndexedColor(i))
      && (background.Some? ==> background.value in given)
    }

    constructor ()
      ensures Valid() && nextIndex == 1 && background == None && given == {}
    {
      nextIndex, background, given := 1, None, {};
    }

    /** Colours never repeat until the indices run out, and black is never given out. */
    method GetNextColor() returns (c: Color)
      requires Valid() && nextIndex <= 0xfff
      modifies this
      ensures Valid() && nextIndex == old(nextIndex) + 1 && background == old(background)
      ensures c !in old(given) && given == old(given) + {c} && c == IndexedColor(old(nextIndex))
              && c != Color(0, 0, 0, 0)
    {
      c := IndexedColor(nextIndex);
      if c in given {
        var i :| 1 <= i < nextIndex && c == IndexedColor(i);
        IndexedColorsDiffer(i, nextIndex);
      }
      IndexedBlack(nextIndex);
      given := given + {c};
      nextIndex := nextIndex + 1;
    }

    /** compute_color: the background colour is chosen once, foreground colours are always new. */
    method ComputeColor(alpha: uint8, premultiplied: bool, bg: bool) returns (c: Color)
      requires Valid() && nextIndex + (if background.None? then 1 else 0) + (if bg then 0 else 1) <= 0x1000
      modifies this
      ensures Valid() && background.Some? && (old(background).Some? ==> background == old(background))
      ensures c.a == alpha && (premultiplied ==> Dominated(c))
      ensures c == Finished(if bg then background.value else IndexedColor(nextIndex - 1), alpha, premultiplied)
      ensures !bg ==> IndexedColor(nextIndex - 1) !in old(given) && IndexedColor(nextIndex - 1) != background.value
    {
      if background.None? {
        var first := GetNextColor();
        background := Some(first);
      }
      var base := background.value;
      if !bg {
        base := GetNextColor();
        assert background.value != base;
      }
      c := Finished(base, alpha, premultiplied);
    }
  }

  function Finished(base: Color, alpha: uint8, premultiplied: bool): (c: Color)
    ensures c.a == alpha && (premultiplied ==> Dominated(c))
  {
    var c := base.(a := alpha);
    if premultiplied then Premultiplied(c, alpha) else c
  }

  /** The alpha is set; then the channels are the base's, or its products with alpha. */
  lemma FinishedMeans(base: Color, alpha: uint8)
    ensures Finished(base, alpha, false) == Color(alpha, base.r, base.g, base.b)
    ensures var c := Finished(base, alpha, true);
            c.a == alpha
            && IsRounded(c.r, base.r * alpha) && IsRounded(c.g, base.g * alpha) && IsRounded(c.b, base.b * alpha)
  {
    PremultipliedMeans(base.(a := alpha), alpha);
  }

  lemma IndexedBlack(i: nat)
    requires 1 <= i <= 0xfff
    ensures IndexedColor(i) != Color(0, 0, 0, 0)
  {
  }

  // ----- the colour of a layer -----

  datatype AlphaMode = DISABLE | PREMULTIPLIED | HW_MULTIPLY

  /** How GetPixel turns an image pixel into a premultiplied layer colour; no plane alpha is NaN. */
  function LayerColor(mode: AlphaMode, planeAlpha: Option<uint8>, pixel: Color): (c: Color) {
    var combined :=
      if planeAlpha.None? then pixel
      else
        var faded := pixel.(a := Multiplied(pixel.a, planeAlpha.value));
        if mode.PREMULTIPLIED? then Premultiplied(faded, planeAlpha.value) else faded;
    match mode
    case DISABLE => combined.(a := 255)
    case HW_MULTIPLY => Premultiplied(combined, combined.a)
    case PREMULTIPLIED => combined
  }

  /**
   What the modes do. Alpha is the pixel's, times the plane's if there is one, and 255 when it is
   disabled. The channels of a premultiplied image are multiplied by the plane's alpha, those of an
   image to be multiplied by the hardware by the layer's alpha, and otherwise stay.
   */
  lemma LayerColorMeans(mode: AlphaMode, plane: Option<uint8>, pixel: Color)
    ensures var c := LayerColor(mode, plane, pixel);
            match mode
            case DISABLE => c == Color(255, pixel.r, pixel.g, pixel.b)
            case PREMULTIPLIED =>
              if plane.None? then c == pixel
              else
                && IsRounded(c.a, pixel.a * plane.value) && IsRounded(c.r, pixel.r * plane.value)
                && IsRounded(c.g, pixel.g * plane.value) && IsRounded(c.b, pixel.b * plane.value)
            case HW_MULTIPLY =>
              && (if plane.None? then c.a == pixel.a else IsRounded(c.a, pixel.a * plane.value))
              && IsRounded(c.r, pixel.r * c.a) && IsRounded(c.g, pixel.g * c.a) && IsRounded(c.b, pixel.b * c.a)
  {
    var c := LayerColor(mode, plane, pixel);
    if plane.Some? {
      MultipliedMeans(pixel.a, plane.value);
      PremultipliedMeans(pixel, plane.value);
    }
    PremultipliedMeans(pixel, c.a);
  }

  /**
   A layer's colours are premultiplied for every plane alpha exactly when its image matches its
   alpha mode: only the premultiplied mode needs an image whose own channels are dominated.
   */
  lemma LayerColorDominatedIff(mode: AlphaMode, pixel: Color)
    ensures (forall plane: Option<uint8> :: Dominated(LayerColor(mode, plane, pixel))) <==>
            (mode.PREMULTIPLIED? ==> Dominated(pixel))
  {
    if mode.PREMULTIPLIED? {
      if Dominated(pixel) {
        forall plane: Option<uint8>
          ensures Dominated(LayerColor(mode, plane, pixel))
        {
          if plane.Some? {
            MultipliedIsMonotone(pixel.r, pixel.a, plane.value);
            MultipliedIsMonotone(pixel.g, pixel.a, plane.value);
            MultipliedIsMonotone(pixel.b, pixel.a, plane.value);
          }
        }
      } else {
        assert !Dominated(LayerColor(mode, None, pixel));
      }
    }
  }

  /** With alpha disabled the plane alpha, which may never have been set, does not matter. */
  lemma DisabledIgnoresPlaneAlpha(plane: Option<uint8>, pixel: Color)
    ensures LayerColor(DISABLE, plane, pixel) == pixel.(a := 255)
  {
  }

  /**
   A layer is opaque at a pixel exactly when alpha is disabled, or no plane alpha is set and the pixel
   itself is opaque: any plane alpha, even 255, makes it less than opaque, since 255 times 255 rounds
   to 254.
   */
  lemma LayerOpaqueIff(mode: AlphaMode, plane: Option<uint8>, pixel: Color)
    ensures IsOpaque(LayerColor(mode, plane, pixel)) <==> mode.DISABLE? || (plane.None? && IsOpaque(pixel))
  {
    if plane.Some? && !mode.DISABLE? {
      NeverFull(pixel.a, plane.value);
    }
  }

  lemma NeverFull(x: uint8, alpha: uint8)
    ensures Multiplied(x, alpha) < 255 && Multiplied(255, 255) == 254
  {
    if alpha == 255 {
      MultipliedIsMonotone(x, 255, 255);
    }
  }

  // ----- blending -----

  /** What a layer lets through of what is under it: (x * (255 - alpha) + 254) / 255. */
  function LetThrough(x: nat, alpha: uint8): (y: nat) {
    (x * (255 - alpha) + 254) / 255
  }

  /** multiply_component before the clamp. */
  function Unclamped(dest: uint8, src: uint8, alpha: uint8): (y: nat) {
    LetThrough(dest, alpha) + src
  }

  function MultiplyComponent(dest: uint8, src: uint8, alpha: uint8): (y: uint8) {
    if Unclamped(dest, src, alpha) > 255 then 255 else Unclamped(dest, src, alpha)
  }

  /** multiply: src over dest. */
  function Over(dest: Color, src: Color): (c: Color) {
    if IsOpaque(src) then src
    else Color(255, MultiplyComponent(dest.r, src.r, src.a), MultiplyComponent(dest.g, src.g, src.a),
               MultiplyComponent(dest.b, src.b, src.a))
  }

  /** y is n over 255, rounded up, and the source channel, but at most 255. */
  predicate IsSum(y: int, n: int, src: int) {
    if y < 255 then IsCeiling(y - src, n, 255) else y == 255 && n > 255 * (254 - src)
  }

  /** y is what a source channel over a destination channel gives: the part that is let through, and the source. */
  predicate IsBlended(y: int, dest: int, src: int, alpha: int) {
    IsSum(y, dest * (255 - alpha), src)
  }

  lemma CeilingExists(n: int)
    ensures IsCeiling((n + 254) / 255, n, 255)
  {
    var m := n + 254;
    assert m == 255 * (m / 255) + m % 255;
  }

  lemma LetThroughMeans(x: nat, alpha: uint8)
    ensures IsCeiling(LetThrough(x, alpha), x * (255 - alpha), 255)
  {
    CeilingExists(x * (255 - alpha));
  }

  lemma SumMeans(q: int, n: int, src: int)
    requires IsCeiling(q, n, 255)
    ensures IsSum(if q + src > 255 then 255 else q + src, n, src)
  {
  }

  lemma MultiplyComponentMeans(dest: uint8, src: uint8, alpha: uint8)
    ensures IsSum(MultiplyComponent(dest, src, alpha), dest * (255 - alpha), src)
  {
    LetThroughMeans(dest, alpha);
    SumMeans(LetThrough(dest, alpha), dest * (255 - alpha), src);
  }

  /** An opaque source hides what is under it; any other is blended over it channel by channel. */
  lemma OverMeans(dest: Color, src: Color)
    ensures var c := Over(dest, src);
            if src.a == 255 then c == src
            else
              && c.a == 255 && IsBlended(c.r, dest.r, src.r, src.a)
              && IsBlended(c.g, dest.g, src.g, src.a) && IsBlended(c.b, dest.b, src.b, src.a)
  {
    MultiplyComponentMeans(dest.r, src.r, src.a);
    MultiplyComponentMeans(dest.g, src.g, src.a);
    MultiplyComponentMeans(dest.b, src.b, src.a);
  }

  /** The clamp is idle for every destination exactly when the source channel does not exceed its alpha. */
  lemma ClampIdleIff(src: uint8, alpha: uint8)
    ensures (forall dest: uint8 :: Unclamped(dest, src, alpha) <= 255) <==> src <= alpha
  {
    if src <= alpha {
      forall dest: uint8
        ensures Unclamped(dest, src, alpha) <= 255
      {
        Attenuated(dest, alpha);
      }
    } else {
      assert Unclamped(255, src, alpha) == 255 - alpha + src by { AttenuatedFull(alpha); }
    }
  }

  lemma RoundedQuotientBound(n: nat, k: nat)
    requires n <= 255 * k
    ensures (n + 254) / 255 <= k
  {
  }

  lemma Attenuated(dest: uint8, alpha: uint8)
    ensures LetThrough(dest, alpha) <= 255 - alpha
  {
    ProductLe(dest, 255, 255 - alpha);
    RoundedQuotientBound(dest * (255 - alpha), 255 - alpha);
  }

  lemma AttenuatedFull(alpha: uint8)
    ensures LetThrough(255, alpha) == 255 - alpha
  {
  }

  /** What a layer shows at a point; an uncertain colour is to be skipped. */
  datatype LayerPixel = Absent | Present(color: Color, skip: bool)

  /** The present colours, bottom first, blended without any clamp; it only makes sense when no clamp is needed. */
  function ExactBlend(ps: seq<LayerPixel>): (c: (nat, nat, nat)) {
    if ps == [] then (0, 0, 0)
    else
      var under := ExactBlend(ps[..|ps| - 1]);
      var p := ps[|ps| - 1];
      if p.Absent? then under
      else if IsOpaque(p.color) then (p.color.r, p.color.g, p.color.b)
      else
        (LetThrough(under.0, p.color.a) + p.color.r, LetThrough(under.1, p.color.a) + p.color.g,
         LetThrough(under.2, p.color.a) + p.color.b)
  }

  /** The expected colour computed by the loop over the layers. */
  function Blend(ps: seq<LayerPixel>): (c: Color) {
    if ps == [] then Color(0, 0, 0, 0)
    else if ps[|ps| - 1].Absent? then Blend(ps[..|ps| - 1])
    else Over(Blend(ps[..|ps| - 1]), ps[|ps| - 1].color)
  }

  /** What lies under an opaque pixel does not matter, and the topmost pixel goes over the rest. */
  lemma {:induction false} OpaqueHides(ps: seq<LayerPixel>, i: nat)
    requires i < |ps| && ps[i].Present? && IsOpaque(ps[i].color)
    ensures Blend(ps) == Blend(ps[i..])
    decreases |ps|
  {
    var n := |ps| - 1;
    if i < n {
      OpaqueHides(ps[..n], i);
      assert ps[i..][..n - i] == ps[..n][i..];
    } else {
      assert ps[i..] == [ps[n]];
    }
  }

  /** Whether the pixel is to be skipped, as the loop computes it. */
  function SkipAfter(ps: seq<LayerPixel>): (skip: bool) {
    if ps == [] then false
    else
      var p := ps[|ps| - 1];
      if p.Absent? then SkipAfter(ps[..|ps| - 1])
      else if p.skip then true
      else SkipAfter(ps[..|ps| - 1]) && !IsOpaque(p.color)
  }

  predicate AnyPresent(ps: seq<LayerPixel>) {
    exists i :: 0 <= i < |ps| && ps[i].Present?
  }

  /** The lowest layer at the point is opaque there, as CheckFrame asserts. */
  predicate BottomOpaque(ps: seq<LayerPixel>) {
    forall i :: 0 <= i < |ps| && ps[i].Present? && (forall j :: 0 <= j < i ==> ps[j].Absent?) ==> IsOpaque(ps[i].color)
  }

  /**
   For layers with premultiplied colours over an opaque one, the blend stays opaque and no clamp
   ever acts: it is the exact blend.
   */
  lemma {:induction false} BlendIsExactAndOpaque(ps: seq<LayerPixel>)
    requires BottomOpaque(ps)
    requires forall i :: 0 <= i < |ps| && ps[i].Present? ==> Dominated(ps[i].color)
    ensures var c := Blend(ps);
            && (AnyPresent(ps) ==> IsOpaque(c))
            && ExactBlend(ps) == (c.r, c.g, c.b)
  {
    if ps != [] {
      var init, p := ps[..|ps| - 1], ps[|ps| - 1];
      BlendIsExactAndOpaque(init);
      var c := Blend(init);
      if p.Present? && !IsOpaque(p.color) {
        Attenuated(c.r, p.color.a);
        Attenuated(c.g, p.color.a);
        Attenuated(c.b, p.color.a);
      }
    }
  }

  /** A pixel is skipped exactly when some layer is uncertain there and no certain opaque layer covers it. */
  lemma {:induction false} SkipMeaning(ps: seq<LayerPixel>)
    ensures SkipAfter(ps) <==>
            exists i :: && 0 <= i < |ps| && ps[i].Present? && ps[i].skip
                        && forall j :: i < j < |ps| && ps[j].Present? && !ps[j].skip ==> !IsOpaque(ps[j].color)
  {
    if ps != [] {
      var n := |ps| - 1;
      var init := ps[..n];
      SkipMeaning(init);
      if SkipAfter(ps) {
        if ps[n].Present? && ps[n].skip {
        } else {
          var i :| && 0 <= i < |init| && init[i].Present? && init[i].skip
                   && forall j :: i < j < |init| && init[j].Present? && !init[j].skip ==> !IsOpaque(init[j].color);
          assert ps[i].Present? && ps[i].skip;
        }
      }
      if i :| && 0 <= i < |ps| && ps[i].Present? && ps[i].skip
              && forall j :: i < j < |ps| && ps[j].Present? && !ps[j].skip ==> !IsOpaque(ps[j].color) {
        if i < n {
          assert init[i].Present? && init[i].skip;
        }
      }
    }
  }
}
