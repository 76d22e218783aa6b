/**
 * Sizing of the image preview (`ExportImagePreview._get_preview_size` and the
 * rescale check of `_resize_preview` in export_layers/gui_previews.py).
 *
 * The source divides with true division and rounds with Python 2's `round`
 * (half away from zero). All quantities here are non-negative, so that is
 * "round half up" on an exact rational.
 */
module PreviewSizing {
  import opened Wrappers

  /** A width and a height in pixels (widget allocations, images, pixbufs). */
  datatype Size = Size(width: nat, height: nat)

  /** `_MAX_PREVIEW_SIZE_PIXELS`. */
  const MaxPreviewSizePixels: nat := 1024

  /** An image or pixbuf size; GIMP and GTK never produce a zero side. */
  predicate Positive(s: Size) {
    s.width >= 1 && s.height >= 1
  }

  function Min3(a: nat, b: nat, c: nat): (r: nat)
    ensures r <= a && r <= b && r <= c
    ensures r == a || r == b || r == c
  {
    if a <= b && a <= c then a else if b <= c then b else c
  }

  function Max(a: nat, b: nat): nat {
    if a >= b then a else b
  }

  function Dist(a: nat, b: nat): nat {
    if a >= b then a - b else b - a
  }

  /**
   * `int(round(p / q))` for `p >= 0`, `q >= 1`: the integer nearest to p/q,
   * a tie going up. Stated as `|r - p/q| <= 1/2` with the tie on the upper side.
   */
  function RoundRatio(p: nat, q: nat): (r: nat)
    requires q >= 1
    ensures 2 * r * q <= 2 * p + q < 2 * r * q + 2 * q
  {
    (2 * p + q) / (2 * q)
  }

  /** The first pass, taking the height as the bound (the widget is wider than tall). */
  function FitByHeight(allocation: Size, width: nat, height: nat): Size
    requires width >= 1 && height >= 1
  {
    var h := Min3(allocation.height, height, MaxPreviewSizePixels);
    var w := RoundRatio(h * width, height);
    if w > allocation.width then Size(allocation.width, RoundRatio(allocation.width * height, width))
    else Size(w, h)
  }

  /** The first pass, taking the width as the bound. */
  function FitByWidth(allocation: Size, width: nat, height: nat): Size
    requires width >= 1 && height >= 1
  {
    var w := Min3(allocation.width, width, MaxPreviewSizePixels);
    var h := RoundRatio(w * height, width);
    if h > allocation.height then Size(RoundRatio(allocation.height * width, height), allocation.height)
    else Size(w, h)
  }

  /**
   * `_get_preview_size(width, height)` for the current widget allocation:
   * bound the primary axis, derive the other by the image's ratio, redo the
   * computation from the other axis if that overflows the widget, then lift
   * a zero side to one pixel.
   */
  function PreviewSize(allocation: Size, width: nat, height: nat): (r: Size)
    requires width >= 1 && height >= 1
    ensures Positive(r)
  {
    var fitted :=
      if allocation.width > allocation.height then FitByHeight(allocation, width, height)
      else FitByWidth(allocation, width, height);
    Size(if fitted.width == 0 then 1 else fitted.width,
         if fitted.height == 0 then 1 else fitted.height)
  }

  lemma MulLe(a: nat, b: nat, c: nat)
    requires a <= b
    ensures a * c <= b * c
  {
  }

  lemma MulLtCancel(a: nat, b: nat, c: nat)
    requires c >= 1 && a * c < b * c
    ensures a < b
  {
    if a >= b {
      MulLe(b, a, c);
    }
  }

  /**
   * The second pass never grows the primary axis: if the ratio from `bound`
   * overflows `limit` on the other axis, the ratio back from `limit` is at
   * most `bound`.
   */
  lemma SecondPassShrinks(bound: nat, limit: nat, a: nat, b: nat)
    requires a >= 1 && b >= 1
    requires RoundRatio(bound * a, b) > limit
    ensures RoundRatio(limit * b, a) <= bound
  {
    RoundTripBound(bound, limit, a, b, RoundRatio(bound * a, b), RoundRatio(limit * b, a));
  }

  /** The arithmetic of the above, for any two values within the rounding bounds. */
  lemma RoundTripBound(bound: nat, limit: nat, a: nat, b: nat, first: nat, second: nat)
    requires a >= 1 && b >= 1 && first > limit
    requires 2 * first * b <= 2 * (bound * a) + b
    requires 2 * second * a <= 2 * (limit * b) + a
    ensures second <= bound
  {
    MulLe(limit + 1, first, b);
    assert 2 * (limit * b) + b <= 2 * (bound * a);
    MulLtCancel(2 * second, 2 * bound + 1, a);
  }

  /** The rounded ratio is within half a unit of the exact one. */
  lemma RoundRatioError(p: nat, q: nat)
    requires q >= 1
    ensures 2 * Dist(RoundRatio(p, q) * q, p) <= q
  {
  }

  /**
   * The primary axis (height when the widget is wider than tall, else width)
   * stays within min(widget side, image side, 1024), except where the
   * one-pixel floor lifts it.
   */
  lemma PreviewSizePrimaryBound(allocation: Size, width: nat, height: nat)
    requires width >= 1 && height >= 1
    ensures var r := PreviewSize(allocation, width, height);
      if allocation.width > allocation.height then
        r.height <= Min3(allocation.height, height, MaxPreviewSizePixels) || r.height == 1
      else
        r.width <= Min3(allocation.width, width, MaxPreviewSizePixels) || r.width == 1
  {
    if allocation.width > allocation.height {
      FitByHeightBounds(allocation, width, height);
    } else {
      FitByWidthBounds(allocation, width, height);
    }
  }

  /** With a widget of at least one pixel each way, the preview fits inside it. */
  lemma PreviewSizeFitsAllocation(allocation: Size, width: nat, height: nat)
    requires width >= 1 && height >= 1
    requires Positive(allocation)
    ensures var r := PreviewSize(allocation, width, height);
      r.width <= allocation.width && r.height <= allocation.height
  {
    if allocation.width > allocation.height {
      FitByHeightBounds(allocation, width, height);
    } else {
      FitByWidthBounds(allocation, width, height);
    }
  }

  /** The height-bounded pass stays within the widget and within the height bound. */
  lemma FitByHeightBounds(allocation: Size, width: nat, height: nat)
    requires width >= 1 && height >= 1
    ensures var f := FitByHeight(allocation, width, height);
      f.width <= allocation.width && f.height <= Min3(allocation.height, height, MaxPreviewSizePixels)
  {
    var h := Min3(allocation.height, height, MaxPreviewSizePixels);
    if RoundRatio(h * width, height) > allocation.width {
      SecondPassShrinks(h, allocation.width, width, height);
    }
  }

  /** The width-bounded pass stays within the widget and within the width bound. */
  lemma FitByWidthBounds(allocation: Size, width: nat, height: nat)
    requires width >= 1 && height >= 1
    ensures var f := FitByWidth(allocation, width, height);
      f.height <= allocation.height && f.width <= Min3(allocation.width, width, MaxPreviewSizePixels)
  {
    var w := Min3(allocation.width, width, MaxPreviewSizePixels);
    if RoundRatio(w * height, width) > allocation.height {
      SecondPassShrinks(w, allocation.height, height, width);
    }
  }

  /**
   * `s` keeps the ratio width : height up to the rounding of one side:
   * |s.width * height - s.height * width| <= max(width, height) / 2.
   */
  predicate AspectKept(s: Size, width: nat, height: nat) {
    2 * Dist(s.width * height, s.height * width) <= Max(width, height)
  }

  /** A size whose height is the rounded ratio from its width keeps the aspect. */
  lemma HeightFromWidthAspect(a: nat, width: nat, height: nat)
    requires width >= 1 && height >= 1
    ensures AspectKept(Size(a, RoundRatio(a * height, width)), width, height)
  {
    RoundRatioError(a * height, width);
  }

  /** A size whose width is the rounded ratio from its height keeps the aspect. */
  lemma WidthFromHeightAspect(a: nat, width: nat, height: nat)
    requires width >= 1 && height >= 1
    ensures AspectKept(Size(RoundRatio(a * width, height), a), width, height)
  {
    RoundRatioError(a * width, height);
  }

  /** The height-bounded pass keeps the ratio up to the rounding of one side. */
  lemma FitByHeightAspect(allocation: Size, width: nat, height: nat)
    requires width >= 1 && height >= 1
    ensures AspectKept(FitByHeight(allocation, width, height), width, height)
  {
    HeightFromWidthAspect(allocation.width, width, height);
    WidthFromHeightAspect(Min3(allocation.height, height, MaxPreviewSizePixels), width, height);
  }

  /** The width-bounded pass keeps the ratio up to the rounding of one side. */
  lemma FitByWidthAspect(allocation: Size, width: nat, height: nat)
    requires width >= 1 && height >= 1
    ensures AspectKept(FitByWidth(allocation, width, height), width, height)
  {
    WidthFromHeightAspect(allocation.height, width, height);
    HeightFromWidthAspect(Min3(allocation.width, width, MaxPreviewSizePixels), width, height);
  }

  /**
   * The preview keeps the image's aspect ratio up to the rounding of one
   * side, unless a side sits at the one-pixel floor.
   */
  lemma PreviewSizeKeepsAspect(allocation: Size, width: nat, height: nat)
    requires width >= 1 && height >= 1
    ensures var r := PreviewSize(allocation, width, height);
      r.width == 1 || r.height == 1 || AspectKept(r, width, height)
  {
    if allocation.width > allocation.height {
      FitByHeightAspect(allocation, width, height);
    } else {
      FitByWidthAspect(allocation, width, height);
    }
  }

  /**
   * The decision of `_resize_preview(allocation, pixbuf)` given the cached
   * size: `None` when it returns early, otherwise the size it rescales to.
   */
  function RescaleTarget(allocation: Size, pixbuf: Option<Size>,
                         cachedWidth: Option<nat>, cachedHeight: Option<nat>): (r: Option<Size>)
    requires pixbuf.Some? ==> Positive(pixbuf.value)
    ensures pixbuf.None? ==> r.None?
    ensures (pixbuf.Some? && allocation.width >= pixbuf.value.width &&
             allocation.height >= pixbuf.value.height) ==> r.None?
    ensures r.Some? ==> r.value == PreviewSize(allocation, pixbuf.value.width, pixbuf.value.height)
    ensures r.Some? ==> cachedWidth != Some(r.value.width) || cachedHeight != Some(r.value.height)
    ensures (r.None? && pixbuf.Some? &&
             !(allocation.width >= pixbuf.value.width && allocation.height >= pixbuf.value.height)) ==>
              var s := PreviewSize(allocation, pixbuf.value.width, pixbuf.value.height);
              cachedWidth == Some(s.width) && cachedHeight == Some(s.height)
  {
    if pixbuf.None? then None
    else if allocation.width >= pixbuf.value.width && allocation.height >= pixbuf.value.height then None
    else
      var s := PreviewSize(allocation, pixbuf.value.width, pixbuf.value.height);
      if cachedWidth == Some(s.width) && cachedHeight == Some(s.height) then None
      else Some(s)
  }

  /** `is_larger_than_image`: a pixbuf is shown and the widget exceeds it both ways. */
  function IsLargerThanImage(allocation: Size, pixbuf: Option<Size>): bool {
    pixbuf.Some? && allocation.width > pixbuf.value.width && allocation.height > pixbuf.value.height
  }

  /** A widget larger than the image never triggers a rescale. */
  lemma LargerThanImageSkipsRescale(allocation: Size, pixbuf: Option<Size>,
                                    cachedWidth: Option<nat>, cachedHeight: Option<nat>)
    requires pixbuf.Some? ==> Positive(pixbuf.value)
    requires IsLargerThanImage(allocation, pixbuf)
    ensures RescaleTarget(allocation, pixbuf, cachedWidth, cachedHeight).None?
  {
  }

  /**
   * The cache does its job: once a rescale to `t` is recorded, the same
   * allocation and pixbuf do not rescale again.
   */
  lemma RescaleSettles(allocation: Size, pixbuf: Option<Size>,
                       cachedWidth: Option<nat>, cachedHeight: Option<nat>)
    requires pixbuf.Some? ==> Positive(pixbuf.value)
    requires RescaleTarget(allocation, pixbuf, cachedWidth, cachedHeight).Some?
    ensures var t := RescaleTarget(allocation, pixbuf, cachedWidth, cachedHeight).value;
      RescaleTarget(allocation, pixbuf, Some(t.width), Some(t.height)).None?
  {
  }

  /** A rescale always lands inside a non-empty widget. */
  lemma RescaleFitsAllocation(allocation: Size, pixbuf: Option<Size>,
                              cachedWidth: Option<nat>, cachedHeight: Option<nat>)
    requires pixbuf.Some? ==> Positive(pixbuf.value)
    requires Positive(allocation)
    requires RescaleTarget(allocation, pixbuf, cachedWidth, cachedHeight).Some?
    ensures var t := RescaleTarget(allocation, pixbuf, cachedWidth, cachedHeight).value;
      Positive(t) && t.width <= allocation.width && t.height <= allocation.height
  {
    PreviewSizeFitsAllocation(allocation, pixbuf.value.width, pixbuf.value.height);
  }
}
