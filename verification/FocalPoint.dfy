/** Cropping around a focal point: exact rational arithmetic, with `Math.round` as floor of x + 1/2. */
module FocalPoint {

  datatype Dimensions = Dimensions(w: real, h: real) {
    /** Division by either side is meaningful. */
    predicate NonZero() {
      w != 0.0 && h != 0.0
    }

    predicate Positive() {
      w > 0.0 && h > 0.0
    }
  }

  datatype Point = Point(x: real, y: real)
  datatype Region = Region(left: real, top: real, width: real, height: real)
  datatype Intermediate = Intermediate(width: int, height: int, factor: real)
  datatype Crop = Crop(width: int, height: int, region: Region)

  function Round(x: real): int {
    (x + 0.5).Floor
  }

  function Clamp(min: real, max: real, input: real): real {
    var low := if min >= input then min else input;
    if low <= max then low else max
  }

  /** The smaller of the two ratios of original to target. */
  function ScaleFactor(original: Dimensions, target: Dimensions): real
    requires target.NonZero()
  {
    var hRatio, wRatio := original.h / target.h, original.w / target.w;
    if hRatio < wRatio then hRatio else wRatio
  }

  /** The original divided by the scale factor, both sides rounded. */
  function Scaled(original: Dimensions, target: Dimensions): Intermediate
    requires original.NonZero() && target.NonZero()
  {
    var factor := ScaleFactor(original, target);
    RatioNonZero(original.h, target.h);
    RatioNonZero(original.w, target.w);
    Intermediate(Round(original.w / factor), Round(original.h / factor), factor)
  }

  lemma RatioNonZero(a: real, b: real)
    requires a != 0.0 && b != 0.0
    ensures a / b != 0.0
    ensures a / (a / b) == b
  {
    var q := a / b;
    assert q * b == a;
    assert (a / q) * q == a;
    assert (a / q - b) * q == 0.0;
  }

  method GetIntermediateDimensions(original: Dimensions, target: Dimensions) returns (r: Intermediate)
    requires original.NonZero() && target.NonZero()
    ensures r == Scaled(original, target)
  {
    var hRatio := original.h / target.h;
    var wRatio := original.w / target.w;
    RatioNonZero(original.h, target.h);
    RatioNonZero(original.w, target.w);
    var factor: real, width: int, height: int;
    if hRatio < wRatio {
      factor := hRatio;
      height := Round(target.h);
      width := Round(original.w / factor);
    } else {
      factor := wRatio;
      width := Round(target.w);
      height := Round(original.h / factor);
    }
    return Intermediate(width, height, factor);
  }

  /** The offset of a window of length `target` in an image of length `size`, centred on `centre` as nearly as fits. */
  function Offset(size: real, target: real, centre: real): real {
    Clamp(0.0, size - target, Round(centre - target / 2.0) as real)
  }

  /** The axis that is shifted is the longer one of the intermediate image; the other offset stays 0. */
  function ExtractionRegion(intermediate: Intermediate, focalPoint: Point, target: Dimensions): Region
    requires intermediate.factor != 0.0
  {
    var w, h := intermediate.width as real, intermediate.height as real;
    var horizontal := intermediate.height < intermediate.width;
    Region(
      if horizontal then Offset(w, target.w, focalPoint.x / intermediate.factor) else 0.0,
      if horizontal then 0.0 else Offset(h, target.h, focalPoint.y / intermediate.factor),
      target.w, target.h)
  }

  method GetExtractionRegion(factor: real, focalPoint: Point, target: Dimensions, width: int, height: int)
    returns (region: Region)
    requires factor != 0.0
    ensures region == ExtractionRegion(Intermediate(width, height, factor), focalPoint, target)
  {
    var newXCenter := focalPoint.x / factor;
    var newYCenter := focalPoint.y / factor;
    region := Region(0.0, 0.0, target.w, target.h);
    if height < width {
      region := region.(left := Clamp(0.0, width as real - target.w, Round(newXCenter - target.w / 2.0) as real));
    } else {
      region := region.(top := Clamp(0.0, height as real - target.h, Round(newYCenter - target.h / 2.0) as real));
    }
  }

  function CropTo(original: Dimensions, target: Dimensions, focalPoint: Point): Crop
    requires original.NonZero() && target.NonZero()
  {
    var intermediate := Scaled(original, target);
    RatioNonZero(original.h, target.h);
    RatioNonZero(original.w, target.w);
    Crop(intermediate.width, intermediate.height, ExtractionRegion(intermediate, focalPoint, target))
  }

  method ResizeToFocalPoint(original: Dimensions, target: Dimensions, focalPoint: Point) returns (crop: Crop)
    requires original.NonZero() && target.NonZero()
    ensures crop == CropTo(original, target, focalPoint)
  {
    RatioNonZero(original.h, target.h);
    RatioNonZero(original.w, target.w);
    var intermediate := GetIntermediateDimensions(original, target);
    var region := GetExtractionRegion(intermediate.factor, focalPoint, target,
                                      intermediate.width, intermediate.height);
    crop := Crop(intermediate.width, intermediate.height, region);
  }

  // ---------- what the crop guarantees, for positive whole-number targets ----------

  /** A positive target in whole pixels. */
  function Pixels(w: int, h: int): Dimensions {
    Dimensions(w as real, h as real)
  }

  lemma RoundNearest(x: real)
    ensures x - 0.5 < Round(x) as real <= x + 0.5
  {
  }

  /** Rounding a real that is at least a whole number keeps it at least that number. */
  lemma RoundAbove(x: real, n: int)
    requires x >= n as real
    ensures Round(x) >= n
  {
  }

  lemma QuotientAbove(a: real, t: real, f: real)
    requires t > 0.0 && f > 0.0 && a / t >= f
    ensures a / f >= t
  {
    var q := a / t;
    assert q * t == a;
    assert q * t >= f * t;
    var r := a / f;
    assert r * f == a;
    assert (r - t) * f >= 0.0;
  }

  /** The intermediate image covers the target, meets it on one axis, and keeps the aspect ratio to half a pixel. */
  lemma MinimalCover(original: Dimensions, tw: int, th: int)
    requires original.Positive() && tw > 0 && th > 0
    ensures var m := Scaled(original, Pixels(tw, th));
      && m.factor > 0.0
      && m.width >= tw && m.height >= th
      && (m.width == tw || m.height == th)
      && m.width as real - 0.5 <= original.w / m.factor < m.width as real + 0.5
      && m.height as real - 0.5 <= original.h / m.factor < m.height as real + 0.5
      && original.w / m.factor >= tw as real && original.h / m.factor >= th as real
      && (original.w / m.factor == tw as real || original.h / m.factor == th as real)
  {
    var target := Pixels(tw, th);
    RatioNonZero(original.h, target.h);
    RatioNonZero(original.w, target.w);
    var m := Scaled(original, target);
    PositiveRatio(original.h, target.h);
    PositiveRatio(original.w, target.w);
    QuotientAbove(original.w, target.w, m.factor);
    QuotientAbove(original.h, target.h, m.factor);
    RoundAbove(original.w / m.factor, tw);
    RoundAbove(original.h / m.factor, th);
    assert Round(tw as real) == tw && Round(th as real) == th;
  }

  lemma PositiveRatio(a: real, b: real)
    requires a > 0.0 && b > 0.0
    ensures a / b > 0.0
  {
    assert (a / b) * b == a;
  }

  /** The extracted region has exactly the target size and lies in the intermediate image, whatever the focal point. */
  lemma RegionInside(original: Dimensions, tw: int, th: int, focalPoint: Point)
    requires original.Positive() && tw > 0 && th > 0
    ensures var crop := CropTo(original, Pixels(tw, th), focalPoint);
      && crop.region.width == tw as real && crop.region.height == th as real
      && 0.0 <= crop.region.left && crop.region.left + tw as real <= crop.width as real
      && 0.0 <= crop.region.top && crop.region.top + th as real <= crop.height as real
  {
    MinimalCover(original, tw, th);
  }

  function Distance(a: real, b: real): (d: real)
    ensures d >= 0.0
  {
    if a <= b then b - a else a - b
  }

  lemma ClampedRoundIsNearest(room: int, x: real, other: int)
    requires 0 <= other <= room
    ensures var o := Clamp(0.0, room as real, Round(x) as real);
      && o == o.Floor as real && 0 <= o.Floor <= room
      && Distance(o, x) <= Distance(other as real, x)
  {
    RoundNearest(x);
    var r := Round(x);
    if r < 0 {
      assert r as real <= -1.0;
    } else if r > room {
      assert r as real >= room as real + 1.0;
    } else if other < r {
      assert other as real <= r as real - 1.0;
    } else if other > r {
      assert other as real >= r as real + 1.0;
    }
  }

  /** No whole-number offset that fits brings the window's centre nearer to the wanted centre. */
  lemma OffsetIsOptimal(size: int, target: int, centre: real, other: int)
    requires 0 < target <= size
    requires 0 <= other <= size - target
    ensures var o := Offset(size as real, target as real, centre);
      && o == o.Floor as real && 0 <= o.Floor <= size - target
      && Distance(o + target as real / 2.0, centre) <= Distance(other as real + target as real / 2.0, centre)
  {
    var half := target as real / 2.0;
    ClampedRoundIsNearest(size - target, centre - half, other);
    assert (size - target) as real == size as real - target as real;
  }

  /** Hence on the shifted axis the crop is as close to the focal point as any crop of that size can be. */
  lemma CropIsOptimal(original: Dimensions, tw: int, th: int, focalPoint: Point, other: int)
    requires original.Positive() && tw > 0 && th > 0
    ensures var m := Scaled(original, Pixels(tw, th));
      var crop := CropTo(original, Pixels(tw, th), focalPoint);
      && m.factor > 0.0
      && (m.height < m.width && 0 <= other <= m.width - tw ==>
            Distance(crop.region.left + tw as real / 2.0, focalPoint.x / m.factor)
              <= Distance(other as real + tw as real / 2.0, focalPoint.x / m.factor))
      && (m.height >= m.width && 0 <= other <= m.height - th ==>
            Distance(crop.region.top + th as real / 2.0, focalPoint.y / m.factor)
              <= Distance(other as real + th as real / 2.0, focalPoint.y / m.factor))
  {
    MinimalCover(original, tw, th);
    var m := Scaled(original, Pixels(tw, th));
    if m.height < m.width && 0 <= other <= m.width - tw {
      OffsetIsOptimal(m.width, tw, focalPoint.x / m.factor, other);
    }
    if m.height >= m.width && 0 <= other <= m.height - th {
      OffsetIsOptimal(m.height, th, focalPoint.y / m.factor, other);
    }
  }

  /** `c` lies in the window [o, o + length], to within half a pixel. */
  predicate InFrame(o: real, length: real, c: real) {
    o - 0.5 <= c <= o + length + 0.5
  }

  predicate FocalPointInFrame(crop: Crop, centre: Point) {
    && InFrame(crop.region.left, crop.region.width, centre.x)
    && InFrame(crop.region.top, crop.region.height, centre.y)
  }

  /** Only the axis that is not shifted can lose the focal point; it has no slack when it already fits the target. */
  predicate ShiftsTheSlackAxis(m: Intermediate, tw: int, th: int) {
    if m.height < m.width then m.height == th else m.width == tw
  }

  lemma QuotientBetween(x: real, side: real, factor: real)
    requires factor > 0.0 && 0.0 <= x <= side
    ensures 0.0 <= x / factor <= side / factor
  {
    var p, q := x / factor, side / factor;
    assert p * factor == x && q * factor == side;
    assert p * factor >= 0.0 && (q - p) * factor >= 0.0;
  }

  /** Normalized coordinates denote a point of the image. */
  lemma FractionOf(side: real, fp: real)
    requires side > 0.0 && 0.0 <= fp <= 1.0
    ensures 0.0 <= fp * side <= side
  {
    assert fp * side >= 0.0 && (1.0 - fp) * side >= 0.0;
  }

  lemma OffsetFrames(size: int, target: int, exact: real, centre: real)
    requires 0 < target <= size
    requires size as real - 0.5 <= exact < size as real + 0.5
    requires 0.0 <= centre <= exact
    ensures InFrame(Offset(size as real, target as real, centre), target as real, centre)
  {
    RoundNearest(centre - target as real / 2.0);
  }

  /**
   * For a focal point in the original image, the scaled focal point stays in frame exactly when the axis that is
   * shifted is the one with slack, or its coordinate on the other axis falls in the first target's worth of pixels.
   */
  lemma FocalPointInFrameIff(original: Dimensions, tw: int, th: int, focalPoint: Point)
    requires original.Positive() && tw > 0 && th > 0
    requires 0.0 <= focalPoint.x <= original.w && 0.0 <= focalPoint.y <= original.h
    ensures var m := Scaled(original, Pixels(tw, th));
      var crop := CropTo(original, Pixels(tw, th), focalPoint);
      && m.factor > 0.0
      && (FocalPointInFrame(crop, Point(focalPoint.x / m.factor, focalPoint.y / m.factor)) <==>
            || ShiftsTheSlackAxis(m, tw, th)
            || (m.height < m.width && focalPoint.y / m.factor <= th as real + 0.5)
            || (m.height >= m.width && focalPoint.x / m.factor <= tw as real + 0.5))
  {
    MinimalCover(original, tw, th);
    var m := Scaled(original, Pixels(tw, th));
    QuotientBetween(focalPoint.x, original.w, m.factor);
    QuotientBetween(focalPoint.y, original.h, m.factor);
    FrameIff(m, tw, th, original.w / m.factor, original.h / m.factor, focalPoint,
             focalPoint.x / m.factor, focalPoint.y / m.factor);
  }

  lemma FrameIff(m: Intermediate, tw: int, th: int, exactW: real, exactH: real, focalPoint: Point, x: real, y: real)
    requires m.factor != 0.0 && x == focalPoint.x / m.factor && y == focalPoint.y / m.factor
    requires 0 < tw <= m.width && 0 < th <= m.height
    requires m.width as real - 0.5 <= exactW < m.width as real + 0.5
    requires m.height as real - 0.5 <= exactH < m.height as real + 0.5
    requires 0.0 <= x <= exactW && 0.0 <= y <= exactH
    ensures var region := ExtractionRegion(m, focalPoint, Pixels(tw, th));
      (InFrame(region.left, region.width, x) && InFrame(region.top, region.height, y)) <==>
        || ShiftsTheSlackAxis(m, tw, th)
        || (m.height < m.width && y <= th as real + 0.5)
        || (m.height >= m.width && x <= tw as real + 0.5)
  {
    if m.height < m.width {
      OffsetFrames(m.width, tw, exactW, x);
    } else {
      OffsetFrames(m.height, th, exactH, y);
    }
  }

  /** With a square target the shifted axis is the one with slack, so the focal point is always in frame. */
  lemma SquareTargetsKeepFocalPoint(original: Dimensions, side: int, focalPoint: Point)
    requires original.Positive() && side > 0
    requires 0.0 <= focalPoint.x <= original.w && 0.0 <= focalPoint.y <= original.h
    ensures var m := Scaled(original, Pixels(side, side));
      && ShiftsTheSlackAxis(m, side, side)
      && m.factor > 0.0
      && FocalPointInFrame(CropTo(original, Pixels(side, side), focalPoint),
                           Point(focalPoint.x / m.factor, focalPoint.y / m.factor))
  {
    MinimalCover(original, side, side);
    FocalPointInFrameIff(original, side, side, focalPoint);
  }

  /**
   * The axis is chosen by orientation, not by slack: cropping 1000x900 to 900x300 shifts horizontally, where
   * there is no room, so a focal point at the bottom is cut off, although the region at the bottom would hold it.
   */
  lemma OrientationCanLoseFocalPoint()
    ensures var m := Scaled(Dimensions(1000.0, 900.0), Pixels(900, 300));
      var crop := CropTo(Dimensions(1000.0, 900.0), Pixels(900, 300), Point(500.0, 900.0));
      && m.width == 900 && m.height == 810
      && !ShiftsTheSlackAxis(m, 900, 300)
      && crop.region.top == 0.0
      && m.factor > 0.0
      && !FocalPointInFrame(crop, Point(500.0 / m.factor, 900.0 / m.factor))
      && (var bottom := crop.(region := Region(0.0, 510.0, 900.0, 300.0));
          && 510 + 300 == m.height
          && FocalPointInFrame(bottom, Point(500.0 / m.factor, 900.0 / m.factor)))
  {
    var m := Scaled(Dimensions(1000.0, 900.0), Pixels(900, 300));
    assert m.factor == 1000.0 / 900.0;
    assert 900.0 / m.factor == 810.0;
    assert 1000.0 / m.factor == 900.0;
  }
}
