/** The operations `transformImage` puts on the sharp pipeline, and what decides them. */
module TransformImage {
  import opened Text
  import opened Parameters
  import opened ParameterText
  import opened FocalPoint

  type Buffer = seq<int>

  datatype Fit = Entropy | Inside

  /** A sharp operation. DegenerateCrop stands for the focal crop with an infinite size or coordinate. */
  datatype Op =
    | Rotate
    | Flatten(background: string)
    | Jpeg(quality: Option<Number>) | Png | Webp(quality: Option<Number>) | Avif(quality: Option<Number>)
    | ResizeWithin(w: Option<Number>, h: Option<Number>, fit: Fit)
    | ResizeExactly(width: int, height: int)
    | Extract(region: Region)
    | DegenerateCrop(targetW: Number, targetH: Number, fpx: Number, fpy: Number)

  /** What sharp reports about an image; an unreported side is 0. */
  datatype Metadata = Metadata(width: nat, height: nat, format: string)

  /** The image library: reading metadata and rendering a pipeline may both fail. */
  datatype Sharp = Sharp(metadata: Buffer -> Option<Metadata>, render: (Buffer, seq<Op>) -> Option<Buffer>)

  /** sharp refuses a quality that is given but is not a whole number from 1 to 100. */
  predicate AcceptsQuality(quality: Option<Number>) {
    quality.None? ||
    (quality.value.Finite? && 1.0 <= quality.value.value <= 100.0
     && quality.value.value == quality.value.value.Floor as real)
  }

  /** The one operation `applyFormat` adds; none when sharp throws, since the caller only logs that. */
  function EncodeOps(metadata: Option<Metadata>, format: Option<string>, quality: Option<Number>): seq<Op> {
    if format == Some("jpg") || format == Some("jpeg") then (if AcceptsQuality(quality) then [Jpeg(quality)] else [])
    else if format == Some("png") then [Png]
    else if format == Some("webp") then (if AcceptsQuality(quality) then [Webp(quality)] else [])
    else if format == Some("avif") then (if AcceptsQuality(quality) then [Avif(quality)] else [])
    else if Truthy(quality) && metadata.Some? && AcceptsQuality(quality) then
      if metadata.value.format == "jpeg" then [Jpeg(quality)]
      else if metadata.value.format == "webp" then [Webp(quality)]
      else []
    else []
  }

  predicate UsesFocalPoint(p: ImageTransformParameters) {
    HasFocalPoint(p) && Truthy(p.width) && Truthy(p.height) && p.mode == Some(Mode.Crop)
  }

  /** The focal point in pixels of the original image. */
  function PixelPoint(metadata: Metadata, fpx: real, fpy: real): Point {
    Point(fpx * metadata.width as real, fpy * metadata.height as real)
  }

  function Size(metadata: Metadata): Dimensions {
    Dimensions(metadata.width as real, metadata.height as real)
  }

  /** Resizing to the intermediate size and extracting the region around the focal point. */
  function FocalOps(metadata: Metadata, w: Number, h: Number, fpx: Number, fpy: Number): seq<Op>
    requires metadata.width > 0 && metadata.height > 0
    requires w != Finite(0.0) && h != Finite(0.0)
  {
    if w.Finite? && h.Finite? && fpx.Finite? && fpy.Finite? then
      var crop := CropTo(Size(metadata), Dimensions(w.value, h.value), PixelPoint(metadata, fpx.value, fpy.value));
      [ResizeExactly(crop.width, crop.height), Extract(crop.region)]
    else [DegenerateCrop(w, h, fpx, fpy)]
  }

  function FitOf(mode: Option<Mode>): Fit {
    if mode == Some(Mode.Crop) then Entropy else Inside
  }

  /** The whole pipeline; None when reading the metadata for the focal crop fails. */
  function PipelineOps(metadata: Option<Metadata>, p: ImageTransformParameters): Option<seq<Op>> {
    var start := [Rotate] + (if HasBackground(p) then [Flatten(p.backgroundColor.value)] else [])
                 + EncodeOps(metadata, p.format, p.quality);
    if UsesFocalPoint(p) && metadata.None? then None
    else if UsesFocalPoint(p) && metadata.value.width > 0 && metadata.value.height > 0 then
      Some(start + FocalOps(metadata.value, p.width.value, p.height.value, p.fpx.value, p.fpy.value))
    else Some(start + [ResizeWithin(p.width, p.height, FitOf(p.mode))])
  }

  /** Encoding as the source does it: by format, else by re-reading the format of the image. */
  method ApplyFormat(ops: seq<Op>, metadata: Option<Metadata>, format: Option<string>, quality: Option<Number>,
                     detected: bool) returns (r: seq<Op>)
    requires detected ==> format == Some("jpeg") || format == Some("webp")
    ensures r == ops + EncodeOps(metadata, format, quality)
    decreases !detected
  {
    r := ops;
    if format == Some("jpg") || format == Some("jpeg") {
      if AcceptsQuality(quality) {
        r := r + [Jpeg(quality)];
      }
    } else if format == Some("png") {
      r := r + [Png];
    } else if format == Some("webp") {
      if AcceptsQuality(quality) {
        r := r + [Webp(quality)];
      }
    } else if format == Some("avif") {
      if AcceptsQuality(quality) {
        r := r + [Avif(quality)];
      }
    } else if Truthy(quality) && metadata.Some? {
      if metadata.value.format == "jpeg" || metadata.value.format == "webp" {
        r := ApplyFormat(ops, metadata, Some(metadata.value.format), quality, true);
      }
    }
  }

  method TransformOps(metadata: Option<Metadata>, p: ImageTransformParameters) returns (r: Option<seq<Op>>)
    ensures r == PipelineOps(metadata, p)
  {
    hide CropTo, EncodeOps, PixelPoint;
    var image := [Rotate];
    if HasBackground(p) {
      image := image + [Flatten(p.backgroundColor.value)];
    }
    image := ApplyFormat(image, metadata, p.format, p.quality, false);
    assert image == [Rotate] + (if HasBackground(p) then [Flatten(p.backgroundColor.value)] else [])
                    + EncodeOps(metadata, p.format, p.quality);
    if UsesFocalPoint(p) {
      if metadata.None? {
        return None;
      }
      if metadata.value.width > 0 && metadata.value.height > 0 {
        var w, h, fpx, fpy := p.width.value, p.height.value, p.fpx.value, p.fpy.value;
        if w.Finite? && h.Finite? && fpx.Finite? && fpy.Finite? {
          var crop := ResizeToFocalPoint(Size(metadata.value), Dimensions(w.value, h.value),
                                         PixelPoint(metadata.value, fpx.value, fpy.value));
          return Some(image + [ResizeExactly(crop.width, crop.height), Extract(crop.region)]);
        } else {
          return Some(image + [DegenerateCrop(w, h, fpx, fpy)]);
        }
      }
    }
    return Some(image + [ResizeWithin(p.width, p.height, FitOf(p.mode))]);
  }

  /** The transformed image, or None where `transformImage` or the final `toBuffer` fails. */
  function Transformed(sharp: Sharp, source: Buffer, p: ImageTransformParameters): Option<Buffer> {
    var ops := PipelineOps(sharp.metadata(source), p);
    if ops.None? then None else sharp.render(source, ops.value)
  }

  // ---------- what the pipeline does ----------

  /** The encoder for each format a request can name; the detected one where it names none but gives a quality. */
  lemma EncoderByFormat(metadata: Option<Metadata>, quality: Option<Number>)
    requires AcceptsQuality(quality)
    ensures EncodeOps(metadata, Some("jpg"), quality) == EncodeOps(metadata, Some("jpeg"), quality) == [Jpeg(quality)]
    ensures EncodeOps(metadata, Some("png"), quality) == [Png]
    ensures EncodeOps(metadata, Some("webp"), quality) == [Webp(quality)]
    ensures EncodeOps(metadata, Some("avif"), quality) == [Avif(quality)]
    ensures quality.Some? && metadata.Some? && metadata.value.format == "jpeg" ==>
              EncodeOps(metadata, None, quality) == [Jpeg(quality)]
    ensures quality.Some? && metadata.Some? && metadata.value.format == "webp" ==>
              EncodeOps(metadata, None, quality) == [Webp(quality)]
    ensures metadata.None? || metadata.value.format !in {"jpeg", "webp"} || quality.None? ==>
              EncodeOps(metadata, None, quality) == []
    ensures forall name | name in {"jpg", "jpeg", "png", "webp", "avif"} :: GetValidFormat(Some(name)) == Some(name)
  {
    assert |"jpg"| == 3 && |"jpeg"| == 4 && |"png"| == 3 && "jpg"[0] != "png"[0];
    assert |"webp"| == 4 && |"avif"| == 4 && "webp"[0] != "avif"[0] && "jpeg"[0] != "webp"[0] && "jpeg"[0] != "avif"[0];
  }

  /** A quality sharp refuses leaves the encoding alone; png takes none and is not affected. */
  lemma RefusedQuality(metadata: Option<Metadata>, format: Option<string>, quality: Option<Number>)
    requires !AcceptsQuality(quality)
    ensures EncodeOps(metadata, format, quality) == if format == Some("png") then [Png] else []
  {
    assert |"png"| == 3 && |"jpg"| == 3 && "jpg"[0] != "png"[0];
  }

  /** The pipeline: rotate, flatten over the background, encode, and last resize, or resize and extract. */
  lemma PipelineShape(metadata: Option<Metadata>, p: ImageTransformParameters)
    ensures PipelineOps(metadata, p) == None <==> UsesFocalPoint(p) && metadata == None
    ensures PipelineOps(metadata, p).Some? ==>
              var ops := PipelineOps(metadata, p).value;
              var background := if HasBackground(p) then [Flatten(p.backgroundColor.value)] else [];
              var encoding := EncodeOps(metadata, p.format, p.quality);
              var n := 1 + |background| + |encoding|;
              && |ops| > n && ops[0] == Rotate && ops[1..1 + |background|] == background
              && ops[1 + |background|..n] == encoding
              && (ops[n..] == [ResizeWithin(p.width, p.height, FitOf(p.mode))] <==>
                    !UsesFocalPoint(p) || metadata.value.width == 0 || metadata.value.height == 0)
  {
    hide EncodeOps, CropTo;
  }

  /** The size of an image that is made to fit a frame: cut to fill it exactly, or shrunk or enlarged to lie in it. */
  function FittedSize(fit: Fit, original: Dimensions, frame: Dimensions): Dimensions
    requires original.Positive() && frame.Positive()
  {
    match fit
    case Entropy => frame
    case Inside =>
      var widthScale, heightScale := frame.w / original.w, frame.h / original.h;
      var scale := if widthScale <= heightScale then widthScale else heightScale;
      Dimensions(original.w * scale, original.h * scale)
  }

  /** Cutting alone can change the aspect ratio, so an image with the original one has not been cut. */
  predicate SameAspect(a: Dimensions, b: Dimensions) {
    a.w * b.h == a.h * b.w
  }

  /** Filling a frame gives its size; lying in it keeps the aspect ratio, exceeds neither side and meets one. */
  lemma FittedSizes(original: Dimensions, frame: Dimensions)
    requires original.Positive() && frame.Positive()
    ensures FittedSize(Entropy, original, frame) == frame
    ensures var r := FittedSize(Inside, original, frame);
      && SameAspect(r, original) && r.w <= frame.w && r.h <= frame.h && (r.w == frame.w || r.h == frame.h)
  {
    var u, v := frame.w / original.w, frame.h / original.h;
    assert u * original.w == frame.w && v * original.h == frame.h;
    var scale := if u <= v then u else v;
    ScaledBelow(original.w, scale, u);
    ScaledBelow(original.h, scale, v);
    AspectOfScaled(original.w, original.h, scale);
  }

  lemma ScaledBelow(side: real, scale: real, limit: real)
    requires side > 0.0 && scale <= limit
    ensures side * scale <= side * limit
  {
    assert side * (limit - scale) >= 0.0;
  }

  lemma AspectOfScaled(w: real, h: real, scale: real)
    ensures (w * scale) * h == (h * scale) * w
  {
  }

  /**
   * A crop request with two sizes and no focal point gives an image of exactly that size; any other request that is
   * resized gives one that is not cut and exceeds neither side.
   */
  lemma ModeDecidesSize(metadata: Option<Metadata>, p: ImageTransformParameters, w: real, h: real, original: Dimensions)
    requires p.width == Some(Finite(w)) && p.height == Some(Finite(h)) && w > 0.0 && h > 0.0 && original.Positive()
    requires !HasFocalPoint(p)
    ensures PipelineOps(metadata, p).Some?
    ensures var ops := PipelineOps(metadata, p).value;
      && |ops| > 0 && ops[|ops| - 1].ResizeWithin?
      && var last := ops[|ops| - 1];
      && last.w == Some(Finite(w)) && last.h == Some(Finite(h))
      && var r := FittedSize(last.fit, original, Dimensions(w, h));
      if p.mode == Some(Mode.Crop) then r == Dimensions(w, h)
      else SameAspect(r, original) && r.w <= w && r.h <= h && (r.w == w || r.h == h)
  {
    hide EncodeOps;
    FittedSizes(original, Dimensions(w, h));
  }

  /** The last operation cuts by entropy exactly for a crop without a usable focal point. */
  lemma EntropyIff(metadata: Option<Metadata>, p: ImageTransformParameters)
    requires PipelineOps(metadata, p).Some?
    ensures var ops := PipelineOps(metadata, p).value;
      && |ops| > 0
      && (ops[|ops| - 1] == ResizeWithin(p.width, p.height, Entropy) <==>
            p.mode == Some(Mode.Crop) && !(UsesFocalPoint(p) && metadata.value.width > 0 && metadata.value.height > 0))
  {
    hide EncodeOps, CropTo;
  }

  /**
   * A request's focal crop: for coordinates in [0, 1] the operations frame the focal point exactly when the shifted
   * axis is the one with slack, or the other coordinate lies in the first target's worth of pixels.
   */
  lemma RequestedCropFramesIff(metadata: Metadata, w: int, h: int, fpx: real, fpy: real)
    requires metadata.width > 0 && metadata.height > 0 && w > 0 && h > 0
    requires 0.0 <= fpx <= 1.0 && 0.0 <= fpy <= 1.0
    ensures var m := Scaled(Size(metadata), Pixels(w, h));
      var point := PixelPoint(metadata, fpx, fpy);
      var crop := CropTo(Size(metadata), Pixels(w, h), point);
      && FocalOps(metadata, Finite(w as real), Finite(h as real), Finite(fpx), Finite(fpy))
           == [ResizeExactly(crop.width, crop.height), Extract(crop.region)]
      && m.factor > 0.0
      && (FocalPointInFrame(crop, Point(point.x / m.factor, point.y / m.factor)) <==>
            || ShiftsTheSlackAxis(m, w, h)
            || (m.height < m.width && point.y / m.factor <= h as real + 0.5)
            || (m.height >= m.width && point.x / m.factor <= w as real + 0.5))
  {
    hide CropTo, Scaled, FocalPointInFrame, ShiftsTheSlackAxis;
    FractionOf(metadata.width as real, fpx);
    FractionOf(metadata.height as real, fpy);
    FocalPointInFrameIff(Size(metadata), w, h, PixelPoint(metadata, fpx, fpy));
  }

  /** Focal coordinates count from the left and the top: the corners, and a point half across and half down. */
  lemma PixelPointSamples(metadata: Metadata)
    ensures var (width, height) := (metadata.width as real, metadata.height as real);
      && Size(metadata) == Dimensions(width, height)
      && PixelPoint(metadata, 0.0, 0.0) == Point(0.0, 0.0) && PixelPoint(metadata, 1.0, 1.0) == Point(width, height)
      && PixelPoint(metadata, 1.0, 0.0) == Point(width, 0.0) && PixelPoint(metadata, 0.0, 1.0) == Point(0.0, height)
      && PixelPoint(metadata, 0.5, 0.5) == Point(width / 2.0, height / 2.0)
  {
  }

  // ---------- what decides the image ----------

  /** Resizing to no size leaves the image alone, whatever the fit. */
  ghost predicate SizelessResizeIgnoresFit(sharp: Sharp) {
    forall b: Buffer, ops: seq<Op> ::
      sharp.render(b, ops + [ResizeWithin(None, None, Entropy)])
        == sharp.render(b, ops + [ResizeWithin(None, None, Inside)])
  }

  /** The last operation, but for the fit of a resize to no size. */
  function Canonical(op: Op): Op {
    if op == ResizeWithin(None, None, Inside) then ResizeWithin(None, None, Entropy) else op
  }

  predicate SameOps(a: seq<Op>, b: seq<Op>) {
    && |a| == |b| && |a| > 0
    && a[..|a| - 1] == b[..|b| - 1] && Canonical(a[|a| - 1]) == Canonical(b[|b| - 1])
  }

  /** Whatever the image, where the first record has a pipeline the second has the same. */
  ghost predicate Follows(p1: ImageTransformParameters, p2: ImageTransformParameters) {
    forall m: Option<Metadata> :: FollowsOn(m, p1, p2)
  }

  predicate FollowsOn(m: Option<Metadata>, p1: ImageTransformParameters, p2: ImageTransformParameters) {
    PipelineOps(m, p1).Some? ==>
      PipelineOps(m, p2).Some? && SameOps(PipelineOps(m, p1).value, PipelineOps(m, p2).value)
  }

  lemma SameOpsSameImage(sharp: Sharp, b: Buffer, x: seq<Op>, y: seq<Op>)
    requires SizelessResizeIgnoresFit(sharp) && SameOps(x, y)
    ensures sharp.render(b, x) == sharp.render(b, y)
  {
    var front := x[..|x| - 1];
    assert x == front + [x[|x| - 1]] && y == front + [y[|y| - 1]];
    assert sharp.render(b, front + [ResizeWithin(None, None, Entropy)])
        == sharp.render(b, front + [ResizeWithin(None, None, Inside)]);
  }

  /** An image library that makes something of one pipeline only. */
  function OnlyMakes(m: Option<Metadata>, ops: seq<Op>): Sharp {
    Sharp(_ => m, (b: Buffer, x: seq<Op>) => if SameOps(x, ops) then Some([1]) else None)
  }

  lemma OnlyMakesIgnoresFit(m: Option<Metadata>, ops: seq<Op>)
    ensures SizelessResizeIgnoresFit(OnlyMakes(m, ops))
  {
    var sharp := OnlyMakes(m, ops);
    forall b: Buffer, x: seq<Op>
      ensures sharp.render(b, x + [ResizeWithin(None, None, Entropy)])
           == sharp.render(b, x + [ResizeWithin(None, None, Inside)])
    {
      var e, i := x + [ResizeWithin(None, None, Entropy)], x + [ResizeWithin(None, None, Inside)];
      assert e[..|e| - 1] == x == i[..|i| - 1];
    }
  }

  /** Whatever the library makes of the first record, it makes of the second. */
  ghost predicate ImagesFollow(p1: ImageTransformParameters, p2: ImageTransformParameters) {
    forall sharp: Sharp, source: Buffer | SizelessResizeIgnoresFit(sharp) && Transformed(sharp, source, p1).Some? ::
      Transformed(sharp, source, p2) == Transformed(sharp, source, p1)
  }

  lemma FollowingImage(sharp: Sharp, source: Buffer, p1: ImageTransformParameters, p2: ImageTransformParameters)
    requires Follows(p1, p2) && SizelessResizeIgnoresFit(sharp)
    requires Transformed(sharp, source, p1).Some?
    ensures Transformed(sharp, source, p2) == Transformed(sharp, source, p1)
  {
    hide PipelineOps, SameOps, SizelessResizeIgnoresFit;
    var m := sharp.metadata(source);
    assert FollowsOn(m, p1, p2);
    SameOpsSameImage(sharp, source, PipelineOps(m, p1).value, PipelineOps(m, p2).value);
  }

  /** A library that tells the two records apart on every source, where the pipelines differ. */
  lemma TellingLibrary(m: Option<Metadata>, source: Buffer, p1: ImageTransformParameters, p2: ImageTransformParameters)
    returns (sharp: Sharp)
    requires !FollowsOn(m, p1, p2)
    ensures SizelessResizeIgnoresFit(sharp)
    ensures Transformed(sharp, source, p1) == Some([1])
    ensures Transformed(sharp, source, p2) != Some([1])
  {
    hide PipelineOps;
    var ops := PipelineOps(m, p1).value;
    PipelineIsNotEmpty(m, p1);
    sharp := OnlyMakes(m, ops);
    OnlyMakesIgnoresFit(m, ops);
    hide SizelessResizeIgnoresFit;
  }

  lemma PipelineIsNotEmpty(m: Option<Metadata>, p: ImageTransformParameters)
    ensures PipelineOps(m, p).Some? ==> |PipelineOps(m, p).value| > 0
  {
    hide EncodeOps, CropTo;
  }

  /** The pipelines decide: one record's images follow another's for every library exactly when its pipelines do. */
  lemma ImagesFollowIff(p1: ImageTransformParameters, p2: ImageTransformParameters)
    ensures ImagesFollow(p1, p2) <==> Follows(p1, p2)
  {
    hide PipelineOps, SameOps, SizelessResizeIgnoresFit, Transformed;
    if Follows(p1, p2) {
      hide Follows;
      forall sharp: Sharp, source: Buffer | SizelessResizeIgnoresFit(sharp) && Transformed(sharp, source, p1).Some?
        ensures Transformed(sharp, source, p2) == Transformed(sharp, source, p1)
      {
        FollowingImage(sharp, source, p1, p2);
      }
    } else {
      var m :| !FollowsOn(m, p1, p2);
      var sharp := TellingLibrary(m, [0], p1, p2);
    }
  }

  // ---------- the parameter text determines the image ----------

  predicate ApartOn(settings: Settings, a: Option<Number>, b: Option<Number>) {
    Truthy(a) && Truthy(b) && settings.show(a.value) == settings.show(b.value) ==> a == b
  }

  /** Of the numbers the two records hold, different ones are printed differently (ECMA-262, Number::toString). */
  predicate NumbersApart(settings: Settings, p1: ImageTransformParameters, p2: ImageTransformParameters) {
    && ApartOn(settings, p1.width, p2.width) && ApartOn(settings, p1.height, p2.height)
    && ApartOn(settings, p1.fpx, p2.fpx) && ApartOn(settings, p1.fpy, p2.fpy)
    && ApartOn(settings, p1.quality, p2.quality)
  }

  lemma UnknownFormatEncodesAsNone(metadata: Option<Metadata>, format: Option<string>, quality: Option<Number>)
    ensures EncodeOps(metadata, GetValidFormat(format), quality) == EncodeOps(metadata, format, quality)
  {
  }

  /** A format whose encoder is given the quality. */
  predicate IsLossy(format: Option<string>) {
    GetValidFormat(format).Some? && format != Some("png")
  }

  /** What the text leaves out of two records, compared: falsy sides, the fit of an unsized resize, a falsy quality. */
  predicate SameUnprinted(p1: ImageTransformParameters, p2: ImageTransformParameters) {
    && p1.width == p2.width && p1.height == p2.height
    && (FitOf(p1.mode) == FitOf(p2.mode) || (p1.width.None? && p1.height.None?))
    && (IsLossy(p1.format) && !Truthy(p1.quality) ==> (p1.quality.None? <==> p2.quality.None?))
  }

  /** Two records agree on everything the text is made of. */
  predicate SamePrinted(p1: ImageTransformParameters, p2: ImageTransformParameters) {
    && HasDimensions(p1) == HasDimensions(p2) && (HasDimensions(p1) ==> p1.mode == p2.mode)
    && (Truthy(p1.width) || Truthy(p2.width) ==> p1.width == p2.width)
    && (Truthy(p1.height) || Truthy(p2.height) ==> p1.height == p2.height)
    && HasFocalPoint(p1) == HasFocalPoint(p2)
    && (HasFocalPoint(p1) ==> p1.fpx == p2.fpx && p1.fpy == p2.fpy)
    && GetValidFormat(p1.format) == GetValidFormat(p2.format)
    && Truthy(p1.quality) == Truthy(p2.quality) && (Truthy(p1.quality) ==> p1.quality == p2.quality)
    && p1.backgroundColor == p2.backgroundColor
  }

  lemma SameColor(c1: Option<string>, c2: Option<string>)
    requires c1.Some? ==> IsBackgroundColor(c1.value)
    requires c2.Some? ==> IsBackgroundColor(c2.value)
    requires c1.Some? <==> c2.Some?
    requires c1.Some? ==> DropHash(c1.value) == DropHash(c2.value)
    ensures c1 == c2
  {
    if c1.Some? {
      DropHashOfColor(c1.value);
      DropHashOfColor(c2.value);
      assert c1.value == ['#'] + c1.value[1..] && c2.value == ['#'] + c2.value[1..];
    }
  }

  lemma ModeTextsDiffer()
    ensures forall a, b: Option<Mode> :: ModeText(a) == ModeText(b) ==> a == b
  {
    assert |"crop"| == 4 && |"resize"| == 6 && |"undefined"| == 9;
  }

  lemma SameFieldsSamePrinted(settings: Settings, p1: ImageTransformParameters, p2: ImageTransformParameters)
    requires Legible(p1) && Legible(p2)
    requires ShowsNumbers(settings, p1) && ShowsNumbers(settings, p2) && NumbersApart(settings, p1, p2)
    requires FieldsOf(settings, p1) == FieldsOf(settings, p2)
    ensures SamePrinted(p1, p2)
  {
    hide DropHash, PrintsPreset;
    SameColor(p1.backgroundColor, p2.backgroundColor);
    ModeTextsDiffer();
  }

  /** Records that agree on what the text is made of print the same after the dimensions or the preset's name. */
  lemma SamePrintedSameRest(settings: Settings, p1: ImageTransformParameters, p2: ImageTransformParameters)
    requires SamePrinted(p1, p2)
    ensures AfterHead(settings, p1) == AfterHead(settings, p2)
  {
    hide DropHash;
  }

  /**
   * Records with the same text agree on everything the text is made of, unless they print the names of two different
   * presets; then they never do.
   */
  lemma SameTextSamePrintedIff(settings: Settings, p1: ImageTransformParameters, p2: ImageTransformParameters)
    requires Legible(p1) && Legible(p2)
    requires ShowsNumbers(settings, p1) && ShowsNumbers(settings, p2) && NumbersApart(settings, p1, p2)
    requires ParamString(settings, p1) == ParamString(settings, p2)
    ensures PrintsPreset(settings, p1) <==> PrintsPreset(settings, p2)
    ensures SamePrinted(p1, p2) <==> SamePrintedPreset(settings, p1, p2)
  {
    hide ReadText, ParamString, FieldsOf, SamePrinted, ShowsNumbers, NumbersApart, Legible, AfterHead, FindPreset;
    PresetPrefixIff(settings, p1);
    PresetPrefixIff(settings, p2);
    if SamePrintedPreset(settings, p1, p2) {
      TextReadsBack(settings, p1);
      TextReadsBack(settings, p2);
      SameFieldsSamePrinted(settings, p1, p2);
    } else {
      HeadAndRest(settings, p1);
      HeadAndRest(settings, p2);
      if SamePrinted(p1, p2) {
        SamePrintedSameRest(settings, p1, p2);
        SameFront(PRESET_PREFIX, p1.preset.value, p2.preset.value, AfterHead(settings, p1));
      }
    }
  }

  lemma SameFront(prefix: string, a: string, b: string, rest: string)
    ensures prefix + a + rest == prefix + b + rest ==> a == b
  {
    if prefix + a + rest == prefix + b + rest {
      var x := prefix + a + rest;
      assert |a| == |b|;
      assert a == x[|prefix|..|prefix| + |a|] && b == (prefix + b + rest)[|prefix|..|prefix| + |b|];
    }
  }

  lemma SameEncoding(m: Option<Metadata>, p1: ImageTransformParameters, p2: ImageTransformParameters)
    requires SamePrinted(p1, p2) && SameUnprinted(p1, p2)
    ensures EncodeOps(m, p1.format, p1.quality) == EncodeOps(m, p2.format, p2.quality)
  {
    UnknownFormatEncodesAsNone(m, p1.format, p1.quality);
    UnknownFormatEncodesAsNone(m, p2.format, p2.quality);
  }

  function StartOps(m: Option<Metadata>, p: ImageTransformParameters): seq<Op> {
    [Rotate] + (if HasBackground(p) then [Flatten(p.backgroundColor.value)] else []) + EncodeOps(m, p.format, p.quality)
  }

  lemma AgreeingRecordsFollow(m: Option<Metadata>, p1: ImageTransformParameters, p2: ImageTransformParameters)
    requires SamePrinted(p1, p2) && SameUnprinted(p1, p2)
    ensures FollowsOn(m, p1, p2)
  {
    SameEncoding(m, p1, p2);
    hide EncodeOps, GetValidFormat, CropTo, FocalOps;
    assert StartOps(m, p1) == StartOps(m, p2);
    if UsesFocalPoint(p1) {
      assert PipelineOps(m, p1) == PipelineOps(m, p2);
      PipelineIsNotEmpty(m, p1);
    } else {
      SameStart(StartOps(m, p1), ResizeWithin(p1.width, p1.height, FitOf(p1.mode)),
                ResizeWithin(p2.width, p2.height, FitOf(p2.mode)));
    }
  }

  lemma SameStart(start: seq<Op>, a: Op, b: Op)
    ensures SameOps(start + [a], start + [b]) <==> Canonical(a) == Canonical(b)
  {
    var x, y := start + [a], start + [b];
    assert x[..|x| - 1] == start == y[..|y| - 1];
  }

  /** An image that reports no size is resized as the parameters say, whatever the focal point. */
  const SIZELESS := Metadata(0, 0, "")

  lemma SizelessPipeline(p: ImageTransformParameters)
    ensures PipelineOps(Some(SIZELESS), p)
         == Some(StartOps(Some(SIZELESS), p) + [ResizeWithin(p.width, p.height, FitOf(p.mode))])
  {
    hide EncodeOps, FocalOps;
  }

  lemma StartLength(m: Option<Metadata>, p1: ImageTransformParameters, p2: ImageTransformParameters)
    requires SamePrinted(p1, p2)
    requires |StartOps(m, p1)| == |StartOps(m, p2)|
    ensures IsLossy(p1.format) && !Truthy(p1.quality) ==> (p1.quality.None? <==> p2.quality.None?)
  {
    UnknownFormatEncodesAsNone(m, p1.format, p1.quality);
    UnknownFormatEncodesAsNone(m, p2.format, p2.quality);
  }

  lemma FollowingRecordsAgree(p1: ImageTransformParameters, p2: ImageTransformParameters)
    requires SamePrinted(p1, p2) && FollowsOn(Some(SIZELESS), p1, p2)
    ensures SameUnprinted(p1, p2)
  {
    hide StartOps, SamePrinted, IsLossy, PipelineOps;
    SizelessPipeline(p1);
    SizelessPipeline(p2);
    StartLength(Some(SIZELESS), p1, p2);
  }

  /**
   * The text that is hashed determines the image, for every library and source, exactly when what it leaves out of the
   * two records agrees. (They are not to print the names of two different presets.)
   */
  lemma ParamStringDeterminesImageIff(settings: Settings, p1: ImageTransformParameters, p2: ImageTransformParameters)
    requires Legible(p1) && Legible(p2)
    requires ShowsNumbers(settings, p1) && ShowsNumbers(settings, p2) && NumbersApart(settings, p1, p2)
    requires ParamString(settings, p1) == ParamString(settings, p2) && SamePrintedPreset(settings, p1, p2)
    ensures SameUnprinted(p1, p2) <==> Follows(p1, p2)
    ensures SameUnprinted(p1, p2) <==> ImagesFollow(p1, p2)
  {
    hide Legible, ShowsNumbers, NumbersApart, ParamString, SamePrinted, SameUnprinted, FollowsOn, ImagesFollow,
         SamePrintedPreset;
    SameTextSamePrintedIff(settings, p1, p2);
    ImagesFollowIff(p1, p2);
    if SameUnprinted(p1, p2) {
      forall m: Option<Metadata>
        ensures FollowsOn(m, p1, p2)
      {
        AgreeingRecordsFollow(m, p1, p2);
      }
    }
    if Follows(p1, p2) {
      assert FollowsOn(Some(SIZELESS), p1, p2);
      FollowingRecordsAgree(p1, p2);
    }
  }

  /** Tidy records leave nothing out that matters. */
  lemma TidyRecordsAgree(settings: Settings, p1: ImageTransformParameters, p2: ImageTransformParameters)
    requires Tidy(settings, p1) && Tidy(settings, p2)
    requires ShowsNumbers(settings, p1) && ShowsNumbers(settings, p2) && NumbersApart(settings, p1, p2)
    requires ParamString(settings, p1) == ParamString(settings, p2)
    ensures Legible(p1) && Legible(p2) && SamePrintedPreset(settings, p1, p2) && SameUnprinted(p1, p2)
  {
    hide ParamString;
    SameTextSamePrintedIff(settings, p1, p2);
  }

  lemma PresetIsNotConsulted(sharp: Sharp, source: Buffer, p: ImageTransformParameters, preset: Option<string>)
    ensures Transformed(sharp, source, p.(preset := preset)) == Transformed(sharp, source, p)
  {
    hide CropTo, EncodeOps;
  }
}
