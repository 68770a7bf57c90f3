/** Query parameters of an image request: normalization, strategies, presets, and the text the cache key hashes. */
module Parameters {
  import opened Text

  // ---------- JavaScript numbers ----------

  /** A number value; +0 and -0 are one value here, since both are falsy and neither is ever printed. */
  datatype Number = NaN | Infinite(negative: bool) | Finite(value: real)

  predicate Truthy(n: Option<Number>) {
    n.Some? && n.value != NaN && n.value != Finite(0.0)
  }

  function MathRound(n: Number): Number {
    if n.Finite? then Finite((n.value + 0.5).Floor as real) else n
  }

  predicate AtMost(a: Number, b: Number)
    requires a != NaN && b != NaN
  {
    a == Infinite(true) || b == Infinite(false) || (a.Finite? && b.Finite? && a.value <= b.value)
  }

  function MathMin(a: Number, b: Number): Number {
    if a == NaN || b == NaN then NaN else if AtMost(a, b) then a else b
  }

  function MathMax(a: Number, b: Number): Number {
    if a == NaN || b == NaN then NaN else if AtMost(a, b) then b else a
  }

  /** `n || undefined` */
  function OrUndefined(n: Number): (r: Option<Number>)
    ensures r.Some? ==> Truthy(r)
  {
    if Truthy(Some(n)) then Some(n) else None
  }

  // ---------- parameters ----------

  datatype Mode = Crop | Resize

  datatype Preset = Preset(name: string, width: Number, height: Number, mode: Mode)

  datatype Query = Query(w: Option<string>, h: Option<string>, q: Option<string>, mode: Option<string>,
                         fpx: Option<string>, fpy: Option<string>, format: Option<string>,
                         preset: Option<string>, bg: Option<string>, cache: Option<string>)

  /** A request: its path, percent-decoded (None where decoding fails), and its query. */
  datatype Request = Request(decodedPath: Option<string>, query: Query)

  datatype ImageTransformParameters = ImageTransformParameters(
    width: Option<Number>, height: Option<Number>, mode: Option<Mode>, quality: Option<Number>,
    format: Option<string>, fpx: Option<Number>, fpy: Option<Number>,
    preset: Option<string>, backgroundColor: Option<string>)

  /** A configured strategy maps parameters to parameters, or throws (None). */
  type Strategy = (Request, ImageTransformParameters) -> Option<ImageTransformParameters>

  /** What the server is configured with, and how the runtime reads number text and prints numbers. */
  datatype Settings = Settings(presets: seq<Preset>, strategies: seq<Strategy>,
                               parse: string -> Number, show: Number -> string)

  predicate IsFormat(format: string) {
    format == "jpg" || format == "jpeg" || format == "png" || format == "webp" || format == "avif"
  }

  function GetValidFormat(format: Option<string>): (r: Option<string>)
    ensures r.Some? <==> format.Some? && IsFormat(format.value)
    ensures r.Some? ==> r == format
  {
    if format.Some? && IsFormat(format.value) then format else None
  }

  predicate IsHexDigit(c: char) {
    '0' <= c <= '9' || 'a' <= c <= 'f' || 'A' <= c <= 'F'
  }

  predicate IsHexColor(hex: string) {
    (|hex| == 3 || |hex| == 4 || |hex| == 6 || |hex| == 8) && forall k | 0 <= k < |hex| :: IsHexDigit(hex[k])
  }

  function LowerHex(c: char): char
    requires IsHexDigit(c)
  {
    if 'A' <= c <= 'F' then (c - 'A') + 'a' else c
  }

  /** The normal form of a background color: `#` and hexadecimal digits in lower case. */
  predicate IsBackgroundColor(color: string) {
    && |color| > 1 && color[0] == '#' && IsHexColor(color[1..])
    && forall k | 0 < k < |color| :: color[k] == LowerHex(color[1..][k - 1])
  }

  function WithoutHash(b: string): string {
    if b != "" && b[0] == '#' then b[1..] else b
  }

  function GetValidBackgroundColor(input: Option<string>): (r: Option<string>)
    ensures r.Some? ==> IsBackgroundColor(r.value)
    ensures r.Some? <==> input.Some? && IsHexColor(WithoutHash(input.value))
  {
    if input.None? || input.value == "" then None
    else
      var hex := if input.value[0] == '#' then input.value[1..] else input.value;
      if IsHexColor(hex) then
        var lower := seq(|hex|, k requires 0 <= k < |hex| => LowerHex(hex[k]));
        var color := "#" + lower;
        assert color[1..] == lower;
        Some(color)
      else None
  }

  /** Colors with and without `#` are one, and a normal form is its own normal form and the only one that is. */
  lemma BackgroundColorNormalForm(input: string)
    ensures input != "" && input[0] != '#' ==>
              GetValidBackgroundColor(Some("#" + input)) == GetValidBackgroundColor(Some(input))
    ensures GetValidBackgroundColor(Some(input)) == Some(input) <==> IsBackgroundColor(input)
  {
    if input != "" && input[0] != '#' {
      assert ("#" + input)[1..] == input;
    }
    if IsBackgroundColor(input) {
      var hex := input[1..];
      assert input == "#" + seq(|hex|, k requires 0 <= k < |hex| => LowerHex(hex[k]));
    }
  }

  predicate SameHex(a: string, b: string) {
    |a| == |b| && forall k | 0 <= k < |a| :: IsHexDigit(a[k]) && IsHexDigit(b[k]) && LowerHex(a[k]) == LowerHex(b[k])
  }

  /** Every hexadecimal text of a valid length is a color, and case is all that two texts of one color differ in. */
  lemma ColorsIgnoreCase(a: string, b: string)
    requires IsHexColor(a)
    ensures GetValidBackgroundColor(Some(a)).Some?
    ensures GetValidBackgroundColor(Some(a)) == GetValidBackgroundColor(Some(b)) <==> SameHex(a, WithoutHash(b))
  {
    var hex := WithoutHash(b);
    assert IsHexDigit(a[0]) && a[0] != '#';
    var lowerA := seq(|a|, k requires 0 <= k < |a| => LowerHex(a[k]));
    var colorA := GetValidBackgroundColor(Some(a)).value;
    assert colorA == "#" + lowerA && colorA[1..] == lowerA;
    if IsHexColor(hex) {
      var lowerB := seq(|hex|, k requires 0 <= k < |hex| => LowerHex(hex[k]));
      var colorB := GetValidBackgroundColor(Some(b)).value;
      assert colorB == "#" + lowerB && colorB[1..] == lowerB;
      if lowerA == lowerB {
        assert |a| == |lowerA| == |hex|;
        forall k | 0 <= k < |a|
          ensures IsHexDigit(hex[k]) && LowerHex(a[k]) == LowerHex(hex[k])
        {
          assert lowerA[k] == lowerB[k];
        }
      }
      assert SameHex(a, hex) ==> lowerA == lowerB;
    }
  }

  function NumberOf(settings: Settings, text: Option<string>): Number {
    if text.Some? then settings.parse(text.value) else NaN
  }

  function InitialParameters(settings: Settings, query: Query): ImageTransformParameters {
    ImageTransformParameters(
      OrUndefined(MathRound(NumberOf(settings, query.w))),
      OrUndefined(MathRound(NumberOf(settings, query.h))),
      if query.mode == Some("resize") then Some(Resize) else Some(Crop),
      if query.q.Some?
        then Some(MathRound(MathMax(MathMin(NumberOf(settings, query.q), Finite(100.0)), Finite(1.0))))
        else None,
      GetValidFormat(query.format),
      OrUndefined(NumberOf(settings, query.fpx)),
      OrUndefined(NumberOf(settings, query.fpy)),
      query.preset,
      GetValidBackgroundColor(query.bg))
  }

  /** `presets.find(p => p.name === name)` */
  function FindPreset(presets: seq<Preset>, name: string): (r: Option<Preset>)
    ensures r.Some? ==> r.value in presets && r.value.name == name
    ensures r.None? <==> forall k | 0 <= k < |presets| :: presets[k].name != name
  {
    if presets == [] then None
    else if presets[0].name == name then Some(presets[0])
    else FindPreset(presets[1..], name)
  }

  /** The preset the parameters name, if it is configured; an empty name is falsy. */
  function NamedPreset(presets: seq<Preset>, preset: Option<string>): Option<Preset> {
    if preset.Some? && preset.value != "" then FindPreset(presets, preset.value) else None
  }

  function ResolvePreset(presets: seq<Preset>, p: ImageTransformParameters): ImageTransformParameters {
    match NamedPreset(presets, p.preset)
    case None => p
    case Some(preset) => p.(width := Some(preset.width), height := Some(preset.height), mode := Some(preset.mode))
  }

  /** The strategies in order; the first that throws ends the request. */
  function ApplyStrategies(strategies: seq<Strategy>, request: Request, p: ImageTransformParameters)
    : Option<ImageTransformParameters>
  {
    if strategies == [] then Some(p)
    else
      var front := ApplyStrategies(strategies[..|strategies| - 1], request, p);
      if front.None? then None else strategies[|strategies| - 1](request, front.value)
  }

  function TransformParameters(settings: Settings, request: Request): Option<ImageTransformParameters> {
    var applied := ApplyStrategies(settings.strategies, request, InitialParameters(settings, request.query));
    if applied.None? then None else Some(ResolvePreset(settings.presets, applied.value))
  }

  lemma {:induction false} ThrowIsFinal(strategies: seq<Strategy>, n: nat, request: Request, p: ImageTransformParameters)
    requires n <= |strategies| && ApplyStrategies(strategies[..n], request, p).None?
    ensures ApplyStrategies(strategies, request, p).None?
    decreases |strategies|
  {
    if n < |strategies| {
      var front := strategies[..|strategies| - 1];
      assert front[..n] == strategies[..n];
      ThrowIsFinal(front, n, request, p);
    } else {
      assert strategies[..n] == strategies;
    }
  }

  /** One strategy is given the parameters as they are, and what it returns is the result; none leaves them alone. */
  lemma OneStrategy(strategy: Strategy, request: Request, p: ImageTransformParameters)
    ensures ApplyStrategies([], request, p) == Some(p)
    ensures ApplyStrategies([strategy], request, p) == strategy(request, p)
  {
    assert [strategy][..0] == [];
  }

  /** Of two lists the second is given what the first returns, unless that throws. */
  lemma {:induction false} StrategiesCompose(a: seq<Strategy>, b: seq<Strategy>, request: Request,
                                             p: ImageTransformParameters)
    ensures ApplyStrategies(a + b, request, p)
         == (var first := ApplyStrategies(a, request, p);
             if first.None? then None else ApplyStrategies(b, request, first.value))
    decreases |b|
  {
    if b == [] {
      assert a + b == a;
    } else {
      var front := b[..|b| - 1];
      assert (a + b)[..|a + b| - 1] == a + front;
      StrategiesCompose(a, front, request, p);
    }
  }

  /** So the record a request amounts to: strategies one after the other, each on the last one's result, then presets. */
  lemma ParametersCompose(settings: Settings, a: seq<Strategy>, strategy: Strategy, b: seq<Strategy>, request: Request)
    requires settings.strategies == a + [strategy] + b
    ensures TransformParameters(settings, request)
         == match ApplyStrategies(a, request, InitialParameters(settings, request.query))
            case None => None
            case Some(given) =>
              match strategy(request, given)
              case None => None
              case Some(returned) =>
                match ApplyStrategies(b, request, returned)
                case None => None
                case Some(last) => Some(ResolvePreset(settings.presets, last))
  {
    hide InitialParameters, ResolvePreset, ApplyStrategies;
    var initial := InitialParameters(settings, request.query);
    StrategiesCompose(a + [strategy], b, request, initial);
    StrategiesCompose(a, [strategy], request, initial);
    forall given
      ensures ApplyStrategies([strategy], request, given) == strategy(request, given)
    {
      OneStrategy(strategy, request, given);
    }
  }

  /** A quality that one strategy sets is the quality, if the next one returns what it is given. */
  lemma LaterStrategiesSeeEarlierOnes(settings: Settings, q: Number, request: Request)
    requires settings.strategies == [(_: Request, p: ImageTransformParameters) => Some(p.(quality := Some(q))),
                                     (_: Request, p: ImageTransformParameters) => Some(p)]
    ensures TransformParameters(settings, request).Some?
    ensures TransformParameters(settings, request).value.quality == Some(q)
  {
    hide InitialParameters, ApplyStrategies, NamedPreset;
    var none: seq<Strategy> := [];
    assert settings.strategies == none + [settings.strategies[0]] + [settings.strategies[1]];
    ParametersCompose(settings, none, settings.strategies[0], [settings.strategies[1]], request);
    var initial := InitialParameters(settings, request.query);
    OneStrategy(settings.strategies[0], request, initial);
    OneStrategy(settings.strategies[1], request, initial.(quality := Some(q)));
  }

  /** The handler's loop over the configured strategies, then the preset lookup. */
  method GetImageTransformParameters(settings: Settings, request: Request)
    returns (r: Option<ImageTransformParameters>)
    ensures r == TransformParameters(settings, request)
  {
    var parameters := InitialParameters(settings, request.query);
    for i := 0 to |settings.strategies|
      invariant ApplyStrategies(settings.strategies[..i], request, InitialParameters(settings, request.query))
             == Some(parameters)
    {
      var next := settings.strategies[i](request, parameters);
      assert settings.strategies[..i + 1][..i] == settings.strategies[..i];
      if next.None? {
        ThrowIsFinal(settings.strategies, i + 1, request, InitialParameters(settings, request.query));
        return None;
      }
      parameters := next.value;
    }
    assert settings.strategies[..|settings.strategies|] == settings.strategies;
    var targetWidth, targetHeight, targetMode := parameters.width, parameters.height, parameters.mode;
    if parameters.preset.Some? && parameters.preset.value != "" {
      var matchingPreset := FindPreset(settings.presets, parameters.preset.value);
      if matchingPreset.Some? {
        targetWidth := Some(matchingPreset.value.width);
        targetHeight := Some(matchingPreset.value.height);
        targetMode := Some(matchingPreset.value.mode);
      }
    }
    return Some(parameters.(width := targetWidth, height := targetHeight, mode := targetMode));
  }

  // ---------- what a query amounts to ----------

  /** Rounding gives the whole number that is nearest, the upper one of two, and leaves the rest alone. */
  lemma MathRoundIsNearest(n: Number)
    ensures n.Finite? ==>
              && MathRound(n).Finite? && MathRound(n).value == MathRound(n).value.Floor as real
              && n.value - 0.5 < MathRound(n).value <= n.value + 0.5
    ensures !n.Finite? ==> MathRound(n) == n
  {
  }

  /** A numeric quality ends up as the whole number from 1 to 100 that is nearest to it. */
  lemma QualityIsClamped(settings: Settings, query: Query)
    requires query.q.Some?
    ensures var n, q := settings.parse(query.q.value), InitialParameters(settings, query).quality.value;
      && (n == NaN ==> q == NaN)
      && (n == Infinite(true) || (n.Finite? && n.value <= 1.0) ==> q == Finite(1.0))
      && (n == Infinite(false) || (n.Finite? && n.value >= 100.0) ==> q == Finite(100.0))
      && (n.Finite? && 1.0 <= n.value <= 100.0 ==>
            q.Finite? && n.value - 0.5 < q.value <= n.value + 0.5 && q.value == q.value.Floor as real)
  {
    hide GetValidBackgroundColor;
  }

  /** Texts that are not given, not numbers or zero leave sizes and coordinates out. */
  lemma FalsyTextsAreLeftOut(settings: Settings, query: Query)
    ensures var p := InitialParameters(settings, query);
      && (query.w.None? || settings.parse(query.w.value) in {NaN, Finite(0.0)} ==> p.width == None)
      && (query.h.None? || settings.parse(query.h.value) in {NaN, Finite(0.0)} ==> p.height == None)
      && (query.fpx.None? || settings.parse(query.fpx.value) in {NaN, Finite(0.0)} ==> p.fpx == None)
      && (query.fpy.None? || settings.parse(query.fpy.value) in {NaN, Finite(0.0)} ==> p.fpy == None)
      && (query.q.None? ==> p.quality == None)
      && (query.mode != Some("resize") ==> p.mode == Some(Crop))
  {
    hide GetValidBackgroundColor;
  }

  /** `?w=200&h=100&q=75&mode=resize&fpx=0.25&fpy=0.75&format=webp&bg=%23FFa` */
  const SAMPLE_QUERY := Query(Some("200"), Some("100"), Some("75"), Some("resize"), Some("0.25"), Some("0.75"),
                              Some("webp"), None, Some("#FFa"), None)

  predicate ReadsAndShows(settings: Settings, text: string, value: real) {
    settings.parse(text) == Finite(value) && settings.show(Finite(value)) == text
  }

  /** Each field of the sample query ends up where it belongs, and is printed where it belongs. */
  lemma SampleQueryReads(settings: Settings)
    requires ReadsAndShows(settings, "200", 200.0) && ReadsAndShows(settings, "100", 100.0)
    requires ReadsAndShows(settings, "75", 75.0)
    requires ReadsAndShows(settings, "0.25", 0.25) && ReadsAndShows(settings, "0.75", 0.75)
    ensures InitialParameters(settings, SAMPLE_QUERY) == ImageTransformParameters(
        Some(Finite(200.0)), Some(Finite(100.0)), Some(Resize), Some(Finite(75.0)), Some("webp"),
        Some(Finite(0.25)), Some(Finite(0.75)), None, Some("#ffa"))
  {
    SampleColor();
    hide GetValidBackgroundColor;
    assert MathRound(Finite(200.0)) == Finite(200.0) && MathRound(Finite(100.0)) == Finite(100.0);
    assert MathRound(Finite(75.0)) == Finite(75.0);
  }

  lemma SampleColor()
    ensures GetValidBackgroundColor(Some("#FFa")) == Some("#ffa")
  {
    var hex := "FFa";
    assert "#FFa"[1..] == hex && "#FFa"[0] == '#';
    assert hex[0] == 'F' && hex[1] == 'F' && hex[2] == 'a';
    assert IsHexColor(hex);
    var lower := seq(|hex|, k requires 0 <= k < |hex| => LowerHex(hex[k]));
    assert |lower| == 3 && lower[0] == 'f' && lower[1] == 'f' && lower[2] == 'a';
    assert lower == "ffa";
    assert "#" + lower == "#ffa";
  }

  function SampleParameters(): ImageTransformParameters {
    ImageTransformParameters(Some(Finite(200.0)), Some(Finite(100.0)), Some(Resize), Some(Finite(75.0)), Some("webp"),
                             Some(Finite(0.25)), Some(Finite(0.75)), None, Some("#ffa"))
  }

  lemma SampleHead(settings: Settings)
    requires settings.show(Finite(200.0)) == "200" && settings.show(Finite(100.0)) == "100"
    ensures DimensionText(settings, SampleParameters()) == "_transform_w200_h100_mresize"
  {
    assert "_transform" + "_" + ("w" + "200") + "_" + ("h" + "100") + "_" + ("m" + "resize")
        == "_transform_w200_h100_mresize";
  }

  lemma SampleTail(settings: Settings)
    requires settings.show(Finite(75.0)) == "75"
    requires settings.show(Finite(0.25)) == "0.25" && settings.show(Finite(0.75)) == "0.75"
    ensures FocalText(settings, SampleParameters()) == "_fpx0.25_fpy0.75"
    ensures FormatText(SampleParameters()) == "webp" && QualityText(settings, SampleParameters()) == "_q75"
    ensures BackgroundText(SampleParameters()) == "_bgffa"
  {
    assert "_" + ("fpx" + "0.25") + "_" + ("fpy" + "0.75") == "_fpx0.25_fpy0.75";
    assert "_" + ("q" + "75") == "_q75";
    assert "#ffa"[0] == '#' && "#ffa"[1..] == "ffa";
    assert "_" + ("bg" + "ffa") == "_bgffa";
  }

  lemma SampleQueryPrints(settings: Settings)
    requires ReadsAndShows(settings, "200", 200.0) && ReadsAndShows(settings, "100", 100.0)
    requires ReadsAndShows(settings, "75", 75.0)
    requires ReadsAndShows(settings, "0.25", 0.25) && ReadsAndShows(settings, "0.75", 0.75)
    ensures ParamString(settings, InitialParameters(settings, SAMPLE_QUERY))
         == "_transform_w200_h100_mresize" + "_fpx0.25_fpy0.75" + "webp" + "_q75" + "_bgffa"
  {
    SampleQueryReads(settings);
    hide InitialParameters, DimensionText, FocalText, FormatText, QualityText, BackgroundText;
    SampleHead(settings);
    SampleTail(settings);
  }

  /** The other mode, and a side that is left empty. */
  lemma OtherDimensionsPrint(settings: Settings)
    requires settings.show(Finite(200.0)) == "200" && settings.show(Finite(100.0)) == "100"
    ensures DimensionText(settings, SampleParameters().(mode := Some(Crop))) == "_transform_w200_h100_mcrop"
    ensures DimensionText(settings, SampleParameters().(width := None)) == "_transform_w_h100_mresize"
    ensures DimensionText(settings, SampleParameters().(height := None)) == "_transform_w200_h_mresize"
  {
    assert "_transform" + "_" + ("w" + "200") + "_" + ("h" + "100") + "_" + ("m" + "crop")
        == "_transform_w200_h100_mcrop";
    assert "_transform" + "_" + ("w" + "") + "_" + ("h" + "100") + "_" + ("m" + "resize") == "_transform_w_h100_mresize";
    assert "_transform" + "_" + ("w" + "200") + "_" + ("h" + "") + "_" + ("m" + "resize") == "_transform_w200_h_mresize";
  }

  /** Hexadecimal digits make a color exactly if there are 3, 4, 6 or 8 of them. */
  lemma ColorLengths(hex: string)
    ensures (forall k | 0 <= k < |hex| :: IsHexDigit(hex[k])) ==>
              (GetValidBackgroundColor(Some(hex)).Some? <==> |hex| in {3, 4, 6, 8})
    ensures (exists k :: 0 <= k < |hex| && !IsHexDigit(hex[k]) && (k > 0 || hex[0] != '#')) ==>
              GetValidBackgroundColor(Some(hex)) == None
  {
    var rest := WithoutHash(hex);
    if k :| 0 <= k < |hex| && !IsHexDigit(hex[k]) && (k > 0 || hex[0] != '#') {
      var at := if hex[0] == '#' then k - 1 else k;
      assert rest[at] == hex[k];
    }
  }

  // ---------- the parameter text ----------

  predicate HasDimensions(p: ImageTransformParameters) {
    Truthy(p.width) || Truthy(p.height)
  }

  predicate HasFocalPoint(p: ImageTransformParameters) {
    Truthy(p.fpx) && Truthy(p.fpy)
  }

  predicate HasBackground(p: ImageTransformParameters) {
    p.backgroundColor.Some? && p.backgroundColor.value != ""
  }

  function ModeText(mode: Option<Mode>): string {
    match mode
    case None => "undefined"
    case Some(Crop) => "crop"
    case Some(Resize) => "resize"
  }

  /** The number as template-literal text when truthy, otherwise nothing. */
  function ShowOrEmpty(show: Number -> string, n: Option<Number>): string {
    if Truthy(n) then show(n.value) else ""
  }

  /** `color.replace('#', '')`: drops the first `#`. */
  function DropHash(color: string): string {
    if color == "" then ""
    else if color[0] == '#' then color[1..]
    else [color[0]] + DropHash(color[1..])
  }

  function DimensionText(settings: Settings, p: ImageTransformParameters): string {
    if HasDimensions(p) then
      "_transform" + "_" + ("w" + ShowOrEmpty(settings.show, p.width))
        + "_" + ("h" + ShowOrEmpty(settings.show, p.height)) + "_" + ("m" + ModeText(p.mode))
    else if NamedPreset(settings.presets, p.preset).Some? then "_transform_pre_" + p.preset.value
    else ""
  }

  function FocalText(settings: Settings, p: ImageTransformParameters): string {
    if HasFocalPoint(p) then
      "_" + ("fpx" + settings.show(p.fpx.value)) + "_" + ("fpy" + settings.show(p.fpy.value))
    else ""
  }

  function QualityText(settings: Settings, p: ImageTransformParameters): string {
    if Truthy(p.quality) then "_" + ("q" + settings.show(p.quality.value)) else ""
  }

  function BackgroundText(p: ImageTransformParameters): string {
    if HasBackground(p) then "_" + ("bg" + DropHash(p.backgroundColor.value)) else ""
  }

  function FormatText(p: ImageTransformParameters): string {
    var format := GetValidFormat(p.format);
    if format.Some? then format.value else ""
  }

  /** The text that is hashed into the cache key; empty when nothing is asked for. */
  function ParamString(settings: Settings, p: ImageTransformParameters): string {
    DimensionText(settings, p) + FocalText(settings, p) + FormatText(p) + QualityText(settings, p) + BackgroundText(p)
  }

  /** Appending only the pieces that are not empty builds the same text. */
  method AppendParameters(dimensions: string, focalPoint: string, format: Option<string>, quality: string, bg: string)
    returns (imageParamsString: string)
    ensures imageParamsString
         == dimensions + focalPoint + (if format.Some? then format.value else "") + quality + bg
  {
    imageParamsString := dimensions;
    if focalPoint != "" {
      imageParamsString := imageParamsString + focalPoint;
    }
    if format.Some? {
      imageParamsString := imageParamsString + format.value;
    }
    if quality != "" {
      imageParamsString := imageParamsString + quality;
    }
    if bg != "" {
      imageParamsString := imageParamsString + bg;
    }
  }

  method PrintParameters(settings: Settings, p: ImageTransformParameters) returns (imageParamsString: string)
    ensures imageParamsString == ParamString(settings, p)
  {
    imageParamsString := "";
    if HasDimensions(p) {
      var width := ShowOrEmpty(settings.show, p.width);
      var height := ShowOrEmpty(settings.show, p.height);
      imageParamsString := "_transform" + "_" + ("w" + width) + "_" + ("h" + height) + "_" + ("m" + ModeText(p.mode));
    } else if p.preset.Some? && p.preset.value != "" {
      if FindPreset(settings.presets, p.preset.value).Some? {
        imageParamsString := "_transform_pre_" + p.preset.value;
      }
    }
    imageParamsString := AppendParameters(imageParamsString, FocalText(settings, p), GetValidFormat(p.format),
                                          QualityText(settings, p), BackgroundText(p));
  }
}
