/** The parameter text is uniquely readable, although the format is appended to it without a separator. */
module ParameterText {
  import opened Text
  import opened Parameters

  /** Everything the text says, as text. */
  datatype Fields = Fields(dimensions: Option<(string, string, string)>, preset: Option<string>,
                           focalPoint: Option<(string, string)>, format: Option<string>,
                           quality: Option<string>, background: Option<string>)

  /** Where the preset's name stands in for dimensions. */
  predicate PrintsPreset(settings: Settings, p: ImageTransformParameters) {
    !HasDimensions(p) && NamedPreset(settings.presets, p.preset).Some?
  }

  function FieldsOf(settings: Settings, p: ImageTransformParameters): Fields {
    Fields(
      if HasDimensions(p) then
        Some((ShowOrEmpty(settings.show, p.width), ShowOrEmpty(settings.show, p.height), ModeText(p.mode)))
      else None,
      if PrintsPreset(settings, p) then p.preset else None,
      if HasFocalPoint(p) then Some((settings.show(p.fpx.value), settings.show(p.fpy.value))) else None,
      GetValidFormat(p.format),
      if Truthy(p.quality) then Some(settings.show(p.quality.value)) else None,
      if HasBackground(p) then Some(DropHash(p.backgroundColor.value)) else None)
  }

  // ---------- reading the text back ----------

  /** Takes a format off the end, if there is one. */
  function TakeFormat(t: string): (string, Option<string>) {
    if EndsWith(t, "jpg") then (t[..|t| - 3], Some("jpg"))
    else if EndsWith(t, "jpeg") then (t[..|t| - 4], Some("jpeg"))
    else if EndsWith(t, "png") then (t[..|t| - 3], Some("png"))
    else if EndsWith(t, "webp") then (t[..|t| - 4], Some("webp"))
    else if EndsWith(t, "avif") then (t[..|t| - 4], Some("avif"))
    else (t, None)
  }

  function After(t: string, n: nat): string {
    if n <= |t| then t[n..] else ""
  }

  predicate Starts(ts: seq<string>, k: nat, letter: char) {
    k < |ts| && ts[k] != "" && ts[k][0] == letter
  }

  /** Reads the pieces between underscores: dimensions, focal point, format on the last of those, quality, background. */
  function ReadFields(ts: seq<string>): Fields
    requires |ts| > 0
  {
    var sized := |ts| >= 5 && ts[1] == "transform";
    var i := if sized then 4 else 0;
    var focal := |ts| > i + 2 && Starts(ts, i + 1, 'f');
    var j := if focal then i + 2 else i;
    var (last, format) := TakeFormat(ts[j]);
    var quality := Starts(ts, j + 1, 'q');
    var k := if quality then j + 2 else j + 1;
    Fields(
      if sized then Some((After(ts[2], 1), After(ts[3], 1), After(if focal then ts[4] else last, 1))) else None,
      None,
      if focal then Some((After(ts[i + 1], 3), After(last, 3))) else None,
      format,
      if quality then Some(After(ts[j + 1], 1)) else None,
      if Starts(ts, k, 'b') then Some(After(ts[k], 2)) else None)
  }

  const PRESET_PREFIX := "_transform_pre_"

  /** Reads a text of which it is known whether, and for which preset, it begins with a preset's name. */
  function ReadText(text: string, preset: Option<string>): Fields {
    match preset
    case None => ReadFields(Split(text, '_'))
    case Some(name) => ReadFields(Split(After(text, |PRESET_PREFIX + name|), '_')).(preset := preset)
  }

  // ---------- what number text is assumed to look like ----------

  /** Decimal, exponent and Infinity notation: not empty, no underscore, last character not that of a format. */
  predicate IsNumberText(t: string) {
    t != "" && '_' !in t && t[|t| - 1] != 'g' && t[|t| - 1] != 'p' && t[|t| - 1] != 'f'
  }

  predicate ShowsNumber(settings: Settings, n: Option<Number>) {
    Truthy(n) ==> IsNumberText(settings.show(n.value))
  }

  predicate ShowsNumbers(settings: Settings, p: ImageTransformParameters) {
    && ShowsNumber(settings, p.width) && ShowsNumber(settings, p.height)
    && ShowsNumber(settings, p.fpx) && ShowsNumber(settings, p.fpy)
    && ShowsNumber(settings, p.quality)
  }

  /**
   * The parameter records the handlers are meant to produce: numbers absent or truthy, the color in normal form,
   * and no configured preset that leaves both dimensions out.
   */
  predicate Tidy(settings: Settings, p: ImageTransformParameters) {
    && (p.width.Some? ==> Truthy(p.width))
    && (p.height.Some? ==> Truthy(p.height))
    && (p.quality.Some? ==> Truthy(p.quality))
    && (p.backgroundColor.Some? ==> IsBackgroundColor(p.backgroundColor.value))
    && (HasDimensions(p) || NamedPreset(settings.presets, p.preset).None?)
  }

  /** A color in normal form, as queries give it. Every tidy record is legible. */
  predicate Legible(p: ImageTransformParameters) {
    p.backgroundColor.Some? ==> IsBackgroundColor(p.backgroundColor.value)
  }

  /** Records that both print a preset's name print the same one. */
  predicate SamePrintedPreset(settings: Settings, p1: ImageTransformParameters, p2: ImageTransformParameters) {
    PrintsPreset(settings, p1) && PrintsPreset(settings, p2) ==> p1.preset == p2.preset
  }

  function PresetOnlyRecord(name: string, format: Option<string>, quality: Option<Number>): ImageTransformParameters {
    ImageTransformParameters(None, None, None, quality, format, None, None, Some(name), None)
  }

  function PresetOnlyTail(settings: Settings, format: Option<string>, quality: Option<Number>): string {
    (if format.Some? then format.value else "") + (if quality.Some? then "_q" + settings.show(quality.value) else "")
  }

  lemma PresetOnlyText(settings: Settings, name: string, format: Option<string>, quality: Option<Number>)
    requires name != "" && FindPreset(settings.presets, name).Some?
    requires format.Some? ==> IsFormat(format.value)
    requires quality.Some? ==> Truthy(quality)
    ensures ParamString(settings, PresetOnlyRecord(name, format, quality))
         == "_transform_pre_" + name + PresetOnlyTail(settings, format, quality)
  {
    hide FindPreset, ParamString;
    var p := PresetOnlyRecord(name, format, quality);
    PresetOnlyHead(settings, p);
    PresetOnlyRest(settings, p);
    hide DimensionText, FocalText, FormatText, QualityText, BackgroundText;
    ParamStringParts(settings, p);
    assert "_transform_pre_" + name + "" == "_transform_pre_" + name;
  }

  lemma PresetOnlyHead(settings: Settings, p: ImageTransformParameters)
    requires p.preset.Some? && p == PresetOnlyRecord(p.preset.value, p.format, p.quality)
    requires p.preset.value != "" && FindPreset(settings.presets, p.preset.value).Some?
    ensures DimensionText(settings, p) == "_transform_pre_" + p.preset.value
    ensures FocalText(settings, p) == "" && BackgroundText(p) == ""
  {
  }

  lemma PresetOnlyRest(settings: Settings, p: ImageTransformParameters)
    requires p.format.Some? ==> IsFormat(p.format.value)
    requires p.quality.Some? ==> Truthy(p.quality)
    ensures FormatText(p) + QualityText(settings, p) == PresetOnlyTail(settings, p.format, p.quality)
  {
    if p.quality.Some? {
      var shown := settings.show(p.quality.value);
      assert "_" + ("q" + shown) == "_q" + shown;
    }
  }

  lemma ParamStringParts(settings: Settings, p: ImageTransformParameters)
    ensures ParamString(settings, p)
         == DimensionText(settings, p) + FocalText(settings, p) + (FormatText(p) + QualityText(settings, p))
            + BackgroundText(p)
  {
  }

  /** Different names can make one text: a format or a quality may be read off the longer one. */
  lemma PresetNamesCanCollide(settings: Settings, name: string, format: string, q: Number)
    requires IsFormat(format) && Truthy(Some(q)) && name != ""
    requires FindPreset(settings.presets, name).Some?
    ensures FindPreset(settings.presets, name + format).Some? ==>
              ParamString(settings, PresetOnlyRecord(name, Some(format), None))
                == ParamString(settings, PresetOnlyRecord(name + format, None, None))
    ensures FindPreset(settings.presets, name + ("_q" + settings.show(q))).Some? ==>
              ParamString(settings, PresetOnlyRecord(name, None, Some(q)))
                == ParamString(settings, PresetOnlyRecord(name + ("_q" + settings.show(q)), None, None))
  {
    hide FindPreset, ParamString;
    var pre := "_transform_pre_";
    PresetOnlyText(settings, name, Some(format), None);
    PresetOnlyText(settings, name, None, Some(q));
    if FindPreset(settings.presets, name + format).Some? {
      PresetOnlyText(settings, name + format, None, None);
      assert pre + name + (format + "") == pre + (name + format) + ("" + "");
    }
    if FindPreset(settings.presets, name + ("_q" + settings.show(q))).Some? {
      PresetOnlyText(settings, name + ("_q" + settings.show(q)), None, None);
      assert pre + name + ("" + ("_q" + settings.show(q))) == pre + (name + ("_q" + settings.show(q))) + ("" + "");
    }
  }

  // ---------- the pieces of the text ----------

  function HeadPieces(settings: Settings, p: ImageTransformParameters): (r: seq<string>)
    ensures |r| > 0
  {
    if HasDimensions(p) then
      ["", "transform", "w" + ShowOrEmpty(settings.show, p.width), "h" + ShowOrEmpty(settings.show, p.height),
       "m" + ModeText(p.mode)]
    else [""]
  }

  function FocalPieces(settings: Settings, p: ImageTransformParameters): seq<string> {
    if HasFocalPoint(p) then ["fpx" + settings.show(p.fpx.value), "fpy" + settings.show(p.fpy.value)] else []
  }

  function TailPieces(settings: Settings, p: ImageTransformParameters): seq<string> {
    (if Truthy(p.quality) then ["q" + settings.show(p.quality.value)] else [])
    + (if HasBackground(p) then ["bg" + DropHash(p.backgroundColor.value)] else [])
  }

  function AppendToLast(ts: seq<string>, suffix: string): seq<string>
    requires |ts| > 0
  {
    ts[|ts| - 1 := ts[|ts| - 1] + suffix]
  }

  function Pieces(settings: Settings, p: ImageTransformParameters): seq<string> {
    AppendToLast(HeadPieces(settings, p) + FocalPieces(settings, p), FormatText(p)) + TailPieces(settings, p)
  }

  // ---------- splitting the text gives the pieces ----------

  lemma SplitExtend(s: string, piece: string)
    requires '_' !in piece
    ensures Split(s + "_" + piece, '_') == Split(s, '_') + [piece]
  {
    assert s + "_" + piece == s + ['_'] + piece;
    SplitAppend(s, piece, '_');
    SplitSeparatorFree(piece, '_');
  }

  lemma {:induction false} SplitSuffix(s: string, suffix: string)
    requires '_' !in suffix
    ensures Split(s + suffix, '_') == AppendToLast(Split(s, '_'), suffix)
  {
    hide Split;
    var whole := s + suffix;
    if s == "" {
      assert Split(s, '_') == [""] by {
        SplitSeparatorFree("", '_');
      }
      assert whole == suffix && "" + suffix == suffix;
      SplitSeparatorFree(suffix, '_');
    } else {
      assert whole[1..] == s[1..] + suffix;
      SplitSuffix(s[1..], suffix);
      SplitStep(s, '_');
      SplitStep(whole, '_');
      var rest := Split(s[1..], '_');
      var extended := Split(whole[1..], '_');
      assert extended == AppendToLast(rest, suffix);
      if s[0] == '_' {
        assert [""] + extended == AppendToLast([""] + rest, suffix);
      } else if |rest| == 1 {
        assert [s[0]] + (rest[0] + suffix) == ([s[0]] + rest[0]) + suffix;
      } else {
        assert extended[0] == rest[0];
        assert [[s[0]] + rest[0]] + extended[1..] == AppendToLast([[s[0]] + rest[0]] + rest[1..], suffix);
      }
    }
  }

  lemma SplitThree(s: string, a: string, b: string, c: string)
    requires '_' !in a && '_' !in b && '_' !in c
    ensures Split(s + "_" + a + "_" + b + "_" + c, '_') == Split(s, '_') + [a, b, c]
  {
    SplitExtend(s, a);
    SplitExtend(s + "_" + a, b);
    SplitExtend(s + "_" + a + "_" + b, c);
  }

  lemma SplitTransform()
    ensures Split("_transform", '_') == ["", "transform"]
  {
    hide Split;
    SplitSeparatorFree("", '_');
    SplitExtend("", "transform");
    assert "" + "_" + "transform" == "_transform";
  }

  lemma SplitFocal(s: string, x: string, y: string)
    requires '_' !in x && '_' !in y
    ensures Split(s + ("_" + ("fpx" + x) + "_" + ("fpy" + y)), '_') == Split(s, '_') + ["fpx" + x, "fpy" + y]
  {
    SplitExtend(s, "fpx" + x);
    SplitExtend(s + "_" + ("fpx" + x), "fpy" + y);
    assert s + "_" + ("fpx" + x) + "_" + ("fpy" + y) == s + ("_" + ("fpx" + x) + "_" + ("fpy" + y));
  }

  lemma DropHashOfColor(color: string)
    requires IsBackgroundColor(color)
    ensures DropHash(color) == color[1..] && '_' !in DropHash(color)
  {
    forall k | 0 <= k < |color[1..]|
      ensures color[1..][k] != '_'
    {
      assert IsHexDigit(color[1..][k]);
    }
  }

  lemma SplitDimensionText(settings: Settings, p: ImageTransformParameters)
    requires Legible(p) && ShowsNumbers(settings, p) && !PrintsPreset(settings, p)
    ensures Split(DimensionText(settings, p), '_') == HeadPieces(settings, p)
  {
    hide Split;
    if HasDimensions(p) {
      var w, h := "w" + ShowOrEmpty(settings.show, p.width), "h" + ShowOrEmpty(settings.show, p.height);
      SplitTransform();
      SplitThree("_transform", w, h, "m" + ModeText(p.mode));
    } else {
      SplitSeparatorFree("", '_');
    }
  }

  lemma SplitCore(settings: Settings, p: ImageTransformParameters)
    requires Legible(p) && ShowsNumbers(settings, p) && !PrintsPreset(settings, p)
    ensures Split(DimensionText(settings, p) + FocalText(settings, p), '_')
         == HeadPieces(settings, p) + FocalPieces(settings, p)
  {
    var s := DimensionText(settings, p);
    SplitDimensionText(settings, p);
    if HasFocalPoint(p) {
      SplitFocal(s, settings.show(p.fpx.value), settings.show(p.fpy.value));
    } else {
      assert s + FocalText(settings, p) == s;
    }
  }

  lemma PiecesOfText(settings: Settings, p: ImageTransformParameters)
    requires Legible(p) && ShowsNumbers(settings, p) && !PrintsPreset(settings, p)
    ensures Split(ParamString(settings, p), '_') == Pieces(settings, p)
  {
    hide DimensionText, FocalText, HeadPieces, FocalPieces, Split;
    var s := DimensionText(settings, p) + FocalText(settings, p);
    SplitCore(settings, p);
    SplitSuffix(s, FormatText(p));
    SplitTail(settings, p, s + FormatText(p));
  }

  lemma SplitTail(settings: Settings, p: ImageTransformParameters, s: string)
    requires Legible(p) && ShowsNumbers(settings, p) && !PrintsPreset(settings, p)
    ensures Split(s + QualityText(settings, p) + BackgroundText(p), '_') == Split(s, '_') + TailPieces(settings, p)
  {
    var t := s + QualityText(settings, p);
    if Truthy(p.quality) {
      var q := "q" + settings.show(p.quality.value);
      SplitExtend(s, q);
      assert s + "_" + q == t;
    } else {
      assert t == s;
    }
    if HasBackground(p) {
      DropHashOfColor(p.backgroundColor.value);
      var b := "bg" + DropHash(p.backgroundColor.value);
      SplitExtend(t, b);
      assert t + "_" + b == t + BackgroundText(p);
    } else {
      assert t + BackgroundText(p) == t;
    }
  }

  // ---------- reading the pieces gives the fields ----------

  lemma SuffixLetters(t: string, suffix: string)
    requires |suffix| >= 2
    ensures EndsWith(t, suffix) ==>
              |t| >= 2 && t[|t| - 1] == suffix[|suffix| - 1] && t[|t| - 2] == suffix[|suffix| - 2]
  {
    if EndsWith(t, suffix) {
      var n := |t| - |suffix|;
      assert t[n..][|suffix| - 1] == t[|t| - 1] && t[n..][|suffix| - 2] == t[|t| - 2];
    }
  }

  /** How a text must end for a format to be taken off it. */
  lemma FormatLetters(t: string)
    ensures EndsWith(t, "jpg") ==> |t| >= 2 && t[|t| - 2] == 'p' && t[|t| - 1] == 'g'
    ensures EndsWith(t, "jpeg") ==> |t| >= 2 && t[|t| - 2] == 'e' && t[|t| - 1] == 'g'
    ensures EndsWith(t, "png") ==> |t| >= 2 && t[|t| - 2] == 'n' && t[|t| - 1] == 'g'
    ensures EndsWith(t, "webp") ==> |t| >= 2 && t[|t| - 2] == 'b' && t[|t| - 1] == 'p'
    ensures EndsWith(t, "avif") ==> |t| >= 2 && t[|t| - 2] == 'i' && t[|t| - 1] == 'f'
  {
    SuffixLetters(t, "jpg");
    SuffixLetters(t, "jpeg");
    SuffixLetters(t, "png");
    SuffixLetters(t, "webp");
    SuffixLetters(t, "avif");
  }

  /** The last-but-one characters of the five formats differ, so at most one of them ends a text. */
  lemma TakeFormatOf(t: string, format: Option<string>)
    requires TakeFormat(t).1.None?
    requires format.Some? ==> IsFormat(format.value)
    ensures TakeFormat(t + (if format.Some? then format.value else "")) == (t, format)
  {
    if format.Some? {
      var f := format.value;
      var whole := t + f;
      assert whole[|whole| - |f|..] == f;
      assert whole[|whole| - 2] == f[|f| - 2];
      assert whole[..|whole| - |f|] == t;
      FormatLetters(whole);
    } else {
      assert t + "" == t;
    }
  }

  lemma NoFormatOnNumber(prefix: string, n: string)
    requires IsNumberText(n)
    ensures TakeFormat(prefix + n) == (prefix + n, None)
  {
    var t := prefix + n;
    assert t[|t| - 1] == n[|n| - 1];
    FormatLetters(t);
  }

  lemma NoFormatOnMode(mode: Option<Mode>)
    ensures TakeFormat("m" + ModeText(mode)) == ("m" + ModeText(mode), None)
  {
    var m := ModeText(mode);
    var t := "m" + m;
    assert m[|m| - 2] == 'o' || m[|m| - 1] == 'e' || m[|m| - 1] == 'd';
    assert t[|t| - 1] == m[|m| - 1] && t[|t| - 2] == m[|m| - 2];
    FormatLetters(t);
  }

  /** The piece the format is appended to reads back as piece and format. */
  lemma FormatPiece(settings: Settings, p: ImageTransformParameters)
    requires Legible(p) && ShowsNumbers(settings, p) && !PrintsPreset(settings, p)
    ensures var core := HeadPieces(settings, p) + FocalPieces(settings, p);
      TakeFormat(core[|core| - 1] + FormatText(p)) == (core[|core| - 1], GetValidFormat(p.format))
  {
    var core := HeadPieces(settings, p) + FocalPieces(settings, p);
    if HasFocalPoint(p) {
      NoFormatOnNumber("fpy", settings.show(p.fpy.value));
    } else if HasDimensions(p) {
      NoFormatOnMode(p.mode);
    }
    TakeFormatOf(core[|core| - 1], GetValidFormat(p.format));
  }

  lemma AfterPrefix(prefix: string, t: string)
    ensures After(prefix + t, |prefix|) == t
  {
  }

  /** What the first pieces look like: sized or not. */
  predicate HeadShape(core: seq<string>, head: nat) {
    && (head == 5 || head == 1)
    && |core| >= head
    && (head == 5 ==> core[1] == "transform")
  }

  predicate TailShape(tail: seq<string>) {
    forall k | 0 <= k < |tail| :: tail[k] != "" && (tail[k][0] == 'q' || tail[k][0] == 'b')
  }

  /** Pieces laid out as head, focal point and tail, with the format on the last piece before the tail. */
  predicate Layout(ts: seq<string>, core: seq<string>, tail: seq<string>, head: nat, focal: bool,
                   format: Option<string>)
  {
    && HeadShape(core, head) && TailShape(tail)
    && |core| == head + (if focal then 2 else 0)
    && |ts| == |core| + |tail|
    && (forall k | 0 <= k < |core| - 1 :: ts[k] == core[k])
    && (forall k | 0 <= k < |tail| :: ts[|core| + k] == tail[k])
    && TakeFormat(ts[|core| - 1]) == (core[|core| - 1], format)
    && (focal ==> core[|core| - 2] != "" && core[|core| - 2][0] == 'f')
  }

  /** Which head, focal point and tail a layout has is seen from the pieces. */
  lemma ReadHead(ts: seq<string>, core: seq<string>, tail: seq<string>, head: nat, focal: bool, format: Option<string>)
    requires Layout(ts, core, tail, head, focal, format)
    ensures |ts| >= 5 && ts[1] == "transform" <==> head == 5
    ensures |ts| > head + 1 && Starts(ts, head, 'f') <==> focal
  {
    hide TakeFormat;
    var c := |core|;
    if |tail| > 0 {
      assert ts[c] == tail[0];
    }
    if head == 1 && |ts| > 1 {
      assert ts[1] != "transform" by {
        if focal {
          assert ts[1] == core[1];
        }
      }
    }
    if focal {
      assert ts[head] == core[c - 2];
    } else if |ts| > head {
      assert ts[head] == tail[0];
    }
  }

  lemma ReadLayout(ts: seq<string>, core: seq<string>, tail: seq<string>, head: nat, focal: bool,
                   format: Option<string>)
    requires Layout(ts, core, tail, head, focal, format)
    ensures var f := ReadFields(ts);
      && f.dimensions == (if head == 5 then Some((After(core[2], 1), After(core[3], 1), After(core[4], 1))) else None)
      && f.preset == None
      && f.focalPoint == (if focal then Some((After(core[|core| - 2], 3), After(core[|core| - 1], 3))) else None)
      && f.format == format
      && f.quality == (if Starts(tail, 0, 'q') then Some(After(tail[0], 1)) else None)
      && f.background == (var k := if Starts(tail, 0, 'q') then 1 else 0;
                          if Starts(tail, k, 'b') then Some(After(tail[k], 2)) else None)
  {
    ReadHead(ts, core, tail, head, focal, format);
    hide TakeFormat, After;
    var c := |core|;
    if |tail| > 0 {
      assert ts[c] == tail[0];
    }
    if |tail| > 1 {
      assert ts[c + 1] == tail[1];
    }
    assert Starts(ts, c, 'q') == Starts(tail, 0, 'q');
  }

  function HeadLength(settings: Settings, p: ImageTransformParameters): nat {
    if HasDimensions(p) then 5 else 1
  }

  lemma HeadIsShaped(settings: Settings, p: ImageTransformParameters)
    ensures var core := HeadPieces(settings, p) + FocalPieces(settings, p);
      && HeadShape(core, HeadLength(settings, p))
      && |core| == HeadLength(settings, p) + (if HasFocalPoint(p) then 2 else 0)
      && (HasFocalPoint(p) ==> core[|core| - 2] != "" && core[|core| - 2][0] == 'f')
  {
    hide ModeText, ShowOrEmpty;
  }

  lemma TailIsShaped(settings: Settings, p: ImageTransformParameters)
    ensures TailShape(TailPieces(settings, p))
  {
    hide DropHash;
  }

  lemma AppendedPieces(core: seq<string>, suffix: string, tail: seq<string>)
    requires |core| > 0
    ensures var ts := AppendToLast(core, suffix) + tail;
      && |ts| == |core| + |tail|
      && (forall k | 0 <= k < |core| - 1 :: ts[k] == core[k])
      && (forall k | 0 <= k < |tail| :: ts[|core| + k] == tail[k])
      && ts[|core| - 1] == core[|core| - 1] + suffix
  {
  }

  lemma PiecesAreLaidOut(settings: Settings, p: ImageTransformParameters)
    requires Legible(p) && ShowsNumbers(settings, p) && !PrintsPreset(settings, p)
    ensures Layout(Pieces(settings, p), HeadPieces(settings, p) + FocalPieces(settings, p), TailPieces(settings, p),
                   HeadLength(settings, p), HasFocalPoint(p), GetValidFormat(p.format))
  {
    hide TakeFormat, HeadPieces, FocalPieces, TailPieces, FormatText, HeadLength, HeadShape, TailShape, Legible,
         ShowsNumbers, HasFocalPoint, GetValidFormat;
    HeadIsShaped(settings, p);
    TailIsShaped(settings, p);
    FormatPiece(settings, p);
    AppendedPieces(HeadPieces(settings, p) + FocalPieces(settings, p), FormatText(p), TailPieces(settings, p));
  }

  lemma DimensionsReadBack(settings: Settings, p: ImageTransformParameters, core: seq<string>)
    requires HasDimensions(p) && core == HeadPieces(settings, p) + FocalPieces(settings, p)
    ensures After(core[2], 1) == ShowOrEmpty(settings.show, p.width)
    ensures After(core[3], 1) == ShowOrEmpty(settings.show, p.height)
    ensures After(core[4], 1) == ModeText(p.mode)
  {
    hide ShowOrEmpty, ModeText, After;
    AfterPrefix("w", ShowOrEmpty(settings.show, p.width));
    AfterPrefix("h", ShowOrEmpty(settings.show, p.height));
    AfterPrefix("m", ModeText(p.mode));
  }

  lemma FocalPointReadsBack(settings: Settings, p: ImageTransformParameters, core: seq<string>)
    requires HasFocalPoint(p) && core == HeadPieces(settings, p) + FocalPieces(settings, p)
    ensures After(core[|core| - 2], 3) == settings.show(p.fpx.value)
    ensures After(core[|core| - 1], 3) == settings.show(p.fpy.value)
  {
    hide HeadPieces, After;
    AfterPrefix("fpx", settings.show(p.fpx.value));
    AfterPrefix("fpy", settings.show(p.fpy.value));
  }

  lemma TailReadsBack(settings: Settings, p: ImageTransformParameters, tail: seq<string>)
    requires tail == TailPieces(settings, p)
    ensures Starts(tail, 0, 'q') <==> Truthy(p.quality)
    ensures Truthy(p.quality) ==> After(tail[0], 1) == settings.show(p.quality.value)
    ensures var k := if Truthy(p.quality) then 1 else 0;
      && (Starts(tail, k, 'b') <==> HasBackground(p))
      && (HasBackground(p) ==> After(tail[k], 2) == DropHash(p.backgroundColor.value))
  {
    hide DropHash, After;
    if Truthy(p.quality) {
      AfterPrefix("q", settings.show(p.quality.value));
    }
    if HasBackground(p) {
      AfterPrefix("bg", DropHash(p.backgroundColor.value));
    }
  }

  lemma PiecesReadBack(settings: Settings, p: ImageTransformParameters)
    requires Legible(p) && ShowsNumbers(settings, p) && !PrintsPreset(settings, p)
    ensures ReadFields(Pieces(settings, p)) == FieldsOf(settings, p)
  {
    hide ReadFields, Pieces, Layout, HeadPieces, FocalPieces, TailPieces, DropHash, ModeText, After, Starts;
    var core := HeadPieces(settings, p) + FocalPieces(settings, p);
    PiecesAreLaidOut(settings, p);
    ReadLayout(Pieces(settings, p), core, TailPieces(settings, p),
               HeadLength(settings, p), HasFocalPoint(p), GetValidFormat(p.format));
    if HasDimensions(p) {
      DimensionsReadBack(settings, p, core);
    }
    if HasFocalPoint(p) {
      FocalPointReadsBack(settings, p, core);
    }
    TailReadsBack(settings, p, TailPieces(settings, p));
  }

  function AfterHead(settings: Settings, p: ImageTransformParameters): string {
    FocalText(settings, p) + (FormatText(p) + QualityText(settings, p)) + BackgroundText(p)
  }

  lemma HeadAndRest(settings: Settings, p: ImageTransformParameters)
    ensures ParamString(settings, p) == DimensionText(settings, p) + AfterHead(settings, p)
  {
    hide DimensionText, FocalText, FormatText, QualityText, BackgroundText, ParamString;
    ParamStringParts(settings, p);
  }

  lemma HeadStart(settings: Settings, p: ImageTransformParameters)
    ensures HasDimensions(p) ==> |DimensionText(settings, p)| > 11 && DimensionText(settings, p)[11] == 'w'
    ensures !HasDimensions(p) && !PrintsPreset(settings, p) ==> DimensionText(settings, p) == ""
    ensures PrintsPreset(settings, p) ==> PRESET_PREFIX <= DimensionText(settings, p)
  {
    hide FindPreset, ShowOrEmpty, ModeText;
  }

  /** Without the preset's name in front, the text is that of the record without the preset. */
  lemma PresetInFront(settings: Settings, p: ImageTransformParameters)
    requires PrintsPreset(settings, p)
    ensures ParamString(settings, p) == PRESET_PREFIX + p.preset.value + ParamString(settings, p.(preset := None))
  {
    var rest := p.(preset := None);
    HeadOfPreset(settings, p);
    SameTail(settings, p, rest);
    hide DimensionText, FocalText, FormatText, QualityText, BackgroundText, ParamString, PrintsPreset;
    HeadAndRest(settings, p);
    HeadAndRest(settings, rest);
    assert "" + AfterHead(settings, rest) == AfterHead(settings, rest);
  }

  lemma HeadOfPreset(settings: Settings, p: ImageTransformParameters)
    requires PrintsPreset(settings, p)
    ensures DimensionText(settings, p) == PRESET_PREFIX + p.preset.value
    ensures DimensionText(settings, p.(preset := None)) == ""
  {
    hide FindPreset;
  }

  lemma WithoutPreset(settings: Settings, p: ImageTransformParameters)
    requires PrintsPreset(settings, p)
    ensures var rest := p.(preset := None);
      && !PrintsPreset(settings, rest) && ShowsNumbers(settings, rest) == ShowsNumbers(settings, p)
      && FieldsOf(settings, p) == FieldsOf(settings, rest).(preset := p.preset)
  {
    hide FindPreset, DropHash, ShowsNumber;
  }

  lemma SameTail(settings: Settings, p: ImageTransformParameters, q: ImageTransformParameters)
    requires q == p.(preset := None)
    ensures AfterHead(settings, q) == AfterHead(settings, p)
  {
    hide DropHash;
  }

  /** The text determines every field it is made from, given the name of the preset it begins with, if any. */
  lemma TextReadsBack(settings: Settings, p: ImageTransformParameters)
    requires Legible(p) && ShowsNumbers(settings, p)
    ensures ReadText(ParamString(settings, p), if PrintsPreset(settings, p) then p.preset else None)
         == FieldsOf(settings, p)
  {
    hide ReadFields, Split, Pieces, ParamString, FieldsOf, ShowsNumbers;
    if PrintsPreset(settings, p) {
      var rest := p.(preset := None);
      PresetInFront(settings, p);
      WithoutPreset(settings, p);
      PiecesOfText(settings, rest);
      PiecesReadBack(settings, rest);
    } else {
      PiecesOfText(settings, p);
      PiecesReadBack(settings, p);
    }
  }

  /** And whether it begins with a preset's name can be told from the text. */
  lemma PresetPrefixIff(settings: Settings, p: ImageTransformParameters)
    ensures PrintsPreset(settings, p) <==> PRESET_PREFIX <= ParamString(settings, p)
  {
    HeadAndRest(settings, p);
    HeadStart(settings, p);
    TailStartsOtherwise(settings, p);
    hide ParamString, DimensionText, AfterHead, HasDimensions, PrintsPreset;
    assert PRESET_PREFIX[11] == 'p' && PRESET_PREFIX[0] == '_' && PRESET_PREFIX[1] == 't';
    var head, rest := DimensionText(settings, p), AfterHead(settings, p);
    if HasDimensions(p) {
      assert (head + rest)[11] == 'w';
    } else if !PrintsPreset(settings, p) {
      assert head + rest == rest;
    }
  }

  /** What comes after the head does not begin with an underscore and a `t`. */
  lemma TailStartsOtherwise(settings: Settings, p: ImageTransformParameters)
    ensures var rest := AfterHead(settings, p); |rest| > 1 ==> rest[0] != '_' || rest[1] != 't'
  {
    hide DropHash;
    assert FocalText(settings, p) != "" ==> FocalText(settings, p)[1] == 'f';
    assert QualityText(settings, p) != "" ==> QualityText(settings, p)[1] == 'q';
    assert BackgroundText(p) != "" ==> BackgroundText(p)[1] == 'b';
    assert FormatText(p) != "" ==> FormatText(p)[0] != '_';
  }
}
