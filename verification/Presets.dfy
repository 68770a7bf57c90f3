/** Presets: merging the configured ones into the defaults, and what naming one is equivalent to. */
module Presets {
  import opened Text
  import opened Parameters
  import opened ParameterText
  import opened TransformImage

  const DEFAULT_PRESETS: seq<Preset> := [
    Preset("tiny", Finite(50.0), Finite(50.0), Mode.Crop),
    Preset("thumb", Finite(150.0), Finite(150.0), Mode.Crop),
    Preset("small", Finite(300.0), Finite(300.0), Mode.Resize),
    Preset("medium", Finite(500.0), Finite(500.0), Mode.Resize),
    Preset("large", Finite(800.0), Finite(800.0), Mode.Resize)
  ]

  // ---------- merging ----------

  /** `presets.findIndex(p => p.name === name)` */
  function FindIndex(presets: seq<Preset>, name: string): (i: int)
    ensures -1 <= i < |presets|
    ensures i >= 0 ==> presets[i].name == name && forall k | 0 <= k < i :: presets[k].name != name
    ensures i < 0 ==> forall k | 0 <= k < |presets| :: presets[k].name != name
  {
    if presets == [] then -1
    else if presets[0].name == name then 0
    else
      var i := FindIndex(presets[1..], name);
      if i < 0 then -1 else i + 1
  }

  /** Lookup by name gives the preset at that index: the first of its name. */
  lemma {:induction false} LookupIsFirst(presets: seq<Preset>, name: string)
    ensures FindPreset(presets, name)
         == if FindIndex(presets, name) < 0 then None else Some(presets[FindIndex(presets, name)])
  {
    if presets != [] {
      LookupIsFirst(presets[1..], name);
    }
  }

  function MergeOne(presets: seq<Preset>, preset: Preset): seq<Preset> {
    var i := FindIndex(presets, preset.name);
    if i >= 0 then presets[i := preset] else presets + [preset]
  }

  function Merge(defaults: seq<Preset>, user: seq<Preset>): seq<Preset> {
    if user == [] then defaults
    else MergeOne(Merge(defaults, user[..|user| - 1]), user[|user| - 1])
  }

  method ConfigurePresets(defaults: seq<Preset>, user: Option<seq<Preset>>) returns (presets: seq<Preset>)
    ensures presets == Merge(defaults, if user.Some? then user.value else [])
  {
    presets := defaults;
    if user.Some? {
      for n := 0 to |user.value|
        invariant presets == Merge(defaults, user.value[..n])
      {
        var preset := user.value[n];
        var existingIndex := FindIndex(presets, preset.name);
        if -1 < existingIndex {
          presets := presets[..existingIndex] + [preset] + presets[existingIndex + 1..];
        } else {
          presets := presets + [preset];
        }
        assert user.value[..n + 1][..n] == user.value[..n];
      }
      assert user.value[..|user.value|] == user.value;
    }
  }

  predicate UniqueNames(presets: seq<Preset>) {
    forall i, j | 0 <= i < j < |presets| :: presets[i].name != presets[j].name
  }

  predicate HasName(presets: seq<Preset>, name: string) {
    exists k :: 0 <= k < |presets| && presets[k].name == name
  }

  /** The last preset of that name in the list. */
  function LastDefinition(user: seq<Preset>, name: string): Option<Preset> {
    if user == [] then None
    else if user[|user| - 1].name == name then Some(user[|user| - 1])
    else LastDefinition(user[..|user| - 1], name)
  }

  lemma LookupUnique(presets: seq<Preset>, k: int)
    requires 0 <= k < |presets| && UniqueNames(presets)
    ensures FindPreset(presets, presets[k].name) == Some(presets[k])
  {
    if k > 0 {
      assert presets[0].name != presets[k].name;
      assert UniqueNames(presets[1..]);
      LookupUnique(presets[1..], k - 1);
    }
  }

  lemma MergeOneKeepsNames(presets: seq<Preset>, preset: Preset)
    requires UniqueNames(presets)
    ensures var m := MergeOne(presets, preset);
      && UniqueNames(m)
      && |m| >= |presets|
      && (forall k | 0 <= k < |presets| :: m[k].name == presets[k].name)
  {
  }

  lemma MergeOneLaws(presets: seq<Preset>, preset: Preset, name: string)
    requires UniqueNames(presets)
    ensures var m := MergeOne(presets, preset);
      && UniqueNames(m)
      && |m| >= |presets|
      && (forall k | 0 <= k < |presets| :: m[k].name == presets[k].name)
      && (HasName(m, name) <==> HasName(presets, name) || name == preset.name)
      && FindPreset(m, name) == (if name == preset.name then Some(preset) else FindPreset(presets, name))
  {
    MergeOneKeepsNames(presets, preset);
    hide UniqueNames, FindPreset;
    var m := MergeOne(presets, preset);
    var i := FindIndex(presets, preset.name);
    var at := if i >= 0 then i else |presets|;
    assert m[at] == preset;
    assert forall k | 0 <= k < |presets| :: k != i ==> m[k] == presets[k];
    LookupUnique(m, at);
    if name != preset.name {
      var found := FindIndex(presets, name);
      if found >= 0 {
        assert m[found] == presets[found];
        LookupUnique(m, found);
        LookupUnique(presets, found);
        assert HasName(presets, name) && HasName(m, name);
      } else {
        assert forall k | 0 <= k < |m| :: m[k].name != name;
      }
    }
  }

  /** Unique names, default positions kept, exactly the union of the names, and the last definition wins. */
  lemma {:induction false} MergeLaws(defaults: seq<Preset>, user: seq<Preset>, name: string)
    requires UniqueNames(defaults)
    ensures var m := Merge(defaults, user);
      && UniqueNames(m)
      && |m| >= |defaults|
      && (forall k | 0 <= k < |defaults| :: m[k].name == defaults[k].name)
      && (HasName(m, name) <==> HasName(defaults, name) || HasName(user, name))
      && FindPreset(m, name)
           == (var last := LastDefinition(user, name); if last.Some? then last else FindPreset(defaults, name))
    decreases |user|
  {
    if user != [] {
      var n := |user| - 1;
      MergeLaws(defaults, user[..n], name);
      MergeOneLaws(Merge(defaults, user[..n]), user[n], name);
      assert HasName(user, name) <==> HasName(user[..n], name) || user[n].name == name by {
        if HasName(user, name) {
          var k :| 0 <= k < |user| && user[k].name == name;
          assert k == n || user[..n][k] == user[k];
        }
        if HasName(user[..n], name) {
          var k :| 0 <= k < n && user[..n][k].name == name;
          assert user[k].name == name;
        }
      }
    }
  }

  // ---------- records that the cache key can rely on ----------

  /** Both sides of every preset are numbers a parameter record keeps: neither zero nor NaN. */
  predicate SizedPresets(presets: seq<Preset>) {
    forall k | 0 <= k < |presets| :: Truthy(Some(presets[k].width)) && Truthy(Some(presets[k].height))
  }

  lemma DefaultPresetsAreUsable()
    ensures UniqueNames(DEFAULT_PRESETS) && SizedPresets(DEFAULT_PRESETS)
  {
    assert forall i, j | 0 <= i < j < 5 ::
        |DEFAULT_PRESETS[i].name| != |DEFAULT_PRESETS[j].name| || DEFAULT_PRESETS[i].name[0] != DEFAULT_PRESETS[j].name[0]
        || DEFAULT_PRESETS[i].name[1] != DEFAULT_PRESETS[j].name[1];
  }

  /** The presets that come with the plugin, by name, and no others. */
  lemma DefaultPresetSizes()
    ensures FindPreset(DEFAULT_PRESETS, "tiny") == Some(Preset("tiny", Finite(50.0), Finite(50.0), Mode.Crop))
    ensures FindPreset(DEFAULT_PRESETS, "thumb") == Some(Preset("thumb", Finite(150.0), Finite(150.0), Mode.Crop))
    ensures FindPreset(DEFAULT_PRESETS, "small") == Some(Preset("small", Finite(300.0), Finite(300.0), Mode.Resize))
    ensures FindPreset(DEFAULT_PRESETS, "medium") == Some(Preset("medium", Finite(500.0), Finite(500.0), Mode.Resize))
    ensures FindPreset(DEFAULT_PRESETS, "large") == Some(Preset("large", Finite(800.0), Finite(800.0), Mode.Resize))
    ensures |DEFAULT_PRESETS| == 5
  {
    hide FindPreset;
    DefaultPresetsAreUsable();
    LookupUnique(DEFAULT_PRESETS, 0);
    LookupUnique(DEFAULT_PRESETS, 1);
    LookupUnique(DEFAULT_PRESETS, 2);
    LookupUnique(DEFAULT_PRESETS, 3);
    LookupUnique(DEFAULT_PRESETS, 4);
  }

  /** A numeric quality is clamped into the range sharp accepts; only a text that is not a number escapes. */
  lemma QualityIsUsable(settings: Settings, query: Query)
    requires query.q.Some?
    ensures var quality := InitialParameters(settings, query).quality;
      && (NumberOf(settings, query.q) != NaN <==> Truthy(quality))
      && (NumberOf(settings, query.q) != NaN <==> AcceptsQuality(quality))
  {
  }

  /** Numbers absent or truthy, and the color in normal form. */
  predicate TidyNumbers(p: ImageTransformParameters) {
    && (p.width.Some? ==> Truthy(p.width))
    && (p.height.Some? ==> Truthy(p.height))
    && (p.quality.Some? ==> Truthy(p.quality))
    && (p.backgroundColor.Some? ==> IsBackgroundColor(p.backgroundColor.value))
  }

  /** A strategy that, unless it throws, keeps records tidy. */
  ghost predicate KeepsTidy(strategy: Strategy) {
    forall request, p | TidyNumbers(p) && strategy(request, p).Some? :: TidyNumbers(strategy(request, p).value)
  }

  lemma {:induction false} StrategiesKeepTidy(strategies: seq<Strategy>, request: Request, p: ImageTransformParameters)
    requires forall k | 0 <= k < |strategies| :: KeepsTidy(strategies[k])
    requires TidyNumbers(p)
    ensures ApplyStrategies(strategies, request, p).Some? ==> TidyNumbers(ApplyStrategies(strategies, request, p).value)
    decreases |strategies|
  {
    if strategies != [] {
      StrategiesKeepTidy(strategies[..|strategies| - 1], request, p);
      assert KeepsTidy(strategies[|strategies| - 1]);
    }
  }

  /** Every request that no strategy refuses yields a tidy record, given a numeric quality and presets with a size. */
  lemma RequestsAreTidy(settings: Settings, request: Request)
    requires forall k | 0 <= k < |settings.strategies| :: KeepsTidy(settings.strategies[k])
    requires SizedPresets(settings.presets)
    requires request.query.q.Some? ==> NumberOf(settings, request.query.q) != NaN
    ensures settings.strategies == [] ==> TransformParameters(settings, request).Some?
    ensures TransformParameters(settings, request).Some? ==> Tidy(settings, TransformParameters(settings, request).value)
  {
    var initial := InitialParameters(settings, request.query);
    if request.query.q.Some? {
      QualityIsUsable(settings, request.query);
    }
    StrategiesKeepTidy(settings.strategies, request, initial);
  }

  // ---------- the preset-only strategy ----------

  datatype PermittedColors = NoColors | AnyColor | Listed(matches: string -> bool)

  datatype PresetOnlyOptions = PresetOnlyOptions(defaultPreset: string, permittedQuality: seq<Number>,
                                                 permittedFormats: seq<string>, allowFocalPoint: bool,
                                                 permittedColors: PermittedColors)

  function PermittedColor(permitted: PermittedColors, color: Option<string>): Option<string> {
    if color.None? || color.value == "" then None
    else match permitted
      case NoColors => None
      case AnyColor => color
      case Listed(matches) => if matches(color.value) then color else None
  }

  function PresetOnly(presets: seq<Preset>, options: PresetOnlyOptions): Strategy {
    (request: Request, input: ImageTransformParameters) =>
      var name := if input.preset.Some? then input.preset.value else options.defaultPreset;
      match FindPreset(presets, name)
      case None => None
      case Some(preset) => Some(ImageTransformParameters(
        Some(preset.width), Some(preset.height), Some(preset.mode),
        if Truthy(input.quality) && input.quality.value in options.permittedQuality then input.quality else None,
        if input.format.Some? && input.format.value in options.permittedFormats then input.format else None,
        if options.allowFocalPoint then input.fpx else None,
        if options.allowFocalPoint then input.fpy else None,
        input.preset,
        PermittedColor(options.permittedColors, input.backgroundColor)))
  }

  /** What it lets through: a known preset's size, and of the rest what is given and permitted. */
  lemma PresetOnlyFilters(presets: seq<Preset>, options: PresetOnlyOptions, request: Request,
                          input: ImageTransformParameters)
    ensures var name := if input.preset.Some? then input.preset.value else options.defaultPreset;
      PresetOnly(presets, options)(request, input) == None <==> forall k | 0 <= k < |presets| :: presets[k].name != name
    ensures PresetOnly(presets, options)(request, input).Some? ==>
              var p := PresetOnly(presets, options)(request, input).value;
              && p.preset == input.preset
              && (p.quality.Some? <==> Truthy(input.quality) && input.quality.value in options.permittedQuality)
              && (p.quality.Some? ==> p.quality == input.quality)
              && (p.format.Some? <==> input.format.Some? && input.format.value in options.permittedFormats)
              && (p.format.Some? ==> p.format == input.format)
              && (options.allowFocalPoint ==> p.fpx == input.fpx && p.fpy == input.fpy)
              && (!options.allowFocalPoint ==> p.fpx == None && p.fpy == None)
              && (p.backgroundColor.Some? ==> p.backgroundColor == input.backgroundColor)
              && (options.permittedColors == AnyColor && HasBackground(input) ==> p.backgroundColor.Some?)
              && (options.permittedColors == NoColors ==> p.backgroundColor == None)
  {
  }

  predicate HasPresetSize(presets: seq<Preset>, p: ImageTransformParameters) {
    exists k :: 0 <= k < |presets| && p.width == Some(presets[k].width) && p.height == Some(presets[k].height)
                && p.mode == Some(presets[k].mode)
  }

  /** With it as the last strategy, no transform has any other size or mode than those of a configured preset. */
  lemma PresetOnlyPermitsPresetsOnly(settings: Settings, others: seq<Strategy>, options: PresetOnlyOptions,
                                     request: Request)
    requires settings.strategies == others + [PresetOnly(settings.presets, options)]
    ensures TransformParameters(settings, request).Some? ==>
              HasPresetSize(settings.presets, TransformParameters(settings, request).value)
  {
    var initial := InitialParameters(settings, request.query);
    assert settings.strategies[..|others|] == others;
    var before := ApplyStrategies(others, request, initial);
    var applied := ApplyStrategies(settings.strategies, request, initial);
    if applied.Some? {
      var name := if before.value.preset.Some? then before.value.preset.value else options.defaultPreset;
      var found := FindPreset(settings.presets, name).value;
      var k :| 0 <= k < |settings.presets| && settings.presets[k] == found;
      if NamedPreset(settings.presets, applied.value.preset).Some? {
        var named := NamedPreset(settings.presets, applied.value.preset).value;
        var j :| 0 <= j < |settings.presets| && settings.presets[j] == named;
      }
    }
  }

  lemma PresetOnlyKeepsTidy(presets: seq<Preset>, options: PresetOnlyOptions)
    requires SizedPresets(presets)
    ensures KeepsTidy(PresetOnly(presets, options))
  {
    var strategy := PresetOnly(presets, options);
    forall request, p | TidyNumbers(p) && strategy(request, p).Some?
      ensures TidyNumbers(strategy(request, p).value)
    {
      var name := if p.preset.Some? then p.preset.value else options.defaultPreset;
      var preset := FindPreset(presets, name).value;
      var k :| 0 <= k < |presets| && presets[k] == preset;
    }
  }

  // ---------- naming a preset ----------

  /** The query that spells a preset out instead of naming it, keeping everything else. */
  predicate SpellsOut(settings: Settings, preset: Preset, named: Query, spelled: Query) {
    && NumberOf(settings, spelled.w) == preset.width && NumberOf(settings, spelled.h) == preset.height
    && (spelled.mode == Some("resize") <==> preset.mode == Mode.Resize)
    && NamedPreset(settings.presets, spelled.preset).None?
    && spelled.q == named.q && spelled.fpx == named.fpx && spelled.fpy == named.fpy
    && spelled.format == named.format && spelled.bg == named.bg
  }

  /** A side that survives rounding: neither fractional, nor zero, nor NaN. */
  predicate WholeSide(side: Number) {
    Truthy(Some(side)) && MathRound(side) == side
  }

  /** What the two requests amount to differs in the preset's name and in what rounding does to its sides. */
  lemma NamedAndSpelled(settings: Settings, preset: Preset, name: string, named: Request, spelled: Request)
    requires settings.strategies == [] && name != ""
    requires FindPreset(settings.presets, name) == Some(preset) && named.query.preset == Some(name)
    requires SpellsOut(settings, preset, named.query, spelled.query)
    ensures TransformParameters(settings, named).Some? && TransformParameters(settings, spelled).Some?
    ensures var p1, p2 := TransformParameters(settings, named).value, TransformParameters(settings, spelled).value;
      && p1.width == Some(preset.width) && p1.height == Some(preset.height)
      && p2.width == OrUndefined(MathRound(preset.width)) && p2.height == OrUndefined(MathRound(preset.height))
      && p1 == p2.(preset := p1.preset, width := p1.width, height := p1.height)
  {
    hide GetValidBackgroundColor;
  }

  /**
   * Naming a preset makes every image as spelling it out does, whatever w, h and mode came along, exactly when its
   * sides are whole; then the parameter text is the same too.
   */
  lemma PresetEquivalenceIff(settings: Settings, name: string, preset: Preset, named: Request, spelled: Request)
    requires settings.strategies == [] && name != ""
    requires FindPreset(settings.presets, name) == Some(preset) && named.query.preset == Some(name)
    requires SpellsOut(settings, preset, named.query, spelled.query)
    ensures TransformParameters(settings, named).Some? && TransformParameters(settings, spelled).Some?
    ensures var p1, p2 := TransformParameters(settings, named).value, TransformParameters(settings, spelled).value;
      && (Follows(p1, p2) <==> WholeSide(preset.width) && WholeSide(preset.height))
      && (WholeSide(preset.width) && WholeSide(preset.height) ==>
            && ParamString(settings, p1) == ParamString(settings, p2)
            && GetValidFormat(p1.format) == GetValidFormat(p2.format)
            && forall sharp: Sharp, source: Buffer :: Transformed(sharp, source, p1) == Transformed(sharp, source, p2))
  {
    hide ParamString, Transformed, TransformParameters, FollowsOn, SpellsOut, FindPreset, PipelineOps;
    NamedAndSpelled(settings, preset, name, named, spelled);
    var p1, p2 := TransformParameters(settings, named).value, TransformParameters(settings, spelled).value;
    if WholeSide(preset.width) && WholeSide(preset.height) {
      PresetIsNotPrinted(settings, p2, p1.preset);
      forall sharp: Sharp, source: Buffer
        ensures Transformed(sharp, source, p1) == Transformed(sharp, source, p2)
      {
        PresetIsNotConsulted(sharp, source, p2, p1.preset);
      }
      forall m: Option<Metadata>
        ensures FollowsOn(m, p1, p2)
      {
        PresetNeverMatters(m, p2, p1.preset);
      }
    }
    if Follows(p1, p2) {
      assert FollowsOn(Some(SIZELESS), p1, p2);
      FollowingSides(p1, p2);
    }
  }

  lemma PresetNeverMatters(m: Option<Metadata>, p: ImageTransformParameters, preset: Option<string>)
    ensures FollowsOn(m, p.(preset := preset), p)
  {
    hide FocalOps, EncodeOps;
    PipelineIsNotEmpty(m, p);
  }

  lemma FollowingSides(p1: ImageTransformParameters, p2: ImageTransformParameters)
    requires FollowsOn(Some(SIZELESS), p1, p2)
    ensures p1.width == p2.width && p1.height == p2.height
  {
    hide StartOps, PipelineOps;
    SizelessPipeline(p1);
    SizelessPipeline(p2);
  }

  lemma PresetIsNotPrinted(settings: Settings, p: ImageTransformParameters, preset: Option<string>)
    requires HasDimensions(p)
    ensures ParamString(settings, p.(preset := preset)) == ParamString(settings, p)
  {
  }

  /** A preset's name is printed exactly for presets with two falsy sides: any other gives its record dimensions. */
  lemma PresetNameIsPrintedIff(settings: Settings, request: Request, preset: Preset)
    requires TransformParameters(settings, request).Some?
    requires NamedPreset(settings.presets, TransformParameters(settings, request).value.preset) == Some(preset)
    ensures PrintsPreset(settings, TransformParameters(settings, request).value)
       <==> !Truthy(Some(preset.width)) && !Truthy(Some(preset.height))
  {
    hide GetValidBackgroundColor, ApplyStrategies;
  }
}
