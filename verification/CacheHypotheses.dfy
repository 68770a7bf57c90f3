/** When requests that share a cache key are coherent, whatever is stored and whatever the library: what to check. */
module CacheHypotheses {
  import opened Text
  import opened Paths
  import opened Sanitizer
  import opened Parameters
  import opened ParameterText
  import opened TransformImage
  import opened Presets
  import opened CacheProtocol

  // ---------- coherence for every store and image library ----------

  /** The same server with another image library; its keys are the same. */
  function WithLibrary(server: Server, sharp: Sharp): Server {
    server.(sharp := sharp)
  }

  lemma KeysIgnoreLibrary(server: Server, sharp: Sharp, r: Request)
    ensures var other := WithLibrary(server, sharp);
      && ParametersOf(other, r) == ParametersOf(server, r) && SourcePlace(other, r) == SourcePlace(server, r)
      && AsksForTransform(other, r) == AsksForTransform(server, r)
      && PlacedRequest(other, r) == PlacedRequest(server, r)
      && (ParametersOf(server, r).Some? ==>
            KeyPlace(other, r) == KeyPlace(server, r) && TargetPlace(other, r) == TargetPlace(server, r))
  {
    hide SanitizeFilePath, TransformParameters, ParamString, CachePath, Backend.ReadPlace, Backend.WritePlace, IsHash;
  }

  ghost predicate AlwaysCoherent(server: Server, a: Request, b: Request) {
    forall sources: Store, sharp: Sharp | PlacedSources(server.backend, sources) && SizelessResizeIgnoresFit(sharp) ::
      CoherentPair(WithLibrary(server, sharp), sources, false, a, b)
  }

  /** The key of the first is not the second's source, and if it is its key, they read one source alike. */
  ghost predicate KeyIsFaithful(server: Server, a: Request, b: Request)
    requires ParametersOf(server, a).Some? && ParametersOf(server, b).Some?
  {
    && SourcePlace(server, b) != KeyPlace(server, a)
    && (KeyPlace(server, b) == KeyPlace(server, a) ==>
          && SourcePlace(server, b) == SourcePlace(server, a)
          && Follows(ParametersOf(server, a).value, ParametersOf(server, b).value))
  }

  lemma FaithfulIsCoherent(server: Server, sources: Store, a: Request, b: Request)
    requires PlacedRequest(server, a) && AsksForTransform(server, a) && ParametersOf(server, b).Some?
    requires PlacedSources(server.backend, sources) && SizelessResizeIgnoresFit(server.sharp)
    requires KeyIsFaithful(server, a, b)
    ensures CoherentPair(server, sources, false, a, b)
  {
    hide ParametersOf, KeyPlace, SourcePlace, TargetPlace, ParamString, Transformed, AllowsCaching, PlacedRequest,
         Follows, SizelessResizeIgnoresFit;
    KeyPlacement(server, a);
    assert KeyPlace(server, a) in sources ==> server.backend.MayHoldSource(KeyPlace(server, a));
    if Writes(server, sources, false, a) && KeyPlace(server, b) == KeyPlace(server, a) {
      FollowingImage(server.sharp, sources[SourcePlace(server, a)], ParametersOf(server, a).value,
                     ParametersOf(server, b).value);
    }
  }

  /** A store of one file and a library that show a key unfaithful. */
  lemma UnfaithfulIsIncoherent(server: Server, a: Request, b: Request) returns (sources: Store, sharp: Sharp)
    requires PlacedRequest(server, a) && AsksForTransform(server, a) && AllowsCaching(a.query)
    requires ParametersOf(server, b).Some? && server.backend.MayHoldSource(SourcePlace(server, a))
    requires !KeyIsFaithful(server, a, b)
    ensures PlacedSources(server.backend, sources) && SizelessResizeIgnoresFit(sharp)
    ensures !CoherentPair(WithLibrary(server, sharp), sources, false, a, b)
  {
    hide ParametersOf, KeyPlace, SourcePlace, TargetPlace, ParamString, Transformed, AllowsCaching, PlacedRequest,
         SizelessResizeIgnoresFit, PipelineOps, WithLibrary;
    var p, q := ParametersOf(server, a).value, ParametersOf(server, b).value;
    sources := map[SourcePlace(server, a) := [1]];
    KeyPlacement(server, a);
    if KeyPlace(server, b) == KeyPlace(server, a) && !Follows(p, q) {
      var m :| !FollowsOn(m, p, q);
      sharp := TellingLibrary(m, [1], p, q);
    } else {
      sharp := MakingLibrary(p, [1]);
    }
    UnfaithfulPair(server, sharp, sources, a, b);
  }

  /** A library that makes an image of these parameters. */
  lemma MakingLibrary(p: ImageTransformParameters, source: Buffer) returns (sharp: Sharp)
    ensures SizelessResizeIgnoresFit(sharp) && Transformed(sharp, source, p) == Some([1])
  {
    hide StartOps;
    SizelessPipeline(p);
    var ops := PipelineOps(Some(SIZELESS), p).value;
    hide PipelineOps;
    OnlyMakesIgnoresFit(Some(SIZELESS), ops);
    sharp := OnlyMakes(Some(SIZELESS), ops);
    hide SizelessResizeIgnoresFit;
  }

  lemma UnfaithfulPair(server: Server, sharp: Sharp, sources: Store, a: Request, b: Request)
    requires PlacedRequest(server, a) && AsksForTransform(server, a) && AllowsCaching(a.query)
    requires ParametersOf(server, b).Some? && server.backend.MayHoldSource(SourcePlace(server, a))
    requires sources == map[SourcePlace(server, a) := [1]]
    requires Transformed(sharp, [1], ParametersOf(server, a).value) == Some([1])
    requires || SourcePlace(server, b) == KeyPlace(server, a)
             || (KeyPlace(server, b) == KeyPlace(server, a)
                 && (|| SourcePlace(server, b) != SourcePlace(server, a)
                     || Transformed(sharp, [1], ParametersOf(server, b).value) != Some([1])))
    ensures !CoherentPair(WithLibrary(server, sharp), sources, false, a, b)
  {
    var other := WithLibrary(server, sharp);
    KeysIgnoreLibrary(server, sharp, a);
    KeysIgnoreLibrary(server, sharp, b);
    hide ParametersOf, KeyPlace, SourcePlace, TargetPlace, ParamString, Transformed, AllowsCaching, PlacedRequest,
         Backend.InCache;
    KeyPlacement(server, a);
    assert other.sharp == sharp;
    hide WithLibrary;
    assert Image(other, sources, a) == Some([1]);
    assert KeyPlace(server, a) !in sources;
  }

  /**
   * Exactly: a transform that may be cached and another request are coherent for every store and image library if and
   * only if the first one's key is faithful to the second.
   */
  lemma AlwaysCoherentIff(server: Server, a: Request, b: Request)
    requires PlacedRequest(server, a) && AsksForTransform(server, a) && AllowsCaching(a.query)
    requires ParametersOf(server, b).Some? && server.backend.MayHoldSource(SourcePlace(server, a))
    ensures AlwaysCoherent(server, a, b) <==> KeyIsFaithful(server, a, b)
  {
    hide CoherentPair, KeyIsFaithful, PlacedRequest, AsksForTransform, SizelessResizeIgnoresFit;
    if KeyIsFaithful(server, a, b) {
      forall sources: Store, sharp: Sharp | PlacedSources(server.backend, sources) && SizelessResizeIgnoresFit(sharp)
        ensures CoherentPair(WithLibrary(server, sharp), sources, false, a, b)
      {
        FaithfulWithLibrary(server, sharp, a, b);
        FaithfulIsCoherent(WithLibrary(server, sharp), sources, a, b);
      }
    } else {
      var sources, sharp := UnfaithfulIsIncoherent(server, a, b);
    }
  }

  lemma FaithfulWithLibrary(server: Server, sharp: Sharp, a: Request, b: Request)
    requires PlacedRequest(server, a) && AsksForTransform(server, a)
    requires ParametersOf(server, b).Some? && KeyIsFaithful(server, a, b)
    ensures var other := WithLibrary(server, sharp);
      && other.backend == server.backend && other.sharp == sharp
      && PlacedRequest(other, a) && AsksForTransform(other, a)
      && ParametersOf(other, b).Some? && KeyIsFaithful(other, a, b)
  {
    KeysIgnoreLibrary(server, sharp, a);
    KeysIgnoreLibrary(server, sharp, b);
    hide ParametersOf, KeyPlace, SourcePlace, ParamString, PlacedRequest, Follows;
  }

  // ---------- what a caller can check ----------

  /** A transform as the key expects it: legible, numbers in recognizable text, and a straight path. */
  predicate Regular(server: Server, request: Request) {
    && ParametersOf(server, request).Some?
    && Legible(ParametersOf(server, request).value)
    && ShowsNumbers(server.settings, ParametersOf(server, request).value)
    && Straight(server.backend, PathOf(server, request))
  }

  function TextOf(server: Server, request: Request): string
    requires ParametersOf(server, request).Some?
  {
    ParamString(server.settings, ParametersOf(server, request).value)
  }

  function FormatOf(server: Server, request: Request): Option<string>
    requires ParametersOf(server, request).Some?
  {
    GetValidFormat(ParametersOf(server, request).value.format)
  }

  /**
   * What is assumed of two requests: different numbers print differently, texts do not collide under md5, and one text
   * does not come about from the names of two presets.
   */
  predicate Distinguishable(server: Server, a: Request, b: Request)
    requires ParametersOf(server, a).Some? && ParametersOf(server, b).Some?
  {
    && NumbersApart(server.settings, ParametersOf(server, a).value, ParametersOf(server, b).value)
    && (server.md5(TextOf(server, a)) == server.md5(TextOf(server, b)) ==> TextOf(server, a) == TextOf(server, b))
    && (TextOf(server, a) == TextOf(server, b) ==>
          SamePrintedPreset(server.settings, ParametersOf(server, a).value, ParametersOf(server, b).value))
  }

  /** Same directory, stem and parameter text, and the same extension unless a format is set. */
  predicate SameKeyParts(server: Server, a: Request, b: Request)
    requires ParametersOf(server, a).Some? && ParametersOf(server, b).Some?
  {
    && Directory(PathOf(server, a)) == Directory(PathOf(server, b))
    && Stem(PathOf(server, a)) == Stem(PathOf(server, b))
    && TextOf(server, a) == TextOf(server, b)
    && (FormatOf(server, a).Some? || Extname(PathOf(server, a)) == Extname(PathOf(server, b)))
  }

  /** Exactly when two transform requests share a key. */
  lemma SharedKeyIff(server: Server, a: Request, b: Request)
    requires PlacedRequest(server, a) && PlacedRequest(server, b)
    requires Regular(server, a) && Regular(server, b) && Distinguishable(server, a, b)
    requires AsksForTransform(server, a) && AsksForTransform(server, b)
    ensures KeyPlace(server, a) == KeyPlace(server, b) <==> SameKeyParts(server, a, b)
  {
    hide PathOf, TextOf, FormatOf, CachePath, ParametersOf, IsHash, Directory, Stem, Extname, EffectiveExtension,
         Grounded, StaysBelow, NumbersApart, KeyPlace, Straight, Legible, ShowsNumbers;
    KeyPlaceOfTransform(server, a);
    KeyPlaceOfTransform(server, b);
    var pa, pb := PathOf(server, a), PathOf(server, b);
    CachePathInjective(server.backend, pa, server.md5(TextOf(server, a)), FormatOf(server, a),
                       pb, server.md5(TextOf(server, b)), FormatOf(server, b));
    if TextOf(server, a) == TextOf(server, b) {
      SameTextSameFormat(server, a, b);
      SameEffectiveExtension(pa, pb, FormatOf(server, a));
    }
  }

  lemma KeyPlaceOfTransform(server: Server, r: Request)
    requires PlacedRequest(server, r) && AsksForTransform(server, r)
    ensures KeyPlace(server, r)
         == server.backend.ReadPlace(CachePath(PathOf(server, r), server.md5(TextOf(server, r)), FormatOf(server, r)))
    ensures IsHash(server.md5(TextOf(server, r))) && Grounded(PathOf(server, r))
    ensures IsExtensionText(FormatOf(server, r))
  {
    hide SanitizeFilePath, CachePath, ParamString, TransformParameters, IsHash, Backend.ReadPlace, StaysBelow;
    EmptyPathIsGrounded();
  }

  lemma SameTextSameFormat(server: Server, a: Request, b: Request)
    requires Regular(server, a) && Regular(server, b) && Distinguishable(server, a, b)
    requires TextOf(server, a) == TextOf(server, b)
    ensures FormatOf(server, a) == FormatOf(server, b)
  {
    hide Legible, ShowsNumbers, NumbersApart, ParamString, ParametersOf, Straight, SamePrintedPreset;
    SameTextSamePrintedIff(server.settings, ParametersOf(server, a).value, ParametersOf(server, b).value);
  }

  predicate OutsideCache(server: Server, request: Request) {
    !server.backend.InCache(SourcePlace(server, request))
  }

  /** Requests that share a key agree on what it drops: the extension, where a format is set, and what is not printed. */
  predicate AgreeOnKey(server: Server, a: Request, b: Request)
    requires ParametersOf(server, a).Some? && ParametersOf(server, b).Some?
  {
    SameKeyParts(server, a, b) ==>
      && Extname(PathOf(server, a)) == Extname(PathOf(server, b))
      && SameUnprinted(ParametersOf(server, a).value, ParametersOf(server, b).value)
  }

  /** For regular requests faithfulness of the key can be checked without rendering anything. */
  lemma FaithfulIffAgree(server: Server, a: Request, b: Request)
    requires PlacedRequest(server, a) && PlacedRequest(server, b)
    requires AsksForTransform(server, a) && AsksForTransform(server, b)
    requires Regular(server, a) && Regular(server, b) && Distinguishable(server, a, b)
    requires OutsideCache(server, b)
    ensures KeyIsFaithful(server, a, b) <==> AgreeOnKey(server, a, b)
  {
    hide ParametersOf, KeyPlace, SourcePlace, ParamString, PlacedRequest, Follows, Legible, ShowsNumbers, NumbersApart,
         Straight, Directory, Stem, Extname, PathOf, SameUnprinted;
    KeyPlacement(server, a);
    SharedKeyIff(server, a, b);
    if SameKeyParts(server, a, b) {
      SamePlaceIff(server.backend, PathOf(server, a), PathOf(server, b));
      SourcePlaces(server, a, b);
      ParamStringDeterminesImageIff(server.settings, ParametersOf(server, a).value, ParametersOf(server, b).value);
    }
  }

  lemma SourcePlaces(server: Server, a: Request, b: Request)
    ensures SourcePlace(server, a) == server.backend.ReadPlace(PathOf(server, a))
    ensures SourcePlace(server, b) == server.backend.ReadPlace(PathOf(server, b))
  {
  }

  /**
   * Exactly: two regular transforms, the first of which may be cached, are coherent for every store and image library
   * if and only if they agree on what their key drops.
   */
  lemma RegularCoherentIff(server: Server, a: Request, b: Request)
    requires PlacedRequest(server, a) && PlacedRequest(server, b)
    requires AsksForTransform(server, a) && AsksForTransform(server, b) && AllowsCaching(a.query)
    requires Regular(server, a) && Regular(server, b) && Distinguishable(server, a, b)
    requires OutsideCache(server, b) && server.backend.MayHoldSource(SourcePlace(server, a))
    ensures AlwaysCoherent(server, a, b) <==> AgreeOnKey(server, a, b)
  {
    hide AlwaysCoherent, KeyIsFaithful, AgreeOnKey, PlacedRequest, Regular, Distinguishable;
    AlwaysCoherentIff(server, a, b);
    FaithfulIffAgree(server, a, b);
  }

  // ---------- what breaks without each hypothesis ----------

  /** A trailing slash always breaks coherence: the key drops it, storage does not. */
  lemma TrailingSlashBreaks(server: Server, a: Request, b: Request)
    requires PlacedRequest(server, a) && AsksForTransform(server, a) && AllowsCaching(a.query)
    requires server.backend.MayHoldSource(SourcePlace(server, a)) && ParametersOf(server, b).Some?
    requires Straight(server.backend, PathOf(server, a)) && PathOf(server, a) != ""
    requires PathOf(server, b) == PathOf(server, a) + "/"
    requires TextOf(server, a) == TextOf(server, b) && FormatOf(server, a) == FormatOf(server, b)
    ensures KeyPlace(server, b) == KeyPlace(server, a) && !AlwaysCoherent(server, a, b)
  {
    hide ParametersOf, ParamString, PlacedRequest, AlwaysCoherent, Follows, PathOf, Straight, CachePath, JoinPath,
         Backend.ReadPlace, Dirname, Stem, Extname;
    TrailingSlashIsElsewhere(server.backend, PathOf(server, a));
    assert !EndsWithSlash(PathOf(server, a)) by {
      StraightEnds(server.backend, PathOf(server, a));
    }
    TrailingSlashIsDropped(PathOf(server, a));
    SameCachePath(PathOf(server, a), PathOf(server, b), server.md5(TextOf(server, a)), FormatOf(server, a));
    AlwaysCoherentIff(server, a, b);
  }

  lemma StraightEnds(backend: Backend, p: string)
    requires Straight(backend, p)
    ensures !EndsWithSlash(p)
  {
  }

  lemma SameCachePath(p: string, q: string, hash: string, ext: Option<string>)
    requires Dirname(p) == Dirname(q) && Stem(p) == Stem(q) && (ext.Some? || Extname(p) == Extname(q))
    requires IsExtensionText(ext)
    ensures CachePath(p, hash, ext) == CachePath(q, hash, ext)
  {
    hide Dirname, Stem, Extname, JoinPath;
  }

  /** So does a second leading slash on S3. */
  lemma SecondSlashBreaks(server: Server, a: Request, b: Request)
    requires server.backend.S3? && PlacedRequest(server, a) && AsksForTransform(server, a) && AllowsCaching(a.query)
    requires server.backend.MayHoldSource(SourcePlace(server, a)) && PlacedRequest(server, b)
    requires Straight(S3, PathOf(server, a)) && IsAbsolute(PathOf(server, a))
    requires PathOf(server, b) == "/" + PathOf(server, a) && AsksForTransform(server, b)
    requires TextOf(server, a) == TextOf(server, b) && FormatOf(server, a) == FormatOf(server, b)
    ensures KeyPlace(server, b) == KeyPlace(server, a) && !AlwaysCoherent(server, a, b)
  {
    hide ParametersOf, ParamString, PlacedRequest, AlwaysCoherent, Follows, PathOf, StaysBelow, CachePath, Directory,
         Backend.ReadPlace, Stem, Extname, TextOf, FormatOf, KeyPlace, AsksForTransform, EffectiveExtension, IsHash,
         Grounded;
    var p, q := PathOf(server, a), PathOf(server, b);
    SecondSlashIsElsewhere(p);
    SecondSlashIsDropped(p);
    KeyPlaceOfTransform(server, a);
    KeyPlaceOfTransform(server, b);
    SameEffectiveExtension(p, q, FormatOf(server, a));
    CachePathInjective(S3, p, server.md5(TextOf(server, a)), FormatOf(server, a),
                       q, server.md5(TextOf(server, b)), FormatOf(server, b));
    AlwaysCoherentIff(server, a, b);
  }

  /** And a path that climbs above the bucket's root. */
  lemma ClimbingBreaks(server: Server, a: Request, b: Request)
    requires server.backend.S3? && PlacedRequest(server, a) && AsksForTransform(server, a) && AllowsCaching(a.query)
    requires server.backend.MayHoldSource(SourcePlace(server, a)) && PlacedRequest(server, b)
    requires Straight(S3, PathOf(server, a)) && Extname(PathOf(server, a)) != ""
    requires !StaysBelow(PathOf(server, b)) && AsksForTransform(server, b)
    requires SameKeyParts(server, a, b) && FormatOf(server, a) == FormatOf(server, b)
    ensures KeyPlace(server, b) == KeyPlace(server, a) && !AlwaysCoherent(server, a, b)
  {
    hide ParametersOf, ParamString, PlacedRequest, AlwaysCoherent, Follows, PathOf, StaysBelow, CachePath, Directory,
         Backend.ReadPlace, Stem, Extname, TextOf, FormatOf, KeyPlace, AsksForTransform, EffectiveExtension, IsHash,
         Grounded;
    var p, q := PathOf(server, a), PathOf(server, b);
    ClimbingIsElsewhere(p, q);
    KeyPlaceOfTransform(server, a);
    KeyPlaceOfTransform(server, b);
    SameEffectiveExtension(p, q, FormatOf(server, a));
    CachePathInjective(S3, p, server.md5(TextOf(server, a)), FormatOf(server, a),
                       q, server.md5(TextOf(server, b)), FormatOf(server, b));
    AlwaysCoherentIff(server, a, b);
  }

  /** A path below `cache/` that is the key of a transform always breaks coherence with it. */
  lemma CachedPathBreaks(server: Server, a: Request, b: Request)
    requires PlacedRequest(server, a) && AsksForTransform(server, a) && AllowsCaching(a.query)
    requires server.backend.MayHoldSource(SourcePlace(server, a)) && ParametersOf(server, b).Some?
    requires SourcePlace(server, b) == KeyPlace(server, a)
    ensures !AlwaysCoherent(server, a, b)
  {
    hide ParametersOf, AlwaysCoherent, PlacedRequest, AsksForTransform, Follows, KeyPlace, SourcePlace;
    AlwaysCoherentIff(server, a, b);
  }

  /** A quality that is not a number breaks coherence exactly for formats whose encoder is given the quality. */
  lemma BadQualityBreaksIff(server: Server, a: Request, b: Request)
    requires PlacedRequest(server, a) && AsksForTransform(server, a) && AllowsCaching(a.query)
    requires server.backend.MayHoldSource(SourcePlace(server, a)) && Regular(server, a)
    requires PathOf(server, b) == PathOf(server, a) && ParametersOf(server, a).value.quality.None?
    requires ParametersOf(server, b) == Some(ParametersOf(server, a).value.(quality := Some(NaN)))
    ensures KeyPlace(server, b) == KeyPlace(server, a)
    ensures AlwaysCoherent(server, a, b) <==> !IsLossy(ParametersOf(server, a).value.format)
  {
    hide ParametersOf, PathOf, AlwaysCoherent, Straight, PlacedRequest, AsksForTransform, Follows, CachePath,
         Backend.ReadPlace;
    var p, q := ParametersOf(server, a).value, ParametersOf(server, b).value;
    assert ParamString(server.settings, p) == ParamString(server.settings, q);
    UnprintedDecides(server, a, b);
  }

  /** A preset side that is zero or not a number always breaks coherence with a request that does not give the side. */
  lemma UnsizedSideBreaks(server: Server, a: Request, b: Request, width: Option<Number>, height: Option<Number>)
    requires PlacedRequest(server, a) && AsksForTransform(server, a) && AllowsCaching(a.query)
    requires server.backend.MayHoldSource(SourcePlace(server, a)) && Regular(server, a)
    requires PathOf(server, b) == PathOf(server, a)
    requires ParametersOf(server, b) == Some(ParametersOf(server, a).value.(width := width, height := height))
    requires var p := ParametersOf(server, a).value;
      && (width == p.width || (!Truthy(width) && !Truthy(p.width)))
      && (height == p.height || (!Truthy(height) && !Truthy(p.height)))
      && (width != p.width || height != p.height)
    ensures KeyPlace(server, b) == KeyPlace(server, a) && !AlwaysCoherent(server, a, b)
  {
    hide ParametersOf, PathOf, AlwaysCoherent, Straight, PlacedRequest, AsksForTransform, Follows, CachePath,
         Backend.ReadPlace;
    var p, q := ParametersOf(server, a).value, ParametersOf(server, b).value;
    FalsySidesAreNotPrinted(server.settings, p, width, height);
    hide ParamString, NamedPreset;
    UnprintedDecides(server, a, b);
  }

  lemma FalsySidesAreNotPrinted(settings: Settings, p: ImageTransformParameters, width: Option<Number>,
                                height: Option<Number>)
    requires width == p.width || (!Truthy(width) && !Truthy(p.width))
    requires height == p.height || (!Truthy(height) && !Truthy(p.height))
    ensures ParamString(settings, p.(width := width, height := height)) == ParamString(settings, p)
  {
    hide NamedPreset;
    var q := p.(width := width, height := height);
    assert DimensionText(settings, p) == DimensionText(settings, q);
  }

  /** With one path and one text, coherence is a matter of what the text leaves out. */
  lemma UnprintedDecides(server: Server, a: Request, b: Request)
    requires PlacedRequest(server, a) && AsksForTransform(server, a) && AllowsCaching(a.query)
    requires server.backend.MayHoldSource(SourcePlace(server, a)) && ParametersOf(server, b).Some?
    requires PathOf(server, b) == PathOf(server, a) && TextOf(server, a) == TextOf(server, b)
    requires FormatOf(server, a) == FormatOf(server, b)
    requires var p, q := ParametersOf(server, a).value, ParametersOf(server, b).value;
      && Legible(p) && Legible(q) && SamePrintedPreset(server.settings, p, q)
      && ShowsNumbers(server.settings, p) && ShowsNumbers(server.settings, q) && NumbersApart(server.settings, p, q)
    ensures KeyPlace(server, b) == KeyPlace(server, a)
    ensures AlwaysCoherent(server, a, b) <==>
              SameUnprinted(ParametersOf(server, a).value, ParametersOf(server, b).value)
  {
    hide ParametersOf, ParamString, PlacedRequest, AlwaysCoherent, Follows, PathOf, CachePath, Backend.ReadPlace,
         Legible, ShowsNumbers, NumbersApart, SameUnprinted;
    AlwaysCoherentIff(server, a, b);
    ParamStringDeterminesImageIff(server.settings, ParametersOf(server, a).value, ParametersOf(server, b).value);
    assert KeyPlace(server, b) == KeyPlace(server, a);
    KeyPlacement(server, a);
  }

  // ---------- the main theorems ----------

  /** Of two requests: what a transform that may be cached asks of the others. */
  predicate WellFormedPair(server: Server, a: Request, b: Request) {
    AsksForTransform(server, a) && AllowsCaching(a.query) && ParametersOf(server, b).Some? ==>
      && OutsideCache(server, b)
      && (AsksForTransform(server, b) ==>
            && Regular(server, a) && Regular(server, b) && Distinguishable(server, a, b) && AgreeOnKey(server, a, b))
  }

  predicate WellFormedRequests(server: Server, requests: seq<Request>) {
    forall i, j | 0 <= i < |requests| && 0 <= j < |requests| :: WellFormedPair(server, requests[i], requests[j])
  }

  lemma WellFormedIsFaithful(server: Server, a: Request, b: Request)
    requires PlacedRequest(server, a) && PlacedRequest(server, b)
    requires AsksForTransform(server, a) && AllowsCaching(a.query) && ParametersOf(server, b).Some?
    requires WellFormedPair(server, a, b)
    ensures KeyIsFaithful(server, a, b)
  {
    hide ParametersOf, KeyPlace, SourcePlace, ParamString, PlacedRequest, Follows, Regular, Distinguishable, AgreeOnKey,
         AsksForTransform, AllowsCaching;
    if AsksForTransform(server, b) {
      hide KeyIsFaithful, OutsideCache;
      FaithfulIffAgree(server, a, b);
    } else {
      KeyPlacement(server, a);
      KeyPlacement(server, b);
    }
  }

  /** Where reads may fail: plain files that re-encoding keeps, and on S3 paths with one leading slash. */
  predicate Robust(server: Server, sources: Store, request: Request) {
    && KeepsFile(server, sources, request)
    && (server.backend.S3? && ParametersOf(server, request).Some? ==> SingleSlash(PathOf(server, request)))
  }

  /** A plain file is written, if at all, where it was and as it was, or where no such path leads. */
  lemma RobustFileIsCoherent(server: Server, sources: Store, a: Request, b: Request)
    requires PlacedRequest(server, a) && PlacedRequest(server, b) && PlacedSources(server.backend, sources)
    requires AsksForFile(server, a) && Robust(server, sources, a) && Robust(server, sources, b)
    ensures CoherentPair(server, sources, true, a, b)
  {
    hide ParametersOf, KeyPlace, SourcePlace, TargetPlace, ParamString, AllowsCaching, PlacedRequest, Transformed;
    FilePlacement(server, a);
    if Writes(server, sources, true, a) && ParametersOf(server, b).Some? {
      KeyPlacement(server, b);
      assert server.backend.MayHoldSource(SourcePlace(server, a));
      if server.backend.S3? {
        PlainPathsNeverLeadThere(server, a, b);
      }
    }
  }

  /** What S3 would be asked to write for a plain file begins with a slash, or is empty; no straight read does. */
  lemma PlainPathsNeverLeadThere(server: Server, a: Request, b: Request)
    requires server.backend.S3? && PlacedRequest(server, a) && AsksForFile(server, a) && SingleSlash(PathOf(server, b))
    ensures SourcePlace(server, b) != TargetPlace(server, a)
  {
    hide ParametersOf, ParamString, Normalize;
    RelativeStaysRelative(WithoutSlash(PathOf(server, b)));
    NormalizeIsNotEmpty(WithoutSlash(PathOf(server, b)));
  }

  lemma NormalizeIsNotEmpty(p: string)
    ensures Normalize(p) != ""
  {
  }

  lemma HypothesesGiveCoherence(server: Server, sources: Store, requests: seq<Request>, flaky: bool)
    requires Placed(server, sources, requests) && WellFormedRequests(server, requests)
    requires flaky ==> forall i | 0 <= i < |requests| :: Robust(server, sources, requests[i])
    requires SizelessResizeIgnoresFit(server.sharp)
    ensures Coherent(server, sources, requests, flaky)
  {
    hide WellFormedPair, PlacedRequest, PlacedSources, KeyIsFaithful, ParametersOf, ParamString, KeepsFile,
         SizelessResizeIgnoresFit, KeyPlace, TargetPlace, SourcePlace, Uncached, AllowsCaching, Image;
    forall i, j | 0 <= i < |requests| && 0 <= j < |requests|
      ensures CoherentPair(server, sources, flaky, requests[i], requests[j])
    {
      var a, b := requests[i], requests[j];
      if Writes(server, sources, flaky, a) && ParametersOf(server, b).Some? {
        if AsksForTransform(server, a) {
          WellFormedIsFaithful(server, a, b);
          FaithfulIsCoherent(server, sources, a, b);
        } else {
          RobustFileIsCoherent(server, sources, a, b);
        }
      }
    }
  }

  /**
   * The main theorem: under the hypotheses every run answers as a server without a cache would, and whatever is
   * stored under a key is the uncached answer to every request with that key. With failing reads it takes that
   * re-encoding keeps plain files, and a request that storage has failed may get an error instead.
   */
  lemma CachingServerIsTransparent(server: Server, sources: Store, requests: seq<Request>, flaky: bool,
                                   run: seq<State>)
    requires Placed(server, sources, requests) && WellFormedRequests(server, requests)
    requires flaky ==> forall i | 0 <= i < |requests| :: Robust(server, sources, requests[i])
    requires SizelessResizeIgnoresFit(server.sharp)
    requires IsRun(server, sources, requests, flaky, run)
    ensures Transparent(server, sources, requests, run[|run| - 1])
    ensures forall i | 0 <= i < |requests| && ParametersOf(server, requests[i]).Some?
                       && KeyPlace(server, requests[i]) in run[|run| - 1].store ::
              Uncached(server, sources, requests[i]) == Ok(run[|run| - 1].store[KeyPlace(server, requests[i])])
  {
    hide Placed, WellFormedRequests, Robust, SizelessResizeIgnoresFit, IsRun, Transparent, Coherent, KeyPlace, Uncached,
         ParametersOf;
    HypothesesGiveCoherence(server, sources, requests, flaky);
    CacheIsTransparent(server, sources, requests, flaky, run);
  }

  /** Whatever is stored and whatever the library, all runs with working reads are transparent. */
  ghost predicate AlwaysTransparent(server: Server, requests: seq<Request>) {
    forall sources: Store, sharp: Sharp, run: seq<State>
      | PlacedSources(server.backend, sources) && SizelessResizeIgnoresFit(sharp)
        && IsRun(WithLibrary(server, sharp), sources, requests, false, run) ::
      Transparent(WithLibrary(server, sharp), sources, requests, run[|run| - 1])
  }

  /** A transform that may be cached, and whose source may be an upload. */
  predicate Feeds(server: Server, r: Request)
    ensures Feeds(server, r) ==> ParametersOf(server, r).Some?
  {
    && AsksForTransform(server, r) && AllowsCaching(r.query)
    && server.backend.MayHoldSource(SourcePlace(server, r))
  }

  /** The key of each such transform is faithful to every request that is not refused. */
  ghost predicate AllFaithful(server: Server, requests: seq<Request>) {
    forall i, j | 0 <= i < |requests| && 0 <= j < |requests|
                  && Feeds(server, requests[i]) && ParametersOf(server, requests[j]).Some? ::
      KeyIsFaithful(server, requests[i], requests[j])
  }

  lemma PlacedWithLibrary(server: Server, sharp: Sharp, sources: Store, requests: seq<Request>)
    requires PlacedSources(server.backend, sources)
    requires forall i | 0 <= i < |requests| :: PlacedRequest(server, requests[i])
    ensures Placed(WithLibrary(server, sharp), sources, requests)
  {
    hide PlacedRequest;
    forall i | 0 <= i < |requests|
      ensures PlacedRequest(WithLibrary(server, sharp), requests[i])
    {
      KeysIgnoreLibrary(server, sharp, requests[i]);
    }
  }

  lemma FaithfulPair(server: Server, sharp: Sharp, sources: Store, a: Request, b: Request)
    requires PlacedRequest(server, a) && PlacedSources(server.backend, sources) && SizelessResizeIgnoresFit(sharp)
    requires Feeds(server, a) && ParametersOf(server, b).Some? ==> KeyIsFaithful(server, a, b)
    ensures CoherentPair(WithLibrary(server, sharp), sources, false, a, b)
  {
    KeysIgnoreLibrary(server, sharp, a);
    KeysIgnoreLibrary(server, sharp, b);
    hide ParametersOf, SourcePlace, KeyPlace, TargetPlace, ParamString, Transformed, AllowsCaching, PlacedRequest,
         SizelessResizeIgnoresFit, KeyIsFaithful, Uncached;
    var other := WithLibrary(server, sharp);
    assert other.sharp == sharp && other.backend == server.backend;
    hide WithLibrary;
    if Writes(other, sources, false, a) && ParametersOf(other, b).Some? {
      assert server.backend.MayHoldSource(SourcePlace(server, a));
      FaithfulWithLibrary(server, sharp, a, b);
      hide CoherentPair;
      FaithfulIsCoherent(other, sources, a, b);
    }
  }

  lemma FaithfulRun(server: Server, sources: Store, sharp: Sharp, requests: seq<Request>, run: seq<State>)
    requires forall i | 0 <= i < |requests| :: PlacedRequest(server, requests[i])
    requires AllFaithful(server, requests)
    requires PlacedSources(server.backend, sources) && SizelessResizeIgnoresFit(sharp)
    requires IsRun(WithLibrary(server, sharp), sources, requests, false, run)
    ensures Transparent(WithLibrary(server, sharp), sources, requests, run[|run| - 1])
  {
    hide PlacedRequest, PlacedSources, SizelessResizeIgnoresFit, IsRun, Transparent, KeyIsFaithful, Feeds, CoherentPair,
         WithLibrary, Placed;
    forall i, j | 0 <= i < |requests| && 0 <= j < |requests|
      ensures CoherentPair(WithLibrary(server, sharp), sources, false, requests[i], requests[j])
    {
      FaithfulPair(server, sharp, sources, requests[i], requests[j]);
    }
    PlacedWithLibrary(server, sharp, sources, requests);
    CacheIsTransparent(WithLibrary(server, sharp), sources, requests, false, run);
  }

  lemma UnfaithfulRun(server: Server, requests: seq<Request>, i: nat, j: nat)
    returns (sources: Store, sharp: Sharp, run: seq<State>)
    requires forall k | 0 <= k < |requests| :: PlacedRequest(server, requests[k])
    requires i < |requests| && j < |requests| && Feeds(server, requests[i])
    requires ParametersOf(server, requests[j]).Some? && !KeyIsFaithful(server, requests[i], requests[j])
    ensures PlacedSources(server.backend, sources) && SizelessResizeIgnoresFit(sharp)
    ensures IsRun(WithLibrary(server, sharp), sources, requests, false, run)
    ensures !Transparent(WithLibrary(server, sharp), sources, requests, run[|run| - 1])
  {
    hide CoherentPair, PlacedRequest, IsRun, Transparent, WithLibrary, SizelessResizeIgnoresFit, PlacedSources,
         AllowsCaching, AsksForTransform, KeyIsFaithful, Placed;
    sources, sharp := UnfaithfulIsIncoherent(server, requests[i], requests[j]);
    PlacedWithLibrary(server, sharp, sources, requests);
    assert !Coherent(WithLibrary(server, sharp), sources, requests, false);
    hide Coherent;
    run := IncoherentRun(WithLibrary(server, sharp), sources, requests, false);
  }

  /**
   * Exactly: whatever is stored and whatever the library, any requests are served transparently if and only if the key
   * of each transform that may be cached is faithful to every request.
   */
  lemma AlwaysTransparentIff(server: Server, requests: seq<Request>)
    requires forall i | 0 <= i < |requests| :: PlacedRequest(server, requests[i])
    ensures AlwaysTransparent(server, requests) <==> AllFaithful(server, requests)
  {
    hide PlacedRequest, Transparent, IsRun, SizelessResizeIgnoresFit, PlacedSources, WithLibrary, KeyIsFaithful, Feeds;
    if AllFaithful(server, requests) {
      forall sources: Store, sharp: Sharp, run: seq<State>
        | PlacedSources(server.backend, sources) && SizelessResizeIgnoresFit(sharp)
          && IsRun(WithLibrary(server, sharp), sources, requests, false, run)
        ensures Transparent(WithLibrary(server, sharp), sources, requests, run[|run| - 1])
      {
        FaithfulRun(server, sources, sharp, requests, run);
      }
    } else {
      var i, j :| 0 <= i < |requests| && 0 <= j < |requests|
                  && Feeds(server, requests[i]) && ParametersOf(server, requests[j]).Some?
                  && !KeyIsFaithful(server, requests[i], requests[j]);
      var sources, sharp, run := UnfaithfulRun(server, requests, i, j);
    }
  }

  /** So a pair that is not always coherent, as with each broken hypothesis, spoils some run of any requests with it. */
  lemma BrokenPairSpoilsRuns(server: Server, requests: seq<Request>, i: nat, j: nat)
    requires forall k | 0 <= k < |requests| :: PlacedRequest(server, requests[k])
    requires i < |requests| && j < |requests| && Feeds(server, requests[i])
    requires ParametersOf(server, requests[j]).Some? && !AlwaysCoherent(server, requests[i], requests[j])
    ensures !AlwaysTransparent(server, requests)
  {
    hide PlacedRequest, AlwaysCoherent, AlwaysTransparent, KeyIsFaithful, AsksForTransform, AllowsCaching;
    AlwaysTransparentIff(server, requests);
    AlwaysCoherentIff(server, requests[i], requests[j]);
  }

  /** Requests as the checkable condition is stated for: all but the agreement of those that share a key. */
  predicate Comparable(server: Server, requests: seq<Request>) {
    && (forall i | 0 <= i < |requests| :: PlacedRequest(server, requests[i]))
    && (forall i | 0 <= i < |requests| && ParametersOf(server, requests[i]).Some? ::
          OutsideCache(server, requests[i]))
    && (forall i | 0 <= i < |requests| && AsksForTransform(server, requests[i]) :: Regular(server, requests[i]))
    && (forall i, j | 0 <= i < |requests| && 0 <= j < |requests|
                      && AsksForTransform(server, requests[i]) && AsksForTransform(server, requests[j]) ::
          Distinguishable(server, requests[i], requests[j]))
  }

  predicate Agreeing(server: Server, requests: seq<Request>) {
    forall i, j | 0 <= i < |requests| && 0 <= j < |requests|
                  && Feeds(server, requests[i]) && AsksForTransform(server, requests[j]) ::
      AgreeOnKey(server, requests[i], requests[j])
  }

  /** Of such a pair the key is faithful exactly if the two agree, and always to a plain file. */
  lemma ComparablePair(server: Server, requests: seq<Request>, i: nat, j: nat)
    requires Comparable(server, requests) && i < |requests| && j < |requests|
    requires Feeds(server, requests[i]) && ParametersOf(server, requests[j]).Some?
    ensures KeyIsFaithful(server, requests[i], requests[j]) <==>
              (AsksForTransform(server, requests[j]) ==> AgreeOnKey(server, requests[i], requests[j]))
  {
    hide ParametersOf, KeyPlace, SourcePlace, ParamString, PlacedRequest, Follows, Regular, Distinguishable, AgreeOnKey,
         AsksForTransform, AllowsCaching;
    var a, b := requests[i], requests[j];
    if AsksForTransform(server, b) {
      FaithfulIffAgree(server, a, b);
    } else {
      KeyPlacement(server, a);
      KeyPlacement(server, b);
    }
  }

  /**
   * Exactly: regular requests outside the cache directory are served transparently, whatever is stored and whatever the
   * library, if and only if those that share a key with one that may be cached agree on what the key drops.
   */
  lemma RegularTransparentIff(server: Server, requests: seq<Request>)
    requires Comparable(server, requests)
    ensures AlwaysTransparent(server, requests) <==> Agreeing(server, requests)
  {
    hide AlwaysTransparent, KeyIsFaithful, Feeds, PlacedRequest, Regular, Distinguishable, OutsideCache, AgreeOnKey,
         AsksForTransform;
    AlwaysTransparentIff(server, requests);
    forall i, j | 0 <= i < |requests| && 0 <= j < |requests|
                  && Feeds(server, requests[i]) && ParametersOf(server, requests[j]).Some?
      ensures KeyIsFaithful(server, requests[i], requests[j]) <==>
                (AsksForTransform(server, requests[j]) ==> AgreeOnKey(server, requests[i], requests[j]))
    {
      ComparablePair(server, requests, i, j);
    }
  }

  // ---------- how the hypotheses are met ----------

  /**
   * What makes a transform regular: presets with sizes, tame strategies, a numeric quality, no trailing slash, and on
   * S3, where paths are not sanitized, one leading slash and no climbing above the bucket's root.
   */
  lemma RequestIsRegular(server: Server, request: Request)
    requires SizedPresets(server.settings.presets)
    requires forall k | 0 <= k < |server.settings.strategies| :: KeepsTidy(server.settings.strategies[k])
    requires request.query.q.Some? ==> NumberOf(server.settings, request.query.q) != NaN
    requires ParametersOf(server, request).Some?
    requires ShowsNumbers(server.settings, ParametersOf(server, request).value)
    requires !EndsWithSlash(PathOf(server, request))
    requires server.backend.S3? ==> StaysBelow(PathOf(server, request)) && SingleSlash(PathOf(server, request))
    ensures Regular(server, request)
    ensures Tidy(server.settings, ParametersOf(server, request).value)
  {
    if server.backend.Local? {
      SanitizedDescends(server.backend, request.decodedPath);
    }
    hide ShowsNumbers, TransformParameters, PathOf, StaysBelow, NamedPreset, HasDimensions;
    RequestsAreTidy(server.settings, request);
  }

  /** Tidy requests that share a key agree as soon as their extensions do. */
  lemma TidyRequestsAgree(server: Server, a: Request, b: Request)
    requires Regular(server, a) && Regular(server, b) && Distinguishable(server, a, b)
    requires Tidy(server.settings, ParametersOf(server, a).value) && Tidy(server.settings, ParametersOf(server, b).value)
    requires SameKeyParts(server, a, b) ==> Extname(PathOf(server, a)) == Extname(PathOf(server, b))
    ensures AgreeOnKey(server, a, b)
  {
    hide Tidy, ShowsNumbers, NumbersApart, ParamString, ParametersOf, PathOf, Legible, SameUnprinted, Directory, Stem,
         Extname, Straight;
    if SameKeyParts(server, a, b) {
      TidyRecordsAgree(server.settings, ParametersOf(server, a).value, ParametersOf(server, b).value);
    }
  }

  /** Naming a preset with whole sides, or spelling it out, has one key and one answer. */
  lemma PresetHasOneKey(server: Server, sources: Store, name: string, preset: Preset, named: Request, spelled: Request)
    requires server.settings.strategies == [] && name != "" && named.decodedPath == spelled.decodedPath
    requires FindPreset(server.settings.presets, name) == Some(preset) && named.query.preset == Some(name)
    requires SpellsOut(server.settings, preset, named.query, spelled.query)
    requires WholeSide(preset.width) && WholeSide(preset.height)
    ensures ParametersOf(server, named).Some? && ParametersOf(server, spelled).Some?
    ensures KeyPlace(server, named) == KeyPlace(server, spelled)
    ensures Uncached(server, sources, named) == Uncached(server, sources, spelled)
  {
    hide TransformParameters, ParamString, Transformed, SpellsOut, FindPreset, SanitizeFilePath, CachePath,
         Backend.ReadPlace, Follows, WholeSide;
    PresetEquivalenceIff(server.settings, name, preset, named, spelled);
    assert PathOf(server, named) == PathOf(server, spelled);
  }
}
