/** Concrete requests that clash, for each hypothesis of the transparency theorem, and a concrete overwritten upload. */
module CacheCounterexamples {
  import opened Text
  import opened Paths
  import opened Sanitizer
  import opened Parameters
  import opened ParameterText
  import opened TransformImage
  import opened CacheProtocol
  import opened CacheHypotheses
  import opened StorageSafety

  const ANY_HASH: string := seq(HASH_LENGTH, _ => '0')

  /** A server on local storage; every text hashes alike, which matters only when texts differ. */
  function SampleServer(presets: seq<Preset>, parse: string -> Number, render: (Buffer, seq<Op>) -> Option<Buffer>)
    : Server
  {
    Server(Settings(presets, [], parse, _ => "1"), Local(["srv"]), Sharp(_ => None, render), _ => ANY_HASH)
  }

  const PLAIN := Query(None, None, None, None, None, None, None, None, None, None)

  predicate AdjacentDots(s: string, i: nat) {
    i + 1 < |s| && s[i] == '.' && s[i + 1] == '.'
  }

  /** A path of ordinary segments passes the sanitizer unchanged, with or without a trailing slash. */
  lemma OrdinaryPath(p: string, segments: seq<string>, trailing: bool)
    requires segments != [] && Named(segments) && ".." !in segments
    requires forall s | s in segments :: '/' !in s
    requires p == "/" + Join(segments, '/') + (if trailing then "/" else "")
    requires forall i: nat | i < |p| :: !AdjacentDots(p, i)
    ensures SanitizeFilePath(Local(["srv"]), Some(p)) == p
    ensures EndsWithSlash(p) == trailing
    ensures Local(["srv"]).ReadPlace(p) == File(["srv"] + segments, trailing)
  {
    var body := Join(segments, '/');
    SplitJoin(segments, '/');
    JoinNonEmpty(segments);
    SplitEnds(body, '/');
    assert p[0] == '/';
    if !trailing {
      assert p[|p| - 1] == body[|body| - 1];
    }
    NormalizedSplit(p, body, [""], if trailing then [""] else []);
    var split := Split(p, '/');
    assert split == [""] + segments + (if trailing then [""] else []);
    CleanOfClean(segments);
    CleanAppend([""] + segments, if trailing then [""] else []);
    CleanAppend([""], segments);
    assert Clean(split) == segments;
    ResolveClean(true, [], split);
    ResolveClean(true, ["srv"], split);
    assert [] + segments == segments;
    assert Normalize(p) == p;
    forall i: nat | i < |p|
      ensures !TraversalAt(p, i)
    {
      assert !AdjacentDots(p, i);
    }
    ReducedIff(p);
    JoinSplit(p, '/');
  }

  const JPG_PATH := "/a.jpg"
  const PNG_PATH := "/a.png"
  const JPG_PLACE := File(["srv", "a.jpg"], false)
  const PNG_PLACE := File(["srv", "a.png"], false)

  lemma SamplePaths()
    ensures SanitizeFilePath(Local(["srv"]), Some(JPG_PATH)) == JPG_PATH
    ensures SanitizeFilePath(Local(["srv"]), Some(PNG_PATH)) == PNG_PATH
    ensures Local(["srv"]).ReadPlace(JPG_PATH) == JPG_PLACE && Local(["srv"]).ReadPlace(PNG_PATH) == PNG_PLACE
    ensures !EndsWithSlash(JPG_PATH) && !EndsWithSlash(PNG_PATH)
  {
    hide SanitizeFilePath, Backend.ReadPlace;
    OrdinaryPath(JPG_PATH, ["a.jpg"], false);
    OrdinaryPath(PNG_PATH, ["a.png"], false);
    assert ["srv"] + ["a.jpg"] == ["srv", "a.jpg"] && ["srv"] + ["a.png"] == ["srv", "a.png"];
  }

  lemma BelowTheRoot(p: string, name: string)
    requires p == "/" + name && name != "" && '/' !in name
    ensures Component(p) == name && Dirname(p) == "/"
  {
    assert p[|p| - 1] == name[|name| - 1];
    assert forall k | 0 < k < |p| :: p[k] == name[k - 1];
    LastIndexOfUnique(p, '/', 0);
    hide LastIndexOf;
  }

  lemma StemAndExtension(name: string, stem: string, ext: string)
    requires name == stem + "." + ext && stem != "" && '.' !in ext && |name| > 2
    ensures name[..ExtensionStart(name)] == stem && name[ExtensionStart(name)..] == "." + ext
  {
    assert forall k | |stem| < k < |name| :: name[k] == ext[k - |stem| - 1];
    LastIndexOfUnique(name, '.', |stem|);
    hide LastIndexOf;
  }

  /** A file directly below the root, taken apart. */
  lemma FileParts(p: string, name: string, stem: string, ext: string)
    requires p == "/" + name && name == stem + "." + ext && |name| > 2
    requires stem != "" && '/' !in name && '.' !in ext
    ensures Dirname(p) == "/" && Stem(p) == stem && Extname(p) == "." + ext
  {
    hide Component, Dirname, ExtensionStart;
    BelowTheRoot(p, name);
    StemAndExtension(name, stem, ext);
  }

  lemma SampleParts()
    ensures Dirname(JPG_PATH) == "/" && Stem(JPG_PATH) == "a" && Extname(JPG_PATH) == ".jpg"
    ensures Dirname(PNG_PATH) == "/" && Stem(PNG_PATH) == "a" && Extname(PNG_PATH) == ".png"
  {
    hide Dirname, Stem, Extname;
    assert "a.jpg" == "a" + "." + "jpg" && "a.png" == "a" + "." + "png";
    FileParts("/a.jpg", "a.jpg", "a", "jpg");
    FileParts("/a.png", "a.png", "a", "png");
  }

  /** A request for a file in the upload directory is placed, and its source may be there. */
  lemma SamplePlacement(server: Server, request: Request, name: string)
    requires server.backend == Local(["srv"])
    requires AsksForTransform(server, request) ==> server.md5(TextOf(server, request)) == ANY_HASH
    requires IsAbsolute(PathOf(server, request))
    requires SourcePlace(server, request).File? && SourcePlace(server, request).segments == ["srv", name]
    requires name != "cache"
    ensures PlacedRequest(server, request) && OutsideCache(server, request)
    ensures server.backend.MayHoldSource(SourcePlace(server, request))
  {
    hide PathOf, ParametersOf, Backend.ReadPlace, ParamString;
    var segments := SourcePlace(server, request).segments;
    assert segments[1] == name;
    assert (["srv"] + [CACHE_DIR])[1] == "cache";
    assert IsHash(ANY_HASH);
  }

  /** The same directory, stem, parameters and format give the same key, whatever the extensions and slashes. */
  lemma SameKey(server: Server, a: Request, b: Request)
    requires AsksForTransform(server, a) && ParametersOf(server, b).Some?
    requires TextOf(server, a) == TextOf(server, b)
    requires FormatOf(server, a) == FormatOf(server, b)
    requires Dirname(PathOf(server, a)) == Dirname(PathOf(server, b))
    requires Stem(PathOf(server, a)) == Stem(PathOf(server, b))
    requires FormatOf(server, a).Some? || Extname(PathOf(server, a)) == Extname(PathOf(server, b))
    ensures AsksForTransform(server, b)
    ensures KeyPlace(server, a) == KeyPlace(server, b)
  {
    hide PathOf, ParametersOf, Backend.ReadPlace, ParamString, Dirname, Stem, Extname, JoinPath;
  }

  /** What a query that only sets a format amounts to. */
  lemma FormatOnly(server: Server, request: Request)
    requires server.settings.strategies == [] && request.query.format.Some? && IsFormat(request.query.format.value)
    requires request.query == PLAIN.(format := request.query.format)
    ensures ParametersOf(server, request) == Some(
        ImageTransformParameters(None, None, Some(Mode.Crop), None, request.query.format, None, None, None, None))
    ensures TextOf(server, request) == request.query.format.value
    ensures Regular(server, request) <==> Straight(server.backend, PathOf(server, request))
    ensures AsksForTransform(server, request) && FormatOf(server, request) == request.query.format
  {
    hide PathOf, Straight;
  }

  /** Two transform requests that share a key; the first makes an image that the second does not make. */
  predicate Clash(server: Server, sources: Store, a: Request, b: Request, image: Buffer) {
    && PlacedRequest(server, a) && AsksForTransform(server, a)
    && PlacedRequest(server, b) && AsksForTransform(server, b)
    && PlacedSources(server.backend, sources) && AllowsCaching(a.query)
    && Image(server, sources, a) == Some(image) && Image(server, sources, b) != Some(image)
    && KeyPlace(server, a) == KeyPlace(server, b)
  }

  /** Then not all runs of the two are transparent. */
  lemma SharedKeyClash(server: Server, sources: Store, a: Request, b: Request, image: Buffer)
    requires Clash(server, sources, a, b, image)
    ensures Placed(server, sources, [a, b]) && !Coherent(server, sources, [a, b], false)
    ensures Uncached(server, sources, b)
         == if SourcePlace(server, b) !in sources then NotFound
            else if Image(server, sources, b).None? then ServerError else Ok(Image(server, sources, b).value)
  {
    hide ParametersOf, SourcePlace, KeyPlace, TargetPlace, ParamString, Transformed, PlacedRequest, AllowsCaching;
    KeyPlacement(server, a);
    KeyPlacement(server, b);
    assert KeyPlace(server, b) in sources ==> server.backend.MayHoldSource(KeyPlace(server, b));
    assert [a, b][0] == a && [a, b][1] == b;
    assert !CoherentPair(server, sources, false, a, b);
  }

  const WEBP_OF_JPG := Request(Some(JPG_PATH), PLAIN.(format := Some("webp")))
  const WEBP_OF_PNG := Request(Some(PNG_PATH), PLAIN.(format := Some("webp")))

  lemma SamplePlaces()
    ensures Local(["srv"]).MayHoldSource(JPG_PLACE) && Local(["srv"]).MayHoldSource(PNG_PLACE)
  {
    assert (["srv"] + [CACHE_DIR])[1] == "cache";
    assert JPG_PLACE.segments[1] != "cache" && PNG_PLACE.segments[1] != "cache";
  }

  /** An image library that returns the source as it is. */
  function EchoServer(): Server {
    SampleServer([], _ => NaN, (b: Buffer, ops: seq<Op>) => Some(b))
  }

  lemma EchoTransforms(source: Buffer, p: ImageTransformParameters)
    requires !HasFocalPoint(p)
    ensures Transformed(EchoServer().sharp, source, p) == Some(source)
  {
  }

  lemma FormatRequest(r: Request, path: string, place: Location)
    requires (r == WEBP_OF_JPG && path == JPG_PATH && place == JPG_PLACE)
          || (r == WEBP_OF_PNG && path == PNG_PATH && place == PNG_PLACE)
    ensures PathOf(EchoServer(), r) == path && SourcePlace(EchoServer(), r) == place
    ensures Straight(EchoServer().backend, path)
    ensures PlacedRequest(EchoServer(), r) && OutsideCache(EchoServer(), r)
  {
    SamplePaths();
    FormatOnly(EchoServer(), r);
    assert EchoServer().backend == Local(["srv"]);
    hide SanitizeFilePath, ParametersOf, Backend.ReadPlace, ParamString, StaysBelow;
    SanitizedDescends(EchoServer().backend, r.decodedPath);
    SamplePlacement(EchoServer(), r, if r == WEBP_OF_JPG then "a.jpg" else "a.png");
  }

  lemma FormatRequests()
    ensures ParametersOf(EchoServer(), WEBP_OF_JPG) == ParametersOf(EchoServer(), WEBP_OF_PNG)
    ensures ParametersOf(EchoServer(), WEBP_OF_JPG).Some? && TextOf(EchoServer(), WEBP_OF_JPG) == "webp"
    ensures FormatOf(EchoServer(), WEBP_OF_JPG) == Some("webp")
    ensures !HasFocalPoint(ParametersOf(EchoServer(), WEBP_OF_JPG).value)
    ensures Regular(EchoServer(), WEBP_OF_JPG) && Regular(EchoServer(), WEBP_OF_PNG)
    ensures SourcePlace(EchoServer(), WEBP_OF_JPG) == JPG_PLACE && SourcePlace(EchoServer(), WEBP_OF_PNG) == PNG_PLACE
    ensures PlacedRequest(EchoServer(), WEBP_OF_JPG) && PlacedRequest(EchoServer(), WEBP_OF_PNG)
    ensures OutsideCache(EchoServer(), WEBP_OF_JPG) && OutsideCache(EchoServer(), WEBP_OF_PNG)
  {
    FormatOnly(EchoServer(), WEBP_OF_JPG);
    FormatOnly(EchoServer(), WEBP_OF_PNG);
    hide PathOf, ParametersOf, SourcePlace, ParamString, Straight, Regular, PlacedRequest, OutsideCache;
    FormatRequest(WEBP_OF_JPG, JPG_PATH, JPG_PLACE);
    FormatRequest(WEBP_OF_PNG, PNG_PATH, PNG_PLACE);
  }

  lemma ExtensionKey()
    ensures AsksForTransform(EchoServer(), WEBP_OF_PNG)
    ensures KeyPlace(EchoServer(), WEBP_OF_JPG) == KeyPlace(EchoServer(), WEBP_OF_PNG)
  {
    SamplePaths();
    SampleParts();
    FormatRequests();
    hide SanitizeFilePath, ParametersOf, Backend.ReadPlace, ParamString, Dirname, Stem, Extname, PlacedRequest, Regular,
         SourcePlace;
    SameKey(EchoServer(), WEBP_OF_JPG, WEBP_OF_PNG);
  }

  /**
   * The key drops the extension when a format is set: two regular requests for different sources share it, and
   * one source per stem is not enough, since a path that has no source shares it too.
   */
  lemma TwoExtensionsShareAKey(sources: Store)
    requires sources == map[JPG_PLACE := [1], PNG_PLACE := [2]] || sources == map[JPG_PLACE := [1]]
    ensures Placed(EchoServer(), sources, [WEBP_OF_JPG, WEBP_OF_PNG])
    ensures Regular(EchoServer(), WEBP_OF_JPG) && Regular(EchoServer(), WEBP_OF_PNG)
    ensures Uncached(EchoServer(), sources, WEBP_OF_PNG) == if PNG_PLACE in sources then Ok([2]) else NotFound
    ensures !Coherent(EchoServer(), sources, [WEBP_OF_JPG, WEBP_OF_PNG], false)
  {
    var server := EchoServer();
    FormatRequests();
    ExtensionKey();
    SamplePlaces();
    hide ParametersOf, ParamString, PlacedRequest, Regular, KeyPlace, SourcePlace, Transformed, HasFocalPoint;
    EchoTransforms([1], ParametersOf(server, WEBP_OF_JPG).value);
    EchoTransforms([2], ParametersOf(server, WEBP_OF_PNG).value);
    assert server.backend == Local(["srv"]);
    hide Uncached, EchoServer, Coherent, Placed, OutsideCache;
    SharedKeyClash(server, sources, WEBP_OF_JPG, WEBP_OF_PNG, [1]);
  }

  const SLASHED_PATH := "/a.jpg/"
  const WEBP_OF_SLASHED := Request(Some(SLASHED_PATH), PLAIN.(format := Some("webp")))

  lemma SlashedPath()
    ensures SanitizeFilePath(Local(["srv"]), Some(SLASHED_PATH)) == SLASHED_PATH
    ensures Local(["srv"]).ReadPlace(SLASHED_PATH) == File(["srv", "a.jpg"], true)
    ensures Dirname(SLASHED_PATH) == Dirname(JPG_PATH) && Stem(SLASHED_PATH) == Stem(JPG_PATH)
  {
    hide SanitizeFilePath, Backend.ReadPlace, Dirname, Stem, Extname;
    OrdinaryPath(SLASHED_PATH, ["a.jpg"], true);
    assert ["srv"] + ["a.jpg"] == ["srv", "a.jpg"];
    SamplePaths();
    assert SLASHED_PATH == JPG_PATH + "/";
    TrailingSlashIsDropped(JPG_PATH);
  }

  lemma SlashedRequest()
    ensures ParametersOf(EchoServer(), WEBP_OF_SLASHED) == ParametersOf(EchoServer(), WEBP_OF_JPG)
    ensures SourcePlace(EchoServer(), WEBP_OF_SLASHED) == File(["srv", "a.jpg"], true)
    ensures PlacedRequest(EchoServer(), WEBP_OF_SLASHED) && OutsideCache(EchoServer(), WEBP_OF_SLASHED)
  {
    SlashedPath();
    FormatOnly(EchoServer(), WEBP_OF_JPG);
    FormatOnly(EchoServer(), WEBP_OF_SLASHED);
    hide SanitizeFilePath, ParametersOf, Backend.ReadPlace, ParamString;
    SamplePlacement(EchoServer(), WEBP_OF_SLASHED, "a.jpg");
  }

  lemma SlashedKey()
    ensures AsksForTransform(EchoServer(), WEBP_OF_SLASHED)
    ensures KeyPlace(EchoServer(), WEBP_OF_JPG) == KeyPlace(EchoServer(), WEBP_OF_SLASHED)
  {
    SamplePaths();
    SlashedPath();
    FormatRequests();
    SlashedRequest();
    hide SanitizeFilePath, ParametersOf, Backend.ReadPlace, ParamString, Dirname, Stem, Extname, PlacedRequest, Regular,
         SourcePlace;
    SameKey(EchoServer(), WEBP_OF_JPG, WEBP_OF_SLASHED);
  }

  /** A trailing slash is dropped by the key but not by storage: what is 404 on its own becomes a cached image. */
  lemma TrailingSlashSharesAKey()
    ensures Placed(EchoServer(), map[JPG_PLACE := [1]], [WEBP_OF_JPG, WEBP_OF_SLASHED])
    ensures EndsWithSlash(SLASHED_PATH)
    ensures Uncached(EchoServer(), map[JPG_PLACE := [1]], WEBP_OF_SLASHED) == NotFound
    ensures !Coherent(EchoServer(), map[JPG_PLACE := [1]], [WEBP_OF_JPG, WEBP_OF_SLASHED], false)
  {
    var server, sources := EchoServer(), map[JPG_PLACE := [1]];
    FormatRequests();
    SlashedRequest();
    SlashedKey();
    SamplePlaces();
    hide ParametersOf, ParamString, PlacedRequest, Regular, KeyPlace, SourcePlace, Transformed, HasFocalPoint;
    EchoTransforms([1], ParametersOf(server, WEBP_OF_JPG).value);
    assert server.backend == Local(["srv"]);
    hide Uncached, EchoServer, Coherent, Placed, OutsideCache;
    SharedKeyClash(server, sources, WEBP_OF_JPG, WEBP_OF_SLASHED, [1]);
  }

  // ---------- a quality that is not a number ----------

  /** An image library whose output tells how many operations it was given; no text is numeric here. */
  function CountingServer(): Server {
    SampleServer([], _ => NaN, (b: Buffer, ops: seq<Op>) => Some([|ops|]))
  }

  const WEBP_ONLY := Request(Some(JPG_PATH), PLAIN.(format := Some("webp")))
  const BAD_QUALITY := Request(Some(JPG_PATH), PLAIN.(format := Some("webp"), q := Some("high")))

  lemma QualityRequests()
    ensures ParametersOf(CountingServer(), WEBP_ONLY).Some? && ParametersOf(CountingServer(), BAD_QUALITY).Some?
    ensures TextOf(CountingServer(), WEBP_ONLY) == TextOf(CountingServer(), BAD_QUALITY) == "webp"
    ensures FormatOf(CountingServer(), WEBP_ONLY) == FormatOf(CountingServer(), BAD_QUALITY) == Some("webp")
    ensures Transformed(CountingServer().sharp, [1], ParametersOf(CountingServer(), WEBP_ONLY).value) == Some([3])
    ensures Transformed(CountingServer().sharp, [1], ParametersOf(CountingServer(), BAD_QUALITY).value) == Some([2])
  {
    hide PathOf;
  }

  /** A quality that is not a number is left out of the key, but sharp refuses it and keeps the original encoding. */
  lemma BadQualitySharesAKey()
    ensures Placed(CountingServer(), map[JPG_PLACE := [1]], [WEBP_ONLY, BAD_QUALITY])
    ensures NumberOf(CountingServer().settings, BAD_QUALITY.query.q) == NaN
    ensures !Coherent(CountingServer(), map[JPG_PLACE := [1]], [WEBP_ONLY, BAD_QUALITY], false)
  {
    var server, sources := CountingServer(), map[JPG_PLACE := [1]];
    SamplePaths();
    QualityRequests();
    hide SanitizeFilePath, ParametersOf, Backend.ReadPlace, ParamString, Dirname, Stem, Extname;
    SamplePlacement(server, WEBP_ONLY, "a.jpg");
    SamplePlacement(server, BAD_QUALITY, "a.jpg");
    hide PlacedRequest, OutsideCache;
    SameKey(server, WEBP_ONLY, BAD_QUALITY);
    hide KeyPlace, SourcePlace, Transformed;
    SamplePlaces();
    assert SourcePlace(server, WEBP_ONLY) == SourcePlace(server, BAD_QUALITY) == JPG_PLACE by {
      PlaceOfJpg(server, WEBP_ONLY);
      PlaceOfJpg(server, BAD_QUALITY);
    }
    assert server.backend == Local(["srv"]);
    hide Uncached, CountingServer, Coherent, Placed;
    SharedKeyClash(server, sources, WEBP_ONLY, BAD_QUALITY, [3]);
  }

  lemma PlaceOfJpg(server: Server, request: Request)
    requires server.backend == Local(["srv"]) && request.decodedPath == Some(JPG_PATH)
    ensures SourcePlace(server, request) == JPG_PLACE
  {
    hide SanitizeFilePath, Backend.ReadPlace;
    SamplePaths();
  }

  // ---------- a preset without a width ----------

  /** An image library that refuses a width of 0; "5" is the only numeric text here. */
  function FlatServer(): Server {
    SampleServer([Preset("flat", Finite(0.0), Finite(5.0), Mode.Resize)],
                 text => if text == "5" then Finite(5.0) else NaN,
                 (b: Buffer, ops: seq<Op>) =>
                   if ops != [] && ops[|ops| - 1].ResizeWithin? && ops[|ops| - 1].w == Some(Finite(0.0)) then None
                   else Some(b))
  }

  const BY_HEIGHT := Request(Some(JPG_PATH), PLAIN.(h := Some("5"), mode := Some("resize")))
  const BY_PRESET := Request(Some(JPG_PATH), PLAIN.(preset := Some("flat")))

  lemma HeightParameters()
    ensures ParametersOf(FlatServer(), BY_HEIGHT) == Some(
        ImageTransformParameters(None, Some(Finite(5.0)), Some(Mode.Resize), None, None, None, None, None, None))
  {
  }

  lemma FlatParameters()
    ensures ParametersOf(FlatServer(), BY_PRESET) == Some(
        ImageTransformParameters(Some(Finite(0.0)), Some(Finite(5.0)), Some(Mode.Resize), None, None, None, None,
                                 Some("flat"), None))
  {
    assert FlatServer().settings.presets[0].name == "flat";
  }

  lemma PresetRequests()
    ensures ParametersOf(FlatServer(), BY_HEIGHT).Some? && ParametersOf(FlatServer(), BY_PRESET).Some?
    ensures TextOf(FlatServer(), BY_HEIGHT) == TextOf(FlatServer(), BY_PRESET) != ""
    ensures FormatOf(FlatServer(), BY_HEIGHT) == FormatOf(FlatServer(), BY_PRESET)
  {
    HeightParameters();
    FlatParameters();
    hide ParametersOf, NamedPreset;
    var server := FlatServer();
    var p1, p2 := ParametersOf(server, BY_HEIGHT).value, ParametersOf(server, BY_PRESET).value;
    assert DimensionText(server.settings, p1) == DimensionText(server.settings, p2);
    assert |DimensionText(server.settings, p1)| > 0;
  }

  lemma FlatRenders()
    requires ParametersOf(FlatServer(), BY_HEIGHT).Some? && ParametersOf(FlatServer(), BY_PRESET).Some?
    ensures Transformed(FlatServer().sharp, [1], ParametersOf(FlatServer(), BY_HEIGHT).value) == Some([1])
    ensures Transformed(FlatServer().sharp, [1], ParametersOf(FlatServer(), BY_PRESET).value) == None
  {
    HeightParameters();
    FlatParameters();
    hide ParametersOf, EncodeOps;
  }

  lemma FlatPlacement(request: Request)
    requires request == BY_HEIGHT || request == BY_PRESET
    ensures PlacedRequest(FlatServer(), request) && PathOf(FlatServer(), request) == JPG_PATH
  {
    hide SanitizeFilePath, ParametersOf, Backend.ReadPlace, ParamString, SourcePlace;
    SamplePaths();
    PlaceOfJpg(FlatServer(), request);
    SamplePlacement(FlatServer(), request, "a.jpg");
  }

  lemma FlatKey()
    ensures PlacedRequest(FlatServer(), BY_HEIGHT) && PlacedRequest(FlatServer(), BY_PRESET)
    ensures AsksForTransform(FlatServer(), BY_HEIGHT) && AsksForTransform(FlatServer(), BY_PRESET)
    ensures KeyPlace(FlatServer(), BY_HEIGHT) == KeyPlace(FlatServer(), BY_PRESET)
  {
    hide PathOf, ParametersOf, ParamString, Dirname, Stem, Extname, SourcePlace, KeyPlace, PlacedRequest, FlatServer,
         FormatOf;
    PresetRequests();
    FlatPlacement(BY_HEIGHT);
    FlatPlacement(BY_PRESET);
    SameKey(FlatServer(), BY_HEIGHT, BY_PRESET);
  }

  lemma FlatBackend()
    ensures FlatServer().backend == Local(["srv"])
  {
  }

  lemma FlatClash()
    ensures Clash(FlatServer(), map[JPG_PLACE := [1]], BY_HEIGHT, BY_PRESET, [1])
  {
    hide ParametersOf, ParamString, PlacedRequest, KeyPlace, SourcePlace, Transformed, OutsideCache, Backend.InCache,
         FlatServer, AsksForTransform;
    FlatBackend();
    PresetRequests();
    FlatKey();
    FlatRenders();
    SamplePlaces();
    PlaceOfJpg(FlatServer(), BY_HEIGHT);
    PlaceOfJpg(FlatServer(), BY_PRESET);
  }

  /** A preset side of 0 is printed like a side that is not given, but sharp refuses it. */
  lemma UnsizedPresetSharesAKey()
    ensures Placed(FlatServer(), map[JPG_PLACE := [1]], [BY_HEIGHT, BY_PRESET])
    ensures Uncached(FlatServer(), map[JPG_PLACE := [1]], BY_PRESET) == ServerError
    ensures !Coherent(FlatServer(), map[JPG_PLACE := [1]], [BY_HEIGHT, BY_PRESET], false)
  {
    hide ParametersOf, Clash, Placed, Coherent, Uncached, FlatServer, SourcePlace, Transformed;
    FlatClash();
    PresetRequests();
    FlatRenders();
    FlatBackend();
    PlaceOfJpg(FlatServer(), BY_PRESET);
    SharedKeyClash(FlatServer(), map[JPG_PLACE := [1]], BY_HEIGHT, BY_PRESET, [1]);
  }

  // ---------- a path inside the cache directory ----------

  const CACHED_NAME: string := "a" + ANY_HASH + ".webp"

  /** The cached file of the first request, asked for by its own path. */
  const CACHED_FILE := Request(Some("/" + Join([CACHE_DIR, CACHED_NAME], '/')), PLAIN)

  lemma CachedPath()
    ensures SourcePlace(EchoServer(), CACHED_FILE) == File(["srv", "cache", CACHED_NAME], false)
  {
    var segments := [CACHE_DIR, CACHED_NAME];
    var p := "/" + Join(segments, '/');
    assert segments[1..] == [CACHED_NAME];
    assert Join(segments, '/') == CACHE_DIR + ['/'] + CACHED_NAME;
    assert p == "/cache/a" + ANY_HASH + ".webp";
    assert forall k: nat | k < |p| && k != 40 :: p[k] != '.';
    hide SanitizeFilePath, Backend.ReadPlace;
    OrdinaryPath(p, segments, false);
    assert ["srv"] + segments == ["srv", "cache", CACHED_NAME];
  }

  lemma PlainAsksForNothing()
    ensures ParametersOf(EchoServer(), CACHED_FILE).Some? && !AsksForTransform(EchoServer(), CACHED_FILE)
    ensures KeyPlace(EchoServer(), CACHED_FILE) == SourcePlace(EchoServer(), CACHED_FILE)
    ensures PlacedRequest(EchoServer(), CACHED_FILE)
  {
    RequestPathsAreAbsolute(EchoServer().backend, CACHED_FILE.decodedPath);
    assert IsAbsolute(CACHED_FILE.decodedPath.value);
    hide SanitizeFilePath, Backend.ReadPlace, Grounded;
  }

  lemma CachedKey()
    ensures KeyPlace(EchoServer(), WEBP_OF_JPG) == File(["srv", "cache", CACHED_NAME], false)
    ensures PlacedRequest(EchoServer(), WEBP_OF_JPG) && AsksForTransform(EchoServer(), WEBP_OF_JPG)
  {
    SamplePaths();
    SampleParts();
    FormatRequests();
    hide SanitizeFilePath, ParametersOf, Backend.ReadPlace, ParamString, Dirname, Stem, Extname, Regular, SourcePlace;
    hide StaysBelow, Grounded, CachePath, Directory;
    KeyPlaceOfTransform(EchoServer(), WEBP_OF_JPG);
    CachePathLocation(EchoServer().backend, JPG_PATH, ANY_HASH, Some("webp"));
    RootHasNoSegments();
    assert CacheName(JPG_PATH, ANY_HASH, Some("webp")) == CACHED_NAME;
    assert [CACHE_DIR] + [] + [CACHED_NAME] == [CACHE_DIR, CACHED_NAME];
    assert ["srv"] + [CACHE_DIR, CACHED_NAME] == ["srv", "cache", CACHED_NAME];
  }

  lemma RootHasNoSegments()
    ensures Directory(JPG_PATH) == []
  {
    SampleParts();
    hide Dirname, Split;
    SplitSeparatorFree("", '/');
    SplitAppend("", "", '/');
    assert "/" == "" + ['/'] + "";
    assert Clean(["", ""]) == [];
  }

  /** A request below `cache/` sees what others have cached: 404 on its own, but not in every run with them. */
  lemma CachePathSeesTheCache()
    ensures Placed(EchoServer(), map[JPG_PLACE := [1]], [WEBP_OF_JPG, CACHED_FILE])
    ensures Uncached(EchoServer(), map[JPG_PLACE := [1]], CACHED_FILE) == NotFound
    ensures !Coherent(EchoServer(), map[JPG_PLACE := [1]], [WEBP_OF_JPG, CACHED_FILE], false)
  {
    var server := EchoServer();
    FormatRequests();
    CachedPath();
    PlainAsksForNothing();
    CachedKey();
    SamplePlaces();
    assert server.backend == Local(["srv"]);
    EchoTransforms([1], ParametersOf(server, WEBP_OF_JPG).value);
    hide ParametersOf, ParamString, KeyPlace, SourcePlace, TargetPlace, Transformed, HasFocalPoint, Regular, EchoServer,
         AsksForTransform, PlacedRequest, OutsideCache, Placed, Coherent;
    CachedPathClash(EchoServer(), map[JPG_PLACE := [1]]);
  }

  lemma CachedPathClash(server: Server, sources: Store)
    requires sources == map[JPG_PLACE := [1]] && server.backend.MayHoldSource(JPG_PLACE)
    requires PlacedRequest(server, WEBP_OF_JPG) && AsksForTransform(server, WEBP_OF_JPG)
    requires SourcePlace(server, WEBP_OF_JPG) == JPG_PLACE
    requires Transformed(server.sharp, [1], ParametersOf(server, WEBP_OF_JPG).value) == Some([1])
    requires ParametersOf(server, CACHED_FILE).Some? && PlacedRequest(server, CACHED_FILE)
    requires SourcePlace(server, CACHED_FILE) == KeyPlace(server, CACHED_FILE) == KeyPlace(server, WEBP_OF_JPG)
    ensures Placed(server, sources, [WEBP_OF_JPG, CACHED_FILE])
    ensures Uncached(server, sources, CACHED_FILE) == NotFound
    ensures !Coherent(server, sources, [WEBP_OF_JPG, CACHED_FILE], false)
  {
    hide ParametersOf, ParamString, KeyPlace, SourcePlace, TargetPlace, Transformed, PlacedRequest;
    KeyPlacement(server, WEBP_OF_JPG);
    assert KeyPlace(server, CACHED_FILE) !in sources;
    assert AllowsCaching(WEBP_OF_JPG.query) && Image(server, sources, WEBP_OF_JPG) == Some([1]);
    assert [WEBP_OF_JPG, CACHED_FILE][0] == WEBP_OF_JPG && [WEBP_OF_JPG, CACHED_FILE][1] == CACHED_FILE;
    assert !CoherentPair(server, sources, false, WEBP_OF_JPG, CACHED_FILE);
  }

  // ---------- a first read that fails ----------

  /** The upload itself, with no parameters. */
  const JPG_ITSELF := Request(Some(JPG_PATH), PLAIN)

  lemma ItselfParameters()
    ensures ParametersOf(CountingServer(), JPG_ITSELF).Some? && !AsksForTransform(CountingServer(), JPG_ITSELF)
    ensures Transformed(CountingServer().sharp, [1], ParametersOf(CountingServer(), JPG_ITSELF).value) == Some([2])
  {
    hide PathOf;
  }

  lemma ReencodedUpload(server: Server, sources: Store)
    requires sources == map[JPG_PLACE := [1]] && server.backend == Local(["srv"])
    requires ParametersOf(server, JPG_ITSELF).Some? && !AsksForTransform(server, JPG_ITSELF)
    requires PathOf(server, JPG_ITSELF) == JPG_PATH && SourcePlace(server, JPG_ITSELF) == JPG_PLACE
    requires Transformed(server.sharp, [1], ParametersOf(server, JPG_ITSELF).value) == Some([2])
    ensures Placed(server, sources, [JPG_ITSELF]) && Overwrites(server, sources, true, JPG_ITSELF)
    ensures Image(server, sources, JPG_ITSELF) == Some([2])
  {
    hide PathOf, SourcePlace, ParametersOf, ParamString, Transformed, AsksForTransform, Backend.MayHoldSource;
    SamplePlaces();
  }

  lemma ItselfOverwrites()
    ensures Placed(CountingServer(), map[JPG_PLACE := [1]], [JPG_ITSELF])
    ensures SourcePlace(CountingServer(), JPG_ITSELF) == JPG_PLACE
    ensures Overwrites(CountingServer(), map[JPG_PLACE := [1]], true, JPG_ITSELF)
    ensures Image(CountingServer(), map[JPG_PLACE := [1]], JPG_ITSELF) == Some([2])
  {
    assert CountingServer().backend == Local(["srv"]);
    hide ParametersOf, SourcePlace, Transformed, AsksForTransform, Placed, Overwrites, Image, SanitizeFilePath,
         CountingServer;
    ItselfParameters();
    SamplePaths();
    PlaceOfJpg(CountingServer(), JPG_ITSELF);
    ReencodedUpload(CountingServer(), map[JPG_PLACE := [1]]);
  }

  /** `GET /a.jpg`, on local storage, whose first read fails and whose second does not: the upload is re-encoded. */
  lemma FailedReadOverwritesAnUpload() returns (run: seq<State>)
    ensures IsRun(CountingServer(), map[JPG_PLACE := [1]], [JPG_ITSELF], true, run)
    ensures run[|run| - 1].store == map[JPG_PLACE := [2]]
  {
    hide IsRun, SourcePlace, ParametersOf, Transformed, Placed, Overwrites, CountingServer;
    ItselfOverwrites();
    run := OverwritingRun(CountingServer(), map[JPG_PLACE := [1]], [JPG_ITSELF], 0);
  }
}
