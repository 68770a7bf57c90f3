/** The two handlers of the asset server as a state machine over one storage, with any number of requests in flight. */
module CacheProtocol {
  import opened Text
  import opened Paths
  import opened Sanitizer
  import opened Parameters
  import opened ParameterText
  import opened TransformImage

  type Store = map<Location, Buffer>

  /** Configuration, storage backend, image library and hash function. */
  datatype Server = Server(settings: Settings, backend: Backend, sharp: Sharp, md5: string -> string)

  datatype Response = Ok(body: Buffer) | BadRequest | NotFound | ServerError

  // ---------- keys ----------

  function PathOf(server: Server, request: Request): string {
    SanitizeFilePath(server.backend, request.decodedPath)
  }

  function FileName(server: Server, request: Request, p: ImageTransformParameters): string {
    var text := ParamString(server.settings, p);
    if text == "" then PathOf(server, request)
    else CachePath(PathOf(server, request), server.md5(text), GetValidFormat(p.format))
  }

  method GetFileNameFromParameters(server: Server, request: Request, p: ImageTransformParameters)
    returns (key: string)
    ensures key == FileName(server, request, p)
  {
    var imageParamsString := PrintParameters(server.settings, p);
    var decodedReqPath := SanitizePath(server.backend, request.decodedPath);
    if imageParamsString != "" {
      var imageParamHash := server.md5(imageParamsString);
      var suffixed := AddSuffix(decodedReqPath, imageParamHash, GetValidFormat(p.format));
      key := JoinPath(CACHE_DIR, suffixed);
    } else {
      key := decodedReqPath;
    }
  }

  function ParametersOf(server: Server, request: Request): Option<ImageTransformParameters> {
    TransformParameters(server.settings, request)
  }

  /** Where the source of a request is read from. */
  function SourcePlace(server: Server, request: Request): Location {
    server.backend.ReadPlace(PathOf(server, request))
  }

  /** Where the first handler looks. */
  function KeyPlace(server: Server, request: Request): Location
    requires ParametersOf(server, request).Some?
  {
    server.backend.ReadPlace(FileName(server, request, ParametersOf(server, request).value))
  }

  /** Where the second handler writes. */
  function TargetPlace(server: Server, request: Request): Location
    requires ParametersOf(server, request).Some?
  {
    server.backend.WritePlace(FileName(server, request, ParametersOf(server, request).value))
  }

  predicate AsksForTransform(server: Server, request: Request)
    ensures AsksForTransform(server, request) ==> ParametersOf(server, request).Some?
  {
    && ParametersOf(server, request).Some?
    && ParamString(server.settings, ParametersOf(server, request).value) != ""
  }

  /** The strategies let it through, and nothing is asked for but the file at the path. */
  predicate AsksForFile(server: Server, request: Request) {
    ParametersOf(server, request).Some? && !AsksForTransform(server, request)
  }

  /** `!req.query.cache || req.query.cache === 'true'` */
  predicate AllowsCaching(query: Query) {
    query.cache.None? || query.cache.value == "" || query.cache.value == "true"
  }

  /** What a server that never writes and whose storage never fails answers: the file at the key, or a transform. */
  function Uncached(server: Server, sources: Store, request: Request): Response {
    match ParametersOf(server, request)
    case None => BadRequest
    case Some(p) =>
      if KeyPlace(server, request) in sources then Ok(sources[KeyPlace(server, request)])
      else if SourcePlace(server, request) !in sources then NotFound
      else match Transformed(server.sharp, sources[SourcePlace(server, request)], p)
        case None => ServerError
        case Some(image) => Ok(image)
  }

  // ---------- the state machine ----------

  /** How far a request has come, what its handler holds between two awaits, and whether storage has failed it. */
  datatype Phase =
    | Start
    | Missed(faulty: bool)
    | SourceRead(file: Buffer, faulty: bool)
    | Rendered(image: Buffer, faulty: bool)
    | Stored(image: Buffer, faulty: bool)
    | Done(response: Response, faulty: bool)

  datatype State = State(store: Store, phases: seq<Phase>)

  /**
   * One uninterrupted piece of a handler, and whether what it waits for works: reading the file at the key and telling
   * its type, reading the source, rendering, writing the image, telling the image's type. The first handler takes any
   * failure for a missing file.
   */
  function Advance(server: Server, request: Request, phase: Phase, store: Store, ok: bool): (Phase, Store) {
    match phase
    case Start =>
      if ParametersOf(server, request).None? then (Done(BadRequest, false), store)
      else if KeyPlace(server, request) !in store then (Missed(false), store)
      else if ok then (Done(Ok(store[KeyPlace(server, request)]), false), store)
      else (Missed(true), store)
    case Missed(faulty) =>
      if SourcePlace(server, request) !in store then (Done(NotFound, faulty), store)
      else if ok then (SourceRead(store[SourcePlace(server, request)], faulty), store)
      else (Done(NotFound, true), store)
    case SourceRead(file, faulty) =>
      (match ParametersOf(server, request)
       case None => (Done(ServerError, faulty), store)
       case Some(p) =>
         match Transformed(server.sharp, file, p)
         case None => (Done(ServerError, faulty), store)
         case Some(image) => if ok then (Rendered(image, faulty), store) else (Done(ServerError, true), store))
    case Rendered(image, faulty) =>
      if !AllowsCaching(request.query) || ParametersOf(server, request).None? then (Stored(image, faulty), store)
      else if ok then (Stored(image, faulty), store[TargetPlace(server, request) := image])
      else (Done(ServerError, true), store)
    case Stored(image, faulty) =>
      if ok then (Done(Ok(image), faulty), store) else (Done(ServerError, true), store)
    case Done(_, _) => (phase, store)
  }

  function Initial(sources: Store, requests: seq<Request>): State {
    State(sources, seq(|requests|, _ => Start))
  }

  function Step(server: Server, requests: seq<Request>, s: State, i: nat, ok: bool): State
    requires i < |requests| == |s.phases|
  {
    var (phase, store) := Advance(server, requests[i], s.phases[i], s.store, ok);
    State(store, s.phases[i := phase])
  }

  predicate Reads(phase: Phase) {
    phase.Start? || phase.Missed?
  }

  /** What may fail in a phase: rendering and writing always, reads where they are flaky. */
  predicate Permitted(phase: Phase, flaky: bool, ok: bool) {
    ok || flaky || !Reads(phase)
  }

  /** Some request takes its next step. */
  ghost predicate Next(server: Server, requests: seq<Request>, flaky: bool, s: State, s': State) {
    && |s.phases| == |requests|
    && exists i: nat, ok: bool ::
         i < |requests| && Permitted(s.phases[i], flaky, ok) && s' == Step(server, requests, s, i, ok)
  }

  /** Any interleaving of the requests, starting from a store that holds only sources. */
  ghost predicate IsRun(server: Server, sources: Store, requests: seq<Request>, flaky: bool, run: seq<State>)
    ensures IsRun(server, sources, requests, flaky, run) ==> run != []
  {
    && run != []
    && run[0] == Initial(sources, requests)
    && forall k | 0 < k < |run| :: Next(server, requests, flaky, run[k - 1], run[k])
  }

  /** Every finished request got the uncached answer, or, where storage failed it, that answer or an error. */
  predicate Transparent(server: Server, sources: Store, requests: seq<Request>, s: State) {
    && |s.phases| == |requests|
    && forall i | 0 <= i < |requests| :: s.phases[i].Done? ==>
         Acceptable(server, sources, requests[i], s.phases[i].response, s.phases[i].faulty)
  }

  predicate Acceptable(server: Server, sources: Store, request: Request, response: Response, faulty: bool) {
    || response == Uncached(server, sources, request)
    || (faulty && (response == NotFound || response == ServerError))
  }

  // ---------- what the `cache` query does ----------

  /** What a request's `cache` query says: nothing, the empty text or `true` allow writing, anything else does not. */
  lemma CacheQueryDecides(server: Server, request: Request, image: Buffer, faulty: bool, store: Store, ok: bool)
    requires ParametersOf(server, request).Some?
    ensures request.query.cache in {None, Some(""), Some("true")} ==>
              Advance(server, request, Rendered(image, faulty), store, true)
                == (Stored(image, faulty), store[TargetPlace(server, request) := image])
    ensures request.query.cache !in {None, Some(""), Some("true")} ==>
              Advance(server, request, Rendered(image, faulty), store, ok) == (Stored(image, faulty), store)
  {
    hide TargetPlace, ParametersOf;
  }

  /** No step of a request that forbids caching changes any store. */
  lemma ForbiddenNeverWrites(server: Server, request: Request, phase: Phase, store: Store, ok: bool)
    requires request.query.cache !in {None, Some(""), Some("true")}
    ensures Advance(server, request, phase, store, ok).1 == store
  {
    hide KeyPlace, SourcePlace, TargetPlace, ParametersOf, Transformed;
  }

  predicate AllForbidden(requests: seq<Request>) {
    forall i | 0 <= i < |requests| :: requests[i].query.cache !in {None, Some(""), Some("true")}
  }

  lemma ForbiddenStep(server: Server, requests: seq<Request>, flaky: bool, s: State, s': State)
    requires AllForbidden(requests) && Next(server, requests, flaky, s, s')
    ensures s'.store == s.store
  {
    hide Advance, Permitted;
    var i: nat, ok: bool :| i < |requests| && Permitted(s.phases[i], flaky, ok)
                            && s' == Step(server, requests, s, i, ok);
    ForbiddenNeverWrites(server, requests[i], s.phases[i], s.store, ok);
  }

  /** Nor does any run of such requests: storage holds what was there at the start, whatever fails. */
  lemma {:induction false} ForbiddenRunsKeepTheStore(server: Server, sources: Store, requests: seq<Request>, flaky: bool,
                                                     run: seq<State>)
    requires AllForbidden(requests) && IsRun(server, sources, requests, flaky, run)
    ensures run[|run| - 1].store == sources
    decreases |run|
  {
    hide AllForbidden, Next;
    if |run| > 1 {
      ForbiddenRunsKeepTheStore(server, sources, requests, flaky, run[..|run| - 1]);
      ForbiddenStep(server, requests, flaky, run[|run| - 2], run[|run| - 1]);
    }
  }

  // ---------- placement: where keys and sources lie ----------

  /** A request as any client can make it: a path that begins with a slash or cannot be decoded, and proper digests. */
  predicate PlacedRequest(server: Server, request: Request) {
    && (PathOf(server, request) == "" || IsAbsolute(PathOf(server, request)))
    && (AsksForTransform(server, request) ==>
          IsHash(server.md5(ParamString(server.settings, ParametersOf(server, request).value))))
  }

  predicate PlacedSources(backend: Backend, sources: Store) {
    forall l | l in sources :: backend.MayHoldSource(l)
  }

  /** Any requests at all, and sources where uploads put them. */
  predicate Placed(server: Server, sources: Store, requests: seq<Request>) {
    && PlacedSources(server.backend, sources)
    && (forall i | 0 <= i < |requests| :: PlacedRequest(server, requests[i]))
  }

  lemma EmptyPathIsGrounded()
    ensures Grounded("")
  {
    SplitSeparatorFree(".", '/');
  }

  /** A transform is written where its key is read, in the cache directory; a plain file's key is the file. */
  lemma KeyPlacement(server: Server, request: Request)
    requires PlacedRequest(server, request) && ParametersOf(server, request).Some?
    ensures AsksForTransform(server, request) ==>
              && server.backend.InCache(KeyPlace(server, request))
              && TargetPlace(server, request) == KeyPlace(server, request)
    ensures !AsksForTransform(server, request) ==> KeyPlace(server, request) == SourcePlace(server, request)
  {
    hide SanitizeFilePath, CachePath, ParamString, StaysBelow;
    var p := ParametersOf(server, request).value;
    if AsksForTransform(server, request) {
      EmptyPathIsGrounded();
      CachePathLocation(server.backend, PathOf(server, request), server.md5(ParamString(server.settings, p)),
                        GetValidFormat(p.format));
    }
  }

  /** A plain file would be rewritten in place on local storage, but under its path as it stands on S3. */
  lemma FilePlacement(server: Server, request: Request)
    requires PlacedRequest(server, request) && AsksForFile(server, request)
    ensures server.backend.Local? ==> TargetPlace(server, request) == SourcePlace(server, request)
    ensures server.backend.S3? ==>
              && !server.backend.MayHoldSource(TargetPlace(server, request))
              && !server.backend.InCache(TargetPlace(server, request))
  {
    hide SanitizeFilePath, ParamString, ParametersOf, Resolve, Normalize;
    var path := PathOf(server, request);
    if server.backend.S3? && path != "" {
      assert (CACHE_DIR + "/")[0] == 'c' && path[0] == '/';
    }
  }

  // ---------- when requests are coherent ----------

  /** The image of the source as it was uploaded. */
  function Image(server: Server, sources: Store, request: Request): Option<Buffer> {
    match ParametersOf(server, request)
    case None => None
    case Some(p) =>
      if SourcePlace(server, request) in sources
      then Transformed(server.sharp, sources[SourcePlace(server, request)], p) else None
  }

  /** A request that may write: a plain file gets that far only if its first read fails. */
  predicate Writes(server: Server, sources: Store, flaky: bool, request: Request) {
    && ParametersOf(server, request).Some? && AllowsCaching(request.query)
    && (AsksForTransform(server, request) || flaky)
    && Image(server, sources, request).Some?
  }

  /** What the first writes is the second's answer if it is found under its key, and is never found as its source. */
  predicate CoherentPair(server: Server, sources: Store, flaky: bool, a: Request, b: Request) {
    Writes(server, sources, flaky, a) && ParametersOf(server, b).Some? ==>
      && (KeyPlace(server, b) == TargetPlace(server, a) ==>
            Uncached(server, sources, b) == Ok(Image(server, sources, a).value))
      && (SourcePlace(server, b) == TargetPlace(server, a) ==> TargetPlace(server, a) in sources)
  }

  /** Re-encoding a plain file, where that succeeds, gives the file back. */
  predicate KeepsFile(server: Server, sources: Store, request: Request) {
    AsksForFile(server, request) && SourcePlace(server, request) in sources && Image(server, sources, request).Some? ==>
      Image(server, sources, request).value == sources[SourcePlace(server, request)]
  }

  predicate Coherent(server: Server, sources: Store, requests: seq<Request>, flaky: bool) {
    && (forall i, j | 0 <= i < |requests| && 0 <= j < |requests| ::
          CoherentPair(server, sources, flaky, requests[i], requests[j]))
    && (flaky ==> forall i | 0 <= i < |requests| :: KeepsFile(server, sources, requests[i]))
  }

  // ---------- the invariant of every run ----------

  /** A request past its first read: if there was a file under its key, the read has failed. */
  predicate PastKey(server: Server, sources: Store, flaky: bool, request: Request, faulty: bool) {
    && ParametersOf(server, request).Some?
    && (KeyPlace(server, request) in sources ==> flaky && faulty)
  }

  predicate PhaseFits(server: Server, sources: Store, flaky: bool, request: Request, phase: Phase) {
    match phase
    case Start => true
    case Missed(faulty) => PastKey(server, sources, flaky, request, faulty)
    case SourceRead(file, faulty) =>
      && PastKey(server, sources, flaky, request, faulty)
      && SourcePlace(server, request) in sources && file == sources[SourcePlace(server, request)]
    case Rendered(image, faulty) =>
      PastKey(server, sources, flaky, request, faulty) && Image(server, sources, request) == Some(image)
    case Stored(image, faulty) =>
      PastKey(server, sources, flaky, request, faulty) && Image(server, sources, request) == Some(image)
    case Done(response, faulty) => Acceptable(server, sources, request, response, faulty)
  }

  /** A stored file is a source, or the image that some request wrote. */
  predicate EntryFits(server: Server, sources: Store, requests: seq<Request>, flaky: bool, l: Location, file: Buffer) {
    if l in sources then file == sources[l]
    else exists i :: 0 <= i < |requests| && Wrote(server, sources, flaky, requests[i], l, file)
  }

  predicate Wrote(server: Server, sources: Store, flaky: bool, request: Request, l: Location, file: Buffer) {
    && Writes(server, sources, flaky, request)
    && TargetPlace(server, request) == l && Image(server, sources, request) == Some(file)
  }

  predicate StoreFits(server: Server, sources: Store, requests: seq<Request>, flaky: bool, store: Store) {
    && (forall l | l in sources :: l in store)
    && (forall l | l in store :: EntryFits(server, sources, requests, flaky, l, store[l]))
  }

  predicate Invariant(server: Server, sources: Store, requests: seq<Request>, flaky: bool, s: State) {
    && |s.phases| == |requests|
    && StoreFits(server, sources, requests, flaky, s.store)
    && (forall i | 0 <= i < |requests| :: PhaseFits(server, sources, flaky, requests[i], s.phases[i]))
  }

  lemma EntryWriter(server: Server, sources: Store, requests: seq<Request>, flaky: bool, store: Store, l: Location)
    returns (i: int)
    requires StoreFits(server, sources, requests, flaky, store) && l in store && l !in sources
    ensures 0 <= i < |requests| && Wrote(server, sources, flaky, requests[i], l, store[l])
  {
    hide Wrote;
    assert EntryFits(server, sources, requests, flaky, l, store[l]);
    i :| 0 <= i < |requests| && Wrote(server, sources, flaky, requests[i], l, store[l]);
  }

  lemma StartFits(server: Server, sources: Store, requests: seq<Request>, flaky: bool, i: nat, store: Store, ok: bool)
    requires i < |requests| && Permitted(Start, flaky, ok)
    requires Coherent(server, sources, requests, flaky) && StoreFits(server, sources, requests, flaky, store)
    ensures PhaseFits(server, sources, flaky, requests[i], Advance(server, requests[i], Start, store, ok).0)
  {
    hide TargetPlace, KeyPlace, SourcePlace, ParametersOf, Transformed, ParamString, Image;
    var r := requests[i];
    if ParametersOf(server, r).Some? && KeyPlace(server, r) in store {
      var l := KeyPlace(server, r);
      assert EntryFits(server, sources, requests, flaky, l, store[l]);
      if l !in sources {
        var j := EntryWriter(server, sources, requests, flaky, store, l);
        assert CoherentPair(server, sources, flaky, requests[j], r);
      }
    }
  }

  lemma MissedFits(server: Server, sources: Store, requests: seq<Request>, flaky: bool, i: nat, faulty: bool,
                   store: Store, ok: bool)
    requires i < |requests|
    requires Placed(server, sources, requests)
    requires Coherent(server, sources, requests, flaky) && StoreFits(server, sources, requests, flaky, store)
    requires PhaseFits(server, sources, flaky, requests[i], Missed(faulty))
    ensures PhaseFits(server, sources, flaky, requests[i],
                      Advance(server, requests[i], Missed(faulty), store, ok).0)
  {
    hide TargetPlace, KeyPlace, SourcePlace, ParametersOf, Transformed, ParamString, Image;
    var r := requests[i];
    assert PlacedRequest(server, r);
    KeyPlacement(server, r);
    var l := SourcePlace(server, r);
    if l in store {
      assert EntryFits(server, sources, requests, flaky, l, store[l]);
      if l !in sources {
        var j := EntryWriter(server, sources, requests, flaky, store, l);
        assert false;
      }
    } else {
      assert l !in sources;
      assert KeyPlace(server, r) in sources ==> server.backend.MayHoldSource(KeyPlace(server, r));
    }
  }

  /** An image reaches storage as its writer's, and its own answer. */
  lemma RenderedFits(server: Server, sources: Store, requests: seq<Request>, flaky: bool, i: nat, image: Buffer,
                     faulty: bool, store: Store)
    requires i < |requests|
    requires Placed(server, sources, requests)
    requires Coherent(server, sources, requests, flaky) && StoreFits(server, sources, requests, flaky, store)
    requires PhaseFits(server, sources, flaky, requests[i], Rendered(image, faulty))
    ensures AllowsCaching(requests[i].query) ==>
              StoreFits(server, sources, requests, flaky, store[TargetPlace(server, requests[i]) := image])
    ensures Uncached(server, sources, requests[i]) == Ok(image)
  {
    hide TargetPlace, KeyPlace, SourcePlace, ParametersOf, Transformed, ParamString, AllowsCaching, StoreFits;
    var r := requests[i];
    assert PlacedRequest(server, r);
    assert KeyPlace(server, r) in sources ==> server.backend.MayHoldSource(KeyPlace(server, r));
    KeyPlacement(server, r);
    assert flaky ==> KeepsFile(server, sources, r);
    if AllowsCaching(r.query) {
      var l := TargetPlace(server, r);
      assert Wrote(server, sources, flaky, r, l, image);
      assert l in sources ==> image == sources[l] by {
        assert l in sources ==> server.backend.MayHoldSource(l);
        if AsksForFile(server, r) {
          FilePlacement(server, r);
        }
      }
      OneMoreEntry(server, sources, requests, flaky, store, i, image);
    }
  }

  lemma OneMoreEntry(server: Server, sources: Store, requests: seq<Request>, flaky: bool, store: Store, i: nat,
                     image: Buffer)
    requires i < |requests| && ParametersOf(server, requests[i]).Some?
    requires StoreFits(server, sources, requests, flaky, store)
    requires var l := TargetPlace(server, requests[i]);
      && Wrote(server, sources, flaky, requests[i], l, image)
      && (l in sources ==> image == sources[l])
    ensures StoreFits(server, sources, requests, flaky, store[TargetPlace(server, requests[i]) := image])
  {
    hide Wrote, TargetPlace;
    var l := TargetPlace(server, requests[i]);
    var store' := store[l := image];
    forall m | m in store'
      ensures EntryFits(server, sources, requests, flaky, m, store'[m])
    {
      if m != l {
        assert EntryFits(server, sources, requests, flaky, m, store[m]);
      }
    }
  }

  /** One step of one request, on whatever store the others have left. */
  lemma AdvanceKeepsInvariant(server: Server, sources: Store, requests: seq<Request>, flaky: bool, i: nat,
                              phase: Phase, store: Store, ok: bool)
    requires i < |requests| && Permitted(phase, flaky, ok)
    requires Placed(server, sources, requests) && Coherent(server, sources, requests, flaky)
    requires StoreFits(server, sources, requests, flaky, store)
    requires PhaseFits(server, sources, flaky, requests[i], phase)
    ensures var (phase', store') := Advance(server, requests[i], phase, store, ok);
      && StoreFits(server, sources, requests, flaky, store')
      && PhaseFits(server, sources, flaky, requests[i], phase')
  {
    hide StoreFits, Placed, Coherent, TargetPlace, KeyPlace, SourcePlace, ParametersOf, Transformed, AllowsCaching;
    match phase
    case Start => StartFits(server, sources, requests, flaky, i, store, ok);
    case Missed(faulty) => MissedFits(server, sources, requests, flaky, i, faulty, store, ok);
    case SourceRead(file, faulty) =>
    case Rendered(image, faulty) => RenderedFits(server, sources, requests, flaky, i, image, faulty, store);
    case Stored(image, faulty) => RenderedFits(server, sources, requests, flaky, i, image, faulty, store);
    case Done(_, _) =>
  }

  lemma StepKeepsInvariant(server: Server, sources: Store, requests: seq<Request>, flaky: bool, s: State, s': State)
    requires Placed(server, sources, requests) && Coherent(server, sources, requests, flaky)
    requires Invariant(server, sources, requests, flaky, s) && Next(server, requests, flaky, s, s')
    ensures Invariant(server, sources, requests, flaky, s')
  {
    hide PhaseFits, StoreFits, Placed, Coherent, Advance;
    var i: nat, ok: bool :| i < |requests| && Permitted(s.phases[i], flaky, ok)
                            && s' == Step(server, requests, s, i, ok);
    AdvanceKeepsInvariant(server, sources, requests, flaky, i, s.phases[i], s.store, ok);
  }

  lemma {:induction false} RunKeepsInvariant(server: Server, sources: Store, requests: seq<Request>, flaky: bool,
                                             run: seq<State>)
    requires Placed(server, sources, requests) && Coherent(server, sources, requests, flaky)
    requires IsRun(server, sources, requests, flaky, run)
    ensures Invariant(server, sources, requests, flaky, run[|run| - 1])
    decreases |run|
  {
    hide Placed, Coherent, Next, Wrote;
    if |run| > 1 {
      hide Invariant;
      RunKeepsInvariant(server, sources, requests, flaky, run[..|run| - 1]);
      StepKeepsInvariant(server, sources, requests, flaky, run[|run| - 2], run[|run| - 1]);
    }
  }

  /** Safety over every run: answers are the uncached ones, and every cached file is the uncached answer of its key. */
  lemma CacheIsTransparent(server: Server, sources: Store, requests: seq<Request>, flaky: bool, run: seq<State>)
    requires Placed(server, sources, requests) && Coherent(server, sources, requests, flaky)
    requires IsRun(server, sources, requests, flaky, run)
    ensures Transparent(server, sources, requests, run[|run| - 1])
    ensures forall i | 0 <= i < |requests| && ParametersOf(server, requests[i]).Some?
                       && KeyPlace(server, requests[i]) in run[|run| - 1].store ::
              Uncached(server, sources, requests[i]) == Ok(run[|run| - 1].store[KeyPlace(server, requests[i])])
  {
    hide KeyPlace, SourcePlace, TargetPlace, ParametersOf, ParamString, IsHash, Placed, IsRun, Transformed, Image,
         PastKey;
    RunKeepsInvariant(server, sources, requests, flaky, run);
    var s := run[|run| - 1];
    forall i | 0 <= i < |requests| && ParametersOf(server, requests[i]).Some? && KeyPlace(server, requests[i]) in s.store
      ensures Uncached(server, sources, requests[i]) == Ok(s.store[KeyPlace(server, requests[i])])
    {
      var l := KeyPlace(server, requests[i]);
      assert EntryFits(server, sources, requests, flaky, l, s.store[l]);
      if l !in sources {
        var j := EntryWriter(server, sources, requests, flaky, s.store, l);
        assert CoherentPair(server, sources, flaky, requests[j], requests[i]);
      }
    }
  }

  // ---------- and only then ----------

  /** One more step of a run. */
  lemma Extend(server: Server, sources: Store, requests: seq<Request>, flaky: bool, run: seq<State>, i: nat, ok: bool)
    returns (longer: seq<State>)
    requires IsRun(server, sources, requests, flaky, run) && i < |requests|
    requires |run[|run| - 1].phases| == |requests| && Permitted(run[|run| - 1].phases[i], flaky, ok)
    ensures IsRun(server, sources, requests, flaky, longer)
    ensures longer[|longer| - 1] == Step(server, requests, run[|run| - 1], i, ok)
  {
    hide Step;
    longer := run + [Step(server, requests, run[|run| - 1], i, ok)];
    forall k | 0 < k < |longer|
      ensures Next(server, requests, flaky, longer[k - 1], longer[k])
    {
      if k < |run| {
        assert longer[k - 1] == run[k - 1] && longer[k] == run[k];
      }
    }
  }

  /** A request begins: it misses, or where reads may fail, is made to. */
  lemma Begins(server: Server, sources: Store, requests: seq<Request>, flaky: bool, run: seq<State>, i: nat)
    returns (longer: seq<State>)
    requires IsRun(server, sources, requests, flaky, run) && i < |requests| == |run[|run| - 1].phases|
    requires run[|run| - 1].phases[i] == Start && ParametersOf(server, requests[i]).Some?
    requires KeyPlace(server, requests[i]) in run[|run| - 1].store ==> flaky
    ensures IsRun(server, sources, requests, flaky, longer)
    ensures var s, s' := run[|run| - 1], longer[|longer| - 1];
      s' == State(s.store, s.phases[i := Missed(KeyPlace(server, requests[i]) in s.store)])
  {
    hide KeyPlace, ParametersOf, IsRun;
    longer := Extend(server, sources, requests, flaky, run, i, !flaky);
  }

  /** A request that has missed reads a file, renders it and, if it caches, writes the image. */
  lemma Completes(server: Server, sources: Store, requests: seq<Request>, flaky: bool, run: seq<State>, i: nat,
                  image: Buffer) returns (longer: seq<State>)
    requires IsRun(server, sources, requests, flaky, run) && i < |requests| == |run[|run| - 1].phases|
    requires run[|run| - 1].phases[i].Missed? && ParametersOf(server, requests[i]).Some?
    requires var s := run[|run| - 1];
      && SourcePlace(server, requests[i]) in s.store
      && Transformed(server.sharp, s.store[SourcePlace(server, requests[i])], ParametersOf(server, requests[i]).value)
           == Some(image)
    ensures IsRun(server, sources, requests, flaky, longer)
    ensures var s, s' := run[|run| - 1], longer[|longer| - 1];
      s' == State(if AllowsCaching(requests[i].query) then s.store[TargetPlace(server, requests[i]) := image]
                  else s.store,
                  s.phases[i := Stored(image, s.phases[i].faulty)])
  {
    hide SourcePlace, TargetPlace, ParametersOf, Transformed, IsRun, AllowsCaching;
    var s := run[|run| - 1];
    var read := Extend(server, sources, requests, flaky, run, i, true);
    var rendered := Extend(server, sources, requests, flaky, read, i, true);
    longer := Extend(server, sources, requests, flaky, rendered, i, true);
    var s' := longer[|longer| - 1];
    assert s'.phases == s.phases[i := Stored(image, s.phases[i].faulty)];
  }

  lemma BeginningRun(server: Server, sources: Store, requests: seq<Request>, flaky: bool) returns (run: seq<State>)
    ensures IsRun(server, sources, requests, flaky, run) && run[|run| - 1] == Initial(sources, requests)
  {
    run := [Initial(sources, requests)];
  }

  /** `i` begins and writes, from a state in which its source is still the uploaded one. */
  lemma ImageIsWritten(server: Server, sources: Store, requests: seq<Request>, flaky: bool, run: seq<State>, i: nat)
    returns (longer: seq<State>)
    requires IsRun(server, sources, requests, flaky, run) && i < |requests| == |run[|run| - 1].phases|
    requires PlacedRequest(server, requests[i]) && PlacedSources(server.backend, sources)
    requires Writes(server, sources, flaky, requests[i])
    requires run[|run| - 1].store == sources && run[|run| - 1].phases[i] == Start
    ensures IsRun(server, sources, requests, flaky, longer)
    ensures var s, s', image := run[|run| - 1], longer[|longer| - 1], Image(server, sources, requests[i]).value;
      s' == State(sources[TargetPlace(server, requests[i]) := image],
                  s.phases[i := Stored(image, KeyPlace(server, requests[i]) in sources)])
  {
    hide KeyPlace, SourcePlace, TargetPlace, ParametersOf, Transformed, IsRun, AllowsCaching, ParamString;
    var r := requests[i];
    KeyPlacement(server, r);
    assert KeyPlace(server, r) in sources ==> server.backend.MayHoldSource(KeyPlace(server, r));
    var begun := Begins(server, sources, requests, flaky, run, i);
    longer := Completes(server, sources, requests, flaky, begun, i, Image(server, sources, r).value);
    var s := run[|run| - 1];
    assert s.phases[i := Missed(KeyPlace(server, r) in sources)][i := longer[|longer| - 1].phases[i]]
        == s.phases[i := longer[|longer| - 1].phases[i]];
  }

  /** A plain file that re-encoding changes is answered wrongly when its first read fails. */
  lemma ReencodedRun(server: Server, sources: Store, requests: seq<Request>, i: nat) returns (run: seq<State>)
    requires i < |requests| && PlacedRequest(server, requests[i])
    requires !KeepsFile(server, sources, requests[i])
    ensures IsRun(server, sources, requests, true, run)
    ensures !Transparent(server, sources, requests, run[|run| - 1])
  {
    hide KeyPlace, SourcePlace, TargetPlace, ParametersOf, Transformed, IsRun, AllowsCaching, ParamString;
    var r := requests[i];
    KeyPlacement(server, r);
    run := BeginningRun(server, sources, requests, true);
    run := Begins(server, sources, requests, true, run, i);
    run := Completes(server, sources, requests, true, run, i, Image(server, sources, r).value);
    run := Extend(server, sources, requests, true, run, i, true);
    assert run[|run| - 1].phases[i] == Done(Ok(Image(server, sources, r).value), true);
  }

  /** The second request finds under its key what the first wrote, which is not its answer. */
  lemma WrongHitRun(server: Server, sources: Store, requests: seq<Request>, flaky: bool, i: nat, j: nat)
    returns (run: seq<State>)
    requires i < |requests| && j < |requests| && i != j
    requires PlacedRequest(server, requests[i]) && PlacedSources(server.backend, sources)
    requires Writes(server, sources, flaky, requests[i]) && ParametersOf(server, requests[j]).Some?
    requires KeyPlace(server, requests[j]) == TargetPlace(server, requests[i])
    requires Uncached(server, sources, requests[j]) != Ok(Image(server, sources, requests[i]).value)
    ensures IsRun(server, sources, requests, flaky, run)
    ensures !Transparent(server, sources, requests, run[|run| - 1])
  {
    hide KeyPlace, SourcePlace, TargetPlace, ParametersOf, Uncached, IsRun, ParamString, Transformed;
    var image := Image(server, sources, requests[i]).value;
    hide Image, Writes;
    run := BeginningRun(server, sources, requests, flaky);
    run := ImageIsWritten(server, sources, requests, flaky, run, i);
    assert run[|run| - 1].phases[j] == Start;
    run := Extend(server, sources, requests, flaky, run, j, true);
    assert run[|run| - 1].phases[j] == Done(Ok(image), false);
  }

  /** The second request, which has no source, misses, and then finds as its source what the first wrote meanwhile. */
  lemma WrongSourceRun(server: Server, sources: Store, requests: seq<Request>, flaky: bool, i: nat, j: nat)
    returns (run: seq<State>)
    requires i < |requests| && j < |requests|
    requires PlacedRequest(server, requests[i]) && PlacedRequest(server, requests[j])
    requires PlacedSources(server.backend, sources)
    requires Writes(server, sources, flaky, requests[i]) && ParametersOf(server, requests[j]).Some?
    requires SourcePlace(server, requests[j]) == TargetPlace(server, requests[i])
    requires TargetPlace(server, requests[i]) !in sources
    ensures IsRun(server, sources, requests, flaky, run)
    ensures !Transparent(server, sources, requests, run[|run| - 1])
  {
    hide KeyPlace, SourcePlace, TargetPlace, ParametersOf, IsRun, ParamString, AllowsCaching, Transformed;
    var image := Image(server, sources, requests[i]).value;
    KeyPlacement(server, requests[j]);
    assert KeyPlace(server, requests[j]) in sources ==> server.backend.MayHoldSource(KeyPlace(server, requests[j]));
    assert Uncached(server, sources, requests[j]) == NotFound;
    run := BeginningRun(server, sources, requests, flaky);
    run := Begins(server, sources, requests, flaky, run, j);
    assert i != j;
    run := ImageIsWritten(server, sources, requests, flaky, run, i);
    hide Writes, Image, PlacedRequest;
    run := ServedFromWrongSource(server, sources, requests, flaky, run, j, image);
  }

  /** A request without a source that has missed, and finds one now, is answered otherwise than with 404. */
  lemma ServedFromWrongSource(server: Server, sources: Store, requests: seq<Request>, flaky: bool, run: seq<State>,
                              j: nat, image: Buffer) returns (longer: seq<State>)
    requires IsRun(server, sources, requests, flaky, run) && j < |requests| == |run[|run| - 1].phases|
    requires ParametersOf(server, requests[j]).Some? && run[|run| - 1].phases[j] == Missed(false)
    requires var s, place := run[|run| - 1], SourcePlace(server, requests[j]);
      place in s.store && s.store[place] == image
    requires Uncached(server, sources, requests[j]) == NotFound
    ensures IsRun(server, sources, requests, flaky, longer)
    ensures !Transparent(server, sources, requests, longer[|longer| - 1])
  {
    hide SourcePlace, TargetPlace, ParametersOf, IsRun, AllowsCaching, Transformed, Uncached;
    match Transformed(server.sharp, image, ParametersOf(server, requests[j]).value) {
      case None =>
        longer := Extend(server, sources, requests, flaky, run, j, true);
        longer := Extend(server, sources, requests, flaky, longer, j, true);
        assert longer[|longer| - 1].phases[j] == Done(ServerError, false);
      case Some(other) =>
        longer := Completes(server, sources, requests, flaky, run, j, other);
        longer := Extend(server, sources, requests, flaky, longer, j, true);
        assert longer[|longer| - 1].phases[j] == Done(Ok(other), false);
    }
  }

  /** A transform's own image is its own answer. */
  lemma OwnAnswer(server: Server, sources: Store, request: Request)
    requires PlacedRequest(server, request) && PlacedSources(server.backend, sources)
    requires AsksForTransform(server, request) && Image(server, sources, request).Some?
    ensures Uncached(server, sources, request) == Ok(Image(server, sources, request).value)
  {
    hide KeyPlace, SourcePlace, TargetPlace, ParametersOf, ParamString, Transformed, Backend.InCache;
    KeyPlacement(server, request);
    assert KeyPlace(server, request) in sources ==> server.backend.MayHoldSource(KeyPlace(server, request));
  }

  lemma OwnFile(server: Server, sources: Store, request: Request)
    requires PlacedRequest(server, request) && AsksForFile(server, request)
    requires SourcePlace(server, request) in sources
    ensures Uncached(server, sources, request) == Ok(sources[SourcePlace(server, request)])
  {
    hide KeyPlace, SourcePlace, TargetPlace, ParametersOf, ParamString, Transformed;
    KeyPlacement(server, request);
  }

  /** A run that shows requests incoherent. */
  lemma IncoherentRun(server: Server, sources: Store, requests: seq<Request>, flaky: bool) returns (run: seq<State>)
    requires Placed(server, sources, requests) && !Coherent(server, sources, requests, flaky)
    ensures IsRun(server, sources, requests, flaky, run)
    ensures !Transparent(server, sources, requests, run[|run| - 1])
  {
    hide KeyPlace, SourcePlace, TargetPlace, ParametersOf, IsRun, ParamString, AllowsCaching, Uncached, Transparent,
         PlacedSources, PlacedRequest;
    if flaky && exists i :: 0 <= i < |requests| && !KeepsFile(server, sources, requests[i]) {
      var i :| 0 <= i < |requests| && !KeepsFile(server, sources, requests[i]);
      run := ReencodedRun(server, sources, requests, i);
    } else {
      assert flaky ==> forall i | 0 <= i < |requests| :: KeepsFile(server, sources, requests[i]);
      var i, j :| 0 <= i < |requests| && 0 <= j < |requests|
                  && !CoherentPair(server, sources, flaky, requests[i], requests[j]);
      var target := TargetPlace(server, requests[i]);
      if SourcePlace(server, requests[j]) == target && target !in sources {
        run := WrongSourceRun(server, sources, requests, flaky, i, j);
      } else {
        if i == j {
          if AsksForTransform(server, requests[i]) {
            OwnAnswer(server, sources, requests[i]);
          } else {
            OwnFile(server, sources, requests[i]);
          }
        }
        run := WrongHitRun(server, sources, requests, flaky, i, j);
      }
    }
  }

  /**
   * Exactly: all runs of these requests, with or without failing reads, are transparent if and only if the requests
   * are coherent.
   */
  lemma TransparentIffCoherent(server: Server, sources: Store, requests: seq<Request>, flaky: bool)
    requires Placed(server, sources, requests)
    ensures Coherent(server, sources, requests, flaky) <==>
              forall run: seq<State> | IsRun(server, sources, requests, flaky, run) ::
                Transparent(server, sources, requests, run[|run| - 1])
  {
    hide Transparent, Placed, Coherent, Next;
    if Coherent(server, sources, requests, flaky) {
      forall run: seq<State> | IsRun(server, sources, requests, flaky, run)
        ensures Transparent(server, sources, requests, run[|run| - 1])
      {
        CacheIsTransparent(server, sources, requests, flaky, run);
      }
    } else {
      var run := IncoherentRun(server, sources, requests, flaky);
    }
  }
}
