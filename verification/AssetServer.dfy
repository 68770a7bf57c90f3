/** The asset server object: its two request handlers over the storage field they read and write. */
module AssetServing {
  import opened Text
  import opened Paths
  import opened Sanitizer
  import opened Parameters
  import opened TransformImage
  import opened CacheProtocol

  /** Which of the things a request waits for work: its first read, its source, rendering, writing, telling the type. */
  datatype Outcomes = Outcomes(first: bool, source: bool, render: bool, write: bool, kind: bool) {
    predicate AllWork() {
      first && source && render && write && kind
    }

    predicate Allowed(flaky: bool) {
      flaky || (first && source)
    }
  }

  /** What the second handler does without interruption, as four steps of the state machine. */
  function AfterMiss(server: Server, request: Request, store: Store, faulty: bool, o: Outcomes): (Phase, Store) {
    var (read, s1) := Advance(server, request, Missed(faulty), store, o.source);
    var (rendered, s2) := Advance(server, request, read, s1, o.render);
    var (stored, s3) := Advance(server, request, rendered, s2, o.write);
    Advance(server, request, stored, s3, o.kind)
  }

  /** Both handlers in turn. */
  function Served(server: Server, request: Request, store: Store, o: Outcomes): (Phase, Store) {
    var (phase, s) := Advance(server, request, Start, store, o.first);
    if phase.Missed? then AfterMiss(server, request, s, phase.faulty, o) else (phase, s)
  }

  lemma DoneStays(server: Server, request: Request, response: Response, faulty: bool, store: Store, ok: bool)
    ensures Advance(server, request, Done(response, faulty), store, ok) == (Done(response, faulty), store)
  {
  }

  /** From rendering on, by what fails and by what the `cache` query says. */
  lemma RenderedCases(server: Server, request: Request, store: Store, image: Buffer, faulty: bool, o: Outcomes)
    requires ParametersOf(server, request).Some?
    ensures var (stored, after) := Advance(server, request, Rendered(image, faulty), store, o.write);
      Advance(server, request, stored, after, o.kind)
        == if request.query.cache in {None, Some(""), Some("true")} then
             if !o.write then (Done(ServerError, true), store)
             else
               (if o.kind then Done(Ok(image), faulty) else Done(ServerError, true),
                store[TargetPlace(server, request) := image])
           else (if o.kind then Done(Ok(image), faulty) else Done(ServerError, true), store)
  {
    hide SourcePlace, KeyPlace, TargetPlace, ParametersOf, Transformed;
    var (stored, after) := Advance(server, request, Rendered(image, faulty), store, o.write);
    if request.query.cache in {None, Some(""), Some("true")} {
      assert AllowsCaching(request.query);
      if o.write {
        assert stored == Stored(image, faulty) && after == store[TargetPlace(server, request) := image];
      } else {
        assert stored == Done(ServerError, true) && after == store;
      }
    } else {
      assert !AllowsCaching(request.query);
      assert stored == Stored(image, faulty) && after == store;
    }
  }

  /** The second handler, case by case: 404, 500 or the image, and what is stored. */
  lemma AfterMissCases(server: Server, request: Request, store: Store, faulty: bool, o: Outcomes)
    ensures var place := SourcePlace(server, request);
      AfterMiss(server, request, store, faulty, o)
        == if place !in store then (Done(NotFound, faulty), store)
           else if !o.source then (Done(NotFound, true), store)
           else match ParametersOf(server, request)
           case None => (Done(ServerError, faulty), store)
           case Some(p) =>
             match Transformed(server.sharp, store[place], p)
             case None => (Done(ServerError, faulty), store)
             case Some(image) =>
               if !o.render then (Done(ServerError, true), store)
               else
                 var answer := if o.kind then Done(Ok(image), faulty) else Done(ServerError, true);
                 if request.query.cache !in {None, Some(""), Some("true")} then (answer, store)
                 else if !o.write then (Done(ServerError, true), store)
                 else (answer, store[TargetPlace(server, request) := image])
  {
    hide SourcePlace, KeyPlace, TargetPlace, ParametersOf, Transformed, AllowsCaching;
    var (read, s1) := Advance(server, request, Missed(faulty), store, o.source);
    var (rendered, s2) := Advance(server, request, read, s1, o.render);
    if rendered.Done? {
      DoneStays(server, request, rendered.response, rendered.faulty, s2, o.write);
      DoneStays(server, request, rendered.response, rendered.faulty, s2, o.kind);
    } else {
      RenderedCases(server, request, store, rendered.image, faulty, o);
    }
  }

  /** The second handler, found to have missed, when everything works: status and storage, by what is asked for. */
  lemma MissedOutcome(server: Server, request: Request, store: Store, faulty: bool, o: Outcomes)
    requires o.source && o.render && o.write && o.kind && ParametersOf(server, request).Some?
    ensures var place := SourcePlace(server, request);
      AfterMiss(server, request, store, faulty, o)
        == if place !in store then (Done(NotFound, faulty), store)
           else match Transformed(server.sharp, store[place], ParametersOf(server, request).value)
                case None => (Done(ServerError, faulty), store)
                case Some(image) =>
                  (Done(Ok(image), faulty),
                   if request.query.cache in {None, Some(""), Some("true")}
                   then store[TargetPlace(server, request) := image] else store)
  {
    hide AfterMiss, SourcePlace, TargetPlace, ParametersOf, Transformed;
    AfterMissCases(server, request, store, faulty, o);
  }

  /** Whatever fails, the second handler writes only where the query allows it, and then what it answers. */
  lemma StoreAfterMiss(server: Server, request: Request, store: Store, faulty: bool, o: Outcomes)
    ensures var (phase, after) := AfterMiss(server, request, store, faulty, o);
      && (request.query.cache !in {None, Some(""), Some("true")} ==> after == store)
      && (phase.Done? && phase.response.Ok? && request.query.cache in {None, Some(""), Some("true")} ==>
            ParametersOf(server, request).Some? && after == store[TargetPlace(server, request) := phase.response.body])
  {
    hide AfterMiss, SourcePlace, TargetPlace, ParametersOf, Transformed;
    AfterMissCases(server, request, store, faulty, o);
  }

  /** The first handler when reading works: 400 for a throwing strategy, the file on a hit, else the second handler. */
  lemma ServedOutcome(server: Server, request: Request, store: Store, o: Outcomes)
    requires o.first
    ensures ParametersOf(server, request).None? ==> Served(server, request, store, o) == (Done(BadRequest, false), store)
    ensures ParametersOf(server, request).Some? ==>
              Served(server, request, store, o)
                == if KeyPlace(server, request) in store then (Done(Ok(store[KeyPlace(server, request)]), false), store)
                   else AfterMiss(server, request, store, false, o)
  {
    hide KeyPlace, SourcePlace, TargetPlace, ParametersOf, Transformed, AfterMiss;
  }

  /** And when reading fails, a hit goes the way of a miss. */
  lemma FailedFirstRead(server: Server, request: Request, store: Store, o: Outcomes)
    requires ParametersOf(server, request).Some? && KeyPlace(server, request) in store && !o.first
    ensures Served(server, request, store, o) == AfterMiss(server, request, store, true, o)
  {
    hide KeyPlace, SourcePlace, TargetPlace, ParametersOf, Transformed, AfterMiss;
  }

  lemma MoreRequestsFit(server: Server, sources: Store, served: seq<Request>, flaky: bool, request: Request,
                        store: Store)
    requires StoreFits(server, sources, served, flaky, store)
    ensures StoreFits(server, sources, served + [request], flaky, store)
  {
    hide Wrote;
    var requests := served + [request];
    forall l | l in store
      ensures EntryFits(server, sources, requests, flaky, l, store[l])
    {
      assert EntryFits(server, sources, served, flaky, l, store[l]);
      if l !in sources {
        var i := EntryWriter(server, sources, served, flaky, store, l);
        assert requests[i] == served[i];
      }
    }
  }

  /** A phase of a request is as faulty as its outcomes allow. */
  predicate Blameless(phase: Phase, allWork: bool) {
    match phase
    case Start => true
    case Missed(faulty) => faulty ==> !allWork
    case SourceRead(_, faulty) => faulty ==> !allWork
    case Rendered(_, faulty) => faulty ==> !allWork
    case Stored(_, faulty) => faulty ==> !allWork
    case Done(_, faulty) => faulty ==> !allWork
  }

  lemma StepIsBlameless(server: Server, request: Request, phase: Phase, store: Store, ok: bool, allWork: bool)
    requires Blameless(phase, allWork) && (allWork ==> ok)
    ensures Blameless(Advance(server, request, phase, store, ok).0, allWork)
  {
    hide ParametersOf, KeyPlace, SourcePlace, TargetPlace, Transformed, AllowsCaching;
  }

  /** How far along a phase is. */
  function Progress(phase: Phase): nat {
    match phase
    case Start => 0
    case Missed(_) => 1
    case SourceRead(_, _) => 2
    case Rendered(_, _) => 3
    case Stored(_, _) => 4
    case Done(_, _) => 5
  }

  lemma StepProgresses(server: Server, request: Request, phase: Phase, store: Store, ok: bool)
    ensures var next := Advance(server, request, phase, store, ok).0;
      Progress(next) > Progress(phase) || phase.Done?
    ensures phase.Done? ==> Advance(server, request, phase, store, ok) == (phase, store)
    ensures Advance(server, request, phase, store, ok).0.Missed? || Progress(phase) > 0
              || Advance(server, request, phase, store, ok).0.Done?
  {
    hide ParametersOf, KeyPlace, SourcePlace, TargetPlace, Transformed, AllowsCaching;
  }

  /** One step of the request at `i`: what it keeps of store, phase and blame. */
  lemma OneStep(server: Server, sources: Store, requests: seq<Request>, flaky: bool, i: nat, phase: Phase,
                store: Store, ok: bool, allWork: bool)
    requires i < |requests| && Permitted(phase, flaky, ok) && (allWork ==> ok)
    requires Placed(server, sources, requests) && Coherent(server, sources, requests, flaky)
    requires StoreFits(server, sources, requests, flaky, store)
    requires PhaseFits(server, sources, flaky, requests[i], phase) && Blameless(phase, allWork)
    ensures var (phase', store') := Advance(server, requests[i], phase, store, ok);
      && StoreFits(server, sources, requests, flaky, store')
      && PhaseFits(server, sources, flaky, requests[i], phase') && Blameless(phase', allWork)
      && (Progress(phase') > Progress(phase) || phase.Done?) && (phase.Done? ==> phase'.Done?)
  {
    hide StoreFits, PhaseFits, Placed, Coherent, Advance, Blameless, Progress;
    AdvanceKeepsInvariant(server, sources, requests, flaky, i, phase, store, ok);
    StepIsBlameless(server, requests[i], phase, store, ok, allWork);
    StepProgresses(server, requests[i], phase, store, ok);
  }

  lemma AfterMissKeepsInvariant(server: Server, sources: Store, requests: seq<Request>, flaky: bool, i: nat,
                                store: Store, faulty: bool, o: Outcomes)
    requires i < |requests| && o.Allowed(flaky) && Blameless(Missed(faulty), o.AllWork())
    requires Placed(server, sources, requests) && Coherent(server, sources, requests, flaky)
    requires StoreFits(server, sources, requests, flaky, store)
    requires PhaseFits(server, sources, flaky, requests[i], Missed(faulty))
    ensures var (phase, store') := AfterMiss(server, requests[i], store, faulty, o);
      && StoreFits(server, sources, requests, flaky, store')
      && PhaseFits(server, sources, flaky, requests[i], phase)
      && phase.Done? && Blameless(phase, o.AllWork())
  {
    hide StoreFits, PhaseFits, Placed, Coherent, Advance, Blameless;
    var r := requests[i];
    var (read, s1) := Advance(server, r, Missed(faulty), store, o.source);
    OneStep(server, sources, requests, flaky, i, Missed(faulty), store, o.source, o.AllWork());
    var (rendered, s2) := Advance(server, r, read, s1, o.render);
    ReadIsOver(server, r, faulty, store, o.source);
    OneStep(server, sources, requests, flaky, i, read, s1, o.render, o.AllWork());
    var (stored, s3) := Advance(server, r, rendered, s2, o.write);
    OneStep(server, sources, requests, flaky, i, rendered, s2, o.write, o.AllWork());
    OneStep(server, sources, requests, flaky, i, stored, s3, o.kind, o.AllWork());
    FiveIsDone(Advance(server, r, stored, s3, o.kind).0);
    assert Progress(Missed(faulty)) == 1;
  }

  lemma ReadIsOver(server: Server, request: Request, faulty: bool, store: Store, ok: bool)
    ensures !Reads(Advance(server, request, Missed(faulty), store, ok).0)
  {
    hide ParametersOf, SourcePlace;
  }

  lemma FiveIsDone(phase: Phase)
    ensures Progress(phase) >= 5 ==> phase.Done?
  {
  }

  /** The request at `i` served from start to end, on whatever the others have left in storage. */
  lemma ServingKeepsInvariant(server: Server, sources: Store, requests: seq<Request>, flaky: bool, i: nat,
                              store: Store, o: Outcomes)
    requires i < |requests| && o.Allowed(flaky)
    requires Placed(server, sources, requests) && Coherent(server, sources, requests, flaky)
    requires StoreFits(server, sources, requests, flaky, store)
    ensures var (phase, store') := Served(server, requests[i], store, o);
      && StoreFits(server, sources, requests, flaky, store')
      && phase.Done? && (phase.faulty ==> !o.AllWork())
      && Acceptable(server, sources, requests[i], phase.response, phase.faulty)
  {
    hide StoreFits, Placed, Coherent, Advance, AfterMiss, PastKey, Image, Acceptable, Progress;
    OneStep(server, sources, requests, flaky, i, Start, store, o.first, o.AllWork());
    StepProgresses(server, requests[i], Start, store, o.first);
    var (phase, s) := Advance(server, requests[i], Start, store, o.first);
    if phase.Missed? {
      AfterMissKeepsInvariant(server, sources, requests, flaky, i, s, phase.faulty, o);
    } else {
      StartIsFirst();
    }
  }

  lemma StartIsFirst()
    ensures Progress(Start) == 0
  {
  }

  /** Serving one more request keeps the store coherent with all requests served, and answers as without a cache. */
  lemma ServedFits(server: Server, sources: Store, served: seq<Request>, flaky: bool, request: Request, store: Store,
                   o: Outcomes)
    requires o.Allowed(flaky)
    requires StoreFits(server, sources, served, flaky, store)
    requires Placed(server, sources, served + [request]) && Coherent(server, sources, served + [request], flaky)
    ensures var (phase, store') := Served(server, request, store, o);
      && StoreFits(server, sources, served + [request], flaky, store')
      && phase.Done? && Acceptable(server, sources, request, phase.response, !o.AllWork())
  {
    hide StoreFits, Placed, Coherent, Served, Uncached;
    var requests := served + [request];
    var last := |requests| - 1;
    assert requests[last] == request;
    MoreRequestsFit(server, sources, served, flaky, request, store);
    ServingKeepsInvariant(server, sources, requests, flaky, last, store, o);
  }

  class AssetServer {
    const server: Server
    var store: Store
    ghost const sources: Store
    ghost const flaky: bool
    ghost var served: seq<Request>

    ghost predicate Valid()
      reads this
    {
      StoreFits(server, sources, served, flaky, store)
    }

    constructor (server: Server, sources: Store, ghost flaky: bool)
      ensures Valid()
      ensures this.server == server && this.sources == sources && this.flaky == flaky
      ensures store == sources && served == []
    {
      this.server := server;
      this.store := sources;
      this.sources := sources;
      this.flaky := flaky;
      this.served := [];
    }

    /** The first handler: answer from storage under the key; whatever goes wrong there, hand over. */
    method SendAsset(request: Request, ok: bool) returns (phase: Phase)
      ensures (phase, store) == Advance(server, request, Start, store, ok)
    {
      var params := GetImageTransformParameters(server.settings, request);
      if params.None? {
        return Done(BadRequest, false);
      }
      var key := GetFileNameFromParameters(server, request, params.value);
      var place := server.backend.ReadPlace(key);
      if place in store {
        return if ok then Done(Ok(store[place]), false) else Missed(true);
      }
      return Missed(false);
    }

    /** The second handler: read the source, transform it, write it under the key unless caching is off. */
    method GenerateTransformedImage(request: Request, faulty: bool, o: Outcomes) returns (phase: Phase)
      modifies this`store
      ensures (phase, store) == AfterMiss(server, request, old(store), faulty, o)
    {
      AfterMissCases(server, request, store, faulty, o);
      hide AfterMiss, TransformParameters, PipelineOps, FileName, SanitizeFilePath, Backend.ReadPlace,
           Backend.WritePlace;
      var decodedReqPath := SanitizePath(server.backend, request.decodedPath);
      var source := server.backend.ReadPlace(decodedReqPath);
      if source !in store {
        return Done(NotFound, faulty);
      }
      if !o.source {
        return Done(NotFound, true);
      }
      var file := store[source];
      var parameters := GetImageTransformParameters(server.settings, request);
      if parameters.None? {
        return Done(ServerError, faulty);
      }
      var ops := TransformOps(server.sharp.metadata(file), parameters.value);
      if ops.None? {
        return Done(ServerError, faulty);
      }
      var image := server.sharp.render(file, ops.value);
      if image.None? {
        return Done(ServerError, faulty);
      }
      if !o.render {
        return Done(ServerError, true);
      }
      var cachedFileName := GetFileNameFromParameters(server, request, parameters.value);
      if request.query.cache.None? || request.query.cache.value == "" || request.query.cache.value == "true" {
        if !o.write {
          return Done(ServerError, true);
        }
        store := store[server.backend.WritePlace(cachedFileName) := image.value];
      }
      return if o.kind then Done(Ok(image.value), faulty) else Done(ServerError, true);
    }

    /**
     * Both handlers in turn: whatever has been served before, the answer is the one of a server without a cache, or,
     * where storage has failed this request, that answer or an error.
     */
    method Serve(request: Request, o: Outcomes) returns (response: Response)
      requires Valid() && o.Allowed(flaky)
      requires Placed(server, sources, served + [request]) && Coherent(server, sources, served + [request], flaky)
      modifies this`store, this`served
      ensures Valid() && served == old(served) + [request]
      ensures o.AllWork() ==> response == Uncached(server, sources, request)
      ensures response == Uncached(server, sources, request) || response == NotFound || response == ServerError
    {
      ServedFits(server, sources, served, flaky, request, store, o);
      hide Advance, AfterMiss, StoreFits, Uncached, Placed, Coherent;
      served := served + [request];
      var phase := SendAsset(request, o.first);
      if phase.Missed? {
        phase := GenerateTransformedImage(request, phase.faulty, o);
      }
      response := phase.response;
    }
  }
}
