/** What runs leave of the files outside the cache directory, when reads may fail and when they do not. */
module StorageSafety {
  import opened Text
  import opened Paths
  import opened Sanitizer
  import opened Parameters
  import opened TransformImage
  import opened CacheProtocol
  import opened CacheHypotheses

  // ---------- what can be found where ----------

  /** The request turns one file, found as its source, into another, written under its key. */
  predicate Makes(server: Server, request: Request, file: Buffer, l: Location, image: Buffer) {
    && AsksForTransform(server, request) && AllowsCaching(request.query) && KeyPlace(server, request) == l
    && Transformed(server.sharp, file, ParametersOf(server, request).value) == Some(image)
  }

  /** What uploads and at most `n` transforms, one upon the other, put at a place. */
  ghost predicate Obtainable(server: Server, sources: Store, requests: seq<Request>, n: nat, l: Location, file: Buffer) {
    || (l in sources && file == sources[l])
    || (n > 0 && exists j: nat, earlier: Buffer ::
          && j < |requests| && Makes(server, requests[j], earlier, l, file)
          && Obtainable(server, sources, requests, n - 1, SourcePlace(server, requests[j]), earlier))
  }

  /** A plain file, found although it was missed before, is re-encoded and written outside the cache directory. */
  ghost predicate StraysWith(server: Server, sources: Store, requests: seq<Request>, flaky: bool, r: Request,
                             n: nat, file: Buffer, image: Buffer)
  {
    && AsksForFile(server, r) && AllowsCaching(r.query)
    && !server.backend.InCache(TargetPlace(server, r))
    && Obtainable(server, sources, requests, n, SourcePlace(server, r), file)
    && (SourcePlace(server, r) in sources ==> flaky)
    && Transformed(server.sharp, file, ParametersOf(server, r).value) == Some(image)
    && (TargetPlace(server, r) in sources ==> sources[TargetPlace(server, r)] != image)
  }

  ghost predicate Strays(server: Server, sources: Store, requests: seq<Request>, flaky: bool, r: Request) {
    exists n: nat, file: Buffer, image: Buffer :: StraysWith(server, sources, requests, flaky, r, n, file, image)
  }

  /** Sources are as they were, and whatever else is stored lies in the cache directory. */
  predicate OutsideIntact(server: Server, sources: Store, store: Store) {
    && SourcesIntact(sources, store)
    && (forall l | l in store && l !in sources :: server.backend.InCache(l))
  }

  predicate SourcesIntact(sources: Store, store: Store) {
    forall l | l in sources :: l in store && store[l] == sources[l]
  }

  // ---------- if nothing strays ----------

  ghost predicate ObtainableAt(server: Server, sources: Store, requests: seq<Request>, l: Location, file: Buffer) {
    exists n: nat :: Obtainable(server, sources, requests, n, l, file)
  }

  /** In the cache directory of local storage, plain files below it may have been re-encoded any number of times. */
  ghost predicate Known(server: Server, sources: Store, requests: seq<Request>, l: Location, file: Buffer) {
    (server.backend.Local? && server.backend.InCache(l)) || ObtainableAt(server, sources, requests, l, file)
  }

  ghost predicate StoreKnown(server: Server, sources: Store, requests: seq<Request>, store: Store) {
    && OutsideIntact(server, sources, store)
    && (forall l | l in store :: Known(server, sources, requests, l, store[l]))
  }

  predicate Missable(server: Server, sources: Store, flaky: bool, r: Request) {
    && ParametersOf(server, r).Some?
    && (AsksForFile(server, r) && SourcePlace(server, r) in sources ==> flaky)
  }

  /** The image is made of something known. */
  ghost predicate KnownImage(server: Server, sources: Store, requests: seq<Request>, r: Request, image: Buffer) {
    && ParametersOf(server, r).Some?
    && exists file: Buffer ::
         && Known(server, sources, requests, SourcePlace(server, r), file)
         && Transformed(server.sharp, file, ParametersOf(server, r).value) == Some(image)
  }

  ghost predicate PhaseKnown(server: Server, sources: Store, requests: seq<Request>, flaky: bool, r: Request,
                             phase: Phase)
  {
    match phase
    case Start => true
    case Missed(_) => Missable(server, sources, flaky, r)
    case SourceRead(file, _) =>
      Missable(server, sources, flaky, r) && Known(server, sources, requests, SourcePlace(server, r), file)
    case Rendered(image, _) =>
      Missable(server, sources, flaky, r) && KnownImage(server, sources, requests, r, image)
    case Stored(_, _) => true
    case Done(_, _) => true
  }

  ghost predicate StateKnown(server: Server, sources: Store, requests: seq<Request>, flaky: bool, s: State) {
    && |s.phases| == |requests|
    && StoreKnown(server, sources, requests, s.store)
    && (forall i | 0 <= i < |requests| :: PhaseKnown(server, sources, requests, flaky, requests[i], s.phases[i]))
  }

  /** What is written is known too, and outside the cache directory nothing changes. */
  lemma WriteIsKnown(server: Server, sources: Store, requests: seq<Request>, flaky: bool, i: nat, image: Buffer,
                     store: Store)
    requires i < |requests| && PlacedRequest(server, requests[i]) && PlacedSources(server.backend, sources)
    requires AllowsCaching(requests[i].query) && !Strays(server, sources, requests, flaky, requests[i])
    requires StoreKnown(server, sources, requests, store)
    requires Missable(server, sources, flaky, requests[i])
    requires KnownImage(server, sources, requests, requests[i], image)
    ensures StoreKnown(server, sources, requests, store[TargetPlace(server, requests[i]) := image])
  {
    hide KeyPlace, SourcePlace, TargetPlace, ParametersOf, ParamString, Transformed, AllowsCaching, Obtainable,
         PlacedRequest;
    var r := requests[i];
    var target := TargetPlace(server, r);
    var file :| Known(server, sources, requests, SourcePlace(server, r), file)
                && Transformed(server.sharp, file, ParametersOf(server, r).value) == Some(image);
    KeyPlacement(server, r);
    if AsksForTransform(server, r) {
      if server.backend.S3? {
        var n: nat :| Obtainable(server, sources, requests, n, SourcePlace(server, r), file);
        OneMoreTransform(server, sources, requests, n, i, file, target, image);
      }
      assert target in sources ==> server.backend.MayHoldSource(target);
    } else {
      FilePlacement(server, r);
      FileIsKept(server, sources, requests, flaky, r, file, image);
    }
    assert Known(server, sources, requests, target, image);
  }

  lemma OneMoreTransform(server: Server, sources: Store, requests: seq<Request>, n: nat, i: nat, earlier: Buffer,
                         l: Location, image: Buffer)
    requires i < |requests| && Makes(server, requests[i], earlier, l, image)
    requires Obtainable(server, sources, requests, n, SourcePlace(server, requests[i]), earlier)
    ensures ObtainableAt(server, sources, requests, l, image)
  {
    hide Makes;
    assert Obtainable(server, sources, requests, n + 1, l, image);
  }

  /** A plain file that does not stray is written in the cache directory, or as it was. */
  lemma FileIsKept(server: Server, sources: Store, requests: seq<Request>, flaky: bool, r: Request, file: Buffer,
                   image: Buffer)
    requires PlacedRequest(server, r) && AsksForFile(server, r) && AllowsCaching(r.query)
    requires !Strays(server, sources, requests, flaky, r) && Missable(server, sources, flaky, r)
    requires Known(server, sources, requests, SourcePlace(server, r), file)
    requires Transformed(server.sharp, file, ParametersOf(server, r).value) == Some(image)
    ensures var target := TargetPlace(server, r);
      if server.backend.InCache(target) then server.backend.Local?
      else target in sources && sources[target] == image
  {
    hide KeyPlace, SourcePlace, TargetPlace, ParametersOf, ParamString, Transformed, AllowsCaching, Obtainable;
    FilePlacement(server, r);
    if !server.backend.InCache(TargetPlace(server, r)) {
      var n: nat :| Obtainable(server, sources, requests, n, SourcePlace(server, r), file);
      assert !StraysWith(server, sources, requests, flaky, r, n, file, image);
    }
  }

  lemma AdvanceIsKnown(server: Server, sources: Store, requests: seq<Request>, flaky: bool, i: nat, phase: Phase,
                       store: Store, ok: bool)
    requires i < |requests| && PlacedRequest(server, requests[i]) && PlacedSources(server.backend, sources)
    requires Permitted(phase, flaky, ok) && !Strays(server, sources, requests, flaky, requests[i])
    requires StoreKnown(server, sources, requests, store)
    requires PhaseKnown(server, sources, requests, flaky, requests[i], phase)
    ensures var (phase', store') := Advance(server, requests[i], phase, store, ok);
      && StoreKnown(server, sources, requests, store')
      && PhaseKnown(server, sources, requests, flaky, requests[i], phase')
  {
    hide KeyPlace, SourcePlace, TargetPlace, ParametersOf, ParamString, Transformed, AllowsCaching, Known, Strays,
         PlacedSources;
    var r := requests[i];
    match phase
    case Start =>
      if ParametersOf(server, r).Some? {
        KeyPlacement(server, r);
      }
    case Missed(_) =>
    case SourceRead(file, _) =>
    case Rendered(image, _) =>
      if AllowsCaching(r.query) {
        WriteIsKnown(server, sources, requests, flaky, i, image, store);
      }
    case Stored(_, _) =>
    case Done(_, _) =>
  }

  lemma StepIsKnown(server: Server, sources: Store, requests: seq<Request>, flaky: bool, s: State, s': State)
    requires Placed(server, sources, requests)
    requires forall i | 0 <= i < |requests| :: !Strays(server, sources, requests, flaky, requests[i])
    requires StateKnown(server, sources, requests, flaky, s) && Next(server, requests, flaky, s, s')
    ensures StateKnown(server, sources, requests, flaky, s')
  {
    hide PhaseKnown, StoreKnown, PlacedRequest, PlacedSources, Advance, Strays, Permitted;
    var i: nat, ok: bool :| i < |requests| && Permitted(s.phases[i], flaky, ok)
                            && s' == Step(server, requests, s, i, ok);
    AdvanceIsKnown(server, sources, requests, flaky, i, s.phases[i], s.store, ok);
  }

  lemma InitialIsKnown(server: Server, sources: Store, requests: seq<Request>, flaky: bool)
    ensures StateKnown(server, sources, requests, flaky, Initial(sources, requests))
  {
    forall l | l in sources
      ensures Known(server, sources, requests, l, sources[l])
    {
      assert Obtainable(server, sources, requests, 0, l, sources[l]);
    }
  }

  lemma {:induction false} RunIsKnown(server: Server, sources: Store, requests: seq<Request>, flaky: bool,
                                      run: seq<State>)
    requires Placed(server, sources, requests)
    requires forall i | 0 <= i < |requests| :: !Strays(server, sources, requests, flaky, requests[i])
    requires IsRun(server, sources, requests, flaky, run)
    ensures StateKnown(server, sources, requests, flaky, run[|run| - 1])
    decreases |run|
  {
    hide StateKnown, Placed, Next, Strays;
    if |run| == 1 {
      InitialIsKnown(server, sources, requests, flaky);
    } else {
      RunIsKnown(server, sources, requests, flaky, run[..|run| - 1]);
      StepIsKnown(server, sources, requests, flaky, run[|run| - 2], run[|run| - 1]);
    }
  }

  // ---------- and only then ----------

  /** How many segments an object's key has. */
  function Depth(l: Location): nat {
    match l
    case File(_, _) => 0
    case Object(key) => |Split(key, '/')|
  }

  /** The key made of a path that is read from a key lies deeper. */
  lemma KeysOfKeysAreDeeper(server: Server, r: Request, other: Request)
    requires server.backend.S3? && PlacedRequest(server, r) && PlacedRequest(server, other)
    requires AsksForTransform(server, r) && AsksForTransform(server, other)
    requires SourcePlace(server, r) == KeyPlace(server, other)
    ensures Depth(KeyPlace(server, r)) > Depth(SourcePlace(server, r))
  {
    hide PathOf, ParamString, ParametersOf, Directory, CacheName, IsHash, CachePath, StaysBelow, Split, Join, Stem,
         EffectiveExtension;
    EmptyPathIsGrounded();
    var p, q := ParametersOf(server, r).value, ParametersOf(server, other).value;
    var hash, otherHash := server.md5(ParamString(server.settings, p)), server.md5(ParamString(server.settings, q));
    var mine := [CACHE_DIR] + Directory(PathOf(server, r))
                + [CacheName(PathOf(server, r), hash, GetValidFormat(p.format))];
    var named := [CACHE_DIR] + Directory(PathOf(server, other))
                 + [CacheName(PathOf(server, other), otherHash, GetValidFormat(q.format))];
    KeyIsBelow(server, r);
    KeyIsBelow(server, other);
    DirectoryKeyIsPlain(PathOf(server, r), hash, GetValidFormat(p.format));
    DirectoryKeyIsPlain(PathOf(server, other), otherHash, GetValidFormat(q.format));
    SplitJoin(mine, '/');
    SplitJoin(named, '/');
    KeysGoDeeper(PathOf(server, r), named);
  }

  lemma KeyIsBelow(server: Server, r: Request)
    requires PlacedRequest(server, r) && AsksForTransform(server, r)
    ensures var p := ParametersOf(server, r).value;
      var hash := server.md5(ParamString(server.settings, p));
      && IsHash(hash)
      && KeyPlace(server, r)
           == server.backend.Below([CACHE_DIR] + Directory(PathOf(server, r))
                                   + [CacheName(PathOf(server, r), hash, GetValidFormat(p.format))])
  {
    hide SanitizeFilePath, ParamString, TransformParameters, Directory, CacheName, IsHash, CachePath, StaysBelow,
         Backend.ReadPlace, Backend.Below;
    EmptyPathIsGrounded();
    var p := ParametersOf(server, r).value;
    CachePathLocation(server.backend, PathOf(server, r), server.md5(ParamString(server.settings, p)),
                      GetValidFormat(p.format));
  }

  /** Nothing has moved but the request `i`, and transforms whose keys are at most so deep. */
  ghost predicate OnlyShallow(server: Server, sources: Store, requests: seq<Request>, i: nat, depth: nat, s: State) {
    && |s.phases| == |requests|
    && (forall k | 0 <= k < |requests| && k != i && s.phases[k] != Start ::
          AsksForTransform(server, requests[k]) && Depth(KeyPlace(server, requests[k])) <= depth)
    && (forall l | l in s.store :: l in sources || Depth(l) <= depth)
  }

  /** What is obtainable at a place is put there by some run, while the request `i` waits. */
  lemma {:induction false} Obtain(server: Server, sources: Store, requests: seq<Request>, flaky: bool, i: nat,
                                  start: seq<State>, n: nat, l: Location, file: Buffer) returns (run: seq<State>)
    requires Placed(server, sources, requests) && i < |requests| && AsksForFile(server, requests[i])
    requires IsRun(server, sources, requests, flaky, start)
    requires var s := start[|start| - 1];
      s.store == sources && |s.phases| == |requests| && forall k | 0 <= k < |requests| && k != i :: s.phases[k] == Start
    requires Obtainable(server, sources, requests, n, l, file)
    requires server.backend.S3? || l in sources
    ensures IsRun(server, sources, requests, flaky, run)
    ensures var s := run[|run| - 1];
      && |s.phases| == |requests| && OnlyShallow(server, sources, requests, i, Depth(l), s)
      && s.phases[i] == start[|start| - 1].phases[i]
      && l in s.store && s.store[l] == file
    ensures l in sources ==> run == start
    decreases n
  {
    hide SourcePlace, IsRun, Depth, OnlyShallow, PlacedSources, PlacedRequest, Makes, AsksForFile;
    if l in sources {
      ObtainableUpload(server, sources, requests, n, l, file);
      StartIsShallow(server, sources, requests, i, Depth(l), start[|start| - 1]);
      run := start;
    } else {
      var j: nat, earlier: Buffer :| j < |requests| && Makes(server, requests[j], earlier, l, file)
        && Obtainable(server, sources, requests, n - 1, SourcePlace(server, requests[j]), earlier);
      run := Obtain(server, sources, requests, flaky, i, start, n - 1, SourcePlace(server, requests[j]), earlier);
      run := ObtainOneMore(server, sources, requests, flaky, i, start[|start| - 1], run, n - 1, j, earlier, l, file);
    }
  }

  /** Once a transform's source has been obtained, so is its image. */
  lemma ObtainOneMore(server: Server, sources: Store, requests: seq<Request>, flaky: bool, i: nat, s0: State,
                      run: seq<State>, n: nat, j: nat, earlier: Buffer, l: Location, file: Buffer)
    returns (longer: seq<State>)
    requires Placed(server, sources, requests) && server.backend.S3?
    requires i < |requests| && j < |requests| && AsksForFile(server, requests[i])
    requires Makes(server, requests[j], earlier, l, file)
    requires Obtainable(server, sources, requests, n, SourcePlace(server, requests[j]), earlier)
    requires s0.store == sources && |s0.phases| == |requests|
    requires forall k | 0 <= k < |requests| && k != i :: s0.phases[k] == Start
    requires IsRun(server, sources, requests, flaky, run)
    requires var s, place := run[|run| - 1], SourcePlace(server, requests[j]);
      && |s.phases| == |requests| && OnlyShallow(server, sources, requests, i, Depth(place), s)
      && place in s.store && s.store[place] == earlier
      && (place in sources ==> s == s0)
    ensures IsRun(server, sources, requests, flaky, longer)
    ensures var s := longer[|longer| - 1];
      && |s.phases| == |requests| && OnlyShallow(server, sources, requests, i, Depth(l), s)
      && s.phases[i] == run[|run| - 1].phases[i]
      && l in s.store && s.store[l] == file
  {
    hide SourcePlace, IsRun, Depth, OnlyShallow, PlacedSources, PlacedRequest, Makes, AsksForFile, Obtainable;
    var s := run[|run| - 1];
    MakingAsks(server, requests[j], earlier, l, file);
    NotYetMoved(server, sources, requests, n, i, j, earlier, s0, s);
    longer := MakeOneMore(server, sources, requests, flaky, run, j, earlier, l, file);
    StillShallow(server, sources, requests, i, j, Depth(SourcePlace(server, requests[j])), s, l, file);
  }

  lemma StartIsShallow(server: Server, sources: Store, requests: seq<Request>, i: nat, depth: nat, s: State)
    requires s.store == sources && |s.phases| == |requests|
    requires forall k | 0 <= k < |requests| && k != i :: s.phases[k] == Start
    ensures OnlyShallow(server, sources, requests, i, depth, s)
  {
  }

  lemma MakingAsks(server: Server, request: Request, file: Buffer, l: Location, image: Buffer)
    requires Makes(server, request, file, l, image)
    ensures AsksForTransform(server, request) && KeyPlace(server, request) == l
  {
  }

  /** A transform that has not begun makes its image. */
  lemma MakeOneMore(server: Server, sources: Store, requests: seq<Request>, flaky: bool, run: seq<State>, j: nat,
                    earlier: Buffer, l: Location, file: Buffer) returns (longer: seq<State>)
    requires IsRun(server, sources, requests, flaky, run) && j < |requests| == |run[|run| - 1].phases|
    requires PlacedRequest(server, requests[j]) && Makes(server, requests[j], earlier, l, file)
    requires var s := run[|run| - 1];
      && s.phases[j] == Start && l !in s.store
      && SourcePlace(server, requests[j]) in s.store && s.store[SourcePlace(server, requests[j])] == earlier
    ensures IsRun(server, sources, requests, flaky, longer)
    ensures var s := run[|run| - 1];
      longer[|longer| - 1] == State(s.store[l := file], s.phases[j := Stored(file, false)])
  {
    hide KeyPlace, SourcePlace, TargetPlace, ParametersOf, ParamString, Transformed, AllowsCaching, IsRun,
         Backend.InCache, PlacedRequest;
    KeyPlacement(server, requests[j]);
    longer := Begins(server, sources, requests, flaky, run, j);
    longer := Completes(server, sources, requests, flaky, longer, j, file);
    assert run[|run| - 1].phases[j := Missed(false)][j := Stored(file, false)]
        == run[|run| - 1].phases[j := Stored(file, false)];
  }

  lemma StillShallow(server: Server, sources: Store, requests: seq<Request>, i: nat, j: nat, depth: nat, s: State,
                     l: Location, file: Buffer)
    requires i < |requests| && j < |requests| && i != j && |s.phases| == |requests|
    requires AsksForTransform(server, requests[j]) && KeyPlace(server, requests[j]) == l
    requires OnlyShallow(server, sources, requests, i, depth, s)
    requires depth < Depth(l) || (s.store == sources && forall k | 0 <= k < |requests| && k != i :: s.phases[k] == Start)
    ensures OnlyShallow(server, sources, requests, i, Depth(l),
                        State(s.store[l := file], s.phases[j := Stored(file, false)]))
  {
    hide KeyPlace, AsksForTransform, Depth;
  }

  lemma ObtainableUpload(server: Server, sources: Store, requests: seq<Request>, n: nat, l: Location, file: Buffer)
    requires Placed(server, sources, requests) && l in sources
    requires Obtainable(server, sources, requests, n, l, file)
    ensures file == sources[l]
  {
    hide SourcePlace, KeyPlace, ParametersOf, ParamString, Transformed, AllowsCaching, Backend.InCache;
    assert server.backend.MayHoldSource(l);
    if file != sources[l] {
      var j: nat, earlier: Buffer :| j < |requests| && Makes(server, requests[j], earlier, l, file)
        && Obtainable(server, sources, requests, n - 1, SourcePlace(server, requests[j]), earlier);
      KeyPlacement(server, requests[j]);
      assert false;
    }
  }

  /** A transform whose source has just been obtained has not begun, and its key is not taken. */
  lemma NotYetMoved(server: Server, sources: Store, requests: seq<Request>, n: nat, i: nat, j: nat, earlier: Buffer,
                    s0: State, s: State)
    requires Placed(server, sources, requests) && server.backend.S3?
    requires i < |requests| && j < |requests| && AsksForFile(server, requests[i])
    requires AsksForTransform(server, requests[j])
    requires Obtainable(server, sources, requests, n, SourcePlace(server, requests[j]), earlier)
    requires OnlyShallow(server, sources, requests, i, Depth(SourcePlace(server, requests[j])), s)
    requires SourcePlace(server, requests[j]) in sources ==> s == s0
    requires s0.store == sources && |s0.phases| == |requests|
    requires forall k | 0 <= k < |requests| && k != i :: s0.phases[k] == Start
    ensures j != i && s.phases[j] == Start && KeyPlace(server, requests[j]) !in s.store
    ensures SourcePlace(server, requests[j]) in sources
              || Depth(KeyPlace(server, requests[j])) > Depth(SourcePlace(server, requests[j]))
  {
    hide SourcePlace, KeyPlace, ParametersOf, ParamString, Transformed, AllowsCaching, Backend.InCache, Depth;
    KeyPlacement(server, requests[j]);
    var key, place := KeyPlace(server, requests[j]), SourcePlace(server, requests[j]);
    assert key in sources ==> server.backend.MayHoldSource(key);
    if place !in sources {
      var k: nat, even: Buffer :| k < |requests| && Makes(server, requests[k], even, place, earlier)
        && Obtainable(server, sources, requests, n - 1, SourcePlace(server, requests[k]), even);
      KeysOfKeysAreDeeper(server, requests[j], requests[k]);
    }
  }

  /** The run in which a plain file strays. */
  lemma StrayRun(server: Server, sources: Store, requests: seq<Request>, flaky: bool, i: nat) returns (run: seq<State>)
    requires Placed(server, sources, requests) && i < |requests|
    requires Strays(server, sources, requests, flaky, requests[i])
    ensures IsRun(server, sources, requests, flaky, run)
    ensures !OutsideIntact(server, sources, run[|run| - 1].store)
  {
    hide KeyPlace, SourcePlace, TargetPlace, ParametersOf, ParamString, Transformed, AllowsCaching, IsRun, Obtainable,
         Depth;
    var r := requests[i];
    var n: nat, file: Buffer, image: Buffer :| StraysWith(server, sources, requests, flaky, r, n, file, image);
    KeyPlacement(server, r);
    FilePlacement(server, r);
    if server.backend.Local? {
      LocalUpload(server, sources, requests, n, SourcePlace(server, r), file);
    }
    run := BeginningRun(server, sources, requests, flaky);
    run := Begins(server, sources, requests, flaky, run, i);
    run := Obtain(server, sources, requests, flaky, i, run, n, SourcePlace(server, r), file);
    run := Completes(server, sources, requests, flaky, run, i, image);
    assert run[|run| - 1].store[TargetPlace(server, r)] == image;
  }

  lemma LocalUpload(server: Server, sources: Store, requests: seq<Request>, n: nat, l: Location, file: Buffer)
    requires Placed(server, sources, requests)
    requires Obtainable(server, sources, requests, n, l, file) && !server.backend.InCache(l)
    ensures l in sources && file == sources[l]
  {
    hide SourcePlace, KeyPlace, ParametersOf, ParamString, Transformed, AllowsCaching, Backend.InCache;
    if !(l in sources && file == sources[l]) {
      var j: nat, earlier: Buffer :| j < |requests| && Makes(server, requests[j], earlier, l, file)
        && Obtainable(server, sources, requests, n - 1, SourcePlace(server, requests[j]), earlier);
      KeyPlacement(server, requests[j]);
      assert false;
    }
  }

  /**
   * Exactly: no run writes outside the cache directory, or over a source, if and only if no request for a plain file
   * strays. Requests and paths may be any.
   */
  lemma OutsideIntactIff(server: Server, sources: Store, requests: seq<Request>, flaky: bool)
    requires Placed(server, sources, requests)
    ensures (forall i | 0 <= i < |requests| :: !Strays(server, sources, requests, flaky, requests[i])) <==>
              forall run: seq<State> | IsRun(server, sources, requests, flaky, run) ::
                OutsideIntact(server, sources, run[|run| - 1].store)
  {
    hide Strays, Placed, OutsideIntact, Next, PhaseKnown, Known;
    if forall i | 0 <= i < |requests| :: !Strays(server, sources, requests, flaky, requests[i]) {
      forall run: seq<State> | IsRun(server, sources, requests, flaky, run)
        ensures OutsideIntact(server, sources, run[|run| - 1].store)
      {
        RunIsKnown(server, sources, requests, flaky, run);
      }
    } else {
      var i :| 0 <= i < |requests| && Strays(server, sources, requests, flaky, requests[i]);
      var run := StrayRun(server, sources, requests, flaky, i);
    }
  }

  // ---------- what a caller can check ----------

  /** A plain file, on local storage, that may be cached and whose re-encoding differs from it. */
  predicate Overwrites(server: Server, sources: Store, flaky: bool, r: Request) {
    && flaky && server.backend.Local? && AsksForFile(server, r) && AllowsCaching(r.query)
    && !KeepsFile(server, sources, r)
  }

  /** On local storage that is all that strays: nothing does while reads work. */
  lemma StraysLocallyIff(server: Server, sources: Store, requests: seq<Request>, flaky: bool, r: Request)
    requires Placed(server, sources, requests) && PlacedRequest(server, r) && server.backend.Local?
    ensures Strays(server, sources, requests, flaky, r) <==> Overwrites(server, sources, flaky, r)
  {
    hide KeyPlace, SourcePlace, TargetPlace, ParametersOf, ParamString, Transformed, AllowsCaching, PlacedRequest;
    if Strays(server, sources, requests, flaky, r) {
      hide Obtainable;
      var n: nat, file: Buffer, image: Buffer :| StraysWith(server, sources, requests, flaky, r, n, file, image);
      FilePlacement(server, r);
      LocalUpload(server, sources, requests, n, SourcePlace(server, r), file);
    }
    if Overwrites(server, sources, flaky, r) {
      FilePlacement(server, r);
      var file := sources[SourcePlace(server, r)];
      assert server.backend.MayHoldSource(SourcePlace(server, r));
      assert Obtainable(server, sources, requests, 0, SourcePlace(server, r), file);
      assert StraysWith(server, sources, requests, flaky, r, 0, file, Image(server, sources, r).value);
    }
  }

  /** On S3 a plain upload strays, under its path as it stands, exactly when its first read may fail and it renders. */
  lemma UploadStraysOnS3Iff(server: Server, sources: Store, requests: seq<Request>, flaky: bool, r: Request)
    requires Placed(server, sources, requests) && PlacedRequest(server, r) && server.backend.S3?
    requires AsksForFile(server, r) && SourcePlace(server, r) in sources
    ensures Strays(server, sources, requests, flaky, r) <==>
              flaky && AllowsCaching(r.query) && Image(server, sources, r).Some?
  {
    hide KeyPlace, SourcePlace, TargetPlace, ParametersOf, ParamString, Transformed, AllowsCaching, PlacedRequest;
    FilePlacement(server, r);
    assert TargetPlace(server, r) !in sources;
    var file := sources[SourcePlace(server, r)];
    if Strays(server, sources, requests, flaky, r) {
      hide Obtainable;
      var n: nat, found: Buffer, image: Buffer :| StraysWith(server, sources, requests, flaky, r, n, found, image);
      ObtainableUpload(server, sources, requests, n, SourcePlace(server, r), found);
    }
    if flaky && AllowsCaching(r.query) && Image(server, sources, r).Some? {
      assert Obtainable(server, sources, requests, 0, SourcePlace(server, r), file);
      assert StraysWith(server, sources, requests, flaky, r, 0, file, Image(server, sources, r).value);
    }
  }

  /** And when its path is a cached file's, as soon as the file it is made of renders, failing reads or not. */
  lemma CachedFileStraysOnS3(server: Server, sources: Store, requests: seq<Request>, flaky: bool, r: Request, j: nat)
    requires Placed(server, sources, requests) && PlacedRequest(server, r) && server.backend.S3? && j < |requests|
    requires AsksForFile(server, r) && AllowsCaching(r.query)
    requires AsksForTransform(server, requests[j]) && Writes(server, sources, false, requests[j])
    requires SourcePlace(server, r) == KeyPlace(server, requests[j])
    requires Transformed(server.sharp, Image(server, sources, requests[j]).value, ParametersOf(server, r).value).Some?
    ensures Strays(server, sources, requests, flaky, r)
  {
    hide KeyPlace, SourcePlace, TargetPlace, ParametersOf, ParamString, Transformed, AllowsCaching, PlacedRequest,
         Backend.InCache;
    KeyPlacement(server, requests[j]);
    FilePlacement(server, r);
    var file, made := sources[SourcePlace(server, requests[j])], Image(server, sources, requests[j]).value;
    var image := Transformed(server.sharp, made, ParametersOf(server, r).value).value;
    assert TargetPlace(server, r) !in sources;
    assert SourcePlace(server, r) in sources ==> server.backend.MayHoldSource(SourcePlace(server, r));
    assert Makes(server, requests[j], file, SourcePlace(server, r), made);
    assert Obtainable(server, sources, requests, 0, SourcePlace(server, requests[j]), file);
    assert Obtainable(server, sources, requests, 1, SourcePlace(server, r), made);
    assert StraysWith(server, sources, requests, flaky, r, 1, made, image);
  }

  /** Whatever is stored and whatever the library, no plain file strays while reads work. */
  ghost predicate NeverStrays(server: Server, requests: seq<Request>) {
    forall sources: Store, sharp: Sharp, i: nat
      | PlacedSources(server.backend, sources) && SizelessResizeIgnoresFit(sharp) && i < |requests| ::
      !Strays(WithLibrary(server, sharp), sources, requests, false, requests[i])
  }

  /** A plain file that may be cached is read from the key of a transform that may be cached. */
  predicate ReadsKeyOf(server: Server, r: Request, other: Request) {
    && AsksForFile(server, r) && AllowsCaching(r.query)
    && AsksForTransform(server, other) && AllowsCaching(other.query)
    && SourcePlace(server, r) == KeyPlace(server, other)
  }

  /** A library that makes something of everything. */
  function MakesAll(): Sharp {
    Sharp(_ => Some(SIZELESS), (b: Buffer, ops: seq<Op>) => Some([1]))
  }

  lemma MakesAllOf(source: Buffer, p: ImageTransformParameters)
    ensures SizelessResizeIgnoresFit(MakesAll()) && Transformed(MakesAll(), source, p) == Some([1])
  {
    hide StartOps;
    SizelessPipeline(p);
  }

  /** While reads work only a cached file can stray: what is found after a miss was put there meanwhile. */
  lemma StrayIsCached(server: Server, sources: Store, requests: seq<Request>, r: Request) returns (j: nat)
    requires Strays(server, sources, requests, false, r)
    ensures j < |requests| && ReadsKeyOf(server, r, requests[j])
  {
    hide SourcePlace, KeyPlace, ParametersOf, ParamString, Transformed, AllowsCaching, TargetPlace, Backend.InCache;
    var n: nat, file: Buffer, image: Buffer :| StraysWith(server, sources, requests, false, r, n, file, image);
    var earlier: Buffer;
    j, earlier :| j < |requests| && Makes(server, requests[j], earlier, SourcePlace(server, r), file)
      && Obtainable(server, sources, requests, n - 1, SourcePlace(server, requests[j]), earlier);
  }

  lemma StraysForSome(server: Server, requests: seq<Request>, i: nat, j: nat) returns (sources: Store)
    requires server.backend.S3? && i < |requests| && j < |requests|
    requires forall k | 0 <= k < |requests| :: PlacedRequest(server, requests[k])
    requires ReadsKeyOf(server, requests[i], requests[j])
    requires server.backend.MayHoldSource(SourcePlace(server, requests[j]))
    ensures PlacedSources(server.backend, sources)
    ensures Strays(WithLibrary(server, MakesAll()), sources, requests, false, requests[i])
  {
    hide SourcePlace, KeyPlace, ParametersOf, ParamString, Transformed, AllowsCaching, TargetPlace, Backend.InCache,
         PlacedRequest, MakesAll, Strays, AsksForTransform;
    var b := requests[j];
    var other := WithLibrary(server, MakesAll());
    sources := map[SourcePlace(server, b) := [1]];
    KeysIgnoreLibrary(server, MakesAll(), b);
    PlacedWithLibrary(server, MakesAll(), sources, requests);
    ReadsIgnoreLibrary(server, MakesAll(), requests[i], b);
    assert other.sharp == MakesAll() && other.backend == server.backend;
    hide WithLibrary;
    StraysWhereAllIsMade(other, sources, requests, i, j);
  }

  lemma StraysWhereAllIsMade(server: Server, sources: Store, requests: seq<Request>, i: nat, j: nat)
    requires server.backend.S3? && server.sharp == MakesAll() && i < |requests| && j < |requests|
    requires Placed(server, sources, requests) && ReadsKeyOf(server, requests[i], requests[j])
    requires sources == map[SourcePlace(server, requests[j]) := [1]]
    ensures Strays(server, sources, requests, false, requests[i])
  {
    hide SourcePlace, KeyPlace, ParametersOf, ParamString, Transformed, AllowsCaching, TargetPlace, Backend.InCache,
         PlacedRequest, MakesAll, Strays, PlacedSources;
    var a, b := requests[i], requests[j];
    MakesAllOf([1], ParametersOf(server, a).value);
    MakesAllOf([1], ParametersOf(server, b).value);
    assert Image(server, sources, b) == Some([1]);
    CachedFileStraysOnS3(server, sources, requests, false, a, j);
  }

  /**
   * Exactly, on S3: whatever is stored and whatever the library, no plain file strays while reads work if and only if
   * none is read from the key of a transform that may be cached.
   */
  lemma NeverStraysOnS3Iff(server: Server, requests: seq<Request>)
    requires server.backend.S3? && forall i | 0 <= i < |requests| :: PlacedRequest(server, requests[i])
    requires forall i | 0 <= i < |requests|
                        && AsksForTransform(server, requests[i]) && AllowsCaching(requests[i].query) ::
               server.backend.MayHoldSource(SourcePlace(server, requests[i]))
    ensures NeverStrays(server, requests) <==>
              forall i, j | 0 <= i < |requests| && 0 <= j < |requests| :: !ReadsKeyOf(server, requests[i], requests[j])
  {
    hide Strays, SizelessResizeIgnoresFit, PlacedSources, PlacedRequest, WithLibrary, ParamString, ParametersOf,
         SourcePlace, KeyPlace, AllowsCaching, Backend.InCache;
    if NeverStrays(server, requests) {
      forall i, j | 0 <= i < |requests| && 0 <= j < |requests|
        ensures !ReadsKeyOf(server, requests[i], requests[j])
      {
        if ReadsKeyOf(server, requests[i], requests[j]) {
          var sources := StraysForSome(server, requests, i, j);
          MakesAllOf([1], ParametersOf(server, requests[i]).value);
          assert false;
        }
      }
    } else {
      var sources: Store, sharp: Sharp, i: nat
        :| PlacedSources(server.backend, sources) && SizelessResizeIgnoresFit(sharp) && i < |requests|
           && Strays(WithLibrary(server, sharp), sources, requests, false, requests[i]);
      var j := StrayIsCached(WithLibrary(server, sharp), sources, requests, requests[i]);
      ReadsIgnoreLibrary(server, sharp, requests[i], requests[j]);
    }
  }

  lemma ReadsIgnoreLibrary(server: Server, sharp: Sharp, r: Request, other: Request)
    ensures ReadsKeyOf(WithLibrary(server, sharp), r, other) <==> ReadsKeyOf(server, r, other)
  {
    KeysIgnoreLibrary(server, sharp, r);
    KeysIgnoreLibrary(server, sharp, other);
    hide ParametersOf, SourcePlace, KeyPlace, ParamString, AllowsCaching;
  }

  // ---------- plain files while reads work ----------

  /** A request for a plain file outside the cache directory: it is answered at once or with 404, never transformed. */
  predicate PlainPhase(server: Server, sources: Store, r: Request, phase: Phase) {
    AsksForFile(server, r) && !server.backend.InCache(SourcePlace(server, r)) ==>
      match phase
      case Start => true
      case Missed(faulty) => !faulty && SourcePlace(server, r) !in sources
      case SourceRead(_, _) => false
      case Rendered(_, _) => false
      case Stored(_, _) => false
      case Done(response, faulty) =>
        && !faulty
        && response == if SourcePlace(server, r) in sources then Ok(sources[SourcePlace(server, r)]) else NotFound
  }

  ghost predicate PlainPhases(server: Server, sources: Store, requests: seq<Request>, s: State) {
    |s.phases| == |requests| && forall i | 0 <= i < |requests| :: PlainPhase(server, sources, requests[i], s.phases[i])
  }

  lemma PlainAdvance(server: Server, sources: Store, r: Request, phase: Phase, store: Store, ok: bool)
    requires PlacedRequest(server, r) && OutsideIntact(server, sources, store)
    requires Permitted(phase, false, ok) && PlainPhase(server, sources, r, phase)
    ensures PlainPhase(server, sources, r, Advance(server, r, phase, store, ok).0)
  {
    hide KeyPlace, SourcePlace, TargetPlace, ParametersOf, ParamString, Transformed, AllowsCaching, Backend.InCache;
    if ParametersOf(server, r).Some? {
      KeyPlacement(server, r);
    }
  }

  lemma PlainStep(server: Server, sources: Store, requests: seq<Request>, s: State, s': State)
    requires Placed(server, sources, requests) && OutsideIntact(server, sources, s.store)
    requires PlainPhases(server, sources, requests, s) && Next(server, requests, false, s, s')
    ensures PlainPhases(server, sources, requests, s')
  {
    hide PlainPhase, OutsideIntact, PlacedRequest, PlacedSources, Advance, Permitted;
    var i: nat, ok: bool :| i < |requests| && Permitted(s.phases[i], false, ok)
                            && s' == Step(server, requests, s, i, ok);
    PlainAdvance(server, sources, requests[i], s.phases[i], s.store, ok);
  }

  /** In every run with working reads in which nothing strays, coherent or not. */
  lemma {:induction false} PlainFilesAreServed(server: Server, sources: Store, requests: seq<Request>, run: seq<State>)
    requires Placed(server, sources, requests)
    requires forall i | 0 <= i < |requests| :: !Strays(server, sources, requests, false, requests[i])
    requires IsRun(server, sources, requests, false, run)
    ensures PlainPhases(server, sources, requests, run[|run| - 1])
    decreases |run|
  {
    hide Placed, Next, Strays, PhaseKnown, Known;
    if |run| > 1 {
      hide PlainPhases, OutsideIntact;
      var front := run[..|run| - 1];
      PlainFilesAreServed(server, sources, requests, front);
      RunIsKnown(server, sources, requests, false, front);
      PlainStep(server, sources, requests, run[|run| - 2], run[|run| - 1]);
    }
  }

  // ---------- whether uploads survive ----------

  /** The run in which an upload is overwritten: the first read fails, the second does not. */
  lemma OverwritingRun(server: Server, sources: Store, requests: seq<Request>, i: nat) returns (run: seq<State>)
    requires Placed(server, sources, requests) && i < |requests|
    requires Overwrites(server, sources, true, requests[i])
    ensures IsRun(server, sources, requests, true, run)
    ensures var place := SourcePlace(server, requests[i]);
      && place in sources
      && run[|run| - 1].store == sources[place := Image(server, sources, requests[i]).value]
      && !SourcesIntact(sources, run[|run| - 1].store)
  {
    hide KeyPlace, SourcePlace, TargetPlace, ParametersOf, ParamString, Transformed, AllowsCaching, IsRun;
    var r := requests[i];
    KeyPlacement(server, r);
    FilePlacement(server, r);
    run := BeginningRun(server, sources, requests, true);
    run := Begins(server, sources, requests, true, run, i);
    run := Completes(server, sources, requests, true, run, i, Image(server, sources, r).value);
  }

  lemma StepOnS3(server: Server, sources: Store, requests: seq<Request>, flaky: bool, s: State, s': State)
    requires Placed(server, sources, requests) && server.backend.S3?
    requires |s.phases| == |requests| && SourcesIntact(sources, s.store) && Next(server, requests, flaky, s, s')
    ensures |s'.phases| == |requests| && SourcesIntact(sources, s'.store)
  {
    hide KeyPlace, SourcePlace, TargetPlace, ParametersOf, ParamString, Transformed, AllowsCaching, Backend.InCache;
    var i: nat, ok: bool :| i < |requests| && Permitted(s.phases[i], flaky, ok)
                            && s' == Step(server, requests, s, i, ok);
    var r := requests[i];
    if ParametersOf(server, r).Some? {
      KeyPlacement(server, r);
      if AsksForFile(server, r) {
        FilePlacement(server, r);
      }
      assert TargetPlace(server, r) in sources ==> server.backend.MayHoldSource(TargetPlace(server, r));
    }
  }

  lemma {:induction false} UploadsSurviveOnS3(server: Server, sources: Store, requests: seq<Request>, flaky: bool,
                                              run: seq<State>)
    requires Placed(server, sources, requests) && server.backend.S3?
    requires IsRun(server, sources, requests, flaky, run)
    ensures |run[|run| - 1].phases| == |requests| && SourcesIntact(sources, run[|run| - 1].store)
    decreases |run|
  {
    hide Placed, Next;
    if |run| > 1 {
      UploadsSurviveOnS3(server, sources, requests, flaky, run[..|run| - 1]);
      StepOnS3(server, sources, requests, flaky, run[|run| - 2], run[|run| - 1]);
    }
  }

  /**
   * Exactly: uploads survive every run if and only if there is no plain file on local storage whose first read may
   * fail, that may be cached, and that re-encoding changes.
   */
  lemma UploadsSurviveIff(server: Server, sources: Store, requests: seq<Request>, flaky: bool)
    requires Placed(server, sources, requests)
    ensures (forall i | 0 <= i < |requests| :: !Overwrites(server, sources, flaky, requests[i])) <==>
              forall run: seq<State> | IsRun(server, sources, requests, flaky, run) ::
                SourcesIntact(sources, run[|run| - 1].store)
  {
    hide Strays, SourcesIntact, IsRun, KeepsFile, PlacedRequest, PlacedSources;
    if forall i | 0 <= i < |requests| :: !Overwrites(server, sources, flaky, requests[i]) {
      forall run: seq<State> | IsRun(server, sources, requests, flaky, run)
        ensures SourcesIntact(sources, run[|run| - 1].store)
      {
        if server.backend.S3? {
          UploadsSurviveOnS3(server, sources, requests, flaky, run);
        } else {
          forall i | 0 <= i < |requests|
            ensures !Strays(server, sources, requests, flaky, requests[i])
          {
            StraysLocallyIff(server, sources, requests, flaky, requests[i]);
          }
          OutsideIntactIff(server, sources, requests, flaky);
        }
      }
    } else {
      var i :| 0 <= i < |requests| && Overwrites(server, sources, flaky, requests[i]);
      var run := OverwritingRun(server, sources, requests, i);
    }
  }
}
