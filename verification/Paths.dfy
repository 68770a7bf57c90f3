/** The `path.posix` functions the cache key is composed with, the composition, and its inverse. */
module Paths {
  import opened Text

  // ---------- path.posix ----------

  predicate IsAbsolute(p: string) {
    p != "" && p[0] == '/'
  }

  predicate EndsWithSlash(p: string) {
    p != "" && p[|p| - 1] == '/'
  }

  function PushSegment(absolute: bool, stack: seq<string>, segment: string): seq<string> {
    if segment == "" || segment == "." then stack
    else if segment == ".." then
      if stack != [] && stack[|stack| - 1] != ".." then stack[..|stack| - 1]
      else if absolute then stack
      else stack + [segment]
    else stack + [segment]
  }

  /** Segment resolution of `path.normalize`, starting from the segments already on the stack. */
  function Resolve(absolute: bool, stack: seq<string>, segments: seq<string>): seq<string>
    decreases |segments|
  {
    if segments == [] then stack
    else Resolve(absolute, PushSegment(absolute, stack, segments[0]), segments[1..])
  }

  function Normalize(p: string): string {
    if p == "" then "."
    else
      var body := Join(Resolve(IsAbsolute(p), [], Split(p, '/')), '/');
      var trailing := EndsWithSlash(p);
      if body == "" then (if IsAbsolute(p) then "/" else if trailing then "./" else ".")
      else (if IsAbsolute(p) then "/" else "") + body + (if trailing then "/" else "")
  }

  function JoinPath(a: string, b: string): string {
    if a == "" then Normalize(b)
    else if b == "" then Normalize(a)
    else Normalize(a + "/" + b)
  }

  function TrimSlashes(p: string): (r: string)
    ensures !EndsWithSlash(r)
    ensures |r| <= |p| && r == p[..|r|]
    ensures forall k | |r| <= k < |p| :: p[k] == '/'
  {
    if EndsWithSlash(p) then TrimSlashes(p[..|p| - 1]) else p
  }

  function Dirname(p: string): string {
    var trimmed := TrimSlashes(p);
    var i := LastIndexOf(trimmed, '/');
    if i <= 0 then (if IsAbsolute(p) then "/" else ".")
    else if i == 1 && IsAbsolute(p) then "//"
    else trimmed[..i]
  }

  /** The last component, trailing slashes ignored. */
  function Component(p: string): (r: string)
    ensures '/' !in r
  {
    var trimmed := TrimSlashes(p);
    trimmed[LastIndexOf(trimmed, '/') + 1..]
  }

  /** Where the extension of a component begins: its last dot, unless that dot leads or the component is `..`. */
  function ExtensionStart(component: string): (i: nat)
    ensures i <= |component|
  {
    var dot := LastIndexOf(component, '.');
    if dot <= 0 || component == ".." then |component| else dot
  }

  function Extname(p: string): string {
    Component(p)[ExtensionStart(Component(p))..]
  }

  /** `path.basename(p, path.extname(p))`. */
  function Stem(p: string): string {
    Component(p)[..ExtensionStart(Component(p))]
  }

  /** A file name's extension begins at its last dot; there is none without a dot that has something before it. */
  lemma ExtensionIff(p: string)
    ensures Component(p) == Stem(p) + Extname(p)
    ensures Extname(p) == "" <==>
              Component(p) == ".." || forall k | 0 < k < |Component(p)| :: Component(p)[k] != '.'
    ensures Extname(p) != "" ==> Stem(p) != "" && Extname(p)[0] == '.' && '.' !in Extname(p)[1..]
  {
    hide Component;
  }

  /** A path's component is what follows its last slash, trailing slashes apart, and what precedes is its directory. */
  lemma ComponentIff(dir: string, name: string)
    requires dir != "" && !EndsWithSlash(dir) && name != "" && '/' !in name
    ensures Component(dir + "/" + name) == name && Dirname(dir + "/" + name) == dir
  {
    var p := dir + "/" + name;
    assert p[|p| - 1] == name[|name| - 1];
    assert p[|dir|] == '/' && forall k | |dir| < k < |p| :: p[k] == name[k - |dir| - 1];
    LastIndexOfUnique(p, '/', |dir|);
    assert p[..|dir|] == dir && p[|dir| + 1..] == name;
    assert |dir| == 1 ==> dir[0] != '/';
    hide LastIndexOf;
  }

  // ---------- composing the cache key ----------

  const CACHE_DIR := "cache"

  function EffectiveExtension(fileName: string, ext: Option<string>): string {
    if ext.Some? && ext.value != "" then "." + ext.value else Extname(fileName)
  }

  function AddSuffix(fileName: string, suffix: string, ext: Option<string>): string {
    JoinPath(Dirname(fileName), Stem(fileName) + suffix + EffectiveExtension(fileName, ext))
  }

  function CachePath(fileName: string, hash: string, ext: Option<string>): string {
    JoinPath(CACHE_DIR, AddSuffix(fileName, hash, ext))
  }

  // ---------- where storage looks for an identifier ----------

  /** A file: resolved segments, and whether its path ended in a slash. An object: its key as it stands. */
  datatype Location = File(segments: seq<string>, trailingSlash: bool) | Object(key: string)

  function WithoutSlash(p: string): string {
    if IsAbsolute(p) then p[1..] else p
  }

  /** Local storage joins identifiers to the upload directory; S3 normalizes them for reading, but not for writing. */
  datatype Backend = Local(uploadDir: seq<string>) | S3 {
    function ReadPlace(identifier: string): Location {
      if Local? then File(Resolve(true, uploadDir, Split(identifier, '/')), EndsWithSlash(identifier))
      else Object(Normalize(WithoutSlash(identifier)))
    }

    function WritePlace(fileName: string): Location {
      if Local? then ReadPlace(fileName) else Object(fileName)
    }

    /** The place of a file given by its segments below the upload directory, or the bucket. */
    function Below(segments: seq<string>): Location {
      if Local? then File(uploadDir + segments, false) else Object(Join(segments, '/'))
    }

    predicate InCache(l: Location) {
      match l
      case File(segments, _) => Local? && uploadDir + [CACHE_DIR] <= segments
      case Object(key) => S3? && CACHE_DIR + "/" <= key
    }

    /** Where uploads go: outside the cache directory, and on S3 under keys without a leading slash. */
    predicate MayHoldSource(l: Location) {
      !InCache(l) && (l.Object? ==> l.key != "" && !IsAbsolute(l.key))
    }
  }

  // ---------- segments ----------

  /** Every segment names something: neither empty nor a single dot. */
  predicate Named(segments: seq<string>) {
    forall k | 0 <= k < |segments| :: segments[k] != "" && segments[k] != "."
  }

  /** The segments that name something. */
  function Clean(segments: seq<string>): (r: seq<string>)
    ensures Named(r)
    ensures forall s | s in r :: s in segments
  {
    if segments == [] then []
    else if segments[0] == "" || segments[0] == "." then Clean(segments[1..])
    else [segments[0]] + Clean(segments[1..])
  }

  lemma {:induction false} CleanAppend(a: seq<string>, b: seq<string>)
    ensures Clean(a + b) == Clean(a) + Clean(b)
  {
    if a == [] {
      assert a + b == b;
    } else {
      assert (a + b)[1..] == a[1..] + b;
      CleanAppend(a[1..], b);
    }
  }

  lemma {:induction false} ResolveAppend(absolute: bool, stack: seq<string>, a: seq<string>, b: seq<string>)
    ensures Resolve(absolute, stack, a + b) == Resolve(absolute, Resolve(absolute, stack, a), b)
    decreases |a|
  {
    if a == [] {
      assert a + b == b;
    } else {
      assert (a + b)[1..] == a[1..] + b;
      ResolveAppend(absolute, PushSegment(absolute, stack, a[0]), a[1..], b);
    }
  }

  /** Without `..`, resolving only appends the segments that name something. */
  lemma {:induction false} ResolveClean(absolute: bool, stack: seq<string>, segments: seq<string>)
    requires ".." !in segments
    ensures Resolve(absolute, stack, segments) == stack + Clean(segments)
    decreases |segments|
  {
    if segments != [] {
      assert segments[0] != "..";
      ResolveClean(absolute, PushSegment(absolute, stack, segments[0]), segments[1..]);
    }
  }

  lemma {:induction false} CleanOfClean(segments: seq<string>)
    requires Named(segments)
    ensures Clean(segments) == segments
  {
    if segments != [] {
      CleanOfClean(segments[1..]);
    }
  }

  /** Empty segments and single dots do not matter. */
  lemma {:induction false} ResolveIgnoresUnnamed(absolute: bool, stack: seq<string>, segments: seq<string>)
    ensures Resolve(absolute, stack, segments) == Resolve(absolute, stack, Clean(segments))
    decreases |segments|
  {
    if segments != [] {
      ResolveIgnoresUnnamed(absolute, PushSegment(absolute, stack, segments[0]), segments[1..]);
      if segments[0] != "" && segments[0] != "." {
        assert Clean(segments)[1..] == Clean(segments[1..]);
      }
    }
  }

  /** Segments that name something, none of which climbs. */
  predicate Descending(segments: seq<string>) {
    Named(segments) && ".." !in segments
  }

  /** Resolving from the root never leaves a `..`, and only takes segments that were there. */
  lemma {:induction false} RootedDescends(stack: seq<string>, segments: seq<string>)
    requires Descending(stack)
    ensures Descending(Resolve(true, stack, segments))
    ensures forall s | s in Resolve(true, stack, segments) :: s in stack || s in segments
    decreases |segments|
  {
    if segments != [] {
      RootedDescends(PushSegment(true, stack, segments[0]), segments[1..]);
    }
  }

  /** A relative path that has climbed above its start never comes back. */
  lemma {:induction false} ClimbingIsFinal(stack: seq<string>, segments: seq<string>)
    requires stack != [] && stack[0] == ".."
    ensures ".." in Resolve(false, stack, segments)
    decreases |segments|
  {
    if segments != [] {
      ClimbingIsFinal(PushSegment(false, stack, segments[0]), segments[1..]);
    }
  }

  /** A relative path that has climbed shows it in front. */
  lemma {:induction false} ClimbIsFirst(stack: seq<string>, segments: seq<string>)
    requires ".." in stack ==> stack[0] == ".."
    ensures var r := Resolve(false, stack, segments); ".." in r ==> r[0] == ".."
    decreases |segments|
  {
    if segments != [] {
      ClimbIsFirst(PushSegment(false, stack, segments[0]), segments[1..]);
    }
  }

  /** A path that never climbs above its start resolves alike from anywhere. */
  lemma {:induction false} ResolveAnywhere(absolute: bool, root: seq<string>, stack: seq<string>, segments: seq<string>)
    requires Descending(stack) && ".." !in Resolve(false, stack, segments)
    ensures Resolve(absolute, root + stack, segments) == root + Resolve(false, stack, segments)
    decreases |segments|
  {
    if segments != [] {
      var next := PushSegment(false, stack, segments[0]);
      if segments[0] == ".." && stack == [] {
        ClimbingIsFinal(next, segments[1..]);
      }
      PushAnywhere(absolute, root, stack, segments[0]);
      ResolveAnywhere(absolute, root, next, segments[1..]);
    }
  }

  lemma PushAnywhere(absolute: bool, root: seq<string>, stack: seq<string>, segment: string)
    requires ".." !in stack && (segment == ".." ==> stack != [])
    ensures PushSegment(absolute, root + stack, segment) == root + PushSegment(false, stack, segment)
  {
    var both := root + stack;
    if stack != [] {
      assert both[|both| - 1] == stack[|stack| - 1] && stack[|stack| - 1] in stack;
      assert both[..|both| - 1] == root + stack[..|stack| - 1];
    }
    assert both + [segment] == root + (stack + [segment]);
  }

  lemma {:induction false} JoinNonEmpty(pieces: seq<string>)
    requires pieces != [] && pieces[0] != ""
    ensures Join(pieces, '/') != ""
  {
  }

  /** Normalizing a path without `..` keeps its segments and its trailing slash. */
  lemma NormalizeSegments(q: string)
    requires ".." !in Split(q, '/')
    ensures ".." !in Split(Normalize(q), '/')
    ensures Clean(Split(Normalize(q), '/')) == Clean(Split(q, '/'))
    ensures !EndsWithSlash(q) && !IsAbsolute(q) && Clean(Split(q, '/')) != [] ==>
              Normalize(q) == Join(Clean(Split(q, '/')), '/')
  {
    var named := Clean(Split(q, '/'));
    ResolveClean(IsAbsolute(q), [], Split(q, '/'));
    assert [] + named == named;
    if q == "" {
      SplitSeparatorFree(".", '/');
    } else if named == [] {
      SplitSeparatorFree("", '/');
      SplitSeparatorFree(".", '/');
      SplitAppend("", "", '/');
      SplitAppend(".", "", '/');
      assert "/" == "" + ['/'] + "" && "./" == "." + ['/'] + "";
    } else {
      var body := Join(named, '/');
      JoinNonEmpty(named);
      SplitJoin(named, '/');
      CleanOfClean(named);
      var lead := if IsAbsolute(q) then [""] else [];
      var tail := if EndsWithSlash(q) then [""] else [];
      NormalizedSplit(q, body, lead, tail);
      CleanAppend(lead + named, tail);
      CleanAppend(lead, named);
    }
  }

  lemma NormalizedSplit(q: string, body: string, lead: seq<string>, tail: seq<string>)
    requires lead == (if IsAbsolute(q) then [""] else [])
    requires tail == (if EndsWithSlash(q) then [""] else [])
    ensures Split((if IsAbsolute(q) then "/" else "") + body + (if EndsWithSlash(q) then "/" else ""), '/')
         == lead + Split(body, '/') + tail
  {
    SplitSeparatorFree("", '/');
    var front := (if IsAbsolute(q) then "/" else "") + body;
    if IsAbsolute(q) {
      SplitAppend("", body, '/');
      assert front == "" + ['/'] + body;
    } else {
      assert front == body;
    }
    if EndsWithSlash(q) {
      SplitAppend(front, "", '/');
      assert front + "/" == front + ['/'] + "";
    } else {
      assert front + "" == front;
    }
  }

  // ---------- a path as directory and component ----------

  /** The directory part of a path as seen from the root. */
  function Directory(p: string): seq<string> {
    Resolve(true, [], Split(Dirname(p), '/'))
  }

  /** No `..` among the segments of the directory part. */
  predicate DirectoryDescends(p: string) {
    ".." !in Split(Dirname(p), '/')
  }

  /** The directory part never climbs above where it starts. */
  predicate StaysBelow(p: string) {
    ".." !in Resolve(false, [], Split(Dirname(p), '/'))
  }

  /** What the key composition needs of a path: a request path begins with a slash, and a sanitized one never climbs. */
  predicate Grounded(p: string) {
    IsAbsolute(p) || StaysBelow(p)
  }

  lemma DescendingPathStaysBelow(p: string)
    requires DirectoryDescends(p)
    ensures StaysBelow(p)
  {
    ResolveClean(false, [], Split(Dirname(p), '/'));
  }

  lemma DirnameIsAbsolute(p: string)
    ensures IsAbsolute(Dirname(p)) <==> IsAbsolute(p)
    ensures Dirname(p) != ""
  {
  }

  /** The directory part of a path whose last slash is at `i`, as segments. */
  lemma DirnameSegments(p: string, i: nat)
    requires !EndsWithSlash(p) && p != "" && LastIndexOf(p, '/') == i
    ensures Clean(Split(p[..i], '/')) == Clean(Split(Dirname(p), '/'))
  {
    SplitSeparatorFree("", '/');
    assert "/" == "" + ['/'] + "" && "//" == "/" + ['/'] + "";
    SplitAppend("", "", '/');
    SplitAppend("/", "", '/');
    if i == 0 {
      assert p[..i] == "";
      assert Dirname(p) == "/";
    } else if i == 1 && IsAbsolute(p) {
      assert p[..i] == "/";
      assert Dirname(p) == "//";
      assert Split("//", '/') == ["", "", ""];
    } else {
      assert Dirname(p) == p[..i];
    }
  }

  /** A path without a trailing slash splits into segments equivalent to its directory's, and its component. */
  lemma SplitAtComponent(p: string) returns (front: seq<string>)
    requires !EndsWithSlash(p)
    ensures Split(p, '/') == front + [Component(p)]
    ensures Clean(front) == Clean(Split(Dirname(p), '/'))
  {
    var i := LastIndexOf(p, '/');
    if i < 0 {
      SplitSeparatorFree(p, '/');
      SplitSeparatorFree(".", '/');
      front := [];
    } else {
      assert p == p[..i] + ['/'] + p[i + 1..];
      SplitSeparatorFree(p[i + 1..], '/');
      SplitAppend(p[..i], p[i + 1..], '/');
      front := Split(p[..i], '/');
      DirnameSegments(p, i);
    }
  }

  /** A single slash leads the path, if any. */
  predicate SingleSlash(p: string) {
    !IsAbsolute(WithoutSlash(p))
  }

  /** A path that storage reads from where its directory, seen from the root, and its last component say. */
  predicate Straight(backend: Backend, p: string) {
    !EndsWithSlash(p) && StaysBelow(p) && (backend.S3? ==> SingleSlash(p))
  }

  /** The text of a relative path with these segments. */
  function RelativeText(segments: seq<string>): string {
    if segments == [] then "." else Join(segments, '/')
  }

  /** The place a straight path is read from, by its directory and its component. */
  function PlaceOf(backend: Backend, p: string): Location {
    if backend.Local? then File(PushSegment(true, backend.uploadDir + Directory(p), Component(p)), false)
    else Object(RelativeText(PushSegment(false, Directory(p), Component(p))))
  }

  lemma ReadByComponent(backend: Backend, p: string)
    requires Straight(backend, p)
    ensures backend.ReadPlace(p) == PlaceOf(backend, p)
  {
    hide Normalize, Directory, RelativeText, StaysBelow, Dirname, Split, Resolve, Component, EndsWithSlash;
    ResolveByComponent(backend.Local?, if backend.Local? then backend.uploadDir else [], p);
    if backend.S3? {
      var here: seq<string> := [];
      assert here + Directory(p) == Directory(p);
      WithoutSlashResolves(p);
      NoTrailingSlash(p);
      RelativeNormalize(WithoutSlash(p));
    }
  }

  lemma NoTrailingSlash(p: string)
    requires !EndsWithSlash(p)
    ensures !EndsWithSlash(WithoutSlash(p))
  {
  }

  lemma ResolveByComponent(absolute: bool, root: seq<string>, p: string)
    requires !EndsWithSlash(p) && StaysBelow(p)
    ensures Resolve(absolute, root, Split(p, '/')) == PushSegment(absolute, root + Directory(p), Component(p))
  {
    hide Directory, Dirname, StaysBelow, Resolve, Split, Clean, PushSegment, Component, EndsWithSlash;
    var front := SplitAtComponent(p);
    ResolveLast(absolute, Resolve(absolute, root, front), Component(p));
    ResolveAppend(absolute, root, front, [Component(p)]);
    FrontIsDirectory(p, front, absolute, root);
  }

  lemma ResolveLast(absolute: bool, stack: seq<string>, segment: string)
    ensures Resolve(absolute, stack, [segment]) == PushSegment(absolute, stack, segment)
  {
    assert [segment][1..] == [];
  }

  lemma WithoutSlashResolves(p: string)
    ensures Resolve(false, [], Split(WithoutSlash(p), '/')) == Resolve(false, [], Split(p, '/'))
  {
    if IsAbsolute(p) {
      SplitSeparatorFree("", '/');
      SplitAppend("", p[1..], '/');
      assert p == "" + ['/'] + p[1..];
      ResolveAppend(false, [], [""], Split(p[1..], '/'));
    }
  }

  /** Normalizing a relative path without a trailing slash spells out what it resolves to. */
  lemma RelativeNormalize(q: string)
    requires !IsAbsolute(q) && !EndsWithSlash(q)
    ensures Normalize(q) == RelativeText(Resolve(false, [], Split(q, '/')))
  {
    hide Split;
    var named := Resolve(false, [], Split(q, '/'));
    ResolvedIsNamed(false, [], Split(q, '/'));
    if q == "" {
      SplitSeparatorFree("", '/');
    } else if named != [] {
      JoinNonEmpty(named);
    }
  }

  lemma {:induction false} ResolvedIsNamed(absolute: bool, stack: seq<string>, segments: seq<string>)
    requires Named(stack)
    ensures Named(Resolve(absolute, stack, segments))
    ensures forall s | s in Resolve(absolute, stack, segments) :: s in stack || s in segments
    decreases |segments|
  {
    if segments != [] {
      ResolvedIsNamed(absolute, PushSegment(absolute, stack, segments[0]), segments[1..]);
    }
  }

  lemma FrontIsDirectory(p: string, front: seq<string>, absolute: bool, root: seq<string>)
    requires StaysBelow(p) && Clean(front) == Clean(Split(Dirname(p), '/'))
    ensures Resolve(absolute, root, front) == root + Directory(p)
  {
    hide Split, Dirname, Clean, Resolve;
    var segments := Split(Dirname(p), '/');
    ResolveIgnoresUnnamed(absolute, root, front);
    ResolveIgnoresUnnamed(absolute, root, segments);
    var here: seq<string> := [];
    assert root + here == root && here + here == here;
    ResolveAnywhere(absolute, root, here, segments);
    ResolveAnywhere(true, here, here, segments);
  }

  lemma ComponentIsStemAndExtension(p: string)
    ensures Component(p) == Stem(p) + Extname(p)
  {
  }

  /** A trailing slash changes neither directory, stem nor extension, of which the key is made. */
  lemma TrailingSlashIsDropped(p: string)
    requires p != "" && !EndsWithSlash(p)
    ensures EndsWithSlash(p + "/")
    ensures Dirname(p + "/") == Dirname(p) && Stem(p + "/") == Stem(p) && Extname(p + "/") == Extname(p)
  {
    hide LastIndexOf;
    assert (p + "/")[..|p|] == p;
    assert TrimSlashes(p + "/") == p;
  }

  /** The segments of a straight path's place name something and hold no slash. */
  lemma PushedIsPlain(absolute: bool, stack: seq<string>, p: string)
    requires Named(stack) && forall s | s in stack :: '/' !in s
    ensures Named(PushSegment(absolute, stack, Component(p)))
    ensures forall s | s in PushSegment(absolute, stack, Component(p)) :: '/' !in s
  {
  }

  lemma RelativeTextInjective(a: seq<string>, b: seq<string>)
    requires Named(a) && Named(b)
    requires (forall s | s in a :: '/' !in s) && (forall s | s in b :: '/' !in s)
    ensures RelativeText(a) == RelativeText(b) <==> a == b
  {
    hide Split, Join;
    SplitSeparatorFree(".", '/');
    assert ["."][0] == ".";
    if a != [] {
      SplitJoin(a, '/');
    }
    if b != [] {
      SplitJoin(b, '/');
    }
  }

  /** Components with one stem and different extensions lead to different places. */
  lemma PushApart(absolute: bool, stack: seq<string>, p1: string, p2: string)
    requires Stem(p1) == Stem(p2)
    ensures PushSegment(absolute, stack, Component(p1)) == PushSegment(absolute, stack, Component(p2))
       <==> Extname(p1) == Extname(p2)
  {
    ComponentIsStemAndExtension(p1);
    ComponentIsStemAndExtension(p2);
    ExtensionMakesPlain(absolute, stack, p1);
    ExtensionMakesPlain(absolute, stack, p2);
    if Extname(p1) != Extname(p2) {
      assert Component(p1) != Component(p2) by {
        assert Component(p1)[|Stem(p1)|..] == Extname(p1) && Component(p2)[|Stem(p2)|..] == Extname(p2);
      }
      var a, b := PushSegment(absolute, stack, Component(p1)), PushSegment(absolute, stack, Component(p2));
      if Extname(p1) != "" {
        assert a[|stack|] == Component(p1);
        assert |b| > |stack| ==> b[|stack|] == Component(p2);
      } else {
        assert b[|stack|] == Component(p2);
        assert |a| > |stack| ==> a[|stack|] == Component(p1);
      }
    }
  }

  lemma ExtensionMakesPlain(absolute: bool, stack: seq<string>, p: string)
    ensures Extname(p) != "" ==> PushSegment(absolute, stack, Component(p)) == stack + [Component(p)]
    ensures |PushSegment(absolute, stack, Component(p))| > |stack| ==>
              PushSegment(absolute, stack, Component(p)) == stack + [Component(p)]
  {
    hide Component, LastIndexOf;
    var component := Component(p);
    if Extname(p) != "" {
      assert ExtensionStart(component) > 0 && |component| > 1;
    }
  }

  /** With one directory and stem, straight paths are read from one place exactly when their extensions agree. */
  lemma SamePlaceIff(backend: Backend, p1: string, p2: string)
    requires Straight(backend, p1) && Straight(backend, p2)
    requires Directory(p1) == Directory(p2) && Stem(p1) == Stem(p2)
    ensures backend.ReadPlace(p1) == backend.ReadPlace(p2) <==> Extname(p1) == Extname(p2)
  {
    hide Component, Stem, Extname, Directory, PushSegment, Backend.ReadPlace, Straight, RelativeText;
    ReadByComponent(backend, p1);
    ReadByComponent(backend, p2);
    DirectoryIsPlain(p1);
    if backend.Local? {
      PushApart(true, backend.uploadDir + Directory(p1), p1, p2);
    } else {
      PushApart(false, Directory(p1), p1, p2);
      PushedIsPlain(false, Directory(p1), p1);
      PushedIsPlain(false, Directory(p1), p2);
      RelativeTextInjective(PushSegment(false, Directory(p1), Component(p1)),
                            PushSegment(false, Directory(p1), Component(p2)));
    }
  }

  /** A trailing slash changes where a straight path is read from. */
  lemma TrailingSlashIsElsewhere(backend: Backend, p: string)
    requires Straight(backend, p) && p != ""
    ensures backend.ReadPlace(p + "/") != backend.ReadPlace(p)
  {
    hide Resolve, Split, StaysBelow;
    assert EndsWithSlash(p + "/");
    if backend.S3? {
      var q := WithoutSlash(p);
      assert WithoutSlash(p + "/") == q + "/";
      assert q != "" && !EndsWithSlash(q) && EndsWithSlash(q + "/");
      SlashedNormalize(q + "/");
      PlainNormalize(q);
    }
  }

  lemma SlashedNormalize(q: string)
    requires EndsWithSlash(q)
    ensures EndsWithSlash(Normalize(q))
  {
    hide Split, Resolve;
  }

  lemma PlainNormalize(q: string)
    requires !IsAbsolute(q) && !EndsWithSlash(q)
    ensures !EndsWithSlash(Normalize(q))
  {
    hide Split, Resolve, Join;
    var named := Resolve(false, [], Split(q, '/'));
    ResolvedIsNamed(false, [], Split(q, '/'));
    RelativeNormalize(q);
    if named != [] {
      SplitPieces(q);
      SplitJoin(named, '/');
      SplitEnds(Join(named, '/'), '/');
    }
  }

  lemma SplitPieces(q: string)
    ensures forall piece | piece in Split(q, '/') :: '/' !in piece
  {
  }

  /** A second leading slash changes neither directory, stem nor extension of the key. */
  lemma SecondSlashIsDropped(p: string)
    requires IsAbsolute(p) && !EndsWithSlash(p)
    ensures Directory("/" + p) == Directory(p) && Stem("/" + p) == Stem(p) && Extname("/" + p) == Extname(p)
    ensures !EndsWithSlash("/" + p)
  {
    hide Resolve, Split, Dirname, Component, ExtensionStart;
    var q := "/" + p;
    assert q[|q| - 1] == p[|p| - 1];
    var front := SplitAtComponent(p);
    var deeper := SplitAtComponent(q);
    SplitSeparatorFree("", '/');
    SplitAppend("", p, '/');
    assert q == "" + ['/'] + p;
    assert deeper + [Component(q)] == [""] + front + [Component(p)];
    assert (deeper + [Component(q)])[|deeper|] == ([""] + front + [Component(p)])[|front| + 1];
    assert deeper == (deeper + [Component(q)])[..|deeper|] == [""] + front;
    CleanAppend([""], front);
    UnnamedIsDropped();
    assert [] + Clean(front) == Clean(front);
    ResolveIgnoresUnnamed(true, [], Split(Dirname(p), '/'));
    ResolveIgnoresUnnamed(true, [], Split(Dirname(q), '/'));
  }

  /** But on S3 it changes where the path is read from. */
  lemma SecondSlashIsElsewhere(p: string)
    requires IsAbsolute(p) && SingleSlash(p)
    ensures S3.ReadPlace("/" + p) != S3.ReadPlace(p)
  {
    hide Resolve, Split;
    assert WithoutSlash("/" + p) == p;
    NormalizeKeepsSlash(p);
    RelativeStaysRelative(p[1..]);
  }

  lemma NormalizeKeepsSlash(p: string)
    requires IsAbsolute(p)
    ensures IsAbsolute(Normalize(p))
  {
    hide Split, Resolve;
  }

  lemma RelativeStaysRelative(q: string)
    requires !IsAbsolute(q)
    ensures !IsAbsolute(Normalize(q))
  {
    hide Split, Resolve, Join;
    var named := Resolve(false, [], Split(q, '/'));
    ResolvedIsNamed(false, [], Split(q, '/'));
    if named == [] {
      JoinNothing(named);
    } else {
      SplitPieces(q);
      SplitJoin(named, '/');
      JoinNonEmpty(named);
      SplitEnds(Join(named, '/'), '/');
    }
  }

  lemma JoinNothing(pieces: seq<string>)
    requires pieces == []
    ensures Join(pieces, '/') == ""
  {
  }

  // ---------- the cache key's location, and its inverse ----------

  const HASH_LENGTH: nat := 32

  /** The shape of a hexadecimal md5 digest that the composition relies on. */
  predicate IsHash(h: string) {
    |h| == HASH_LENGTH && '.' !in h && '/' !in h
  }

  predicate IsExtensionText(ext: Option<string>) {
    ext.Some? ==> ext.value != "" && '/' !in ext.value && '.' !in ext.value
  }

  /** With a format the extension is the format; without one it is the path's own. */
  lemma SameEffectiveExtension(p1: string, p2: string, ext: Option<string>)
    requires IsExtensionText(ext)
    ensures EffectiveExtension(p1, ext) == EffectiveExtension(p2, ext) <==> ext.Some? || Extname(p1) == Extname(p2)
  {
  }

  function CacheName(p: string, hash: string, ext: Option<string>): string {
    Stem(p) + hash + EffectiveExtension(p, ext)
  }

  /** A file joined to a directory path that is absolute, or never climbs. */
  lemma FileInDirectory(dir: string, name: string)
    requires dir != "" && (IsAbsolute(dir) || ".." !in Resolve(false, [], Split(dir, '/')))
    requires '/' !in name && |name| > 2
    ensures var below := JoinPath(dir, name);
      && ".." !in Split(below, '/')
      && Clean(Split(below, '/')) == Resolve(true, [], Split(dir, '/')) + [name]
      && !EndsWithSlash(below) && below != ""
  {
    var q, segments := dir + "/" + name, Split(dir, '/');
    assert q == dir + ['/'] + name;
    SplitSeparatorFree(name, '/');
    SplitAppend(dir, name, '/');
    assert q[0] == dir[0] && q[|q| - 1] == name[|name| - 1];
    ResolveAppend(IsAbsolute(q), [], segments, [name]);
    RootedDescends([], segments);
    if !IsAbsolute(dir) {
      var here: seq<string> := [];
      assert here + here == here;
      ResolveAnywhere(true, here, here, segments);
    }
    NamedFile(q, Resolve(true, [], segments), name);
  }

  /** What normalizing gives when it resolves to a file below descending segments. */
  lemma NamedFile(q: string, segments: seq<string>, name: string)
    requires q != "" && !EndsWithSlash(q) && Descending(segments) && '/' !in name && |name| > 2
    requires forall s | s in segments :: '/' !in s
    requires Resolve(IsAbsolute(q), [], Split(q, '/')) == segments + [name]
    ensures ".." !in Split(Normalize(q), '/')
    ensures Clean(Split(Normalize(q), '/')) == segments + [name]
    ensures !EndsWithSlash(Normalize(q)) && Normalize(q) != ""
  {
    hide Split, Join, Clean, Resolve;
    var named := segments + [name];
    var body := Join(named, '/');
    assert forall s | s in named :: s in segments || s == name;
    JoinNonEmpty(named);
    SplitJoin(named, '/');
    SplitEnds(body, '/');
    CleanOfClean(named);
    if IsAbsolute(q) {
      SplitSeparatorFree("", '/');
      SplitAppend("", body, '/');
      assert Normalize(q) == "" + ['/'] + body;
      CleanAppend([""], named);
      UnnamedIsDropped();
    } else {
      assert Normalize(q) == body;
    }
  }

  lemma UnnamedIsDropped()
    ensures Clean([""]) == []
  {
  }

  lemma BelowRoot(root: string, below: string)
    requires Named([root]) && root != ".." && '/' !in root
    requires ".." !in Split(below, '/') && !EndsWithSlash(below) && below != ""
    ensures JoinPath(root, below) == Join([root] + Clean(Split(below, '/')), '/')
  {
    hide Split, Clean, Normalize, Join;
    SplitSeparatorFree(root, '/');
    var q := root + "/" + below;
    assert q == root + ['/'] + below;
    SplitAppend(root, below, '/');
    CleanAppend([root], Split(below, '/'));
    CleanOfClean([root]);
    assert [root][0] == root && root != "";
    assert ".." !in Split(q, '/');
    assert q[0] == root[0] && root[0] in root;
    assert q[|q| - 1] == below[|below| - 1];
    NormalizeSegments(q);
  }

  lemma NameIsPlain(p: string, hash: string, ext: Option<string>)
    requires IsHash(hash) && IsExtensionText(ext)
    ensures var name := CacheName(p, hash, ext); '/' !in name && |name| > 2
  {
  }

  lemma DirectoryIsPlain(p: string)
    ensures Descending(Directory(p))
    ensures forall s | s in Directory(p) :: '/' !in s
  {
    RootedDescends([], Split(Dirname(p), '/'));
  }

  lemma CachePathText(p: string, hash: string, ext: Option<string>)
    requires IsHash(hash) && IsExtensionText(ext) && Grounded(p)
    ensures CachePath(p, hash, ext) == Join([CACHE_DIR] + Directory(p) + [CacheName(p, hash, ext)], '/')
  {
    hide Dirname, JoinPath, Clean, Split, Join, CacheName, Resolve, Stem, EffectiveExtension, IsHash;
    var name := CacheName(p, hash, ext);
    NameIsPlain(p, hash, ext);
    DirnameIsAbsolute(p);
    FileInDirectory(Dirname(p), name);
    var below := JoinPath(Dirname(p), name);
    BelowRoot(CACHE_DIR, below);
    assert below == AddSuffix(p, hash, ext) by {
      assert name == Stem(p) + hash + EffectiveExtension(p, ext) by {
        CacheNameParts(p, hash, ext);
      }
    }
    assert [CACHE_DIR] + (Directory(p) + [name]) == [CACHE_DIR] + Directory(p) + [name];
  }

  lemma CacheNameParts(p: string, hash: string, ext: Option<string>)
    ensures CacheName(p, hash, ext) == Stem(p) + hash + EffectiveExtension(p, ext)
  {
  }

  lemma DirectoryKeyIsPlain(p: string, hash: string, ext: Option<string>)
    requires IsHash(hash) && IsExtensionText(ext)
    ensures var named := [CACHE_DIR] + Directory(p) + [CacheName(p, hash, ext)];
      Descending(named) && forall s | s in named :: '/' !in s
  {
    hide Directory, CacheName, IsHash;
    var name := CacheName(p, hash, ext);
    NameIsPlain(p, hash, ext);
    DirectoryIsPlain(p);
    var named := [CACHE_DIR] + Directory(p) + [name];
    assert forall s | s in named :: s in Directory(p) || s == CACHE_DIR || s == name;
  }

  /**
   * The key lies in the cache directory, below the directory of the request path, and what is written under it is
   * read from under it.
   */
  lemma CachePathLocation(backend: Backend, p: string, hash: string, ext: Option<string>)
    requires IsHash(hash) && IsExtensionText(ext) && Grounded(p)
    ensures var key, named := CachePath(p, hash, ext), [CACHE_DIR] + Directory(p) + [CacheName(p, hash, ext)];
      && key == Join(named, '/')
      && backend.ReadPlace(key) == backend.Below(named) == backend.WritePlace(key)
      && backend.InCache(backend.Below(named))
  {
    hide Directory, CacheName, IsHash, IsExtensionText, Grounded, CachePath, Descending, Join, Backend.ReadPlace,
         Backend.WritePlace, Backend.Below, Backend.InCache;
    var named := [CACHE_DIR] + Directory(p) + [CacheName(p, hash, ext)];
    CachePathText(p, hash, ext);
    DirectoryKeyIsPlain(p, hash, ext);
    NamedLocation(backend, named);
    CacheIsBelow(backend, named);
  }

  lemma CacheIsBelow(backend: Backend, named: seq<string>)
    requires |named| > 1 && named[0] == CACHE_DIR
    ensures backend.InCache(backend.Below(named))
  {
    if backend.Local? {
      assert (backend.uploadDir + named)[..|backend.uploadDir| + 1] == backend.uploadDir + [CACHE_DIR];
    } else {
      assert [named[0]] + named[1..] == named;
      JoinStep(named[0], named[1..], '/');
    }
  }

  lemma NamedLocation(backend: Backend, named: seq<string>)
    requires named != [] && Descending(named)
    requires forall s | s in named :: '/' !in s
    ensures var key := Join(named, '/'); backend.ReadPlace(key) == backend.Below(named) == backend.WritePlace(key)
  {
    hide Split, Join, Resolve, Clean;
    var key := Join(named, '/');
    SplitJoin(named, '/');
    JoinNonEmpty(named);
    SplitEnds(key, '/');
    CleanOfClean(named);
    if backend.Local? {
      ResolveClean(true, backend.uploadDir, named);
    } else {
      var here: seq<string> := [];
      ResolveClean(false, here, named);
      assert here + named == named;
      RelativeNormalize(key);
    }
  }

  /** What a path read from a plain relative key resolves to. */
  lemma ReadFromKey(p: string, named: seq<string>)
    requires named != [] && Descending(named) && forall s | s in named :: '/' !in s
    requires S3.ReadPlace(p) == Object(Join(named, '/'))
    ensures !EndsWithSlash(p) && Resolve(false, [], Split(p, '/')) == named
  {
    hide Split, Join, Resolve, Normalize;
    var q, key := WithoutSlash(p), Join(named, '/');
    SplitJoin(named, '/');
    JoinNonEmpty(named);
    SplitEnds(key, '/');
    assert !IsAbsolute(key) && !EndsWithSlash(key);
    if IsAbsolute(q) {
      NormalizeKeepsSlash(q);
    }
    if EndsWithSlash(q) {
      SlashedNormalize(q);
    }
    if p == "/" {
      assert q == "";
      EmptyNormalize();
      SplitSeparatorFree(".", '/');
    }
    RelativeNormalize(q);
    SplitPieces(q);
    ResolvedIsNamed(false, [], Split(q, '/'));
    RelativeTextInjective(named, Resolve(false, [], Split(q, '/')));
    WithoutSlashResolves(p);
  }

  lemma EmptyNormalize()
    ensures Normalize("") == "."
  {
  }

  /** A path read from a plain relative key does not climb, and the key made of it has more segments than that one. */
  lemma KeysGoDeeper(p: string, named: seq<string>)
    requires named != [] && Descending(named) && forall s | s in named :: '/' !in s
    requires S3.ReadPlace(p) == Object(Join(named, '/'))
    ensures StaysBelow(p) && |Directory(p)| + 1 >= |named|
  {
    hide Split, Join, Resolve, Dirname, Clean, Component, PushSegment, Backend.ReadPlace;
    ReadFromKey(p, named);
    var here: seq<string> := [];
    var front := SplitAtComponent(p);
    var above := Resolve(false, here, front);
    ResolveAppend(false, here, front, [Component(p)]);
    ClimbIsFirst(here, front);
    if ".." in above {
      ClimbingIsFinal(above, [Component(p)]);
      assert false;
    }
    ResolveIgnoresUnnamed(false, here, front);
    ResolveIgnoresUnnamed(false, here, Split(Dirname(p), '/'));
    FrontIsDirectory(p, front, false, here);
    assert here + Directory(p) == Directory(p);
    ResolveLast(false, above, Component(p));
    PushAddsOne(false, above, Component(p));
  }

  lemma PushAddsOne(absolute: bool, stack: seq<string>, segment: string)
    ensures |PushSegment(absolute, stack, segment)| <= |stack| + 1
  {
  }

  /** On S3 a path that climbs above the root is read from elsewhere than a straight one with an extension. */
  lemma ClimbingIsElsewhere(p: string, q: string)
    requires Straight(S3, p) && Extname(p) != "" && !StaysBelow(q)
    ensures S3.ReadPlace(q) != S3.ReadPlace(p)
  {
    hide Directory, Component, Extname, StaysBelow, Backend.ReadPlace, Join;
    ReadByComponent(S3, p);
    DirectoryIsPlain(p);
    var named := Directory(p) + [Component(p)];
    ExtensionMakesPlain(false, Directory(p), p);
    ComponentHasName(p);
    assert forall s | s in named :: s in Directory(p) || s == Component(p);
    if S3.ReadPlace(q) == S3.ReadPlace(p) {
      KeysGoDeeper(q, named);
    }
  }

  lemma ComponentHasName(p: string)
    requires Extname(p) != ""
    ensures Component(p) != "" && Component(p) != "." && Component(p) != ".." && '/' !in Component(p)
  {
  }

  /** Recovers stem, hash and effective extension from a cached file's name. */
  function DecodeName(name: string): (string, string, string)
    requires |name| >= HASH_LENGTH
  {
    var dot := LastIndexOf(name, '.');
    var end := if dot < HASH_LENGTH then |name| else dot;
    (name[..end - HASH_LENGTH], name[end - HASH_LENGTH..end], name[end..])
  }

  /** Names decode uniquely, whatever dots the stem holds and whether or not there is an extension. */
  lemma NameDecodes(p: string, hash: string, ext: Option<string>)
    requires IsHash(hash) && IsExtensionText(ext)
    ensures DecodeName(CacheName(p, hash, ext)) == (Stem(p), hash, EffectiveExtension(p, ext))
  {
    var stem, tail := Stem(p), EffectiveExtension(p, ext);
    var name := CacheName(p, hash, ext);
    var end := |stem| + HASH_LENGTH;
    assert name[..|stem|] == stem && name[|stem|..end] == hash && name[end..] == tail;
    if tail != "" {
      forall k | end < k < |name|
        ensures name[k] != '.'
      {
        assert name[k] == tail[k - end];
      }
      assert name[end] == tail[0] == '.';
      LastIndexOfUnique(name, '.', end);
    } else {
      var component := Component(p);
      assert stem == component;
      assert forall k | |stem| <= k < |name| :: name[k] == hash[k - |stem|] && name[k] in hash;
      assert forall k | 0 <= k < |stem| :: name[k] == component[k];
      assert LastIndexOf(name, '.') <= 1;
    }
  }

  /** The whole key determines directory, stem, hash and effective extension. */
  lemma CachePathInjective(backend: Backend, p1: string, h1: string, e1: Option<string>,
                           p2: string, h2: string, e2: Option<string>)
    requires IsHash(h1) && IsExtensionText(e1) && Grounded(p1)
    requires IsHash(h2) && IsExtensionText(e2) && Grounded(p2)
    ensures backend.ReadPlace(CachePath(p1, h1, e1)) == backend.ReadPlace(CachePath(p2, h2, e2))
       <==> Directory(p1) == Directory(p2) && Stem(p1) == Stem(p2) && h1 == h2
              && EffectiveExtension(p1, e1) == EffectiveExtension(p2, e2)
  {
    hide Directory, Stem, EffectiveExtension, CachePath, Backend.ReadPlace, Grounded, IsHash, IsExtensionText, Named,
         CacheName, DecodeName, Join, Split;
    CachePathLocation(backend, p1, h1, e1);
    CachePathLocation(backend, p2, h2, e2);
    DirectoryKeyIsPlain(p1, h1, e1);
    DirectoryKeyIsPlain(p2, h2, e2);
    NameDecodes(p1, h1, e1);
    NameDecodes(p2, h2, e2);
    CacheNameLength(p1, h1, e1);
    CacheNameLength(p2, h2, e2);
    BelowInjective(backend, Directory(p1), CacheName(p1, h1, e1), Directory(p2), CacheName(p2, h2, e2));
    if Stem(p1) == Stem(p2) && h1 == h2 && EffectiveExtension(p1, e1) == EffectiveExtension(p2, e2) {
      CacheNameParts(p1, h1, e1);
      CacheNameParts(p2, h2, e2);
    }
  }

  /** The key's own extension: the format where one is set, otherwise that of the path, unless that names a parent. */
  lemma KeyExtension(p: string, hash: string, ext: Option<string>)
    requires IsHash(hash) && IsExtensionText(ext) && Grounded(p)
    ensures ext.Some? || Component(p) != ".." ==>
              && Extname(CachePath(p, hash, ext)) == (if ext.Some? then "." + ext.value else Extname(p))
              && Stem(CachePath(p, hash, ext)) == Stem(p) + hash
    ensures ext.None? && Component(p) == ".." ==> Extname(CachePath(p, hash, ext)) == "." + hash
  {
    hide Grounded, CachePath, Directory;
    var name := CacheName(p, hash, ext);
    CachePathText(p, hash, ext);
    NameIsPlain(p, hash, ext);
    LastOfJoined([CACHE_DIR] + Directory(p), name);
    CacheNameTakenApart(p, hash, ext);
  }

  lemma LastOfJoined(front: seq<string>, name: string)
    requires name != "" && '/' !in name
    ensures Component(Join(front + [name], '/')) == name
  {
    hide Split, LastIndexOf;
    var p := Join(front + [name], '/');
    JoinEndsIn(front, name);
    assert p[|p| - 1] == name[|name| - 1];
    assert TrimSlashes(p) == p;
    if front == [] {
      assert p == name;
      NoIndex(p);
    } else {
      var i := |p| - |name| - 1;
      assert p[i] == '/' && forall k | i < k < |p| :: p[k] == name[k - i - 1];
      LastIndexOfUnique(p, '/', i);
    }
  }

  lemma NoIndex(s: string)
    requires '/' !in s
    ensures LastIndexOf(s, '/') == -1
  {
  }

  lemma {:induction false} JoinEndsIn(front: seq<string>, name: string)
    ensures var p := Join(front + [name], '/');
      && |p| >= |name| && p[|p| - |name|..] == name
      && (front == [] ==> p == name)
      && (front != [] ==> |p| > |name| && p[|p| - |name| - 1] == '/')
  {
    if front == [] {
      assert front + [name] == [name];
    } else {
      JoinEndsIn(front[1..], name);
      assert front + [name] == [front[0]] + (front[1..] + [name]);
      JoinStep(front[0], front[1..] + [name], '/');
    }
  }

  lemma CacheNameTakenApart(p: string, hash: string, ext: Option<string>)
    requires IsHash(hash) && IsExtensionText(ext)
    ensures var name := CacheName(p, hash, ext);
      if ext.None? && Component(p) == ".." then name[ExtensionStart(name)..] == "." + hash
      else
        && name[ExtensionStart(name)..] == (if ext.Some? then "." + ext.value else Extname(p))
        && name[..ExtensionStart(name)] == Stem(p) + hash
  {
    var name, stem, tail := CacheName(p, hash, ext), Stem(p) + hash, EffectiveExtension(p, ext);
    ExtensionIff(p);
    assert name == stem + tail && |stem| >= HASH_LENGTH;
    hide Stem, Extname, Component;
    if ext.None? && Component(p) == ".." {
      ParentName(p, hash, name);
    } else if tail == "" {
      NoDotsLate(p, hash, name);
    } else {
      assert name[|stem|] == '.' && forall k | |stem| < k < |name| :: name[k] == tail[1..][k - |stem| - 1];
      LastIndexOfUnique(name, '.', |stem|);
    }
  }

  lemma NoDotsLate(p: string, hash: string, name: string)
    requires IsHash(hash) && Extname(p) == "" && name == Stem(p) + hash && Component(p) != ".."
    ensures ExtensionStart(name) == |name|
  {
    hide Component;
    ExtensionIff(p);
    var component := Component(p);
    assert Stem(p) == component;
    assert forall k | |component| <= k < |name| :: name[k] == hash[k - |component|] && name[k] in hash;
    assert forall k | 0 <= k < |component| :: name[k] == component[k];
  }

  lemma ParentName(p: string, hash: string, name: string)
    requires IsHash(hash) && Component(p) == ".." && name == Stem(p) + hash + Extname(p)
    ensures ExtensionStart(name) == 1 && name[1..] == "." + hash
  {
    hide Component;
    ExtensionIff(p);
    assert name == ".." + hash;
    assert name[1] == '.' && forall k | 1 < k < |name| :: name[k] == hash[k - 2] && name[k] in hash;
    LastIndexOfUnique(name, '.', 1);
  }

  lemma CacheNameLength(p: string, hash: string, ext: Option<string>)
    requires IsHash(hash)
    ensures |CacheName(p, hash, ext)| >= HASH_LENGTH
  {
  }

  lemma BelowInjective(backend: Backend, d1: seq<string>, n1: string, d2: seq<string>, n2: string)
    requires forall s | s in [CACHE_DIR] + d1 + [n1] :: '/' !in s
    requires forall s | s in [CACHE_DIR] + d2 + [n2] :: '/' !in s
    ensures backend.Below([CACHE_DIR] + d1 + [n1]) == backend.Below([CACHE_DIR] + d2 + [n2]) <==> d1 == d2 && n1 == n2
  {
    hide Split, Join;
    var f1, f2 := [CACHE_DIR] + d1 + [n1], [CACHE_DIR] + d2 + [n2];
    SplitJoin(f1, '/');
    SplitJoin(f2, '/');
    if backend.Local? {
      assert f1 == (backend.uploadDir + f1)[|backend.uploadDir|..];
      assert f2 == (backend.uploadDir + f2)[|backend.uploadDir|..];
    }
    assert d1 == f1[1..|f1| - 1] && n1 == f1[|f1| - 1];
    assert d2 == f2[1..|f2| - 1] && n2 == f2[|f2| - 1];
  }
}
