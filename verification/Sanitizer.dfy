/** The traversal guard of the asset server: repeated deletion of `../` and `..\` until nothing changes. */
module Sanitizer {
  import opened Text
  import opened Paths

  predicate IsSeparator(c: char) {
    c == '/' || c == '\\'
  }

  /** Two dots and a separator stand at index `i`. */
  predicate TraversalAt(s: string, i: nat) {
    i + 2 < |s| && s[i] == '.' && s[i + 1] == '.' && IsSeparator(s[i + 2])
  }

  predicate TraversalFree(s: string) {
    forall i: nat | i < |s| :: !TraversalAt(s, i)
  }

  /** `s` with the three characters at `i` deleted. */
  function DeleteAt(s: string, i: nat): string
    requires TraversalAt(s, i)
  {
    s[..i] + s[i + 3..]
  }

  /** One global replace: every occurrence, left to right, without looking at what the deletions bring together. */
  function DeletePass(s: string): (r: string)
    ensures |r| <= |s|
  {
    if s == "" then ""
    else if TraversalAt(s, 0) then DeletePass(s[3..])
    else [s[0]] + DeletePass(s[1..])
  }

  /** A one-pass reducer: push characters on a stack; a separator that meets two dots cancels them. */
  function Push(stack: string, c: char): string {
    var n := |stack|;
    if IsSeparator(c) && n >= 2 && stack[n - 1] == '.' && stack[n - 2] == '.' then stack[..n - 2]
    else stack + [c]
  }

  function PushAll(stack: string, s: string): string
    decreases |s|
  {
    if s == "" then stack else PushAll(Push(stack, s[0]), s[1..])
  }

  function Reduce(s: string): string {
    PushAll("", s)
  }

  lemma {:induction false} PushAllAppend(stack: string, a: string, b: string)
    ensures PushAll(stack, a + b) == PushAll(PushAll(stack, a), b)
    decreases |a|
  {
    if a == "" {
      assert a + b == b;
    } else {
      assert (a + b)[1..] == a[1..] + b;
      PushAllAppend(Push(stack, a[0]), a[1..], b);
    }
  }

  lemma PushTraversal(stack: string, c: char, rest: string)
    requires IsSeparator(c)
    ensures PushAll(stack, ['.', '.', c] + rest) == PushAll(stack, rest)
  {
    var one := ['.', '.', c] + rest;
    var two := one[1..];
    assert two == ['.', c] + rest;
    assert two[1..] == [c] + rest;
    assert two[1..][1..] == rest;
    var dotted := Push(Push(stack, '.'), '.');
    assert dotted == stack + ['.', '.'];
    assert Push(dotted, c) == stack;
    assert PushAll(stack, one) == PushAll(Push(stack, '.'), two) == PushAll(dotted, [c] + rest);
  }

  /** Deleting any one occurrence, wherever it stands, leaves the reduced form as it was. */
  lemma DeletionKeepsReduction(s: string, i: nat)
    requires TraversalAt(s, i)
    ensures Reduce(DeleteAt(s, i)) == Reduce(s)
  {
    var tail := ['.', '.', s[i + 2]] + s[i + 3..];
    assert s == s[..i] + tail;
    PushAllAppend("", s[..i], tail);
    PushAllAppend("", s[..i], s[i + 3..]);
    PushTraversal(PushAll("", s[..i]), s[i + 2], s[i + 3..]);
  }

  lemma {:induction false} PushAllOfFree(stack: string, s: string)
    requires TraversalFree(stack + s)
    ensures PushAll(stack, s) == stack + s
    decreases |s|
  {
    if s == "" {
    } else {
      var n := |stack|;
      assert (stack + s)[n] == s[0];
      assert n >= 2 ==> !TraversalAt(stack + s, n - 2);
      assert stack + [s[0]] + s[1..] == stack + s;
      PushAllOfFree(stack + [s[0]], s[1..]);
    }
  }

  lemma {:induction false} PushAllIsFree(stack: string, s: string)
    requires TraversalFree(stack)
    ensures TraversalFree(PushAll(stack, s))
    decreases |s|
  {
    if s != "" {
      var next := Push(stack, s[0]);
      forall i: nat | i < |next|
        ensures !TraversalAt(next, i)
      {
        assert !(i < |stack|) || !TraversalAt(stack, i);
      }
      PushAllIsFree(next, s[1..]);
    }
  }

  /** Entry `k + 1` of the run is entry `k` with one occurrence deleted, any one of them. */
  ghost predicate DeletionStep(run: seq<string>, k: int)
    requires 0 <= k < |run| - 1
  {
    exists i: nat :: TraversalAt(run[k], i) && run[k + 1] == DeleteAt(run[k], i)
  }

  /** A run of single deletions, in any order the regular expression engine might choose. */
  ghost predicate DeletionRun(run: seq<string>) {
    && run != []
    && forall k | 0 <= k < |run| - 1 :: DeletionStep(run, k)
  }

  lemma DeletionShortens(s: string, i: nat)
    requires TraversalAt(s, i)
    ensures |DeleteAt(s, i)| == |s| - 3
  {
  }

  /** However the deletions are ordered, a run that can go no further ends in the reduced form of its start. */
  lemma {:induction false} UniqueNormalForm(run: seq<string>)
    requires DeletionRun(run)
    ensures Reduce(run[|run| - 1]) == Reduce(run[0])
    ensures TraversalFree(run[|run| - 1]) <==> run[|run| - 1] == Reduce(run[0])
    ensures |run| <= |run[0]| + 1
    decreases |run|
  {
    hide Reduce, DeleteAt, TraversalFree;
    var last := run[|run| - 1];
    if |run| == 1 {
      ReducedIff(last);
    } else {
      assert DeletionStep(run, 0);
      var i: nat :| TraversalAt(run[0], i) && run[1] == DeleteAt(run[0], i);
      DeletionKeepsReduction(run[0], i);
      assert |run[1]| < |run[0]| by {
        DeletionShortens(run[0], i);
      }
      forall k | 0 <= k < |run[1..]| - 1
        ensures DeletionStep(run[1..], k)
      {
        assert DeletionStep(run, k + 1);
      }
      UniqueNormalForm(run[1..]);
      assert run[1..][0] == run[1] && run[1..][|run| - 2] == last;
    }
  }

  /** The reduced form holds no traversal, and the strings that hold none are exactly those equal to it. */
  lemma ReducedIff(s: string)
    ensures TraversalFree(Reduce(s))
    ensures TraversalFree(s) <==> Reduce(s) == s
  {
    PushAllIsFree("", s);
    if TraversalFree(s) {
      assert "" + s == s;
      PushAllOfFree("", s);
    }
  }

  lemma {:induction false} PassKeepsReduction(stack: string, s: string)
    ensures PushAll(stack, DeletePass(s)) == PushAll(stack, s)
    decreases |s|
  {
    if s == "" {
    } else if TraversalAt(s, 0) {
      assert s == ['.', '.', s[2]] + s[3..];
      PushTraversal(stack, s[2], s[3..]);
      PassKeepsReduction(stack, s[3..]);
    } else {
      PassKeepsReduction(Push(stack, s[0]), s[1..]);
      assert ([s[0]] + DeletePass(s[1..]))[1..] == DeletePass(s[1..]);
    }
  }

  /** A pass changes nothing exactly when there is nothing to delete, and shortens the string otherwise. */
  lemma {:induction false} PassStableIff(s: string)
    ensures DeletePass(s) == s <==> TraversalFree(s)
    ensures !TraversalFree(s) ==> |DeletePass(s)| < |s|
    decreases |s|
  {
    if s == "" {
    } else if TraversalAt(s, 0) {
    } else {
      PassStableIff(s[1..]);
      assert s == [s[0]] + s[1..];
      if TraversalFree(s[1..]) {
        forall i: nat | i < |s|
          ensures !TraversalAt(s, i)
        {
          assert i == 0 || !TraversalAt(s[1..], i - 1);
        }
      } else {
        var i: nat :| i < |s[1..]| && TraversalAt(s[1..], i);
        assert TraversalAt(s, i + 1);
      }
    }
  }

  /** The do/while loop: passes until the string stops changing. */
  method StripTraversals(normalizedPath: string) returns (sanitizedPath: string)
    ensures TraversalFree(sanitizedPath)
    ensures sanitizedPath == Reduce(normalizedPath)
  {
    sanitizedPath := normalizedPath;
    var changed := true;
    while changed
      invariant Reduce(sanitizedPath) == Reduce(normalizedPath)
      invariant !changed ==> TraversalFree(sanitizedPath)
      decreases |sanitizedPath|, changed
    {
      var previousPath := sanitizedPath;
      sanitizedPath := DeletePass(previousPath);
      PassKeepsReduction("", previousPath);
      PassStableIff(previousPath);
      changed := sanitizedPath != previousPath;
    }
    ReducedIff(sanitizedPath);
  }

  /** Rewriting the platform separator to `/` afterwards brings no traversal back, on either platform. */
  lemma SeparatorRewriteStaysFree(s: string, platformSeparator: char)
    requires TraversalFree(s) && IsSeparator(platformSeparator)
    ensures var r := Join(Split(s, platformSeparator), '/');
      && |r| == |s|
      && TraversalFree(r)
      && (platformSeparator == '/' ==> r == s)
      && (platformSeparator == '\\' ==> '\\' !in r)
  {
    RewriteIsPointwise(s, platformSeparator);
    var r := Join(Split(s, platformSeparator), '/');
    forall i: nat | i < |r|
      ensures !TraversalAt(r, i)
    {
      assert !TraversalAt(s, i);
    }
  }

  lemma {:induction false} RewriteIsPointwise(s: string, c: char)
    ensures var r := Join(Split(s, c), '/');
      |r| == |s| && forall i | 0 <= i < |s| :: r[i] == if s[i] == c then '/' else s[i]
  {
    hide Split, Join;
    if s == "" {
      SplitSeparatorFree(s, c);
      JoinOne("", '/');
    } else {
      RewriteIsPointwise(s[1..], c);
      SplitStep(s, c);
      var rest := Split(s[1..], c);
      if s[0] == c {
        JoinStep("", rest, '/');
        assert [""] + rest == Split(s, c);
      } else {
        JoinLonger(s[0], rest, '/');
      }
    }
  }

  // ---------- the sanitized request path ----------

  /** What the handlers do with a request path: the decoded path, or None where decoding failed. */
  function SanitizeFilePath(backend: Backend, decodedPath: Option<string>): string {
    match decodedPath
    case None => ""
    case Some(p) =>
      if backend.S3? then p else Join(Split(Reduce(Normalize(p)), '/'), '/')
  }

  method SanitizePath(backend: Backend, decodedPath: Option<string>) returns (path: string)
    ensures path == SanitizeFilePath(backend, decodedPath)
    ensures backend.Local? ==> TraversalFree(path)
    ensures decodedPath == None ==> path == ""
    ensures backend.S3? && decodedPath.Some? ==> path == decodedPath.value
    ensures backend.Local? && decodedPath.Some? && TraversalFree(Normalize(decodedPath.value)) ==>
              path == Normalize(decodedPath.value)
  {
    if decodedPath.None? {
      return "";
    }
    if backend.S3? {
      return decodedPath.value;
    }
    var sanitized := StripTraversals(Normalize(decodedPath.value));
    path := Join(Split(sanitized, '/'), '/');
    SeparatorRewriteStaysFree(sanitized, '/');
    ReducedIff(Normalize(decodedPath.value));
  }

  lemma FirstPiece(s: string)
    ensures var k := |Split(s, '/')[0]|;
      k <= |s| && Split(s, '/')[0] == s[..k] && (k < |s| ==> s[k] == '/')
  {
  }

  lemma {:induction false} SegmentsOfFree(s: string)
    requires TraversalFree(s + "/")
    ensures ".." !in Split(s, '/')
  {
    if s != "" {
      assert forall i: nat | i < |s[1..] + "/"| ::
          TraversalAt(s[1..] + "/", i) ==> TraversalAt(s + "/", i + 1);
      SegmentsOfFree(s[1..]);
      FirstPiece(s);
      assert !TraversalAt(s + "/", 0);
      var first := Split(s, '/')[0];
      assert |first| == 2 ==> first == s[..2] && (s + "/")[2] == '/';
      var rest := Split(s[1..], '/');
      assert forall piece | piece in Split(s, '/') :: piece == first || piece in rest;
    }
  }

  /** A path without a traversal never climbs: no `..` stands among its directory segments. */
  lemma FreeDescends(p: string)
    requires TraversalFree(p)
    ensures DirectoryDescends(p)
  {
    var trimmed := TrimSlashes(p);
    var i := LastIndexOf(trimmed, '/');
    SplitSeparatorFree(".", '/');
    SplitSeparatorFree("", '/');
    assert "/" == "" + ['/'] + "" && "//" == "/" + ['/'] + "";
    SplitAppend("", "", '/');
    SplitAppend("/", "", '/');
    if i > 0 {
      var dir := trimmed[..i];
      assert dir + "/" == p[..i + 1];
      forall k: nat | k < |dir + "/"|
        ensures !TraversalAt(dir + "/", k)
      {
        assert !TraversalAt(p, k);
      }
      SegmentsOfFree(dir);
    }
  }

  /** On local storage the directory part of a sanitized path descends; on S3 the path is used as it was decoded. */
  lemma SanitizedDescends(backend: Backend, decodedPath: Option<string>)
    requires backend.Local?
    ensures TraversalFree(SanitizeFilePath(backend, decodedPath))
    ensures DirectoryDescends(SanitizeFilePath(backend, decodedPath))
    ensures StaysBelow(SanitizeFilePath(backend, decodedPath))
  {
    if decodedPath.Some? {
      ReducedIff(Normalize(decodedPath.value));
      SeparatorRewriteStaysFree(Reduce(Normalize(decodedPath.value)), '/');
    }
    FreeDescends(SanitizeFilePath(backend, decodedPath));
    DescendingPathStaysBelow(SanitizeFilePath(backend, decodedPath));
  }

  // ---------- inner `..` are resolved, not deleted ----------

  /** A name followed by `..` cancels out, wherever it stands. */
  lemma ParentCancels(absolute: bool, stack: seq<string>, a: seq<string>, name: string, b: seq<string>)
    requires name != "" && name != "." && name != ".."
    ensures Resolve(absolute, stack, a + [name, ".."] + b) == Resolve(absolute, stack, a + b)
  {
    var top := Resolve(absolute, stack, a);
    ResolveAppend(absolute, stack, a, b);
    ResolveAppend(absolute, stack, a + [name, ".."], b);
    ResolveAppend(absolute, stack, a, [name, ".."]);
    assert [name, ".."][1..] == [".."];
    ResolveLast(absolute, top + [name], "..");
    assert (top + [name])[..|top|] == top;
  }

  /** The pieces of a normalized absolute path that leads anywhere. */
  lemma NormalizedPieces(p: string)
    requires IsAbsolute(p) && Resolve(true, [], Split(p, '/')) != []
    ensures var named := Resolve(true, [], Split(p, '/'));
      && Split(Normalize(p), '/') == [""] + named + (if EndsWithSlash(p) then [""] else [])
      && EndsWithSlash(Normalize(p)) == EndsWithSlash(p)
  {
    hide Split, Resolve, Join;
    var here: seq<string> := [];
    var named := Resolve(true, here, Split(p, '/'));
    RootedDescends(here, Split(p, '/'));
    SplitPieces(p);
    JoinNonEmpty(named);
    SplitJoin(named, '/');
    var body := Join(named, '/');
    SplitEnds(body, '/');
    NormalizedSplit(p, body, [""], if EndsWithSlash(p) then [""] else []);
    var n := Normalize(p);
    if EndsWithSlash(p) {
      assert n == "/" + body + "/" && n[|n| - 1] == '/';
    } else {
      assert n == "/" + body + "" && n[|n| - 1] == body[|body| - 1];
    }
  }

  /** Where the text of a normalized absolute path is read from. */
  lemma NormalizedPlace(uploadDir: seq<string>, p: string)
    requires IsAbsolute(p)
    ensures var named := Resolve(true, [], Split(p, '/'));
      Local(uploadDir).ReadPlace(Normalize(p)) == File(uploadDir + named, EndsWithSlash(p) || named == [])
  {
    hide Split, Resolve, Join;
    var here: seq<string> := [];
    var named := Resolve(true, here, Split(p, '/'));
    if named == [] {
      JoinNothing(named);
      assert Normalize(p) == "/";
      RootPlace(uploadDir);
    } else {
      RootedDescends(here, Split(p, '/'));
      NormalizedPieces(p);
      hide Normalize, EndsWithSlash;
      PaddedResolves(uploadDir, named, if EndsWithSlash(p) then [""] else []);
    }
  }

  lemma PaddedResolves(root: seq<string>, named: seq<string>, tail: seq<string>)
    requires Descending(named) && (tail == [] || tail == [""])
    ensures Resolve(true, root, [""] + named + tail) == root + named
  {
    UnnamedIsDropped();
    CleanAppend([""] + named, tail);
    CleanAppend([""], named);
    CleanOfClean(named);
    ResolveClean(true, root, [""] + named + tail);
  }

  lemma RootPlace(uploadDir: seq<string>)
    ensures Local(uploadDir).ReadPlace("/") == File(uploadDir, true)
  {
    hide Split;
    SplitSeparatorFree("", '/');
    SplitAppend("", "", '/');
    assert "/" == "" + ['/'] + "";
    var none: seq<string> := [];
    PaddedResolves(uploadDir, none, [""]);
    assert [""] + none + [""] == ["", ""];
  }

  /**
   * On local storage a path is normalized first: it is read from where its segments, `.` and `..` resolved from the
   * root, lead in the upload directory, unless the guard finds something to delete in the result.
   */
  lemma SanitizedPlace(uploadDir: seq<string>, p: string)
    requires IsAbsolute(p) && TraversalFree(Normalize(p))
    ensures var named := Resolve(true, [], Split(p, '/'));
      Local(uploadDir).ReadPlace(SanitizeFilePath(Local(uploadDir), Some(p)))
        == File(uploadDir + named, EndsWithSlash(p) || named == [])
  {
    hide Resolve, Normalize, Split, Join;
    ReducedIff(Normalize(p));
    JoinSplit(Normalize(p), '/');
    NormalizedPlace(uploadDir, p);
  }

  /** Splitting a path of two pieces. */
  lemma SplitTwo(first: string, rest: string, whole: string)
    requires '/' !in first && whole == first + "/" + rest
    ensures Split(whole, '/') == [first] + Split(rest, '/')
  {
    hide Split;
    SplitSeparatorFree(first, '/');
    SplitAppend(first, rest, '/');
    assert first + "/" + rest == first + ['/'] + rest;
  }

  lemma SampleSplit()
    ensures Split("a/b/../c.jpg", '/') == ["a", "b", "..", "c.jpg"]
    ensures Split("/a/b/../c.jpg", '/') == ["", "a", "b", "..", "c.jpg"]
  {
    hide Split;
    SplitSeparatorFree("c.jpg", '/');
    SplitTwo("..", "c.jpg", "../c.jpg");
    SplitTwo("b", "../c.jpg", "b/../c.jpg");
    SplitTwo("a", "b/../c.jpg", "a/b/../c.jpg");
    SplitTwo("", "a/b/../c.jpg", "/a/b/../c.jpg");
  }

  lemma SampleResolves(absolute: bool, front: seq<string>)
    requires Clean(front + ["c.jpg"]) == ["a", "c.jpg"] && ".." !in front
    ensures Resolve(absolute, [], front + ["b", ".."] + ["c.jpg"]) == ["a", "c.jpg"]
  {
    hide Resolve, Clean;
    var here: seq<string> := [];
    ParentCancels(absolute, here, front, "b", ["c.jpg"]);
    ResolveClean(absolute, here, front + ["c.jpg"]);
    assert here + ["a", "c.jpg"] == ["a", "c.jpg"];
  }

  lemma SampleSegments()
    ensures Resolve(true, [], Split("/a/b/../c.jpg", '/')) == ["a", "c.jpg"]
    ensures Resolve(false, [], Split("a/b/../c.jpg", '/')) == ["a", "c.jpg"]
  {
    hide Split, Resolve, Clean;
    SampleSplit();
    SampleClean();
    assert ["", "a"] + ["c.jpg"] == ["", "a", "c.jpg"] && ["a"] + ["c.jpg"] == ["a", "c.jpg"];
    SampleResolves(true, ["", "a"]);
    SampleResolves(false, ["a"]);
    assert ["", "a"] + ["b", ".."] + ["c.jpg"] == ["", "a", "b", "..", "c.jpg"];
    assert ["a"] + ["b", ".."] + ["c.jpg"] == ["a", "b", "..", "c.jpg"];
  }

  lemma SampleClean()
    ensures Clean(["", "a", "c.jpg"]) == ["a", "c.jpg"] == Clean(["a", "c.jpg"])
  {
    assert ["", "a", "c.jpg"][1..] == ["a", "c.jpg"] && ["a", "c.jpg"][1..] == ["c.jpg"] && ["c.jpg"][1..] == [];
  }

  /** `/a/b/../c.jpg` is served from `a/c.jpg`, on either backend. */
  lemma InnerParentIsResolved(uploadDir: seq<string>)
    ensures Local(uploadDir).ReadPlace(SanitizeFilePath(Local(uploadDir), Some("/a/b/../c.jpg")))
         == File(uploadDir + ["a", "c.jpg"], false)
    ensures S3.ReadPlace(SanitizeFilePath(S3, Some("/a/b/../c.jpg"))) == Object("a/c.jpg")
  {
    var p := "/a/b/../c.jpg";
    assert IsAbsolute(p) && !EndsWithSlash(p);
    assert p[1..] == "a/b/../c.jpg";
    hide Split, Resolve, Join, Normalize;
    SampleSegments();
    SampleNormalized();
    SanitizedPlace(uploadDir, p);
    RelativeNormalize("a/b/../c.jpg");
    JoinSample();
  }

  lemma JoinSample()
    ensures Join(["a", "c.jpg"], '/') == "a/c.jpg"
  {
    JoinStep("a", ["c.jpg"], '/');
    assert ["a"] + ["c.jpg"] == ["a", "c.jpg"];
  }

  lemma SampleNormalized()
    ensures Normalize("/a/b/../c.jpg") == "/a/c.jpg" && TraversalFree(Normalize("/a/b/../c.jpg"))
  {
    hide Split, Resolve;
    SampleSegments();
    JoinSample();
    assert "/" + "a/c.jpg" + "" == "/a/c.jpg";
  }

  // ---------- containment in the upload directory ----------

  /** A traversal-free path that ends in a slash names no `..` at all. */
  lemma SlashedIsContained(uploadDir: seq<string>, p: string)
    requires TraversalFree(p) && EndsWithSlash(p)
    ensures Component(p) != ".."
    ensures uploadDir <= Local(uploadDir).ReadPlace(p).segments
  {
    hide Split, Resolve;
    var s := p[..|p| - 1];
    assert p == s + "/" && p == s + ['/'] + "";
    SegmentsOfFree(s);
    SplitAppend(s, "", '/');
    SplitSeparatorFree("", '/');
    ResolveClean(true, uploadDir, Split(p, '/'));
    SlashedComponent(p);
  }

  lemma SlashedComponent(p: string)
    requires TraversalFree(p) && EndsWithSlash(p)
    ensures Component(p) != ".."
  {
    hide LastIndexOf;
    var trimmed, component := TrimSlashes(p), Component(p);
    var i := |trimmed| - |component|;
    assert trimmed[i..] == component;
    assert !TraversalAt(p, i);
    if |component| == 2 {
      assert p[i] == trimmed[i] == component[0] && p[i + 1] == trimmed[i + 1] == component[1] && p[i + 2] == '/';
    }
  }

  /**
   * Exactly: what a traversal-free path names lies in the upload directory unless the path is `..` just below its root;
   * then it is the directory above.
   */
  lemma ContainedIff(uploadDir: seq<string>, p: string)
    requires TraversalFree(p) && Descending(uploadDir)
    ensures var place := Local(uploadDir).ReadPlace(p);
      && (uploadDir <= place.segments <==> uploadDir == [] || !(Directory(p) == [] && Component(p) == ".."))
      && (Directory(p) == [] && Component(p) == ".." && uploadDir != [] ==>
            place == File(uploadDir[..|uploadDir| - 1], false))
  {
    hide Directory, Component, StaysBelow, Backend.ReadPlace, TraversalFree;
    if EndsWithSlash(p) {
      SlashedIsContained(uploadDir, p);
    } else if uploadDir != [] {
      FreeDescends(p);
      DescendingPathStaysBelow(p);
      ReadByComponent(Local(uploadDir), p);
      DirectoryIsPlain(p);
      var stack := uploadDir + Directory(p);
      assert Directory(p) == [] ==> stack == uploadDir;
      assert Directory(p) != [] ==> stack[|stack| - 1] == Directory(p)[|Directory(p)| - 1];
      assert stack[|stack| - 1] in stack;
      assert Directory(p) != [] ==> stack[..|stack| - 1] == uploadDir + Directory(p)[..|Directory(p)| - 1];
    }
  }

  /** So it is for every request path on local storage. */
  lemma SanitizedContainedIff(uploadDir: seq<string>, decodedPath: Option<string>)
    requires Descending(uploadDir)
    ensures var p := SanitizeFilePath(Local(uploadDir), decodedPath);
      uploadDir <= Local(uploadDir).ReadPlace(p).segments <==>
        uploadDir == [] || !(Directory(p) == [] && Component(p) == "..")
  {
    hide SanitizeFilePath, TraversalFree, Directory, Component, Backend.ReadPlace;
    SanitizedDescends(Local(uploadDir), decodedPath);
    ContainedIff(uploadDir, SanitizeFilePath(Local(uploadDir), decodedPath));
  }

  /** `GET /..%5C..`: the backslash keeps normalizing from seeing two dots, and deleting `..\` leaves the other two. */
  lemma BackslashLeavesDots()
    ensures SanitizeFilePath(Local(["srv", "up"]), Some("/..\\..")) == "/.."
    ensures Local(["srv", "up"]).ReadPlace("/..") == File(["srv"], false)
  {
    var p := "/..\\..";
    NormalizeBackslashed(p);
    assert Reduce(p) == "/.." by {
      assert p == "/" + (['.', '.', '\\'] + "..");
      PushAllAppend("", "/", ['.', '.', '\\'] + "..");
      assert PushAll("", "/") == "/" by {
        assert "/"[1..] == "";
      }
      PushTraversal("/", '\\', "..");
      PushDots();
    }
    JoinSplit("/..", '/');
    hide Reduce, Normalize;
    DotsAtRoot();
  }

  lemma PushDots()
    ensures PushAll("/", "..") == "/.."
  {
    assert ".."[1..] == "." && "."[1..] == "";
  }

  lemma NormalizeBackslashed(p: string)
    requires p == "/..\\.."
    ensures Normalize(p) == p
  {
    hide Split, Join;
    var name := "..\\..";
    assert p == "" + ['/'] + name;
    SplitSeparatorFree("", '/');
    SplitSeparatorFree(name, '/');
    SplitAppend("", name, '/');
    assert |name| == 5 && |"."| == 1 && |".."| == 2;
    var here: seq<string> := [];
    assert ["", name][1..] == [name] && here + [name] == [name];
    ResolveLast(true, here, name);
    assert Resolve(true, here, ["", name]) == [name];
    JoinOne(name, '/');
    assert p[|p| - 1] == '.';
    assert Split(p, '/') == ["", name];
  }

  lemma DotsAtRoot()
    ensures Local(["srv", "up"]).ReadPlace("/..") == File(["srv"], false)
  {
    hide Split;
    assert "/.." == "" + ['/'] + "..";
    SplitSeparatorFree("", '/');
    SplitSeparatorFree("..", '/');
    SplitAppend("", "..", '/');
    assert ["", ".."][1..] == [".."] && [".."][1..] == [];
    assert ["srv", "up"][..1] == ["srv"];
  }

  lemma {:induction false} PushAllKeepsSlash(stack: string, s: string)
    requires IsAbsolute(stack)
    ensures IsAbsolute(PushAll(stack, s))
    decreases |s|
  {
    if s != "" {
      PushAllKeepsSlash(Push(stack, s[0]), s[1..]);
    }
  }

  /** A request path begins with a slash and still does when it is sanitized, unless it cannot be decoded. */
  lemma RequestPathsAreAbsolute(backend: Backend, decodedPath: Option<string>)
    requires decodedPath.Some? ==> IsAbsolute(decodedPath.value)
    ensures var p := SanitizeFilePath(backend, decodedPath);
      && (p == "" || IsAbsolute(p))
      && Grounded(p)
  {
    if decodedPath.None? {
      SplitSeparatorFree(".", '/');
    } else if backend.Local? {
      hide Normalize, Split, Join;
      var n := Normalize(decodedPath.value);
      NormalizeKeepsSlash(decodedPath.value);
      PushAllKeepsSlash([n[0]], n[1..]);
      assert "" + [n[0]] == [n[0]];
      JoinSplit(Reduce(n), '/');
    }
  }
}
