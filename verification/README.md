# Vendure asset server and repository tools, modelled in Dafny

The project models five parts of the Vendure repository and proves what each is there for.

1. **The asset server's transform-and-cache pipeline.** Two request handlers share one storage. The first looks a
   request up under a key; on a miss, or any other failure, the second reads the source, transforms it, writes the
   result under the same key unless caching is off, and answers with it. The key is the sanitized path with a hash of
   the printed parameters spliced in, below `cache/`.
   Any number of requests run interleaved; rendering and writing may fail, and reads too where a theorem says `flaky`.
   `CacheProtocol.TransparentIffCoherent` says exactly when every run answers as a server without a cache,
   `CacheHypotheses.AlwaysTransparentIff` and `RegularTransparentIff` turn that into conditions that can be checked
   without rendering anything, and `StorageSafety.OutsideIntactIff` says exactly when no run writes outside the cache
   directory or over an upload.
   The layers below are a sanitizer with a unique normal form, a cache path that decodes uniquely, and a parameter text
   that a parser reads back.
2. **The focal-point crop**, with `Math.round` as the floor of x + 1/2 over exact rationals.
3. **Template-literal escaping in the docs generator**, against the scanner of ECMA-262 (2023), section 12.9.6.
4. **Two profilers**, with their conservation laws: a call-tree analyser and a require hook.
5. **`simpleDeepClone`** on the heap and recursive **`omit`** on trees.

## Layout

| file | what it holds |
|---|---|
| Text.dfy | splitting, joining and searching strings, with the laws the others use |
| Paths.dfy | the `path.posix` functions, storage locations, the cache path and its decoder |
| Sanitizer.dfy | the traversal guard and its one-pass normal form |
| Parameters.dfy, ParameterText.dfy | query normalization, strategies, presets, the printed parameter text and its parser |
| FocalPoint.dfy, TransformImage.dfy | crop arithmetic; the operations put on the image pipeline and what decides them |
| Presets.dfy | merging presets, the preset-only strategy, what naming a preset is equivalent to |
| CacheProtocol.dfy | the state machine, its invariant, transparency if and only if coherence |
| StorageSafety.dfy | what runs leave outside the cache directory, and whether uploads survive |
| CacheHypotheses.dfy | coherence for every store and image library, the hypotheses to check, what breaks without each |
| CacheCounterexamples.dfy | concrete requests that clash, and a concrete overwritten upload |
| AssetServer.dfy | the server as an object: both handlers over the storage field they read and write |
| TemplateLiteral.dfy | the escaping, the scanner, the round trip |
| Sums.dfy, CallTree.dfy, RequireTimes.dfy | finite sums; the two profilers |
| DeepClone.dfy, Omit.dfy | the structural utilities |

## What was found

The code is modelled as it is. Where a documented or expected property does not hold of it, a lemma gives the input and
another the exact condition.

- The first handler takes every failure for a missing file. If the first read of a plain file fails and the second does
  not, the file is re-encoded and, on local storage, overwritten: `GET /a.jpg` can change `/a.jpg`
  (`FailedReadOverwritesAnUpload`). Uploads survive exactly if there is no such file that re-encoding changes and that
  may be cached (`UploadsSurviveIff`).
- On S3 reads normalize the key and writes do not. What is written for a plain file goes to its path with the leading
  slash, outside `cache/`; that takes a failing read, or a path below `cache/` whose file appears between the two reads
  (`OutsideIntactIff`, `UploadStraysOnS3Iff`, `CachedFileStraysOnS3`). Uploads are never overwritten there
  (`UploadsSurviveOnS3`).
- With a `format`, the key drops the original extension: `/a.jpg?format=webp` and `/a.png?format=webp` share a key. One
  source per stem does not help, since a path without a source shares the key as well and turns from 404 into 200
  (`TwoExtensionsShareAKey`). The condition therefore speaks of requests (`AgreeOnKey`).
- A trailing slash is dropped by the key but not by storage (`TrailingSlashBreaks`).
- A `q` that is not a number is left out of the key, while sharp refuses it; that matters exactly for the formats whose
  encoder is given the quality (`BadQualityBreaksIff`).
- A preset side of 0 prints like a side that is not given (`UnsizedSideBreaks`). Presets with two such sides are the
  only ones whose name is printed (`PresetNameIsPrintedIff`), and then names can be confused with what follows them
  (`PresetNamesCanCollide`). A preset with a fractional side is not equivalent to its spelled-out form, since `w` and
  `h` are rounded (`PresetEquivalenceIff`).
- Paths below `cache/` see what other requests have cached (`CachePathSeesTheCache`, `CachedPathBreaks`).
- On S3 paths are not sanitized. The key resolves `/../a.jpg` from the root and takes `//a.jpg` for `/a.jpg`; storage
  does neither (`ClimbingBreaks`, `SecondSlashBreaks`).
- The crop shifts the axis picked by orientation, not by slack: cropping 1000x900 to 900x300 can cut off the focal point
  although another region would hold it. `FocalPointInFrameIff` gives the exact condition.
- A deprecation reason is escaped for a template literal but placed in a quoted attribute, where it reads back exactly
  when there was nothing to escape and it holds neither a quote nor a character reference (`AttributeReadsBackIff`).
- Carriage returns do not survive a template literal; `RoundTrip` says exactly what is read back.
- `simpleDeepClone` minds three names among own keys. With a truthy `constructor` that is not named Object an object
  is taken for a class instance and returned as it is, so writes to the clone reach the original
  (`ConstructorKeyIsShared`, `WriteReachesTheOriginal`). With `hasOwnProperty` it throws, as for an object without a
  prototype that has a key (`HasOwnPropertyKeyThrows`). With `__proto__` the key is lost and its value becomes the
  prototype (`ProtoKeyIsLost`). The contract of `SimpleDeepClone` says exactly when it throws, when it shares, what the
  result looks like, and when it is a true clone.
- `omit`, compiled for ES2017, loses an own key `__proto__` too.
- On local storage the traversal guard leaves one way out of the upload directory: `/..\..` is sanitized to `/..`, the
  directory above (`BackslashLeavesDots`). `ContainedIff` says that no other place outside is ever named.

## Assumptions

They are stated as hypotheses of the lemmas that need them, or as parameters of the model.

- md5 gives 32 characters without `.` and `/`, and does not collide on the parameter texts of the requests at hand.
- A number's text (ECMA-262, Number::toString) is not empty, holds no underscore and does not end in `g`, `p` or `f`;
  different numbers of two requests print differently. What text parses to which number is a parameter; +0 and -0 are one.
- sharp is a deterministic function of the source and the operations put on its pipeline, which may fail. Resizing to no
  size ignores the fit. A quality that is not a whole number from 1 to 100 is refused. Of its fits, a cut fills the frame
  exactly, and `inside` scales by the smaller ratio.
- Sources do not change from outside during a run. They lie outside `cache/`, and on S3 under keys without a leading
  slash, as uploads do. Request paths begin with a slash or cannot be decoded. One storage operation is one step.
- Character references in attributes, as in HTML, hold no backslash and stand for fewer units than they are written
  with; which ones there are is a parameter.
- Strategies are deterministic functions of the request and the parameters, which may throw. The theorems about the
  cache ask that they keep parameters tidy; the preset-only strategy is proved to.
- Percent-decoding gives an arbitrary text or fails. Path functions are the POSIX versions.
- Arithmetic is over exact rationals: IEEE rounding is not modelled, neither in the crop nor in the profilers' sums.

## Model

| member | source | states |
|---|---|---|
| Sanitizer.UniqueNormalForm | packages/asset-server-plugin/src/asset-server.ts:288-292 | deleting `../` and `..\` one at a time in any order keeps the one-pass reduced form, ends in it exactly when nothing is left to delete, and takes at most as many steps as there are characters |
| Sanitizer.ReducedIff | packages/asset-server-plugin/src/asset-server.ts:288-292 | the reduced form holds neither pattern, and a path holds neither exactly when it is its own reduced form |
| Sanitizer.PassStableIff | packages/asset-server-plugin/src/asset-server.ts:289-292 | a global replace changes nothing exactly when there is nothing to delete, and shortens the path otherwise, so the loop ends |
| Sanitizer.PassKeepsReduction | packages/asset-server-plugin/src/asset-server.ts:291 | a global replace, from any stack of the reducer, leaves the reduced form as it was |
| Sanitizer.StripTraversals | packages/asset-server-plugin/src/asset-server.ts:287-292 | the repeat-until-stable loop computes the one-pass reduced form, which holds neither pattern |
| Sanitizer.SeparatorRewriteStaysFree | packages/asset-server-plugin/src/asset-server.ts:293-297 | rewriting the platform separator afterwards brings no traversal back, on either platform, and leaves no backslash on Windows |
| Sanitizer.SanitizePath | packages/asset-server-plugin/src/asset-server.ts:271-299 | decoding failure gives the empty path, S3 the path as decoded, local storage a path without traversals: the normalized path, where that has none |
| Sanitizer.SanitizedPlace | packages/asset-server-plugin/src/asset-server.ts:286-297 | on local storage a request path is read from where its segments, `.` and `..` resolved from the root, lead in the upload directory, unless the guard finds something to delete in the result |
| Sanitizer.ParentCancels | packages/asset-server-plugin/src/asset-server.ts:286 | a name followed by `..` cancels out, wherever it stands |
| Sanitizer.InnerParentIsResolved | packages/asset-server-plugin/src/asset-server.ts:279-297 | `/a/b/../c.jpg` is served from `a/c.jpg`, on either storage |
| Sanitizer.FreeDescends | packages/asset-server-plugin/src/asset-server.ts:293-297 | a path without a traversal has no `..` among its directory segments |
| Sanitizer.SanitizedDescends | packages/asset-server-plugin/src/asset-server.ts:284-297 | on local storage a sanitized path holds neither pattern, and its directory part never climbs |
| Sanitizer.ContainedIff | packages/asset-server-plugin/src/asset-server.ts:284-297 | what a traversal-free path names lies in the upload directory if and only if the path is not `..` just below its root (or the upload directory is the root); then it is the directory above |
| Sanitizer.SanitizedContainedIff | packages/asset-server-plugin/src/asset-server.ts:271-299 | so it is for every request path on local storage |
| Sanitizer.BackslashLeavesDots | packages/asset-server-plugin/src/asset-server.ts:286-292 | `/..\..` is sanitized to `/..`, which names the directory above the upload directory |
| Sanitizer.RequestPathsAreAbsolute | packages/asset-server-plugin/src/asset-server.ts:271-299 | any request path that begins with a slash still does when sanitized, on either storage, or is empty because it cannot be decoded |
| Paths.NormalizeSegments | packages/asset-server-plugin/src/asset-server.ts:310 | normalizing a path without `..` keeps its named segments, and for relative paths is joining them |
| Paths.ResolveAnywhere | packages/asset-server-plugin/src/config/s3-asset-storage-strategy.ts:315-320 | a path that never climbs above its start resolves alike from any directory, rooted or not |
| Paths.CachePathLocation | packages/asset-server-plugin/src/asset-server.ts:256-262 | the key is `cache/`, the directory of the path seen from the root, and stem, hash and extension; on either backend it lies below the cache directory, and is written where it is read |
| Paths.NameDecodes | packages/asset-server-plugin/src/asset-server.ts:305-311 | from the file name of a key one recovers stem, hash and effective extension, for any dots in the stem and with or without an extension |
| Paths.KeyExtension | packages/asset-server-plugin/src/asset-server.ts:305-311 | the key's own extension is the format where one is set, otherwise that of the path, unless that ends in `..`; its stem is the path's with the hash appended |
| Paths.ExtensionIff | packages/asset-server-plugin/src/asset-server.ts:306-308 | an extension begins at the last dot of the file name; there is none exactly without a dot that has something before it |
| Paths.ComponentIff | packages/asset-server-plugin/src/asset-server.ts:308-309 | a path is taken apart at its last slash |
| Paths.CachePathInjective | packages/asset-server-plugin/src/asset-server.ts:256-265 | two keys are one place if and only if directory, stem, hash and effective extension agree |
| Paths.SamePlaceIff | packages/asset-server-plugin/src/config/local-asset-storage-strategy.ts:84-86 | straight paths with one directory and stem are read from one place if and only if their extensions agree |
| Paths.ReadByComponent | packages/asset-server-plugin/src/config/s3-asset-storage-strategy.ts:315-320 | where a straight path is read from is decided by its directory and its last component, on either backend |
| Paths.TrailingSlashIsElsewhere | packages/asset-server-plugin/src/config/s3-asset-storage-strategy.ts:315-320 | a trailing slash changes where a straight path is read from, on either backend |
| Paths.SecondSlashIsElsewhere | packages/asset-server-plugin/src/config/s3-asset-storage-strategy.ts:315-320 | a second leading slash changes where a path is read from on S3 |
| Paths.KeysGoDeeper | packages/asset-server-plugin/src/config/s3-asset-storage-strategy.ts:315-320 | a path that S3 reads from a key does not climb, and the key made of it lies deeper |
| Paths.TrailingSlashIsDropped | packages/asset-server-plugin/src/asset-server.ts:305-311 | a trailing slash changes neither directory, stem nor extension of the key |
| Parameters.GetValidFormat | packages/asset-server-plugin/src/common.ts:39-53 | a result exactly for the five known formats, and then the input itself |
| Parameters.GetValidBackgroundColor | packages/asset-server-plugin/src/common.ts:60-69 | a color exactly for 3, 4, 6 or 8 hexadecimal digits after an optional `#`, and then in normal form: `#` and lower case |
| Parameters.BackgroundColorNormalForm | packages/asset-server-plugin/src/common.ts:60-69 | the leading `#` does not matter, and a color is unchanged exactly when it is in normal form |
| Parameters.ColorsIgnoreCase | packages/asset-server-plugin/src/common.ts:64-67 | every hexadecimal text of an accepted length is a color, and two texts are one color if and only if they differ in letter case and a leading `#` alone |
| Parameters.ThrowIsFinal | packages/asset-server-plugin/src/asset-server.ts:166-177 | once a strategy has thrown, no later one rescues the request |
| Parameters.StrategiesCompose | packages/asset-server-plugin/src/asset-server.ts:166-172 | of two lists of strategies the second is given what the first returns, unless that throws |
| Parameters.OneStrategy | packages/asset-server-plugin/src/asset-server.ts:168-172 | one strategy is given the parameters as they are and its result is taken; none leaves them alone |
| Parameters.ParametersCompose | packages/asset-server-plugin/src/asset-server.ts:164-197 | any strategy in the list is given what those before it return, those after it what it returns, and presets are resolved last |
| Parameters.LaterStrategiesSeeEarlierOnes | packages/asset-server-plugin/src/asset-server.ts:166-172 | a quality set by one strategy survives a next one that returns its input |
| Parameters.SampleQueryReads | packages/asset-server-plugin/src/asset-server.ts:199-223 | each field of a sample query ends up in the field it belongs to |
| Parameters.SampleQueryPrints | packages/asset-server-plugin/src/asset-server.ts:225-254 | and is printed where it belongs |
| Parameters.OtherDimensionsPrint | packages/asset-server-plugin/src/asset-server.ts:233-236 | so are the other mode, and a side that is not given, which is left empty |
| Parameters.FalsyTextsAreLeftOut | packages/asset-server-plugin/src/asset-server.ts:202-208 | texts that are not given, not numbers or zero leave sizes and coordinates out |
| Parameters.MathRoundIsNearest | packages/asset-server-plugin/src/asset-server.ts:202-203 | rounding gives the nearest whole number, the upper one of two |
| Parameters.QualityIsClamped | packages/asset-server-plugin/src/asset-server.ts:204-205 | a numeric quality becomes the nearest whole number from 1 to 100 |
| Parameters.ColorLengths | packages/asset-server-plugin/src/common.ts:64-67 | hexadecimal digits make a color exactly if there are 3, 4, 6 or 8; any other character makes none |
| Parameters.GetImageTransformParameters | packages/asset-server-plugin/src/asset-server.ts:164-197 | the loop is the strategies in order, the first throw final, then the named preset's size and mode over whatever they left |
| Parameters.PrintParameters | packages/asset-server-plugin/src/asset-server.ts:225-254 | appending piece by piece prints the specified text, empty when nothing is asked for |
| ParameterText.TextReadsBack | packages/asset-server-plugin/src/asset-server.ts:225-254 | given the preset name it begins with, if any, a parser reads every field back from the printed text, although the format is appended without a separator |
| ParameterText.PresetPrefixIff | packages/asset-server-plugin/src/asset-server.ts:233-241 | the text tells whether it begins with a preset name |
| ParameterText.PresetNamesCanCollide | packages/asset-server-plugin/src/asset-server.ts:237-240 | where a preset name is printed, one that ends in a format or a quality gives the text of another preset with that format or quality |
| ParameterText.PiecesOfText | packages/asset-server-plugin/src/asset-server.ts:228-254 | splitting the text of a record that prints no preset name at underscores gives the pieces it was printed from |
| ParameterText.PiecesReadBack | packages/asset-server-plugin/src/asset-server.ts:228-254 | the fields of such a record are read back from the pieces |
| TransformImage.ApplyFormat | packages/asset-server-plugin/src/transform-image.ts:59-86 | at most one encoding operation is added: by format, else by the detected input format when a quality is set, none when sharp refuses the quality |
| TransformImage.TransformOps | packages/asset-server-plugin/src/transform-image.ts:14-57 | the operations put on the pipeline, failing only when the focal crop cannot read the metadata |
| TransformImage.ModeDecidesSize | packages/asset-server-plugin/src/transform-image.ts:18-56 | a crop request with two sizes and no focal point gives exactly that size, any other one an image that is not cut, exceeds neither side and meets one |
| TransformImage.FittedSizes | packages/asset-server-plugin/src/transform-image.ts:19-24 | what the two fits mean: filling a frame gives its size, lying in it keeps the aspect ratio and exceeds neither side |
| TransformImage.EntropyIff | packages/asset-server-plugin/src/transform-image.ts:18-56 | the pipeline ends in a cut by entropy exactly for a crop without a usable focal point |
| TransformImage.PipelineShape | packages/asset-server-plugin/src/transform-image.ts:26-56 | rotate first, then flatten, encode, and last resize, or resize and extract |
| TransformImage.EncoderByFormat | packages/asset-server-plugin/src/transform-image.ts:64-82 | the encoder of each format name, and of the detected `jpeg` and `webp` |
| TransformImage.RefusedQuality | packages/asset-server-plugin/src/transform-image.ts:33-37 | a quality that sharp refuses leaves the encoding alone |
| TransformImage.PixelPointSamples | packages/asset-server-plugin/src/transform-image.ts:41-42 | focal coordinates count from the left and from the top |
| TransformImage.SameTextSamePrintedIff | packages/asset-server-plugin/src/transform-image.ts:18-56 | records with the same text agree on all the text is made of if and only if they do not print the names of two different presets; so they do with one focal coordinate only, a mode without a size, unknown formats |
| TransformImage.ParamStringDeterminesImageIff | packages/asset-server-plugin/src/asset-server.ts:225-254 | the text, unless it comes about from two preset names, determines the image, for every source and library, if and only if what it leaves out agrees: falsy sides, the fit of an unsized resize, a falsy quality for encoders that take one |
| TransformImage.ImagesFollowIff | packages/asset-server-plugin/src/transform-image.ts:14-57 | one record's images follow another's for every library if and only if its pipelines do |
| TransformImage.TidyRecordsAgree | packages/asset-server-plugin/src/asset-server.ts:225-254 | records with sized presets and a numeric quality leave nothing out that matters |
| TransformImage.RequestedCropFramesIff | packages/asset-server-plugin/src/transform-image.ts:38-52 | for focal coordinates in [0, 1] the operations of a request frame the focal point if and only if the shifted axis has the slack or the other coordinate lies in the first target's worth of pixels |
| FocalPoint.GetIntermediateDimensions | packages/asset-server-plugin/src/transform-image.ts:123-144 | both branches give the original divided by the smaller ratio, both sides rounded |
| FocalPoint.GetExtractionRegion | packages/asset-server-plugin/src/transform-image.ts:149-170 | the longer axis of the intermediate image is offset, the other stays at 0 |
| FocalPoint.ResizeToFocalPoint | packages/asset-server-plugin/src/transform-image.ts:110-118 | the crop is the composition of the two, the one the following laws are about |
| FocalPoint.MinimalCover | packages/asset-server-plugin/src/transform-image.ts:123-144 | the intermediate image covers the target, meets it on one axis, and is within half a pixel of the exact aspect-preserving size |
| FocalPoint.RegionInside | packages/asset-server-plugin/src/transform-image.ts:149-170 | the region has exactly the target size and lies in the intermediate image, wherever the focal point is |
| FocalPoint.OffsetIsOptimal | packages/asset-server-plugin/src/transform-image.ts:155-177 | no whole-number offset that fits brings the window's centre nearer to the wanted centre |
| FocalPoint.CropIsOptimal | packages/asset-server-plugin/src/transform-image.ts:149-170 | on the shifted axis no other crop of that size has its centre nearer to the scaled focal point |
| FocalPoint.FocalPointInFrameIff | packages/asset-server-plugin/src/transform-image.ts:155-168 | the scaled focal point is in frame to within half a pixel if and only if the shifted axis is the one with slack, or its other coordinate lies in the first target's worth of pixels |
| FocalPoint.SquareTargetsKeepFocalPoint | packages/asset-server-plugin/src/transform-image.ts:164-168 | for square targets the shifted axis is the one with slack, so the focal point is always in frame |
| FocalPoint.OrientationCanLoseFocalPoint | packages/asset-server-plugin/src/transform-image.ts:164 | cropping 1000x900 to 900x300 ignores the vertical focal coordinate and loses the focal point, which the region at the bottom would hold |
| Presets.ConfigurePresets | packages/asset-server-plugin/src/plugin.ts:256-266 | splicing and pushing in a loop is merging the user's presets one by one |
| Presets.LookupIsFirst | packages/asset-server-plugin/src/asset-server.ts:184 | lookup by name gives the first preset of that name, none when there is no such index |
| Presets.MergeLaws | packages/asset-server-plugin/src/plugin.ts:256-266 | names stay unique, default positions are kept, the names are exactly the union, and lookup gives the last user definition or else the default |
| Presets.DefaultPresetsAreUsable | packages/asset-server-plugin/src/plugin.ts:199-205 | the default presets have unique names and sizes the key can rely on |
| Presets.DefaultPresetSizes | packages/asset-server-plugin/src/plugin.ts:199-205 | the five default presets, by name |
| Presets.PresetOnlyFilters | packages/asset-server-plugin/src/config/preset-only-strategy.ts:105-146 | the strategy throws exactly for an unknown preset, and lets through exactly what is given and permitted |
| Presets.QualityIsUsable | packages/asset-server-plugin/src/asset-server.ts:204-205 | the clamped quality is printed and is accepted by sharp exactly when its text is a number |
| Presets.RequestsAreTidy | packages/asset-server-plugin/src/asset-server.ts:164-223 | given a numeric quality, sized presets and strategies that keep records tidy, every request that is not refused gives a record the key can rely on |
| Presets.PresetOnlyPermitsPresetsOnly | packages/asset-server-plugin/src/config/preset-only-strategy.ts:105-129 | with this strategy last, no transform has any other size or mode than those of a configured preset |
| Presets.PresetOnlyKeepsTidy | packages/asset-server-plugin/src/config/preset-only-strategy.ts:105-129 | the strategy keeps records tidy when presets have sizes |
| Presets.PresetEquivalenceIff | packages/asset-server-plugin/src/plugin.ts:126-132 | without strategies, naming a preset makes every image as giving its width, height and mode does, whatever other size and mode it carries, if and only if both sides are whole; then the parameter text is the same |
| Presets.PresetNameIsPrintedIff | packages/asset-server-plugin/src/asset-server.ts:233-240 | a preset name is printed if and only if both sides of the preset are falsy |
| CacheProtocol.GetFileNameFromParameters | packages/asset-server-plugin/src/asset-server.ts:225-266 | the key method computes the key the protocol is stated with |
| CacheProtocol.KeyPlacement | packages/asset-server-plugin/src/asset-server.ts:256-265 | a transform is written where its key is read, in the cache directory; the key of a plain file is the file |
| CacheProtocol.FilePlacement | packages/asset-server-plugin/src/config/s3-asset-storage-strategy.ts:253-276 | a plain file would be written in place on local storage; on S3 under its path as it stands, which is neither an upload's key nor in the cache directory |
| CacheProtocol.CacheQueryDecides | packages/asset-server-plugin/src/asset-server.ts:140-143 | with no `cache` query, an empty one or `true` the image is written under the key; with any other storage stays as it was |
| CacheProtocol.ForbiddenNeverWrites | packages/asset-server-plugin/src/asset-server.ts:122-162 | no step of a request that forbids caching changes any store |
| CacheProtocol.ForbiddenRunsKeepTheStore | packages/asset-server-plugin/src/asset-server.ts:88-162 | no run of such requests changes storage, whatever fails |
| CacheProtocol.AdvanceKeepsInvariant | packages/asset-server-plugin/src/asset-server.ts:88-162 | every step, on any store the others leave and whether or not it fails, keeps: stored files are uploads or images their requests wrote, and what a handler holds fits its request |
| CacheProtocol.RunKeepsInvariant | packages/asset-server-plugin/src/asset-server.ts:88-162 | the invariant holds after every interleaving |
| CacheProtocol.CacheIsTransparent | packages/asset-server-plugin/src/asset-server.ts:88-162 | for coherent requests all answers are the uncached ones, or an error where storage failed that request, and a file under a key is the uncached answer to every request with that key |
| CacheProtocol.ReencodedRun | packages/asset-server-plugin/src/asset-server.ts:98-113 | when the first read of a plain file fails, a run answers with its re-encoding |
| CacheProtocol.WrongHitRun | packages/asset-server-plugin/src/asset-server.ts:98-153 | a run in which a request is answered wrongly from the cache |
| CacheProtocol.WrongSourceRun | packages/asset-server-plugin/src/asset-server.ts:124-141 | a run in which a request without a source misses and then finds as its source what another wrote meanwhile |
| CacheProtocol.TransparentIffCoherent | packages/asset-server-plugin/src/asset-server.ts:88-162 | all runs, with working or with failing reads, are transparent if and only if what a request writes is the answer of every request that finds it under its key, no other request finds it as its source, and, where reads may fail, re-encoding keeps plain files |
| StorageSafety.AdvanceIsKnown | packages/asset-server-plugin/src/asset-server.ts:88-162 | every step keeps: outside the cache directory nothing changes, and what is stored there comes from uploads by transforms |
| StorageSafety.StrayRun | packages/asset-server-plugin/src/asset-server.ts:98-143 | the run in which a plain file, found although it was missed before, is written outside the cache directory or over an upload |
| StorageSafety.OutsideIntactIff | packages/asset-server-plugin/src/asset-server.ts:88-162 | no run writes outside the cache directory or over an upload if and only if no request for a plain file strays, whatever is requested and whether or not reads fail |
| StorageSafety.StraysLocallyIff | packages/asset-server-plugin/src/asset-server.ts:98-143 | on local storage a plain file strays if and only if its first read may fail, it may be cached, and re-encoding changes it |
| StorageSafety.UploadStraysOnS3Iff | packages/asset-server-plugin/src/config/s3-asset-storage-strategy.ts:253-276 | on S3 an upload strays if and only if its first read may fail, it may be cached, and it renders |
| StorageSafety.CachedFileStraysOnS3 | packages/asset-server-plugin/src/config/s3-asset-storage-strategy.ts:253-276 | on S3 a cached file asked for by its path strays even while reads work, if it renders |
| StorageSafety.NeverStraysOnS3Iff | packages/asset-server-plugin/src/config/s3-asset-storage-strategy.ts:253-276 | whatever is stored and whatever the library, no plain file strays on S3 while reads work if and only if none that may be cached is read from the key of a transform that may be cached |
| StorageSafety.PlainFilesAreServed | packages/asset-server-plugin/src/asset-server.ts:98-141 | while reads work and nothing strays, a plain file outside the cache directory is answered as it is or with 404, never from a transform, coherent or not |
| StorageSafety.OverwritingRun | packages/asset-server-plugin/src/asset-server.ts:98-143 | the run in which a failed first read ends with the upload overwritten |
| StorageSafety.UploadsSurviveOnS3 | packages/asset-server-plugin/src/config/s3-asset-storage-strategy.ts:253-276 | no run overwrites an upload on S3, reads failing or not |
| StorageSafety.UploadsSurviveIff | packages/asset-server-plugin/src/asset-server.ts:88-162 | uploads survive every run if and only if there is no plain file on local storage whose first read may fail, that may be cached, and that re-encoding changes |
| CacheHypotheses.AlwaysCoherentIff | packages/asset-server-plugin/src/asset-server.ts:225-266 | two requests are coherent for every store and image library if and only if the first one's key is not the second's source and, where it is its key, both read one source alike |
| CacheHypotheses.SharedKeyIff | packages/asset-server-plugin/src/asset-server.ts:225-266 | two regular transforms share a key if and only if directory, stem and parameter text agree, and the extension too unless a format is set |
| CacheHypotheses.FaithfulIffAgree | packages/asset-server-plugin/src/asset-server.ts:225-266 | for regular transforms the key is faithful if and only if those that share it agree on the extension and on what is not printed |
| CacheHypotheses.RegularCoherentIff | packages/asset-server-plugin/src/asset-server.ts:225-266 | regular transforms are coherent for every store and library if and only if they agree on what their key drops |
| CacheHypotheses.TrailingSlashBreaks | packages/asset-server-plugin/src/asset-server.ts:305-311 | a trailing slash always breaks coherence with the path without it |
| CacheHypotheses.SecondSlashBreaks | packages/asset-server-plugin/src/asset-server.ts:279-283 | on S3 a second leading slash always breaks coherence |
| CacheHypotheses.ClimbingBreaks | packages/asset-server-plugin/src/asset-server.ts:279-283 | on S3 a path that climbs above the root always breaks coherence with one that has its key |
| CacheHypotheses.CachedPathBreaks | packages/asset-server-plugin/src/asset-server.ts:263-265 | a request for the cached file of a transform always breaks coherence with it |
| CacheHypotheses.BadQualityBreaksIff | packages/asset-server-plugin/src/asset-server.ts:229 | a quality that is not a number breaks coherence if and only if the format's encoder is given the quality |
| CacheHypotheses.UnsizedSideBreaks | packages/asset-server-plugin/src/asset-server.ts:233-236 | a side that is zero or not a number always breaks coherence with a request that does not give it |
| CacheHypotheses.HypothesesGiveCoherence | packages/asset-server-plugin/src/asset-server.ts:88-162 | the checkable hypotheses make requests coherent; with failing reads it takes that re-encoding keeps plain files |
| CacheHypotheses.CachingServerIsTransparent | packages/asset-server-plugin/src/asset-server.ts:88-162 | under the hypotheses every run answers as a server without a cache would, or with an error where storage failed the request, and every file under a key is the answer to all requests with that key |
| CacheHypotheses.AlwaysTransparentIff | packages/asset-server-plugin/src/asset-server.ts:88-162 | any requests are served transparently in every run with working reads, whatever is stored and whatever the library, if and only if the key of each transform that may be cached is faithful to every request |
| CacheHypotheses.BrokenPairSpoilsRuns | packages/asset-server-plugin/src/asset-server.ts:88-162 | a pair that breaks coherence spoils some run of any requests with it |
| CacheHypotheses.RegularTransparentIff | packages/asset-server-plugin/src/asset-server.ts:88-162 | for regular requests outside the cache directory it takes exactly that those that share a key with one that may be cached agree on what the key drops |
| CacheHypotheses.RequestIsRegular | packages/asset-server-plugin/src/asset-server.ts:164-223 | what a caller can check for a request to be as the key expects it |
| CacheHypotheses.TidyRequestsAgree | packages/asset-server-plugin/src/asset-server.ts:164-223 | such requests agree on their key as soon as their extensions do |
| CacheHypotheses.PresetHasOneKey | packages/asset-server-plugin/src/plugin.ts:126-132 | naming a preset with whole sides and spelling it out have one key and one answer |
| AssetServing.AssetServer.constructor | packages/asset-server-plugin/src/asset-server.ts:74-83 | a server starts with a store that holds only sources |
| AssetServing.AssetServer.SendAsset | packages/asset-server-plugin/src/asset-server.ts:88-115 | the first handler is the machine's first step: 400 on a throwing strategy, the stored file on a hit, on to the second handler on a miss or any failure, with storage untouched |
| AssetServing.AssetServer.GenerateTransformedImage | packages/asset-server-plugin/src/asset-server.ts:122-162 | the second handler is the machine's remaining steps: 404, 500, or the image, written when caching is allowed, each of them able to fail |
| AssetServing.AssetServer.Serve | packages/asset-server-plugin/src/asset-server.ts:81 | serving one more request keeps the store coherent with all requests served, and answers as without a cache, or with an error where something failed |
| AssetServing.ServedFits | packages/asset-server-plugin/src/asset-server.ts:88-162 | both handlers in turn finish, and refine the uncached answer on any store earlier requests have left |
| AssetServing.ServedOutcome | packages/asset-server-plugin/src/asset-server.ts:88-115 | when reading works: 400 for a throwing strategy, the stored file on a hit, else the second handler |
| AssetServing.FailedFirstRead | packages/asset-server-plugin/src/asset-server.ts:99-113 | when the first read fails a hit goes the way of a miss |
| AssetServing.AfterMissCases | packages/asset-server-plugin/src/asset-server.ts:122-162 | the second handler case by case, failures included: 404, 500 or the image, and what is stored |
| AssetServing.MissedOutcome | packages/asset-server-plugin/src/asset-server.ts:122-162 | when everything works: 404 without a source, 500 if it does not render, else the image, stored as the `cache` query says |
| AssetServing.StoreAfterMiss | packages/asset-server-plugin/src/asset-server.ts:139-143 | whatever fails, storage changes only where the query allows it, and then holds what is answered |
| CacheCounterexamples.TwoExtensionsShareAKey | packages/asset-server-plugin/src/asset-server.ts:307 | without one extension per stem a run is not transparent, whether or not the second path has a source |
| CacheCounterexamples.TrailingSlashSharesAKey | packages/asset-server-plugin/src/asset-server.ts:305-311 | with a trailing slash a request that is 404 on its own is not answered so in every run |
| CacheCounterexamples.BadQualitySharesAKey | packages/asset-server-plugin/src/asset-server.ts:229 | a quality that is not a number is dropped from the key but not from the transform |
| CacheCounterexamples.UnsizedPresetSharesAKey | packages/asset-server-plugin/src/asset-server.ts:233-236 | a preset of width 0 shares the key of a request without a width, whose answer differs |
| CacheCounterexamples.CachePathSeesTheCache | packages/asset-server-plugin/src/asset-server.ts:263-265 | a path below `cache/` is 404 on its own, but not in every run with the request that caches there |
| CacheCounterexamples.FailedReadOverwritesAnUpload | packages/asset-server-plugin/src/asset-server.ts:98-143 | `GET /a.jpg` with a failing first read changes the file |
| TemplateLiteral.EscapeIsOnePass | scripts/docs/generate-graphql-docs.ts:146-170 | the chain of replaces is one pass that decides per code unit, no later replace touching an earlier one's output |
| TemplateLiteral.ScanOfPrinted | scripts/docs/generate-graphql-docs.ts:165-170 | scanning the one-pass text stops exactly at the closing backtick, with no substitution |
| TemplateLiteral.RoundTrip | scripts/docs/generate-graphql-docs.ts:346-370 | scanning the escaped text stops at the closing backtick and cooks back to the string with its line breaks normalized; to the string itself if and only if it holds no carriage return |
| TemplateLiteral.EscapedIsAscii | scripts/docs/generate-graphql-docs.ts:146-170 | the escaped text is ASCII |
| TemplateLiteral.EscapedSamples | scripts/docs/generate-graphql-docs.ts:146-170 | backslash, backtick, dollar before a brace and U+00E9, each as the printer writes it |
| TemplateLiteral.PlainUnitsStay | scripts/docs/generate-graphql-docs.ts:165-170 | nothing else is escaped |
| TemplateLiteral.UpperCaseDigits | scripts/docs/generate-graphql-docs.ts:150 | hexadecimal digits are printed in upper case |
| TemplateLiteral.AttributeReadsBackIff | scripts/docs/generate-graphql-docs.ts:362-365 | a reason in the quoted attribute reads back if and only if nothing in it was escaped and it holds neither a quote nor a character reference |
| CallTree.BuildParentMap | scripts/bootstrap-bench/nc-analyze-calltree.js:33-37 | the nested loops build the parent map, later nodes winning |
| CallTree.ParentMapIff | scripts/bootstrap-bench/nc-analyze-calltree.js:34-37 | a node's parent is the last node that lists it as a child; without one it has none |
| CallTree.AncestryIsReachability | scripts/bootstrap-bench/nc-analyze-calltree.js:57-64 | the ancestor walk ends and visits exactly what the parent map reaches, even on cyclic maps |
| CallTree.Propagate | scripts/bootstrap-bench/nc-analyze-calltree.js:57-64 | a sample's time is added exactly once to every id on its chain and to no other |
| CallTree.Analyze | scripts/bootstrap-bench/nc-analyze-calltree.js:39-65 | the maps hold each node's in-window self and inclusive time, and the total the sampled time |
| CallTree.SampleCountsIff | scripts/bootstrap-bench/nc-analyze-calltree.js:45-52 | a sample counts exactly when start time, the deltas before its own and half of its own add up to a time in the window |
| CallTree.SampleAdds | scripts/bootstrap-bench/nc-analyze-calltree.js:48-64 | a sample that counts adds its delta to the sampled time, its leaf's self time and its ancestors' inclusive times, and to nothing else |
| CallTree.SampleCountsFromStart | scripts/bootstrap-bench/nc-analyze-calltree.js:30-31 | with bounds given in milliseconds, a sample counts exactly when its middle, measured from the start of the profile, lies between them |
| CallTree.ShiftChangesNothing | scripts/bootstrap-bench/nc-analyze-calltree.js:45-52 | moving profile and window by the same time changes no result |
| CallTree.InclusiveIsSelfPlusChildren | scripts/bootstrap-bench/nc-analyze-calltree.js:48-65 | a node's inclusive time is its self time plus its children's inclusive times |
| CallTree.SelfTimesSumToSampled | scripts/bootstrap-bench/nc-analyze-calltree.js:48-56 | self times add up to the sampled time |
| CallTree.SelfTimesOfIds | scripts/bootstrap-bench/nc-analyze-calltree.js:119-124 | self times over a set of ids are the time of the samples whose leaf is in it |
| CallTree.RootHasAllTime | scripts/bootstrap-bench/nc-analyze-calltree.js:57-64 | a root on every sampled chain has the whole sampled time |
| CallTree.RollUp | scripts/bootstrap-bench/nc-analyze-calltree.js:113-118 | summing by label gives each label the times of exactly its known ids |
| CallTree.RollUpConserves | scripts/bootstrap-bench/nc-analyze-calltree.js:165-171 | when all ids are known, the rolled-up sums add up to all the time there is |
| CallTree.LastNodeNames | scripts/bootstrap-bench/nc-analyze-calltree.js:33 | a known id has the caption and category of the last node with that id |
| CallTree.LabelTimeCountsOccurrences | scripts/bootstrap-bench/nc-analyze-calltree.js:110-128 | a label's inclusive time counts every sample as often as its chain holds the label |
| CallTree.LabelTimeIsUpperBound | scripts/bootstrap-bench/nc-analyze-calltree.js:125-128 | for non-negative deltas it is at least the time of the samples whose chain holds the label, with equality if and only if no sample that took time holds it twice |
| CallTree.Report | scripts/bootstrap-bench/nc-analyze-calltree.js:39-171 | the whole analysis: label sums as above, and category totals that add up to the sampled time when all leaves are known |
| RequireTimes.StepBalances | scripts/bootstrap-bench/require-times.js:22-42 | every begin and end of a call keeps the sum invariant |
| RequireTimes.SelfTimesTelescope | scripts/bootstrap-bench/require-times.js:22-42 | at every point of every nested trace the recorded self times are the elapsed time of completed top-level calls plus the accumulators on the stack, and the counts add up to the number of modules |
| RequireTimes.FreshHookReports | scripts/bootstrap-bench/require-times.js:44-47 | from a fresh hook on, the reported total is the elapsed time of the top-level calls, the number of modules the number of calls, and each group has its exclusive time |
| RequireTimes.SelfTimesAreNonNegative | scripts/bootstrap-bench/require-times.js:30-36 | with a monotone clock every single self time of a trace is non-negative, and so is every group |
| RequireTimes.SelfTimesAreRecorded | scripts/bootstrap-bench/require-times.js:30-39 | a trace records one self time for each module it counts, and the groups share out exactly these |
| RequireTimes.CallEffect | scripts/bootstrap-bench/require-times.js:22-42 | a call, throwing or not, leaves the stack as it was but for its elapsed time, and gives every group its exclusive time and count in the call tree |
| RequireTimes.Hook.constructor | scripts/bootstrap-bench/require-times.js:8-10 | the hook starts with an empty stack and no groups |
| RequireTimes.Hook.Enter | scripts/bootstrap-bench/require-times.js:24-25 | the beginning of a call as a step of the trace |
| RequireTimes.Hook.Leave | scripts/bootstrap-bench/require-times.js:29-40 | the `finally` block as a step of the trace |
| RequireTimes.Hook.Compile | scripts/bootstrap-bench/require-times.js:22-42 | the wrapped compile, with its nested calls, does what the trace of the call tree does |
| DeepClone.SimpleDeepClone | packages/common/src/simple-deep-clone.ts:7-34 | for all acyclic values: it throws exactly when a cloned object cannot be asked for its keys; the clone looks as specified; it shares a container with the original exactly when one is taken for a class instance; it is a true clone exactly when none of the three names stands in the way |
| DeepClone.TrueCloneIff | packages/common/src/simple-deep-clone.ts:7-34 | a clone has only new containers and looks like the original if and only if nothing is shared and no key lost |
| DeepClone.LooksAlikeIff | packages/common/src/simple-deep-clone.ts:26-33 | the clone looks like the original if and only if no cloned object has an own key `__proto__` |
| DeepClone.PlainlyKeyedIff | packages/common/src/simple-deep-clone.ts:23-33 | the condition for a true clone, on own keys alone |
| DeepClone.ConstructorKeyIsShared | packages/common/src/simple-deep-clone.ts:23-25 | an object with an own key `constructor` is returned as it is |
| DeepClone.FalsyConstructorKeyIsCloned | packages/common/src/shared-utils.ts:26-30 | a falsy `constructor`, or one that is named Object, does not make an object a class instance |
| DeepClone.HasOwnPropertyKeyThrows | packages/common/src/simple-deep-clone.ts:29 | cloning an object with an own key `hasOwnProperty` throws |
| DeepClone.ProtoKeyIsLost | packages/common/src/simple-deep-clone.ts:30 | an own key `__proto__` is lost and its value becomes the prototype |
| DeepClone.PlainProtoKeyIsLost | packages/common/src/simple-deep-clone.ts:30 | `null` under `__proto__` leaves the clone without a prototype, any other value that is no object is ignored |
| DeepClone.IsClassInstance | packages/common/src/shared-utils.ts:26-30 | an object is taken for a class instance exactly if its own `constructor` is truthy and not named Object |
| DeepClone.CloneInto | packages/common/src/simple-deep-clone.ts:16-33 | the filling loop: keys and values of the new container are clones of the source's, in order, but for `__proto__`; it fails exactly when cloning an element throws |
| DeepClone.Assign | packages/common/src/simple-deep-clone.ts:30 | assigning a new key adds it, except for `__proto__`, which sets the prototype to an object or null |
| DeepClone.StayApart | packages/common/src/simple-deep-clone.ts:3-6 | a value stays as it was under any change of the heap that leaves its containers alone |
| DeepClone.CloneThenWriteOriginal | packages/common/src/simple-deep-clone.ts:3-6 | after any writes to the original, a clone that shares nothing still is what was made of the original |
| DeepClone.WriteReachesTheOriginal | packages/common/src/simple-deep-clone.ts:23-25 | a write to the clone of an object with an own key `constructor` is a write to the original |
| DeepClone.WriteClone | packages/common/src/simple-deep-clone.ts:3-6 | after any writes to the new containers of a clone the original still is what it was |
| Omit.OmitRemoves | packages/common/src/omit.ts:14-32 | no omitted key remains at any depth, and a tree is unchanged exactly when it held none, nor a `__proto__` |
| Omit.PathsAfterOmit | packages/common/src/omit.ts:19-31 | every path that avoids the keys and `__proto__` leads to the same value with the keys omitted, every other path leads nowhere |
| Omit.OmitFuses | packages/common/src/omit.ts:14-32 | omitting twice is omitting the union |
| Omit.OmitCommutes | packages/common/src/omit.ts:14-32 | the order of omissions does not matter and repeating one changes nothing |

## Left out

- CallTree.InclusiveIsSelfPlusChildren: stated for nodes that are not on a cycle of the parent map; on a cycle a chain may hold several children of one node, so the equation does not apply.
- CallTree.RollUp: takes the ids in any order, where the source takes insertion order; over exact rationals the sums are the same.
- TransformImage.TransformOps: a focal crop with an infinite size or coordinate is one opaque operation of those numbers, because the crop arithmetic is over finite rationals.
- Response headers: content types, cache control and content security are single branches over foreign lookups.
- Windows path functions: only the separator rewrite is modelled for Windows; directories and file names are taken apart as on POSIX.
- Legacy backslash keys on S3: the fallback read for objects written by older versions.
- Repeated query keys: a query value is one text or absent, as the declared parameter type says, not a list.
- Storage that changes from outside: uploads and deletions during a run, reads of files that are being written, and writes that fail half way.
- ParameterText.TextReadsBack: is given the preset name the text begins with; from the text alone it cannot be told, since names can collide.
- An empty body from S3, which the original turns into an empty file.
- Other transform strategies: arbitrary ones are covered only as far as they keep records tidy; their `init` and `destroy` are not modelled.
- Color comparison in the preset-only strategy: whether a color is on the permitted list is a parameter.
- Labels, categories and groups: how a call frame or file name is mapped to its label, category or package is a parameter.
- Profiler reports: sorting, top-n selection, percentages, sample counts and call paths.
- The rest of the docs generator: SDL rendering, links, comment stripping, other component props and what a renderer does to white space in attributes.
- Deep clones of cyclic values, on which the original does not return, of sparse arrays, and of values with functions, accessors or read-only properties in them.
- Class instances with an own key `constructor`, and classes named Object.
- Omitting without recursion, and prototypes of the objects that `omit` rebuilds, `__proto__` included: own keys of the recursive mode are modelled.
- Everything else in the repository: the admin and dashboard applications, the core services, the CLI and code generation.
