# image-lint-staged: a Dafny model of the minifier core

image-lint-staged minifies images as they are staged in git. This project models the code that decides what happens to each image. It does not model the codecs that do the compression.

- **The encode worker** (`lib/imageMinify.worker.ts`). It runs on a pool thread and answers for one input with one of three results: success with new bytes, skip, or error with a message.
  - An SVG goes through svgo, using the configured `svg` options.
  - A raster image whose EXIF `ImageDescription` is the `__MINIFIED__` marker is skipped.
  - Any other raster image is re-encoded by sharp to its own format, with the marker written into the output.
  - Every fault becomes an error result.
- **The orchestrator** (`lib/index.ts`).
  - `imageMinify` turns the worker's answer into a buffer, `undefined` or a rejection.
  - The default export reads the original and applies its guards in a fixed order: no buffer, rejection, "larger than the original", "saved less than `skipDelta`".
  - Only when every guard passes does it overwrite the file at the input path, and only for a path input.
- **The savings record** (`lib/getSavings.ts`): byte counts, their difference, and their pretty-printed forms.
- **The legacy imagemin pipeline** (`lib/index.mjs`). It has:
  - a lower-cased extension whitelist;
  - plugin loading from the object-valued configuration entries;
  - an unconditional overwrite;
  - the `$silentErrors` policy: return `null`, or exit with status 1.
- **The two built-in configurations** (`lib/default-conf.ts`, `lib/default-conf.mjs`).

## How the model is built

- **JavaScript values.** Configuration objects and plugin modules are `JsValues.Value` terms. Objects are ordered property lists, so `Object.entries` order is the order in which the keys were written. The model covers truthiness, `typeof … === 'object'`, property lookup and `Symbol.toStringTag`.
- **Foreign libraries** are function-valued fields of records passed in as parameters:
  - sharp, exif-reader, svgo and UTF-8 conversion are in `EncodeWorker.Codecs`;
  - `import()` and calling a constructor are in `LegacyPipeline.Loader`;
  - imagemin and `prettyBytes` are plain function parameters.
- **Exceptions** are `Thrown` values: `Ok(value)` or `Throws(message)`.
- **The file system** is `FileSystem.Files`, a class with a `map<string, seq<byte>>` field. `readFile` of a missing path throws ENOENT. `writeFile` creates or overwrites one path.
- **State-changing code is proved against a pure function.** Each method `ensures` that its result and the new file map equal that function applied to the old map. The properties are then proved about the function:
  - `Orchestrator.MinifyImage` against `Orchestrator.DefaultExport`;
  - `LegacyPipeline.MinifyFile` against `LegacyPipeline.MinifyFileRun`;
  - `LegacyPipeline.MapPlugin` against `LegacyPipeline.LoadedPlugins`.

Where the code and its specification disagree, the model follows the code:

- `lib/index.ts` never reads `silentErrors`. A worker error or a failed read is always rethrown, wrapped as `[image-lint-staged] - <path or buffer>\n🔴 <message>`. The return-`null`-or-exit policy exists only in the legacy `lib/index.mjs`, under the key `$silentErrors`.
- The default export of `lib/index.ts` resolves to nothing. It does not return the savings.
- The pool's thread count is `cpus().length - 1`, with no minimum of one. Thread counts are not modelled at all (see below).
- When `pool.run` itself fails, `imageMinify` returns `undefined`. The default export then treats the input as already minified rather than failing.

## Model

| member | source | states |
|---|---|---|
| JsValues.LookupFindsFirst | lib/imageMinify.worker.ts:60 | Property access `configs[format]` yields the value of the first entry with that key |
| JsValues.LookupAbsent | lib/imageMinify.worker.ts:60 | A key that no entry carries reads as `undefined` |
| JsValues.NamedPropsAllNamed | lib/index.mjs:50 | For a string-keyed object, `Object.entries` lists every property, in order |
| FileSystem.ReadResult | lib/index.ts:46-48 | `readFile` succeeds exactly for a present path, with its contents; otherwise it throws ENOENT naming the path |
| FileSystem.Files.ReadFile | lib/index.ts:47 | Reading returns `ReadResult` of the current files |
| FileSystem.Files.WriteFile | lib/index.ts:90-93 | Writing sets that one path to the data; no other path appears or disappears |
| SavingsCalculator.GetSavings | lib/getSavings.ts:12-22 | The sizes are the buffer lengths; `saved` is their difference, negative exactly when the new buffer is longer; each string is `prettyBytes` of its number |
| SavingsCalculator.SavingsDependOnLengthsOnly | lib/getSavings.ts:13-21 | Buffers of equal lengths give equal savings records |
| DefaultConf.DefaultConfigsFields | lib/default-conf.ts:3-30 | `skipDelta` 500, `silentErrors` false, `showSavings` true, and the svg/jpeg/png/webp/gif option blocks with their values |
| DefaultConf.DefaultsLeaveFormatsUnconfigured | lib/default-conf.ts:6-24 | Under the defaults, `configs[format]` is undefined for avif, heif, tiff, jp2, raw and jxl |
| DefaultConf.DefineImageLintStageConfig | lib/default-conf.ts:33-35 | Returns its argument unchanged |
| LegacyConf.LegacyDefaultsFields | lib/default-conf.mjs:1-29 | `$silentErrors` is true, and each plugin suffix has the option block written for it |
| LegacyConf.LegacyDefaultsEntries | lib/default-conf.mjs:1-29 | `Object.entries` gives `$silentErrors`, gifsicle, mozjpeg, optipng, svgo, webp in that order; only the first value is not an object |
| LegacyConf.SvgoKeepsViewBox | lib/default-conf.mjs:13-25 | The svgo options switch `removeViewBox` off twice: as a plugin entry and as a preset-default override |
| EncodeWorker.Load | lib/imageMinify.worker.ts:17 | sharp works on the buffer itself, or on the file at the path; a missing path throws |
| EncodeWorker.Inspect | lib/imageMinify.worker.ts:17-18 | `metadata()` of the buffer itself or of the file at the path; a missing path throws sharp's message |
| EncodeWorker.InvalidFormat | lib/imageMinify.worker.ts:20-25 | The fixed "[WebWorker] - Invalid image format for " followed by the input: the path itself, or the buffer as text |
| EncodeWorker.SvgText | lib/imageMinify.worker.ts:32-34 | The SVG text is the buffer decoded, or the file read as UTF-8; reading a missing file throws ENOENT |
| EncodeWorker.MarkerPresent | lib/imageMinify.worker.ts:39-47 | With no EXIF block the marker is absent; a block exif-reader decodes answers whether its ImageDescription is exactly `__MINIFIED__` (another description, or none, gives false); a block exif-reader cannot decode throws its message |
| EncodeWorker.Settle | lib/imageMinify.worker.ts:63-75 | A finished encode becomes success carrying its bytes; a thrown one becomes error carrying its message |
| EncodeWorker.Minify | lib/imageMinify.worker.ts:15-77 | Read faults become errors; no format gives the "Invalid image format" error; skip exactly for a marked raster image. Both directions of success: a success is svgo's output on the source text with `configs.svg`, or sharp's re-encode to the detected format with `configs[format]` and the marker; conversely, an SVG whose text is read and optimized succeeds with svgo's output, and an unmarked raster image whose encode returns succeeds with those bytes. A fault in reading the SVG text, in svgo, in exif-reader or in the encode is the error with that message |
| EncodeWorker.NoExifNeverSkipped | lib/imageMinify.worker.ts:39-48 | An input without EXIF data is never skipped |
| EncodeWorker.ReencodedOutputIsSkipped | lib/imageMinify.worker.ts:39-63 | If sharp writes any description it is given so that it reads back, for this input's bytes, format and options (hypothesis `HonoursDescription`), the raster output the worker produced is skipped when it comes back, as a buffer or a path, under any configuration |
| Orchestrator.PoolRun | lib/index.ts:25 | A working pool yields the worker's answer; a failing one throws its message |
| Orchestrator.ImageMinify | lib/index.ts:21-41 | A buffer exactly for a worker success; `undefined` exactly for a skip or a pool failure; a rejection carrying the message exactly for a worker error |
| Orchestrator.Wrap | lib/index.ts:95-99 | The thrown message is the `[image-lint-staged] - ` tag, the path or `buffer`, a new line and the red-circle sign with a space, then the original message unchanged |
| Orchestrator.BelowDelta | lib/index.ts:73 | A threshold that is not a number never skips; a numeric one skips exactly when the saving is below it |
| Orchestrator.Original | lib/index.ts:46-48 | The original is the buffer itself, or the result of reading the path |
| Orchestrator.Finish | lib/index.ts:52-93 | The guards in order: no buffer, rejection, larger, below threshold; acceptance exactly when none fires, reporting `getSavings` of the two buffers; the printed flag is `showSavings`; only an accepted path input is written, with the minified bytes |
| Orchestrator.DefaultExport | lib/index.ts:43-101 | Buffer inputs never write; no other path changes and no path appears; a write is the worker's output, no longer than the original, and saves at least a numeric `skipDelta`; it fails exactly for a failed read or a worker error |
| Orchestrator.MinifyImage | lib/index.ts:43-101 | The report and the new files are those of `DefaultExport` on the old files |
| Orchestrator.ReadOriginal | lib/index.ts:46-48 | Reads the original as `Original` says |
| Orchestrator.ApplyGuards | lib/index.ts:52-93 | The imperative guard chain, with the write last, ends as `Finish` says |
| Orchestrator.ShowSavingsOnlyPrints | lib/index.ts:82-93 | Changing `showSavings` changes neither the files, nor the kind of outcome, nor the savings |
| Orchestrator.SecondRunSkips | lib/index.ts:43-101 | If sharp honours any description it is given for a raster file's bytes, format and options (hypothesis `HonoursDescription`), a run that overwrites the file is followed by a run, with a working pool and any configuration, that skips it and writes nothing |
| Orchestrator.AcceptedPathIsWritten | lib/index.ts:62-93 | A path whose worker output is no larger than the file and meets the threshold is overwritten with that output, reporting its savings and whether they are printed |
| Orchestrator.AcceptedBufferIsSaved | lib/index.ts:62-93 | A buffer input passing the same guards reports its savings and leaves the files unchanged |
| Orchestrator.DefaultsRequire500BytesSaved | lib/index.ts:72-80 | Under `DEFAULT_CONFIGS`, a file is overwritten only by bytes at least 500 shorter |
| LegacyPipeline.TrimTrailingSlashes | lib/index.mjs:16 | A prefix of the path without trailing slashes; only slashes were removed |
| LegacyPipeline.AfterLastSlash | lib/index.mjs:16 | A slash-free suffix of the path, preceded by a slash when shorter than the path |
| LegacyPipeline.Basename | lib/index.mjs:16 | The last portion is the slash-free suffix of the path without its trailing slashes, preceded by a slash when it is not the whole of it |
| LegacyPipeline.LastDot | lib/index.mjs:16 | The index of a dot with no dot after it, or none when the string has no dot |
| LegacyPipeline.ExtOfBase | lib/index.mjs:16 | The extension of a slash-free name: empty exactly when the name has no dot, its only dot comes first, or it is `..`; otherwise the proper suffix from a dot followed by no dot |
| LegacyPipeline.ExtName | lib/index.mjs:16 | `path.extname`: empty exactly when the basename has no dot, its only dot comes first, or it is `..`; otherwise a dot followed by no dot or slash, ending the basename |
| LegacyPipeline.LowerChar | lib/index.mjs:16 | ASCII upper-case letters map to lower case; everything else is unchanged |
| LegacyPipeline.ToLower | lib/index.mjs:16 | Lower-cases character by character; the length is kept |
| LegacyPipeline.LowerExtension | lib/index.mjs:16 | Lower-casing keeps an extension empty or led by its dot, character by character |
| LegacyPipeline.GetExtension | lib/index.mjs:16 | `path.extname` lower-cased character by character: same length, no upper-case ASCII letter, empty or starting with a dot |
| LegacyPipeline.ExtNameOfFileName | lib/index.mjs:16 | The extension of `dir/stem.ext` is `.ext` |
| LegacyPipeline.UpperCaseExtensionPasses | lib/index.mjs:11-16 | Any `<stem>.JPG` has extension `.jpg`, which the whitelist admits |
| LegacyPipeline.TextFileRefused | lib/index.mjs:11-16 | Any `<stem>.txt` has extension `.txt`, which the whitelist refuses |
| LegacyPipeline.IsModuleNamespace | lib/index.mjs:31 | Only an object is a namespace; one with a truthy `__esModule` or the `Module` string tag is one |
| LegacyPipeline.GetCtor | lib/index.mjs:30-35 | A truthy module namespace gives its `default`; anything else is returned unchanged |
| LegacyPipeline.FindPlugin | lib/index.mjs:37-45 | When the import succeeds and its constructor is a function, the result is what the call returns, or `null` when the call throws; a failed import or a constructor that is not a function gives `null` |
| LegacyPipeline.PluginsOf | lib/index.mjs:51-54 | At most one plugin per entry and only a truthy one; a non-object entry gives none; an object entry gives its loaded plugin exactly when that is truthy |
| LegacyPipeline.ObjectEntries | lib/index.mjs:50-51 | No more entries than given |
| LegacyPipeline.ObjectEntriesKeepsObjects | lib/index.mjs:50-51 | Every entry kept is an object entry of the list, and every object entry is kept |
| LegacyPipeline.ObjectEntriesAppend | lib/index.mjs:50-51 | The object entries of `a + b` are those of `a` followed by those of `b`, so entry order is kept |
| LegacyPipeline.LoadedPlugins | lib/index.mjs:47-59 | At most one plugin per object entry; every plugin kept is truthy |
| LegacyPipeline.LoadedPluginsOfOne | lib/index.mjs:51-54 | One entry yields its truthy loaded plugin if it is an object entry, and nothing otherwise |
| LegacyPipeline.LoadedPluginsAppend | lib/index.mjs:50-55 | The plugins of `a + b` are those of `a` followed by those of `b`: with the one-entry case, the truthy plugins of the object entries in entry order |
| LegacyPipeline.MapPlugin | lib/index.mjs:47-59 | The loop returns `LoadedPlugins` of `Object.entries(configs)`, and only truthy plugins |
| LegacyPipeline.OnlyObjectEntriesLoad | lib/index.mjs:50-51 | Non-object entries contribute nothing: the plugins are those of the object entries alone |
| LegacyPipeline.EveryObjectEntryLoads | lib/index.mjs:50-55 | When every plugin loads, there is exactly one plugin per object entry |
| LegacyPipeline.DefaultsAttemptFivePlugins | lib/index.mjs:50-52 | Under the legacy defaults the plugins attempted are gifsicle, mozjpeg, optipng, svgo and webp, in that order |
| LegacyPipeline.InvalidExtension | lib/index.mjs:70 | The refusal message is `Invalid extensions "`, the offending extension, then `" found.` |
| LegacyPipeline.OnError | lib/index.mjs:79-85 | A truthy `$silentErrors` returns `null`; otherwise exit with status 1 |
| LegacyPipeline.MinifyFileRun | lib/index.mjs:61-87 | An extension outside the whitelist is refused before any read; only a success writes, and it writes imagemin's output unconditionally, returning its savings; exit status 1 only when `$silentErrors` is falsy |
| LegacyPipeline.MinifyFile | lib/index.mjs:61-87 | The outcome and the new files are those of `MinifyFileRun` on the old files |
| LegacyPipeline.LegacyWritesLargerOutput | lib/index.mjs:72-77 | A supported, readable file is overwritten with imagemin's output even when that output is larger |
| LegacyPipeline.DefaultsNeverExit | lib/index.mjs:83-85 | Under the legacy defaults no error ends in a process exit |

## Left out

- Worker pool: Tinypool setup, `maxThreads`, `idleTimeout`, the abort signal and `pool.destroy` at exit (`lib/index.ts:14-19, 22-25, 104`). These concern concurrency and thread lifetime. `pool.run` is modelled as either the worker's answer or a failure with a message.
- Codecs: sharp, svgo, exif-reader, imagemin and `prettyBytes` are foreign libraries and appear only as parameters. Their compression is not modelled. `EncodeWorker.ReencodedOutputIsSkipped` and `Orchestrator.SecondRunSkips` take as a hypothesis that sharp writes a description it is given so that sharp and exif-reader read it back (`EncodeWorker.HonoursDescription`).
- Console output: the `process.stdout.write` and `console.error` lines are not produced. A report value stands in for each line.
- Configuration discovery and merging: cosmiconfig and defu (`lib/index.mjs:62-63`). The merged configuration is a parameter.
- CLI wrappers: `bin/cli.ts` and `bin/cli.mjs` are not part of this model.
- `process.exit`: modelled as an `Exited(1, …)` outcome, not as control flow.
- `writeFile` failures: a write in the model always succeeds. A failing write would be wrapped and rethrown by `lib/index.ts` like any other error.
- Numbers are integers: `isNumber(skipDelta)` is true exactly for a `Num` value, so a NaN or a fractional threshold is not modelled.
- `toLowerCase`: modelled for ASCII letters only. Non-ASCII case mapping cannot change whether an extension is in the ASCII whitelist.
- `path.extname`: modelled for POSIX paths with '/' separators.
- ReencodedOutputIsSkipped: idempotence is proved only where sharp honours the description it is given (`HonoursDescription`). An output format without an EXIF channel (GIF, for one) never carries the marker, so such an image is re-encoded every time; `EncodeWorker.NoExifNeverSkipped` states that side.
- SecondRunSkips: the same hypothesis on the original file's bytes, format and options; a file written in a format without an EXIF channel is overwritten again on every run.
- `Obj` values may list a key twice, which no JavaScript object does. `Lookup` then takes the first entry while `Entries` lists both. Every configuration built here has distinct keys.
- The default argument `configs = DEFAULT_CONFIGS` of `imageMinify` and of the default export is not a separate member. A call without configs is `DefaultExport` with `DefaultConf.DefaultConfigs()`, as `Orchestrator.DefaultsRequire500BytesSaved` uses it.
- Thrown values that are not `Error`s are represented by their message string.
- `Object.entries`: listed in insertion order. JavaScript's rule that integer-like keys come first is not modelled; no configuration key here is integer-like.
- `SharpInput` typed arrays other than `Buffer`: the model has only paths and `Buffer`s. For any other typed array `Buffer.isBuffer` is false, so the SVG branch (`lib/imageMinify.worker.ts:32`) hands it to `readFile` as if it were a path; the model instead decodes the bytes as text. A `Buffer` that reaches the worker through `pool.run`'s structured clone as a plain `Uint8Array` would take that same path; the model treats it as a `Buffer`.
- The worker's `${input}` for a buffer is modelled as the buffer decoded as UTF-8 (`EncodeWorker.Describe`), a parameter of the codecs.
- Build configurations and `tests/index.spec.js` are not part of this model.
