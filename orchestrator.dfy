/** `lib/index.ts`: `imageMinify`, which runs the encode worker on the
    thread pool, and the default export, which reads the original, applies
    the accept/skip guards and overwrites the file at the input path. */
module Orchestrator {
  import opened Types
  import opened JsValues
  import opened EncodeWorker
  import opened SavingsCalculator
  import opened FileSystem
  import DefaultConf

  /** How `pool.run` behaves for this call: it resolves with the worker's
      answer, or it rejects (thread failure, abort) with a message. */
  datatype Pool = Ready | Failing(message: string)

  /** What `imageMinify` settles with: a buffer, `undefined`, or a rejection. */
  datatype Minified = Buffer(bytes: seq<byte>) | NoBuffer | Rejected(message: string)

  /** `pool.run({input, configs})`: the worker run on the files as they are. */
  function PoolRun(pool: Pool, input: Input, configs: Value, files: map<string, seq<byte>>, codecs: Codecs): (r: Thrown<WorkerResult>)
    ensures pool.Ready? ==> r == Ok(Minify(input, configs, files, codecs))
    ensures pool.Failing? ==> r == Throws(pool.message)
  {
    match pool
    case Ready => Ok(Minify(input, configs, files, codecs))
    case Failing(m) => Throws(m)
  }

  /** `imageMinify`: a skip and a pool failure both give `undefined`; a worker
      error is returned as a rejected promise, which the surrounding `try`
      does not catch, so it reaches the caller. */
  function ImageMinify(run: Thrown<WorkerResult>): (m: Minified)
    ensures m.Buffer? <==> run.Ok? && run.value.Success?
    ensures m.Buffer? ==> m.bytes == run.value.buffer
    ensures m.NoBuffer? <==> run.Throws? || run.value.Skip?
    ensures m.Rejected? <==> run.Ok? && run.value.Error?
    ensures m.Rejected? ==> m.message == run.value.message
  {
    match run
    case Throws(_) => NoBuffer
    case Ok(Skip) => NoBuffer
    case Ok(Error(message)) => Rejected(message)
    case Ok(Success(buffer)) => Buffer(buffer)
  }

  /** The outcome of one call of the default export, with the line it prints:
      skipped as already minified, larger than the original, below the
      threshold, saved (with whether the saved line is printed), or the
      error it throws. */
  datatype Report =
    | SkippedAsMinified
    | LargerThanOriginal(savings: Savings)
    | BelowThreshold(savings: Savings)
    | Saved(savings: Savings, printed: bool)
    | Failed(message: string)

  /** A report together with the files afterwards. */
  datatype Run = Run(report: Report, files: map<string, seq<byte>>)

  /** The error the default export throws for a failure with `message`. */
  function Wrap(input: Input, message: string): (r: string)
    // the tool's tag, then which input, then the original message unchanged
    ensures var head := "[image-lint-staged] - " + Identifier(input);
            |r| == |head| + 3 + |message| && r[..|head|] == head && r[|r| - |message|..] == message
    // separated by a new line and the red-circle sign
    ensures var head := "[image-lint-staged] - " + Identifier(input);
            r[|head|..|head| + 3] == "\n\U{1F534} "
  {
    "[image-lint-staged] - " + Identifier(input) + "\n\U{1F534} " + message
  }

  /** The original bytes: the file at the path, or the buffer itself. */
  function Original(input: Input, files: map<string, seq<byte>>): (r: Thrown<seq<byte>>)
    ensures input.Bytes? ==> r == Ok(input.bytes)
    ensures input.Path? ==> r == ReadResult(files, input.path)
  {
    match input
    case Bytes(b) => Ok(b)
    case Path(p) => ReadResult(files, p)
  }

  /** `isNumber(configs.skipDelta) && saved[0] < configs.skipDelta`. */
  predicate BelowDelta(saved: int, skipDelta: Value)
    // a threshold that is not a number never skips anything
    ensures !skipDelta.Num? ==> !BelowDelta(saved, skipDelta)
    ensures skipDelta.Num? ==> (BelowDelta(saved, skipDelta) <==> saved < skipDelta.n)
  {
    skipDelta.Num? && saved < skipDelta.n
  }

  /** The guard chain once the original is read and `imageMinify` has
      settled: no buffer, then rejection, then "larger", then "below the
      threshold"; only past all of them is anything written, and only for a
      path. */
  function Finish(input: Input, original: seq<byte>, minified: Minified, skipDelta: Value, showSavings: Value,
                  files: map<string, seq<byte>>, prettyBytes: int -> string): (run: Run)
    ensures minified.NoBuffer? ==> run == Run(SkippedAsMinified, files)
    ensures minified.Rejected? ==> run == Run(Failed(Wrap(input, minified.message)), files)
    ensures minified.Buffer? && |minified.bytes| > |original|
            ==> run == Run(LargerThanOriginal(GetSavings(original, minified.bytes, prettyBytes)), files)
    ensures minified.Buffer? && |minified.bytes| <= |original| && BelowDelta(|original| - |minified.bytes|, skipDelta)
            ==> run == Run(BelowThreshold(GetSavings(original, minified.bytes, prettyBytes)), files)
    // a write happens exactly on acceptance, for a path, with the new bytes
    ensures run.report.Saved? <==> (minified.Buffer? && |minified.bytes| <= |original|
                                   && !BelowDelta(|original| - |minified.bytes|, skipDelta))
    ensures run.report.Saved? ==> run.report.savings == GetSavings(original, minified.bytes, prettyBytes)
                                  && run.report.printed == Truthy(showSavings)
    ensures run.files == if run.report.Saved? && input.Path? then files[input.path := minified.bytes] else files
  {
    match minified
    case NoBuffer => Run(SkippedAsMinified, files)
    case Rejected(message) => Run(Failed(Wrap(input, message)), files)
    case Buffer(bytes) =>
      var savings := GetSavings(original, bytes, prettyBytes);
      if |bytes| > |original| then Run(LargerThanOriginal(savings), files)
      else if BelowDelta(savings.saved.0, skipDelta) then Run(BelowThreshold(savings), files)
      else
        var report := Saved(savings, Truthy(showSavings));
        match input
        case Path(p) => Run(report, files[p := bytes])
        case Bytes(_) => Run(report, files)
  }

  /** The default export of `lib/index.ts`, on the files `files`. */
  function DefaultExport(input: Input, configs: Value, files: map<string, seq<byte>>, codecs: Codecs, pool: Pool,
                         prettyBytes: int -> string): (run: Run)
    // buffer inputs never write
    ensures input.Bytes? ==> run.files == files
    // nothing but the input path changes, and no path appears or vanishes
    ensures run.files.Keys == files.Keys
    ensures forall q :: q in files && !(input.Path? && q == input.path) ==> run.files[q] == files[q]
    // a write is the worker's output, no larger than the original, and meets a numeric threshold
    ensures run.files != files ==>
              && input.Path? && input.path in files && pool.Ready?
              && Minify(input, configs, files, codecs).Success?
              && run.files == files[input.path := Minify(input, configs, files, codecs).buffer]
              && |run.files[input.path]| <= |files[input.path]|
              && (Field(configs, "skipDelta").Num? ==>
                    |files[input.path]| - |run.files[input.path]| >= Field(configs, "skipDelta").n)
    // errors are never swallowed: a failed read or a worker error is thrown
    ensures run.report.Failed? <==> (Original(input, files).Throws?
                                     || (pool.Ready? && Minify(input, configs, files, codecs).Error?))
  {
    match Original(input, files)
    case Throws(message) => Run(Failed(Wrap(input, message)), files)
    case Ok(original) =>
      Finish(input, original, ImageMinify(PoolRun(pool, input, configs, files, codecs)),
             Field(configs, "skipDelta"), Field(configs, "showSavings"), files, prettyBytes)
  }

  /** The default export on a mutable file system. */
  method MinifyImage(fs: Files, input: Input, configs: Value, codecs: Codecs, pool: Pool, prettyBytes: int -> string)
    returns (report: Report)
    modifies fs
    ensures Run(report, fs.files) == DefaultExport(input, configs, old(fs.files), codecs, pool, prettyBytes)
  {
    var original := ReadOriginal(fs, input);
    if original.Throws? {
      return Failed(Wrap(input, original.message));
    }
    var minified := ImageMinify(PoolRun(pool, input, configs, fs.files, codecs));
    report := ApplyGuards(fs, input, original.value, minified, Field(configs, "skipDelta"),
                          Field(configs, "showSavings"), prettyBytes);
  }

  /** `typeof input === 'string' ? await readFile(input) : input`. */
  method ReadOriginal(fs: Files, input: Input) returns (original: Thrown<seq<byte>>)
    ensures original == Original(input, fs.files)
  {
    if input.Path? {
      original := fs.ReadFile(input.path);
    } else {
      original := Ok(input.bytes);
    }
  }

  /** The guard chain on a mutable file system: the one write happens last. */
  method ApplyGuards(fs: Files, input: Input, original: seq<byte>, minified: Minified, skipDelta: Value,
                     showSavings: Value, prettyBytes: int -> string) returns (report: Report)
    modifies fs
    ensures Run(report, fs.files) == Finish(input, original, minified, skipDelta, showSavings, old(fs.files), prettyBytes)
  {
    if minified.NoBuffer? {
      return SkippedAsMinified;
    }
    if minified.Rejected? {
      return Failed(Wrap(input, minified.message));
    }
    var bytes := minified.bytes;
    var savings := GetSavings(original, bytes, prettyBytes);
    if |bytes| > |original| {
      return LargerThanOriginal(savings);
    }
    if BelowDelta(savings.saved.0, skipDelta) {
      return BelowThreshold(savings);
    }
    report := Saved(savings, Truthy(showSavings));
    if input.Path? {
      fs.WriteFile(input.path, bytes);
    }
  }

  /** `showSavings` decides only whether the saved line is printed: the
      files and the kind of outcome do not depend on it. */
  lemma ShowSavingsOnlyPrints(input: Input, original: seq<byte>, minified: Minified, skipDelta: Value,
                              shown: Value, hidden: Value, files: map<string, seq<byte>>, prettyBytes: int -> string)
    ensures var a := Finish(input, original, minified, skipDelta, shown, files, prettyBytes);
            var b := Finish(input, original, minified, skipDelta, hidden, files, prettyBytes);
            a.files == b.files
            && (a.report.Saved? <==> b.report.Saved?)
            && (a.report.Saved? ==> a.report.savings == b.report.savings)
            && (!a.report.Saved? ==> a.report == b.report)
  {
  }

  /** Idempotence across runs: when sharp honours the description it is
      given for a raster file's bytes, format and options, a run that
      overwrites the file is followed by a run, with a working pool and any
      configuration, that skips it and leaves the files as they are. */
  lemma SecondRunSkips(p: string, configs: Value, files: map<string, seq<byte>>, codecs: Codecs,
                       configs': Value, prettyBytes: int -> string)
    requires Inspect(Path(p), files, codecs).Ok? && Inspect(Path(p), files, codecs).value.format != Some("svg")
    requires DefaultExport(Path(p), configs, files, codecs, Ready, prettyBytes).files != files
    requires var format := Inspect(Path(p), files, codecs).value.format.value;
             HonoursDescription(codecs, files[p], format, Field(configs, format))
    ensures var written := DefaultExport(Path(p), configs, files, codecs, Ready, prettyBytes).files;
            DefaultExport(Path(p), configs', written, codecs, Ready, prettyBytes) == Run(SkippedAsMinified, written)
  {
  }

  /** Scenario of an accepted path: when the worker succeeds with bytes no
      larger than the file and the saving meets the threshold, the file is
      overwritten with them and the savings are reported. */
  lemma AcceptedPathIsWritten(p: string, configs: Value, files: map<string, seq<byte>>, codecs: Codecs,
                              prettyBytes: int -> string)
    requires p in files && Minify(Path(p), configs, files, codecs).Success?
    requires var b := Minify(Path(p), configs, files, codecs).buffer;
             |b| <= |files[p]| && !BelowDelta(|files[p]| - |b|, Field(configs, "skipDelta"))
    ensures var b := Minify(Path(p), configs, files, codecs).buffer;
            DefaultExport(Path(p), configs, files, codecs, Ready, prettyBytes)
            == Run(Saved(GetSavings(files[p], b, prettyBytes), Truthy(Field(configs, "showSavings"))), files[p := b])
  {
  }

  /** The same guards on a buffer input report the savings and write
      nothing. */
  lemma AcceptedBufferIsSaved(bytes: seq<byte>, configs: Value, files: map<string, seq<byte>>, codecs: Codecs,
                              prettyBytes: int -> string)
    requires Minify(Bytes(bytes), configs, files, codecs).Success?
    requires var b := Minify(Bytes(bytes), configs, files, codecs).buffer;
             |b| <= |bytes| && !BelowDelta(|bytes| - |b|, Field(configs, "skipDelta"))
    ensures var b := Minify(Bytes(bytes), configs, files, codecs).buffer;
            DefaultExport(Bytes(bytes), configs, files, codecs, Ready, prettyBytes)
            == Run(Saved(GetSavings(bytes, b, prettyBytes), Truthy(Field(configs, "showSavings"))), files)
  {
  }

  /** Under `DEFAULT_CONFIGS` a file is only ever overwritten by bytes at
      least 500 shorter than it was. */
  lemma DefaultsRequire500BytesSaved(input: Input, files: map<string, seq<byte>>, codecs: Codecs, pool: Pool,
                                     prettyBytes: int -> string)
    ensures var run := DefaultExport(input, DefaultConf.DefaultConfigs(), files, codecs, pool, prettyBytes);
            run.files != files ==> input.Path? && |run.files[input.path]| + 500 <= |files[input.path]|
  {
    assert Field(DefaultConf.DefaultConfigs(), "skipDelta") == Num(500) by {
      DefaultConf.DefaultConfigsFields();
    }
  }
}
