/** The default export of `lib/imageMinify.worker.ts`: the encode worker run
    on a pool thread for one input. It never throws; it answers with success
    and the new bytes, skip, or error and a message. */
module EncodeWorker {
  import opened Types
  import opened JsValues
  import FileSystem

  /** The sentinel written into, and looked for in, the EXIF IFD0
      `ImageDescription` field of raster images. */
  const MinifiedMarker: string := "__MINIFIED__"

  /** What sharp reports about an image: its detected format, if any, and
      its raw EXIF block, if any. */
  datatype Metadata = Metadata(format: Option<string>, exif: Option<seq<byte>>)

  /** What exif-reader decodes from an EXIF block, as far as the worker looks:
      `Image?.ImageDescription`. */
  datatype ExifTags = ExifTags(imageDescription: Option<string>)

  /** The foreign codecs the worker calls; each call that can throw answers
      with `Thrown`.
      - `missingInput(p)`: the message sharp throws for a path it cannot read;
      - `metadata(b)`: `sharp(b).metadata()`;
      - `readExif(e)`: `exif(e)` of exif-reader;
      - `encode(b, d, f, o)`: `sharp(b).withMetadata({exif: {IFD0:
        {ImageDescription: d}}}).toFormat(f, o).toBuffer()`;
      - `svgOptimize(t, o)`: `optimize(t, o).data` of svgo;
      - `decodeUtf8(b)` / `encodeUtf8(t)`: `Buffer#toString()` and
        `Buffer.from(t)`. */
  datatype Codecs = Codecs(
    missingInput: string -> string,
    metadata: seq<byte> -> Thrown<Metadata>,
    readExif: seq<byte> -> Thrown<ExifTags>,
    encode: (seq<byte>, string, string, Value) -> Thrown<seq<byte>>,
    svgOptimize: (string, Value) -> Thrown<string>,
    decodeUtf8: seq<byte> -> string,
    encodeUtf8: string -> seq<byte>)

  /** The worker's answer. */
  datatype WorkerResult = Success(buffer: seq<byte>) | Skip | Error(message: string)

  /** The bytes sharp works on: the buffer itself, or the file at the path. */
  function Load(input: Input, files: map<string, seq<byte>>, codecs: Codecs): (r: Thrown<seq<byte>>)
    ensures input.Bytes? ==> r == Ok(input.bytes)
    ensures input.Path? ==> (r.Ok? <==> input.path in files)
    ensures input.Path? && r.Ok? ==> r.value == files[input.path]
  {
    match input
    case Bytes(b) => Ok(b)
    case Path(p) => if p in files then Ok(files[p]) else Throws(codecs.missingInput(p))
  }

  /** `sharp(input).metadata()`. */
  function Inspect(input: Input, files: map<string, seq<byte>>, codecs: Codecs): (r: Thrown<Metadata>)
    ensures input.Bytes? ==> r == codecs.metadata(input.bytes)
    ensures input.Path? && input.path in files ==> r == codecs.metadata(files[input.path])
    // a missing path is sharp's own error, before any metadata is read
    ensures input.Path? && input.path !in files ==> r == Throws(codecs.missingInput(input.path))
  {
    var loaded := Load(input, files, codecs);
    if loaded.Throws? then Throws(loaded.message) else codecs.metadata(loaded.value)
  }

  /** `!metadata.format` fails for a missing format and for the empty string. */
  predicate HasFormat(md: Metadata)
  {
    md.format.Some? && md.format.value != ""
  }

  /** `${input}` in a template string: the path, or the buffer decoded as
      UTF-8. */
  function Describe(input: Input, codecs: Codecs): string
  {
    match input
    case Path(p) => p
    case Bytes(b) => codecs.decodeUtf8(b)
  }

  /** The message for an input sharp detects no format in. */
  function InvalidFormat(input: Input, codecs: Codecs): (r: string)
    ensures var head := "[WebWorker] - Invalid image format for ";
            |r| == |head| + |Describe(input, codecs)| && r[..|head|] == head
    // the message ends with the path itself for a path input
    ensures input.Path? ==> r[|r| - |input.path|..] == input.path
    ensures input.Bytes? ==> r[|r| - |codecs.decodeUtf8(input.bytes)|..] == codecs.decodeUtf8(input.bytes)
  {
    "[WebWorker] - Invalid image format for " + Describe(input, codecs)
  }

  /** The SVG source text: the buffer decoded, or the file read as UTF-8. */
  function SvgText(input: Input, files: map<string, seq<byte>>, codecs: Codecs): (r: Thrown<string>)
    ensures input.Bytes? ==> r == Ok(codecs.decodeUtf8(input.bytes))
    ensures input.Path? ==> (r.Ok? <==> input.path in files)
    ensures input.Path? && input.path in files ==> r == Ok(codecs.decodeUtf8(files[input.path]))
    // a vanished file is Node's ENOENT, not sharp's message
    ensures input.Path? && input.path !in files ==> r == Throws(FileSystem.NoSuchFile(input.path))
  {
    match input
    case Bytes(b) => Ok(codecs.decodeUtf8(b))
    case Path(p) =>
      var read := FileSystem.ReadResult(files, p);
      if read.Throws? then Throws(read.message) else Ok(codecs.decodeUtf8(read.value))
  }

  /** Whether raster metadata carries the marker: no EXIF block means no
      marker; an EXIF block exif-reader cannot decode throws. */
  function MarkerPresent(md: Metadata, codecs: Codecs): (r: Thrown<bool>)
    ensures md.exif.None? ==> r == Ok(false)
    ensures r == Ok(true) <==> md.exif.Some? && codecs.readExif(md.exif.value).Ok?
                               && codecs.readExif(md.exif.value).value.imageDescription == Some(MinifiedMarker)
    ensures md.exif.Some? && codecs.readExif(md.exif.value).Throws?
            ==> r == Throws(codecs.readExif(md.exif.value).message)
    // a decoded block answers whether its description is exactly the marker
    ensures md.exif.Some? && codecs.readExif(md.exif.value).Ok?
            ==> r == Ok(codecs.readExif(md.exif.value).value.imageDescription == Some(MinifiedMarker))
  {
    if md.exif.None? then Ok(false)
    else
      var tags := codecs.readExif(md.exif.value);
      if tags.Throws? then Throws(tags.message)
      else Ok(tags.value.imageDescription == Some(MinifiedMarker))
  }

  /** sharp reads the input and detects the (non-empty) format `format`. */
  predicate IsFormat(input: Input, files: map<string, seq<byte>>, codecs: Codecs, format: string)
  {
    var md := Inspect(input, files, codecs);
    md.Ok? && HasFormat(md.value) && md.value.format.value == format
  }

  /** A thrown message becomes an error result; a value becomes success. */
  function Settle(r: Thrown<seq<byte>>): (w: WorkerResult)
    ensures r.Ok? ==> w == Success(r.value)
    ensures r.Throws? ==> w == Error(r.message)
  {
    match r
    case Ok(b) => Success(b)
    case Throws(m) => Error(m)
  }

  /** The worker. `configs` is the resolved configuration object and `files`
      the file system the worker's thread reads. */
  function Minify(input: Input, configs: Value, files: map<string, seq<byte>>, codecs: Codecs): (r: WorkerResult)
    // every fault while reading the input becomes an error result
    ensures Inspect(input, files, codecs).Throws? ==> r == Error(Inspect(input, files, codecs).message)
    // no detected format: an error naming the input
    ensures Inspect(input, files, codecs).Ok? && !HasFormat(Inspect(input, files, codecs).value)
            ==> r == Error(InvalidFormat(input, codecs))
    // skip exactly for a raster image whose EXIF description is the marker
    ensures r.Skip? <==> Inspect(input, files, codecs).Ok?
                         && HasFormat(Inspect(input, files, codecs).value)
                         && Inspect(input, files, codecs).value.format.value != "svg"
                         && MarkerPresent(Inspect(input, files, codecs).value, codecs) == Ok(true)
    // SVG: the optimizer's output over the source text and `configs.svg`
    ensures r.Success? && Inspect(input, files, codecs).value.format == Some("svg")
            ==> SvgText(input, files, codecs).Ok?
                && codecs.svgOptimize(SvgText(input, files, codecs).value, Field(configs, "svg")).Ok?
                && r.buffer == codecs.encodeUtf8(codecs.svgOptimize(SvgText(input, files, codecs).value, Field(configs, "svg")).value)
    // raster: re-encoded to its own format with `configs[format]`, marker written
    ensures r.Success? && Inspect(input, files, codecs).value.format != Some("svg")
            ==> var format := Inspect(input, files, codecs).value.format.value;
                codecs.encode(Load(input, files, codecs).value, MinifiedMarker, format, Field(configs, format)) == Ok(r.buffer)
    // conversely, an SVG whose text is read and optimized succeeds with svgo's output; a fault is the error
    ensures IsFormat(input, files, codecs, "svg") ==>
              var text := SvgText(input, files, codecs);
              && (text.Throws? ==> r == Error(text.message))
              && (text.Ok? && codecs.svgOptimize(text.value, Field(configs, "svg")).Ok?
                  ==> r == Success(codecs.encodeUtf8(codecs.svgOptimize(text.value, Field(configs, "svg")).value)))
              && (text.Ok? && codecs.svgOptimize(text.value, Field(configs, "svg")).Throws?
                  ==> r == Error(codecs.svgOptimize(text.value, Field(configs, "svg")).message))
    // conversely, an unmarked raster image succeeds with the encode's output; an EXIF or encode fault is the error
    ensures forall format :: format != "svg" && IsFormat(input, files, codecs, format) ==>
              var md := Inspect(input, files, codecs).value;
              var encoded := codecs.encode(Load(input, files, codecs).value, MinifiedMarker, format, Field(configs, format));
              && (MarkerPresent(md, codecs).Throws? ==> r == Error(MarkerPresent(md, codecs).message))
              && (MarkerPresent(md, codecs) == Ok(false) && encoded.Ok? ==> r == Success(encoded.value))
              && (MarkerPresent(md, codecs) == Ok(false) && encoded.Throws? ==> r == Error(encoded.message))
  {
    var loaded := Load(input, files, codecs);
    if loaded.Throws? then Error(loaded.message)
    else
      var metadata := codecs.metadata(loaded.value);
      if metadata.Throws? then Error(metadata.message)
      else if !HasFormat(metadata.value) then Error(InvalidFormat(input, codecs))
      else
        var format := metadata.value.format.value;
        if format == "svg" then
          var text := SvgText(input, files, codecs);
          if text.Throws? then Error(text.message)
          else
            var optimized := codecs.svgOptimize(text.value, Field(configs, "svg"));
            if optimized.Throws? then Error(optimized.message)
            else Success(codecs.encodeUtf8(optimized.value))
        else
          var marked := MarkerPresent(metadata.value, codecs);
          if marked.Throws? then Error(marked.message)
          else if marked.value then Skip
          else Settle(codecs.encode(loaded.value, MinifiedMarker, format, Field(configs, format)))
  }

  /** A raster input that has no EXIF block is never skipped. */
  lemma NoExifNeverSkipped(input: Input, configs: Value, files: map<string, seq<byte>>, codecs: Codecs)
    requires Inspect(input, files, codecs).Ok? && Inspect(input, files, codecs).value.exif.None?
    ensures !Minify(input, configs, files, codecs).Skip?
  {
  }

  /** sharp and exif-reader read `out` back as an image of format `format`
      whose IFD0 `ImageDescription` is `description`. Formats without an
      EXIF channel (GIF among them) never read a description back. */
  predicate ReadsBack(codecs: Codecs, out: seq<byte>, format: string, description: string)
  {
    var md := codecs.metadata(out);
    && md.Ok?
    && md.value.format == Some(format)
    && md.value.exif.Some?
    && codecs.readExif(md.value.exif.value) == Ok(ExifTags(Some(description)))
  }

  /** sharp, given these bytes, this format and these options, writes
      whatever description it is asked for so that it reads back. */
  ghost predicate HonoursDescription(codecs: Codecs, bytes: seq<byte>, format: string, options: Value)
  {
    forall d :: codecs.encode(bytes, d, format, options).Ok?
                ==> ReadsBack(codecs, codecs.encode(bytes, d, format, options).value, format, d)
  }

  /** Idempotence of the raster path: when sharp honours the description
      it is given for this input's bytes, format and options, the bytes the
      worker produces are skipped when they come back, as a buffer or as the
      contents of a path, whatever the configuration or the other files
      then. */
  lemma ReencodedOutputIsSkipped(input: Input, configs: Value, files: map<string, seq<byte>>,
                                 input': Input, configs': Value, files': map<string, seq<byte>>,
                                 codecs: Codecs)
    requires Inspect(input, files, codecs).Ok? && Inspect(input, files, codecs).value.format != Some("svg")
    requires Minify(input, configs, files, codecs).Success?
    requires var format := Inspect(input, files, codecs).value.format.value;
             HonoursDescription(codecs, Load(input, files, codecs).value, format, Field(configs, format))
    requires Load(input', files', codecs) == Ok(Minify(input, configs, files, codecs).buffer)
    ensures Minify(input', configs', files', codecs) == Skip
  {
  }
}
