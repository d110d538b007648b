/** The shared shapes of `lib/types.ts`: what can be minified and the
    savings record reported for it. */
module Types {

  type byte = x: int | 0 <= x < 256

  datatype Option<+T> = None | Some(value: T)

  /** `SharpInput`: a file path, or the image bytes themselves. (The source
      also accepts typed arrays; they are bytes as far as the core goes.) */
  datatype Input = Path(path: string) | Bytes(bytes: seq<byte>)

  /** The identifier used in messages: the path, or the word `buffer`. */
  function Identifier(input: Input): string
  {
    if input.Path? then input.path else "buffer"
  }

  /** `Savings`: three pairs of a byte count and its human-readable form. */
  datatype Savings = Savings(
    originalSize: (int, string),
    optimizedSize: (int, string),
    saved: (int, string))
}
