/** `getSavings` of `lib/getSavings.ts` (and its copy in `lib/index.mjs`):
    the size comparison between an original and an optimized buffer. */
module SavingsCalculator {
  import opened Types

  /** The savings record for `original` against `optimized`. The formatter
      `prettyBytes` is a foreign library, so it is a parameter. */
  function GetSavings(original: seq<byte>, optimized: seq<byte>, prettyBytes: int -> string): (s: Savings)
    ensures s.originalSize.0 == |original| && s.optimizedSize.0 == |optimized|
    ensures s.saved.0 == s.originalSize.0 - s.optimizedSize.0
    ensures s.saved.0 < 0 <==> |optimized| > |original|
    ensures s.originalSize.1 == prettyBytes(|original|)
    ensures s.optimizedSize.1 == prettyBytes(|optimized|)
    ensures s.saved.1 == prettyBytes(|original| - |optimized|)
  {
    var originalSize := |original|;
    var optimizedSize := |optimized|;
    var saved := originalSize - optimizedSize;
    Savings((originalSize, prettyBytes(originalSize)),
            (optimizedSize, prettyBytes(optimizedSize)),
            (saved, prettyBytes(saved)))
  }

  /** The record depends on the two buffers only through their lengths. */
  lemma SavingsDependOnLengthsOnly(a: seq<byte>, b: seq<byte>, c: seq<byte>, d: seq<byte>, prettyBytes: int -> string)
    requires |a| == |c| && |b| == |d|
    ensures GetSavings(a, b, prettyBytes) == GetSavings(c, d, prettyBytes)
  {
  }
}
