/** The file system as seen through `readFile` and `writeFile` of
    `node:fs/promises`: a mutable map from path to contents. */
module FileSystem {
  import opened Types
  import opened JsValues

  /** The message Node gives when `readFile` is asked for a missing path. */
  function NoSuchFile(path: string): string
  {
    "ENOENT: no such file or directory, open '" + path + "'"
  }

  /** What `readFile(path)` resolves to, or the error it rejects with. */
  function ReadResult(files: map<string, seq<byte>>, path: string): (r: Thrown<seq<byte>>)
    ensures r.Ok? <==> path in files
    ensures r.Ok? ==> r.value == files[path]
    ensures r.Throws? ==> r.message == NoSuchFile(path)
  {
    if path in files then Ok(files[path]) else Throws(NoSuchFile(path))
  }

  class Files {
    var files: map<string, seq<byte>>

    constructor (initial: map<string, seq<byte>>)
      ensures files == initial
    {
      files := initial;
    }

    /** `readFile(path)`: the contents, or ENOENT for a missing path. */
    method ReadFile(path: string) returns (r: Thrown<seq<byte>>)
      ensures r == ReadResult(files, path)
    {
      if path in files {
        r := Ok(files[path]);
      } else {
        r := Throws(NoSuchFile(path));
      }
    }

    /** `writeFile(path, data)`: creates or overwrites that one path. */
    method WriteFile(path: string, data: seq<byte>)
      modifies this
      ensures files == old(files)[path := data]
      ensures path in files && files[path] == data
      ensures forall q :: q != path ==> (q in files <==> q in old(files))
    {
      files := files[path := data];
    }
  }
}
