/** `lib/index.mjs`: the legacy imagemin pipeline. It checks the file
    extension, loads one imagemin plugin per object-valued configuration
    entry, and overwrites the file with imagemin's output without any size
    guard. */
module LegacyPipeline {
  import opened Types
  import opened JsValues
  import opened SavingsCalculator
  import opened FileSystem
  import LegacyConf

  /** `SUPPORTED_EXTENSIONS`. */
  const SupportedExtensions: seq<string> := [".jpg", ".jpeg", ".png", ".gif", ".svg"]

  // ---------------------------------------------------------------------
  // getExtension: `path.extname(name).toLowerCase()`

  /** The path without its trailing slashes. */
  function TrimTrailingSlashes(s: string): (r: string)
    ensures |r| <= |s| && r == s[..|r|]
    ensures r == "" || r[|r| - 1] != '/'
    ensures forall i :: |r| <= i < |s| ==> s[i] == '/'
  {
    if |s| > 0 && s[|s| - 1] == '/' then TrimTrailingSlashes(s[..|s| - 1]) else s
  }

  /** `r` ends `s`. */
  predicate IsSuffix(r: string, s: string)
  {
    |r| <= |s| && r == s[|s| - |r|..]
  }

  /** The part after the last slash. */
  function AfterLastSlash(s: string): (r: string)
    ensures |r| <= |s| && r == s[|s| - |r|..]
    ensures '/' !in r
    ensures |r| < |s| ==> s[|s| - |r| - 1] == '/'
  {
    if |s| == 0 || s[|s| - 1] == '/' then ""
    else AfterLastSlash(s[..|s| - 1]) + [s[|s| - 1]]
  }

  /** The last portion of a path, as `path.basename` finds it. */
  function Basename(path: string): (r: string)
    ensures var t := TrimTrailingSlashes(path);
            && IsSuffix(r, t)
            && '/' !in r
            && (|r| < |t| ==> t[|t| - |r| - 1] == '/')
  {
    AfterLastSlash(TrimTrailingSlashes(path))
  }

  /** The index of the last '.' in `s`, if any. */
  function LastDot(s: string): (r: Option<nat>)
    ensures r.Some? ==> r.value < |s| && s[r.value] == '.' && forall j :: r.value < j < |s| ==> s[j] != '.'
    ensures r.None? ==> '.' !in s
  {
    if |s| == 0 then None
    else if s[|s| - 1] == '.' then Some(|s| - 1)
    else LastDot(s[..|s| - 1])
  }

  /** `s` starts with its only '.'. */
  predicate OnlyLeadingDot(s: string)
  {
    |s| > 0 && s[0] == '.' && forall j :: 0 < j < |s| ==> s[j] != '.'
  }

  /** The last dot is the first character exactly when it is the only dot
      and comes first. */
  lemma LastDotAtStart(s: string)
    ensures LastDot(s) == Some(0) <==> OnlyLeadingDot(s)
  {
  }

  /** The suffix of a slash-free name from its last dot on is a dot followed
      by no dot or slash. */
  lemma SuffixFromLastDot(s: string, k: nat)
    requires k < |s| && s[k] == '.' && forall j :: k < j < |s| ==> s[j] != '.'
    requires '/' !in s
    ensures var r := s[k..];
            r[0] == '.' && '.' !in r[1..] && '/' !in r && r == s[|s| - |r|..]
  {
  }

  /** The extension of a last path portion `b`: from its last '.' to its
      end; empty when `b` has no '.', when its only '.' is its first
      character, or when it is `..`. */
  function ExtOfBase(b: string): (r: string)
    requires '/' !in b
    ensures r == "" || (r[0] == '.' && '.' !in r[1..] && '/' !in r)
    ensures r != "" ==> |r| < |b| && r == b[|b| - |r|..]
    ensures r == "" <==> ('.' !in b || OnlyLeadingDot(b) || b == "..")
  {
    LastDotAtStart(b);
    match LastDot(b)
    case None => ""
    case Some(k) =>
      if k == 0 || b == ".." then ""
      else
        SuffixFromLastDot(b, k);
        b[k..]
  }

  /** `path.extname` (POSIX): the extension of the last portion of the
      path. */
  function ExtName(path: string): (r: string)
    ensures r == "" || (r[0] == '.' && '.' !in r[1..] && '/' !in r)
    ensures r != "" ==> |r| < |Basename(path)| && r == Basename(path)[|Basename(path)| - |r|..]
    ensures var b := Basename(path);
            r == "" <==> ('.' !in b || OnlyLeadingDot(b) || b == "..")
  {
    ExtOfBase(Basename(path))
  }

  /** `toLowerCase` on one character; only the ASCII letters matter to the
      whitelist. */
  function LowerChar(c: char): (r: char)
    ensures r == c || ('A' <= c <= 'Z' && r == (c as int + 32) as char)
    ensures !('A' <= r <= 'Z')
  {
    if 'A' <= c <= 'Z' then (c as int + 32) as char else c
  }

  function ToLower(s: string): (r: string)
    ensures |r| == |s|
    ensures forall i :: 0 <= i < |s| ==> r[i] == LowerChar(s[i])
  {
    seq(|s|, i requires 0 <= i < |s| => LowerChar(s[i]))
  }

  /** A lower-cased extension is still empty or led by its dot. */
  function LowerExtension(ext: string): (r: string)
    requires ext == "" || ext[0] == '.'
    ensures r == "" || r[0] == '.'
    ensures |r| == |ext|
    ensures forall i :: 0 <= i < |r| ==> r[i] == LowerChar(ext[i]) && !('A' <= r[i] <= 'Z')
  {
    ToLower(ext)
  }

  /** `getExtension`. */
  function GetExtension(name: string): (r: string)
    ensures r == "" || r[0] == '.'
    ensures forall i :: 0 <= i < |r| ==> !('A' <= r[i] <= 'Z')
    ensures |r| == |ExtName(name)|
    ensures forall i :: 0 <= i < |r| ==> r[i] == LowerChar(ExtName(name)[i])
  {
    LowerExtension(ExtName(name))
  }

  lemma {:induction false} TrimWithoutTrailingSlash(s: string)
    requires s != "" && s[|s| - 1] != '/'
    ensures TrimTrailingSlashes(s) == s
  {
  }

  lemma {:induction false} AfterLastSlashOfPath(dir: string, base: string)
    requires dir == "" || dir[|dir| - 1] == '/'
    requires '/' !in base
    ensures AfterLastSlash(dir + base) == base
    decreases |base|
  {
    if |base| == 0 {
      assert dir + base == dir;
    } else {
      var path, init, last := dir + base, base[..|base| - 1], base[|base| - 1];
      assert path[|path| - 1] == last && last != '/';
      assert path[..|path| - 1] == dir + init;
      AfterLastSlashOfPath(dir, init);
      assert AfterLastSlash(path) == AfterLastSlash(dir + init) + [last];
      assert init + [last] == base;
    }
  }

  lemma {:induction false} LastDotIgnoresDotlessTail(s: string, t: string)
    requires '.' !in t
    ensures LastDot(s + t) == LastDot(s)
    decreases |t|
  {
    if |t| > 0 {
      assert (s + t)[..|s + t| - 1] == s + t[..|t| - 1];
      LastDotIgnoresDotlessTail(s, t[..|t| - 1]);
    } else {
      assert s + t == s;
    }
  }

  lemma BasenameOfPath(dir: string, base: string)
    requires dir == "" || dir[|dir| - 1] == '/'
    requires base != "" && '/' !in base
    ensures Basename(dir + base) == base
  {
    TrimWithoutTrailingSlash(dir + base);
    AfterLastSlashOfPath(dir, base);
  }

  lemma LastDotBeforeExtension(stem: string, ext: string)
    requires ext != "" && ext[0] == '.' && '.' !in ext[1..]
    ensures LastDot(stem + ext) == Some(|stem|)
  {
    var head, tail := stem + [ext[0]], ext[1..];
    assert stem + ext == head + tail;
    LastDotIgnoresDotlessTail(head, tail);
    assert head[|head| - 1] == '.';
  }

  /** The extension of `dir + stem + ext` is `ext` when `ext` is a dot
      followed by no further dot, `stem` is a non-empty name before it and
      the name is not `..`. */
  lemma {:induction false} ExtNameOfFileName(dir: string, stem: string, ext: string)
    requires dir == "" || dir[|dir| - 1] == '/'
    requires stem != "" && '/' !in stem
    requires ext != "" && ext[0] == '.' && '.' !in ext[1..] && '/' !in ext
    requires stem + ext != ".."
    ensures ExtName(dir + stem + ext) == ext
  {
    var base := stem + ext;
    assert '/' !in base by {
      forall i | 0 <= i < |base| ensures base[i] != '/' {
        if i < |stem| { assert base[i] == stem[i]; } else { assert base[i] == ext[i - |stem|]; }
      }
    }
    assert dir + stem + ext == dir + base;
    BasenameOfPath(dir, base);
    LastDotBeforeExtension(stem, ext);
    assert base[|stem|..] == ext;
  }

  lemma LowerCaseOfJpg()
    ensures ToLower(".JPG") == ".jpg" && ".jpg" in SupportedExtensions
  {
  }

  lemma LowerCaseOfTxt()
    ensures ToLower(".txt") == ".txt" && ".txt" !in SupportedExtensions
  {
  }

  /** The lower-casing makes the whitelist case-insensitive: any file
      named `<stem>.JPG` passes as `.jpg`. */
  lemma UpperCaseExtensionPasses(dir: string, stem: string)
    requires dir == "" || dir[|dir| - 1] == '/'
    requires stem != "" && '/' !in stem
    ensures GetExtension(dir + stem + ".JPG") == ".jpg"
    ensures GetExtension(dir + stem + ".JPG") in SupportedExtensions
  {
    ExtNameOfFileName(dir, stem, ".JPG");
    LowerCaseOfJpg();
  }

  /** Any file named `<stem>.txt` is outside the whitelist. */
  lemma TextFileRefused(dir: string, stem: string)
    requires dir == "" || dir[|dir| - 1] == '/'
    requires stem != "" && '/' !in stem
    ensures GetExtension(dir + stem + ".txt") == ".txt"
    ensures GetExtension(dir + stem + ".txt") !in SupportedExtensions
  {
    ExtNameOfFileName(dir, stem, ".txt");
    LowerCaseOfTxt();
  }

  // ---------------------------------------------------------------------
  // Plugins: getCtor, findPlugin, mapPlugin

  /** `comp.__esModule || comp[Symbol.toStringTag] === 'Module'`. */
  predicate IsModuleNamespace(comp: Value)
    // only an object can be a module namespace
    ensures IsModuleNamespace(comp) ==> comp.Obj?
    ensures comp.Obj? && Truthy(Field(comp, "__esModule")) ==> IsModuleNamespace(comp)
    ensures comp.Obj? && Get(comp, ToStringTag) == Str("Module") ==> IsModuleNamespace(comp)
  {
    Truthy(Field(comp, "__esModule")) || Get(comp, ToStringTag) == Str("Module")
  }

  /** `getCtor`: the default export of a module namespace, anything else
      unchanged. */
  function GetCtor(comp: Value): (r: Value)
    ensures Truthy(comp) && IsModuleNamespace(comp) ==> r == Field(comp, "default")
    ensures !(Truthy(comp) && IsModuleNamespace(comp)) ==> r == comp
  {
    if Truthy(comp) && IsModuleNamespace(comp) then Field(comp, "default") else comp
  }

  /** The foreign side of plugin loading: `import(specifier)` and calling a
      function object with one argument. */
  datatype Loader = Loader(importModule: string -> Thrown<Value>, call: (nat, Value) -> Thrown<Value>)

  /** `findPlugin`: import `imagemin-<plugin>` and call its constructor with
      the entry's options. Every failure, including a constructor that is not
      a function, gives `null`. */
  function FindPlugin(plugin: string, config: Value, loader: Loader): (r: Value)
    ensures r != Null ==>
              && loader.importModule("imagemin-" + plugin).Ok?
              && GetCtor(loader.importModule("imagemin-" + plugin).value).Func?
              && loader.call(GetCtor(loader.importModule("imagemin-" + plugin).value).id, config) == Ok(r)
    ensures loader.importModule("imagemin-" + plugin).Throws? ==> r == Null
    ensures var imported := loader.importModule("imagemin-" + plugin);
            imported.Ok? && !GetCtor(imported.value).Func? ==> r == Null
    ensures var imported := loader.importModule("imagemin-" + plugin);
            imported.Ok? && GetCtor(imported.value).Func?
            ==> var built := loader.call(GetCtor(imported.value).id, config);
                r == (if built.Ok? then built.value else Null)
  {
    match loader.importModule("imagemin-" + plugin)
    case Throws(_) => Null
    case Ok(namespace) =>
      var ctor := GetCtor(namespace);
      if !ctor.Func? then Null
      else
        match loader.call(ctor.id, config)
        case Throws(_) => Null
        case Ok(plugin) => plugin
  }

  /** The plugins one entry contributes: none for a non-object value, else
      the loaded plugin when it is truthy. */
  function PluginsOf(entry: (string, Value), loader: Loader): (r: seq<Value>)
    ensures |r| <= 1
    ensures !IsObject(entry.1) ==> r == []
    // an object entry contributes its plugin exactly when that is truthy
    ensures IsObject(entry.1) ==> (r == [FindPlugin(entry.0, entry.1, loader)] <==> Truthy(FindPlugin(entry.0, entry.1, loader)))
    ensures forall i :: 0 <= i < |r| ==> Truthy(r[i])
  {
    if !IsObject(entry.1) then []
    else
      var plugin := FindPlugin(entry.0, entry.1, loader);
      if Truthy(plugin) then [plugin] else []
  }

  /** The entries `mapPlugin` tries to load: those whose value is an object. */
  function ObjectEntries(es: seq<(string, Value)>): (r: seq<(string, Value)>)
    ensures |r| <= |es|
  {
    if |es| == 0 then []
    else ObjectEntries(es[..|es| - 1]) + (if IsObject(es[|es| - 1].1) then [es[|es| - 1]] else [])
  }

  /** `ObjectEntries` keeps exactly the object entries: each entry it keeps
      is an object entry of `es`, and every object entry is kept. */
  lemma {:induction false} ObjectEntriesKeepsObjects(es: seq<(string, Value)>)
    ensures forall e :: e in ObjectEntries(es) ==> e in es && IsObject(e.1)
    ensures forall i :: 0 <= i < |es| && IsObject(es[i].1) ==> es[i] in ObjectEntries(es)
  {
    if |es| > 0 {
      var init := es[..|es| - 1];
      ObjectEntriesKeepsObjects(init);
      forall i | 0 <= i < |es| && IsObject(es[i].1)
        ensures es[i] in ObjectEntries(es)
      {
        if i < |es| - 1 {
          assert es[i] == init[i];
        }
      }
    }
  }

  /** What `mapPlugin` returns for the entries `es`, in entry order. */
  function LoadedPlugins(es: seq<(string, Value)>, loader: Loader): (r: seq<Value>)
    ensures |r| <= |ObjectEntries(es)|
    ensures forall p :: p in r ==> Truthy(p)
  {
    if |es| == 0 then []
    else LoadedPlugins(es[..|es| - 1], loader) + PluginsOf(es[|es| - 1], loader)
  }

  /** `mapPlugin`: walks `Object.entries(configs)` and pushes every truthy
      plugin it loads. */
  method MapPlugin(configs: Value, loader: Loader) returns (plugins: seq<Value>)
    ensures plugins == LoadedPlugins(Entries(configs), loader)
    ensures forall p :: p in plugins ==> Truthy(p)
  {
    var entries := Entries(configs);
    plugins := [];
    var i := 0;
    while i < |entries|
      invariant 0 <= i <= |entries|
      invariant plugins == LoadedPlugins(entries[..i], loader)
    {
      ghost var before := plugins;
      var (pluginName, config) := entries[i];
      if IsObject(config) {
        var plugin := FindPlugin(pluginName, config, loader);
        if Truthy(plugin) {
          plugins := plugins + [plugin];
        }
      }
      assert plugins == before + PluginsOf(entries[i], loader);
      LoadedPluginsStep(entries, i, loader);
      i := i + 1;
    }
    assert entries[..i] == entries;
  }

  /** Entry lists filter piecewise: the object entries of `a + b` are those
      of `a` followed by those of `b`. */
  lemma {:induction false} ObjectEntriesAppend(a: seq<(string, Value)>, b: seq<(string, Value)>)
    ensures ObjectEntries(a + b) == ObjectEntries(a) + ObjectEntries(b)
    decreases |b|
  {
    if |b| == 0 {
      assert a + b == a;
    } else {
      var init := b[..|b| - 1];
      assert (a + b)[..|a + b| - 1] == a + init;
      ObjectEntriesAppend(a, init);
    }
  }

  /** A single entry yields `PluginsOf` it. */
  lemma LoadedPluginsOfOne(e: (string, Value), loader: Loader)
    ensures LoadedPlugins([e], loader) == PluginsOf(e, loader)
  {
    assert [e][..0] == [];
  }

  /** Plugin lists load piecewise: the plugins of `a + b` are those of `a`
      followed by those of `b`. With `LoadedPluginsOfOne` this pins
      `mapPlugin`'s result down to the truthy plugins of the object
      entries, in entry order. */
  lemma {:induction false} LoadedPluginsAppend(a: seq<(string, Value)>, b: seq<(string, Value)>, loader: Loader)
    ensures LoadedPlugins(a + b, loader) == LoadedPlugins(a, loader) + LoadedPlugins(b, loader)
    decreases |b|
  {
    if |b| == 0 {
      assert a + b == a;
    } else {
      var init, last := b[..|b| - 1], b[|b| - 1];
      assert (a + b)[..|a + b| - 1] == a + init && (a + b)[|a + b| - 1] == last;
      LoadedPluginsAppend(a, init, loader);
      calc {
        LoadedPlugins(a + b, loader);
        LoadedPlugins(a + init, loader) + PluginsOf(last, loader);
        LoadedPlugins(a, loader) + (LoadedPlugins(init, loader) + PluginsOf(last, loader));
        LoadedPlugins(a, loader) + LoadedPlugins(b, loader);
      }
    }
  }

  /** One more entry adds exactly the plugins that entry yields. */
  lemma LoadedPluginsStep(es: seq<(string, Value)>, i: nat, loader: Loader)
    requires i < |es|
    ensures LoadedPlugins(es[..i + 1], loader) == LoadedPlugins(es[..i], loader) + PluginsOf(es[i], loader)
  {
    assert es[..i + 1][..i] == es[..i];
  }

  /** Entries that are not objects (`$silentErrors`, strings, numbers,
      `null`) never reach the loader: only the object entries decide the
      plugin list. */
  lemma {:induction false} OnlyObjectEntriesLoad(es: seq<(string, Value)>, loader: Loader)
    ensures LoadedPlugins(es, loader) == LoadedPlugins(ObjectEntries(es), loader)
  {
    if |es| > 0 {
      var init, last := es[..|es| - 1], es[|es| - 1];
      OnlyObjectEntriesLoad(init, loader);
      var objs := ObjectEntries(init);
      if IsObject(last.1) {
        assert ObjectEntries(es) == objs + [last];
        assert (objs + [last])[..|objs|] == objs;
      } else {
        assert ObjectEntries(es) == objs;
      }
    }
  }

  /** A loader under which every plugin imports and constructs to a truthy
      value. */
  predicate LoadsAll(es: seq<(string, Value)>, loader: Loader)
  {
    forall i :: 0 <= i < |es| && IsObject(es[i].1) ==> Truthy(FindPlugin(es[i].0, es[i].1, loader))
  }

  /** When every plugin loads, there is one plugin per object entry. */
  lemma {:induction false} EveryObjectEntryLoads(es: seq<(string, Value)>, loader: Loader)
    requires LoadsAll(es, loader)
    ensures |LoadedPlugins(es, loader)| == |ObjectEntries(es)|
  {
    if |es| > 0 {
      var init := es[..|es| - 1];
      assert LoadsAll(init, loader) by {
        forall i | 0 <= i < |init| && IsObject(init[i].1)
          ensures Truthy(FindPlugin(init[i].0, init[i].1, loader))
        {
          assert init[i] == es[i];
        }
      }
      EveryObjectEntryLoads(init, loader);
    }
  }

  lemma {:induction false} NoObjectEntries(es: seq<(string, Value)>)
    requires forall i :: 0 <= i < |es| ==> !IsObject(es[i].1)
    ensures ObjectEntries(es) == []
  {
    if |es| > 0 {
      NoObjectEntries(es[..|es| - 1]);
    }
  }

  /** After a prefix of `n` non-object entries, `ObjectEntries` keeps the
      rest when the rest are all objects. */
  lemma {:induction false} ObjectEntriesAfterPrefix(es: seq<(string, Value)>, n: nat)
    requires n <= |es|
    requires forall i :: 0 <= i < n ==> !IsObject(es[i].1)
    requires forall i :: n <= i < |es| ==> IsObject(es[i].1)
    ensures ObjectEntries(es) == es[n..]
  {
    if |es| == n {
      NoObjectEntries(es);
    } else {
      var init := es[..|es| - 1];
      ObjectEntriesAfterPrefix(init, n);
      assert init[n..] + [es[|es| - 1]] == es[n..];
    }
  }

  /** The names `ObjectEntries` keeps after a non-object prefix. */
  lemma NamesAfterPrefix(es: seq<(string, Value)>, n: nat)
    requires n <= |es|
    requires forall i :: 0 <= i < n ==> !IsObject(es[i].1)
    requires forall i :: n <= i < |es| ==> IsObject(es[i].1)
    ensures Names(ObjectEntries(es)) == Names(es)[n..]
  {
    ObjectEntriesAfterPrefix(es, n);
    NamesOfSuffix(es, n);
  }

  lemma NamesOfSuffix(es: seq<(string, Value)>, n: nat)
    requires n <= |es|
    ensures Names(es[n..]) == Names(es)[n..]
  {
  }

  /** Under the legacy defaults `mapPlugin` tries exactly gifsicle, mozjpeg,
      optipng, svgo and webp, in that order. */
  lemma DefaultsAttemptFivePlugins()
    ensures Names(ObjectEntries(Entries(LegacyConf.LegacyDefaults())))
            == ["gifsicle", "mozjpeg", "optipng", "svgo", "webp"]
  {
    LegacyConf.LegacyDefaultsEntries();
    NamesAfterPrefix(Entries(LegacyConf.LegacyDefaults()), 1);
  }

  // ---------------------------------------------------------------------
  // minifyFile

  /** The error thrown for an extension outside the whitelist. */
  function InvalidExtension(ext: string): (r: string)
    // the offending extension, quoted, inside the fixed message
    ensures |r| == |"Invalid extensions \""| + |ext| + |"\" found."|
    ensures r[..|"Invalid extensions \""|] == "Invalid extensions \""
    ensures r[|"Invalid extensions \""|..|r| - |"\" found."|] == ext
    ensures r[|r| - |"\" found."|..] == "\" found."
  {
    "Invalid extensions \"" + ext + "\" found."
  }

  /** What `minifyFile` gives back: the savings, `null` after an error when
      `$silentErrors` is truthy, or `process.exit(1)` otherwise. The error
      message is what `console.error` logs. */
  datatype LegacyOutcome = Saved(savings: Savings) | ReturnedNull(logged: string) | Exited(code: int, logged: string)

  datatype LegacyRun = LegacyRun(outcome: LegacyOutcome, files: map<string, seq<byte>>)

  /** `imagemin.buffer(bytes, {plugins})`. */
  type Imagemin = (seq<byte>, seq<Value>) -> Thrown<seq<byte>>

  /** The `$silentErrors` policy applied to a caught error. */
  function OnError(configs: Value, message: string): (o: LegacyOutcome)
    ensures Truthy(Field(configs, "$silentErrors")) ==> o == ReturnedNull(message)
    ensures !Truthy(Field(configs, "$silentErrors")) ==> o == Exited(1, message)
  {
    if Truthy(Field(configs, "$silentErrors")) then ReturnedNull(message) else Exited(1, message)
  }

  /** `minifyFile(filename)` with the merged configuration `configs`. */
  function MinifyFileRun(filename: string, configs: Value, files: map<string, seq<byte>>, loader: Loader,
                         imagemin: Imagemin, prettyBytes: int -> string): (run: LegacyRun)
    // an extension outside the whitelist is refused before the file is read
    ensures GetExtension(filename) !in SupportedExtensions
            ==> run == LegacyRun(OnError(configs, InvalidExtension(GetExtension(filename))), files)
    // only a success writes, and it writes imagemin's output unconditionally
    ensures !run.outcome.Saved? ==> run.files == files
    ensures run.outcome.Saved? ==>
              && GetExtension(filename) in SupportedExtensions
              && filename in files
              && var minified := imagemin(files[filename], LoadedPlugins(Entries(configs), loader));
                 minified.Ok?
                 && run.files == files[filename := minified.value]
                 && run.outcome.savings == GetSavings(files[filename], minified.value, prettyBytes)
    // every error ends in `null` or in exit status 1, as `$silentErrors` says
    ensures run.outcome.Exited? ==> run.outcome.code == 1 && !Truthy(Field(configs, "$silentErrors"))
    ensures run.outcome.ReturnedNull? ==> Truthy(Field(configs, "$silentErrors"))
  {
    var plugins := LoadedPlugins(Entries(configs), loader);
    var extension := GetExtension(filename);
    if extension !in SupportedExtensions then LegacyRun(OnError(configs, InvalidExtension(extension)), files)
    else
      match ReadResult(files, filename)
      case Throws(message) => LegacyRun(OnError(configs, message), files)
      case Ok(original) =>
        match imagemin(original, plugins)
        case Throws(message) => LegacyRun(OnError(configs, message), files)
        case Ok(minified) => LegacyRun(Saved(GetSavings(original, minified, prettyBytes)), files[filename := minified])
  }

  /** `minifyFile` on a mutable file system. */
  method MinifyFile(fs: Files, filename: string, configs: Value, loader: Loader, imagemin: Imagemin,
                    prettyBytes: int -> string) returns (outcome: LegacyOutcome)
    modifies fs
    ensures LegacyRun(outcome, fs.files) == MinifyFileRun(filename, configs, old(fs.files), loader, imagemin, prettyBytes)
  {
    var plugins := MapPlugin(configs, loader);
    var extension := GetExtension(filename);
    if extension !in SupportedExtensions {
      return OnError(configs, InvalidExtension(extension));
    }
    var read := fs.ReadFile(filename);
    if read.Throws? {
      return OnError(configs, read.message);
    }
    var minified := imagemin(read.value, plugins);
    if minified.Throws? {
      return OnError(configs, minified.message);
    }
    fs.WriteFile(filename, minified.value);
    outcome := Saved(GetSavings(read.value, minified.value, prettyBytes));
  }

  /** Unlike the sharp orchestrator, the legacy pipeline writes a result that
      is larger than the original. */
  lemma LegacyWritesLargerOutput(filename: string, configs: Value, files: map<string, seq<byte>>, loader: Loader,
                                 imagemin: Imagemin, prettyBytes: int -> string)
    requires GetExtension(filename) in SupportedExtensions && filename in files
    requires imagemin(files[filename], LoadedPlugins(Entries(configs), loader)).Ok?
    ensures var minified := imagemin(files[filename], LoadedPlugins(Entries(configs), loader)).value;
            var run := MinifyFileRun(filename, configs, files, loader, imagemin, prettyBytes);
            run.outcome.Saved? && run.files[filename] == minified
            && run.outcome.savings.saved.0 == |files[filename]| - |minified|
  {
  }

  /** Under the legacy defaults `$silentErrors` is true, so every error
      returns `null` and the process never exits. */
  lemma DefaultsNeverExit(filename: string, files: map<string, seq<byte>>, loader: Loader,
                          imagemin: Imagemin, prettyBytes: int -> string)
    ensures !MinifyFileRun(filename, LegacyConf.LegacyDefaults(), files, loader, imagemin, prettyBytes).outcome.Exited?
  {
  }
}
