/** `lib/default-conf.mjs`: the built-in configuration of the legacy imagemin
    pipeline, keyed by imagemin plugin suffix. */
module LegacyConf {
  import opened JsValues

  /** The svgo plugin list: `removeViewBox` switched off as a plugin entry and
      again as a `preset-default` override. */
  function SvgoPlugins(): Value
  {
    Arr([
      Obj([(Name("name"), Str("removeViewBox")), (Name("active"), Bool(false))]),
      Obj([
        (Name("name"), Str("preset-default")),
        (Name("params"), Obj([(Name("overrides"), Obj([(Name("removeViewBox"), Bool(false))]))]))
      ])
    ])
  }

  /** The default export of `lib/default-conf.mjs`. */
  function LegacyDefaults(): Value
  {
    Obj([
      (Name("$silentErrors"), Bool(true)),
      (Name("gifsicle"), Obj([(Name("interlaced"), Bool(true))])),
      (Name("mozjpeg"), Obj([(Name("quality"), Num(85))])),
      (Name("optipng"), Obj([(Name("optimizationLevel"), Num(4))])),
      (Name("svgo"), Obj([(Name("plugins"), SvgoPlugins())])),
      (Name("webp"), Obj([(Name("quality"), Num(75))]))
    ])
  }

  /** `$silentErrors` is on, and each plugin suffix has its option block. */
  lemma LegacyDefaultsFields()
    ensures var c := LegacyDefaults();
            && Field(c, "$silentErrors") == Bool(true)
            && Field(c, "gifsicle") == Obj([(Name("interlaced"), Bool(true))])
            && Field(c, "mozjpeg") == Obj([(Name("quality"), Num(85))])
            && Field(c, "optipng") == Obj([(Name("optimizationLevel"), Num(4))])
            && Field(c, "svgo") == Obj([(Name("plugins"), SvgoPlugins())])
            && Field(c, "webp") == Obj([(Name("quality"), Num(75))])
  {
  }

  /** `Object.entries` of the defaults: `$silentErrors` first, then the five
      plugin blocks in the order written; only `$silentErrors` is not an
      object. */
  lemma LegacyDefaultsEntries()
    ensures Names(Entries(LegacyDefaults())) == ["$silentErrors", "gifsicle", "mozjpeg", "optipng", "svgo", "webp"]
    ensures !IsObject(Entries(LegacyDefaults())[0].1)
    ensures forall i :: 1 <= i < 6 ==> IsObject(Entries(LegacyDefaults())[i].1)
  {
    var c := LegacyDefaults();
    NamedPropsAllNamed(c.props);
  }

  /** The svgo block keeps the view box: both the plugin entry and the
      preset override switch `removeViewBox` off. */
  lemma SvgoKeepsViewBox()
    ensures var plugins := Field(Field(LegacyDefaults(), "svgo"), "plugins");
            plugins.Arr? && |plugins.items| == 2
            && Field(plugins.items[0], "name") == Str("removeViewBox")
            && Field(plugins.items[0], "active") == Bool(false)
            && Field(plugins.items[1], "name") == Str("preset-default")
            && Field(Field(Field(plugins.items[1], "params"), "overrides"), "removeViewBox") == Bool(false)
  {
  }
}
