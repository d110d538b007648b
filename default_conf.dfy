/** `lib/default-conf.ts`: the built-in configuration of the sharp/svgo
    minifier and the identity helper for typed user configs. */
module DefaultConf {
  import opened JsValues

  /** `DEFAULT_CONFIGS`. Option blocks exist for svg, jpeg, png, webp and gif
      only, so `configs[format]` is undefined for every other format; the
      policy fields are skipDelta 500, silentErrors false, showSavings true. */
  function DefaultConfigs(): Value
  {
    Obj([
      (Name("svg"), Obj([(Name("multipass"), Bool(true))])),
      (Name("jpeg"), Obj([(Name("progressive"), Bool(true))])),
      (Name("png"), Obj([(Name("effort"), Num(6)), (Name("compressionLevel"), Num(9))])),
      (Name("webp"), Obj([(Name("nearLossless"), Bool(true)), (Name("effort"), Num(6))])),
      (Name("gif"), Obj([(Name("effort"), Num(6))])),
      (Name("skipDelta"), Num(500)),
      (Name("silentErrors"), Bool(false)),
      (Name("showSavings"), Bool(true))
    ])
  }

  /** The policy fields and option blocks of `DEFAULT_CONFIGS`. */
  lemma DefaultConfigsFields()
    ensures var c := DefaultConfigs();
            && Field(c, "skipDelta") == Num(500)
            && Field(c, "silentErrors") == Bool(false)
            && Field(c, "showSavings") == Bool(true)
            && Field(c, "svg") == Obj([(Name("multipass"), Bool(true))])
            && Field(c, "jpeg") == Obj([(Name("progressive"), Bool(true))])
            && Field(c, "png") == Obj([(Name("effort"), Num(6)), (Name("compressionLevel"), Num(9))])
            && Field(c, "webp") == Obj([(Name("nearLossless"), Bool(true)), (Name("effort"), Num(6))])
            && Field(c, "gif") == Obj([(Name("effort"), Num(6))])
  {
  }

  /** The other sharp output formats have no option block under the
      defaults, so the worker's `configs[format]` lookup yields undefined. */
  lemma DefaultsLeaveFormatsUnconfigured(f: string)
    requires f in ["avif", "heif", "tiff", "jp2", "raw", "jxl"]
    ensures Field(DefaultConfigs(), f) == Undefined
  {
  }

  /** `defineImageLintStageConfig`: hands its argument back unchanged (it
      exists only for type inference). */
  function DefineImageLintStageConfig(config: Value): (r: Value)
    ensures r == config
  {
    config
  }
}
