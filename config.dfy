/** The configuration records of src/vdt_scoring/config.py with their
    defaults; reading them from YAML is not modelled. */
module Config {

  datatype SamplerCfg = SamplerCfg(everyNth: int, maxFrames: int)
  datatype ScoringCfg = ScoringCfg(wEdge: real, wMotion: real, wBlur: real)
  datatype OutputCfg = OutputCfg(saveHeatmaps: bool, saveEveryN: int)
  datatype AppCfg = AppCfg(sampler: SamplerCfg, scoring: ScoringCfg, output: OutputCfg)

  const DefaultCfg := AppCfg(SamplerCfg(5, 500), ScoringCfg(0.4, 0.3, 0.3), OutputCfg(true, 5))
}
