/** The run configuration the current worker reads (core/config.py). */
module Config {
  import opened Wrappers

  datatype GenerationConfig = GenerationConfig(
    inputVideoPath: string,
    outputDir: string,
    targetFps: int,
    targetWidth: int,
    enablePose: bool,
    modelPath: string,
    yamlPath: string,
    prompt: string,
    negativePrompt: string,
    seed: int,
    steps: int,
    cfgScale: real,
    denoisingStrength: real,   // only passed to the pipeline when enablePose is false
    useXformers: bool,
    lowVram: bool,
    /** `temp_dir_name`, which the worker reads; `GenerationConfig.__init__` never sets it. */
    tempDirName: Option<string>)

  /** `GenerationConfig()`: the defaults a fresh configuration starts from. */
  function Default(): (c: GenerationConfig)
    ensures c.inputVideoPath == "" && c.outputDir == "output"
    ensures c.targetFps == 24 && c.targetWidth == 512
    ensures c.enablePose
    ensures c.seed == 12345 && c.steps == 20
    ensures c.cfgScale == 7.5 && c.denoisingStrength == 0.75
    ensures c.tempDirName == None
  {
    GenerationConfig(
      inputVideoPath := "",
      outputDir := "output",
      targetFps := 24,
      targetWidth := 512,
      enablePose := true,
      modelPath := "",
      yamlPath := "configs/v1-inference.yaml",
      prompt := "high quality, masterpiece, anime style, 1girl, vivid colors",
      negativePrompt := "low quality, bad anatomy, watermark, text, error, ugly, deformed",
      seed := 12345,
      steps := 20,
      cfgScale := 7.5,
      denoisingStrength := 0.75,
      useXformers := false,
      lowVram := false,
      tempDirName := None)
  }
}
