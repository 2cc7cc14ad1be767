/** The configuration shapes read from a JSON configuration file, with the
    defaults a freshly constructed object carries. */
module PackerConfiguration {
  import opened Common

  datatype InputConfig = InputConfig(
    imagePath: string,
    dataPath: Option<string>,
    prefix: Option<string>,
    tmxPath: Option<string>)

  /** `imagePath` and `dataPath` are non-nullable and default to "atlas.png"
      and "atlas.json"; `animationPath` and `mapPath` may be null. */
  datatype OutputConfig = OutputConfig(
    imagePath: string,
    dataPath: string,
    animationPath: Option<string>,
    mapPath: Option<string>)

  datatype AtlasConfig = AtlasConfig(
    maxWidth: int,
    maxHeight: int,
    padding: int,
    allowRotation: bool,
    trimSprites: bool,
    powerOfTwo: bool)

  /** Frame names `string.Format(namePattern, i)` for i from `startFrame` to
      `endFrame`. */
  datatype AnimationPattern = AnimationPattern(namePattern: string, startFrame: int, endFrame: int)

  datatype AnimationConfig = AnimationConfig(
    name: string,
    frames: seq<string>,
    frameDuration: int,
    loop: bool,
    pattern: Option<AnimationPattern>)

  datatype PackerConfig = PackerConfig(
    inputs: seq<InputConfig>,
    output: OutputConfig,
    atlas: AtlasConfig,
    animations: Option<seq<AnimationConfig>>)

  function DefaultOutputConfig(): (c: OutputConfig)
    ensures c.imagePath == "atlas.png" && c.dataPath == "atlas.json"
    ensures c.animationPath.None? && c.mapPath.None?
  {
    OutputConfig("atlas.png", "atlas.json", None, None)
  }

  function DefaultAtlasConfig(): (c: AtlasConfig)
    ensures c.maxWidth == 2048 && c.maxHeight == 2048 && c.padding == 1
    ensures !c.allowRotation && c.trimSprites && c.powerOfTwo
  {
    AtlasConfig(2048, 2048, 1, false, true, true)
  }

  function DefaultAnimationPattern(): (p: AnimationPattern)
    ensures p.namePattern == "" && p.startFrame == 1 && p.endFrame == 1
  {
    AnimationPattern("", 1, 1)
  }

  function DefaultAnimationConfig(): (c: AnimationConfig)
    ensures c.name == "" && c.frames == [] && c.frameDuration == 100 && c.loop && c.pattern.None?
  {
    AnimationConfig("", [], 100, true, None)
  }

  function DefaultPackerConfig(): (c: PackerConfig)
    ensures c.inputs == [] && c.animations.None?
    ensures c.output == DefaultOutputConfig() && c.atlas == DefaultAtlasConfig()
  {
    PackerConfig([], DefaultOutputConfig(), DefaultAtlasConfig(), None)
  }
}
