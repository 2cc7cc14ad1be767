/** The command-line front end's checks on a loaded configuration: the
    validation that decides whether packing starts, and the override that
    moves the output files into a directory given on the command line. */
module PackCommand {
  import opened Common
  import opened PackerConfiguration

  // ---------------------------------------------------------------------------
  // Validation.
  // ---------------------------------------------------------------------------

  /** The problem reported by validation, one per error message. */
  datatype ConfigProblem =
    | NoInputs
    | EmptyInputImagePath
    | EmptyOutputImagePath
    | EmptyOutputDataPath
    | NonPositiveDimensions

  /** Some input has an empty image path. */
  predicate SomeInputWithoutImage(inputs: seq<InputConfig>) {
    exists i :: 0 <= i < |inputs| && inputs[i].imagePath == ""
  }

  /** The first check that fails, in the order the checks run. */
  function FirstProblem(config: PackerConfig): Option<ConfigProblem> {
    if config.inputs == [] then Some(NoInputs)
    else if SomeInputWithoutImage(config.inputs) then Some(EmptyInputImagePath)
    else if config.output.imagePath == "" then Some(EmptyOutputImagePath)
    else if config.output.dataPath == "" then Some(EmptyOutputDataPath)
    else if config.atlas.maxWidth <= 0 || config.atlas.maxHeight <= 0 then Some(NonPositiveDimensions)
    else None
  }

  /** Whether packing may start: no check fails. */
  predicate ValidateConfig(config: PackerConfig) {
    FirstProblem(config).None?
  }

  /** A configuration is valid exactly when it has inputs, every input names
      an image, both output paths are set and both maximum dimensions are
      positive. */
  lemma ValidateConfigExactly(config: PackerConfig)
    ensures ValidateConfig(config) <==>
      |config.inputs| > 0 &&
      (forall i :: 0 <= i < |config.inputs| ==> config.inputs[i].imagePath != "") &&
      config.output.imagePath != "" && config.output.dataPath != "" &&
      config.atlas.maxWidth > 0 && config.atlas.maxHeight > 0
  {
    if forall i :: 0 <= i < |config.inputs| ==> config.inputs[i].imagePath != "" {
      assert !SomeInputWithoutImage(config.inputs);
    }
  }

  /** Each problem is reported exactly when its check fails and every check
      before it passes. */
  lemma FirstProblemOrder(config: PackerConfig)
    ensures FirstProblem(config) == Some(NoInputs) <==> config.inputs == []
    ensures FirstProblem(config) == Some(EmptyInputImagePath) <==>
      config.inputs != [] && exists i :: 0 <= i < |config.inputs| && config.inputs[i].imagePath == ""
    ensures FirstProblem(config) == Some(EmptyOutputImagePath) <==>
      config.inputs != [] && (forall i :: 0 <= i < |config.inputs| ==> config.inputs[i].imagePath != "") &&
      config.output.imagePath == ""
    ensures FirstProblem(config) == Some(EmptyOutputDataPath) <==>
      config.inputs != [] && (forall i :: 0 <= i < |config.inputs| ==> config.inputs[i].imagePath != "") &&
      config.output.imagePath != "" && config.output.dataPath == ""
    ensures FirstProblem(config) == Some(NonPositiveDimensions) <==>
      config.inputs != [] && (forall i :: 0 <= i < |config.inputs| ==> config.inputs[i].imagePath != "") &&
      config.output.imagePath != "" && config.output.dataPath != "" &&
      (config.atlas.maxWidth <= 0 || config.atlas.maxHeight <= 0)
  {
    if forall i :: 0 <= i < |config.inputs| ==> config.inputs[i].imagePath != "" {
      assert !SomeInputWithoutImage(config.inputs);
    }
  }

  /** Padding, rotation, trimming, rounding, the animation list, the optional
      input and output paths are not checked. */
  lemma ValidateConfigIgnores(config: PackerConfig, other: PackerConfig)
    requires |other.inputs| == |config.inputs|
    requires forall i :: 0 <= i < |config.inputs| ==> other.inputs[i].imagePath == config.inputs[i].imagePath
    requires other.output.imagePath == config.output.imagePath && other.output.dataPath == config.output.dataPath
    requires other.atlas.maxWidth == config.atlas.maxWidth && other.atlas.maxHeight == config.atlas.maxHeight
    ensures ValidateConfig(other) <==> ValidateConfig(config)
  {
    ValidateConfigExactly(config);
    ValidateConfigExactly(other);
  }

  /** The default configuration fails only for want of inputs. */
  lemma DefaultConfigNeedsInputs()
    ensures FirstProblem(DefaultPackerConfig()) == Some(NoInputs)
    ensures ValidateConfig(DefaultPackerConfig().(inputs := [InputConfig("hero.png", None, None, None)]))
  {
  }

  // ---------------------------------------------------------------------------
  // Output directory override.
  // ---------------------------------------------------------------------------

  /** `Path.Combine` and `Path.GetFileName`. */
  datatype FileNameOps = FileNameOps(combine: (string, string) -> string, getFileName: string -> string)

  /** `path`'s file name placed under `directory`. */
  function Relocate(directory: string, path: string, ops: FileNameOps): string {
    ops.combine(directory, ops.getFileName(path))
  }

  /** The output paths after moving the image, the data and (when set) the
      animation file into `directory`. */
  function OverrideOutput(output: OutputConfig, directory: string, ops: FileNameOps): OutputConfig {
    output.(
      imagePath := Relocate(directory, output.imagePath, ops),
      dataPath := Relocate(directory, output.dataPath, ops),
      animationPath := if HasText(output.animationPath) then Some(Relocate(directory, output.animationPath.value, ops))
                       else output.animationPath)
  }

  /** A file name that is not empty survives being placed under `directory`
      (as with `Path.Combine` of a directory and a plain file name). */
  ghost predicate KeepsFileNames(directory: string, ops: FileNameOps) {
    forall p :: ops.getFileName(p) != "" ==>
      ops.getFileName(ops.combine(directory, ops.getFileName(p))) == ops.getFileName(p)
  }

  /** Output paths that each end in a file name, as the image, the data and a
      set animation path must for the override to keep them. */
  predicate HasFileNames(output: OutputConfig, ops: FileNameOps) {
    ops.getFileName(output.imagePath) != "" && ops.getFileName(output.dataPath) != "" &&
    (HasText(output.animationPath) ==> ops.getFileName(output.animationPath.value) != "")
  }

  /** For output paths that end in file names, overriding twice is overriding
      once. */
  lemma OverrideOutputIdempotent(output: OutputConfig, directory: string, ops: FileNameOps)
    requires KeepsFileNames(directory, ops)
    requires HasFileNames(output, ops)
    ensures OverrideOutput(OverrideOutput(output, directory, ops), directory, ops) == OverrideOutput(output, directory, ops)
  {
    var once := OverrideOutput(output, directory, ops);
    assert ops.getFileName(once.imagePath) == ops.getFileName(output.imagePath);
    assert ops.getFileName(once.dataPath) == ops.getFileName(output.dataPath);
    if HasText(output.animationPath) {
      assert ops.getFileName(once.animationPath.value) == ops.getFileName(output.animationPath.value);
    }
  }

  /** After the override, validation checks the inputs, the relocated output
      paths and the dimensions; when combining with `directory` never gives an
      empty path (as for a non-empty directory), only the inputs and the
      dimensions remain. */
  lemma OverrideSatisfiesOutputChecks(config: PackerConfig, directory: string, ops: FileNameOps)
    ensures var moved := config.(output := OverrideOutput(config.output, directory, ops));
      ValidateConfig(moved) <==>
        |config.inputs| > 0 &&
        (forall i :: 0 <= i < |config.inputs| ==> config.inputs[i].imagePath != "") &&
        Relocate(directory, config.output.imagePath, ops) != "" &&
        Relocate(directory, config.output.dataPath, ops) != "" &&
        config.atlas.maxWidth > 0 && config.atlas.maxHeight > 0
    ensures (forall name :: ops.combine(directory, name) != "") ==>
      var moved := config.(output := OverrideOutput(config.output, directory, ops));
      ValidateConfig(moved) <==>
        |config.inputs| > 0 &&
        (forall i :: 0 <= i < |config.inputs| ==> config.inputs[i].imagePath != "") &&
        config.atlas.maxWidth > 0 && config.atlas.maxHeight > 0
  {
    ValidateConfigExactly(config.(output := OverrideOutput(config.output, directory, ops)));
  }

  /** The output section of a loaded configuration, whose paths the command
      rewrites in place. */
  class OutputSettings {
    var imagePath: string
    var dataPath: string
    var animationPath: Option<string>
    var mapPath: Option<string>

    function Snapshot(): OutputConfig
      reads this
    {
      OutputConfig(imagePath, dataPath, animationPath, mapPath)
    }

    constructor (output: OutputConfig)
      ensures Snapshot() == output
    {
      imagePath := output.imagePath;
      dataPath := output.dataPath;
      animationPath := output.animationPath;
      mapPath := output.mapPath;
    }

    /** With an output directory given, moves the image, data and (when set)
        animation files into it; without one, changes nothing. */
    method ApplyOutputDirectory(outputDir: Option<string>, ops: FileNameOps)
      modifies this
      ensures outputDir.None? ==> Snapshot() == old(Snapshot())
      ensures outputDir.Some? ==> Snapshot() == OverrideOutput(old(Snapshot()), outputDir.value, ops)
    {
      if outputDir.Some? {
        var outputDirPath := outputDir.value;
        imagePath := ops.combine(outputDirPath, ops.getFileName(imagePath));
        dataPath := ops.combine(outputDirPath, ops.getFileName(dataPath));
        if HasText(animationPath) {
          animationPath := Some(ops.combine(outputDirPath, ops.getFileName(animationPath.value)));
        }
      }
    }
  }
}
