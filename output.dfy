/**
 * The output decisions of `init` (src/index.js:49-87, 137-139, 170-173,
 * 185-208, 266): which targets are packaged under which names, where the
 * bundle goes, and whether the final move may overwrite.
 */
module Output {
  import opened Wrappers
  import opened Strings
  import opened Paths

  /** One project to package: its path and its display name. */
  datatype Target = Target(path: string, name: string)

  /** The command-line flags the pipeline reads; `output` is `None` when `--output` is absent or has no value. */
  datatype Args = Args(
    targets: Option<seq<string>>,
    library: bool,
    projgen: bool,
    output: Option<string>,
    compress: bool,
    replace: bool)

  /** The working directory, the home directory, and `OF_PATH` from the configuration file. */
  datatype Context = Context(cwd: string, home: string, ofPath: string)

  /** `~/.ofpkg/temp`, the staging root. */
  function TempPath(ctx: Context): string
  {
    Join(Join(ctx.home, ".ofpkg"), "temp")
  }

  /** The callback of `ARGS.targets.map`: an empty argument or "." stands for the working directory. */
  function MakeTarget(arg: string, cwd: string): (t: Target)
    ensures t.path == (if arg == "" || arg == "." then cwd else arg)
    ensures t.name == Basename(t.path)
    ensures Sep !in t.name
  {
    var path := if arg != "" && arg != "." then arg else cwd;
    Target(path, Basename(path))
  }

  function MakeTargets(args: seq<string>, cwd: string): (ts: seq<Target>)
    ensures |ts| == |args|
    ensures forall k :: 0 <= k < |args| ==> ts[k] == MakeTarget(args[k], cwd)
  {
    seq(|args|, k requires 0 <= k < |args| => MakeTarget(args[k], cwd))
  }

  /** JavaScript truthiness of `ARGS.output`. */
  predicate OutputGiven(output: Option<string>)
  {
    output.Some? && output.value != ""
  }

  const Suffix: string := "-ofpkg"
  const DefaultName: string := "ofpkg"

  /** `OUTPUT_NAME` (src/index.js:69-76). */
  function OutputName(output: Option<string>, outputExists: bool, targets: seq<Target>): string
  {
    if OutputGiven(output) then
      (if outputExists then Basename(output.value) + Suffix else Basename(output.value))
    else if |targets| == 1 then targets[0].name + Suffix
    else DefaultName
  }

  /** `OUTPUT_PATH` (src/index.js:80-87). */
  function OutputPath(output: Option<string>, outputExists: bool, replace: bool, cwd: string, outputName: string): string
  {
    if OutputGiven(output) then
      (if outputExists then (if replace then output.value else Join(output.value, outputName)) else output.value)
    else Join(cwd, outputName)
  }

  /** `OUTPUT_NAME` never holds a separator. */
  lemma OutputNameHasNoSep(output: Option<string>, outputExists: bool, targets: seq<Target>)
    requires forall k :: 0 <= k < |targets| ==> Sep !in targets[k].name
    ensures Sep !in OutputName(output, outputExists, targets)
  {
    if OutputGiven(output) {
      BasenameHasNoSep(output.value);
    }
  }

  /**
   * The name table: the output's base name, with `-ofpkg` added when the
   * output already exists; otherwise `<target>-ofpkg` for a single target and
   * `ofpkg` for several (or none).
   */
  lemma OutputNameTable(output: Option<string>, outputExists: bool, targets: seq<Target>)
    ensures var n := OutputName(output, outputExists, targets);
      && (OutputGiven(output) && outputExists ==> n == Basename(output.value) + Suffix)
      && (OutputGiven(output) && !outputExists ==> n == Basename(output.value))
      && (!OutputGiven(output) && |targets| == 1 ==> n == targets[0].name + Suffix)
      && (!OutputGiven(output) && |targets| != 1 ==> n == DefaultName)
  {
  }

  /**
   * Given an output, the bundle goes exactly at that path unless it exists and
   * `--replace` is off, in which case it goes inside it under `OUTPUT_NAME`.
   */
  lemma OutputPathTable(output: Option<string>, outputExists: bool, replace: bool, cwd: string, name: string)
    requires OutputGiven(output) && name != ""
    ensures OutputPath(output, outputExists, replace, cwd, name) == output.value <==> !outputExists || replace
    ensures outputExists && !replace ==> OutputPath(output, outputExists, replace, cwd, name) == output.value + [Sep] + name
  {
    if outputExists && !replace {
      var p := Join(output.value, name);
      assert |p| > |output.value|;
    }
  }

  /** Text ending in `ofpkg` stays marked as the tool's own when placed under any directory. */
  lemma SuffixContainsDefault(prefix: string)
    ensures Contains(prefix + Suffix, DefaultName)
  {
    ContainsWitness(Suffix, DefaultName, 1);
    assert Suffix[1..1 + |DefaultName|] == DefaultName;
    ContainsLeft(prefix, Suffix, DefaultName);
  }

  /** Without `--output`, the bundle's name is marked with `ofpkg`. */
  lemma DefaultNameIsMarked(output: Option<string>, outputExists: bool, targets: seq<Target>)
    requires !OutputGiven(output)
    ensures Contains(OutputName(output, outputExists, targets), DefaultName)
  {
    if |targets| == 1 {
      SuffixContainsDefault(targets[0].name);
    } else {
      ContainsWitness(DefaultName, DefaultName, 0);
    }
  }

  /** `TEMP_OUTPUT_PATH`: the staging directory of this bundle. */
  function TempOutputPath(ctx: Context, outputName: string): string
  {
    Join(TempPath(ctx), outputName)
  }

  /** `TEMP_OF_PATH`: where the library is staged in `--library` mode. */
  function TempOfPath(ctx: Context, outputName: string): string
  {
    Join(TempOutputPath(ctx, outputName), Basename(ctx.ofPath))
  }

  /** `PROJECT_PATH` (src/index.js:137-139): projects go under the staged library's `apps` in library mode. */
  function ProjectPath(library: bool, ctx: Context, outputName: string): string
  {
    if library then Join(Join(TempOfPath(ctx, outputName), "apps"), outputName)
    else TempOutputPath(ctx, outputName)
  }

  /** The directory shared addons are copied into (src/index.js:170-173). */
  function AddonsDestination(library: bool, ctx: Context, outputName: string, targetOutputPath: string): string
  {
    if library then Join(TempOfPath(ctx, outputName), "addons")
    else Join(targetOutputPath, "local_addons")
  }

  /** The archive `compressDirectory` writes (src/index.js:266). */
  function ZipPath(tempPath: string, outputName: string): string
  {
    Join(tempPath, outputName + ".zip")
  }

  /** `moveDest` after compression (src/index.js:203), given whether `OUTPUT_PATH` still exists. */
  function CompressedDestination(outputPath: string, stillExists: bool, zipPath: string): string
  {
    Join(if stillExists then outputPath else Dirname(outputPath), Basename(zipPath))
  }

  /** The `overwrite` option of the final move (src/index.js:208). */
  predicate Overwrite(replace: bool, moveDest: string)
  {
    replace || Contains(moveDest, DefaultName)
  }

  /**
   * Once `cleanUp(OUTPUT_PATH)` has run, the archive goes next to where the
   * bundle would have gone: `dirname(OUTPUT_PATH)/<OUTPUT_NAME>.zip`.
   */
  lemma CompressedDestinationAfterCleanUp(outputPath: string, tempPath: string, outputName: string)
    requires Sep !in outputName
    ensures CompressedDestination(outputPath, false, ZipPath(tempPath, outputName))
      == Join(Dirname(outputPath), outputName + ".zip")
  {
    assert Sep !in outputName + ".zip";
    BasenameOfJoin(tempPath, outputName + ".zip");
  }

  /** The final destination of the move (src/index.js:185-203), `OUTPUT_PATH` being gone when compressing. */
  function FinalDestination(compress: bool, tempPath: string, outputPath: string, outputName: string): string
  {
    if compress then CompressedDestination(outputPath, false, ZipPath(tempPath, outputName))
    else outputPath
  }

  /** Without `--output`, the final destination carries `ofpkg`, so the move always may overwrite. */
  lemma DefaultOutputMayOverwrite(args: Args, ctx: Context, outputExists: bool, targets: seq<Target>)
    requires !OutputGiven(args.output)
    requires forall k :: 0 <= k < |targets| ==> Sep !in targets[k].name
    ensures var name := OutputName(args.output, outputExists, targets);
      var path := OutputPath(args.output, outputExists, args.replace, ctx.cwd, name);
      Overwrite(args.replace, FinalDestination(args.compress, TempPath(ctx), path, name))
  {
    var name := OutputName(args.output, outputExists, targets);
    var path := OutputPath(args.output, outputExists, args.replace, ctx.cwd, name);
    DefaultNameIsMarked(args.output, outputExists, targets);
    if args.compress {
      OutputNameHasNoSep(args.output, outputExists, targets);
      CompressedDestinationAfterCleanUp(path, TempPath(ctx), name);
      ContainsRight(name, ".zip", DefaultName);
      JoinContainsLast(Dirname(path), name + ".zip", DefaultName);
    } else {
      JoinContainsLast(ctx.cwd, name, DefaultName);
    }
  }
}
