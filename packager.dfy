/**
 * The packaging pipeline of `init` (src/index.js:10-213) and its helpers
 * `copyTargetDirectory`, `cleanUp`, `getAddons`, `processAddons`,
 * `copyAddons`, `updateAddonsMake` and `updateConfigMake`, as methods on a
 * filesystem-state object whose one field is the abstract filesystem.
 */
module Packager {
  import opened Wrappers
  import opened Strings
  import opened Paths
  import opened Tree
  import opened Manifest
  import opened Resolver
  import opened Rewrite
  import opened Output

  /** The folders left out when the library itself is staged (src/index.js:122-128). */
  function LibraryAvoid(projgen: bool): seq<string>
  {
    ["examples", "addons", "apps"] + (if projgen then [] else ["projectGenerator"])
  }

  /** The filter passed to `copyTargetDirectory` for the library (src/index.js:131). */
  function LibraryFilter(projgen: bool): CopyFilter
  {
    Avoid(LibraryAvoid(projgen))
  }

  /**
   * The library filter rejects a path that contains `examples`, `addons` or
   * `apps` anywhere in it, and `projectGenerator` unless `--projgen` is set.
   */
  lemma LibraryFilterKeeps(projgen: bool, path: string)
    ensures Keeps(LibraryFilter(projgen), path) <==>
      && !Contains(path, "examples") && !Contains(path, "addons") && !Contains(path, "apps")
      && (projgen || !Contains(path, "projectGenerator"))
  {
    var w := LibraryAvoid(projgen);
    assert w[0] == "examples" && w[1] == "addons" && w[2] == "apps";
    assert !projgen ==> w[3] == "projectGenerator";
  }

  /** The ways a run stops early. */
  datatype Failure =
    | NoTargets
    | SourceNotFound(path: string)
    | ConfigMakeMissing(path: string)
    | ManifestUnreadable(path: string)
    | BadLocalAddon(error: ResolveError)
    | ArchiveFailed(path: string)
    | MoveFailed(reason: MoveError, dest: string)

  /**
   * What became of one target: packaged (with the manifest lines read, the
   * resolved addons and the copied ones), skipped because its directory is
   * missing, or a failure that ends the whole run.
   */
  datatype TargetOutcome =
    | Packaged(lines: seq<string>, resolved: seq<Addon>, copied: seq<Addon>)
    | Skipped
    | Fatal(failure: Failure)

  datatype RunOutcome = Published(dest: string) | Aborted(failure: Failure)

  /** The state one target leaves, and what became of the target. */
  datatype Step = Step(fs: Fs, outcome: TargetOutcome)

  /** The state the targets loop leaves, and the failure that ended it, if any. */
  datatype Progress = Progress(fs: Fs, failure: Option<Failure>)

  /** The state a run leaves, and how it ended. */
  datatype Ended = Ended(fs: Fs, outcome: RunOutcome)

  // ------------------------------------------------------------- copyAddons

  /** The filesystem after `copyAddons` has copied each addon, in order, to `<dest>/<name>`. */
  function CopyAll(fs: Fs, addons: seq<Addon>, dest: string): Fs
    decreases |addons|
  {
    if addons == [] then fs
    else
      var last := addons[|addons| - 1];
      CopyTree(CopyAll(fs, addons[..|addons| - 1], dest), last.src, Join(dest, last.name), KeepAll)
  }

  lemma JoinUnder(a: string, b: string)
    requires a != ""
    ensures Under(Join(a, b), a)
  {
  }

  /** One `copySync` of `copyAddons` creates its destination and loses nothing. */
  lemma CopyStepKeys(g: Fs, src: string, d: string)
    requires src in g
    ensures d in CopyTree(g, src, d, KeepAll)
    ensures forall q :: q in g ==> q in CopyTree(g, src, d, KeepAll)
  {
    CopyTreeCreatesDestination(g, src, d, KeepAll);
    CopyTreeKeeps(g, src, d, KeepAll);
  }

  /** One more addon is one more copy. */
  lemma CopyAllNext(fs: Fs, addons: seq<Addon>, dest: string, i: nat)
    requires i < |addons|
    ensures CopyAll(fs, addons[..i + 1], dest)
      == CopyTree(CopyAll(fs, addons[..i], dest), addons[i].src, Join(dest, addons[i].name), KeepAll)
  {
    assert addons[..i + 1][..i] == addons[..i];
  }

  /** `copyAddons` removes nothing. */
  lemma {:induction false} CopyAllKeys(fs: Fs, addons: seq<Addon>, dest: string)
    ensures forall q :: q in fs ==> q in CopyAll(fs, addons, dest)
    decreases |addons|
  {
    if addons != [] {
      var n := |addons| - 1;
      CopyAllKeys(fs, addons[..n], dest);
      CopyTreeKeeps(CopyAll(fs, addons[..n], dest), addons[n].src, Join(dest, addons[n].name), KeepAll);
    }
  }

  /** `copyAddons` changes no entry outside its destination directory. */
  lemma {:induction false} CopyAllOutside(fs: Fs, addons: seq<Addon>, dest: string)
    requires dest != ""
    ensures forall q :: q in fs && !Under(q, dest) ==>
      q in CopyAll(fs, addons, dest) && CopyAll(fs, addons, dest)[q] == fs[q]
    decreases |addons|
  {
    if addons != [] {
      var n := |addons| - 1;
      CopyAllOutside(fs, addons[..n], dest);
      var g := CopyAll(fs, addons[..n], dest);
      var d := Join(dest, addons[n].name);
      JoinUnder(dest, addons[n].name);
      CopyTreeKeeps(g, addons[n].src, d, KeepAll);
      CopyTreeOutside(g, addons[n].src, d, KeepAll);
      forall q | q in fs && !Under(q, dest)
        ensures !Under(q, d)
      {
        if Under(q, d) {
          UnderTrans(q, d, dest);
        }
      }
    }
  }

  /** `copyAddons` into a directory inside `t` changes nothing outside `t` but `t`'s parents. */
  lemma {:induction false} CopyAllInside(fs: Fs, addons: seq<Addon>, dest: string, t: string)
    requires dest != "" && Under(dest, t)
    ensures SameOutside(fs, CopyAll(fs, addons, dest), t)
    decreases |addons|
  {
    if addons != [] {
      var n := |addons| - 1;
      CopyAllInside(fs, addons[..n], dest, t);
      var g := CopyAll(fs, addons[..n], dest);
      var d := Join(dest, addons[n].name);
      JoinUnder(dest, addons[n].name);
      UnderTrans(d, dest, t);
      CopyTreeInside(g, addons[n].src, d, KeepAll, t);
      SameOutsideTrans(fs, g, CopyAll(fs, addons, dest), t);
    }
  }

  /** After `copyAddons`, every addon whose source existed has a copy at `<dest>/<name>`. */
  lemma {:induction false} CopyAllDestinations(fs: Fs, addons: seq<Addon>, dest: string)
    requires forall k :: 0 <= k < |addons| ==> addons[k].src in fs
    ensures forall k :: 0 <= k < |addons| ==> Join(dest, addons[k].name) in CopyAll(fs, addons, dest)
    decreases |addons|
  {
    if addons != [] {
      var n := |addons| - 1;
      var init := addons[..n];
      CopyAllDestinations(fs, init, dest);
      CopyAllKeys(fs, init, dest);
      var g := CopyAll(fs, init, dest);
      CopyStepKeys(g, addons[n].src, Join(dest, addons[n].name));
      var h := CopyAll(fs, addons, dest);
      assert h == CopyTree(g, addons[n].src, Join(dest, addons[n].name), KeepAll);
      forall k | 0 <= k < |addons|
        ensures Join(dest, addons[k].name) in h
      {
        if k < n {
          assert init[k] == addons[k];
          var j := Join(dest, init[k].name);
          assert j in g;
          assert j in h;
        } else {
          assert k == n;
        }
      }
    }
  }

  /** `r` holds, under `dk`, a copy of the tree `fs` has under `src`. */
  ghost predicate HoldsCopy(fs: Fs, r: Fs, src: string, dk: string)
  {
    forall q :: q in fs && Under(q, src) ==>
      Rebase(q, src, dk) in r && r[Rebase(q, src, dk)] == fs[q]
  }

  /**
   * The copy of addon `k` holds the addon's whole source tree as it was before
   * `copyAddons`, provided the source and the destination directory are not
   * nested and no later addon's folder is nested with addon `k`'s (a later copy would be
   * written over it).
   */
  lemma {:induction false} CopyAllContent(fs: Fs, addons: seq<Addon>, dest: string, k: nat)
    requires dest != "" && k < |addons|
    requires !Under(addons[k].src, dest) && !Under(dest, addons[k].src)
    requires forall j :: k < j < |addons| ==>
      !Under(Join(dest, addons[j].name), Join(dest, addons[k].name)) &&
      !Under(Join(dest, addons[k].name), Join(dest, addons[j].name))
    ensures HoldsCopy(fs, CopyAll(fs, addons, dest), addons[k].src, Join(dest, addons[k].name))
    decreases |addons|, 1
  {
    if k == |addons| - 1 {
      CopyAllLastContent(fs, addons, dest);
    } else {
      CopyAllEarlierContent(fs, addons, dest, k);
    }
  }

  /** The case of the last addon: its copy is the last one made. */
  lemma CopyAllLastContent(fs: Fs, addons: seq<Addon>, dest: string)
    requires dest != "" && addons != []
    requires !Under(addons[|addons| - 1].src, dest) && !Under(dest, addons[|addons| - 1].src)
    ensures HoldsCopy(fs, CopyAll(fs, addons, dest), addons[|addons| - 1].src, Join(dest, addons[|addons| - 1].name))
  {
    var n := |addons| - 1;
    CopyAllOutside(fs, addons[..n], dest);
    ContentOfCopy(fs, CopyAll(fs, addons[..n], dest), addons[n].src, dest, Join(dest, addons[n].name));
  }

  /** The case of an earlier addon: its copy survives the last one. */
  lemma {:induction false} CopyAllEarlierContent(fs: Fs, addons: seq<Addon>, dest: string, k: nat)
    requires dest != "" && k < |addons| - 1
    requires !Under(addons[k].src, dest) && !Under(dest, addons[k].src)
    requires forall j :: k < j < |addons| ==>
      !Under(Join(dest, addons[j].name), Join(dest, addons[k].name)) &&
      !Under(Join(dest, addons[k].name), Join(dest, addons[j].name))
    ensures HoldsCopy(fs, CopyAll(fs, addons, dest), addons[k].src, Join(dest, addons[k].name))
    decreases |addons|, 0
  {
    var n := |addons| - 1;
    var init := addons[..n];
    assert init[k] == addons[k];
    assert forall j :: k < j < |init| ==> init[j] == addons[j];
    CopyAllContent(fs, init, dest, k);
    ContentSurvivesCopy(fs, CopyAll(fs, init, dest), addons[k].src, Join(dest, addons[k].name), addons[n].src, Join(dest, addons[n].name));
  }

  /** Copying a source that lies outside `dest`, into any `dk`, from a state that agrees with `fs` outside `dest`. */
  lemma ContentOfCopy(fs: Fs, g: Fs, src: string, dest: string, dk: string)
    requires !Under(src, dest) && !Under(dest, src)
    requires forall q :: q in fs && !Under(q, dest) ==> q in g && g[q] == fs[q]
    ensures HoldsCopy(fs, CopyTree(g, src, dk, KeepAll), src, dk)
  {
    forall q | q in fs && Under(q, src)
      ensures q in g && g[q] == fs[q]
    {
      if Under(q, dest) {
        if |src| <= |dest| { UnderChain(q, src, dest); } else { UnderChain(q, dest, src); }
      }
    }
    CopyTreeContent(g, src, dk);
  }

  /** A later copy into a folder not nested with `dk` leaves what is inside `dk` alone. */
  lemma ContentSurvivesCopy(fs: Fs, g: Fs, src: string, dk: string, next: string, dn: string)
    requires !Under(dk, dn) && !Under(dn, dk)
    requires HoldsCopy(fs, g, src, dk)
    ensures HoldsCopy(fs, CopyTree(g, next, dn, KeepAll), src, dk)
  {
    CopyTreeOutside(g, next, dn, KeepAll);
    CopyTreeKeeps(g, next, dn, KeepAll);
    forall q | q in fs && Under(q, src)
      ensures !Under(Rebase(q, src, dk), dn)
    {
      var d := Rebase(q, src, dk);
      if Under(d, dn) {
        if |dk| <= |dn| { UnderChain(d, dk, dn); } else { UnderChain(d, dn, dk); }
      }
    }
  }

  // ------------------------------------------------------ paths of one target

  /** `targetOutputPath` (src/index.js:146): the project's staged copy. */
  function TargetOutputPath(library: bool, ctx: Context, outputName: string, target: Target): string
  {
    Join(ProjectPath(library, ctx, outputName), target.name)
  }

  /**
   * Everything one target writes lies inside the staging root: the bundle's
   * staging directory holds `PROJECT_PATH`, which holds the project's copy, and
   * the addons destination; in library mode the project sits under the staged
   * library's `apps`.
   */
  lemma StagingPaths(library: bool, ctx: Context, outputName: string, target: Target)
    ensures var t := TempPath(ctx);
      var top := TempOutputPath(ctx, outputName);
      var out := TargetOutputPath(library, ctx, outputName, target);
      && Under(top, t)
      && Under(ProjectPath(library, ctx, outputName), top)
      && Under(out, ProjectPath(library, ctx, outputName))
      && Under(out, t)
      && Under(AddonsDestination(library, ctx, outputName, out), t)
      && (library ==> Under(out, Join(TempOfPath(ctx, outputName), "apps")))
  {
    var t := TempPath(ctx);
    var top := TempOutputPath(ctx, outputName);
    var lib := TempOfPath(ctx, outputName);
    var project := ProjectPath(library, ctx, outputName);
    var out := TargetOutputPath(library, ctx, outputName, target);
    JoinUnder(t, outputName);
    JoinUnder(project, target.name);
    if library {
      JoinUnder(top, Basename(ctx.ofPath));
      JoinUnder(lib, "apps");
      JoinUnder(Join(lib, "apps"), outputName);
      JoinUnder(lib, "addons");
      UnderTrans(project, Join(lib, "apps"), lib);
      UnderTrans(project, lib, top);
      UnderTrans(out, project, Join(lib, "apps"));
      UnderTrans(Join(lib, "addons"), lib, top);
      UnderTrans(Join(lib, "addons"), top, t);
    } else {
      JoinUnder(out, LocalMarker);
      UnderTrans(Join(out, LocalMarker), out, project);
      UnderTrans(Join(out, LocalMarker), top, t);
    }
    UnderTrans(out, project, top);
    UnderTrans(out, top, t);
  }

  /** A file directly inside the staged project, and the file it is copied from. */
  lemma StagedFile(fs: Fs, src: string, out: string, name: string)
    requires out != "" && name != ""
    requires CanCopy(fs, src, out)
    ensures var d := Join(out, name);
      var staged := StagedCopy(fs, src, out, KeepAll);
      var original := src + "/" + name;
      && d == out + "/" + name
      && (d in staged <==> original in fs) && (d in staged ==> staged[d] == fs[original])
  {
    var d := Join(out, name);
    assert d == out + "/" + name;
    assert d[..|out|] == out;
    assert Origin(d, src, out) == src + "/" + name by {
      assert d[|out|..] == "/" + name;
    }
    StagedCopyContents(fs, src, out, KeepAll);
  }

  /** The two project files, spelled as `StagedFile` builds them. */
  lemma ProjectFiles(src: string)
    ensures src + "/" + "config.make" == src + "/config.make"
    ensures src + "/" + "addons.make" == src + "/addons.make"
  {
  }

  lemma ConfigIsNotManifest(out: string)
    ensures Join(out, "config.make") != Join(out, "addons.make")
  {
    if out != "" {
      assert Join(out, "config.make")[|out| + 1] != Join(out, "addons.make")[|out| + 1];
    } else {
      assert Join(out, "config.make")[0] != Join(out, "addons.make")[0];
    }
  }

  /** The project's two files are too short to lie inside `<out>/local_addons`. */
  lemma FilesBesideLocalAddons(out: string)
    requires out != ""
    ensures !Under(Join(out, "config.make"), Join(out, LocalMarker))
    ensures !Under(Join(out, "addons.make"), Join(out, LocalMarker))
  {
    assert |Join(out, "config.make")| == |out| + 12;
    assert |Join(out, "addons.make")| == |out| + 12;
    assert |Join(out, LocalMarker)| == |out| + 13;
  }

  /** In library mode nothing under the staged `apps` lies inside the staged `addons`. */
  lemma AppsBesideAddons(x: string, lib: string)
    requires lib != "" && Under(x, Join(lib, "apps"))
    ensures !Under(x, Join(lib, "addons"))
  {
    var apps := Join(lib, "apps");
    var addons := Join(lib, "addons");
    assert apps == lib + "/apps" && addons == lib + "/addons";
    assert x[..|apps|] == apps;
    assert x[|lib| + 2] == apps[|lib| + 2] == 'p';
    assert addons[|lib| + 2] == 'd';
  }

  // ------------------------------------------------------------- one target

  /** The state after `updateAddonsMake(copied, path)`; a file that cannot be read is left alone. */
  function AddonsMakeRewritten(fs: Fs, path: string, copied: seq<Addon>): Fs
  {
    if path in fs && fs[path].File? then fs[path := File(RewriteAddonsMake(fs[path].content, copied))] else fs
  }

  /**
   * The addon half of one target (src/index.js:160-179) on the staged project
   * `out`: read `addons.make`, create `local_addons` and resolve the lines
   * against the state after that, copy the shared addons that were found,
   * and outside library mode point `addons.make` at the copies.
   */
  function AddonsStep(fs: Fs, args: Args, ctx: Context, outputName: string, out: string): Step
  {
    var manifestPath := Join(out, "addons.make");
    if !(manifestPath in fs && fs[manifestPath].File?) then Step(fs, Fatal(ManifestUnreadable(manifestPath)))
    else
      var lines := ParseAddons(fs[manifestPath].content);
      var fs1 := Tree.EnsureDir(fs, LocalAddonsDir(out));
      var resolved := Resolver.ProcessAddons(lines, ctx.ofPath, out, fs1);
      if resolved.Failure? then Step(fs1, Fatal(BadLocalAddon(resolved.error)))
      else
        var toCopy := CopySelection(resolved.value);
        var fs2 := CopyAll(fs1, toCopy, AddonsDestination(args.library, ctx, outputName, out));
        Step(if args.library then fs2 else AddonsMakeRewritten(fs2, manifestPath, toCopy),
             Packaged(lines, resolved.value, toCopy))
  }

  /**
   * The body of `TARGETS.forEach` (src/index.js:141-181) for one target. A
   * project directory that cannot be copied is caught: the whole staging root
   * is removed and the target is skipped. A missing `config.make` throws out of
   * `updateConfigMake` and ends the run.
   */
  function TargetStep(fs: Fs, args: Args, ctx: Context, outputName: string, target: Target): Step
  {
    var out := TargetOutputPath(args.library, ctx, outputName, target);
    var copied := Tree.CopyTargetDirectory(fs, target.path, out, KeepAll);
    if !CanCopy(fs, target.path, out) then Step(RemoveIfPresent(copied, TempPath(ctx)), Skipped)
    else StagedStep(copied, args, ctx, outputName, out)
  }

  /**
   * One target once its project is staged at `out` (src/index.js:156-179):
   * rewrite `config.make`, which throws when it is missing, then the addon half.
   */
  function StagedStep(staged: Fs, args: Args, ctx: Context, outputName: string, out: string): Step
  {
    var configPath := Join(out, "config.make");
    if !(configPath in staged && staged[configPath].File?) then Step(staged, Fatal(ConfigMakeMissing(configPath)))
    else AddonsStep(staged[configPath := File(RewriteConfigMake(staged[configPath].content))], args, ctx, outputName, out)
  }

  /** A staged project stops on a missing `config.make` or `addons.make` exactly when it lacks that file. */
  lemma StagedStops(staged: Fs, args: Args, ctx: Context, outputName: string, out: string)
    ensures var s := StagedStep(staged, args, ctx, outputName, out);
      var config := Join(out, "config.make");
      var manifest := Join(out, "addons.make");
      && !s.outcome.Skipped?
      && (s.outcome == Fatal(ConfigMakeMissing(config)) <==> !(config in staged && staged[config].File?))
      && (s.outcome == Fatal(ManifestUnreadable(manifest)) <==>
            config in staged && staged[config].File? && !(manifest in staged && staged[manifest].File?))
      && (s.outcome.Fatal? ==>
            s.outcome.failure.ConfigMakeMissing? || s.outcome.failure.ManifestUnreadable? || s.outcome.failure.BadLocalAddon?)
  {
    var config := Join(out, "config.make");
    if config in staged && staged[config].File? {
      ConfigIsNotManifest(out);
      AddonsOutcomes(staged[config := File(RewriteConfigMake(staged[config].content))], args, ctx, outputName, out);
    }
  }

  /**
   * A target is skipped exactly when its directory is missing or nested with
   * its staging path, and then the staging root is gone.
   */
  lemma TargetSkipped(fs: Fs, args: Args, ctx: Context, outputName: string, target: Target)
    ensures var s := TargetStep(fs, args, ctx, outputName, target);
      && (s.outcome.Skipped? <==> !CanCopy(fs, target.path, TargetOutputPath(args.library, ctx, outputName, target)))
      && (s.outcome.Skipped? ==> TempPath(ctx) !in s.fs)
  {
    var out := TargetOutputPath(args.library, ctx, outputName, target);
    if CanCopy(fs, target.path, out) {
      StagedStops(StagedCopy(fs, target.path, out, KeepAll), args, ctx, outputName, out);
    }
  }

  /**
   * Past the copy, a target stops on a missing `config.make` or `addons.make`
   * exactly when the project lacks that file, and otherwise only on a bad
   * local line.
   */
  lemma TargetStops(fs: Fs, args: Args, ctx: Context, outputName: string, target: Target)
    requires CanCopy(fs, target.path, TargetOutputPath(args.library, ctx, outputName, target))
    ensures var s := TargetStep(fs, args, ctx, outputName, target);
      var out := TargetOutputPath(args.library, ctx, outputName, target);
      var config := target.path + "/config.make";
      var manifest := target.path + "/addons.make";
      && (s.outcome == Fatal(ConfigMakeMissing(Join(out, "config.make"))) <==> !(config in fs && fs[config].File?))
      && (s.outcome == Fatal(ManifestUnreadable(Join(out, "addons.make"))) <==>
            config in fs && fs[config].File? && !(manifest in fs && fs[manifest].File?))
      && (s.outcome.Fatal? ==>
            s.outcome.failure.ConfigMakeMissing? || s.outcome.failure.ManifestUnreadable? || s.outcome.failure.BadLocalAddon?)
  {
    var out := TargetOutputPath(args.library, ctx, outputName, target);
    var staged := StagedCopy(fs, target.path, out, KeepAll);
    assert TargetStep(fs, args, ctx, outputName, target) == StagedStep(staged, args, ctx, outputName, out);
    StagedFile(fs, target.path, out, "config.make");
    StagedFile(fs, target.path, out, "addons.make");
    ProjectFiles(target.path);
    StagedStopsFrom(fs, staged, target.path, args, ctx, outputName, out);
  }

  /** `StagedStops` restated for a staged state whose two files are those of the project `src`. */
  lemma StagedStopsFrom(fs: Fs, staged: Fs, src: string, args: Args, ctx: Context, outputName: string, out: string)
    requires Join(out, "config.make") in staged <==> src + "/config.make" in fs
    requires Join(out, "config.make") in staged ==> staged[Join(out, "config.make")] == fs[src + "/config.make"]
    requires Join(out, "addons.make") in staged <==> src + "/addons.make" in fs
    requires Join(out, "addons.make") in staged ==> staged[Join(out, "addons.make")] == fs[src + "/addons.make"]
    ensures var s := StagedStep(staged, args, ctx, outputName, out);
      var config := src + "/config.make";
      var manifest := src + "/addons.make";
      && (s.outcome == Fatal(ConfigMakeMissing(Join(out, "config.make"))) <==> !(config in fs && fs[config].File?))
      && (s.outcome == Fatal(ManifestUnreadable(Join(out, "addons.make"))) <==>
            config in fs && fs[config].File? && !(manifest in fs && fs[manifest].File?))
      && (s.outcome.Fatal? ==>
            s.outcome.failure.ConfigMakeMissing? || s.outcome.failure.ManifestUnreadable? || s.outcome.failure.BadLocalAddon?)
  {
    StagedStops(staged, args, ctx, outputName, out);
  }

  /** Writing one path leaves every other path as it was. */
  lemma UpdateElsewhere(fs: Fs, p: string, n: Node, q: string)
    requires q != p
    ensures (q in fs[p := n] <==> q in fs) && (q in fs ==> fs[p := n][q] == fs[q])
  {
  }

  /** The addon half stops exactly on an unreadable manifest or a bad local line. */
  lemma AddonsOutcomes(fs: Fs, args: Args, ctx: Context, outputName: string, out: string)
    ensures var s := AddonsStep(fs, args, ctx, outputName, out);
      var manifestPath := Join(out, "addons.make");
      && !s.outcome.Skipped?
      && (s.outcome == Fatal(ManifestUnreadable(manifestPath)) <==> !(manifestPath in fs && fs[manifestPath].File?))
      && (s.outcome.Fatal? ==> s.outcome.failure.ManifestUnreadable? || s.outcome.failure.BadLocalAddon?)
  {
  }

  /** The addon half changes nothing outside a tree that holds the project and the addons destination. */
  lemma AddonsFrame(fs: Fs, args: Args, ctx: Context, outputName: string, out: string, t: string)
    requires out != "" && Under(out, t)
    requires Under(AddonsDestination(args.library, ctx, outputName, out), t)
    ensures SameOutside(fs, AddonsStep(fs, args, ctx, outputName, out).fs, t)
  {
    var manifestPath := Join(out, "addons.make");
    if manifestPath in fs && fs[manifestPath].File? {
      var fs1 := Tree.EnsureDir(fs, LocalAddonsDir(out));
      JoinUnder(out, LocalMarker);
      UnderTrans(LocalAddonsDir(out), out, t);
      EnsureDirInside(fs, LocalAddonsDir(out), t);
      var resolved := Resolver.ProcessAddons(ParseAddons(fs[manifestPath].content), ctx.ofPath, out, fs1);
      if resolved.Success? {
        JoinUnder(out, "addons.make");
        UnderTrans(manifestPath, out, t);
        var toCopy := CopySelection(resolved.value);
        CopyPhaseInside(fs1, toCopy, AddonsDestination(args.library, ctx, outputName, out), manifestPath, args.library, t);
        SameOutsideTrans(fs, fs1, AddonsStep(fs, args, ctx, outputName, out).fs, t);
      }
    }
  }

  /** Copying the addons into `t` and rewriting a manifest inside `t` change nothing outside `t` but its parents. */
  lemma CopyPhaseInside(fs: Fs, toCopy: seq<Addon>, dest: string, manifestPath: string, library: bool, t: string)
    requires dest != "" && Under(dest, t) && Under(manifestPath, t)
    ensures var fs2 := CopyAll(fs, toCopy, dest);
      SameOutside(fs, if library then fs2 else AddonsMakeRewritten(fs2, manifestPath, toCopy), t)
  {
    var fs2 := CopyAll(fs, toCopy, dest);
    CopyAllInside(fs, toCopy, dest, t);
    if !library {
      assert SameOutside(fs2, AddonsMakeRewritten(fs2, manifestPath, toCopy), t);
      SameOutsideTrans(fs, fs2, AddonsMakeRewritten(fs2, manifestPath, toCopy), t);
    }
  }

  /** A staged project's config rewrite and addon half change nothing outside `t` but its parents. */
  lemma StagedFrame(staged: Fs, args: Args, ctx: Context, outputName: string, out: string, t: string)
    requires out != "" && Under(out, t)
    requires Under(AddonsDestination(args.library, ctx, outputName, out), t)
    ensures SameOutside(staged, StagedStep(staged, args, ctx, outputName, out).fs, t)
  {
    var configPath := Join(out, "config.make");
    if configPath in staged && staged[configPath].File? {
      var c := staged[configPath := File(RewriteConfigMake(staged[configPath].content))];
      JoinUnder(out, "config.make");
      UnderTrans(configPath, out, t);
      assert SameOutside(staged, c, t);
      AddonsFrame(c, args, ctx, outputName, out, t);
      SameOutsideTrans(staged, c, AddonsStep(c, args, ctx, outputName, out).fs, t);
    }
  }

  /**
   * One target changes nothing outside the staging root, apart from the
   * staging root's parents.
   */
  lemma TargetFrame(fs: Fs, args: Args, ctx: Context, outputName: string, target: Target)
    ensures SameOutside(fs, TargetStep(fs, args, ctx, outputName, target).fs, TempPath(ctx))
  {
    var t := TempPath(ctx);
    var out := TargetOutputPath(args.library, ctx, outputName, target);
    StagingPaths(args.library, ctx, outputName, target);
    var copied := Tree.CopyTargetDirectory(fs, target.path, out, KeepAll);
    CopyTargetDirectoryInside(fs, target.path, out, KeepAll, t);
    if !CanCopy(fs, target.path, out) {
      RemoveIfPresentInside(copied, t, t);
      SameOutsideTrans(fs, copied, RemoveIfPresent(copied, t), t);
    } else {
      assert TargetStep(fs, args, ctx, outputName, target) == StagedStep(copied, args, ctx, outputName, out);
      StagedFrame(copied, args, ctx, outputName, out, t);
      SameOutsideTrans(fs, copied, StagedStep(copied, args, ctx, outputName, out).fs, t);
    }
  }

  /**
   * A packaged addon half resolved the lines against the state after
   * `local_addons` was created, copied exactly the selected records, each
   * from its existing shared source, and left a copy at `<dest>/<name>` for each.
   */
  lemma AddonsPackaged(fs: Fs, args: Args, ctx: Context, outputName: string, out: string)
    requires AddonsStep(fs, args, ctx, outputName, out).outcome.Packaged?
    ensures var s := AddonsStep(fs, args, ctx, outputName, out);
      var fs1 := Tree.EnsureDir(fs, LocalAddonsDir(out));
      var dest := AddonsDestination(args.library, ctx, outputName, out);
      && Resolver.ProcessAddons(s.outcome.lines, ctx.ofPath, out, fs1) == Success(s.outcome.resolved)
      && s.outcome.copied == CopySelection(s.outcome.resolved)
      && (forall a :: a in s.outcome.copied ==> a.src in fs1 && a.src == SharedAddonPath(ctx.ofPath, a.name))
      && (forall k :: 0 <= k < |s.outcome.copied| ==> Join(dest, s.outcome.copied[k].name) in s.fs)
  {
    var m := Join(out, "addons.make");
    var lines := ParseAddons(fs[m].content);
    var fs1 := Tree.EnsureDir(fs, LocalAddonsDir(out));
    var resolved := Resolver.ProcessAddons(lines, ctx.ofPath, out, fs1);
    var toCopy := CopySelection(resolved.value);
    var dest := AddonsDestination(args.library, ctx, outputName, out);
    var fs2 := CopyAll(fs1, toCopy, dest);
    assert AddonsStep(fs, args, ctx, outputName, out).fs
      == if args.library then fs2 else AddonsMakeRewritten(fs2, m, toCopy);
    SelectedSourcesExist(lines, ctx.ofPath, out, fs1);
    forall k | 0 <= k < |toCopy|
      ensures toCopy[k].src in fs1
    {
      assert toCopy[k] in toCopy;
    }
    CopyAllDestinations(fs1, toCopy, dest);
    RewrittenKeys(fs2, m, toCopy);
  }

  /** Rewriting the manifest keeps every path. */
  lemma RewrittenKeys(fs: Fs, path: string, copied: seq<Addon>)
    ensures forall q :: q in fs ==> q in AddonsMakeRewritten(fs, path, copied)
  {
  }

  /** The addon half keeps every entry outside the addons destination but the manifest. */
  lemma AddonsKeeps(fs: Fs, args: Args, ctx: Context, outputName: string, out: string, p: string)
    requires out != ""
    requires p in fs && p != Join(out, "addons.make") && !Under(p, AddonsDestination(args.library, ctx, outputName, out))
    ensures var r := AddonsStep(fs, args, ctx, outputName, out).fs;
      p in r && r[p] == fs[p]
  {
    var manifestPath := Join(out, "addons.make");
    if manifestPath in fs && fs[manifestPath].File? {
      var fs1 := Tree.EnsureDir(fs, LocalAddonsDir(out));
      var resolved := Resolver.ProcessAddons(ParseAddons(fs[manifestPath].content), ctx.ofPath, out, fs1);
      if resolved.Success? {
        var dest := AddonsDestination(args.library, ctx, outputName, out);
        var toCopy := CopySelection(resolved.value);
        assert p in fs1 && fs1[p] == fs[p];
        CopyPhaseKeeps(fs1, toCopy, dest, manifestPath, args.library, p);
      }
    }
  }

  /** Copying the addons and rewriting the manifest keep every entry outside the destination but the manifest. */
  lemma CopyPhaseKeeps(fs: Fs, toCopy: seq<Addon>, dest: string, manifestPath: string, library: bool, p: string)
    requires dest != "" && p in fs && p != manifestPath && !Under(p, dest)
    ensures var fs2 := CopyAll(fs, toCopy, dest);
      var r := if library then fs2 else AddonsMakeRewritten(fs2, manifestPath, toCopy);
      p in r && r[p] == fs[p]
  {
    CopyAllOutside(fs, toCopy, dest);
  }

  /**
   * A packaged addon half read the manifest as a file and leaves it as it
   * was in library mode and with the copied names rewritten otherwise.
   */
  lemma AddonsManifest(fs: Fs, args: Args, ctx: Context, outputName: string, out: string)
    requires out != ""
    requires !Under(Join(out, "addons.make"), AddonsDestination(args.library, ctx, outputName, out))
    requires AddonsStep(fs, args, ctx, outputName, out).outcome.Packaged?
    ensures var s := AddonsStep(fs, args, ctx, outputName, out);
      var m := Join(out, "addons.make");
      && m in fs && fs[m].File?
      && s.outcome.lines == ParseAddons(fs[m].content)
      && m in s.fs
      && s.fs[m] == (if args.library then fs[m] else File(RewriteAddonsMake(fs[m].content, s.outcome.copied)))
  {
    var m := Join(out, "addons.make");
    var fs1 := Tree.EnsureDir(fs, LocalAddonsDir(out));
    var resolved := Resolver.ProcessAddons(ParseAddons(fs[m].content), ctx.ofPath, out, fs1);
    CopyAllOutside(fs1, CopySelection(resolved.value), AddonsDestination(args.library, ctx, outputName, out));
  }

  /** `AddonsManifest` for a staged project, whose `config.make` rewrite does not touch the manifest. */
  lemma StagedManifest(staged: Fs, args: Args, ctx: Context, outputName: string, out: string)
    requires out != ""
    requires !Under(Join(out, "addons.make"), AddonsDestination(args.library, ctx, outputName, out))
    requires StagedStep(staged, args, ctx, outputName, out).outcome.Packaged?
    ensures var s := StagedStep(staged, args, ctx, outputName, out);
      var m := Join(out, "addons.make");
      && m in staged && staged[m].File?
      && s.outcome.lines == ParseAddons(staged[m].content)
      && m in s.fs
      && s.fs[m] == (if args.library then staged[m] else File(RewriteAddonsMake(staged[m].content, s.outcome.copied)))
  {
    var config := Join(out, "config.make");
    var c := staged[config := File(RewriteConfigMake(staged[config].content))];
    ConfigIsNotManifest(out);
    UpdateElsewhere(staged, config, File(RewriteConfigMake(staged[config].content)), Join(out, "addons.make"));
    AddonsManifest(c, args, ctx, outputName, out);
  }

  /** Neither project file lies inside the addons destination. */
  lemma FilesOutsideAddons(args: Args, ctx: Context, outputName: string, target: Target)
    ensures var out := TargetOutputPath(args.library, ctx, outputName, target);
      var dest := AddonsDestination(args.library, ctx, outputName, out);
      out != "" && !Under(Join(out, "config.make"), dest) && !Under(Join(out, "addons.make"), dest)
  {
    var out := TargetOutputPath(args.library, ctx, outputName, target);
    StagingPaths(args.library, ctx, outputName, target);
    if args.library {
      var apps := Join(TempOfPath(ctx, outputName), "apps");
      JoinUnder(out, "config.make");
      JoinUnder(out, "addons.make");
      UnderTrans(Join(out, "config.make"), out, apps);
      UnderTrans(Join(out, "addons.make"), out, apps);
      AppsBesideAddons(Join(out, "config.make"), TempOfPath(ctx, outputName));
      AppsBesideAddons(Join(out, "addons.make"), TempOfPath(ctx, outputName));
    } else {
      FilesBesideLocalAddons(out);
    }
  }

  /**
   * A packaged target's manifest: the project's own `addons.make` was a file,
   * its lines are the parsed original, and the staged copy is the original
   * in library mode and the original with the copied names rewritten otherwise.
   */
  lemma TargetManifest(fs: Fs, args: Args, ctx: Context, outputName: string, target: Target)
    requires TargetStep(fs, args, ctx, outputName, target).outcome.Packaged?
    ensures var s := TargetStep(fs, args, ctx, outputName, target);
      var out := TargetOutputPath(args.library, ctx, outputName, target);
      var original := target.path + "/addons.make";
      var manifestPath := Join(out, "addons.make");
      && original in fs && fs[original].File?
      && s.outcome.lines == ParseAddons(fs[original].content)
      && manifestPath in s.fs
      && s.fs[manifestPath] == (if args.library then fs[original]
                                else File(RewriteAddonsMake(fs[original].content, s.outcome.copied)))
  {
    var out := TargetOutputPath(args.library, ctx, outputName, target);
    var staged := StagedCopy(fs, target.path, out, KeepAll);
    assert TargetStep(fs, args, ctx, outputName, target) == StagedStep(staged, args, ctx, outputName, out);
    FilesOutsideAddons(args, ctx, outputName, target);
    StagedFile(fs, target.path, out, "addons.make");
    ProjectFiles(target.path);
    StagedManifest(staged, args, ctx, outputName, out);
  }

  /** A staged project with a `config.make` ends with it rewritten, whatever happens to the addons. */
  lemma StagedConfig(staged: Fs, args: Args, ctx: Context, outputName: string, out: string)
    requires out != ""
    requires !Under(Join(out, "config.make"), AddonsDestination(args.library, ctx, outputName, out))
    requires Join(out, "config.make") in staged && staged[Join(out, "config.make")].File?
    ensures var s := StagedStep(staged, args, ctx, outputName, out);
      var config := Join(out, "config.make");
      config in s.fs && s.fs[config] == File(RewriteConfigMake(staged[config].content))
  {
    var config := Join(out, "config.make");
    var c := staged[config := File(RewriteConfigMake(staged[config].content))];
    ConfigIsNotManifest(out);
    AddonsKeeps(c, args, ctx, outputName, out, config);
  }

  /**
   * Past the copy, a project with a `config.make` ends with its staged copy
   * pointing `OF_ROOT` at `../../..`, whatever happens to the addons.
   */
  lemma TargetConfig(fs: Fs, args: Args, ctx: Context, outputName: string, target: Target)
    requires CanCopy(fs, target.path, TargetOutputPath(args.library, ctx, outputName, target))
    requires target.path + "/config.make" in fs && fs[target.path + "/config.make"].File?
    ensures var s := TargetStep(fs, args, ctx, outputName, target);
      var configPath := Join(TargetOutputPath(args.library, ctx, outputName, target), "config.make");
      && configPath in s.fs
      && s.fs[configPath] == File(RewriteConfigMake(fs[target.path + "/config.make"].content))
  {
    var out := TargetOutputPath(args.library, ctx, outputName, target);
    var staged := StagedCopy(fs, target.path, out, KeepAll);
    assert TargetStep(fs, args, ctx, outputName, target) == StagedStep(staged, args, ctx, outputName, out);
    FilesOutsideAddons(args, ctx, outputName, target);
    StagedFile(fs, target.path, out, "config.make");
    ProjectFiles(target.path);
    StagedConfig(staged, args, ctx, outputName, out);
  }

  // ---------------------------------------------------------- the targets loop

  /** `TARGETS.forEach` (src/index.js:141-181): the targets in order; a throw ends the loop at once. */
  function PackageTargets(fs: Fs, args: Args, ctx: Context, outputName: string, targets: seq<Target>): Progress
    decreases |targets|
  {
    if targets == [] then Progress(fs, None)
    else
      var s := TargetStep(fs, args, ctx, outputName, targets[0]);
      if s.outcome.Fatal? then Progress(s.fs, Some(s.outcome.failure))
      else PackageTargets(s.fs, args, ctx, outputName, targets[1..])
  }

  /**
   * The loop stops only on a missing project file or a bad local line, and
   * changes nothing outside the staging root but the staging root's parents.
   */
  lemma {:induction false} PackageTargetsResult(fs: Fs, args: Args, ctx: Context, outputName: string, targets: seq<Target>)
    ensures var p := PackageTargets(fs, args, ctx, outputName, targets);
      && (p.failure.Some? ==>
            p.failure.value.ConfigMakeMissing? || p.failure.value.ManifestUnreadable? || p.failure.value.BadLocalAddon?)
      && SameOutside(fs, p.fs, TempPath(ctx))
    decreases |targets|
  {
    if targets != [] {
      var t := targets[0];
      var s := TargetStep(fs, args, ctx, outputName, t);
      if CanCopy(fs, t.path, TargetOutputPath(args.library, ctx, outputName, t)) {
        TargetStops(fs, args, ctx, outputName, t);
      } else {
        TargetSkipped(fs, args, ctx, outputName, t);
      }
      TargetFrame(fs, args, ctx, outputName, t);
      if !s.outcome.Fatal? {
        PackageTargetsResult(s.fs, args, ctx, outputName, targets[1..]);
        SameOutsideTrans(fs, s.fs, PackageTargets(s.fs, args, ctx, outputName, targets[1..]).fs, TempPath(ctx));
      }
    }
  }

  // ---------------------------------------------------------------- the run

  /**
   * The end of `init` (src/index.js:183-211): compress if asked, move the
   * bundle or the archive to its destination, then remove the staging root.
   * `archive` stands for the bytes the zip library would write; a failed move
   * throws, so the staging root stays.
   */
  function PublishStep(fs: Fs, tempPath: string, tempOutputPath: string, outputPath: string, outputName: string,
                       compress: bool, replace: bool, archive: string): Ended
  {
    if compress && tempOutputPath !in fs then Ended(fs, Aborted(ArchiveFailed(tempOutputPath)))
    else
      var zipPath := ZipPath(tempPath, outputName);
      var before := if compress then RemoveIfPresent(Tree.EmptyDir(fs[zipPath := File(archive)], tempOutputPath), outputPath)
                    else fs;
      var src := if compress then zipPath else tempOutputPath;
      var dst := if compress then CompressedDestination(outputPath, outputPath in before, zipPath) else outputPath;
      var m := Move(before, src, dst, Overwrite(replace, dst));
      if m.error.Some? then Ended(m.fs, Aborted(MoveFailed(m.error.value, dst)))
      else Ended(RemoveIfPresent(m.fs, tempPath), Published(dst))
  }

  /**
   * How publishing ends: a published bundle is at the final destination and the
   * staging root is gone; a failure is the archive's or the move's; the move
   * refuses an existing destination only when it may not overwrite, and (when
   * the source is there and the paths are not nested) always does then.
   */
  lemma PublishOutcomes(fs: Fs, tempPath: string, tempOutputPath: string, outputPath: string, outputName: string,
                        compress: bool, replace: bool, archive: string)
    ensures var e := PublishStep(fs, tempPath, tempOutputPath, outputPath, outputName, compress, replace, archive);
      var dest := FinalDestination(compress, tempPath, outputPath, outputName);
      && (e.outcome.Published? ==> e.outcome.dest == dest && tempPath !in e.fs)
      && (e.outcome.Aborted? ==>
            || (compress && e.outcome.failure == ArchiveFailed(tempOutputPath))
            || (e.outcome.failure.MoveFailed? && e.outcome.failure.dest == dest))
      && (e.outcome == Aborted(MoveFailed(DestinationExists, dest)) ==> !Overwrite(replace, dest))
      && (!compress && tempOutputPath in fs && !Under(outputPath, tempOutputPath) && outputPath in fs
          && !Overwrite(replace, outputPath) ==>
            e.outcome == Aborted(MoveFailed(DestinationExists, outputPath)))
  {
  }

  /** `|<tempPath>/<name>.zip|` exceeds `|<tempPath>/<name>|`, and for a non-empty name it is not inside it. */
  lemma ZipBesideStaging(tempPath: string, outputName: string)
    ensures |ZipPath(tempPath, outputName)| > |Join(tempPath, outputName)|
    ensures outputName != "" ==> ZipPath(tempPath, outputName) == Join(tempPath, outputName) + ".zip"
    ensures outputName != "" ==> !Under(ZipPath(tempPath, outputName), Join(tempPath, outputName))
  {
    if outputName != "" {
      var z := ZipPath(tempPath, outputName);
      var j := Join(tempPath, outputName);
      assert z == j + ".zip";
      assert z[|j|] == '.';
    }
  }

  /**
   * With `--compress`, the overwrite refusal in the other direction: an
   * existing archive destination that neither the emptying of the staging
   * directory nor `cleanUp(OUTPUT_PATH)` removes makes the move fail when it
   * may not overwrite.
   */
  lemma PublishArchiveRefused(fs: Fs, tempPath: string, tempOutputPath: string, outputPath: string, outputName: string,
                              replace: bool, archive: string)
    requires outputName != "" && tempOutputPath == Join(tempPath, outputName) && tempOutputPath in fs
    requires !Under(ZipPath(tempPath, outputName), outputPath)
    requires var dest := FinalDestination(true, tempPath, outputPath, outputName);
      && dest in fs && !Overwrite(replace, dest)
      && !Under(dest, ZipPath(tempPath, outputName)) && !Under(dest, tempOutputPath) && !Under(dest, outputPath)
    ensures PublishStep(fs, tempPath, tempOutputPath, outputPath, outputName, true, replace, archive).outcome
      == Aborted(MoveFailed(DestinationExists, FinalDestination(true, tempPath, outputPath, outputName)))
  {
    ZipBesideStaging(tempPath, outputName);
  }

  /**
   * Without `--compress`, the published destination holds exactly the staged
   * bundle, rebased, except what the removal of the staging root takes.
   */
  lemma PublishedBundle(fs: Fs, tempPath: string, tempOutputPath: string, outputPath: string, outputName: string,
                        replace: bool, archive: string)
    requires PublishStep(fs, tempPath, tempOutputPath, outputPath, outputName, false, replace, archive).outcome.Published?
    ensures var r := PublishStep(fs, tempPath, tempOutputPath, outputPath, outputName, false, replace, archive).fs;
      && (forall d :: Under(d, outputPath) && !Under(d, tempPath) ==>
            (d in r <==> Origin(d, tempOutputPath, outputPath) in fs))
      && (forall d :: Under(d, outputPath) && !Under(d, tempPath) && d in r ==>
            r[d] == fs[Origin(d, tempOutputPath, outputPath)])
      && (!Under(outputPath, tempPath) ==> outputPath in r && r[outputPath] == fs[tempOutputPath])
  {
    MovedContents(fs, tempOutputPath, outputPath, Overwrite(replace, outputPath));
    assert Origin(outputPath, tempOutputPath, outputPath) == tempOutputPath;
  }

  /** The archive written beside the staging directory survives its emptying and `cleanUp(OUTPUT_PATH)`, unless they remove it. */
  lemma ArchiveInPlace(fs: Fs, tempPath: string, tempOutputPath: string, outputPath: string, outputName: string,
                       archive: string)
    requires tempOutputPath == Join(tempPath, outputName)
    ensures var zipPath := ZipPath(tempPath, outputName);
      var before := RemoveIfPresent(Tree.EmptyDir(fs[zipPath := File(archive)], tempOutputPath), outputPath);
      zipPath in before ==> before[zipPath] == File(archive)
  {
    var zipPath := ZipPath(tempPath, outputName);
    var written := fs[zipPath := File(archive)];
    var removed := RemoveTree(written, tempOutputPath);
    var e := Tree.EnsureDir(removed, tempOutputPath);
    ZipBesideStaging(tempPath, outputName);
    if zipPath in RemoveIfPresent(e, outputPath) {
      assert zipPath in e;
      if zipPath in Ancestors(tempOutputPath) {
        AncestorIsAbove(zipPath, tempOutputPath);
      }
    }
  }

  /** When `OUTPUT_PATH` exists outside the staging directory, nothing inside it is left before the move. */
  lemma ArchiveClearsOutput(fs: Fs, tempOutputPath: string, outputPath: string, zipPath: string, archive: string)
    requires outputPath in fs && !Under(outputPath, tempOutputPath)
    ensures var before := RemoveIfPresent(Tree.EmptyDir(fs[zipPath := File(archive)], tempOutputPath), outputPath);
      forall q :: Under(q, outputPath) ==> q !in before
  {
    var e := Tree.EmptyDir(fs[zipPath := File(archive)], tempOutputPath);
    assert outputPath in RemoveTree(fs[zipPath := File(archive)], tempOutputPath);
    assert outputPath in e;
  }

  /**
   * With `--compress`, the published destination is a file holding the
   * archive, and the old bundle at `OUTPUT_PATH` is gone but for the
   * destination and its parents.
   */
  lemma PublishedArchive(fs: Fs, tempPath: string, tempOutputPath: string, outputPath: string, outputName: string,
                         replace: bool, archive: string)
    requires tempOutputPath == Join(tempPath, outputName)
    requires PublishStep(fs, tempPath, tempOutputPath, outputPath, outputName, true, replace, archive).outcome.Published?
    ensures var r := PublishStep(fs, tempPath, tempOutputPath, outputPath, outputName, true, replace, archive).fs;
      var dest := FinalDestination(true, tempPath, outputPath, outputName);
      && (!Under(dest, tempPath) ==> dest in r && r[dest] == File(archive))
      && (outputPath in fs && !Under(outputPath, tempOutputPath) ==>
            forall q :: Under(q, outputPath) && !Under(q, dest) && q !in Ancestors(dest) ==> q !in r)
  {
    var zipPath := ZipPath(tempPath, outputName);
    var before := RemoveIfPresent(Tree.EmptyDir(fs[zipPath := File(archive)], tempOutputPath), outputPath);
    var dest := FinalDestination(true, tempPath, outputPath, outputName);
    assert CompressedDestination(outputPath, outputPath in before, zipPath) == dest;
    var m := Move(before, zipPath, dest, Overwrite(replace, dest));
    assert m.error.None?;
    assert PublishStep(fs, tempPath, tempOutputPath, outputPath, outputName, true, replace, archive).fs
      == RemoveIfPresent(m.fs, tempPath);
    ArchiveInPlace(fs, tempPath, tempOutputPath, outputPath, outputName, archive);
    ArchiveMoved(before, zipPath, dest, Overwrite(replace, dest), tempPath, archive);
    if outputPath in fs && !Under(outputPath, tempOutputPath) {
      ArchiveClearsOutput(fs, tempOutputPath, outputPath, zipPath, archive);
    }
  }

  /** A successful move of the archive puts it at `dest`; everything else after it was there before or is `dest`'s parent. */
  lemma ArchiveMoved(before: Fs, zipPath: string, dest: string, overwrite: bool, tempPath: string, archive: string)
    requires Move(before, zipPath, dest, overwrite).error.None?
    requires zipPath in before ==> before[zipPath] == File(archive)
    ensures var r := RemoveIfPresent(Move(before, zipPath, dest, overwrite).fs, tempPath);
      && (!Under(dest, tempPath) ==> dest in r && r[dest] == File(archive))
      && (forall q :: q in r ==> Under(q, dest) || q in before || q in Ancestors(dest))
  {
    MovedContents(before, zipPath, dest, overwrite);
    assert Origin(dest, zipPath, dest) == zipPath;
  }

  /**
   * `init` from the staging root on (src/index.js:18, 49-211): resolve the
   * targets and the output, stage the library if asked, package every target
   * and publish the result.
   */
  function RunStep(fs: Fs, ctx: Context, args: Args, archive: string): Ended
  {
    var fs0 := Tree.EnsureDir(fs, TempPath(ctx));
    if args.targets.None? then Ended(fs0, Aborted(NoTargets))
    else
      var targets := MakeTargets(args.targets.value, ctx.cwd);
      var outputExists := OutputGiven(args.output) && args.output.value in fs0;
      var outputName := OutputName(args.output, outputExists, targets);
      var outputPath := OutputPath(args.output, outputExists, args.replace, ctx.cwd, outputName);
      StageStep(Tree.EnsureDir(fs0, TempOutputPath(ctx, outputName)), ctx, args, targets, outputName, outputPath, archive)
  }

  /** From the staging directory on (src/index.js:102-211): stage the library in `--library` mode, then package and publish. */
  function StageStep(fs: Fs, ctx: Context, args: Args, targets: seq<Target>, outputName: string, outputPath: string,
                     archive: string): Ended
  {
    var library := TempOfPath(ctx, outputName);
    var staged := if args.library then Tree.CopyTargetDirectory(fs, ctx.ofPath, library, LibraryFilter(args.projgen)) else fs;
    if args.library && !CanCopy(fs, ctx.ofPath, library) then Ended(staged, Aborted(SourceNotFound(ctx.ofPath)))
    else PackageStep(staged, ctx, args, targets, outputName, outputPath, archive)
  }

  /** From the staged library on (src/index.js:141-211): package every target, then publish unless one failed. */
  function PackageStep(fs: Fs, ctx: Context, args: Args, targets: seq<Target>, outputName: string, outputPath: string,
                       archive: string): Ended
  {
    var p := PackageTargets(fs, args, ctx, outputName, targets);
    if p.failure.Some? then Ended(p.fs, Aborted(p.failure.value))
    else PublishStep(p.fs, TempPath(ctx), TempOutputPath(ctx, outputName), outputPath, outputName,
                     args.compress, args.replace, archive)
  }

  /**
   * How packaging and publishing end: a failure is a target's, the archive's
   * or the move's; a published bundle is at the final
   * destination and the staging root is gone; a failed move names the final
   * destination, and refuses an existing one only when it may not overwrite.
   */
  lemma PackageStepOutcomes(fs: Fs, ctx: Context, args: Args, targets: seq<Target>, outputName: string,
                            outputPath: string, archive: string)
    ensures var e := PackageStep(fs, ctx, args, targets, outputName, outputPath, archive);
      var dest := FinalDestination(args.compress, TempPath(ctx), outputPath, outputName);
      && (e.outcome.Aborted? ==>
            || e.outcome.failure.ConfigMakeMissing? || e.outcome.failure.ManifestUnreadable?
            || e.outcome.failure.BadLocalAddon? || e.outcome.failure.ArchiveFailed? || e.outcome.failure.MoveFailed?)
      && (e.outcome.Published? ==> e.outcome.dest == dest && TempPath(ctx) !in e.fs)
      && (e.outcome.Aborted? && e.outcome.failure.MoveFailed? ==> e.outcome.failure.dest == dest)
      && (e.outcome.Aborted? && e.outcome.failure.MoveFailed? && e.outcome.failure.reason == DestinationExists ==>
            !Overwrite(args.replace, dest))
  {
    var p := PackageTargets(fs, args, ctx, outputName, targets);
    PackageTargetsResult(fs, args, ctx, outputName, targets);
    PublishOutcomes(p.fs, TempPath(ctx), TempOutputPath(ctx, outputName), outputPath, outputName,
                    args.compress, args.replace, archive);
  }

  /** Staging the library adds one way to fail, a missing `OF_PATH`, to those of packaging and publishing. */
  lemma StageStepOutcomes(fs: Fs, ctx: Context, args: Args, targets: seq<Target>, outputName: string,
                          outputPath: string, archive: string)
    ensures var e := StageStep(fs, ctx, args, targets, outputName, outputPath, archive);
      var dest := FinalDestination(args.compress, TempPath(ctx), outputPath, outputName);
      && (e.outcome == Aborted(SourceNotFound(ctx.ofPath)) <==> args.library && !CanCopy(fs, ctx.ofPath, TempOfPath(ctx, outputName)))
      && (e.outcome.Published? ==> e.outcome.dest == dest && TempPath(ctx) !in e.fs)
      && (e.outcome.Aborted? && e.outcome.failure.MoveFailed? ==> e.outcome.failure.dest == dest)
      && (e.outcome.Aborted? && e.outcome.failure.MoveFailed? && e.outcome.failure.reason == DestinationExists ==>
            !Overwrite(args.replace, dest))
  {
    var library := TempOfPath(ctx, outputName);
    var staged := if args.library then Tree.CopyTargetDirectory(fs, ctx.ofPath, library, LibraryFilter(args.projgen)) else fs;
    PackageStepOutcomes(staged, ctx, args, targets, outputName, outputPath, archive);
  }

  /**
   * How a run ends: without targets it stops at once; a published bundle is at
   * the final destination and the staging root is gone; the move refuses an
   * existing destination only when it may not overwrite, which never happens
   * without `--output`.
   */
  lemma RunOutcomes(fs: Fs, ctx: Context, args: Args, archive: string)
    ensures var e := RunStep(fs, ctx, args, archive);
      && (args.targets.None? ==> e.outcome == Aborted(NoTargets))
      && (e.outcome.Published? ==> args.targets.Some? && TempPath(ctx) !in e.fs)
      && (args.targets.Some? && e.outcome.Published? ==>
            var fs0 := Tree.EnsureDir(fs, TempPath(ctx));
            var targets := MakeTargets(args.targets.value, ctx.cwd);
            var outputExists := OutputGiven(args.output) && args.output.value in fs0;
            var name := OutputName(args.output, outputExists, targets);
            var path := OutputPath(args.output, outputExists, args.replace, ctx.cwd, name);
            e.outcome.dest == FinalDestination(args.compress, TempPath(ctx), path, name))
      && (e.outcome.Aborted? && e.outcome.failure.MoveFailed? && e.outcome.failure.reason == DestinationExists ==>
            !Overwrite(args.replace, e.outcome.failure.dest))
      && (!OutputGiven(args.output) && e.outcome.Aborted? && e.outcome.failure.MoveFailed? ==>
            e.outcome.failure.reason != DestinationExists)
  {
    if args.targets.Some? {
      var fs0 := Tree.EnsureDir(fs, TempPath(ctx));
      var targets := MakeTargets(args.targets.value, ctx.cwd);
      var outputExists := OutputGiven(args.output) && args.output.value in fs0;
      var name := OutputName(args.output, outputExists, targets);
      var path := OutputPath(args.output, outputExists, args.replace, ctx.cwd, name);
      StageStepOutcomes(Tree.EnsureDir(fs0, TempOutputPath(ctx, name)), ctx, args, targets, name, path, archive);
      if !OutputGiven(args.output) {
        DefaultOutputMayOverwrite(args, ctx, outputExists, targets);
      }
    }
  }

  class Disk {
    var entries: Fs

    constructor (initial: Fs)
      ensures entries == initial
    {
      entries := initial;
    }

    // ---------------------------------------------------------- fs-extra calls

    /** `fs.ensureDirSync(p)`. */
    method EnsureDir(p: string)
      modifies this
      ensures entries == Tree.EnsureDir(old(entries), p)
    {
      entries := Tree.EnsureDir(entries, p);
    }

    /** `fs.emptyDirSync(p)`. */
    method EmptyDir(p: string)
      modifies this
      ensures entries == Tree.EmptyDir(old(entries), p)
    {
      entries := Tree.EmptyDir(entries, p);
    }

    /** `fs.copySync(src, dst, { filter })`; fs-extra throws when `src` is missing, which callers rule out. */
    method Copy(src: string, dst: string, f: CopyFilter)
      requires src in entries
      modifies this
      ensures entries == CopyTree(old(entries), src, dst, f)
    {
      entries := CopyTree(entries, src, dst, f);
    }

    /** `fs.rmSync(p, { recursive: true })`; it throws when `p` is missing, which callers rule out. */
    method Remove(p: string)
      requires p in entries
      modifies this
      ensures entries == RemoveTree(old(entries), p)
    {
      entries := RemoveTree(entries, p);
    }

    /** `fs.readFileSync(p)`: the file's text, or `None` when there is no file at `p`. */
    method ReadFile(p: string) returns (r: Option<string>)
      ensures r.Some? <==> p in entries && entries[p].File?
      ensures r.Some? ==> r.value == entries[p].content
    {
      if p in entries && entries[p].File? {
        r := Some(entries[p].content);
      } else {
        r := None;
      }
    }

    /** Writing a whole file. */
    method WriteFile(p: string, text: string)
      modifies this
      ensures entries == old(entries)[p := File(text)]
    {
      entries := entries[p := File(text)];
    }

    /** `fs.moveSync(src, dst, { overwrite })`: the error it throws, if any, and the state it leaves. */
    method MoveTo(src: string, dst: string, overwrite: bool) returns (r: Option<MoveError>)
      modifies this
      ensures Move(old(entries), src, dst, overwrite) == MoveResult(entries, r)
    {
      var m := Move(entries, src, dst, overwrite);
      entries := m.fs;
      r := m.error;
    }

    // ---------------------------------------------------- the pipeline's helpers

    /**
     * `copyTargetDirectory(src, dst, opts)`: throws (here: `ok` is false) when
     * the source is missing or the paths are nested, and leaves the state
     * `Tree.CopyTargetDirectory` describes.
     */
    method CopyTargetDirectory(src: string, dst: string, f: CopyFilter) returns (ok: bool)
      modifies this
      ensures ok == CanCopy(old(entries), src, dst)
      ensures entries == Tree.CopyTargetDirectory(old(entries), src, dst, f)
    {
      if src !in entries {
        return false;
      }
      EnsureDir(dst);
      EmptyDir(dst);
      if Under(src, dst) || Under(dst, src) {
        return false;
      }
      Copy(src, dst, f);
      return true;
    }

    /** `cleanUp(p)`: remove `p` with everything inside it, if it exists. */
    method CleanUp(p: string)
      modifies this
      ensures entries == RemoveIfPresent(old(entries), p)
    {
      if p in entries {
        Remove(p);
      }
    }

    /**
     * `getAddons(path)`: the trimmed text of the manifest split on '\n'. A
     * missing manifest makes `check` hand back the error object, whose `trim`
     * then throws; here that is a failure.
     */
    method GetAddons(path: string) returns (r: Result<seq<string>, Failure>)
      ensures r.Success? <==> path in entries && entries[path].File?
      ensures r.Success? ==> r.value == ParseAddons(entries[path].content)
      ensures r.Failure? ==> r.error == ManifestUnreadable(path)
    {
      var text := ReadFile(path);
      if text.None? {
        return Failure(ManifestUnreadable(path));
      }
      return Success(ParseAddons(text.value));
    }

    /**
     * `processAddons(addons, targetPath)`: create `<target>/local_addons`, then
     * resolve every line against the filesystem as it is after that.
     */
    method ProcessAddons(lines: seq<string>, targetPath: string, ofPath: string)
      returns (r: Result<seq<Addon>, ResolveError>)
      modifies this
      ensures entries == Tree.EnsureDir(old(entries), LocalAddonsDir(targetPath))
      ensures r == Resolver.ProcessAddons(lines, ofPath, targetPath, entries)
    {
      EnsureDir(LocalAddonsDir(targetPath));
      r := Resolver.ProcessAddons(lines, ofPath, targetPath, entries);
    }

    /** `copyAddons(addonsToCopy, dest)`: copy each addon, in order, to `<dest>/<name>`. */
    method CopyAddons(addons: seq<Addon>, dest: string) returns (copied: seq<Addon>)
      requires forall a :: a in addons ==> a.src in entries
      modifies this
      ensures copied == addons
      ensures entries == CopyAll(old(entries), addons, dest)
    {
      var i := 0;
      while i < |addons|
        invariant 0 <= i <= |addons|
        invariant entries == CopyAll(old(entries), addons[..i], dest)
        invariant forall a :: a in addons ==> a.src in entries
      {
        var a := addons[i];
        CopyTreeKeeps(entries, a.src, Join(dest, a.name), KeepAll);
        CopyAllNext(old(entries), addons, dest, i);
        Copy(a.src, Join(dest, a.name), KeepAll);
        i := i + 1;
      }
      assert addons[..|addons|] == addons;
      copied := addons;
    }

    /**
     * `updateAddonsMake(copiedAddons, path)`: replace each copied addon's name
     * by `local_addons/<name>`. When the file cannot be rewritten the error is
     * logged and nothing changes.
     */
    method UpdateAddonsMake(copied: seq<Addon>, path: string)
      modifies this
      ensures path in old(entries) && old(entries)[path].File? ==>
        entries == old(entries)[path := File(RewriteAddonsMake(old(entries)[path].content, copied))]
      ensures !(path in old(entries) && old(entries)[path].File?) ==> entries == old(entries)
    {
      var text := ReadFile(path);
      if text.Some? {
        WriteFile(path, RewriteAddonsMake(text.value, copied));
      }
    }

    /**
     * `updateConfigMake(path)`: point `OF_ROOT` at `../../..`. The call is not
     * guarded, so a missing file (which replace-in-file reports by throwing)
     * ends the run; here `ok` is false.
     */
    method UpdateConfigMake(path: string) returns (ok: bool)
      modifies this
      ensures ok <==> path in old(entries) && old(entries)[path].File?
      ensures ok ==> entries == old(entries)[path := File(RewriteConfigMake(old(entries)[path].content))]
      ensures !ok ==> entries == old(entries)
    {
      var text := ReadFile(path);
      if text.None? {
        return false;
      }
      WriteFile(path, RewriteConfigMake(text.value));
      return true;
    }

    // ------------------------------------------------------------- one target

    /** One pass of `TARGETS.forEach` (src/index.js:141-181), as `TargetStep` describes it. */
    method PackageTarget(ctx: Context, args: Args, outputName: string, target: Target)
      returns (r: TargetOutcome)
      modifies this
      ensures TargetStep(old(entries), args, ctx, outputName, target) == Step(entries, r)
    {
      var out := TargetOutputPath(args.library, ctx, outputName, target);
      var ok := CopyTargetDirectory(target.path, out, KeepAll);
      if !ok {
        CleanUp(TempPath(ctx));
        return Skipped;
      }
      var configMakePath := Join(out, "config.make");
      var configOk := UpdateConfigMake(configMakePath);
      if !configOk {
        return Fatal(ConfigMakeMissing(configMakePath));
      }
      r := PackageAddons(ctx, args, outputName, out);
    }

    /** The addon half of one target (src/index.js:160-179), as `AddonsStep` describes it. */
    method PackageAddons(ctx: Context, args: Args, outputName: string, out: string)
      returns (r: TargetOutcome)
      modifies this
      ensures AddonsStep(old(entries), args, ctx, outputName, out) == Step(entries, r)
    {
      var manifestPath := Join(out, "addons.make");
      var lines := GetAddons(manifestPath);
      if lines.Failure? {
        return Fatal(lines.error);
      }
      var resolved := ProcessAddons(lines.value, out, ctx.ofPath);
      if resolved.Failure? {
        return Fatal(BadLocalAddon(resolved.error));
      }
      var toCopy := CopySelection(resolved.value);
      SelectedSourcesExist(lines.value, ctx.ofPath, out, entries);
      var copied := CopyAddons(toCopy, AddonsDestination(args.library, ctx, outputName, out));
      if !args.library {
        UpdateAddonsMake(copied, manifestPath);
      }
      return Packaged(lines.value, resolved.value, copied);
    }

    // ---------------------------------------------------------------- the run

    /** The end of `init` (src/index.js:183-211), as `PublishStep` describes it. */
    method Publish(tempPath: string, tempOutputPath: string, outputPath: string, outputName: string,
                   compress: bool, replace: bool, archive: string) returns (r: RunOutcome)
      modifies this
      ensures PublishStep(old(entries), tempPath, tempOutputPath, outputPath, outputName, compress, replace, archive)
        == Ended(entries, r)
    {
      var moveSrc := tempOutputPath;
      var moveDest := outputPath;
      if compress {
        if tempOutputPath !in entries {
          return Aborted(ArchiveFailed(tempOutputPath));
        }
        var zipPath := ZipPath(tempPath, outputName);
        WriteFile(zipPath, archive);
        EmptyDir(tempOutputPath);
        moveSrc := zipPath;
        CleanUp(moveDest);
        moveDest := CompressedDestination(moveDest, moveDest in entries, zipPath);
      }
      var failed := MoveTo(moveSrc, moveDest, Overwrite(replace, moveDest));
      if failed.Some? {
        return Aborted(MoveFailed(failed.value, moveDest));
      }
      CleanUp(tempPath);
      return Published(moveDest);
    }

    /** `init` from the staging root on (src/index.js:18, 49-211), as `RunStep` describes it. */
    method Run(ctx: Context, args: Args, archive: string) returns (r: RunOutcome)
      modifies this
      ensures RunStep(old(entries), ctx, args, archive) == Ended(entries, r)
    {
      EnsureDir(TempPath(ctx));
      if args.targets.None? {
        return Aborted(NoTargets);
      }
      var targets := MakeTargets(args.targets.value, ctx.cwd);
      var outputExists := OutputGiven(args.output) && args.output.value in entries;
      var outputName := OutputName(args.output, outputExists, targets);
      var outputPath := OutputPath(args.output, outputExists, args.replace, ctx.cwd, outputName);
      EnsureDir(TempOutputPath(ctx, outputName));
      r := Stage(ctx, args, targets, outputName, outputPath, archive);
    }

    /** Stage the library if asked, then package and publish, as `StageStep` describes it. */
    method Stage(ctx: Context, args: Args, targets: seq<Target>, outputName: string, outputPath: string,
                 archive: string) returns (r: RunOutcome)
      modifies this
      ensures StageStep(old(entries), ctx, args, targets, outputName, outputPath, archive) == Ended(entries, r)
    {
      if args.library {
        var ok := CopyTargetDirectory(ctx.ofPath, TempOfPath(ctx, outputName), LibraryFilter(args.projgen));
        if !ok {
          return Aborted(SourceNotFound(ctx.ofPath));
        }
      }
      var failure := PackageAll(ctx, args, outputName, targets);
      if failure.Some? {
        return Aborted(failure.value);
      }
      r := Publish(TempPath(ctx), TempOutputPath(ctx, outputName), outputPath, outputName, args.compress, args.replace, archive);
    }

    /** The `targets.forEach` loop (src/index.js:141-181), stopping at the first fatal failure. */
    method PackageAll(ctx: Context, args: Args, outputName: string, targets: seq<Target>) returns (failure: Option<Failure>)
      modifies this
      ensures PackageTargets(old(entries), args, ctx, outputName, targets) == Progress(entries, failure)
    {
      ghost var staged := entries;
      var i := 0;
      while i < |targets|
        invariant 0 <= i <= |targets|
        invariant PackageTargets(staged, args, ctx, outputName, targets) == PackageTargets(entries, args, ctx, outputName, targets[i..])
      {
        var step := PackageTarget(ctx, args, outputName, targets[i]);
        assert targets[i..][0] == targets[i] && targets[i..][1..] == targets[i + 1..];
        if step.Fatal? {
          return Some(step.failure);
        }
        i := i + 1;
      }
      return None;
    }
  }
}
