# ofpkg packaging pipeline in Dafny

ofpkg bundles one or more openFrameworks projects into a folder or archive that
builds on its own. For each target project it does four things:

- It copies the project into a staging area under `~/.ofpkg/temp` and points
  `OF_ROOT` in `config.make` at `../../..`.
- It reads the addon references in `addons.make`, one per line.
- It copies every shared addon that is found under `OF_PATH/addons` into the
  project's `local_addons`, then rewrites `addons.make` to name the copies.
  In `--library` mode the addons go into the staged library instead, and the
  manifest is not rewritten.
- At the end it can compress the bundle. It then moves the result to a
  destination computed from `--output`, `--replace` and the target names, and
  removes the staging root.

This project models that pipeline, which is `src/index.js`, and proves
properties about it. The modules are:

- `Strings`: the JavaScript string operations the code relies on: `includes`,
  `indexOf`, `trim` with JavaScript's white-space set, and `split`/`join` on one
  character.
- `Paths`: Node's POSIX `path.join`, `path.basename` and `path.dirname`.
- `Manifest`: `getAddons`, reading `addons.make` into lines.
- `Tree`: the filesystem, as a map from path to `Dir` or `File(text)`, and the
  fs-extra calls as functions from one state to the next: `ensureDirSync`,
  `emptyDirSync`, `copySync` with its filter, `rmSync` and `moveSync`.
- `Resolver`: `processAddons`, turning each manifest line into an addon record,
  and the filter that selects the addons to copy.
- `Rewrite`: the two in-file rewrites of `addons.make` and `config.make`.
- `Output`: target names, `OUTPUT_NAME`, `OUTPUT_PATH`, the staging paths and
  the final move destination.
- `Packager`: a `Disk` class whose one field is the filesystem state. Each of
  the pipeline's helpers is a method on it: `copyTargetDirectory`, `cleanUp`,
  `getAddons`, `processAddons`, `copyAddons`, `updateAddonsMake`,
  `updateConfigMake`, one target's packaging, and the run itself.

Where a description of the tool and the code differ, the model follows the
code:

- `updateAddonsMake` uses the addon's name as the search text, not the
  manifest line.
- It replaces only the first occurrence of each name. If a copied name also
  occurs inside an earlier line, the rewrite hits the wrong line
  (`Rewrite.RewriteCanHitEarlierLine`).
- A target directory that cannot be copied makes the run remove the whole
  staging root, not only that target's part of it.
- Blank lines inside `addons.make` are kept as empty references, and an
  empty or all-white-space manifest gives one empty reference
  (`Manifest.EmptyManifest`). An empty reference is a shared addon named "",
  whose path is the whole `OF_PATH/addons` directory, because `path.join`
  drops the empty segment (`Resolver.BlankLineShared`). When that directory
  exists it is copied into `local_addons`, and since the empty name occurs
  at the start of every text, the manifest rewrite puts `local_addons` in
  front of the first line (`Rewrite.BlankNameRewrite`).
- When compression is on and a skipped target has removed the staging root,
  there is nothing to compress. The model reports `ArchiveFailed`.
- Errors that the code does not catch end the whole run with no clean-up.
  The model reports each as `Fatal` or `Aborted`. These are:
  - the library copy (src/index.js:131) when `OF_PATH` is missing or nested
    with the staged library;
  - a missing `config.make`;
  - an unreadable `addons.make`;
  - a local addon line without `#` or without a name;
  - the final `moveSync` (src/index.js:208): a missing source, a destination
    that is the source or lies inside it, an existing destination that may
    not be overwritten, or a source inside the destination it overwrites.

  `copySync` in `copyAddons` (src/index.js:255) never fails on a missing
  source, because every selected addon's source exists
  (`Resolver.SelectedSourcesExist`). Its refusal of a destination that is the
  source or lies inside it is not modelled (see "Left out").

## Model

| member | source | states |
|---|---|---|
| Strings.IndexFrom | src/index.js:298 | the result is an occurrence at or after the start with none before it; `None` exactly when there is no occurrence |
| Strings.ContainsIff | src/index.js:298 | `includes` holds iff the text occurs at some index |
| Strings.ContainsInfix | src/index.js:208 | text found in a string is also found in any string extending it on both sides |
| Strings.TrimStart | src/index.js:413 | removes exactly the leading JavaScript white space: the result is a suffix, starts with a non-space, and what was dropped is all space |
| Strings.TrimEnd | src/index.js:413 | removes exactly the trailing white space: the result is a prefix, ends with a non-space, and what was dropped is all space |
| Strings.TrimIsInfix | src/index.js:413 | `trim` returns the middle of the text between a leading and a trailing run of white space, and neither end of the result is white space |
| Strings.Split | src/index.js:413 | `split` never returns an empty sequence |
| Strings.SplitPiecesFree | src/index.js:413 | no piece of `split(c)` contains `c` |
| Strings.JoinSplit | src/index.js:413 | joining the pieces of `split(c)` with `c` gives back the text |
| Strings.SplitCount | src/index.js:413 | `split(c)` has one more piece than the text has occurrences of `c` |
| Strings.SplitJoin | src/index.js:413 | splitting the join of pieces that do not contain `c` gives back those pieces |
| Paths.Join | src/index.js:16-17 | `path.join` of two segments: empty segments are dropped, otherwise they are joined by '/', and the result is never empty |
| Paths.StripTrailingSeps | src/index.js:52 | the result is a prefix of the path with no '/' at its end |
| Paths.AfterLastSep | src/index.js:52 | the result is the suffix after the last '/', and it holds no '/' |
| Paths.BasenameHasNoSep | src/index.js:52 | a target's name never contains '/' |
| Paths.BasenameOfJoin | src/index.js:203 | `basename(join(a, b))` is `b` for a one-segment `b` |
| Paths.DirEnd | src/index.js:203 | the scan of `dirname` stops at a '/' at or before the start, or reports that there is none |
| Paths.DirEndSkipsSegment | src/index.js:203 | from inside the last segment, the scan stops at the '/' just before it |
| Paths.DirnameOfJoin | src/index.js:203 | `dirname(join(a, b))` is `a` for a one-segment `b` and an `a` without a trailing '/' |
| Paths.JoinContainsLast | src/index.js:208 | text contained in the last segment is contained in the joined path |
| Manifest.ParseAddons | src/index.js:410-417 | one line per '\n' of the trimmed text plus one; no line holds '\n'; joining the lines with '\n' gives back the trimmed text |
| Manifest.TrimOfTrimmed | src/index.js:413 | text with no white space at either end is left unchanged by `trim` |
| Manifest.ParseJoinRoundTrip | src/index.js:413 | lines written out with '\n' are read back as the same lines, if the text has no white space at its ends |
| Manifest.EmptyManifest | src/index.js:413 | every manifest made only of white space, the empty one included, gives exactly one empty reference |
| Manifest.BlankLineKept | src/index.js:413 | for any two lines `a` and `b` with no space at their outer ends, `a`, a blank line, `b` and any trailing white space read as `[a, "", b]`: the inner blank line stays, trailing space does not |
| Manifest.TrailingSpaceTrimmed | src/index.js:413 | `trim` drops any run of white space after text that ends in a non-space, and nothing more |
| Tree.WithAncestors | src/index.js:373 | afterwards every parent of the path exists; every existing entry keeps its node; nothing is added but parents of the path |
| Tree.EnsureDir | src/index.js:18 | afterwards the directory and all its parents exist; every existing entry keeps its node; nothing is added but it and its parents |
| Tree.RemoveIfPresent | src/index.js:431-435 | afterwards the path is gone; an existing path loses exactly its tree; a missing path changes nothing |
| Tree.RemoveTree | src/index.js:433 | exactly the entries at or inside the path are removed; the others keep their content |
| Tree.KeepsAncestors | src/index.js:131 | if the filter keeps a path, it keeps every directory above it, so filtering path by path never orphans an entry |
| Tree.Copied | src/index.js:377 | `copySync` writes each kept source entry at its rebased path with the same content, and nothing else |
| Tree.CopyTreeKeeps | src/index.js:377 | copying never removes an entry |
| Tree.CopyTreeOutside | src/index.js:377 | copying changes nothing outside the destination tree |
| Tree.CopyTreeCreatesDestination | src/index.js:255 | copying an existing source that the filter keeps creates the destination, with the source's node |
| Tree.StagedCopyContents | src/index.js:367-380 | ensure, empty, then copy: the destination exists; inside it are exactly the kept source entries with their content; everything outside it is unchanged; nothing else is added except its ancestors |
| Tree.CopyTargetDirectory | src/index.js:367-380 | a missing source changes nothing; when the paths are disjoint the state is the staged copy of `Tree.StagedCopyContents` |
| Tree.CopyTreeContent | src/index.js:377 | every entry of the source tree reappears at its rebased path with the same node |
| Tree.CopyTargetDirectoryInside | src/index.js:367-380 | a destination inside a tree `t`: nothing outside `t` changes, and only parents of `t` may be added |
| Tree.RemoveIfPresentInside | src/index.js:431-435 | removing a path inside `t` changes nothing outside `t` |
| Tree.Move | src/index.js:208 | `moveSync` succeeds iff the source exists, neither path lies inside the other, and overwrite is on or the destination is missing; one iff per error: missing source, destination at or inside the source, existing destination with overwrite off; a source inside the destination it overwrites is lost with it (`SourceRemoved`); the other errors change nothing |
| Tree.MovedContents | src/index.js:208 | after a successful move, the destination tree is exactly the rebased source tree with the same nodes; nothing is left inside the source; entries outside both keep their nodes; nothing else appears but the destination's parents |
| Resolver.ProcessAddons | src/index.js:290-336 | one record per line in order, each equal to that line's resolution; a failure is the error of the first line that throws |
| Resolver.ResolveLineShape | src/index.js:290-334 | each record keeps its raw line as `text`; `src` is empty iff the addon was not found; `local` iff the line contains `local_addons` |
| Resolver.ProcessAddonsShape | src/index.js:290-336 | one record per manifest line, `text` being that line, and `src` empty iff not found |
| Resolver.LocalLine | src/index.js:298-310 | a local line is named by the second '/' segment of its trimmed part before '#', and is found iff `<target>/local_addons/<name>` exists, with the local path as source |
| Resolver.LocalLineWithoutUrl | src/index.js:300-302 | a local line without '#' throws, because there is no URL token to trim |
| Resolver.SharedLine | src/index.js:322-328 | any other line is a shared addon named by the whole line, found iff `<OF_PATH>/addons/<name>` exists, and that path is its source |
| Resolver.BlankLineShared | src/index.js:322-328 | a blank line is the shared addon "", found iff `<OF_PATH>/addons` exists, which is then its source |
| Resolver.CopySelection | src/index.js:169 | an addon is selected iff it is in the input, found and not local; the selection is no longer than the input |
| Resolver.CopySelectionAppend | src/index.js:169 | the filter keeps manifest order: filtering two runs of records one after the other is filtering each and concatenating |
| Resolver.CopySelectionSingle | src/index.js:169 | a single record is kept iff it is found and not local |
| Resolver.SelectedSourcesExist | src/index.js:324-327 | every selected addon's source is `<OF_PATH>/addons/<name>` and exists in the state it was resolved against |
| Rewrite.ReplaceFirst | src/index.js:223-227 | text without the pattern is left unchanged |
| Rewrite.ReplaceFirstAt | src/index.js:223-227 | the replacement happens at the first occurrence, and only there |
| Rewrite.ApplyPairsNoMatch | src/index.js:223-227 | if none of the names occurs, the file is unchanged |
| Rewrite.AddonsMakePairs | src/index.js:219-220 | one pair per copied addon, in order: its name, then `local_addons/<name>` |
| Rewrite.BlankNameRewrite | src/index.js:217-227 | a copied addon with the empty name rewrites any manifest to `local_addons` followed by the whole text |
| Rewrite.RewriteCanHitEarlierLine | src/index.js:217-227 | with `ofxGuiExtended` then `ofxGui` copied, the second replacement rewrites the first line again and leaves the `ofxGui` line alone |
| Rewrite.FindValue | src/index.js:241 | the result is the leftmost position where `OF_ROOT = ` starts a line and is followed by a non-empty value; `None` iff there is none |
| Rewrite.LineEnd | src/index.js:241 | the greedy `.+` stops at the first line terminator or at the end of the text |
| Rewrite.ConfigMakeNoMatch | src/index.js:239-243 | without an `OF_ROOT = <value>` line the file is unchanged |
| Rewrite.ConfigMakeReplacesFirstValue | src/index.js:239-243 | exactly the value of the first such line, up to its line terminator, becomes `../../..`; all other text stays |
| Rewrite.ValueStartsAtLocal | src/index.js:241 | whether the pattern matches at a position depends only on the text up to that position |
| Rewrite.ConfigMakeIdempotent | src/index.js:239-243 | rewriting `config.make` twice is the same as rewriting it once |
| Output.MakeTarget | src/index.js:49-61 | an empty argument or "." stands for the working directory; the name is the base name of the path and has no '/' |
| Output.MakeTargets | src/index.js:49-61 | one target per argument, in order |
| Output.OutputNameHasNoSep | src/index.js:69-76 | `OUTPUT_NAME` never holds '/' |
| Output.OutputNameTable | src/index.js:63-76 | the output's base name, plus `-ofpkg` if it exists; else `<target>-ofpkg` for one target, else `ofpkg` |
| Output.OutputPathTable | src/index.js:80-87 | with `--output`, the bundle goes to that path iff it does not exist or `--replace` is set; otherwise it goes inside it, under `OUTPUT_NAME` |
| Output.SuffixContainsDefault | src/index.js:72 | a name ending in `-ofpkg` contains `ofpkg` |
| Output.DefaultNameIsMarked | src/index.js:69-76 | without `--output`, `OUTPUT_NAME` contains `ofpkg` |
| Output.CompressedDestinationAfterCleanUp | src/index.js:201-203 | once `OUTPUT_PATH` is removed, the archive goes to `dirname(OUTPUT_PATH)/<OUTPUT_NAME>.zip` |
| Output.DefaultOutputMayOverwrite | src/index.js:185-208 | without `--output`, the final move always may overwrite |
| Packager.LibraryFilterKeeps | src/index.js:122-131 | the library copy keeps a path iff it contains none of `examples`, `addons`, `apps`, and contains no `projectGenerator` unless `--projgen` is set |
| Packager.CopyAllKeys | src/index.js:249-259 | `copyAddons` removes nothing |
| Packager.CopyAllOutside | src/index.js:249-259 | `copyAddons` leaves every entry outside its destination directory as it was |
| Packager.CopyAllInside | src/index.js:249-259 | with the destination inside a tree `t`, nothing outside `t` changes but `t`'s parents |
| Packager.CopyAllDestinations | src/index.js:249-259 | after `copyAddons`, every addon whose source existed has a copy at `<dest>/<name>` |
| Packager.CopyAllContent | src/index.js:249-259 | the copy of addon `k` at `<dest>/<name>` holds the addon's whole source tree, each entry with its node, when the source and the destination directory are not nested and no later addon's folder is nested with this one |
| Packager.StagingPaths | src/index.js:137-173 | `PROJECT_PATH`, the project's copy and the addons destination all lie inside the bundle's staging directory inside the staging root; in library mode the project sits under the staged library's `apps` |
| Packager.StagedFile | src/index.js:147-162 | after staging, `<out>/<file>` exists iff `<project>/<file>` does, with the same node |
| Packager.TargetSkipped | src/index.js:148-154 | a target is skipped iff its project cannot be copied, and then the staging root is gone |
| Packager.TargetStops | src/index.js:155-165 | a copied target ends the run with a missing `config.make` iff the project has none, with an unreadable `addons.make` iff it has `config.make` but no `addons.make`; the only other failure is a bad local addon line |
| Packager.StagedStops | src/index.js:156-165 | the same two iffs, stated on the staged files |
| Packager.AddonsOutcomes | src/index.js:160-165 | the addon half fails with an unreadable manifest iff no file is at `addons.make`; its only other failure is a bad local line |
| Packager.AddonsPackaged | src/index.js:160-173 | when packaged, the records are the resolution of the lines against the state after `local_addons` was created; the copied addons are the selection, each from its existing `<OF_PATH>/addons/<name>`, and each is at `<dest>/<name>` afterwards |
| Packager.AddonsKeeps | src/index.js:160-179 | the addon half keeps every entry outside the addons destination, the manifest excepted |
| Packager.AddonsManifest | src/index.js:160-179 | the lines are the parsed manifest; afterwards the manifest is unchanged in library mode and holds the rewrite of its text otherwise |
| Packager.AddonsFrame | src/index.js:160-179 | the addon half changes nothing outside a tree that holds the project and the addons destination, but that tree's parents |
| Packager.StagedFrame | src/index.js:156-179 | the same for a staged target, the `config.make` rewrite included |
| Packager.TargetFrame | src/index.js:141-181 | one target changes nothing outside the staging root but the root's parents |
| Packager.StagedConfig | src/index.js:156-158 | afterwards `config.make` holds the rewrite of the staged text |
| Packager.TargetConfig | src/index.js:141-158 | a copied target's staged `config.make` holds the rewrite of the project's own |
| Packager.TargetManifest | src/index.js:141-181 | a packaged target read the project's own `addons.make`; the staged one is that file in library mode and its rewrite otherwise |
| Packager.PackageTargetsResult | src/index.js:141-181 | all targets: a failure is a missing `config.make`, an unreadable `addons.make` or a bad local line; nothing outside the staging root changes but its parents |
| Packager.PublishOutcomes | src/index.js:183-211 | a published bundle is at the final destination and the staging root is gone; a failure is the archive's or the move's, naming the destination; an existing destination is refused only when overwriting is off, and without compression it always is then |
| Packager.PublishedBundle | src/index.js:185-211 | after publishing without compression, the tree at `OUTPUT_PATH`, outside the staging root, is exactly the rebased staging tree, same nodes |
| Packager.PublishArchiveRefused | src/index.js:187-208 | with compression, an existing destination that may not be overwritten is refused as `DestinationExists` |
| Packager.PublishedArchive | src/index.js:187-211 | after publishing an archive, a destination outside the staging root is a file holding the archive; when `OUTPUT_PATH` existed outside the staging directory, nothing is left inside it but the destination and its parents |
| Packager.PackageStepOutcomes | src/index.js:141-211 | from packaging on, an abort is a target's failure, the archive's or the move's; a published bundle is at the final destination with the staging root gone; a refused destination could not be overwritten |
| Packager.StageStepOutcomes | src/index.js:118-211 | in addition, the run aborts for the library iff library mode is on and `OF_PATH` cannot be copied into the staging directory |
| Packager.RunOutcomes | src/index.js:10-213 | no targets aborts; a published destination is the one computed from the flags; the staging root is gone; without `--output` the move is never refused for an existing destination |
| Packager.StagedManifest | src/index.js:147-161 | the staged `addons.make` exists iff the project's own does, and has the same content |
| Packager.Disk.EnsureDir | src/index.js:101 | `ensureDirSync` on the state |
| Packager.Disk.EmptyDir | src/index.js:198 | `emptyDirSync` on the state |
| Packager.Disk.Copy | src/index.js:255 | `copySync` on the state |
| Packager.Disk.Remove | src/index.js:433 | `rmSync` removes the tree at the path |
| Packager.Disk.ReadFile | src/index.js:412 | returns the file's text iff a file is at the path; nothing changes |
| Packager.Disk.WriteFile | src/index.js:267 | the file at the path holds the written text, and nothing else changes |
| Packager.Disk.MoveTo | src/index.js:208 | the new state and the error are those of `Tree.Move` on the old state |
| Packager.Disk.CopyTargetDirectory | src/index.js:367-380 | succeeds iff the source exists and neither path lies inside the other; fails and changes nothing when the source is missing; fails after emptying when one path lies inside the other; otherwise the state is the staged copy |
| Packager.Disk.CleanUp | src/index.js:431-435 | the new state is `Tree.RemoveIfPresent` of the old |
| Packager.Disk.GetAddons | src/index.js:410-417 | succeeds iff a file is at the path, with that file's lines; otherwise reports the unreadable manifest |
| Packager.Disk.ProcessAddons | src/index.js:284-289 | creates `<target>/local_addons`, then resolves every line against the state as it is after that |
| Packager.Disk.CopyAddons | src/index.js:249-259 | returns its input; the state is each addon copied in order to `<dest>/<name>` |
| Packager.Disk.UpdateAddonsMake | src/index.js:217-235 | the manifest holds the rewritten text; if it cannot be read, nothing changes |
| Packager.Disk.UpdateConfigMake | src/index.js:237-247 | succeeds iff the file exists, which then holds the rewritten text; otherwise nothing changes |
| Packager.Disk.PackageTarget | src/index.js:141-181 | the new state and the outcome are those of `TargetStep` on the old state, whose properties `TargetSkipped`, `TargetStops`, `TargetConfig`, `TargetManifest`, `TargetFrame` and, for the addon half, `AddonsPackaged` state |
| Packager.Disk.PackageAddons | src/index.js:160-179 | the new state and the outcome are those of `AddonsStep` (`AddonsOutcomes`, `AddonsPackaged`, `AddonsManifest`, `AddonsKeeps`, `AddonsFrame`) |
| Packager.Disk.Publish | src/index.js:183-211 | the new state and the outcome are those of `PublishStep` (`PublishOutcomes`, `PublishedBundle`, `PublishedArchive`, `PublishArchiveRefused`) |
| Packager.Disk.Run | src/index.js:10-213 | the new state and the outcome are those of `RunStep` on the old state (`RunOutcomes`) |
| Packager.Disk.Stage | src/index.js:118-211 | the new state and the outcome are those of `StageStep` (`StageStepOutcomes`) |
| Packager.Disk.PackageAll | src/index.js:141-181 | the targets loop: the new state and the first failure are those of `PackageTargets`, by a loop invariant over the remaining targets (`PackageTargetsResult`) |

## Left out

- The command line and configuration file are not modelled: `getArgs`, `getConfig`, `check`, `--help`, `--version` and `--verbose`. The parsed flags, the working directory, the home directory and `OF_PATH` are parameters (`Args`, `Context`).
- Console output and colouring are left out, as is `formatBytes` (logging only).
- `panic` and `process.exit` are not used on any path that is modelled.
- `compressDirectory` is left out, because the archive's bytes come from the zip library. The archive is the parameter `archive` of `Run` and `Publish`.
- Streams and the asynchronous `await` are modelled as a step that completes.
- Node's `path.join` normalises `.`, `..` and repeated separators. The model's `Paths.Join` does not, so it agrees with Node only on normalised segments. `path.sep` is '/'.
- Relative paths are not resolved against the working directory (src/index.js:51, 71, 82): a relative target or `--output` is taken as the path string it is.
- Paths are looked up in the filesystem by their exact spelling. A target or `--output` spelled with a trailing '/', a doubled '/' or a '.' segment (src/index.js:51, 71, 82, 148) is treated as missing: such a target is skipped and the staging root removed, and such an `--output` is taken as absent, so it gets no `-ofpkg` suffix. Node finds the directory in each of these cases.
- The filesystem map need not be closed under parents. Type conflicts between a file and a directory at one path are not modelled. Symbolic links and permissions are left out.
- fs-extra's path checks in `copyTargetDirectory` and `moveSync` are modelled by comparing path strings, not file identity.
- `copySync` in `copyAddons` (src/index.js:255) also throws when an addon's destination `<dest>/<name>` is its source or lies inside it. A source that lies inside the destination is copied with no error. The refusal happens when `OF_PATH/addons/<name>` (or `OF_PATH/addons`, for a blank line) is `<dest>/<name>` or one of its parent directories, for example when the home directory, and so the staging root, lies inside it. The model copies anyway.
- Packager.CopyAllContent: requires that the addon's source and the destination directory are not nested, and that no later addon's folder is nested with this one. Without the first, `copySync` throws when the destination lies inside the source, and the source can be written over by the copies when it lies inside the destination directory; without the second, a later copy writes over this one, so no content is promised.
- `moveSync` also creates the destination's parents before it fails on an existing destination. The model changes nothing on failure.
- replace-in-file is not part of this model. It is taken to apply each pair, in order, with `String.prototype.replace`. `$` patterns in the replacement text are not interpreted. For a missing file, `updateAddonsMake` logs the error and `updateConfigMake` throws.
- The commented-out git clone of missing local addons is not code, so it is not modelled.
