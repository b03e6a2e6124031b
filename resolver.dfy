/**
 * The addon resolver, `processAddons` (src/index.js:284-365): each manifest
 * line becomes an addon record saying where the addon comes from and whether
 * it was found, by existence queries against the filesystem.
 */
module Resolver {
  import opened Wrappers
  import opened Strings
  import opened Paths
  import opened Tree

  /** The record built for one manifest line. */
  datatype Addon = Addon(name: string, found: bool, src: string, local: bool, text: string)

  /**
   * The two ways a local line throws: without '#', `tokens[1]` is undefined and
   * cannot be trimmed; with a local path of one segment, the name is undefined
   * and `path.join` refuses it.
   */
  datatype ResolveError = MissingUrl(line: string) | MissingName(line: string)

  const LocalMarker: string := "local_addons"

  /** `<targetPath>/local_addons`, where local addons already copied along with the project live. */
  function LocalAddonsDir(targetPath: string): string
  {
    Join(targetPath, LocalMarker)
  }

  /** `<OF_PATH>/addons/<name>`. */
  function SharedAddonPath(ofPath: string, name: string): string
  {
    Join(Join(ofPath, "addons"), name)
  }

  /** The callback of `addons.map` for one line. */
  function ResolveLine(line: string, ofPath: string, targetPath: string, fs: Fs): Result<Addon, ResolveError>
  {
    if Contains(line, LocalMarker) then
      var tokens := Split(line, '#');
      if |tokens| < 2 then Failure(MissingUrl(line))
      else
        var localPath := Trim(tokens[0]);
        var segments := Split(localPath, Sep);
        if |segments| < 2 then Failure(MissingName(line))
        else
          var name := segments[1];
          var found := Join(LocalAddonsDir(targetPath), name) in fs;
          Success(Addon(name, found, if found then localPath else "", true, line))
    else
      var path := SharedAddonPath(ofPath, line);
      var found := path in fs;
      Success(Addon(line, found, if found then path else "", false, line))
  }

  /** `addons.map(...)`: the results in order, or the error of the first line that throws. */
  function ProcessAddons(lines: seq<string>, ofPath: string, targetPath: string, fs: Fs): (r: Result<seq<Addon>, ResolveError>)
    ensures r.Success? ==> |r.value| == |lines|
    ensures r.Success? ==> forall k :: 0 <= k < |lines| ==> ResolveLine(lines[k], ofPath, targetPath, fs) == Success(r.value[k])
    ensures r.Failure? ==> exists k ::
              && 0 <= k < |lines|
              && ResolveLine(lines[k], ofPath, targetPath, fs) == Failure(r.error)
              && forall j :: 0 <= j < k ==> ResolveLine(lines[j], ofPath, targetPath, fs).Success?
    decreases |lines|
  {
    if lines == [] then Success([])
    else
      match ResolveLine(lines[0], ofPath, targetPath, fs)
      case Failure(e) => Failure(e)
      case Success(a) =>
        match ProcessAddons(lines[1..], ofPath, targetPath, fs)
        case Failure(e) => Failure(e)
        case Success(rest) => Success([a] + rest)
  }

  /** Every line becomes a record that keeps the raw line, and `src` is empty exactly when the addon was not found. */
  lemma ResolveLineShape(line: string, ofPath: string, targetPath: string, fs: Fs)
    requires ResolveLine(line, ofPath, targetPath, fs).Success?
    ensures var a := ResolveLine(line, ofPath, targetPath, fs).value;
      a.text == line && (a.src == "" <==> !a.found) && (a.local <==> Contains(line, LocalMarker))
  {
    if Contains(line, LocalMarker) {
      var localPath := Trim(Split(line, '#')[0]);
      var segments := Split(localPath, Sep);
      JoinSplit(localPath, Sep);
      if localPath == "" {
        assert segments == [""];
      }
    }
  }

  /** The resolver output has one record per line, in order, each with its line as `text`. */
  lemma ProcessAddonsShape(lines: seq<string>, ofPath: string, targetPath: string, fs: Fs)
    requires ProcessAddons(lines, ofPath, targetPath, fs).Success?
    ensures var r := ProcessAddons(lines, ofPath, targetPath, fs).value;
      && |r| == |lines|
      && forall k :: 0 <= k < |r| ==> r[k].text == lines[k] && (r[k].src == "" <==> !r[k].found)
  {
    var r := ProcessAddons(lines, ofPath, targetPath, fs).value;
    forall k | 0 <= k < |r|
      ensures r[k].text == lines[k] && (r[k].src == "" <==> !r[k].found)
    {
      ResolveLineShape(lines[k], ofPath, targetPath, fs);
    }
  }

  /**
   * A line naming a local addon: the name is the second '/'-segment of the
   * trimmed text before '#', and it is found exactly when
   * `<target>/local_addons/<name>` exists, with the local path as its source.
   */
  lemma LocalLine(line: string, ofPath: string, targetPath: string, fs: Fs)
    requires Contains(line, LocalMarker) && '#' in line
    requires |Split(Trim(Split(line, '#')[0]), Sep)| >= 2
    ensures var localPath := Trim(Split(line, '#')[0]);
      var name := Split(localPath, Sep)[1];
      var r := ResolveLine(line, ofPath, targetPath, fs);
      && r.Success? && r.value.local && r.value.name == name && r.value.text == line
      && (r.value.found <==> Join(LocalAddonsDir(targetPath), name) in fs)
      && (r.value.found ==> r.value.src == localPath)
  {
    SplitCount(line, '#');
    CountPositive(line, '#');
  }

  lemma {:induction false} CountPositive(s: string, c: char)
    requires c in s
    ensures Count(s, c) >= 1
    decreases |s|
  {
    if s[0] != c {
      CountPositive(s[1..], c);
    }
  }

  lemma {:induction false} CountZero(s: string, c: char)
    requires c !in s
    ensures Count(s, c) == 0
    decreases |s|
  {
    if |s| > 0 {
      CountZero(s[1..], c);
    }
  }

  /** A local line without '#' throws, because there is no URL part to trim. */
  lemma LocalLineWithoutUrl(line: string, ofPath: string, targetPath: string, fs: Fs)
    requires Contains(line, LocalMarker) && '#' !in line
    ensures ResolveLine(line, ofPath, targetPath, fs) == Failure(MissingUrl(line))
  {
    SplitCount(line, '#');
    CountZero(line, '#');
  }

  /**
   * Any other line is a shared addon named by the whole line, found exactly
   * when `<OF_PATH>/addons/<name>` exists, and then that path is its source.
   */
  lemma SharedLine(line: string, ofPath: string, targetPath: string, fs: Fs)
    requires !Contains(line, LocalMarker)
    ensures var r := ResolveLine(line, ofPath, targetPath, fs);
      && r.Success? && !r.value.local && r.value.name == line
      && (r.value.found <==> SharedAddonPath(ofPath, line) in fs)
      && (r.value.found ==> r.value.src == SharedAddonPath(ofPath, line))
  {
  }

  /**
   * A blank manifest line names the shared addon "", whose path is the whole
   * `OF_PATH/addons` directory: it is selected for copying whenever that exists.
   */
  lemma BlankLineShared(ofPath: string, targetPath: string, fs: Fs)
    ensures var r := ResolveLine("", ofPath, targetPath, fs);
      && r.Success? && r.value.name == "" && !r.value.local
      && (r.value.found <==> Join(ofPath, "addons") in fs)
      && (r.value.found ==> r.value.src == Join(ofPath, "addons"))
  {
    assert !OccursAt("", LocalMarker, 0);
  }

  /** The filter at src/index.js:169: the addons that are found and not local, in manifest order. */
  function CopySelection(addons: seq<Addon>): (r: seq<Addon>)
    ensures |r| <= |addons|
    ensures forall a :: a in r <==> a in addons && a.found && !a.local
    decreases |addons|
  {
    if addons == [] then []
    else if addons[0].found && !addons[0].local then [addons[0]] + CopySelection(addons[1..])
    else CopySelection(addons[1..])
  }

  /** The filter works line by line: selecting from two runs of records is selecting from each, in order. */
  lemma {:induction false} CopySelectionAppend(a: seq<Addon>, b: seq<Addon>)
    ensures CopySelection(a + b) == CopySelection(a) + CopySelection(b)
    decreases |a|
  {
    if a == [] {
      assert a + b == b;
    } else {
      assert (a + b)[0] == a[0];
      assert (a + b)[1..] == a[1..] + b;
      CopySelectionAppend(a[1..], b);
    }
  }

  /** A single record is kept exactly when it is found and not local. */
  lemma CopySelectionSingle(x: Addon)
    ensures CopySelection([x]) == if x.found && !x.local then [x] else []
  {
    assert [x][1..] == [];
  }

  /** Every selected shared addon has a source that exists in the filesystem it was resolved against. */
  lemma SelectedSourcesExist(lines: seq<string>, ofPath: string, targetPath: string, fs: Fs)
    requires ProcessAddons(lines, ofPath, targetPath, fs).Success?
    ensures forall a :: a in CopySelection(ProcessAddons(lines, ofPath, targetPath, fs).value) ==>
      a.src in fs && a.src == SharedAddonPath(ofPath, a.name)
  {
    var r := ProcessAddons(lines, ofPath, targetPath, fs).value;
    forall a | a in CopySelection(r)
      ensures a.src in fs && a.src == SharedAddonPath(ofPath, a.name)
    {
      var k :| 0 <= k < |r| && r[k] == a;
      assert ResolveLine(lines[k], ofPath, targetPath, fs) == Success(a);
    }
  }
}
