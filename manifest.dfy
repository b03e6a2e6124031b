/**
 * The manifest reader: `addons.make` holds one addon reference per line,
 * and `getAddons` (src/index.js:410-417) turns its text into the sequence of lines.
 */
module Manifest {
  import opened Strings

  /**
   * The text trimmed and split on '\n'. Blank lines inside the text are kept
   * as empty entries, and an empty (or all white space) text gives one empty entry.
   */
  function ParseAddons(text: string): (lines: seq<string>)
    ensures |lines| == Count(Trim(text), '\n') + 1
    ensures forall k :: 0 <= k < |lines| ==> '\n' !in lines[k]
    ensures JoinWith(lines, '\n') == Trim(text)
  {
    SplitPiecesFree(Trim(text), '\n');
    JoinSplit(Trim(text), '\n');
    SplitCount(Trim(text), '\n');
    Split(Trim(text), '\n')
  }

  lemma TrimOfTrimmed(s: string)
    requires s == [] || (!IsJsSpace(s[0]) && !IsJsSpace(s[|s| - 1]))
    ensures Trim(s) == s
  {
  }

  /**
   * Writing lines out with '\n' and reading them back gives the same lines, in
   * the same order, when the text so written has no white space at either end.
   */
  lemma ParseJoinRoundTrip(lines: seq<string>)
    requires |lines| >= 1
    requires forall k :: 0 <= k < |lines| ==> '\n' !in lines[k]
    requires var s := JoinWith(lines, '\n'); s == [] || (!IsJsSpace(s[0]) && !IsJsSpace(s[|s| - 1]))
    ensures ParseAddons(JoinWith(lines, '\n')) == lines
  {
    TrimOfTrimmed(JoinWith(lines, '\n'));
    SplitJoin(lines, '\n');
  }

  /** An empty or all white space manifest yields a single empty reference, not an empty sequence. */
  lemma EmptyManifest(text: string)
    requires forall k :: 0 <= k < |text| ==> IsJsSpace(text[k])
    ensures ParseAddons(text) == [""]
  {
    assert TrimStart(text) == [];
  }

  /** Trailing white space after a text with non-space ends is trimmed away, and nothing else. */
  lemma {:induction false} TrailingSpaceTrimmed(s: string, tail: string)
    requires s != [] && !IsJsSpace(s[0]) && !IsJsSpace(s[|s| - 1])
    requires forall k :: 0 <= k < |tail| ==> IsJsSpace(tail[k])
    ensures TrimEnd(s + tail) == s
    decreases |tail|
  {
    if tail == [] {
      assert s + tail == s;
    } else {
      var n := |tail| - 1;
      assert (s + tail)[..|s + tail| - 1] == s + tail[..n];
      assert (s + tail)[|s + tail| - 1] == tail[n];
      TrailingSpaceTrimmed(s, tail[..n]);
    }
  }

  /**
   * A blank line between two references stays as an empty entry, and the white
   * space after the last reference (trailing blank lines included) is trimmed away.
   */
  lemma BlankLineKept(a: string, b: string, tail: string)
    requires '\n' !in a && '\n' !in b
    requires a != [] && !IsJsSpace(a[0]) && b != [] && !IsJsSpace(b[|b| - 1])
    requires forall k :: 0 <= k < |tail| ==> IsJsSpace(tail[k])
    ensures ParseAddons(a + "\n\n" + b + tail) == [a, "", b]
  {
    var lines := [a, "", b];
    var s := a + "\n\n" + b;
    assert JoinWith(lines[2..], '\n') == b;
    assert JoinWith(lines[1..], '\n') == "" + ['\n'] + b;
    assert JoinWith(lines, '\n') == s;
    assert s[0] == a[0] && s[|s| - 1] == b[|b| - 1];
    assert TrimStart(s + tail) == s + tail;
    TrailingSpaceTrimmed(s, tail);
    assert forall k :: 0 <= k < |lines| ==> '\n' !in lines[k];
    ParseJoinRoundTrip(lines);
  }
}
