/**
 * The in-file text rewrites: `updateAddonsMake` (src/index.js:217-235) and
 * `updateConfigMake` (src/index.js:237-247), both done with replace-in-file.
 * That library is not part of this model; it is taken to apply each
 * (from, to) pair in order with JavaScript's `String.prototype.replace`, so a
 * string pattern replaces its first occurrence only and a regular expression
 * without the `g` flag its first match only.
 */
module Rewrite {
  import opened Wrappers
  import opened Strings
  import opened Paths
  import opened Resolver

  /** `s.replace(pat, rep)` for a string pattern. */
  function ReplaceFirst(s: string, pat: string, rep: string): (r: string)
    ensures !Contains(s, pat) ==> r == s
  {
    match IndexOf(s, pat)
    case None => s
    case Some(i) => s[..i] + rep + s[i + |pat|..]
  }

  /** The replacement happens at the first occurrence of the pattern, and only there. */
  lemma ReplaceFirstAt(s: string, pat: string, rep: string, i: nat)
    requires OccursAt(s, pat, i)
    requires forall k :: 0 <= k < i ==> !OccursAt(s, pat, k)
    ensures ReplaceFirst(s, pat, rep) == s[..i] + rep + s[i + |pat|..]
  {
    assert IndexOf(s, pat) == Some(i);
  }

  /** The pairs applied in order, each to the result of the ones before it. */
  function ApplyPairs(s: string, pairs: seq<(string, string)>): string
    decreases |pairs|
  {
    if pairs == [] then s else ApplyPairs(ReplaceFirst(s, pairs[0].0, pairs[0].1), pairs[1..])
  }

  /** When no pattern occurs in the text, the rewrite leaves it unchanged. */
  lemma {:induction false} ApplyPairsNoMatch(s: string, pairs: seq<(string, string)>)
    requires forall k :: 0 <= k < |pairs| ==> !Contains(s, pairs[k].0)
    ensures ApplyPairs(s, pairs) == s
    decreases |pairs|
  {
    if pairs != [] {
      ApplyPairsNoMatch(s, pairs[1..]);
    }
  }

  /** The pairs `updateAddonsMake` passes: each copied addon's name to `local_addons/<name>`. */
  function AddonsMakePairs(copied: seq<Addon>): (pairs: seq<(string, string)>)
    ensures |pairs| == |copied|
    ensures forall k :: 0 <= k < |copied| ==> pairs[k] == (copied[k].name, Join(LocalMarker, copied[k].name))
  {
    seq(|copied|, k requires 0 <= k < |copied| => (copied[k].name, Join(LocalMarker, copied[k].name)))
  }

  /** The text of `addons.make` after `updateAddonsMake`. */
  function RewriteAddonsMake(text: string, copied: seq<Addon>): string
  {
    ApplyPairs(text, AddonsMakePairs(copied))
  }

  /**
   * The empty name occurs at the start of every text, so an addon named ""
   * makes the manifest rewrite put `local_addons` in front of the first line.
   */
  lemma BlankNameRewrite(text: string, x: Addon)
    requires x.name == ""
    ensures RewriteAddonsMake(text, [x]) == LocalMarker + text
  {
    assert IndexOf(text, "") == Some(0);
    var pairs := AddonsMakePairs([x]);
    assert pairs[0] == ("", LocalMarker) && pairs[1..] == [];
    assert text[..0] + LocalMarker + text[0..] == LocalMarker + text;
    assert ApplyPairs(text, pairs) == ApplyPairs(ReplaceFirst(text, "", LocalMarker), []);
  }

  /**
   * The first-occurrence rule can rewrite the wrong line: when one copied
   * name occurs inside an earlier line, that earlier line is rewritten a
   * second time and the line that names the addon is left as it was.
   */
  lemma RewriteCanHitEarlierLine()
    ensures
      var a := Addon("ofxGuiExtended", true, "/of/addons/ofxGuiExtended", false, "ofxGuiExtended");
      var b := Addon("ofxGui", true, "/of/addons/ofxGui", false, "ofxGui");
      RewriteAddonsMake("ofxGuiExtended\nofxGui", [a, b])
        == "local_addons/local_addons/ofxGuiExtended\nofxGui"
  {
    var a := Addon("ofxGuiExtended", true, "/of/addons/ofxGuiExtended", false, "ofxGuiExtended");
    var b := Addon("ofxGui", true, "/of/addons/ofxGui", false, "ofxGui");
    var pairs := AddonsMakePairs([a, b]);
    assert LocalMarker + [Sep] + "ofxGuiExtended" == "local_addons/ofxGuiExtended";
    assert LocalMarker + [Sep] + "ofxGui" == "local_addons/ofxGui";
    assert pairs[0] == ("ofxGuiExtended", "local_addons/ofxGuiExtended");
    assert pairs[1] == ("ofxGui", "local_addons/ofxGui");
    FirstRewriteStep();
    SecondRewriteStep();
    assert pairs[1..][1..] == [];
  }

  /** Replacing in `p + m + q` when `m` does not start inside `p`. */
  lemma ReplaceAfterPrefix(p: string, m: string, q: string, rep: string)
    requires forall k :: 0 <= k < |p| ==> !OccursAt(p + m + q, m, k)
    ensures ReplaceFirst(p + m + q, m, rep) == p + rep + q
  {
    var s := p + m + q;
    assert s[..|p|] == p;
    assert s[|p| + |m|..] == q;
    assert s[|p|..|p| + |m|] == m;
    ReplaceFirstAt(s, m, rep, |p|);
  }

  lemma FirstRewriteStep()
    ensures ReplaceFirst("ofxGuiExtended\nofxGui", "ofxGuiExtended", "local_addons/ofxGuiExtended")
      == "local_addons/ofxGuiExtended\nofxGui"
  {
    ReplaceAfterPrefix("", "ofxGuiExtended", "\nofxGui", "local_addons/ofxGuiExtended");
    assert "" + "ofxGuiExtended" + "\nofxGui" == "ofxGuiExtended\nofxGui";
  }

  lemma NoEarlyOccurrence()
    ensures forall k :: 0 <= k < 13 ==> !OccursAt("local_addons/" + "ofxGui" + "Extended\nofxGui", "ofxGui", k)
  {
    var s1 := "local_addons/" + "ofxGui" + "Extended\nofxGui";
    var p := s1[..14];
    assert p == "local_addons/o";
    assert 'f' !in p;
    forall k: nat | k < 13
      ensures !OccursAt(s1, "ofxGui", k)
    {
      assert s1[k + 1] == p[k + 1];
      if OccursAt(s1, "ofxGui", k) {
        OccursAtChars(s1, "ofxGui", k);
      }
    }
  }

  lemma SecondRewriteInPieces()
    ensures ReplaceFirst("local_addons/" + "ofxGui" + "Extended\nofxGui", "ofxGui", "local_addons/ofxGui")
      == "local_addons/" + "local_addons/ofxGui" + "Extended\nofxGui"
  {
    NoEarlyOccurrence();
    ReplaceAfterPrefix("local_addons/", "ofxGui", "Extended\nofxGui", "local_addons/ofxGui");
  }

  lemma FirstRewriteText()
    ensures "local_addons/" + "ofxGui" + "Extended\nofxGui" == "local_addons/ofxGuiExtended\nofxGui"
  {
  }

  lemma SecondRewriteText()
    ensures "local_addons/" + "local_addons/ofxGui" + "Extended\nofxGui"
      == "local_addons/local_addons/ofxGuiExtended\nofxGui"
  {
  }

  lemma SecondRewriteStep()
    ensures ReplaceFirst("local_addons/ofxGuiExtended\nofxGui", "ofxGui", "local_addons/ofxGui")
      == "local_addons/local_addons/ofxGuiExtended\nofxGui"
  {
    SecondRewriteInPieces();
    FirstRewriteText();
    SecondRewriteText();
  }

  lemma OccursAtChars(s: string, t: string, k: nat)
    requires OccursAt(s, t, k)
    ensures forall j :: 0 <= j < |t| ==> s[k + j] == t[j]
  {
    forall j | 0 <= j < |t|
      ensures s[k + j] == t[j]
    {
      assert s[k..k + |t|][j] == s[k + j];
    }
  }

  // ---------------------------------------------------------------- config.make

  /** The `^OF_ROOT = ` part of the pattern `/(?<=(^OF_ROOT\ \=\ )).+/m`. */
  const OfRootKey: string := "OF_ROOT = "

  /** `path.join('..', '..', '..')`. */
  const RelativeRoot: string := "../../.."

  /** What JavaScript's `^` (with `m`) and `.` treat as the end of a line. */
  predicate IsLineTerminator(c: char)
  {
    c == '\n' || c == '\r' || c == '\U{2028}' || c == '\U{2029}'
  }

  /** `^` with the `m` flag matches at index `k`. */
  predicate LineStart(s: string, k: nat)
  {
    k == 0 || (k <= |s| && IsLineTerminator(s[k - 1]))
  }

  /**
   * The regular expression can match at `i`: `i` is preceded by `OF_ROOT = `
   * at the start of a line, and `.+` can take at least one character.
   */
  predicate ValueStartsAt(s: string, i: nat)
  {
    |OfRootKey| <= i < |s| && LineStart(s, i - |OfRootKey|)
    && s[i - |OfRootKey|..i] == OfRootKey && !IsLineTerminator(s[i])
  }

  /** The leftmost position at or after `i` where the pattern matches. */
  function FindValue(s: string, i: nat): (r: Option<nat>)
    requires i <= |s|
    ensures r.Some? ==> i <= r.value && ValueStartsAt(s, r.value)
    ensures r.Some? ==> forall k :: i <= k < r.value ==> !ValueStartsAt(s, k)
    ensures r.None? ==> forall k :: i <= k ==> !ValueStartsAt(s, k)
    decreases |s| - i
  {
    if i == |s| then None
    else if ValueStartsAt(s, i) then Some(i)
    else FindValue(s, i + 1)
  }

  /** Where the greedy `.+` started at `i` stops: the next line terminator, or the end. */
  function LineEnd(s: string, i: nat): (e: nat)
    requires i <= |s|
    ensures i <= e <= |s| && (e == |s| || IsLineTerminator(s[e]))
    ensures forall k :: i <= k < e ==> !IsLineTerminator(s[k])
    decreases |s| - i
  {
    if i == |s| || IsLineTerminator(s[i]) then i else LineEnd(s, i + 1)
  }

  /** The text of `config.make` after `updateConfigMake`. */
  function RewriteConfigMake(s: string): string
  {
    match FindValue(s, 0)
    case None => s
    case Some(i) => s[..i] + RelativeRoot + s[LineEnd(s, i)..]
  }

  /** Without a line `OF_ROOT = <something>`, the text is unchanged. */
  lemma ConfigMakeNoMatch(s: string)
    requires forall k :: !ValueStartsAt(s, k)
    ensures RewriteConfigMake(s) == s
  {
  }

  /**
   * Otherwise exactly the non-empty remainder of the first such line, up to its
   * line terminator, is replaced by `../../..`; every other character stays.
   */
  lemma ConfigMakeReplacesFirstValue(s: string, i: nat, e: nat)
    requires ValueStartsAt(s, i) && forall k :: 0 <= k < i ==> !ValueStartsAt(s, k)
    requires i < e <= |s| && (e == |s| || IsLineTerminator(s[e]))
    requires forall k :: i <= k < e ==> !IsLineTerminator(s[k])
    ensures RewriteConfigMake(s) == s[..i] + RelativeRoot + s[e..]
  {
    assert FindValue(s, 0) == Some(i);
    assert LineEnd(s, i) == e;
  }

  /** Whether the pattern matches at `k` depends only on the text up to and including `k`. */
  lemma ValueStartsAtLocal(s: string, t: string, k: nat)
    requires k < |s| && k < |t| && s[..k + 1] == t[..k + 1]
    ensures ValueStartsAt(s, k) <==> ValueStartsAt(t, k)
  {
    if k >= |OfRootKey| {
      assert s[k - |OfRootKey|..k] == s[..k + 1][k - |OfRootKey|..k];
      assert t[k - |OfRootKey|..k] == t[..k + 1][k - |OfRootKey|..k];
      assert s[k] == s[..k + 1][k] && t[k] == t[..k + 1][k];
      if k - |OfRootKey| > 0 {
        assert s[k - |OfRootKey| - 1] == s[..k + 1][k - |OfRootKey| - 1];
        assert t[k - |OfRootKey| - 1] == t[..k + 1][k - |OfRootKey| - 1];
      }
    }
  }

  /** Rewriting `config.make` a second time changes nothing. */
  lemma ConfigMakeIdempotent(s: string)
    ensures RewriteConfigMake(RewriteConfigMake(s)) == RewriteConfigMake(s)
  {
    match FindValue(s, 0)
    case None =>
    case Some(i) =>
      var e := LineEnd(s, i);
      var t := s[..i] + RelativeRoot + s[e..];
      assert RewriteConfigMake(s) == t;
      assert t[..i] == s[..i];
      assert t[i..i + |RelativeRoot|] == RelativeRoot;
      assert t[i + |RelativeRoot|..] == s[e..];
      forall k | 0 <= k < i
        ensures !ValueStartsAt(t, k)
      {
        assert t[..k + 1] == s[..k + 1];
        ValueStartsAtLocal(s, t, k);
      }
      assert t[..i + 1] == s[..i] + ['.'];
      assert s[..i + 1] == s[..i] + [s[i]];
      assert ValueStartsAt(t, i) by {
        assert t[i - |OfRootKey|..i] == s[i - |OfRootKey|..i];
        if i - |OfRootKey| > 0 {
          assert t[i - |OfRootKey| - 1] == s[i - |OfRootKey| - 1];
        }
      }
      var e2 := i + |RelativeRoot|;
      assert forall k :: i <= k < e2 ==> t[k] == RelativeRoot[k - i];
      assert e2 == |t| || t[e2] == s[e];
      ConfigMakeReplacesFirstValue(t, i, e2);
      assert t[..i] + RelativeRoot + t[e2..] == t;
  }
}
