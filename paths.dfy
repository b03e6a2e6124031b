/**
 * Node's `path` module on POSIX, with the separator fixed to '/':
 * `join`, `basename` and `dirname`.
 */
module Paths {
  import opened Strings

  const Sep: char := '/'

  /**
   * `path.join(a, b)`: empty arguments are dropped, and joining nothing gives ".".
   * Node also normalises the result ('.', '..' and repeated separators); that
   * normalisation is not modelled, so paths are taken to be normalised already.
   */
  function Join(a: string, b: string): (r: string)
    ensures a != "" && b != "" ==> r == a + [Sep] + b
    ensures a == "" && b != "" ==> r == b
    ensures a != "" && b == "" ==> r == a
    ensures r != ""
  {
    if a == "" && b == "" then "."
    else if a == "" then b
    else if b == "" then a
    else a + [Sep] + b
  }

  function StripTrailingSeps(p: string): (r: string)
    ensures r == [] || r[|r| - 1] != Sep
    ensures |r| <= |p| && r == p[..|r|]
  {
    if |p| > 0 && p[|p| - 1] == Sep then StripTrailingSeps(p[..|p| - 1]) else p
  }

  /** The text after the last separator. */
  function AfterLastSep(p: string): (r: string)
    ensures Sep !in r
    ensures |r| <= |p| && r == p[|p| - |r|..]
    ensures |r| < |p| ==> p[|p| - |r| - 1] == Sep
  {
    if |p| == 0 || p[|p| - 1] == Sep then "" else AfterLastSep(p[..|p| - 1]) + [p[|p| - 1]]
  }

  /** `path.basename(p)`: the last segment, ignoring trailing separators. */
  function Basename(p: string): string
  {
    AfterLastSep(StripTrailingSeps(p))
  }

  /**
   * The scan of Node's `dirname`: from index `i` down to 1, skip the trailing
   * separators (while `trailing` holds), then the last segment; the first
   * separator after that is the end of the directory part, and -1 means none.
   */
  function DirEnd(p: string, i: int, trailing: bool): (e: int)
    requires 0 <= i < |p|
    ensures -1 <= e <= i && (e == -1 || (1 <= e && p[e] == Sep))
    decreases i
  {
    if i < 1 then -1
    else if p[i] == Sep then (if trailing then DirEnd(p, i - 1, trailing) else i)
    else DirEnd(p, i - 1, false)
  }

  /** `path.dirname(p)`. */
  function Dirname(p: string): string
  {
    if |p| == 0 then "."
    else
      var e := DirEnd(p, |p| - 1, true);
      if e == -1 then (if p[0] == Sep then "/" else ".")
      else if p[0] == Sep && e == 1 then "//"
      else p[..e]
  }

  /** A base name never contains the separator. */
  lemma BasenameHasNoSep(p: string)
    ensures Sep !in Basename(p)
  {
  }

  /** The base name of a joined path is the last component, when that is one segment. */
  lemma BasenameOfJoin(a: string, b: string)
    requires b != "" && Sep !in b
    ensures Basename(Join(a, b)) == b
  {
    var j := Join(a, b);
    var x := if a == "" then "" else a + [Sep];
    assert j == x + b;
    assert j[|j| - 1] == b[|b| - 1];
    assert StripTrailingSeps(j) == j;
    AfterLastSepOfSegment(x, b);
  }

  /** The text after the last separator of `x + b`, for an `x` empty or ending in one and a one-segment `b`, is `b`. */
  lemma {:induction false} AfterLastSepOfSegment(x: string, b: string)
    requires b != "" && Sep !in b
    requires x == "" || x[|x| - 1] == Sep
    ensures AfterLastSep(x + b) == b
    decreases |b|
  {
    var p := x + b;
    var n := |b| - 1;
    assert p[..|p| - 1] == x + b[..n];
    assert p[|p| - 1] == b[n] && b[n] != Sep;
    assert AfterLastSep(p) == AfterLastSep(x + b[..n]) + [b[n]];
    if n > 0 {
      assert Sep !in b[..n];
      AfterLastSepOfSegment(x, b[..n]);
    } else {
      assert x + b[..n] == x;
      assert AfterLastSep(x) == [];
    }
    assert b[..n] + [b[n]] == b;
  }

  lemma {:induction false} DirEndSkipsSegment(p: string, i: int, n: nat)
    requires 1 <= n <= i < |p| && p[n - 1] == Sep
    requires forall k :: n <= k <= i ==> p[k] != Sep
    ensures DirEnd(p, i, false) == n - 1 || (n == 1 && DirEnd(p, i, false) == -1)
    decreases i
  {
    if i > n {
      DirEndSkipsSegment(p, i - 1, n);
    }
  }

  /** The directory part of `a/b` is `a`, for a one-segment `b` and an `a` not ending in a separator. */
  lemma DirnameOfJoin(a: string, b: string)
    requires a != "" && a[|a| - 1] != Sep
    requires b != "" && Sep !in b
    ensures Dirname(Join(a, b)) == a
  {
    var j := Join(a, b);
    assert j == a + [Sep] + b;
    assert j[|a|] == Sep;
    assert forall k :: |a| + 1 <= k < |j| ==> j[k] == b[k - |a| - 1];
    DirEndSkipsSegment(j, |j| - 1, |a| + 1);
    assert DirEnd(j, |j| - 1, true) == DirEnd(j, |j| - 1, false);
    assert j[..|a|] == a;
  }

  /** Text inside the last component is inside the joined path. */
  lemma JoinContainsLast(a: string, b: string, t: string)
    requires Contains(b, t)
    ensures Contains(Join(a, b), t)
  {
    if a != "" && b != "" {
      ContainsInfix(a + [Sep], b, [], t);
      assert a + [Sep] + b + [] == Join(a, b);
    } else if b == "" {
      assert OccursAt(b, t, IndexOf(b, t).value);
      assert t == [];
      ContainsWitness(Join(a, b), t, 0);
    }
  }
}
