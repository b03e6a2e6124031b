/**
 * The abstract filesystem the packager works on: a map from '/'-separated
 * path to a directory or a file with its text, and the fs-extra operations
 * the pipeline calls (`ensureDirSync`, `emptyDirSync`, `copySync`, `rmSync`,
 * `moveSync`) as functions from one filesystem state to the next.
 */
module Tree {
  import opened Wrappers
  import opened Strings
  import opened Paths

  datatype Node = Dir | File(content: string)

  type Fs = map<string, Node>

  /** `q` is `p` or lies inside the directory `p`. */
  predicate Under(q: string, p: string)
  {
    q == p || (|p| < |q| && q[..|p|] == p && q[|p|] == Sep)
  }

  /** Two paths with a common descendant are nested one inside the other. */
  lemma UnderChain(q: string, a: string, b: string)
    requires Under(q, a) && Under(q, b) && |a| <= |b|
    ensures Under(b, a)
  {
    if q != b {
      assert q[..|a|] == q[..|b|][..|a|];
    }
  }

  lemma UnderTrans(q: string, p: string, r: string)
    requires Under(q, p) && Under(p, r)
    ensures Under(q, r)
  {
    if q != p && p != r {
      assert q[..|r|] == q[..|p|][..|r|];
    }
  }

  /**
   * The directories `mkdirs` creates on the way to `p`: each proper prefix of
   * `p` that ends just before a separator, the root excepted.
   */
  function Ancestors(p: string): set<string>
  {
    set k | 0 < k < |p| && p[k] == Sep :: p[..k]
  }

  lemma AncestorIsAbove(a: string, p: string)
    requires a in Ancestors(p)
    ensures Under(p, a) && a != p && a != ""
  {
  }

  /** The state after creating the missing ancestors of `p` as directories. */
  function WithAncestors(fs: Fs, p: string): (r: Fs)
    ensures forall a :: a in Ancestors(p) ==> a in r
    ensures forall q :: q in fs ==> q in r && r[q] == fs[q]
    ensures forall q :: q in r ==> q in fs || q in Ancestors(p)
  {
    fs + map a | a in Ancestors(p) && a !in fs :: Dir
  }

  /** `ensureDirSync(p)`: create `p` and its ancestors unless present. */
  function EnsureDir(fs: Fs, p: string): (r: Fs)
    ensures p in r
    ensures forall a :: a in Ancestors(p) ==> a in r
    ensures forall q :: q in fs ==> q in r && r[q] == fs[q]
    ensures forall q :: q in r ==> q in fs || q == p || q in Ancestors(p)
  {
    var f := WithAncestors(fs, p);
    if p in f then f else f[p := Dir]
  }

  /** `rmSync(p, { recursive: true })`: remove `p` and everything inside it. */
  function RemoveTree(fs: Fs, p: string): (r: Fs)
    ensures forall q :: q in r <==> q in fs && !Under(q, p)
    ensures forall q :: q in r ==> r[q] == fs[q]
  {
    map q | q in fs && !Under(q, p) :: fs[q]
  }

  /** `cleanUp(p)`: remove `p` and everything inside it when `p` exists. */
  function RemoveIfPresent(fs: Fs, p: string): (r: Fs)
    ensures p !in r
    ensures forall q :: q in r ==> q in fs && r[q] == fs[q]
    ensures p in fs ==> forall q :: q in r <==> q in fs && !Under(q, p)
    ensures p !in fs ==> r == fs
  {
    if p in fs then RemoveTree(fs, p) else fs
  }

  /** `emptyDirSync(p)`: afterwards `p` is an empty directory. */
  function EmptyDir(fs: Fs, p: string): Fs
  {
    EnsureDir(RemoveTree(fs, p), p)
  }

  /** The path at which `copySync(src, dst)` puts the entry `q` of the source tree. */
  function Rebase(q: string, src: string, dst: string): (d: string)
    requires Under(q, src)
    ensures Under(d, dst)
  {
    dst + q[|src|..]
  }

  /** The entry of the source tree that ends up at `d` inside the destination. */
  function Origin(d: string, src: string, dst: string): (q: string)
    requires Under(d, dst)
    ensures Under(q, src) && Rebase(q, src, dst) == d
  {
    var q := src + d[|dst|..];
    assert q[..|src|] == src;
    assert q[|src|..] == d[|dst|..];
    assert d == dst + d[|dst|..];
    q
  }

  lemma OriginOfRebase(q: string, src: string, dst: string)
    requires Under(q, src)
    ensures Origin(Rebase(q, src, dst), src, dst) == q
  {
    var d := Rebase(q, src, dst);
    assert d[|dst|..] == q[|src|..];
    assert q == src + q[|src|..];
  }

  /** The `filter` option of `copySync`: which source paths are copied. */
  datatype CopyFilter = KeepAll | Avoid(words: seq<string>)

  predicate Keeps(f: CopyFilter, path: string)
  {
    match f
    case KeepAll => true
    case Avoid(words) => forall k :: 0 <= k < |words| ==> !Contains(path, words[k])
  }

  /**
   * fs-extra asks the filter about a directory before its contents and skips
   * the whole subtree when it says no. For a filter on substrings, a path the
   * filter keeps has an ancestor chain the filter keeps too, so asking about
   * each path on its own selects the same entries.
   */
  lemma KeepsAncestors(f: CopyFilter, q: string, p: string)
    requires Under(q, p) && Keeps(f, q)
    ensures Keeps(f, p)
  {
    if f.Avoid? {
      forall k | 0 <= k < |f.words|
        ensures !Contains(p, f.words[k])
      {
        if Contains(p, f.words[k]) {
          assert p == q[..|p|];
          ContainsPrefix(q, |p|, f.words[k]);
        }
      }
    }
  }

  /** The entries `copySync(src, dst, { filter })` writes, at their new paths. */
  function Copied(fs: Fs, src: string, dst: string, f: CopyFilter): (m: Fs)
    ensures forall d :: d in m <==> Under(d, dst) && Origin(d, src, dst) in fs && Keeps(f, Origin(d, src, dst))
    ensures forall d :: d in m ==> m[d] == fs[Origin(d, src, dst)]
  {
    var keys := set q | q in fs && Under(q, src) && Keeps(f, q) :: Rebase(q, src, dst);
    assert forall q :: q in fs && Under(q, src) ==> Origin(Rebase(q, src, dst), src, dst) == q by {
      forall q | q in fs && Under(q, src) {
        OriginOfRebase(q, src, dst);
      }
    }
    var m := map d | d in keys :: fs[Origin(d, src, dst)];
    m
  }

  /**
   * `copySync(src, dst, { filter })`: nothing when the filter refuses `src`;
   * otherwise the parents of `dst` are created and the kept part of the
   * source tree is written under `dst`, over what is there already.
   */
  function CopyTree(fs: Fs, src: string, dst: string, f: CopyFilter): Fs
  {
    if !Keeps(f, src) then fs else WithAncestors(fs, dst) + Copied(fs, src, dst, f)
  }

  lemma CopyTreeKeeps(fs: Fs, src: string, dst: string, f: CopyFilter)
    ensures forall q :: q in fs ==> q in CopyTree(fs, src, dst, f)
  {
  }

  /** Copying changes nothing outside the destination tree. */
  lemma CopyTreeOutside(fs: Fs, src: string, dst: string, f: CopyFilter)
    ensures forall q :: q in fs && !Under(q, dst) ==> CopyTree(fs, src, dst, f)[q] == fs[q]
  {
  }

  /** Copying a source that exists with a filter that keeps it always creates the destination. */
  lemma CopyTreeCreatesDestination(fs: Fs, src: string, dst: string, f: CopyFilter)
    requires src in fs && Keeps(f, src)
    ensures dst in CopyTree(fs, src, dst, f) && CopyTree(fs, src, dst, f)[dst] == fs[src]
  {
    assert Origin(dst, src, dst) == src;
  }

  /**
   * `copyTargetDirectory` once the source is known to exist: ensure and empty
   * the destination, then copy the source into it through the filter.
   */
  function StagedCopy(fs: Fs, src: string, dst: string, f: CopyFilter): Fs
  {
    CopyTree(EmptyDir(EnsureDir(fs, dst), dst), src, dst, f)
  }

  lemma EmptiedState(fs: Fs, dst: string)
    ensures var e := EmptyDir(EnsureDir(fs, dst), dst);
      && dst in e
      && (forall q :: q in e && Under(q, dst) ==> q == dst)
      && (forall q :: q in fs && !Under(q, dst) ==> q in e && e[q] == fs[q])
      && (forall q :: q in e ==> q in fs || q == dst || q in Ancestors(dst))
  {
    var e1 := EnsureDir(fs, dst);
    var e2 := RemoveTree(e1, dst);
    var e := EnsureDir(e2, dst);
    forall q | q in e && Under(q, dst)
      ensures q == dst
    {
      if q != dst && q in Ancestors(dst) {
        AncestorIsAbove(q, dst);
      }
    }
  }

  /** An ancestor of the destination or the destination itself is never inside a disjoint source. */
  lemma NotInsideSource(q: string, src: string, dst: string)
    requires !Under(dst, src)
    requires q == dst || q in Ancestors(dst)
    ensures !Under(q, src)
  {
    if q != dst && Under(q, src) {
      AncestorIsAbove(q, dst);
      UnderTrans(dst, q, src);
    }
  }

  /**
   * After `copyTargetDirectory(src, dst)` with disjoint `src` and `dst`, the
   * destination holds exactly the filter-kept copy of the source and nothing
   * that was there before; everything outside the destination is as it was,
   * apart from the parents of `dst` that had to be created.
   */
  lemma StagedCopyContents(fs: Fs, src: string, dst: string, f: CopyFilter)
    requires src in fs && !Under(src, dst) && !Under(dst, src)
    ensures var r := StagedCopy(fs, src, dst, f);
      && dst in r
      && (forall d :: Under(d, dst) && d != dst ==>
            (d in r <==> Origin(d, src, dst) in fs && Keeps(f, Origin(d, src, dst))))
      && (forall d :: Under(d, dst) && d != dst && d in r ==> r[d] == fs[Origin(d, src, dst)])
      && (forall q :: q in fs && !Under(q, dst) ==> q in r && r[q] == fs[q])
      && (forall q :: q in r ==> Under(q, dst) || q in fs || q in Ancestors(dst))
  {
    var e := EmptyDir(EnsureDir(fs, dst), dst);
    EmptiedState(fs, dst);
    var r := StagedCopy(fs, src, dst, f);
    // Entries inside the source survive the emptying of the destination, and
    // what the emptying leaves inside the source was there before.
    forall q | Under(q, src)
      ensures q in e <==> q in fs
      ensures q in e ==> e[q] == fs[q]
    {
      if q in fs && Under(q, dst) {
        if |src| <= |dst| { UnderChain(q, src, dst); } else { UnderChain(q, dst, src); }
      }
      if q in e && q !in fs {
        NotInsideSource(q, src, dst);
      }
    }
    if Keeps(f, src) {
      assert r == WithAncestors(e, dst) + Copied(e, src, dst, f);
    } else {
      assert r == e;
      forall d | Under(d, dst) && d != dst
        ensures !Keeps(f, Origin(d, src, dst))
      {
        if Keeps(f, Origin(d, src, dst)) {
          KeepsAncestors(f, Origin(d, src, dst), src);
        }
      }
    }
  }

  /** Whether `copyTargetDirectory(src, dst)` gets past its checks: the source exists and the paths are disjoint. */
  predicate CanCopy(fs: Fs, src: string, dst: string)
  {
    src in fs && !Under(src, dst) && !Under(dst, src)
  }

  /**
   * The state `copyTargetDirectory(src, dst, { filter })` leaves: nothing
   * changes when the source is missing; `copySync` refuses nested paths only
   * after the destination was created and emptied.
   */
  function CopyTargetDirectory(fs: Fs, src: string, dst: string, f: CopyFilter): (r: Fs)
    ensures CanCopy(fs, src, dst) ==> r == StagedCopy(fs, src, dst, f)
    ensures src !in fs ==> r == fs
  {
    if src !in fs then fs
    else if Under(src, dst) || Under(dst, src) then EmptyDir(EnsureDir(fs, dst), dst)
    else StagedCopy(fs, src, dst, f)
  }

  /** Each entry of the source tree that the filter keeps reappears, same node, at its rebased path. */
  lemma CopyTreeContent(fs: Fs, src: string, dst: string)
    ensures forall q :: q in fs && Under(q, src) ==>
      Rebase(q, src, dst) in CopyTree(fs, src, dst, KeepAll) && CopyTree(fs, src, dst, KeepAll)[Rebase(q, src, dst)] == fs[q]
  {
    forall q | q in fs && Under(q, src)
      ensures Rebase(q, src, dst) in CopyTree(fs, src, dst, KeepAll)
      ensures CopyTree(fs, src, dst, KeepAll)[Rebase(q, src, dst)] == fs[q]
    {
      OriginOfRebase(q, src, dst);
    }
  }

  /** A parent of a path inside `t` is inside `t` too, or it is a parent of `t`. */
  lemma AncestorOutside(a: string, p: string, t: string)
    requires Under(p, t) && a in Ancestors(p) && !Under(a, t)
    ensures a in Ancestors(t)
  {
    var k :| 0 < k < |p| && p[k] == Sep && a == p[..k];
    if p != t {
      assert t[k] == p[k] && t[..k] == a;
    }
  }

  /**
   * `r` agrees with `fs` everywhere outside the tree `t`, apart from the
   * parents of `t`, which `mkdirs` may have created.
   */
  ghost predicate SameOutside(fs: Fs, r: Fs, t: string)
  {
    forall q :: !Under(q, t) && q !in Ancestors(t) ==> (q in r <==> q in fs) && (q in fs ==> r[q] == fs[q])
  }

  lemma SameOutsideTrans(a: Fs, b: Fs, c: Fs, t: string)
    requires SameOutside(a, b, t) && SameOutside(b, c, t)
    ensures SameOutside(a, c, t)
  {
  }

  lemma WithAncestorsInside(fs: Fs, p: string, t: string)
    requires Under(p, t)
    ensures SameOutside(fs, WithAncestors(fs, p), t)
  {
    forall q | q in WithAncestors(fs, p) && q !in fs && !Under(q, t)
      ensures q in Ancestors(t)
    {
      AncestorOutside(q, p, t);
    }
  }

  lemma EnsureDirInside(fs: Fs, p: string, t: string)
    requires Under(p, t)
    ensures SameOutside(fs, EnsureDir(fs, p), t)
  {
    forall q | q in EnsureDir(fs, p) && q !in fs && !Under(q, t)
      ensures q in Ancestors(t)
    {
      AncestorOutside(q, p, t);
    }
  }

  lemma RemoveTreeInside(fs: Fs, p: string, t: string)
    requires Under(p, t)
    ensures SameOutside(fs, RemoveTree(fs, p), t)
  {
    forall q | q in fs && Under(q, p)
      ensures Under(q, t)
    {
      UnderTrans(q, p, t);
    }
  }

  lemma CopyTreeInside(fs: Fs, src: string, dst: string, f: CopyFilter, t: string)
    requires Under(dst, t)
    ensures SameOutside(fs, CopyTree(fs, src, dst, f), t)
  {
    if Keeps(f, src) {
      WithAncestorsInside(fs, dst, t);
      forall d | d in Copied(fs, src, dst, f)
        ensures Under(d, t)
      {
        UnderTrans(d, dst, t);
      }
    }
  }

  /** `copyTargetDirectory` into a destination inside `t` changes nothing outside `t` but `t`'s parents. */
  lemma CopyTargetDirectoryInside(fs: Fs, src: string, dst: string, f: CopyFilter, t: string)
    requires Under(dst, t)
    ensures SameOutside(fs, CopyTargetDirectory(fs, src, dst, f), t)
  {
    if src in fs {
      var e1 := EnsureDir(fs, dst);
      var e2 := RemoveTree(e1, dst);
      var e := EnsureDir(e2, dst);
      EnsureDirInside(fs, dst, t);
      RemoveTreeInside(e1, dst, t);
      EnsureDirInside(e2, dst, t);
      SameOutsideTrans(fs, e1, e2, t);
      SameOutsideTrans(fs, e2, e, t);
      if !Under(src, dst) && !Under(dst, src) {
        CopyTreeInside(e, src, dst, f, t);
        SameOutsideTrans(fs, e, CopyTree(e, src, dst, f), t);
      }
    }
  }

  /** Removing a tree inside `t`, when it exists, changes nothing outside `t`. */
  lemma RemoveIfPresentInside(fs: Fs, p: string, t: string)
    requires Under(p, t)
    ensures SameOutside(fs, RemoveIfPresent(fs, p), t)
  {
    if p in fs {
      RemoveTreeInside(fs, p, t);
    }
  }

  /**
   * What `moveSync` throws: the source is missing; the destination is the
   * source or lies inside it; the destination exists and overwriting is off;
   * or the destination held the source, so removing it first removed the source.
   */
  datatype MoveError = MoveSourceMissing | MoveIntoItself | DestinationExists | SourceRemoved

  /** The state `moveSync` leaves behind, and the error it threw, if any. */
  datatype MoveResult = MoveResult(fs: Fs, error: Option<MoveError>)

  /**
   * `moveSync(src, dst, { overwrite })`. The path checks come first and change
   * nothing. With overwriting on, the destination is removed before the
   * rename, so a source inside it is lost and the rename then fails. A
   * successful move puts the source tree at `dst` and leaves nothing at `src`.
   */
  function Move(fs: Fs, src: string, dst: string, overwrite: bool): (r: MoveResult)
    ensures r.error.None? <==> src in fs && !Under(dst, src) && !Under(src, dst) && (overwrite || dst !in fs)
    ensures r.error == Some(MoveSourceMissing) <==> src !in fs
    ensures r.error == Some(MoveIntoItself) <==> src in fs && Under(dst, src)
    ensures r.error == Some(DestinationExists) <==> src in fs && !Under(dst, src) && dst in fs && !overwrite
    ensures r.error.Some? && r.error != Some(SourceRemoved) ==> r.fs == fs
    ensures r.error == Some(SourceRemoved) ==> r.fs == RemoveTree(WithAncestors(fs, dst), dst)
  {
    if src !in fs then MoveResult(fs, Some(MoveSourceMissing))
    else if Under(dst, src) then MoveResult(fs, Some(MoveIntoItself))
    else if dst in fs && !overwrite then MoveResult(fs, Some(DestinationExists))
    else if Under(src, dst) then MoveResult(RemoveTree(WithAncestors(fs, dst), dst), Some(SourceRemoved))
    else
      var f := RemoveTree(WithAncestors(fs, dst), dst);
      MoveResult(RemoveTree(f, src) + Copied(f, src, dst, KeepAll), None)
  }

  /**
   * After a successful move, the destination tree is exactly the rebased
   * source tree, nothing is left inside the source, everything outside both
   * is as it was, and nothing else appears except the destination's parents.
   */
  lemma MovedContents(fs: Fs, src: string, dst: string, overwrite: bool)
    requires Move(fs, src, dst, overwrite).error.None?
    ensures var r := Move(fs, src, dst, overwrite).fs;
      && (forall d :: Under(d, dst) ==> (d in r <==> Origin(d, src, dst) in fs))
      && (forall d :: Under(d, dst) && d in r ==> r[d] == fs[Origin(d, src, dst)])
      && (forall q :: Under(q, src) ==> q !in r)
      && (forall q :: q in fs && !Under(q, src) && !Under(q, dst) ==> q in r && r[q] == fs[q])
      && (forall q :: q in r ==> Under(q, dst) || q in fs || q in Ancestors(dst))
  {
    var f := RemoveTree(WithAncestors(fs, dst), dst);
    var c := Copied(f, src, dst, KeepAll);
    var r := Move(fs, src, dst, overwrite).fs;
    assert r == RemoveTree(f, src) + c;
    forall q | Under(q, src)
      ensures q in f <==> q in fs
      ensures q in f ==> f[q] == fs[q]
      ensures !Under(q, dst)
    {
      if Under(q, dst) {
        if |src| <= |dst| { UnderChain(q, src, dst); } else { UnderChain(q, dst, src); }
      }
      if q in f && q !in fs {
        NotInsideSource(q, src, dst);
      }
    }
    forall d | Under(d, dst)
      ensures d in r <==> Origin(d, src, dst) in fs
      ensures d in r ==> r[d] == fs[Origin(d, src, dst)]
    {
      assert d !in RemoveTree(f, src);
    }
  }
}
