/** Path prefixes and the resolution of a path to the deepest watched root that contains it. */
module Paths {
  import opened Common

  type Path = string

  /** A watched root and the row that stands for it. */
  datatype Mountpoint = Mountpoint(id: int, root: Path)

  function TrimSuffix(s: string, suffix: string): string {
    if |suffix| <= |s| && s[|s| - |suffix|..] == suffix then s[..|s| - |suffix|] else s
  }

  /** The string every path strictly beneath dir starts with. */
  function SubtreePrefix(dir: Path): (p: Path)
    ensures dir <= p && |p| <= |dir| + 1
  {
    TrimSuffix(dir, "/") + "/"
  }

  /** The directory and a slash, unless it ends in one. */
  lemma SubtreePrefixIs(dir: Path)
    ensures SubtreePrefix(dir) == if dir != "" && dir[|dir| - 1] == '/' then dir else dir + ['/']
  {
    if dir != "" {
      assert dir[|dir| - 1..] == [dir[|dir| - 1]];
    }
  }

  predicate Beneath(p: Path, dir: Path) {
    SubtreePrefix(dir) <= p
  }

  /** A root contains its own path and everything beneath it. */
  predicate Contains(root: Path, p: Path) {
    p == root || Beneath(p, root)
  }

  /** `newPrefix || substr(path, length(oldPrefix) + 1)`. */
  function Rebase(p: Path, oldPrefix: Path, newPrefix: Path): (r: Path)
    requires oldPrefix <= p
    ensures newPrefix <= r && r[|newPrefix|..] == p[|oldPrefix|..]
  {
    newPrefix + p[|oldPrefix|..]
  }

  lemma RebaseBack(p: Path, a: Path, b: Path)
    requires a <= p
    ensures Rebase(Rebase(p, a, b), b, a) == p
  {
    assert p == a + p[|a|..];
  }

  /** The choice mountpointFor's loop has made after a prefix of the list. */
  function Deepest(ms: seq<Mountpoint>, p: Path): Option<Mountpoint>
    decreases |ms|
  {
    if ms == [] then None
    else
      var best := Deepest(ms[..|ms| - 1], p);
      var mp := ms[|ms| - 1];
      if Contains(mp.root, p) && (best.None? || |mp.root| > |best.value.root|) then Some(mp) else best
  }

  /** A configuration the schema admits: root_path is UNIQUE and id is the primary key. */
  ghost predicate Distinct(ms: seq<Mountpoint>) {
    forall i, j :: 0 <= i < |ms| && 0 <= j < |ms| && (ms[i].id == ms[j].id || ms[i].root == ms[j].root) ==> i == j
  }

  /** What "deepest containing root" means, without the loop. */
  ghost predicate IsDeepest(ms: seq<Mountpoint>, p: Path, r: Option<Mountpoint>) {
    match r
    case None => forall m :: m in ms ==> !Contains(m.root, p)
    case Some(b) => b in ms && Contains(b.root, p)
                    && forall m :: m in ms && Contains(m.root, p) ==> |m.root| <= |b.root|
  }

  lemma {:induction false} DeepestIsDeepest(ms: seq<Mountpoint>, p: Path)
    ensures IsDeepest(ms, p, Deepest(ms, p))
    decreases |ms|
  {
    if ms != [] {
      var init := ms[..|ms| - 1];
      DeepestIsDeepest(init, p);
      assert ms == init + [ms[|ms| - 1]];
    }
  }

  lemma ContainsIsPrefix(root: Path, p: Path)
    requires Contains(root, p)
    ensures root <= p
  {
  }

  /** Two containing roots of equal length are the same string, so the deepest one is unique. */
  lemma SameLengthRoots(a: Path, b: Path, p: Path)
    requires Contains(a, p) && Contains(b, p) && |a| == |b|
    ensures a == b
  {
    ContainsIsPrefix(a, p);
    ContainsIsPrefix(b, p);
    assert a == p[..|a|] && b == p[..|b|];
  }

  lemma DeepestUnique(ms: seq<Mountpoint>, p: Path, r: Option<Mountpoint>, s: Option<Mountpoint>)
    requires Distinct(ms)
    requires IsDeepest(ms, p, r) && IsDeepest(ms, p, s)
    ensures r == s
  {
    if r.Some? && s.Some? {
      SameLengthRoots(r.value.root, s.value.root, p);
    }
  }

  /** Listing the same mountpoints in another order resolves every path the same way. */
  lemma OrderIndependent(ms: seq<Mountpoint>, other: seq<Mountpoint>, p: Path)
    requires Distinct(ms)
    requires forall m :: m in ms <==> m in other
    ensures Deepest(ms, p) == Deepest(other, p)
  {
    DeepestIsDeepest(ms, p);
    DeepestIsDeepest(other, p);
    DeepestUnique(ms, p, Deepest(ms, p), Deepest(other, p));
  }

  /** A directory no root lies beneath resolves exactly as everything inside it does. */
  lemma RootFreeResolves(ms: seq<Mountpoint>, dir: Path, p: Path)
    requires Distinct(ms)
    requires Beneath(p, dir)
    requires forall m :: m in ms ==> !Beneath(m.root, dir)
    ensures Deepest(ms, p) == Deepest(ms, dir)
  {
    forall m | m in ms ensures Contains(m.root, p) <==> Contains(m.root, dir) {
      BeneathRoot(m.root, dir, p);
    }
    DeepestIsDeepest(ms, p);
    DeepestIsDeepest(ms, dir);
    DeepestUnique(ms, p, Deepest(ms, p), Deepest(ms, dir));
  }

  lemma BeneathRoot(root: Path, dir: Path, p: Path)
    requires Beneath(p, dir) && !Beneath(root, dir)
    ensures Contains(root, p) <==> Contains(root, dir)
  {
    var sr, sd := SubtreePrefix(root), SubtreePrefix(dir);
    if Contains(root, dir) {
      assert sr <= sd;
      assert p == sd + p[|sd|..];
    }
    if Contains(root, p) && |sr| <= |dir| {
      PrefixesNest(sr, dir, p);
    } else if Contains(root, p) && |sd| <= |root| {
      PrefixesNest(sd, root, p);
    } else if Contains(root, p) {
      PrefixesNest(sd, sr, p);
    }
  }

  lemma PrefixesNest(a: Path, b: Path, p: Path)
    requires a <= p && b <= p && |a| <= |b|
    ensures a <= b
  {
    assert a == p[..|a|] && b == p[..|b|];
  }

  /** Resolution can only move deeper going down: what is beneath a path stays inside that path's root. */
  lemma BeneathStaysContained(root: Path, dir: Path, p: Path)
    requires Contains(root, dir) && Beneath(p, dir)
    ensures Beneath(p, root)
  {
    var sr, sd := SubtreePrefix(root), SubtreePrefix(dir);
    assert sr <= sd;
    assert p == sd + p[|sd|..];
  }

  /** mountpointFor: one pass that keeps the longest containing root seen so far. */
  method MountpointFor(ms: seq<Mountpoint>, p: Path) returns (best: Mountpoint, found: bool)
    ensures found <==> Deepest(ms, p).Some?
    ensures found ==> Deepest(ms, p) == Some(best)
    ensures IsDeepest(ms, p, if found then Some(best) else None)
  {
    best, found := Mountpoint(0, ""), false;
    var i := 0;
    while i < |ms|
      invariant 0 <= i <= |ms|
      invariant Deepest(ms[..i], p) == if found then Some(best) else None
    {
      var mp := ms[i];
      assert ms[..i + 1][..i] == ms[..i];
      if Contains(mp.root, p) && (!found || |mp.root| > |best.root|) {
        best, found := mp, true;
      }
      i := i + 1;
    }
    assert ms[..i] == ms;
    DeepestIsDeepest(ms, p);
  }
}
