/**
 * The disk as the update script sees it through `os` and `shutil`: a tree of
 * directories and files, kept as a map from component path to node. The
 * root `[]` is always a directory and every other entry sits in a directory.
 */
module FileSystem {
  import opened Wrappers
  import opened Paths

  datatype Node = Dir | File(content: string)

  /** The exceptions `os` and `shutil` raise on the operations modelled here. */
  datatype FsError =
    | NotFound(path: Path)
    | NotADirectory(path: Path)
    | IsADirectory(path: Path)
    | AlreadyExists(path: Path)

  /** The root is a directory and every entry's parent is a directory. */
  ghost predicate WellFormed(e: map<Path, Node>) {
    && [] in e && e[[]].Dir?
    && forall p {:trigger Parent(p)} :: p in e && p != [] ==> Parent(p) in e && e[Parent(p)].Dir?
  }

  predicate IsFileAt(e: map<Path, Node>, p: Path) {
    p in e && e[p].File?
  }

  predicate IsDirAt(e: map<Path, Node>, p: Path) {
    p in e && e[p].Dir?
  }

  /** The files strictly inside directory `d`. */
  ghost function FilesUnder(e: map<Path, Node>, d: Path): set<Path>
  {
    set q | q in e && StrictlyUnder(d, q) && e[q].File?
  }

  /** Every ancestor of an entry is a directory. */
  lemma {:induction false} AncestorsAreDirs(e: map<Path, Node>, q: Path, k: nat)
    requires WellFormed(e) && q in e && k < |q|
    ensures q[..k] in e && e[q[..k]].Dir?
    decreases |q| - k
  {
    if k == |q| - 1 {
      assert q[..k] == Parent(q);
    } else {
      AncestorsAreDirs(e, q, k + 1);
      var p := q[..k + 1];
      assert p != [] && Parent(p) == q[..k];
    }
  }

  /** Nothing lies inside a file. */
  lemma NothingUnderFile(e: map<Path, Node>, f: Path, q: Path)
    requires WellFormed(e) && IsFileAt(e, f) && q in e
    ensures !StrictlyUnder(f, q)
  {
    if StrictlyUnder(f, q) {
      AncestorsAreDirs(e, q, |f|);
    }
  }

  /** `e1` is `e0` with directories added along the way to `d`. */
  ghost predicate GrownToward(e0: map<Path, Node>, e1: map<Path, Node>, d: Path) {
    && (forall q :: q in e0 ==> q in e1 && e1[q] == e0[q])
    && (forall q :: q in e1 && q !in e0 ==> IsPrefix(q, d) && e1[q].Dir?)
  }

  /** No proper ancestor of `d` is a file. */
  ghost predicate NoFileAbove(e: map<Path, Node>, d: Path) {
    forall k :: 0 <= k < |d| ==> !IsFileAt(e, d[..k])
  }

  /** The ancestors of `d` are those of its parent and the parent itself. */
  lemma NoFileAboveParent(e: map<Path, Node>, d: Path)
    requires d != []
    ensures NoFileAbove(e, d) <==> NoFileAbove(e, Parent(d)) && !IsFileAt(e, Parent(d))
  {
    var p := Parent(d);
    assert forall k :: 0 <= k < |p| ==> d[..k] == p[..k];
    assert d[..|p|] == p;
  }

  /** When the parent of `d` exists, no ancestor above it is a file. */
  lemma NoFileAboveExisting(e: map<Path, Node>, d: Path)
    requires WellFormed(e) && d != [] && Parent(d) in e
    ensures NoFileAbove(e, Parent(d))
  {
    var p := Parent(d);
    forall k | 0 <= k < |p|
      ensures !IsFileAt(e, p[..k])
    {
      AncestorsAreDirs(e, p, k);
    }
  }

  /** `e1` is `e0` with directories added, each on the way to one of `targets`. */
  ghost predicate GrownTowardAny(e0: map<Path, Node>, e1: map<Path, Node>, targets: seq<Path>) {
    && (forall q :: q in e0 ==> q in e1 && e1[q] == e0[q])
    && (forall q :: q in e1 && q !in e0 ==> e1[q].Dir? && exists t :: t in targets && IsPrefix(q, t))
  }

  /** Directories added on the way to one path are added on the way to any list holding it. */
  lemma GrownTowardWiden(e0: map<Path, Node>, e1: map<Path, Node>, d: Path, targets: seq<Path>)
    requires GrownToward(e0, e1, d) && d in targets
    ensures GrownTowardAny(e0, e1, targets)
  {
  }

  /** Two rounds of added directories are one, toward the targets of both. */
  lemma GrownTowardAnyTrans(e0: map<Path, Node>, e1: map<Path, Node>, e2: map<Path, Node>,
                            ts1: seq<Path>, ts2: seq<Path>, targets: seq<Path>)
    requires GrownTowardAny(e0, e1, ts1) && GrownTowardAny(e1, e2, ts2)
    requires forall t :: t in ts1 ==> t in targets
    requires forall t :: t in ts2 ==> t in targets
    ensures GrownTowardAny(e0, e2, targets)
  {
  }

  /** Adding directories changes no file. */
  lemma GrownKeepsFiles(e0: map<Path, Node>, e1: map<Path, Node>, targets: seq<Path>, p: Path)
    requires GrownTowardAny(e0, e1, targets)
    ensures IsFileAt(e1, p) <==> IsFileAt(e0, p)
    ensures IsFileAt(e1, p) ==> e1[p] == e0[p]
  {
  }

  /** `ensure_exists(p)` succeeds on `e`: `p` exists already, or no file lies above it. */
  ghost predicate CanEnsure(e: map<Path, Node>, p: Path) {
    p in e || NoFileAbove(e, p)
  }

  /**
   * Adding directories does not change whether `ensure_exists` succeeds,
   * so the three paths of `run_update` can be ensured in any order.
   */
  lemma CanEnsureGrown(e0: map<Path, Node>, e1: map<Path, Node>, targets: seq<Path>, p: Path)
    requires WellFormed(e1) && GrownTowardAny(e0, e1, targets)
    ensures CanEnsure(e1, p) <==> CanEnsure(e0, p)
  {
    forall k | 0 <= k < |p|
      ensures IsFileAt(e1, p[..k]) <==> IsFileAt(e0, p[..k])
    {
      GrownKeepsFiles(e0, e1, targets, p[..k]);
    }
    if p in e1 && p !in e0 {
      forall k | 0 <= k < |p|
        ensures !IsFileAt(e1, p[..k])
      {
        AncestorsAreDirs(e1, p, k);
      }
    }
  }

  /** Entries outside `d` are those of `e0`, unchanged. */
  ghost predicate SameOutside(e0: map<Path, Node>, e1: map<Path, Node>, d: Path) {
    forall q :: !StrictlyUnder(d, q) ==> (q in e1 <==> q in e0) && (q in e1 ==> e1[q] == e0[q])
  }

  /** The entries of `e` outside `d`. */
  ghost function Outside(e: map<Path, Node>, d: Path): map<Path, Node>
  {
    map q | q in e && !StrictlyUnder(d, q) :: e[q]
  }

  lemma SameOutsideView(e0: map<Path, Node>, e1: map<Path, Node>, d: Path)
    requires SameOutside(e0, e1, d)
    ensures Outside(e0, d) == Outside(e1, d)
  {
  }

  /** Directories added on the way to `t` are, outside `d`, directories added there. */
  lemma GrownTowardOutside(e0: map<Path, Node>, e1: map<Path, Node>, d: Path, t: Path)
    requires GrownToward(e0, e1, t)
    ensures GrownToward(Outside(e0, d), Outside(e1, d), t)
  {
  }

  /** Every directory strictly inside `d` holds a file somewhere below it. */
  ghost predicate DirsHoldFiles(e: map<Path, Node>, d: Path) {
    forall q :: q in e && StrictlyUnder(d, q) && e[q].Dir? ==> exists f :: f in FilesUnder(e, d) && StrictlyUnder(q, f)
  }

  /**
   * The working tree of a commit: the content of each file by its path
   * relative to the repository root. No path is empty and no file lies
   * inside another.
   */
  predicate ValidWorkTree(files: map<Path, string>) {
    && [] !in files
    && forall p, k :: p in files && 0 < k < |p| ==> p[..k] !in files
  }

  type WorkTree = files: map<Path, string> | ValidWorkTree(files) witness map[]

  /**
   * Directory `d` of `e` holds exactly the working tree `files`: each file
   * with its content, no other file, and no directory without a file below it.
   */
  ghost predicate HoldsTree(e: map<Path, Node>, d: Path, files: WorkTree) {
    && IsDirAt(e, d)
    && (forall p :: p in files ==> d + p in e && e[d + p] == File(files[p]))
    && (forall q :: q in FilesUnder(e, d) ==> q[|d|..] in files)
    && DirsHoldFiles(e, d)
  }

  /** The entries a checkout of `files` into `d` creates: each file and every directory above it. */
  function TreeEntries(d: Path, files: WorkTree): set<Path>
  {
    (set p | p in files :: d + p) + (set p, k | p in files && 0 < k < |p| :: d + p[..k])
  }

  /** `e` with everything inside `d` replaced by the working tree `files`. */
  function CheckedOut(e: map<Path, Node>, d: Path, files: WorkTree): map<Path, Node>
  {
    map q | q in (set q | q in e && !StrictlyUnder(d, q)) + TreeEntries(d, files) ::
      if q in e && !StrictlyUnder(d, q) then e[q]
      else if |d| <= |q| && q[|d|..] in files then File(files[q[|d|..]])
      else Dir
  }

  /** Every entry a checkout creates lies inside `d`; the files are the tree's paths. */
  lemma TreeEntriesInside(d: Path, files: WorkTree, q: Path)
    requires q in TreeEntries(d, files)
    ensures StrictlyUnder(d, q)
    ensures q[|d|..] in files || exists p, k :: p in files && 0 < k < |p| && q[|d|..] == p[..k]
  {
    if p :| p in files && q == d + p {
      assert q[..|d|] == d && q[|d|..] == p;
    } else {
      var p, k :| p in files && 0 < k < |p| && q == d + p[..k];
      assert q[..|d|] == d && q[|d|..] == p[..k];
    }
  }

  /** A checkout into `d` changes nothing outside it. */
  lemma CheckedOutOutside(e: map<Path, Node>, d: Path, files: WorkTree)
    ensures SameOutside(e, CheckedOut(e, d, files), d)
  {
    var r := CheckedOut(e, d, files);
    forall q | !StrictlyUnder(d, q)
      ensures (q in r <==> q in e) && (q in r ==> r[q] == e[q])
    {
      if q in TreeEntries(d, files) {
        TreeEntriesInside(d, files, q);
      }
    }
  }

  /** The parent of a created entry is `d` or a created directory. */
  lemma CreatedParent(e: map<Path, Node>, d: Path, files: WorkTree, q: Path)
    requires IsDirAt(e, d) && q in TreeEntries(d, files)
    ensures Parent(q) in CheckedOut(e, d, files) && CheckedOut(e, d, files)[Parent(q)].Dir?
  {
    TreeEntriesInside(d, files, q);
    var a := q[|d|..];
    assert q == d + a;
    assert Parent(q) == d + a[..|a| - 1];
    if |a| > 1 {
      var p: Path, k: nat;
      if a in files {
        p, k := a, |a|;
      } else {
        p, k :| p in files && 0 < k < |p| && a == p[..k];
      }
      assert a[..|a| - 1] == p[..k - 1];
      assert Parent(q) in TreeEntries(d, files);
      assert Parent(q)[|d|..] == p[..k - 1];
    } else {
      assert Parent(q) == d;
    }
  }

  /** A checkout into an existing directory keeps the disk well formed. */
  lemma CheckedOutWellFormed(e: map<Path, Node>, d: Path, files: WorkTree)
    requires WellFormed(e) && IsDirAt(e, d)
    ensures WellFormed(CheckedOut(e, d, files))
  {
    var r := CheckedOut(e, d, files);
    forall q | q in r && q != []
      ensures Parent(q) in r && r[Parent(q)].Dir?
    {
      if q in e && !StrictlyUnder(d, q) {
        assert !StrictlyUnder(d, Parent(q));
      } else {
        CreatedParent(e, d, files, q);
      }
    }
  }

  /** A checkout writes each file of the working tree with its content. */
  lemma CheckedOutFiles(e: map<Path, Node>, d: Path, files: WorkTree, p: Path)
    requires p in files
    ensures d + p in CheckedOut(e, d, files) && CheckedOut(e, d, files)[d + p] == File(files[p])
  {
    assert d + p in TreeEntries(d, files);
    assert (d + p)[|d|..] == p && StrictlyUnder(d, d + p);
  }

  /** Every directory a checkout leaves inside `d` lies above one of the files it writes. */
  lemma CheckedOutDir(e: map<Path, Node>, d: Path, files: WorkTree, q: Path)
    requires q in CheckedOut(e, d, files) && StrictlyUnder(d, q) && CheckedOut(e, d, files)[q].Dir?
    ensures exists f :: f in FilesUnder(CheckedOut(e, d, files), d) && StrictlyUnder(q, f)
  {
    TreeEntriesInside(d, files, q);
    var p, k :| p in files && 0 < k < |p| && q[|d|..] == p[..k];
    var f := d + p;
    CheckedOutFiles(e, d, files, p);
    assert StrictlyUnder(d, f) by {
      assert f[..|d|] == d;
    }
    assert q == d + p[..k];
    assert StrictlyUnder(q, f);
  }

  /** A checkout leaves exactly the working tree inside `d`. */
  lemma CheckedOutHolds(e: map<Path, Node>, d: Path, files: WorkTree)
    requires IsDirAt(e, d)
    ensures HoldsTree(CheckedOut(e, d, files), d, files)
  {
    var r := CheckedOut(e, d, files);
    forall p | p in files
      ensures d + p in r && r[d + p] == File(files[p])
    {
      CheckedOutFiles(e, d, files, p);
    }
    forall q | q in r && StrictlyUnder(d, q) && r[q].Dir?
      ensures exists f :: f in FilesUnder(r, d) && StrictlyUnder(q, f)
    {
      CheckedOutDir(e, d, files, q);
    }
  }

  /** The map left by `shutil.rmtree(p)`: `p` and everything inside it removed. */
  function WithoutTree(e: map<Path, Node>, p: Path): (r: map<Path, Node>)
    ensures forall q :: q in r <==> q in e && !IsPrefix(p, q)
    ensures forall q :: q in r ==> r[q] == e[q]
  {
    map q | q in e && !IsPrefix(p, q) :: e[q]
  }

  /** Removing a subtree other than the root keeps the tree well formed. */
  lemma WithoutTreeWellFormed(e: map<Path, Node>, p: Path)
    requires WellFormed(e) && p != []
    ensures WellFormed(WithoutTree(e, p))
  {
    var r := WithoutTree(e, p);
    forall q | q in r && q != []
      ensures Parent(q) in r && r[Parent(q)].Dir?
    {
    }
  }

  class Disk {
    var entries: map<Path, Node>

    ghost predicate Valid()
      reads this
    {
      WellFormed(entries)
    }

    constructor (e: map<Path, Node>)
      requires WellFormed(e)
      ensures Valid() && entries == e
    {
      entries := e;
    }

    /** `os.path.exists(p)`. */
    function Exists(p: Path): bool
      reads this
    {
      p in entries
    }

    /** `os.path.isdir(p)`. */
    function IsDir(p: Path): bool
      reads this
    {
      IsDirAt(entries, p)
    }

    /** `os.listdir(d)`: the names of the entries directly inside `d`. */
    function ListDir(d: Path): (names: set<string>)
      reads this
      ensures forall n :: n in names <==> d + [n] in entries
    {
      var names := set q | q in entries.Keys && |q| == |d| + 1 && q[..|d|] == d :: q[|d|];
      assert forall n :: d + [n] in entries ==> (d + [n])[..|d|] == d && n in names;
      assert forall q :: q in entries && |q| == |d| + 1 && q[..|d|] == d ==> q == d + [q[|d|]];
      names
    }

    /** `shutil.rmtree(p)`. */
    method RemoveTree(p: Path)
      requires Valid() && p != []
      modifies this
      ensures Valid() && entries == WithoutTree(old(entries), p)
    {
      WithoutTreeWellFormed(entries, p);
      entries := WithoutTree(entries, p);
    }

    /** `os.remove(p)` on a file. */
    method Remove(p: Path)
      requires Valid() && IsFileAt(entries, p)
      modifies this
      ensures Valid() && entries == old(entries) - {p}
    {
      ghost var e := entries;
      entries := entries - {p};
      forall q | q in entries && q != []
        ensures Parent(q) in entries && entries[Parent(q)].Dir?
      {
        assert Parent(q) in e && e[Parent(q)].Dir?;
      }
    }

    /**
     * `os.makedirs(d)`: create the missing ancestors of `d`, then `d`. It
     * fails when `d` already exists or when an ancestor is a file; the
     * directories created before a failure stay (the call is not atomic).
     */
    method MakeDirs(d: Path) returns (out: Outcome<FsError>)
      requires Valid()
      modifies this
      ensures Valid()
      ensures GrownToward(old(entries), entries, d)
      ensures out.Pass? <==> d !in old(entries) && NoFileAbove(old(entries), d)
      ensures out.Pass? ==> IsDirAt(entries, d)
      decreases |d|
    {
      if d in entries {
        return Fail(AlreadyExists(d));
      }
      var p := Parent(d);
      if p !in entries {
        out := MakeDirs(p);
        if out.Fail? {
          NoFileAboveParent(old(entries), d);
          return;
        }
      } else {
        NoFileAboveExisting(entries, d);
      }
      if entries[p].File? {
        return Fail(NotADirectory(p));
      }
      NoFileAboveParent(old(entries), d);
      entries := entries[d := Dir];
      return Pass;
    }

    /**
     * What `git clone` or `git checkout` does to the clone directory `d`:
     * its contents become the working tree of the commit checked out.
     */
    method WriteTree(d: Path, files: WorkTree)
      requires Valid() && IsDirAt(entries, d)
      modifies this
      ensures Valid()
      ensures SameOutside(old(entries), entries, d)
      ensures HoldsTree(entries, d, files)
    {
      CheckedOutWellFormed(entries, d, files);
      CheckedOutOutside(entries, d, files);
      CheckedOutHolds(entries, d, files);
      entries := CheckedOut(entries, d, files);
    }

    /**
     * `shutil.copy2(src, dst)`: copy the file at `src` to `dst`, whose
     * directory must exist. Copying onto an existing directory is refused.
     */
    method Copy(src: Path, dst: Path) returns (out: Outcome<FsError>)
      requires Valid()
      modifies this
      ensures Valid()
      ensures out.Pass? <==>
        IsFileAt(old(entries), src) && dst != [] && !IsDirAt(old(entries), dst) && IsDirAt(old(entries), Parent(dst))
      ensures out.Pass? ==> entries == old(entries)[dst := old(entries)[src]]
      ensures out.Fail? ==> entries == old(entries)
    {
      if src !in entries {
        return Fail(NotFound(src));
      }
      if entries[src].Dir? {
        return Fail(IsADirectory(src));
      }
      if dst == [] || IsDirAt(entries, dst) {
        return Fail(IsADirectory(dst));
      }
      if Parent(dst) !in entries {
        return Fail(NotFound(Parent(dst)));
      }
      if entries[Parent(dst)].File? {
        return Fail(NotADirectory(Parent(dst)));
      }
      entries := entries[dst := entries[src]];
      return Pass;
    }
  }
}
