/**
 * The remote repository mirror (`WebPlatformTests`): a local git clone of
 * the upstream test suite that is updated to a target revision on a
 * throwaway branch and copied, tracked files only, into the test directory.
 */
module Mirror {
  import opened Wrappers
  import opened Text
  import opened Paths
  import opened FileSystem
  import opened MirrorOutput

  type Rev = string

  /** What can go wrong in the mirror. */
  datatype MirrorError =
    | RepositoryError(path: string)     // the existing clone has uncommitted changes
    | GitFailed(command: seq<string>)   // a git command exited non-zero
    | AssertionFailed                   // an `assert` in the source
    | TypeError                         // `None` passed to git as a command argument
    | IndexError                        // a submodule status line without a second field
    | Os(error: FsError)                // an `os` / `shutil` exception

  /**
   * The git repository at the mirror's path, as far as the mirror observes
   * it: whether the path is a git root, what `git status --porcelain`
   * prints, the branches and the checked-out commit.
   */
  class GitClone {
    var isRoot: bool
    var porcelain: string
    var branches: map<string, Rev>
    var head: Rev
    var checkedOut: Option<string>

    constructor (isRoot: bool, porcelain: string, branches: map<string, Rev>, head: Rev, checkedOut: Option<string>)
      ensures this.isRoot == isRoot && this.porcelain == porcelain && this.branches == branches
      ensures this.head == head && this.checkedOut == checkedOut
    {
      this.isRoot := isRoot;
      this.porcelain := porcelain;
      this.branches := branches;
      this.head := head;
      this.checkedOut := checkedOut;
    }
  }

  /**
   * The `rev` property of the mirror: the commit checked out in the clone
   * when its path is a git root, `None` otherwise.
   */
  function Revision(clone: GitClone): Option<Rev>
    reads clone
  {
    if clone.isRoot then Some(clone.head) else None
  }

  /** The two support files overlaid on every copied tree, and where they go. */
  const RunnerFile := "testharness_runner.html"
  const ReportFile := "testharnessreport.js"

  function RunnerTarget(dest: Path): Path { dest + [RunnerFile] }
  function ReportTarget(dest: Path): Path { dest + ["resources", ReportFile] }

  /** The destinations of the tracked paths whose source in the clone is a file. */
  ghost function Copied(e: map<Path, Node>, repo: Path, dest: Path, tree: seq<string>): set<Path>
  {
    set t | t in tree && IsFileAt(e, repo + Components(t)) :: dest + Components(t)
  }

  /** Every file inside `d` holds the content of the file at the same relative path in `repo`. */
  ghost predicate MirrorsContent(e0: map<Path, Node>, e1: map<Path, Node>, repo: Path, d: Path) {
    forall q :: q in FilesUnder(e1, d) ==> repo + q[|d|..] in e0 && e1[q] == e0[repo + q[|d|..]]
  }

  /** A path apart from `d` stays outside `d` whatever is appended to it. */
  lemma ApartStaysOutside(a: Path, d: Path, c: Path)
    requires Apart(a, d)
    ensures !StrictlyUnder(d, a + c) && a + c != d
  {
  }

  /** The prefixes `os.makedirs` may create for a path inside `d` all lie inside `d`. */
  lemma NewPrefixesInside(e: map<Path, Node>, d: Path, c: Path, q: Path)
    requires WellFormed(e) && IsDirAt(e, d) && c != []
    requires IsPrefix(q, Dirname(d + c)) && q !in e
    ensures StrictlyUnder(d, q)
  {
    var dir := Dirname(d + c);
    assert dir == d + c[..|c| - 1];
    if |q| < |d| {
      assert q == d[..|q|];
      AncestorsAreDirs(e, d, |q|);
    }
  }

  /** Creating the missing directories toward a path inside `d` changes nothing outside `d` and adds no file. */
  lemma MakeDirsInside(e0: map<Path, Node>, e1: map<Path, Node>, d: Path, c: Path)
    requires WellFormed(e0) && IsDirAt(e0, d) && c != []
    requires GrownToward(e0, e1, Dirname(d + c))
    ensures SameOutside(e0, e1, d) && IsDirAt(e1, d)
    ensures FilesUnder(e1, d) == FilesUnder(e0, d)
    ensures forall q :: q in e0 ==> q in e1 && e1[q] == e0[q]
  {
    forall q | q in e1 && q !in e0
      ensures StrictlyUnder(d, q)
    {
      NewPrefixesInside(e0, d, c, q);
    }
  }

  /** Copying a file to a path inside `d` adds exactly that file under `d` and changes nothing outside. */
  lemma CopyInside(e0: map<Path, Node>, d: Path, src: Path, dst: Path)
    requires src in e0 && e0[src].File? && StrictlyUnder(d, dst)
    ensures SameOutside(e0, e0[dst := e0[src]], d)
    ensures FilesUnder(e0[dst := e0[src]], d) == FilesUnder(e0, d) + {dst}
  {
  }

  /** Agreement outside `d` is transitive. */
  lemma SameOutsideTrans(e0: map<Path, Node>, e1: map<Path, Node>, e2: map<Path, Node>, d: Path)
    requires SameOutside(e0, e1, d) && SameOutside(e1, e2, d)
    ensures SameOutside(e0, e2, d)
  {
  }

  /**
   * `e` is `e0` with the entries under `d` removed, except those inside the
   * children of `d` that `names` still lists.
   */
  ghost predicate WipedExcept(e0: map<Path, Node>, e: map<Path, Node>, d: Path, names: set<string>) {
    forall q ::
      && (q in e <==> q in e0 && (!StrictlyUnder(d, q) || q[|d|] in names))
      && (q in e ==> e[q] == e0[q])
  }

  /** `os.remove` of a file is `shutil.rmtree` of it: nothing lies inside a file. */
  lemma RemoveFileIsRemoveTree(e: map<Path, Node>, p: Path)
    requires WellFormed(e) && IsFileAt(e, p)
    ensures e - {p} == WithoutTree(e, p)
  {
    forall q | q in e && IsPrefix(p, q) && q != p
      ensures false
    {
      NothingUnderFile(e, p, q);
    }
  }

  /** Removing the child `n` of `d` takes `n` off the children left to remove. */
  lemma WipeStep(e0: map<Path, Node>, e: map<Path, Node>, d: Path, names: set<string>, n: string)
    requires WipedExcept(e0, e, d, names) && n in names
    ensures WipedExcept(e0, WithoutTree(e, d + [n]), d, names - {n})
  {
    var p := d + [n];
    forall q
      ensures IsPrefix(p, q) <==> StrictlyUnder(d, q) && q[|d|] == n
    {
      if StrictlyUnder(d, q) && q[|d|] == n {
        assert q[..|p|] == q[..|d|] + [q[|d|]];
      }
    }
  }

  /** `shutil.rmtree` / `os.remove` of every entry `os.listdir(d)` names. */
  method Wipe(disk: Disk, d: Path)
    requires disk.Valid() && IsDirAt(disk.entries, d)
    modifies disk
    ensures disk.Valid() && IsDirAt(disk.entries, d)
    ensures forall q :: q in disk.entries <==> q in old(disk.entries) && !StrictlyUnder(d, q)
    ensures forall q :: q in disk.entries ==> disk.entries[q] == old(disk.entries)[q]
  {
    ghost var e0 := disk.entries;
    var names := disk.ListDir(d);
    forall q | q in e0 && StrictlyUnder(d, q)
      ensures q[|d|] in names
    {
      if |d| + 1 < |q| {
        AncestorsAreDirs(e0, q, |d| + 1);
      }
      assert q[..|d| + 1] == d + [q[|d|]];
    }
    while names != {}
      invariant disk.Valid()
      invariant forall n :: n in names ==> d + [n] in e0
      invariant WipedExcept(e0, disk.entries, d, names)
      decreases names
    {
      var n :| n in names;
      var p := d + [n];
      assert p in disk.entries by {
        assert p[..|d|] == d;
      }
      ghost var e := disk.entries;
      if disk.IsDir(p) {
        disk.RemoveTree(p);
      } else {
        RemoveFileIsRemoveTree(disk.entries, p);
        disk.Remove(p);
      }
      WipeStep(e0, e, d, names, n);
      names := names - {n};
    }
  }

  /** The destinations of the first tracked paths grow by one path at a time. */
  lemma CopiedStep(e: map<Path, Node>, repo: Path, dest: Path, tree: seq<string>, i: nat)
    requires i < |tree|
    ensures Copied(e, repo, dest, tree[..i + 1]) ==
      Copied(e, repo, dest, tree[..i]) +
      (if IsFileAt(e, repo + Components(tree[i])) then {dest + Components(tree[i])} else {})
  {
    assert tree[..i + 1] == tree[..i] + [tree[i]];
  }

  /**
   * Creating directories toward a file's place inside `d` and then copying
   * the file there leaves every directory inside `d` above some file.
   */
  lemma CopyHoldsDirs(e0: map<Path, Node>, e1: map<Path, Node>, d: Path, dst: Path, n: Node)
    requires DirsHoldFiles(e0, d) && GrownToward(e0, e1, Dirname(dst)) && StrictlyUnder(d, dst) && n.File?
    ensures DirsHoldFiles(e1[dst := n], d)
  {
    var e2 := e1[dst := n];
    assert dst in FilesUnder(e2, d);
    forall q | q in e2 && StrictlyUnder(d, q) && e2[q].Dir?
      ensures exists f :: f in FilesUnder(e2, d) && StrictlyUnder(q, f)
    {
      if q in e0 {
        var f :| f in FilesUnder(e0, d) && StrictlyUnder(q, f);
        assert f in FilesUnder(e2, d);
      } else {
        assert IsPrefix(q, Dirname(dst));
        assert dst[..|q|] == Dirname(dst)[..|q|];
        assert StrictlyUnder(q, dst);
      }
    }
  }

  /**
   * The source of tracked path `c` exists in the clone at `repo`; the
   * clone's root itself, listed as `.`, exists only as a directory, which
   * the copy skips.
   */
  ghost predicate SourceExists(e: map<Path, Node>, repo: Path, c: Path) {
    repo + c in e && (c == [] ==> IsDirAt(e, repo))
  }

  /** Every entry inside `d` has an entry of the same kind at the same relative path in `repo`. */
  ghost predicate ShapedLike(e: map<Path, Node>, repo: Path, d: Path) {
    forall c :: c != [] && d + c in e ==> repo + c in e && (e[d + c].Dir? <==> e[repo + c].Dir?)
  }

  /** Inside a destination shaped like the clone, no entry above a source file's place is a file. */
  lemma ShapedAbove(e: map<Path, Node>, repo: Path, d: Path, c: Path, j: nat)
    requires WellFormed(e) && IsDirAt(e, d) && ShapedLike(e, repo, d) && IsFileAt(e, repo + c) && j < |c|
    ensures d + c[..j] in e ==> IsDirAt(e, d + c[..j])
  {
    if j == 0 {
      assert d + c[..j] == d;
    } else {
      AncestorsAreDirs(e, repo + c, |repo| + j);
      assert (repo + c)[..|repo| + j] == repo + c[..j];
    }
  }

  /**
   * In a destination shaped like the clone, the directories toward a
   * source file's place can be made, and its place is not a directory.
   */
  lemma ShapedCopyFits(e: map<Path, Node>, repo: Path, d: Path, c: Path)
    requires WellFormed(e) && IsDirAt(e, d) && ShapedLike(e, repo, d) && IsFileAt(e, repo + c) && c != []
    ensures NoFileAbove(e, Dirname(d + c))
    ensures Dirname(d + c) in e ==> IsDirAt(e, Dirname(d + c))
    ensures !IsDirAt(e, d + c)
  {
    var dir := Dirname(d + c);
    assert dir == d + c[..|c| - 1];
    forall k | 0 <= k < |dir|
      ensures !IsFileAt(e, dir[..k])
    {
      if k < |d| {
        assert dir[..k] == d[..k];
        AncestorsAreDirs(e, d, k);
      } else {
        assert dir[..k] == d + c[..k - |d|];
        ShapedAbove(e, repo, d, c, k - |d|);
      }
    }
    ShapedAbove(e, repo, d, c, |c| - 1);
  }

  /** A directory made toward a source file's place inside `d` mirrors a directory above the source. */
  lemma ShapedNewDir(e0: map<Path, Node>, repo: Path, d: Path, c: Path, x: Path)
    requires WellFormed(e0) && IsDirAt(e0, d) && IsFileAt(e0, repo + c) && c != []
    requires IsPrefix(d + x, Dirname(d + c)) && d + x !in e0
    ensures x != [] && IsDirAt(e0, repo + x)
  {
    var dir := Dirname(d + c);
    assert dir == d + c[..|c| - 1];
    assert dir[..|d + x|] == d + c[..|x|];
    assert x == (d + x)[|d|..] == c[..|x|];
    AncestorsAreDirs(e0, repo + c, |repo| + |x|);
    assert (repo + c)[..|repo| + |x|] == repo + x;
  }

  /** Making the directories toward a source file's place and copying it there keeps the destination shaped like the clone. */
  lemma ShapedCopy(e0: map<Path, Node>, e1: map<Path, Node>, repo: Path, d: Path, c: Path)
    requires WellFormed(e0) && IsDirAt(e0, d) && Apart(repo, d) && ShapedLike(e0, repo, d)
    requires IsFileAt(e0, repo + c) && c != [] && GrownToward(e0, e1, Dirname(d + c))
    ensures ShapedLike(e1[d + c := e0[repo + c]], repo, d)
  {
    var e2 := e1[d + c := e0[repo + c]];
    forall x | x != [] && d + x in e2
      ensures repo + x in e2 && (e2[d + x].Dir? <==> e2[repo + x].Dir?)
    {
      ApartStaysOutside(repo, d, x);
      assert StrictlyUnder(d, d + x);
      if x == c {
      } else if d + x !in e0 {
        ShapedNewDir(e0, repo, d, c, x);
      }
      assert repo + x in e0 && e2[repo + x] == e0[repo + x];
    }
  }

  /**
   * One tracked path of `copy_work_tree`: unless its source is a directory,
   * create the destination's directory when it is missing and copy the file.
   */
  method CopyOne(disk: Disk, repo: Path, d: Path, c: Path) returns (out: Outcome<FsError>)
    requires disk.Valid() && IsDirAt(disk.entries, d)
    modifies disk
    ensures disk.Valid() && IsDirAt(disk.entries, d)
    ensures SameOutside(old(disk.entries), disk.entries, d)
    ensures out.Pass? && IsFileAt(old(disk.entries), repo + c) && !StrictlyUnder(d, repo + c) ==>
      && FilesUnder(disk.entries, d) == FilesUnder(old(disk.entries), d) + {d + c}
      && disk.entries[d + c] == old(disk.entries)[repo + c]
      && forall q :: q in FilesUnder(old(disk.entries), d) && q != d + c ==> disk.entries[q] == old(disk.entries)[q]
    ensures out.Pass? && !IsFileAt(old(disk.entries), repo + c) ==> disk.entries == old(disk.entries)
    ensures out.Pass? && DirsHoldFiles(old(disk.entries), d) ==> DirsHoldFiles(disk.entries, d)
    ensures out.Pass? ==> SourceExists(old(disk.entries), repo, c)
    ensures Apart(repo, d) && ShapedLike(old(disk.entries), repo, d) && SourceExists(old(disk.entries), repo, c) ==>
      out.Pass? && ShapedLike(disk.entries, repo, d)
  {
    var src := repo + c;
    var dst := d + c;
    if disk.IsDir(src) {
      assert c == [] ==> src == repo;
      return Pass;
    }
    if c == [] {
      assert dst == d && src == repo;
      out := disk.Copy(src, dst);
      return;
    }
    ghost var e0 := disk.entries;
    ghost var fits := Apart(repo, d) && ShapedLike(e0, repo, d) && SourceExists(e0, repo, c);
    if fits {
      ShapedCopyFits(e0, repo, d, c);
    }
    var dir := Dirname(dst);
    if !disk.Exists(dir) {
      out := disk.MakeDirs(dir);
      MakeDirsInside(e0, disk.entries, d, c);
      if out.Fail? {
        return;
      }
    }
    ghost var e1 := disk.entries;
    assert dir == Parent(dst);
    out := disk.Copy(src, dst);
    if out.Pass? {
      CopyInside(e1, d, src, dst);
      SameOutsideTrans(e0, e1, disk.entries, d);
      if DirsHoldFiles(e0, d) {
        CopyHoldsDirs(e0, e1, d, dst, e1[src]);
      }
      if fits {
        ShapedCopy(e0, e1, repo, d, c);
      }
    }
  }

  /** One more tracked path keeps every copied file's content that of its source. */
  lemma MirrorStep(e0: map<Path, Node>, e1: map<Path, Node>, e2: map<Path, Node>, repo: Path, d: Path, c: Path)
    requires Apart(repo, d) && SameOutside(e0, e1, d) && MirrorsContent(e0, e1, repo, d)
    requires IsFileAt(e1, repo + c)
    requires FilesUnder(e2, d) == FilesUnder(e1, d) + {d + c}
    requires e2[d + c] == e1[repo + c]
    requires forall q :: q in FilesUnder(e1, d) && q != d + c ==> e2[q] == e1[q]
    ensures MirrorsContent(e0, e2, repo, d)
  {
    ApartStaysOutside(repo, d, c);
    forall q | q in FilesUnder(e2, d)
      ensures repo + q[|d|..] in e0 && e2[q] == e0[repo + q[|d|..]]
    {
      if q == d + c {
        assert q[|d|..] == c;
      }
    }
  }

  /** Changes inside `d` do not change which sources exist in a clone apart from `d`. */
  lemma SourceExistsOutside(e0: map<Path, Node>, e1: map<Path, Node>, repo: Path, d: Path, c: Path)
    requires SameOutside(e0, e1, d) && Apart(repo, d)
    ensures SourceExists(e1, repo, c) <==> SourceExists(e0, repo, c)
  {
    ApartStaysOutside(repo, d, c);
    ApartStaysOutside(repo, d, []);
    assert repo + [] == repo;
  }

  /**
   * After the first `i` tracked paths, copied from a clone apart from `d`:
   * the files under `d` are their file sources' copies, with the sources'
   * content, the destination is shaped like the clone, and every source
   * so far existed.
   */
  ghost predicate TrackedSoFar(e0: map<Path, Node>, e: map<Path, Node>, repo: Path, d: Path, tree: seq<string>, i: nat)
    requires i <= |tree|
  {
    && FilesUnder(e, d) == Copied(e0, repo, d, tree[..i])
    && MirrorsContent(e0, e, repo, d)
    && ShapedLike(e, repo, d)
    && forall j :: 0 <= j < i ==> SourceExists(e0, repo, Components(tree[j]))
  }

  /** A successful copy of the next tracked path extends what the first ones left. */
  lemma TrackedStep(e0: map<Path, Node>, e1: map<Path, Node>, e2: map<Path, Node>, repo: Path, d: Path,
                    tree: seq<string>, i: nat)
    requires Apart(repo, d) && i < |tree| && SameOutside(e0, e1, d) && TrackedSoFar(e0, e1, repo, d, tree, i)
    requires var c := Components(tree[i]);
      && (IsFileAt(e1, repo + c) && !StrictlyUnder(d, repo + c) ==>
            && FilesUnder(e2, d) == FilesUnder(e1, d) + {d + c}
            && e2[d + c] == e1[repo + c]
            && forall q :: q in FilesUnder(e1, d) && q != d + c ==> e2[q] == e1[q])
      && (!IsFileAt(e1, repo + c) ==> e2 == e1)
      && SourceExists(e1, repo, c) && ShapedLike(e2, repo, d)
    ensures TrackedSoFar(e0, e2, repo, d, tree, i + 1)
  {
    var c := Components(tree[i]);
    ApartStaysOutside(repo, d, c);
    SourceExistsOutside(e0, e1, repo, d, c);
    assert IsFileAt(e1, repo + c) == IsFileAt(e0, repo + c);
    CopiedStep(e0, repo, d, tree, i);
    if IsFileAt(e1, repo + c) {
      MirrorStep(e0, e1, e2, repo, d, c);
    }
  }

  /** One turn of the tracked-path loop: copy the `i`th tracked path. */
  method CopyNext(disk: Disk, repo: Path, d: Path, tree: seq<string>, i: nat, ghost e0: map<Path, Node>)
    returns (out: Outcome<FsError>)
    requires disk.Valid() && IsDirAt(disk.entries, d) && i < |tree|
    requires SameOutside(e0, disk.entries, d) && DirsHoldFiles(disk.entries, d)
    requires Apart(repo, d) ==> TrackedSoFar(e0, disk.entries, repo, d, tree, i)
    modifies disk
    ensures disk.Valid() && IsDirAt(disk.entries, d) && SameOutside(e0, disk.entries, d)
    ensures out.Pass? ==> DirsHoldFiles(disk.entries, d)
    ensures out.Pass? && Apart(repo, d) ==> TrackedSoFar(e0, disk.entries, repo, d, tree, i + 1)
    ensures out.Fail? && Apart(repo, d) ==> !SourceExists(e0, repo, Components(tree[i]))
  {
    var c := Components(tree[i]);
    ghost var e1 := disk.entries;
    if Apart(repo, d) {
      SourceExistsOutside(e0, e1, repo, d, c);
    }
    out := CopyOne(disk, repo, d, c);
    if out.Pass? && Apart(repo, d) {
      TrackedStep(e0, e1, disk.entries, repo, d, tree, i);
    }
    SameOutsideTrans(e0, e1, disk.entries, d);
  }

  /**
   * The tracked-path loop of `copy_work_tree`. When the clone lies outside
   * `d`, it succeeds exactly when every tracked path's source exists.
   */
  method CopyTracked(disk: Disk, repo: Path, d: Path, tree: seq<string>) returns (out: Outcome<FsError>)
    requires disk.Valid() && IsDirAt(disk.entries, d)
    requires FilesUnder(disk.entries, d) == {} && DirsHoldFiles(disk.entries, d)
    modifies disk
    ensures disk.Valid() && IsDirAt(disk.entries, d)
    ensures SameOutside(old(disk.entries), disk.entries, d)
    ensures out.Pass? ==> DirsHoldFiles(disk.entries, d)
    ensures out.Pass? && Apart(repo, d) ==> FilesUnder(disk.entries, d) == Copied(old(disk.entries), repo, d, tree)
    ensures out.Pass? && Apart(repo, d) ==> MirrorsContent(old(disk.entries), disk.entries, repo, d)
    ensures Apart(repo, d) ==>
      (out.Pass? <==> forall t :: t in tree ==> SourceExists(old(disk.entries), repo, Components(t)))
  {
    ghost var e0 := disk.entries;
    assert ShapedLike(e0, repo, d) by {
      assert forall c :: c != [] && d + c in e0 && e0[d + c].File? ==> d + c in FilesUnder(e0, d);
    }
    var i := 0;
    while i < |tree|
      invariant 0 <= i <= |tree|
      invariant disk.Valid() && IsDirAt(disk.entries, d)
      invariant SameOutside(e0, disk.entries, d)
      invariant DirsHoldFiles(disk.entries, d)
      invariant Apart(repo, d) ==> TrackedSoFar(e0, disk.entries, repo, d, tree, i)
    {
      out := CopyNext(disk, repo, d, tree, i, e0);
      if out.Fail? {
        return;
      }
      i := i + 1;
    }
    assert tree[..i] == tree;
    assert Apart(repo, d) ==> forall t :: t in tree ==> SourceExists(e0, repo, Components(t));
    out := Pass;
  }

  /** Clearing `d` leaves the sources outside `d`, and so the set of paths to copy, as they were. */
  lemma CopiedOutside(e0: map<Path, Node>, e1: map<Path, Node>, repo: Path, d: Path, tree: seq<string>)
    requires Apart(repo, d) && SameOutside(e0, e1, d)
    ensures Copied(e1, repo, d, tree) == Copied(e0, repo, d, tree)
  {
    forall t | t in tree {
      ApartStaysOutside(repo, d, Components(t));
    }
  }

  /** Content mirrored from the sources after clearing `d` is content mirrored from the original sources. */
  lemma MirrorsOutside(e0: map<Path, Node>, e1: map<Path, Node>, e2: map<Path, Node>, repo: Path, d: Path)
    requires Apart(repo, d) && SameOutside(e0, e1, d) && MirrorsContent(e1, e2, repo, d)
    ensures MirrorsContent(e0, e2, repo, d)
  {
    forall q | q in FilesUnder(e2, d)
      ensures repo + q[|d|..] in e0 && e2[q] == e0[repo + q[|d|..]]
    {
      ApartStaysOutside(repo, d, q[|d|..]);
    }
  }

  /** `shutil.copy2(src, dst)` onto a place inside `d`: one file more under `d`, nothing else changed. */
  method CopyInto(disk: Disk, src: Path, dst: Path, d: Path) returns (out: Outcome<FsError>)
    requires disk.Valid() && StrictlyUnder(d, dst)
    modifies disk
    ensures disk.Valid()
    ensures out.Pass? <==> IsFileAt(old(disk.entries), src) && !IsDirAt(old(disk.entries), dst) && IsDirAt(old(disk.entries), Parent(dst))
    ensures out.Pass? ==> disk.entries == old(disk.entries)[dst := old(disk.entries)[src]]
    ensures out.Fail? ==> disk.entries == old(disk.entries)
    ensures SameOutside(old(disk.entries), disk.entries, d)
    ensures out.Pass? ==> FilesUnder(disk.entries, d) == FilesUnder(old(disk.entries), d) + {dst}
    ensures out.Pass? && DirsHoldFiles(old(disk.entries), d) ==> DirsHoldFiles(disk.entries, d)
  {
    ghost var e0 := disk.entries;
    out := disk.Copy(src, dst);
    if out.Pass? {
      CopyInside(e0, d, src, dst);
      if DirsHoldFiles(e0, d) {
        CopyHoldsDirs(e0, e0, d, dst, e0[src]);
      }
    }
  }

  /** Copying the runner file leaves the report script's conditions as they were. */
  lemma RunnerLeavesReport(e0: map<Path, Node>, support: Path, d: Path)
    requires Apart(support, d) && IsFileAt(e0, support + [RunnerFile])
    ensures var e1 := e0[RunnerTarget(d) := e0[support + [RunnerFile]]];
      (IsFileAt(e1, support + [ReportFile]) && !IsDirAt(e1, ReportTarget(d)) && IsDirAt(e1, Parent(ReportTarget(d)))) <==>
      (IsFileAt(e0, support + [ReportFile]) && !IsDirAt(e0, ReportTarget(d)) && IsDirAt(e0, d + ["resources"]))
  {
    ApartStaysOutside(support, d, [ReportFile]);
    assert StrictlyUnder(d, RunnerTarget(d));
    assert Parent(ReportTarget(d)) == d + ["resources"];
    assert RunnerTarget(d) != ReportTarget(d) && RunnerTarget(d) != d + ["resources"];
  }

  /** The two support files copied into `d` are its only new files, with their sources' content. */
  lemma OverlaidFiles(e0: map<Path, Node>, support: Path, d: Path)
    requires Apart(support, d) && IsFileAt(e0, support + [RunnerFile]) && IsFileAt(e0, support + [ReportFile])
    ensures var e2 := e0[RunnerTarget(d) := e0[support + [RunnerFile]]][ReportTarget(d) := e0[support + [ReportFile]]];
      && FilesUnder(e2, d) == FilesUnder(e0, d) + {RunnerTarget(d), ReportTarget(d)}
      && e2[RunnerTarget(d)] == e0[support + [RunnerFile]]
      && e2[ReportTarget(d)] == e0[support + [ReportFile]]
      && forall q :: q in FilesUnder(e0, d) && q != RunnerTarget(d) && q != ReportTarget(d) ==> e2[q] == e0[q]
  {
    assert StrictlyUnder(d, RunnerTarget(d)) && StrictlyUnder(d, ReportTarget(d));
    assert RunnerTarget(d) != ReportTarget(d);
  }

  /** The last loop of `copy_work_tree`: copy the two support files over the tree. */
  method Overlay(disk: Disk, support: Path, d: Path) returns (out: Outcome<FsError>)
    requires disk.Valid() && IsDirAt(disk.entries, d)
    modifies disk
    ensures disk.Valid()
    ensures SameOutside(old(disk.entries), disk.entries, d)
    ensures out.Pass? ==>
      && IsFileAt(old(disk.entries), support + [RunnerFile])
      && IsFileAt(old(disk.entries), support + [ReportFile])
    ensures out.Pass? && Apart(support, d) ==>
      && FilesUnder(disk.entries, d) == FilesUnder(old(disk.entries), d) + {RunnerTarget(d), ReportTarget(d)}
      && disk.entries[RunnerTarget(d)] == old(disk.entries)[support + [RunnerFile]]
      && disk.entries[ReportTarget(d)] == old(disk.entries)[support + [ReportFile]]
      && forall q :: q in FilesUnder(old(disk.entries), d) && q != RunnerTarget(d) && q != ReportTarget(d) ==>
           disk.entries[q] == old(disk.entries)[q]
    ensures out.Pass? && DirsHoldFiles(old(disk.entries), d) ==> DirsHoldFiles(disk.entries, d)
    ensures Apart(support, d) ==>
      (out.Pass? <==>
        && IsFileAt(old(disk.entries), support + [RunnerFile]) && IsFileAt(old(disk.entries), support + [ReportFile])
        && !IsDirAt(old(disk.entries), RunnerTarget(d)) && !IsDirAt(old(disk.entries), ReportTarget(d))
        && IsDirAt(old(disk.entries), d + ["resources"]))
  {
    ghost var e0 := disk.entries;
    var runner := support + [RunnerFile];
    var report := support + [ReportFile];
    assert StrictlyUnder(d, RunnerTarget(d)) && StrictlyUnder(d, ReportTarget(d));
    assert Parent(RunnerTarget(d)) == d;
    out := CopyInto(disk, runner, RunnerTarget(d), d);
    if out.Fail? {
      return;
    }
    ghost var e1 := disk.entries;
    if Apart(support, d) {
      ApartStaysOutside(support, d, [ReportFile]);
      RunnerLeavesReport(e0, support, d);
    }
    out := CopyInto(disk, report, ReportTarget(d), d);
    SameOutsideTrans(e0, e1, disk.entries, d);
    if out.Pass? && Apart(support, d) {
      assert disk.entries == e0[RunnerTarget(d) := e0[runner]][ReportTarget(d) := e0[report]];
      OverlaidFiles(e0, support, d);
    }
  }

  /**
   * The files under `d` in `e` are exactly the tracked files of `repo` and
   * the two support files, each with the content its source has in `e0`,
   * and every directory under `d` lies above one of them.
   */
  ghost predicate MirroredTree(e0: map<Path, Node>, e: map<Path, Node>, repo: Path, support: Path, d: Path, tree: seq<string>) {
    && FilesUnder(e, d) == Copied(e0, repo, d, tree) + {RunnerTarget(d), ReportTarget(d)}
    && DirsHoldFiles(e, d)
    && IsFileAt(e0, support + [RunnerFile]) && RunnerTarget(d) in e
    && e[RunnerTarget(d)] == e0[support + [RunnerFile]]
    && IsFileAt(e0, support + [ReportFile]) && ReportTarget(d) in e
    && e[ReportTarget(d)] == e0[support + [ReportFile]]
    && forall q :: q in FilesUnder(e, d) && q != RunnerTarget(d) && q != ReportTarget(d) ==>
         repo + q[|d|..] in e0 && e[q] == e0[repo + q[|d|..]]
  }

  /** The tracked copy followed by the overlay leaves the mirrored tree. */
  lemma OverlaidTree(e0: map<Path, Node>, e2: map<Path, Node>, e3: map<Path, Node>, repo: Path, support: Path, d: Path, tree: seq<string>)
    requires Apart(support, d) && SameOutside(e0, e2, d)
    requires FilesUnder(e2, d) == Copied(e0, repo, d, tree) && MirrorsContent(e0, e2, repo, d)
    requires IsFileAt(e2, support + [RunnerFile]) && IsFileAt(e2, support + [ReportFile])
    requires FilesUnder(e3, d) == FilesUnder(e2, d) + {RunnerTarget(d), ReportTarget(d)}
    requires e3[RunnerTarget(d)] == e2[support + [RunnerFile]]
    requires e3[ReportTarget(d)] == e2[support + [ReportFile]]
    requires forall q :: q in FilesUnder(e2, d) && q != RunnerTarget(d) && q != ReportTarget(d) ==> e3[q] == e2[q]
    requires DirsHoldFiles(e3, d)
    ensures MirroredTree(e0, e3, repo, support, d, tree)
  {
    ApartStaysOutside(support, d, [RunnerFile]);
    ApartStaysOutside(support, d, [ReportFile]);
  }

  /** Directories added anywhere are, outside `d`, directories added there. */
  lemma OutsideGrown(e0: map<Path, Node>, e1: map<Path, Node>, d: Path, targets: seq<Path>)
    requires GrownTowardAny(e0, e1, targets)
    ensures GrownTowardAny(Outside(e0, d), Outside(e1, d), targets)
  {
  }

  /** A file inside a directory holding a working tree is one of the tree's files. */
  lemma HoldsTreeFile(e: map<Path, Node>, d: Path, files: WorkTree, c: Path)
    requires HoldsTree(e, d, files)
    ensures IsFileAt(e, d + c) <==> c in files
    ensures c in files ==> e[d + c] == File(files[c])
  {
    if c == [] {
      assert d + c == d;
    } else if IsFileAt(e, d + c) {
      assert (d + c)[..|d|] == d && (d + c)[|d|..] == c;
      assert d + c in FilesUnder(e, d);
    }
  }

  /** A working tree apart from `t` survives changes made only inside `t`. */
  lemma HoldsTreeApart(e0: map<Path, Node>, e1: map<Path, Node>, r: Path, t: Path, files: WorkTree)
    requires HoldsTree(e0, r, files) && SameOutside(e0, e1, t) && Apart(r, t)
    ensures HoldsTree(e1, r, files)
  {
    forall c ensures !StrictlyUnder(t, r + c) {
      ApartStaysOutside(r, t, c);
    }
    forall q | StrictlyUnder(r, q)
      ensures !StrictlyUnder(t, q)
    {
      assert q == r + q[|r|..];
    }
    assert FilesUnder(e1, r) == FilesUnder(e0, r);
    forall q | q in e1 && StrictlyUnder(r, q) && e1[q].Dir?
      ensures exists f :: f in FilesUnder(e1, r) && StrictlyUnder(q, f)
    {
      var f :| f in FilesUnder(e0, r) && StrictlyUnder(q, f);
    }
  }

  /** The destinations of the tracked paths that are files of the working tree `files`. */
  ghost function Listed(d: Path, tree: seq<string>, files: WorkTree): set<Path>
  {
    set t | t in tree && Components(t) in files :: d + Components(t)
  }

  /**
   * The files under `d` in `e` are exactly the tracked paths that are files
   * of the working tree `files`, with that tree's content, and the two
   * support files with the content they have in `e0`; every directory under
   * `d` lies above one of them.
   */
  ghost predicate CheckedOutCopy(e0: map<Path, Node>, e: map<Path, Node>, support: Path, d: Path,
                                 tree: seq<string>, files: WorkTree) {
    && FilesUnder(e, d) == Listed(d, tree, files) + {RunnerTarget(d), ReportTarget(d)}
    && DirsHoldFiles(e, d)
    && IsFileAt(e0, support + [RunnerFile]) && RunnerTarget(d) in e
    && e[RunnerTarget(d)] == e0[support + [RunnerFile]]
    && IsFileAt(e0, support + [ReportFile]) && ReportTarget(d) in e
    && e[ReportTarget(d)] == e0[support + [ReportFile]]
    && forall q :: q in FilesUnder(e, d) && q != RunnerTarget(d) && q != ReportTarget(d) ==>
         q[|d|..] in files && e[q] == File(files[q[|d|..]])
  }

  /**
   * A tree mirrored from a clone holding the working tree `files` is that
   * working tree; the support files, apart from the clone, are those from
   * before the checkout, which only added directories outside the clone.
   */
  lemma CheckedOutMirror(e0: map<Path, Node>, e1: map<Path, Node>, e: map<Path, Node>,
                         repo: Path, support: Path, d: Path, tree: seq<string>, files: WorkTree)
    requires GrownToward(Outside(e0, repo), Outside(e1, repo), repo) && HoldsTree(e1, repo, files)
    requires Apart(support, repo) && MirroredTree(e1, e, repo, support, d, tree)
    ensures CheckedOutCopy(e0, e, support, d, tree, files)
  {
    forall t | t in tree
      ensures IsFileAt(e1, repo + Components(t)) <==> Components(t) in files
    {
      HoldsTreeFile(e1, repo, files, Components(t));
    }
    assert Copied(e1, repo, d, tree) == Listed(d, tree, files);
    ApartStaysOutside(support, repo, [RunnerFile]);
    ApartStaysOutside(support, repo, [ReportFile]);
    assert Outside(e1, repo)[support + [RunnerFile]] == e1[support + [RunnerFile]];
    assert Outside(e1, repo)[support + [ReportFile]] == e1[support + [ReportFile]];
    forall q | q in FilesUnder(e, d) && q != RunnerTarget(d) && q != ReportTarget(d)
      ensures q[|d|..] in files && e[q] == File(files[q[|d|..]])
    {
      HoldsTreeFile(e1, repo, files, q[|d|..]);
    }
  }

  /** Directories added before a copy change none of the support files it reads. */
  lemma CheckedOutCopyGrown(e0: map<Path, Node>, e1: map<Path, Node>, e: map<Path, Node>, targets: seq<Path>,
                            support: Path, d: Path, tree: seq<string>, files: WorkTree)
    requires GrownTowardAny(e0, e1, targets) && CheckedOutCopy(e1, e, support, d, tree, files)
    ensures CheckedOutCopy(e0, e, support, d, tree, files)
  {
    GrownKeepsFiles(e0, e1, targets, support + [RunnerFile]);
    GrownKeepsFiles(e0, e1, targets, support + [ReportFile]);
  }

  /** A mirrored test path apart from `m` survives changes made only inside `m`. */
  lemma CheckedOutCopyApart(e0: map<Path, Node>, e1: map<Path, Node>, e: map<Path, Node>, m: Path,
                            support: Path, d: Path, tree: seq<string>, files: WorkTree)
    requires CheckedOutCopy(e0, e1, support, d, tree, files) && SameOutside(e1, e, m) && Apart(d, m)
    ensures CheckedOutCopy(e0, e, support, d, tree, files)
  {
    forall q | StrictlyUnder(d, q)
      ensures !StrictlyUnder(m, q)
    {
      assert q == d + q[|d|..];
      ApartStaysOutside(d, m, q[|d|..]);
    }
    assert FilesUnder(e, d) == FilesUnder(e1, d);
    forall q | q in e && StrictlyUnder(d, q) && e[q].Dir?
      ensures exists f :: f in FilesUnder(e, d) && StrictlyUnder(q, f)
    {
      var f :| f in FilesUnder(e1, d) && StrictlyUnder(q, f);
    }
    assert StrictlyUnder(d, RunnerTarget(d)) && StrictlyUnder(d, ReportTarget(d));
  }

  /** Some tracked file of the clone lies strictly inside `c`, relative to the clone. */
  ghost predicate FileBelow(e: map<Path, Node>, repo: Path, tree: seq<string>, c: Path) {
    exists t :: t in tree && IsFileAt(e, repo + Components(t)) && StrictlyUnder(c, Components(t))
  }

  /**
   * `copy_work_tree` succeeds on the disk `e`, its destination an existing
   * directory apart from the clone and the support directory: every tracked
   * path's source exists, both support files exist, some tracked file lies
   * inside `resources/` (so the report script has a directory to go to),
   * and no tracked file lies inside either support file's place.
   */
  ghost predicate CopySucceeds(e: map<Path, Node>, repo: Path, support: Path, tree: seq<string>) {
    && (forall t :: t in tree ==> SourceExists(e, repo, Components(t)))
    && IsFileAt(e, support + [RunnerFile]) && IsFileAt(e, support + [ReportFile])
    && FileBelow(e, repo, tree, ["resources"])
    && !FileBelow(e, repo, tree, [RunnerFile]) && !FileBelow(e, repo, tree, ["resources", ReportFile])
  }

  /** After the tracked copy, a place inside `d` is a directory exactly when a copied file lies inside it. */
  lemma CopiedDir(e0: map<Path, Node>, e2: map<Path, Node>, repo: Path, d: Path, tree: seq<string>, c: Path)
    requires WellFormed(e2) && DirsHoldFiles(e2, d) && FilesUnder(e2, d) == Copied(e0, repo, d, tree) && c != []
    ensures IsDirAt(e2, d + c) <==> FileBelow(e0, repo, tree, c)
  {
    if IsDirAt(e2, d + c) {
      assert StrictlyUnder(d, d + c);
      var f :| f in FilesUnder(e2, d) && StrictlyUnder(d + c, f);
      CopiedBelow(e0, repo, d, tree, c, f);
    }
    if FileBelow(e0, repo, tree, c) {
      var t :| t in tree && IsFileAt(e0, repo + Components(t)) && StrictlyUnder(c, Components(t));
      var f := d + Components(t);
      assert f in FilesUnder(e2, d);
      AncestorsAreDirs(e2, f, |d + c|);
      assert f[..|d + c|] == d + c;
    }
  }

  /** A copied file inside `d + c` comes from a tracked file inside `c`. */
  lemma CopiedBelow(e0: map<Path, Node>, repo: Path, d: Path, tree: seq<string>, c: Path, f: Path)
    requires f in Copied(e0, repo, d, tree) && StrictlyUnder(d + c, f)
    ensures FileBelow(e0, repo, tree, c)
  {
    var t :| t in tree && IsFileAt(e0, repo + Components(t)) && f == d + Components(t);
    assert Components(t)[..|c|] == f[..|d + c|][|d|..] == c;
  }

  /** Emptying `d` does not change which tracked sources exist in a clone apart from it. */
  lemma SourcesOutside(e0: map<Path, Node>, e1: map<Path, Node>, repo: Path, d: Path, tree: seq<string>)
    requires SameOutside(e0, e1, d) && Apart(repo, d)
    ensures (forall t :: t in tree ==> SourceExists(e1, repo, Components(t))) <==>
            (forall t :: t in tree ==> SourceExists(e0, repo, Components(t)))
  {
    forall t | t in tree
      ensures SourceExists(e1, repo, Components(t)) <==> SourceExists(e0, repo, Components(t))
    {
      SourceExistsOutside(e0, e1, repo, d, Components(t));
    }
  }

  /**
   * After a successful tracked copy, the overlay's conditions on the disk
   * are the copy's success condition on the disk before it.
   */
  lemma OverlayFits(e0: map<Path, Node>, e2: map<Path, Node>, repo: Path, support: Path, d: Path, tree: seq<string>)
    requires WellFormed(e2) && Apart(repo, d) && Apart(support, d) && SameOutside(e0, e2, d)
    requires DirsHoldFiles(e2, d) && FilesUnder(e2, d) == Copied(e0, repo, d, tree)
    requires forall t :: t in tree ==> SourceExists(e0, repo, Components(t))
    ensures CopySucceeds(e0, repo, support, tree) <==>
      && IsFileAt(e2, support + [RunnerFile]) && IsFileAt(e2, support + [ReportFile])
      && !IsDirAt(e2, RunnerTarget(d)) && !IsDirAt(e2, ReportTarget(d)) && IsDirAt(e2, d + ["resources"])
  {
    ApartStaysOutside(support, d, [RunnerFile]);
    ApartStaysOutside(support, d, [ReportFile]);
    CopiedDir(e0, e2, repo, d, tree, [RunnerFile]);
    CopiedDir(e0, e2, repo, d, tree, ["resources", ReportFile]);
    CopiedDir(e0, e2, repo, d, tree, ["resources"]);
    assert RunnerTarget(d) == d + [RunnerFile];
    assert ReportTarget(d) == d + ["resources", ReportFile];
  }

  /** `c`, relative to a clone holding `files`, is its root, one of the files, or a directory above one. */
  predicate InWorkTree(files: WorkTree, c: Path) {
    c == [] || c in files || exists p :: p in files && StrictlyUnder(c, p)
  }

  /** Some listed path of `tree` that is a file of `files` lies strictly inside `c`. */
  predicate ListedBelow(files: WorkTree, tree: seq<string>, c: Path) {
    exists t :: t in tree && Components(t) in files && StrictlyUnder(c, Components(t))
  }

  /**
   * `copy_work_tree` succeeds from a clone holding exactly the working tree
   * `files`, the support files being those of `e`: every listed path is in
   * the tree, both support files exist, and the listed files fill
   * `resources/` but neither support file's place.
   */
  ghost predicate TreeCopySucceeds(e: map<Path, Node>, files: WorkTree, support: Path, tree: seq<string>) {
    && (forall t :: t in tree ==> InWorkTree(files, Components(t)))
    && IsFileAt(e, support + [RunnerFile]) && IsFileAt(e, support + [ReportFile])
    && ListedBelow(files, tree, ["resources"])
    && !ListedBelow(files, tree, [RunnerFile]) && !ListedBelow(files, tree, ["resources", ReportFile])
  }

  /** In a clone holding exactly `files`, a source exists exactly when its path is in the tree. */
  lemma SourceInTree(e: map<Path, Node>, repo: Path, files: WorkTree, c: Path)
    requires WellFormed(e) && HoldsTree(e, repo, files)
    ensures SourceExists(e, repo, c) <==> InWorkTree(files, c)
  {
    if c == [] {
      assert repo + c == repo;
      return;
    }
    assert StrictlyUnder(repo, repo + c) && (repo + c)[|repo|..] == c;
    if repo + c in e && e[repo + c].File? {
      assert repo + c in FilesUnder(e, repo);
    } else if repo + c in e {
      var f :| f in FilesUnder(e, repo) && StrictlyUnder(repo + c, f);
      var p := f[|repo|..];
      assert f == repo + p;
      assert p[..|c|] == f[..|repo + c|][|repo|..] == c;
    }
    if c in files {
      assert repo + c in e;
    } else if p :| p in files && StrictlyUnder(c, p) {
      AncestorsAreDirs(e, repo + p, |repo + c|);
      assert (repo + p)[..|repo + c|] == repo + c;
    }
  }

  /**
   * After `update` filled the clone with `files`, `copy_work_tree`'s success
   * condition is the working-tree one, taken on the disk before the update,
   * when the support directory lies apart from the clone.
   */
  lemma CopySucceedsFromTree(e0: map<Path, Node>, e1: map<Path, Node>, repo: Path, support: Path,
                             tree: seq<string>, files: WorkTree)
    requires WellFormed(e1) && HoldsTree(e1, repo, files)
    requires GrownToward(Outside(e0, repo), Outside(e1, repo), repo) && Apart(support, repo)
    ensures CopySucceeds(e1, repo, support, tree) <==> TreeCopySucceeds(e0, files, support, tree)
  {
    forall t | t in tree
      ensures SourceExists(e1, repo, Components(t)) <==> InWorkTree(files, Components(t))
      ensures IsFileAt(e1, repo + Components(t)) <==> Components(t) in files
    {
      SourceInTree(e1, repo, files, Components(t));
      HoldsTreeFile(e1, repo, files, Components(t));
    }
    SupportKept(e0, e1, repo, support, RunnerFile);
    SupportKept(e0, e1, repo, support, ReportFile);
  }

  /** A file apart from the clone is a file after the clone grew exactly when it was before. */
  lemma SupportKept(e0: map<Path, Node>, e1: map<Path, Node>, repo: Path, support: Path, name: string)
    requires GrownToward(Outside(e0, repo), Outside(e1, repo), repo) && Apart(support, repo)
    ensures IsFileAt(e1, support + [name]) <==> IsFileAt(e0, support + [name])
  {
    ApartStaysOutside(support, repo, [name]);
    var q := support + [name];
    assert q in Outside(e0, repo) <==> q in e0;
    assert q in Outside(e1, repo) <==> q in e1;
  }

  /** A path apart from the clone is a directory after the clone grew exactly when it was before. */
  lemma DirApartKept(e0: map<Path, Node>, e1: map<Path, Node>, repo: Path, d: Path)
    requires GrownToward(Outside(e0, repo), Outside(e1, repo), repo) && Apart(repo, d)
    ensures IsDirAt(e1, d) <==> IsDirAt(e0, d)
  {
    assert d in Outside(e0, repo) <==> d in e0;
    assert d in Outside(e1, repo) <==> d in e1;
  }

  class WebPlatformTests {
    const remoteUrl: string
    const repoPath: string
    const targetRev: string
    /** The isolation branch; the source names it with a fresh random identifier. */
    const localBranch: string

    constructor (remoteUrl: string, repoPath: string, rev: string, localBranch: string)
      ensures this.remoteUrl == remoteUrl && this.repoPath == repoPath
      ensures this.targetRev == rev && this.localBranch == localBranch
    {
      this.remoteUrl := remoteUrl;
      this.repoPath := repoPath;
      this.targetRev := rev;
      this.localBranch := localBranch;
    }

    /** The clone's location on the disk. */
    function RepoDir(): Path
    {
      Components(repoPath)
    }

    /**
     * `update` succeeds from the disk `e` and a clone that is a git root
     * when `isRoot`, with status output `porcelain` and branches
     * `branches`, the remote advertising `remote`: the clone directory can
     * be made, the target is advertised, and the isolation branch is free
     * in a clean clone (or, for a fresh clone, among the remote's refs).
     */
    ghost predicate UpdateSucceeds(e: map<Path, Node>, isRoot: bool, porcelain: string, branches: map<string, Rev>,
                                   remote: map<string, Rev>) {
      && CanEnsure(e, RepoDir()) && !IsFileAt(e, RepoDir())
      && targetRev in remote
      && (if isRoot then porcelain == "" && localBranch !in branches else localBranch !in remote)
    }

    /**
     * The git part of `update`: clone the remote and check out the isolation
     * branch at the target revision, or, for an existing clone, refuse a
     * dirty one, fetch the target revision into the isolation branch and
     * check it out. `remote` holds the refs the remote advertises.
     */
    method CheckOutTarget(clone: GitClone, remote: map<string, Rev>) returns (out: Outcome<MirrorError>)
      modifies clone
      ensures old(clone.isRoot) && old(clone.porcelain) != "" ==>
        out == Fail(RepositoryError(repoPath)) && unchanged(clone)
      ensures out.Pass? <==>
        && targetRev in remote
        && (if old(clone.isRoot) then old(clone.porcelain) == "" && localBranch !in old(clone.branches)
            else localBranch !in remote)
      ensures out.Pass? ==>
        && clone.isRoot && clone.head == remote[targetRev] && clone.checkedOut == Some(localBranch)
        && localBranch in clone.branches && clone.branches[localBranch] == remote[targetRev]
        && clone.porcelain == ""
      ensures out.Pass? && old(clone.isRoot) ==>
        clone.branches == old(clone.branches)[localBranch := remote[targetRev]]
      ensures out.Pass? && !old(clone.isRoot) ==>
        clone.branches == remote[localBranch := remote[targetRev]]
      ensures out.Pass? ==> Revision(clone) == Some(remote[targetRev])
      ensures out.Fail? && old(clone.isRoot) ==> unchanged(clone)
    {
      if !clone.isRoot {
        // git clone <remote> .
        clone.isRoot, clone.porcelain, clone.branches := true, "", remote;
        // git checkout -b <local branch> <target>
        if localBranch in clone.branches || targetRev !in clone.branches {
          return Fail(GitFailed(["checkout", "-b", localBranch, targetRev]));
        }
        clone.branches := clone.branches[localBranch := clone.branches[targetRev]];
        clone.head, clone.checkedOut := clone.branches[localBranch], Some(localBranch);
      } else {
        if clone.porcelain != "" {
          return Fail(RepositoryError(repoPath));
        }
        // git fetch <remote> <target>:<local branch>
        if targetRev !in remote || localBranch in clone.branches {
          return Fail(GitFailed(["fetch", remoteUrl, targetRev + ":" + localBranch]));
        }
        clone.branches := clone.branches[localBranch := remote[targetRev]];
        // git checkout <local branch>
        clone.head, clone.checkedOut := clone.branches[localBranch], Some(localBranch);
      }
      return Pass;
    }

    /**
     * `update`: create the clone directory if needed, then bring the clone
     * to the target revision on the isolation branch, whose working tree
     * (`worktree` of the commit) then fills the clone directory. The
     * submodule commands that follow are not modelled.
     */
    method Update(disk: Disk, clone: GitClone, remote: map<string, Rev>, worktree: Rev -> WorkTree)
      returns (out: Outcome<MirrorError>)
      requires disk.Valid()
      modifies disk, clone
      ensures disk.Valid()
      ensures GrownToward(Outside(old(disk.entries), RepoDir()), Outside(disk.entries, RepoDir()), RepoDir())
      ensures out.Fail? && old(clone.isRoot) ==> GrownToward(old(disk.entries), disk.entries, RepoDir())
      ensures IsFileAt(old(disk.entries), RepoDir()) ==>
        out == Fail(Os(NotADirectory(RepoDir()))) && unchanged(clone)
      ensures old(clone.isRoot) && old(clone.porcelain) != "" && IsDirAt(old(disk.entries), RepoDir()) ==>
        out == Fail(RepositoryError(repoPath)) && unchanged(clone)
      ensures out.Pass? <==>
        UpdateSucceeds(old(disk.entries), old(clone.isRoot), old(clone.porcelain), old(clone.branches), remote)
      ensures out.Pass? ==> HoldsTree(disk.entries, RepoDir(), worktree(remote[targetRev]))
      ensures out.Pass? ==>
        && clone.isRoot && clone.head == remote[targetRev] && clone.checkedOut == Some(localBranch)
        && localBranch in clone.branches && clone.branches[localBranch] == remote[targetRev]
        && clone.porcelain == ""
      ensures out.Pass? && old(clone.isRoot) ==>
        clone.branches == old(clone.branches)[localBranch := remote[targetRev]]
      ensures out.Pass? && !old(clone.isRoot) ==>
        clone.branches == remote[localBranch := remote[targetRev]]
      ensures out.Pass? ==> Revision(clone) == Some(remote[targetRev])
      ensures out.Fail? && old(clone.isRoot) ==> unchanged(clone)
    {
      ghost var e0 := disk.entries;
      if !disk.Exists(RepoDir()) {
        var made := disk.MakeDirs(RepoDir());
        if made.Fail? {
          GrownTowardOutside(e0, disk.entries, RepoDir(), RepoDir());
          return Fail(Os(made.error));
        }
      } else if !disk.IsDir(RepoDir()) {
        // git cannot run inside a file
        return Fail(Os(NotADirectory(RepoDir())));
      }
      ghost var e1 := disk.entries;
      GrownTowardOutside(e0, e1, RepoDir(), RepoDir());
      out := CheckOutTarget(clone, remote);
      if out.Pass? {
        // git clone / git checkout: the working tree of the new HEAD
        disk.WriteTree(RepoDir(), worktree(clone.head));
        SameOutsideView(e1, disk.entries, RepoDir());
      }
    }

    /**
     * `clean`: check out the current commit (detaching HEAD) and delete the
     * isolation branch. Outside a git root the revision is `None`, which
     * git cannot take as an argument.
     */
    method Clean(clone: GitClone) returns (out: Outcome<MirrorError>)
      modifies clone
      ensures clone.head == old(clone.head) && clone.isRoot == old(clone.isRoot)
      ensures clone.porcelain == old(clone.porcelain)
      ensures !old(clone.isRoot) ==> out == Fail(TypeError) && unchanged(clone)
      ensures old(clone.isRoot) ==> clone.checkedOut == None
      ensures out.Pass? <==> old(clone.isRoot) && localBranch in old(clone.branches)
      ensures out.Pass? ==> clone.branches == old(clone.branches) - {localBranch}
      ensures out.Fail? ==> clone.branches == old(clone.branches)
    {
      var rev := Revision(clone);
      if rev.None? {
        return Fail(TypeError);
      }
      // git checkout <rev>
      clone.checkedOut := None;
      // git branch -D <local branch>
      if localBranch !in clone.branches {
        return Fail(GitFailed(["branch", "-D", localBranch]));
      }
      clone.branches := clone.branches - {localBranch};
      return Pass;
    }

    /**
     * `copy_work_tree(dest)`: empty `dest`, copy every tracked path whose
     * source is not a directory to the same relative path under `dest`,
     * then overlay the two support files from `support`. `statusOutput` and
     * `lsTree` are the outputs of the git listings the tree paths come from.
     * When the clone and the support directory lie outside `dest`, the files
     * under `dest` afterwards are exactly the tracked files and the two
     * overlays, each with the content of its source.
     */
    method CopyWorkTree(disk: Disk, dest: string, support: Path, statusOutput: string, lsTree: string -> string)
      returns (out: Outcome<MirrorError>)
      requires disk.Valid()
      modifies disk
      ensures disk.Valid()
      ensures SameOutside(old(disk.entries), disk.entries, Components(dest))
      ensures Components(dest) !in old(disk.entries) ==> out == Fail(Os(NotFound(Components(dest))))
      ensures IsFileAt(old(disk.entries), Components(dest)) ==> out == Fail(AssertionFailed)
      ensures IsDirAt(old(disk.entries), Components(dest)) && Submodules(statusOutput).None? ==>
        out == Fail(IndexError) && FilesUnder(disk.entries, Components(dest)) == {}
      ensures out.Pass? ==> TreePaths(repoPath, statusOutput, lsTree).Some?
      ensures out.Pass? && Apart(RepoDir(), Components(dest)) && Apart(support, Components(dest)) ==>
        MirroredTree(old(disk.entries), disk.entries, RepoDir(), support, Components(dest),
                     TreePaths(repoPath, statusOutput, lsTree).value)
      ensures && IsDirAt(old(disk.entries), Components(dest)) && TreePaths(repoPath, statusOutput, lsTree).Some?
              && Apart(RepoDir(), Components(dest)) && Apart(support, Components(dest)) ==>
        (out.Pass? <==> CopySucceeds(old(disk.entries), RepoDir(), support, TreePaths(repoPath, statusOutput, lsTree).value))
    {
      var d := Components(dest);
      if !disk.Exists(d) {
        return Fail(Os(NotFound(d)));
      }
      if !disk.IsDir(d) {
        return Fail(AssertionFailed);
      }
      ghost var e0 := disk.entries;
      Wipe(disk, d);
      ghost var e1 := disk.entries;
      assert FilesUnder(e1, d) == {} && DirsHoldFiles(e1, d);
      var tree := TreePaths(repoPath, statusOutput, lsTree);
      if tree.None? {
        return Fail(IndexError);
      }
      if Apart(RepoDir(), d) {
        SourcesOutside(e0, e1, RepoDir(), d, tree.value);
      }
      var copied := CopyTracked(disk, RepoDir(), d, tree.value);
      SameOutsideTrans(e0, e1, disk.entries, d);
      if copied.Fail? {
        return Fail(Os(copied.error));
      }
      ghost var e2 := disk.entries;
      if Apart(RepoDir(), d) {
        CopiedOutside(e0, e1, RepoDir(), d, tree.value);
        MirrorsOutside(e0, e1, e2, RepoDir(), d);
        if Apart(support, d) {
          OverlayFits(e0, e2, RepoDir(), support, d, tree.value);
        }
      }
      var overlaid := Overlay(disk, support, d);
      SameOutsideTrans(e0, e2, disk.entries, d);
      if overlaid.Fail? {
        return Fail(Os(overlaid.error));
      }
      if Apart(RepoDir(), d) && Apart(support, d) {
        ApartStaysOutside(support, d, [RunnerFile]);
        ApartStaysOutside(support, d, [ReportFile]);
        OverlaidTree(e0, e2, disk.entries, RepoDir(), support, d, tree.value);
      }
      return Pass;
    }
  }
}
