/**
 * The update driver: `sync_tests`, `update_metadata` and `run_update`. The
 * collaborators the driver only calls (the manifest and expectation
 * updaters, `os.path.relpath`, the version-control probes and outputs) are
 * fields of an environment value; the calls into the metadata collaborator
 * are recorded as events.
 */
module Updater {
  import opened Wrappers
  import opened Text
  import opened Paths
  import opened FileSystem
  import opened Mirror
  import opened LocalTrees
  import opened MirrorOutput

  /** The per-invocation options of the `command-args` section. */
  datatype Options = Options(
    patch: bool,
    noCheckClean: bool,
    sync: bool,
    runLog: Option<string>,
    rev: Option<string>,
    ignoreExisting: bool)

  /** The configured remote, branch and the three paths, already resolved against the data root. */
  datatype Config = Config(
    remoteUrl: string,
    branch: Option<string>,
    syncPath: string,
    testPath: string,
    metadataPath: string)

  /** A test manifest snapshot, as far as the driver reads it. */
  datatype Manifest = Manifest(rev: Option<string>)

  /** What the collaborators answer during one run. */
  datatype Env = Env(
    probe: Probe,
    treeNames: set<string>,
    treeCurrent: Option<string>,
    queueReady: bool,
    initialStatus: string,        // the local tree's status output at the dirty-tree check
    finalStatus: string,          // its status output after the expectations were updated
    remote: map<string, Rev>,     // the refs the remote advertises
    worktree: Rev -> WorkTree,    // the files a checkout of each commit writes
    localBranch: string,          // the fresh isolation-branch name
    submoduleStatus: string,      // `git submodule status --recursive` in the clone
    lsTree: string -> string,     // `git ls-tree -r --name-only HEAD` in each repository
    support: Path,                // the directory holding the two support files
    loadedManifest: Manifest,     // what `load_test_manifest` returns
    updatedManifest: Manifest,    // what `update_manifest` returns
    manifestFiles: WorkTree,      // what `update_manifest` leaves in the metadata path
    needsHuman: seq<string>,      // what `update_expected` returns
    expectedFiles: WorkTree,      // what `update_expected` leaves in the metadata path
    relPath: (string, string) -> string)  // `os.path.relpath`

  /** The calls into the metadata collaborator and the report to the operator. */
  datatype Event =
    | LoadTestManifest
    | UpdateManifest
    | UpdateExpected(logFiles: string, revOld: Option<string>, ignoreExisting: bool)
    | ReportNeedsHuman(files: seq<string>)

  datatype UpdateError = MirrorFailed(mirror: MirrorError) | TreeFailed(tree: TreeError) | DiskFailed(disk: FsError)

  /** How a run ends: normally, through `sys.exit`, or with an exception. */
  datatype RunOutcome = Finished | Exited(code: int) | Raised(error: UpdateError)

  /** Python's `"%s" % rev` for an optional revision. */
  function RevText(rev: Option<string>): string
  {
    if rev.Some? then rev.value else "None"
  }

  const PatchPrefix := "web-platform-tests_update_"
  const MetadataSuffix := "_metadata"

  function SyncPatchName(rev: Option<string>): string { PatchPrefix + RevText(rev) }

  /** The bug number is always 0: the driver never has a bug. */
  const SyncMessagePrefix := "Bug 0 - Update web-platform-tests to revision "
  const MetadataMessagePrefix := "Bug 0 - Update web-platform-tests expected data to revision "

  function SyncMessage(rev: Option<string>): string { SyncMessagePrefix + RevText(rev) }

  function MetadataPatchName(rev: Option<string>): string { PatchPrefix + RevText(rev) + MetadataSuffix }

  function MetadataMessage(rev: Option<string>): string { MetadataMessagePrefix + RevText(rev) }

  /** The two patches of one run have different names, so the second never collides with the first. */
  lemma PatchNamesDistinct(rev: Option<string>)
    ensures SyncPatchName(rev) != MetadataPatchName(rev)
  {
    assert |MetadataPatchName(rev)| == |SyncPatchName(rev)| + 9;
  }

  /** A revision names its patch: different revisions give different patch names. */
  lemma {:induction false} SyncPatchNameInjective(a: Option<string>, b: Option<string>)
    requires SyncPatchName(a) == SyncPatchName(b)
    ensures RevText(a) == RevText(b)
  {
    assert RevText(a) == SyncPatchName(a)[|PatchPrefix|..];
    assert RevText(b) == SyncPatchName(b)[|PatchPrefix|..];
  }

  /** The target revision: the command-line one, else the configured branch, else `master`. */
  function TargetRev(opts: Options, config: Config): string
  {
    if opts.rev.Some? then opts.rev.value
    else if config.branch.Some? then config.branch.value
    else "master"
  }

  /** Python truthiness of the `run_log` option. */
  predicate Truthy(s: Option<string>) {
    s.Some? && s.value != ""
  }

  /** The revision `update_expected` compares against: the loaded manifest's when the tests were synced. */
  function InitialRev(opts: Options, env: Env): Option<string>
  {
    if opts.sync then env.loadedManifest.rev else None
  }

  /** The events of `update_metadata`. */
  function MetadataEvents(logFiles: string, initialRev: Option<string>, ignoreExisting: bool, env: Env): seq<Event>
  {
    [UpdateExpected(logFiles, initialRev, ignoreExisting)] +
    (if |env.needsHuman| > 0 then [ReportNeedsHuman(env.needsHuman)] else [])
  }

  /** All events of a run that finishes. */
  function RunEvents(opts: Options, env: Env): seq<Event>
  {
    (if opts.sync then [LoadTestManifest, UpdateManifest] else []) +
    (if Truthy(opts.runLog) then MetadataEvents(opts.runLog.value, InitialRev(opts, env), opts.ignoreExisting, env) else [])
  }

  /** Without the sync flow a run never loads the test manifest. */
  lemma NoManifestLoadWithoutSync(opts: Options, env: Env)
    requires !opts.sync
    ensures LoadTestManifest !in RunEvents(opts, env)
  {
  }

  /** The commands `sync_tests` issues on a tree of kind `k` rooted at `root`, the mirror being at `rev`. */
  function SyncCommands(k: TreeKind, root: string, rev: Option<string>, config: Config, env: Env): seq<seq<string>>
  {
    CreateCommands(k, root, SyncPatchName(rev), SyncMessage(rev))
    + AddCommands(k, Some(env.relPath(config.testPath, root)))
    + UpdateCommands(k, Some(SyncMessage(rev)), Some([config.testPath, config.metadataPath]))
  }

  /**
   * The commands `update_metadata` issues: the metadata patch is opened,
   * and the metadata path staged and recorded only when the tree is dirty
   * after the expectations were updated.
   */
  function MetadataCommands(k: TreeKind, root: string, rev: Option<string>, config: Config, env: Env): seq<seq<string>>
  {
    CreateCommands(k, root, MetadataPatchName(rev), MetadataMessage(rev))
    + (if CleanStatus(k, env.finalStatus) then []
       else AddCommands(k, Some(env.relPath(config.metadataPath, root)))
            + UpdateCommands(k, Some(MetadataMessage(rev)), Some([config.metadataPath])))
  }

  /** All commands a run that finishes issues on its tree, the mirror being at `rev` at the end. */
  function RunCommands(opts: Options, config: Config, env: Env, k: TreeKind, root: string, rev: Option<string>): seq<seq<string>>
  {
    (if opts.sync then SyncCommands(k, root, rev, config, env) else []) +
    (if Truthy(opts.runLog) then MetadataCommands(k, root, rev, config, env) else [])
  }

  lemma AppendAssoc<T>(x: seq<T>, a: seq<T>, b: seq<T>)
    ensures (x + a) + b == x + (a + b)
  {
  }

  /** The commands of the sync flow followed by those of the metadata flow are the run's. */
  lemma RunCommandsCompose(log0: seq<seq<string>>, log1: seq<seq<string>>, log2: seq<seq<string>>,
                           opts: Options, config: Config, env: Env, k: TreeKind, root: string, rev: Option<string>)
    requires log1 == log0 + (if opts.sync then SyncCommands(k, root, rev, config, env) else [])
    requires log2 == log1 + (if Truthy(opts.runLog) then MetadataCommands(k, root, rev, config, env) else [])
    ensures log2 == log0 + RunCommands(opts, config, env, k, root, rev)
  {
    AppendAssoc(log0, if opts.sync then SyncCommands(k, root, rev, config, env) else [],
                if Truthy(opts.runLog) then MetadataCommands(k, root, rev, config, env) else []);
  }

  /** A plain tree records nothing, whatever the run does. */
  lemma PlainRunIssuesNothing(opts: Options, config: Config, env: Env, root: string, rev: Option<string>)
    ensures RunCommands(opts, config, env, NoVCS, root, rev) == []
  {
  }

  /**
   * On a Git tree, a run that syncs and updates dirty metadata makes two
   * commits: the sync patch's, then the metadata patch's, each with its
   * own message.
   */
  lemma GitRunCommits(opts: Options, config: Config, env: Env, root: string, rev: Option<string>)
    requires opts.sync && Truthy(opts.runLog) && !AllSpace(env.finalStatus)
    ensures
      var cs := RunCommands(opts, config, env, Git, root, rev);
      && |cs| == 6
      && cs[0] == [CmdCheckout, FlagBranch, SyncPatchName(rev)]
      && cs[2] == [CmdCommit, FlagMessage, SyncMessage(rev), config.testPath, config.metadataPath]
      && cs[3] == [CmdCheckout, FlagBranch, MetadataPatchName(rev)]
      && cs[5] == [CmdCommit, FlagMessage, MetadataMessage(rev), config.metadataPath]
  {
  }

  /** The three paths `run_update` ensures exist: sync, test and metadata. */
  function WorkingPaths(config: Config): seq<Path>
  {
    [Components(config.syncPath), Components(config.testPath), Components(config.metadataPath)]
  }

  /**
   * What a sync leaves on the disk `e`, compared with `e0` before it, the
   * clone at `repoPath` having checked out the working tree `files`: the
   * tree listing parses; when the clone lies outside the test and metadata
   * paths it still holds `files`; and when the support files lie outside
   * the clone and the test path, and the test path outside the clone and
   * the metadata path, the test path holds exactly the listed files of
   * `files` and the two support files.
   */
  ghost predicate TestsMirrored(e0: map<Path, Node>, e: map<Path, Node>, repoPath: string, config: Config, env: Env,
                                files: WorkTree) {
    var r, t, m := Components(repoPath), Components(config.testPath), Components(config.metadataPath);
    && TreePaths(repoPath, env.submoduleStatus, env.lsTree).Some?
    && (Apart(r, t) && Apart(r, m) ==> HoldsTree(e, r, files))
    && (Apart(r, t) && Apart(env.support, t) && Apart(env.support, r) && Apart(t, m) ==>
          CheckedOutCopy(e0, e, env.support, t, TreePaths(repoPath, env.submoduleStatus, env.lsTree).value, files))
  }

  /** The entries of `e` outside the clone, the test path and the metadata path. */
  ghost function Elsewhere(e: map<Path, Node>, repoPath: string, config: Config): map<Path, Node>
  {
    Outside(Outside(Outside(e, Components(repoPath)), Components(config.testPath)), Components(config.metadataPath))
  }

  /**
   * The disk after a sync attempt toward revision `target`, compared with
   * `e0` before it: outside the clone, the test path and the metadata path
   * only directories toward the clone were added, and when the sync
   * succeeded (`ok`) the clone and the test path hold the target's working
   * tree.
   */
  ghost predicate SyncedDisk(e0: map<Path, Node>, e: map<Path, Node>, repoPath: string, target: string,
                             config: Config, env: Env, ok: bool) {
    && GrownTowardAny(Elsewhere(e0, repoPath, config), Elsewhere(e, repoPath, config), [Components(repoPath)])
    && (ok ==> target in env.remote && TestsMirrored(e0, e, repoPath, config, env, env.worktree(env.remote[target])))
  }

  /**
   * A checkout into the clone followed by a copy into the test path is a
   * sync's effect on the disk.
   */
  lemma MirroredStep(e0: map<Path, Node>, e1: map<Path, Node>, e2: map<Path, Node>,
                     repoPath: string, target: string, config: Config, env: Env, ok: bool)
    requires GrownToward(Outside(e0, Components(repoPath)), Outside(e1, Components(repoPath)), Components(repoPath))
    requires ok ==> target in env.remote && HoldsTree(e1, Components(repoPath), env.worktree(env.remote[target]))
    requires SameOutside(e1, e2, Components(config.testPath))
    requires ok ==> TreePaths(repoPath, env.submoduleStatus, env.lsTree).Some?
    requires ok && Apart(Components(repoPath), Components(config.testPath))
             && Apart(env.support, Components(config.testPath)) ==>
      MirroredTree(e1, e2, Components(repoPath), env.support, Components(config.testPath),
                   TreePaths(repoPath, env.submoduleStatus, env.lsTree).value)
    ensures SyncedDisk(e0, e2, repoPath, target, config, env, ok)
  {
    var r, t := Components(repoPath), Components(config.testPath);
    GrownTowardOutside(Outside(e0, r), Outside(e1, r), t, r);
    assert SameOutside(Outside(e1, r), Outside(e2, r), t);
    SameOutsideView(Outside(e1, r), Outside(e2, r), t);
    GrownTowardWiden(Outside(Outside(e0, r), t), Outside(Outside(e2, r), t), r, [r]);
    OutsideGrown(Outside(Outside(e0, r), t), Outside(Outside(e2, r), t), Components(config.metadataPath), [r]);
    if ok && Apart(r, t) {
      var files := env.worktree(env.remote[target]);
      HoldsTreeApart(e1, e2, r, t, files);
      if Apart(env.support, t) && Apart(env.support, r) {
        CheckedOutMirror(e0, e1, e2, r, env.support, t, TreePaths(repoPath, env.submoduleStatus, env.lsTree).value, files);
      }
    }
  }

  /**
   * A write into the metadata path keeps a sync's effect on the disk, the
   * clone and the test path lying outside it.
   */
  lemma MetadataKeepsSync(e0: map<Path, Node>, e1: map<Path, Node>, e2: map<Path, Node>,
                          repoPath: string, target: string, config: Config, env: Env, ok: bool)
    requires SyncedDisk(e0, e1, repoPath, target, config, env, ok)
    requires SameOutside(e1, e2, Components(config.metadataPath))
    ensures SyncedDisk(e0, e2, repoPath, target, config, env, ok)
  {
    var r, t, m := Components(repoPath), Components(config.testPath), Components(config.metadataPath);
    MetadataElsewhere(e1, e2, repoPath, config);
    if ok {
      var files := env.worktree(env.remote[target]);
      if Apart(r, t) && Apart(r, m) {
        HoldsTreeApart(e1, e2, r, m, files);
      }
      if Apart(r, t) && Apart(env.support, t) && Apart(env.support, r) && Apart(t, m) {
        CheckedOutCopyApart(e0, e1, e2, m, env.support, t, TreePaths(repoPath, env.submoduleStatus, env.lsTree).value, files);
      }
    }
  }

  /** Changes made only inside the metadata path leave everything elsewhere as it was. */
  lemma MetadataElsewhere(e1: map<Path, Node>, e2: map<Path, Node>, repoPath: string, config: Config)
    requires SameOutside(e1, e2, Components(config.metadataPath))
    ensures Elsewhere(e1, repoPath, config) == Elsewhere(e2, repoPath, config)
  {
    var r, t := Components(repoPath), Components(config.testPath);
    SameOutsideView(Outside(Outside(e1, r), t), Outside(Outside(e2, r), t), Components(config.metadataPath));
  }

  /** A sync's promise about the test path holds against the disk before directories were added. */
  lemma TestsMirroredGrown(e0: map<Path, Node>, e1: map<Path, Node>, e: map<Path, Node>, targets: seq<Path>,
                           repoPath: string, config: Config, env: Env, files: WorkTree)
    requires GrownTowardAny(e0, e1, targets) && TestsMirrored(e1, e, repoPath, config, env, files)
    ensures TestsMirrored(e0, e, repoPath, config, env, files)
  {
    var r, t := Components(repoPath), Components(config.testPath);
    if Apart(r, t) && Apart(env.support, t) && Apart(env.support, r) && Apart(t, Components(config.metadataPath)) {
      CheckedOutCopyGrown(e0, e1, e, targets, env.support, t, TreePaths(repoPath, env.submoduleStatus, env.lsTree).value, files);
    }
  }

  /**
   * A run's effect on the disk: directories toward the three working paths,
   * then a sync attempt toward `target` that succeeded when `ok`.
   */
  lemma RunDisk(e0: map<Path, Node>, e1: map<Path, Node>, e2: map<Path, Node>,
                config: Config, env: Env, target: string, ok: bool)
    requires GrownTowardAny(e0, e1, WorkingPaths(config))
    requires SyncedDisk(e1, e2, config.syncPath, target, config, env, ok)
    ensures GrownTowardAny(Elsewhere(e0, config.syncPath, config), Elsewhere(e2, config.syncPath, config),
                           WorkingPaths(config))
    ensures ok ==>
      && target in env.remote
      && TestsMirrored(e0, e2, config.syncPath, config, env, env.worktree(env.remote[target]))
  {
    var r, t := Components(config.syncPath), Components(config.testPath);
    OutsideGrown(e0, e1, r, WorkingPaths(config));
    OutsideGrown(Outside(e0, r), Outside(e1, r), t, WorkingPaths(config));
    OutsideGrown(Outside(Outside(e0, r), t), Outside(Outside(e1, r), t), Components(config.metadataPath), WorkingPaths(config));
    GrownTowardAnyTrans(Elsewhere(e0, config.syncPath, config), Elsewhere(e1, config.syncPath, config),
                        Elsewhere(e2, config.syncPath, config), WorkingPaths(config), [r], WorkingPaths(config));
    if ok {
      TestsMirroredGrown(e0, e1, e2, WorkingPaths(config), config.syncPath, config, env,
                         env.worktree(env.remote[target]));
    }
  }

  /** `ensure_exists(path)`: create the directory unless something exists at `path`. */
  method EnsureExists(disk: Disk, path: string) returns (out: Outcome<FsError>)
    requires disk.Valid()
    modifies disk
    ensures disk.Valid() && GrownToward(old(disk.entries), disk.entries, Components(path))
    ensures out.Pass? <==> CanEnsure(old(disk.entries), Components(path))
    ensures out.Pass? ==> Components(path) in disk.entries
    ensures Components(path) in old(disk.entries) ==> disk.entries == old(disk.entries)
  {
    if !disk.Exists(Components(path)) {
      out := disk.MakeDirs(Components(path));
    } else {
      out := Pass;
    }
  }

  /**
   * The last three steps of `sync_tests`: open the patch `name` with
   * message `msg`, stage the tree at `rel`, and record `paths` in the patch.
   */
  method RecordPatch(tree: LocalTree, name: string, msg: string, rel: string, paths: seq<string>)
    returns (out: Outcome<TreeError>)
    modifies tree
    ensures out.Fail? ==> out.error.CommandFailed? && name in old(tree.names) && tree.kind != NoVCS
    ensures out.Pass? <==> tree.kind == NoVCS || name !in old(tree.names)
    ensures out.Pass? ==>
      && tree.log == old(tree.log) + CreateCommands(tree.kind, tree.root, name, msg)
                     + AddCommands(tree.kind, Some(rel)) + UpdateCommands(tree.kind, Some(msg), Some(paths))
      && (tree.kind != NoVCS ==> tree.current == Some(name))
      && (tree.kind == Git ==> tree.message == Some(msg))
  {
    out := tree.CreatePatch(name, msg);
    if out.Fail? {
      return;
    }
    tree.AddNew(Some(rel));
    out := tree.UpdatePatch(Some(paths));
  }

  /**
   * The mirror half of `sync_tests` succeeds from the disk `e` and the
   * clone's state (`isRoot`, `porcelain`, `branches`): `update` succeeds,
   * the tree listing parses, and the copy succeeds from the target's
   * working tree.
   */
  ghost predicate MirrorSucceeds(e: map<Path, Node>, isRoot: bool, porcelain: string, branches: map<string, Rev>,
                                 wpt: WebPlatformTests, env: Env) {
    && wpt.UpdateSucceeds(e, isRoot, porcelain, branches, env.remote)
    && TreePaths(wpt.repoPath, env.submoduleStatus, env.lsTree).Some?
    && TreeCopySucceeds(e, env.worktree(env.remote[wpt.targetRev]), env.support,
                        TreePaths(wpt.repoPath, env.submoduleStatus, env.lsTree).value)
  }

  /**
   * `sync_tests` succeeds: the mirror half does, and the sync patch for the
   * target's commit can be created on a tree of kind `kind` whose existing
   * branches or patches are `names`.
   */
  ghost predicate SyncSucceeds(e: map<Path, Node>, isRoot: bool, porcelain: string, branches: map<string, Rev>,
                               kind: TreeKind, names: set<string>, wpt: WebPlatformTests, env: Env) {
    && MirrorSucceeds(e, isRoot, porcelain, branches, wpt, env)
    && (kind == NoVCS || SyncPatchName(Some(env.remote[wpt.targetRev])) !in names)
  }

  /** The clone, the test path and the support directory lie apart, and the test path is a directory of `e`. */
  ghost predicate PathsApart(e: map<Path, Node>, repoPath: string, config: Config, env: Env) {
    var r, t := Components(repoPath), Components(config.testPath);
    Apart(r, t) && Apart(env.support, t) && Apart(env.support, r) && IsDirAt(e, t)
  }

  /**
   * What a metadata collaborator does to the metadata path `m`: when it is
   * a directory its contents become `files`; nothing changes otherwise.
   */
  method WriteMetadata(disk: Disk, m: Path, files: WorkTree)
    requires disk.Valid()
    modifies disk
    ensures disk.Valid() && SameOutside(old(disk.entries), disk.entries, m)
    ensures IsDirAt(disk.entries, m) <==> IsDirAt(old(disk.entries), m)
    ensures IsDirAt(old(disk.entries), m) ==> HoldsTree(disk.entries, m, files)
    ensures !IsDirAt(old(disk.entries), m) ==> disk.entries == old(disk.entries)
  {
    if disk.IsDir(m) {
      disk.WriteTree(m, files);
    }
  }

  /**
   * The mirror half of `sync_tests`: update the mirror, load the manifest,
   * copy the mirror's tree into the test path and update the manifest.
   * Outside the clone, the test path and the metadata path, the disk only
   * gains the clone's directory; on success, when the paths lie apart, the
   * test path holds exactly the mirrored tree, and the metadata path, when
   * it is a directory, what the manifest update left there.
   */
  method MirrorTests(wpt: WebPlatformTests, disk: Disk, clone: GitClone, config: Config, env: Env)
    returns (out: Outcome<MirrorError>, events: seq<Event>)
    requires disk.Valid()
    modifies disk, clone
    ensures disk.Valid()
    ensures events <= [LoadTestManifest, UpdateManifest]
    ensures old(clone.isRoot) && old(clone.porcelain) != "" && IsDirAt(old(disk.entries), wpt.RepoDir()) ==>
      out == Fail(RepositoryError(wpt.repoPath)) && unchanged(clone) && events == []
    ensures out.Pass? ==>
      && clone.isRoot && wpt.targetRev in env.remote && clone.head == env.remote[wpt.targetRev]
      && clone.checkedOut == Some(wpt.localBranch) && events == [LoadTestManifest, UpdateManifest]
    ensures out.Pass? && IsDirAt(disk.entries, Components(config.metadataPath)) ==>
      HoldsTree(disk.entries, Components(config.metadataPath), env.manifestFiles)
    ensures PathsApart(old(disk.entries), wpt.repoPath, config, env) ==>
      (out.Pass? <==> MirrorSucceeds(old(disk.entries), old(clone.isRoot), old(clone.porcelain), old(clone.branches), wpt, env))
    ensures SyncedDisk(old(disk.entries), disk.entries, wpt.repoPath, wpt.targetRev, config, env, out.Pass?)
  {
    ghost var e0 := disk.entries;
    events := [];
    out := wpt.Update(disk, clone, env.remote, env.worktree);
    ghost var e1 := disk.entries;
    if out.Fail? {
      MirroredStep(e0, e1, e1, wpt.repoPath, wpt.targetRev, config, env, false);
      return;
    }
    events := events + [LoadTestManifest];
    if Apart(wpt.RepoDir(), Components(config.testPath)) {
      DirApartKept(e0, e1, wpt.RepoDir(), Components(config.testPath));
    }
    out := CopyTests(wpt, disk, config, env, e0);
    if out.Fail? {
      return;
    }
    events := events + [UpdateManifest];
  }

  /**
   * The rest of the mirror half once the mirror is at the target: copy its
   * tree into the test path, then update the manifest. `e0` is the disk
   * before the mirror was updated.
   */
  method CopyTests(wpt: WebPlatformTests, disk: Disk, config: Config, env: Env, ghost e0: map<Path, Node>)
    returns (out: Outcome<MirrorError>)
    requires disk.Valid()
    requires GrownToward(Outside(e0, wpt.RepoDir()), Outside(disk.entries, wpt.RepoDir()), wpt.RepoDir())
    requires wpt.targetRev in env.remote && HoldsTree(disk.entries, wpt.RepoDir(), env.worktree(env.remote[wpt.targetRev]))
    modifies disk
    ensures disk.Valid()
    ensures out.Pass? && IsDirAt(disk.entries, Components(config.metadataPath)) ==>
      HoldsTree(disk.entries, Components(config.metadataPath), env.manifestFiles)
    ensures PathsApart(old(disk.entries), wpt.repoPath, config, env) ==>
      (out.Pass? <==>
         && TreePaths(wpt.repoPath, env.submoduleStatus, env.lsTree).Some?
         && TreeCopySucceeds(e0, env.worktree(env.remote[wpt.targetRev]), env.support,
                             TreePaths(wpt.repoPath, env.submoduleStatus, env.lsTree).value))
    ensures SyncedDisk(e0, disk.entries, wpt.repoPath, wpt.targetRev, config, env, out.Pass?)
  {
    ghost var e1 := disk.entries;
    var tree := TreePaths(wpt.repoPath, env.submoduleStatus, env.lsTree);
    if PathsApart(e1, wpt.repoPath, config, env) && tree.Some? {
      CopySucceedsFromTree(e0, e1, wpt.RepoDir(), env.support, tree.value, env.worktree(env.remote[wpt.targetRev]));
    }
    out := wpt.CopyWorkTree(disk, config.testPath, env.support, env.submoduleStatus, env.lsTree);
    MirroredStep(e0, e1, disk.entries, wpt.repoPath, wpt.targetRev, config, env, out.Pass?);
    if out.Fail? {
      return;
    }
    ghost var e2 := disk.entries;
    WriteMetadata(disk, Components(config.metadataPath), env.manifestFiles);
    MetadataKeepsSync(e0, e2, disk.entries, wpt.repoPath, wpt.targetRev, config, env, true);
  }

  /**
   * `sync_tests`: update the mirror, load the manifest, copy the mirror's
   * tree into the test path, update the manifest, then open a patch named
   * after the mirror's revision, stage the test path and record the test
   * and metadata paths in the patch. Any failure propagates.
   */
  method SyncTests(wpt: WebPlatformTests, disk: Disk, clone: GitClone, tree: LocalTree, config: Config, env: Env)
    returns (out: Outcome<UpdateError>, initial: Manifest, events: seq<Event>)
    requires disk.Valid()
    modifies disk, clone, tree
    ensures disk.Valid()
    ensures events <= [LoadTestManifest, UpdateManifest]
    ensures old(clone.isRoot) && old(clone.porcelain) != "" && IsDirAt(old(disk.entries), wpt.RepoDir()) ==>
      && out == Fail(MirrorFailed(RepositoryError(wpt.repoPath)))
      && unchanged(clone) && unchanged(tree) && events == []
    ensures out.Pass? ==>
      && clone.isRoot && wpt.targetRev in env.remote && clone.head == env.remote[wpt.targetRev] && clone.checkedOut == Some(wpt.localBranch)
      && initial == env.loadedManifest && events == [LoadTestManifest, UpdateManifest]
    ensures out.Pass? ==>
      && tree.log == old(tree.log) + SyncCommands(tree.kind, tree.root, Revision(clone), config, env)
      && (tree.kind != NoVCS ==> tree.current == Some(SyncPatchName(Revision(clone))))
      && (tree.kind == Git ==> tree.message == Some(SyncMessage(Revision(clone))))
    ensures out.Pass? && IsDirAt(disk.entries, Components(config.metadataPath)) ==>
      HoldsTree(disk.entries, Components(config.metadataPath), env.manifestFiles)
    ensures PathsApart(old(disk.entries), wpt.repoPath, config, env) ==>
      (out.Pass? <==> SyncSucceeds(old(disk.entries), old(clone.isRoot), old(clone.porcelain), old(clone.branches),
                                   tree.kind, old(tree.names), wpt, env))
    ensures SyncedDisk(old(disk.entries), disk.entries, wpt.repoPath, wpt.targetRev, config, env, out.Pass?)
  {
    initial := env.loadedManifest;
    var mirrored;
    mirrored, events := MirrorTests(wpt, disk, clone, config, env);
    if mirrored.Fail? {
      return Fail(MirrorFailed(mirrored.error)), initial, events;
    }
    var recorded := RecordSync(tree, Revision(clone), config, env);
    if recorded.Fail? {
      return Fail(TreeFailed(recorded.error)), initial, events;
    }
    return Pass, initial, events;
  }

  /** The patch half of `sync_tests`: record the test and metadata paths in the sync patch for `rev`. */
  method RecordSync(tree: LocalTree, rev: Option<string>, config: Config, env: Env) returns (out: Outcome<TreeError>)
    modifies tree
    ensures out.Fail? ==> out.error.CommandFailed? && SyncPatchName(rev) in old(tree.names) && tree.kind != NoVCS
    ensures out.Pass? <==> tree.kind == NoVCS || SyncPatchName(rev) !in old(tree.names)
    ensures out.Pass? ==>
      && tree.log == old(tree.log) + SyncCommands(tree.kind, tree.root, rev, config, env)
      && (tree.kind != NoVCS ==> tree.current == Some(SyncPatchName(rev)))
      && (tree.kind == Git ==> tree.message == Some(SyncMessage(rev)))
  {
    out := RecordPatch(tree, SyncPatchName(rev), SyncMessage(rev),
                       env.relPath(config.testPath, tree.root), [config.testPath, config.metadataPath]);
  }

  /**
   * `update_metadata`: open the metadata patch (a failure to create it is
   * ignored), pass the log files and the initial revision to the
   * expectation updater (which rewrites the metadata path when it is a
   * directory), report the files needing a human, and stage and record the
   * metadata path only when the tree is dirty afterwards. The
   * Git message is set by `create_patch` even when its branch exists, so
   * the `update_patch` assertion cannot fail here.
   */
  method UpdateMetadata(wpt: WebPlatformTests, disk: Disk, clone: GitClone, tree: LocalTree, config: Config, env: Env,
                        logFiles: string, initialRev: Option<string>, ignoreExisting: bool)
    returns (events: seq<Event>)
    requires disk.Valid()
    modifies disk, tree
    ensures disk.Valid() && SameOutside(old(disk.entries), disk.entries, Components(config.metadataPath))
    ensures IsDirAt(disk.entries, Components(config.metadataPath)) <==> IsDirAt(old(disk.entries), Components(config.metadataPath))
    ensures IsDirAt(old(disk.entries), Components(config.metadataPath)) ==>
      HoldsTree(disk.entries, Components(config.metadataPath), env.expectedFiles)
    ensures !IsDirAt(old(disk.entries), Components(config.metadataPath)) ==> disk.entries == old(disk.entries)
    ensures events == MetadataEvents(logFiles, initialRev, ignoreExisting, env)
    ensures tree.kind == Git ==> tree.message == Some(MetadataMessage(Revision(clone)))
    ensures tree.log == old(tree.log) + MetadataCommands(tree.kind, tree.root, Revision(clone), config, env)
  {
    var rev := Revision(clone);
    // A failure here means the patch exists already; it is ignored.
    var created := tree.CreatePatch(MetadataPatchName(rev), MetadataMessage(rev));
    WriteMetadata(disk, Components(config.metadataPath), env.expectedFiles);
    events := MetadataEvents(logFiles, initialRev, ignoreExisting, env);
    RecordMetadata(tree, MetadataMessage(rev), config, env);
  }

  /**
   * The end of `update_metadata`: on a dirty tree, stage the metadata path
   * and record it in the open patch, whose Git message is `msg`.
   */
  method RecordMetadata(tree: LocalTree, msg: string, config: Config, env: Env)
    requires tree.kind == Git ==> tree.message == Some(msg)
    modifies tree
    ensures tree.message == old(tree.message)
    ensures tree.log == old(tree.log) +
      (if CleanStatus(tree.kind, env.finalStatus) then []
       else AddCommands(tree.kind, Some(env.relPath(config.metadataPath, tree.root)))
            + UpdateCommands(tree.kind, Some(msg), Some([config.metadataPath])))
  {
    if !tree.IsClean(env.finalStatus) {
      tree.AddNew(Some(env.relPath(config.metadataPath, tree.root)));
      var recorded := tree.UpdatePatch(Some([config.metadataPath]));
      assert recorded.Pass?;
    }
  }

  /** The sync flow of `run_update`: `sync_tests` when asked, nothing otherwise. */
  method SyncFlow(opts: Options, config: Config, env: Env, wpt: WebPlatformTests, disk: Disk, clone: GitClone, tree: LocalTree)
    returns (out: Outcome<UpdateError>, initialRev: Option<string>, events: seq<Event>)
    requires disk.Valid()
    modifies disk, clone, tree
    ensures disk.Valid()
    ensures !opts.sync ==> out.Pass? && initialRev.None? && events == [] && unchanged(clone) && unchanged(disk) && unchanged(tree)
    ensures opts.sync && out.Pass? ==>
      && clone.isRoot && wpt.targetRev in env.remote && clone.head == env.remote[wpt.targetRev]
      && clone.checkedOut == Some(wpt.localBranch)
      && initialRev == env.loadedManifest.rev && events == [LoadTestManifest, UpdateManifest]
      && tree.log == old(tree.log) + SyncCommands(tree.kind, tree.root, Revision(clone), config, env)
      && (IsDirAt(disk.entries, Components(config.metadataPath)) ==>
            HoldsTree(disk.entries, Components(config.metadataPath), env.manifestFiles))
    ensures events <= [LoadTestManifest, UpdateManifest]
    ensures opts.sync && PathsApart(old(disk.entries), wpt.repoPath, config, env) ==>
      (out.Pass? <==> SyncSucceeds(old(disk.entries), old(clone.isRoot), old(clone.porcelain), old(clone.branches),
                                   tree.kind, old(tree.names), wpt, env))
    ensures SyncedDisk(old(disk.entries), disk.entries, wpt.repoPath, wpt.targetRev, config, env, opts.sync && out.Pass?)
  {
    if !opts.sync {
      return Pass, None, [];
    }
    var initial;
    out, initial, events := SyncTests(wpt, disk, clone, tree, config, env);
    initialRev := initial.rev;
  }

  /** The metadata flow of `run_update`: `update_metadata` when a run log is given, nothing otherwise. */
  method MetadataFlow(opts: Options, config: Config, env: Env, wpt: WebPlatformTests, disk: Disk, clone: GitClone,
                      tree: LocalTree, initialRev: Option<string>)
    returns (events: seq<Event>)
    requires disk.Valid()
    modifies disk, tree
    ensures disk.Valid() && SameOutside(old(disk.entries), disk.entries, Components(config.metadataPath))
    ensures IsDirAt(disk.entries, Components(config.metadataPath)) <==> IsDirAt(old(disk.entries), Components(config.metadataPath))
    ensures Truthy(opts.runLog) && IsDirAt(old(disk.entries), Components(config.metadataPath)) ==>
      HoldsTree(disk.entries, Components(config.metadataPath), env.expectedFiles)
    ensures !Truthy(opts.runLog) || !IsDirAt(old(disk.entries), Components(config.metadataPath)) ==>
      disk.entries == old(disk.entries)
    ensures events == (if Truthy(opts.runLog) then MetadataEvents(opts.runLog.value, initialRev, opts.ignoreExisting, env) else [])
    ensures tree.log == old(tree.log) +
      (if Truthy(opts.runLog) then MetadataCommands(tree.kind, tree.root, Revision(clone), config, env) else [])
  {
    events := [];
    if Truthy(opts.runLog) {
      events := UpdateMetadata(wpt, disk, clone, tree, config, env, opts.runLog.value, initialRev, opts.ignoreExisting);
    }
  }

  /**
   * The metadata flow once the sync flow has passed, stated against the disk
   * `e0` and the tree log `log0` from before the sync flow.
   */
  method MetadataAfterSync(opts: Options, config: Config, env: Env, wpt: WebPlatformTests, disk: Disk, clone: GitClone,
                           tree: LocalTree, initialRev: Option<string>, ghost e0: map<Path, Node>, ghost log0: seq<seq<string>>)
    returns (events: seq<Event>)
    requires disk.Valid()
    requires tree.log == log0 + (if opts.sync then SyncCommands(tree.kind, tree.root, Revision(clone), config, env) else [])
    requires SyncedDisk(e0, disk.entries, wpt.repoPath, wpt.targetRev, config, env, opts.sync)
    requires !opts.sync ==> disk.entries == e0
    requires opts.sync && IsDirAt(disk.entries, Components(config.metadataPath)) ==>
      HoldsTree(disk.entries, Components(config.metadataPath), env.manifestFiles)
    modifies disk, tree
    ensures disk.Valid()
    ensures !opts.sync ==> SameOutside(e0, disk.entries, Components(config.metadataPath))
    ensures !opts.sync && !Truthy(opts.runLog) ==> disk.entries == e0
    ensures events == (if Truthy(opts.runLog) then MetadataEvents(opts.runLog.value, initialRev, opts.ignoreExisting, env) else [])
    ensures tree.log == log0 + RunCommands(opts, config, env, tree.kind, tree.root, Revision(clone))
    ensures Truthy(opts.runLog) && IsDirAt(disk.entries, Components(config.metadataPath)) ==>
      HoldsTree(disk.entries, Components(config.metadataPath), env.expectedFiles)
    ensures opts.sync && !Truthy(opts.runLog) && IsDirAt(disk.entries, Components(config.metadataPath)) ==>
      HoldsTree(disk.entries, Components(config.metadataPath), env.manifestFiles)
    ensures SyncedDisk(e0, disk.entries, wpt.repoPath, wpt.targetRev, config, env, opts.sync)
  {
    ghost var e1 := disk.entries;
    ghost var log1 := tree.log;
    events := MetadataFlow(opts, config, env, wpt, disk, clone, tree, initialRev);
    MetadataKeepsSync(e0, e1, disk.entries, wpt.repoPath, wpt.targetRev, config, env, opts.sync);
    RunCommandsCompose(log0, log1, tree.log, opts, config, env, tree.kind, tree.root, Revision(clone));
  }

  /** The part of `run_update` after the dirty-tree check: the sync flow, then the metadata flow. */
  method RunFlows(opts: Options, config: Config, env: Env, wpt: WebPlatformTests, disk: Disk, clone: GitClone, tree: LocalTree)
    returns (out: RunOutcome, events: seq<Event>)
    requires disk.Valid()
    requires wpt.targetRev == TargetRev(opts, config) && wpt.localBranch == env.localBranch
    modifies disk, clone, tree
    ensures disk.Valid()
    ensures out.Finished? || out.Raised?
    ensures !opts.sync ==> out.Finished? && unchanged(clone) && LoadTestManifest !in events
    ensures !opts.sync ==> SameOutside(old(disk.entries), disk.entries, Components(config.metadataPath))
    ensures !opts.sync && !Truthy(opts.runLog) ==> disk.entries == old(disk.entries)
    ensures opts.sync && PathsApart(old(disk.entries), wpt.repoPath, config, env) ==>
      (out.Finished? <==> SyncSucceeds(old(disk.entries), old(clone.isRoot), old(clone.porcelain), old(clone.branches),
                                       tree.kind, old(tree.names), wpt, env))
    ensures out.Raised? ==> events <= [LoadTestManifest, UpdateManifest]
    ensures out.Finished? ==> events == RunEvents(opts, env)
    ensures out.Finished? && opts.sync ==>
      && TargetRev(opts, config) in env.remote
      && clone.head == env.remote[TargetRev(opts, config)] && clone.checkedOut == Some(env.localBranch)
    ensures out.Finished? ==> tree.log == old(tree.log) + RunCommands(opts, config, env, tree.kind, tree.root, Revision(clone))
    ensures out.Finished? && Truthy(opts.runLog) && IsDirAt(disk.entries, Components(config.metadataPath)) ==>
      HoldsTree(disk.entries, Components(config.metadataPath), env.expectedFiles)
    ensures out.Finished? && opts.sync && !Truthy(opts.runLog) && IsDirAt(disk.entries, Components(config.metadataPath)) ==>
      HoldsTree(disk.entries, Components(config.metadataPath), env.manifestFiles)
    ensures SyncedDisk(old(disk.entries), disk.entries, wpt.repoPath, wpt.targetRev, config, env, out.Finished? && opts.sync)
  {
    ghost var e0 := disk.entries;
    ghost var log0 := tree.log;
    var synced, initialRev;
    synced, initialRev, events := SyncFlow(opts, config, env, wpt, disk, clone, tree);
    if synced.Fail? {
      return Raised(synced.error), events;
    }
    var metadataEvents := MetadataAfterSync(opts, config, env, wpt, disk, clone, tree, initialRev, e0, log0);
    events := events + metadataEvents;
    if !opts.sync {
      NoManifestLoadWithoutSync(opts, env);
    }
    return Finished, events;
  }

  /**
   * The `ensure_exists` loop of `run_update` over the sync, test and
   * metadata paths. Whether it succeeds does not depend on the order of the
   * paths; only directories on the way to them are added.
   */
  method EnsurePaths(disk: Disk, config: Config) returns (out: Outcome<FsError>)
    requires disk.Valid()
    modifies disk
    ensures disk.Valid()
    ensures GrownTowardAny(old(disk.entries), disk.entries, WorkingPaths(config))
    ensures out.Pass? <==>
      && CanEnsure(old(disk.entries), Components(config.syncPath))
      && CanEnsure(old(disk.entries), Components(config.testPath))
      && CanEnsure(old(disk.entries), Components(config.metadataPath))
    ensures out.Pass? ==>
      && Components(config.syncPath) in disk.entries
      && Components(config.testPath) in disk.entries
      && Components(config.metadataPath) in disk.entries
  {
    ghost var e0 := disk.entries;
    ghost var ps := WorkingPaths(config);
    out := EnsureExists(disk, config.syncPath);
    ghost var e1 := disk.entries;
    GrownTowardWiden(e0, e1, ps[0], ps);
    if out.Fail? {
      return;
    }
    CanEnsureGrown(e0, e1, ps, ps[1]);
    CanEnsureGrown(e0, e1, ps, ps[2]);
    out := EnsureExists(disk, config.testPath);
    ghost var e2 := disk.entries;
    GrownTowardWiden(e1, e2, ps[1], ps);
    GrownTowardAnyTrans(e0, e1, e2, ps, ps, ps);
    if out.Fail? {
      return;
    }
    CanEnsureGrown(e1, e2, ps, ps[2]);
    out := EnsureExists(disk, config.metadataPath);
    GrownTowardWiden(e2, disk.entries, ps[2], ps);
    GrownTowardAnyTrans(e0, e2, disk.entries, ps, ps, ps);
  }

  /**
   * `run_update`: make sure the sync, test and metadata paths exist, select
   * the local tree, stop with exit status 1 on a dirty tree unless told not
   * to check, then sync the tests when asked (taking the initial revision
   * from the loaded manifest) and update the metadata when a run log is
   * given. `selected` is the tree kind chosen, `commands` what the tree
   * issued, `events` the calls into the metadata collaborator.
   */
  method RunUpdate(opts: Options, config: Config, env: Env, disk: Disk, clone: GitClone)
    returns (out: RunOutcome, selected: Option<TreeKind>, commands: seq<seq<string>>, events: seq<Event>)
    requires disk.Valid()
    modifies disk, clone
    ensures disk.Valid()
    ensures selected.None? <==>
      !(&& CanEnsure(old(disk.entries), Components(config.syncPath))
        && CanEnsure(old(disk.entries), Components(config.testPath))
        && CanEnsure(old(disk.entries), Components(config.metadataPath)))
    ensures selected.None? ==> out.Raised? && out.error.DiskFailed? && commands == [] && events == [] && unchanged(clone)
    ensures selected.Some? && !opts.patch ==> selected.value == NoVCS
    ensures selected.Some? && opts.patch ==>
      && IsType(selected.value, env.probe)
      && (selected.value == Hg <==> env.probe.hgRoot.Some?)
      && (selected.value == Git <==> env.probe.hgRoot.None? && env.probe.gitTop.Some?)
    ensures out == Exited(1) <==>
      selected.Some? && selected.value != NoVCS && !AllSpace(env.initialStatus) && !opts.noCheckClean
    ensures out.Exited? ==> commands == [] && events == [] && unchanged(clone)
    ensures !opts.sync && !out.Exited? && selected.Some? ==> out.Finished?
    ensures !opts.sync ==> unchanged(clone) && LoadTestManifest !in events
    ensures out.Raised? ==> events <= [LoadTestManifest, UpdateManifest]
    ensures out.Finished? ==> events == RunEvents(opts, env)
    ensures out.Finished? && opts.sync ==>
      && TargetRev(opts, config) in env.remote
      && clone.head == env.remote[TargetRev(opts, config)] && clone.checkedOut == Some(env.localBranch)
    ensures out.Finished? ==>
      && selected.Some? && IsType(selected.value, env.probe)
      && commands == RunCommands(opts, config, env, selected.value, RootOf(selected.value, env.probe), Revision(clone))
    ensures GrownTowardAny(Elsewhere(old(disk.entries), config.syncPath, config), Elsewhere(disk.entries, config.syncPath, config),
                           WorkingPaths(config))
    ensures !opts.sync ==>
      GrownTowardAny(Outside(old(disk.entries), Components(config.metadataPath)),
                     Outside(disk.entries, Components(config.metadataPath)), WorkingPaths(config))
    ensures out.Exited? || selected.None? || (!opts.sync && !Truthy(opts.runLog)) ==>
      GrownTowardAny(old(disk.entries), disk.entries, WorkingPaths(config))
    ensures out.Finished? && Truthy(opts.runLog) && IsDirAt(disk.entries, Components(config.metadataPath)) ==>
      HoldsTree(disk.entries, Components(config.metadataPath), env.expectedFiles)
    ensures out.Finished? && opts.sync && !Truthy(opts.runLog) && IsDirAt(disk.entries, Components(config.metadataPath)) ==>
      HoldsTree(disk.entries, Components(config.metadataPath), env.manifestFiles)
    ensures out.Finished? && opts.sync ==>
      && TargetRev(opts, config) in env.remote
      && TestsMirrored(old(disk.entries), disk.entries, config.syncPath, config, env,
                       env.worktree(env.remote[TargetRev(opts, config)]))
  {
    ghost var e0 := disk.entries;
    commands, events := [], [];
    var ready := EnsurePaths(disk, config);
    ghost var e1 := disk.entries;
    RunDisk(e0, e1, e1, config, env, TargetRev(opts, config), false);
    if ready.Fail? {
      return Raised(DiskFailed(ready.error)), None, commands, events;
    }

    var kind;
    out, kind, commands, events := RunOnTree(opts, config, env, disk, clone);
    selected := Some(kind);
    RunDisk(e0, e1, disk.entries, config, env, TargetRev(opts, config), out.Finished? && opts.sync);
    if !opts.sync {
      OutsideGrown(e0, e1, Components(config.metadataPath), WorkingPaths(config));
      SameOutsideView(e1, disk.entries, Components(config.metadataPath));
    }
  }

  /**
   * The part of `run_update` once the working paths exist: select the
   * local tree of kind `kind`, stop with exit status 1 on a dirty tree
   * unless told not to check, then run the sync and metadata flows.
   */
  method RunOnTree(opts: Options, config: Config, env: Env, disk: Disk, clone: GitClone)
    returns (out: RunOutcome, kind: TreeKind, commands: seq<seq<string>>, events: seq<Event>)
    requires disk.Valid()
    modifies disk, clone
    ensures disk.Valid()
    ensures !opts.patch ==> kind == NoVCS
    ensures opts.patch ==>
      && IsType(kind, env.probe)
      && (kind == Hg <==> env.probe.hgRoot.Some?)
      && (kind == Git <==> env.probe.hgRoot.None? && env.probe.gitTop.Some?)
    ensures out == Exited(1) <==> kind != NoVCS && !AllSpace(env.initialStatus) && !opts.noCheckClean
    ensures out.Exited? ==> commands == [] && events == [] && unchanged(clone) && unchanged(disk)
    ensures !opts.sync && !out.Exited? ==> out.Finished?
    ensures !opts.sync ==> unchanged(clone) && LoadTestManifest !in events
    ensures !opts.sync ==> SameOutside(old(disk.entries), disk.entries, Components(config.metadataPath))
    ensures !opts.sync && !Truthy(opts.runLog) ==> disk.entries == old(disk.entries)
    ensures out.Raised? ==> events <= [LoadTestManifest, UpdateManifest]
    ensures out.Finished? ==> events == RunEvents(opts, env)
    ensures out.Finished? && opts.sync ==>
      && TargetRev(opts, config) in env.remote
      && clone.head == env.remote[TargetRev(opts, config)] && clone.checkedOut == Some(env.localBranch)
    ensures out.Finished? ==>
      && IsType(kind, env.probe)
      && commands == RunCommands(opts, config, env, kind, RootOf(kind, env.probe), Revision(clone))
    ensures out.Finished? && Truthy(opts.runLog) && IsDirAt(disk.entries, Components(config.metadataPath)) ==>
      HoldsTree(disk.entries, Components(config.metadataPath), env.expectedFiles)
    ensures out.Finished? && opts.sync && !Truthy(opts.runLog) && IsDirAt(disk.entries, Components(config.metadataPath)) ==>
      HoldsTree(disk.entries, Components(config.metadataPath), env.manifestFiles)
    ensures SyncedDisk(old(disk.entries), disk.entries, config.syncPath, TargetRev(opts, config), config, env,
                       out.Finished? && opts.sync)
  {
    kind := SelectTree(opts.patch, env.probe);
    var tree := new LocalTree(kind, env.probe, env.treeNames, env.treeCurrent, env.queueReady);
    if !tree.IsClean(env.initialStatus) && !opts.noCheckClean {
      MetadataKeepsSync(disk.entries, disk.entries, disk.entries, config.syncPath, TargetRev(opts, config), config, env, false);
      return Exited(1), kind, [], [];
    }
    var wpt := new WebPlatformTests(config.remoteUrl, config.syncPath, TargetRev(opts, config), env.localBranch);
    out, events := RunFlows(opts, config, env, wpt, disk, clone, tree);
    commands := tree.log;
  }
}
