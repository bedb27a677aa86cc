# wptrunner update driver, modelled in Dafny

This project models `wptrunner/update.py`, the script that brings a
checkout of the upstream web-platform-tests suite into a local test
directory and records the change as a patch in the local working tree.
The modelled parts are:

- the **mirror** (`WebPlatformTests`): a local git clone of the upstream
  repository, updated to a target revision on a throwaway isolation branch;
- the two **git output parsers** (`_submodules` and `_tree_paths`), which
  turn `git submodule status --recursive` and `git ls-tree -r --name-only
  HEAD` into tracked paths;
- **`copy_work_tree`**: it empties the destination directory, copies every
  tracked non-directory path into it, then overlays the two support files
  `testharness_runner.html` and `testharnessreport.js`;
- the three **local tree** classes (`NoVCSTree`, `HgTree`, `GitTree`),
  with the priority order in which they are probed;
- the **driver** (`run_update`, `sync_tests`, `update_metadata`):
  - ensure the three working paths exist;
  - select the tree;
  - stop on a dirty tree unless told otherwise;
  - resolve the target revision;
  - sync the tests;
  - update the expectation metadata, passing the initial revision along.

The modules follow the program's structure:

| file | module | what it holds |
|---|---|---|
| `wrappers.dfy` | `Wrappers` | `Option` and the `Outcome` of an operation that can fail |
| `text.dfy` | `Text` | Python's `str.split(sep)` and `str.strip()`, with their laws |
| `paths.dfy` | `Paths` | `posixpath.join` and how a path string resolves to components |
| `filesystem.dfy` | `FileSystem` | the disk as a map from component paths to directories and files |
| `mirror_output.dfy` | `MirrorOutput` | the two git output parsers and their round trips |
| `mirror.dfy` | `Mirror` | the git clone state and the mirror class |
| `local_tree.dfy` | `LocalTrees` | the three local tree kinds as one class over an abstract repository |
| `orchestrator.dfy` | `Updater` | `sync_tests`, `update_metadata`, `run_update` |

The version-control tools and the metadata collaborator are not code this
model can see. They are modelled as follows:

- Each git or hg command is an operation on abstract state. For the clone,
  that state is:
  - whether the path is a git root;
  - the `status --porcelain` text;
  - the branches;
  - `HEAD`;
  - the checked-out branch.
- For a local tree, that state is:
  - the existing branch or patch names;
  - the current one;
  - whether a patch queue exists;
  - the commands issued so far.
- Outputs the driver only reads are parameters: status texts, `ls-tree`
  listings, probe results, the manifests, `os.path.relpath`, and the random
  isolation-branch name.
- The calls into the metadata collaborator are recorded as events.

## Model

| member | source | states |
|---|---|---|
| `Text.JoinSplit` | wptrunner/update.py:88-92 | splitting on a separator loses nothing: joining the pieces back gives the original text |
| `Text.SplitJoin` | wptrunner/update.py:88-92 | pieces without the separator, joined and split again, come back unchanged |
| `Text.SplitPiecesFree` | wptrunner/update.py:92 | no piece of `split(sep)` contains `sep` |
| `Text.SplitPrefix` | wptrunner/update.py:88 | a text cut at its first separator splits into that head followed by the split of the rest |
| `Text.StripSlice` | wptrunner/update.py:89 | `strip()` returns a contiguous slice, removes only whitespace and leaves no whitespace at either end |
| `Text.StripEmpty` | wptrunner/update.py:89-90 | a stripped line is empty exactly when the line is all whitespace (so blank lines are skipped) |
| `Text.StripTrimmed` | wptrunner/update.py:81 | text without whitespace at its ends is left as it is |
| `Text.StripIdempotent` | wptrunner/update.py:81 | stripping twice is stripping once |
| `Paths.ComponentsOfJoin` | wptrunner/update.py:108-109 | `os.path.join(a, b)` with relative `b` resolves to `a`'s components followed by `b`'s; an absolute `b` replaces `a` |
| `Paths.DotJoin` | wptrunner/update.py:80-81 | a main-repository path listed as `./item` resolves to the same entry as `item` |
| `FileSystem.Disk.ListDir` | wptrunner/update.py:100 | `os.listdir(d)` yields exactly the names of the entries directly inside `d` |
| `FileSystem.Disk.RemoveTree` | wptrunner/update.py:102-103 | `shutil.rmtree(p)` removes `p` and everything inside it, and nothing else |
| `FileSystem.Disk.Remove` | wptrunner/update.py:104-105 | `os.remove(p)` on a file removes exactly that file |
| `FileSystem.Disk.MakeDirs` | wptrunner/update.py:113-114 | `os.makedirs(d)` succeeds iff `d` does not exist and no ancestor is a file; it only adds directories along the way to `d` |
| `FileSystem.Disk.WriteTree` | wptrunner/update.py:45-57 | the clone or checkout leaves the clone directory holding exactly the checked-out commit's working tree (each file with its content, no other file, no directory without a file below it) and changes nothing outside it |
| `FileSystem.CheckedOutHolds` | wptrunner/update.py:45-57 | the disk a checkout produces holds exactly the working tree inside the clone directory |
| `FileSystem.CheckedOutWellFormed` | wptrunner/update.py:45-57 | a checkout into an existing directory leaves a well-formed tree: every entry sits in a directory |
| `FileSystem.Disk.Copy` | wptrunner/update.py:115 | `shutil.copy2` succeeds iff the source is a file and the target's directory exists; the target then holds the source's content and nothing else changes |
| `MirrorOutput.SubmodulePathsDefined` | wptrunner/update.py:85-94 | `_submodules` succeeds exactly when every non-blank line has a second space-separated field (otherwise `parts[1]` raises) |
| `MirrorOutput.SubmodulePathsValues` | wptrunner/update.py:85-94 | one entry per non-blank line, in line order, each the second field of its stripped line |
| `MirrorOutput.StripStatusLine` | wptrunner/update.py:89 | a `git submodule status` line stripped loses only the leading space of an up-to-date entry |
| `MirrorOutput.SubmodulesRoundTrip` | wptrunner/update.py:85-94 | parsing what `git submodule status` prints for a list of submodules gives back their paths, in order, whatever their state flags, with or without a description (`-` and `U` lines carry none) |
| `MirrorOutput.ListingPathsCount` | wptrunner/update.py:79-81 | blank `ls-tree` lines contribute nothing; every other line contributes its stripped item joined onto the repository's relative path, in order |
| `MirrorOutput.ListingRoundTrip` | wptrunner/update.py:79-81 | parsing what `ls-tree` prints for a list of names gives back every name joined onto the relative path |
| `MirrorOutput.SubmoduleListingsRoundTrip` | wptrunner/update.py:73-81 | the submodule listings come in submodule order, each joined onto its submodule's path |
| `MirrorOutput.TreePathsRoundTrip` | wptrunner/update.py:72-83 | `_tree_paths` lists the main repository's paths first, then each submodule's paths in `_submodules` order |
| `MirrorOutput.MainListingResolves` | wptrunner/update.py:80-81 | every main-repository entry is `os.path.join(".", item)` for a non-blank stripped item, and a relative item resolves to the same components as the item itself |
| `Mirror.WebPlatformTests.constructor` | wptrunner/update.py:35-39 | the mirror keeps the remote, the clone path, the target revision and the isolation-branch name it is given (a random identifier in the source) |
| `Mirror.WebPlatformTests.CheckOutTarget` | wptrunner/update.py:44-66 | a dirty existing clone raises `RepositoryError` before any fetch or checkout and is left unchanged; any failure on an existing clone leaves it unchanged; otherwise success adds the isolation branch at the remote's target commit and checks it out, leaving an existing clone's other branches as they were (a fresh clone's branches are the remote's refs), so `rev` is then the target commit |
| `Mirror.WebPlatformTests.Update` | wptrunner/update.py:41-66 | `update` creates the clone directory if needed, then behaves as above; a file at the clone path makes it fail untouched; it succeeds iff the directory exists or can be made, the target exists on the remote and the isolation branch is new in a clean clone; afterwards `rev` is the target commit, only the isolation branch was added to an existing clone, and the clone directory holds exactly the target commit's working tree; a failure on an existing clone leaves the clone unchanged; outside the clone directory only directories toward it are added |
| `Mirror.WebPlatformTests.Clean` | wptrunner/update.py:61-70 | `clean` detaches `HEAD` at the current commit and deletes exactly the isolation branch; outside a git root `rev` is `None` and git rejects it (`TypeError`) with nothing changed; when the branch is gone the checkout still happens, the branches stay as they were and the call fails |
| `Mirror.Wipe` | wptrunner/update.py:100-105 | after the first loop of `copy_work_tree`, nothing is left inside the destination and everything outside it is untouched |
| `Mirror.WipeStep` | wptrunner/update.py:100-105 | removing one listed child removes exactly the entries under that child |
| `Mirror.RemoveFileIsRemoveTree` | wptrunner/update.py:102-105 | on a file, `os.remove` and `shutil.rmtree` have the same effect, since nothing lies inside a file |
| `Mirror.CopyOne` | wptrunner/update.py:108-115 | one tracked path: a directory source is skipped; a file source is copied to the same relative path, creating missing directories, and nothing outside the destination changes; every directory it creates lies above the copied file |
| `Mirror.CopyTracked` | wptrunner/update.py:107-115 | after the second loop, the files under the destination are exactly the tracked paths whose source is a file, each with its source's content; with the clone outside the destination, the loop succeeds iff every listed path exists in the clone (`copy2` of a missing one raises) |
| `Mirror.CopyInto` | wptrunner/update.py:115-121 | `shutil.copy2` to a place inside the destination succeeds iff the source is a file, the target is not a directory and its directory exists; it then adds exactly that file, with the source's content, and changes nothing else |
| `Mirror.Overlay` | wptrunner/update.py:117-121 | the runner file lands at the destination root and the report script under `resources/`, each with its support file's content; with the support directory outside the destination, it succeeds iff both support files exist, neither target is a directory and `resources/` exists |
| `Mirror.OverlaidTree` | wptrunner/update.py:107-121 | the tracked copy followed by the overlay leaves exactly the tracked files plus the two support files |
| `Mirror.WebPlatformTests.CopyWorkTree` | wptrunner/update.py:96-121 | outside `dest` nothing changes. When the clone and support directories lie outside `dest`, success leaves exactly the tracked files (with their sources' content) plus the two support files, and every directory left inside `dest` lies above one of them, so no old file or empty directory survives. With `dest` a directory and a well-formed listing, it succeeds iff every listed path exists in the clone, both support files exist, a listed file lies under `resources/` and none lies under either support file's target. A missing `dest`, a file `dest` and a malformed submodule listing give the source's errors |
| `Mirror.HoldsTreeFile` | wptrunner/update.py:45-57 | after a checkout, a path in the clone is a file exactly when it is a file of the checked-out commit, with that commit's content; the clone's earlier files are gone |
| `Mirror.HoldsTreeApart` | wptrunner/update.py:96-121 | the checked-out clone is untouched by a copy into a destination apart from it |
| `Mirror.CheckedOutMirror` | wptrunner/update.py:41-121 | a copy from a freshly checked-out clone leaves in the destination exactly the listed paths that are files of the target commit, with that commit's content, plus the support files as they were before `update` |
| `Mirror.CheckedOutCopyGrown` | wptrunner/update.py:366-367 | directories made before the sync do not change the support files the copy reads |
| `Mirror.CheckedOutCopyApart` | wptrunner/update.py:306 | a write inside the metadata path, apart from the test path, leaves the mirrored test path as it was |
| `Mirror.SourceInTree` | wptrunner/update.py:107-115 | in a clone holding exactly a working tree, a listed path exists exactly when it is a file of the tree or lies above one |
| `Mirror.CopySucceedsFromTree` | wptrunner/update.py:41-121 | after `update` filled the clone with the target's working tree, the copy's success condition is the working-tree one, with the support files taken from the disk before `update` |
| `Mirror.SupportKept` | wptrunner/update.py:41-57 | `update` adds only directories outside the clone, so a support file apart from the clone is a file after it exactly when it was before |
| `Mirror.DirApartKept` | wptrunner/update.py:300-305 | a path apart from the clone, such as the test path, is a directory after `update` exactly when it was before |
| `Mirror.OverlayFits` | wptrunner/update.py:107-121 | after the tracked copy, the overlay's success condition is the copy's: the listed files fill `resources/` and neither support file's target |
| `LocalTrees.SelectTree` | wptrunner/update.py:369-376 | with the patch flag, the first of Mercurial, Git, plain whose `is_type` holds, in both directions of each case; without it, the plain tree; a tree is always chosen |
| `LocalTrees.IncludeFlagsShape` | wptrunner/update.py:189-192 | each include path is preceded by its own `-I`, in order, and nothing else is added |
| `LocalTrees.HgIncludeArgs` | wptrunner/update.py:189-192 | the argument-building loop yields the reference `-I` interleaving |
| `LocalTrees.AddArgs` | wptrunner/update.py:223-228 | `add_new` issues `add`, ending in the prefix when one is given; Git without a prefix adds with `-a` |
| `LocalTrees.LocalTree.constructor` | wptrunner/update.py:205-210 | a tree binds to its stripped root (the current directory for the plain tree) and starts with no message |
| `LocalTrees.LocalTree.IsClean` | wptrunner/update.py:169-170 | a version-controlled tree is clean exactly when its status output is all whitespace; the plain tree is always clean |
| `LocalTrees.LocalTree.AddNew` | wptrunner/update.py:172-177 | `add_new` issues one `add` command (none for the plain tree) and changes no other state |
| `LocalTrees.LocalTree.CreatePatch` | wptrunner/update.py:179-186 | Git keeps the message before branching; Mercurial ignores an existing queue; creation fails exactly when the name exists; on success the new name is current |
| `LocalTrees.LocalTree.UpdatePatch` | wptrunner/update.py:235-243 | Git fails its assertion exactly when no message was kept, and otherwise commits with that message and the include paths; Mercurial refreshes with `-I` flags |
| `LocalTrees.LocalTree.CommitPatch` | wptrunner/update.py:198-199 | the Mercurial version always raises (it reads an attribute never set); Git and the plain tree do nothing |
| `LocalTrees.GitUpdateBeforeCreate` | wptrunner/update.py:235-236 | on a fresh Git tree, `update_patch` fails its assertion because `message` starts as `None` |
| `LocalTrees.GitCommitsCreatedMessage` | wptrunner/update.py:230-243 | after `create_patch(name, msg)`, `update_patch` commits with exactly `msg`, even when the branch already existed |
| `LocalTrees.PlainTreeIsInert` | wptrunner/update.py:124-149 | the plain tree is clean whatever the status, and its mutators issue no command |
| `Updater.PatchNamesDistinct` | wptrunner/update.py:308-333 | the sync patch and the metadata patch of one run have different names |
| `Updater.SyncPatchNameInjective` | wptrunner/update.py:308 | different revision texts give different sync patch names |
| `Updater.RunCommandsCompose` | wptrunner/update.py:392-398 | the sync's commands followed by the metadata step's are the whole run's |
| `Updater.PlainRunIssuesNothing` | wptrunner/update.py:124-149 | on the plain tree a run issues no command at all, whatever the options |
| `Updater.GitRunCommits` | wptrunner/update.py:299-356 | on Git, a run that syncs and leaves dirty metadata issues six commands: branch and commit the sync patch with the test and metadata paths, then branch and commit the metadata patch with the metadata path |
| `Updater.MirroredStep` | wptrunner/update.py:300-306 | a checkout of the target into the clone followed by the copy adds, outside the clone, the test path and the metadata path, only directories toward the clone and, on success, leaves the target's working tree in the clone and its listed files in the test path |
| `Updater.TestsMirroredGrown` | wptrunner/update.py:366-367 | the sync's promise holds against the disk before the path loop as well |
| `Updater.RunDisk` | wptrunner/update.py:366-398 | the path loop followed by a sync adds, outside the clone, the test path and the metadata path, only directories toward the three working paths, and a successful sync's promise about the clone and the test path holds against the disk before the loop |
| `Updater.EnsureExists` | wptrunner/update.py:294-296 | an existing path is left alone; otherwise the directory is made, and the call succeeds iff the path exists already or no file lies on the way to it |
| `FileSystem.CanEnsureGrown` | wptrunner/update.py:366-367 | making one of the paths does not change whether another can still be made, so the loop's success does not depend on its order |
| `Updater.EnsurePaths` | wptrunner/update.py:366-367 | the loop succeeds iff each of the sync, test and metadata paths exists already or has no file on the way to it, in whatever order the paths are taken; then all three exist, and only directories on the way to them are ever added |
| `Updater.RecordPatch` | wptrunner/update.py:308-313 | the sync patch is created, the test path staged and both paths recorded; Git's commit carries the patch message; it succeeds iff the tree is plain or the patch name is new |
| `Updater.WriteMetadata` | wptrunner/update.py:306 | `update_manifest` and `update_expected` rewrite the metadata path when it is a directory, leaving there the files they produce, and change nothing outside it; a metadata path that is not a directory is left as it is |
| `Updater.MetadataKeepsSync` | wptrunner/update.py:306 | a write inside the metadata path keeps a sync's effect on the disk: the clone and the test path still hold what the sync left there |
| `Updater.MetadataElsewhere` | wptrunner/update.py:337-341 | a write inside the metadata path changes nothing outside the clone, the test path and the metadata path |
| `Updater.MirrorTests` | wptrunner/update.py:300-306 | a dirty clone stops the sync before anything else. When the clone, the test path and the support files lie apart and the test path is a directory, it succeeds iff `update` would, the tree listing parses and the copy succeeds from the target's working tree. Success leaves the target commit checked out, both manifest calls made, the clone holding the target's working tree, the test path holding exactly the listed files of that tree plus the support files, and the metadata path (when a directory) holding what `update_manifest` writes. Outside the clone, the test path and the metadata path only directories toward the clone are added |
| `Updater.CopyTests` | wptrunner/update.py:305-306 | after `update`, the copy and the manifest update succeed (under the layout above) iff the listing parses and the copy succeeds from the target's working tree; the metadata path then holds what `update_manifest` writes |
| `Updater.RecordSync` | wptrunner/update.py:308-313 | the tree issues exactly the create, add and update commands of the sync patch named after the revision; it fails, with a failed command, iff a version-controlled tree already has that patch |
| `Updater.SyncTests` | wptrunner/update.py:299-321 | under the same layout it succeeds iff the mirror half does and the sync patch for the target commit is new (or the tree is plain). On success the initial manifest is the loaded one, the clone is at the target, the tree issued exactly the sync patch's commands, the test path holds the listed files of the target's working tree plus the support files, and the metadata path holds what `update_manifest` writes. Outside the clone, the test path and the metadata path only directories toward the clone are added |
| `Updater.UpdateMetadata` | wptrunner/update.py:324-356 | the expectation updater gets the log files and the initial revision and rewrites the metadata path when it is a directory, changing nothing outside it; the tree issues the metadata patch's creation, then stages and records the metadata path only if the tree is dirty afterwards; the `update_patch` assertion cannot fail |
| `Updater.RecordMetadata` | wptrunner/update.py:348-350 | on a dirty tree the metadata path is staged and recorded in the open patch; on a clean tree nothing is issued; the kept message is unchanged |
| `Updater.SyncFlow` | wptrunner/update.py:392-395 | without `sync` nothing at all changes and `initial_rev` stays `None`; with it, it succeeds exactly when `sync_tests` does (under the layout above), and success gives `initial_rev` from the loaded manifest, the sync's commands, its disk effect and the manifest update's metadata path |
| `Updater.MetadataFlow` | wptrunner/update.py:397-398 | the metadata step runs, issues its commands and rewrites the metadata path iff `run_log` is truthy; nothing outside the metadata path changes |
| `Updater.RunFlows` | wptrunner/update.py:392-398 | without `sync` the run always finishes, the clone is untouched and the disk changes only inside the metadata path (not at all without a run log); with `sync` (under the layout above) it finishes iff `sync_tests` succeeds. The metadata step runs iff `run_log` is truthy, with `initial_rev` from the loaded manifest when syncing and `None` otherwise; a finished run's tree log grows by exactly the run's commands, and the metadata path holds what the last collaborator call wrote; a raised run made no `update_expected` call |
| `Updater.MetadataAfterSync` | wptrunner/update.py:397-398 | after a passed sync flow, the metadata flow completes the run's commands and keeps the sync's disk effect; without `sync` only the metadata path changes |
| `Updater.RunUpdate` | wptrunner/update.py:359-398 | the path loop fails iff one of the three paths is blocked by a file; exit status 1 happens iff the selected tree is dirty and the check is not overridden, and then nothing is synced or committed; without `sync` every other run finishes; the mirror targets the command-line revision, else the configured branch, else `master`; a finished run makes exactly the expected collaborator calls and tree commands (none on the plain tree), and a sync leaves the target commit's listed files and the support files in the test path; outside the clone, the test path and the metadata path only directories toward the three paths are added, and without `sync` that holds outside the metadata path alone |
| `Updater.RunOnTree` | wptrunner/update.py:369-398 | the tree is selected in probe order; exit status 1 iff the tree is dirty and the check is not overridden, with nothing changed; without `sync` every other run finishes with the clone untouched and the disk changed only inside the metadata path |

## Left out

- `read_config`, `ConfigDict.get_path`, `LogFilesRunner`, `main` and
  `do_test_relative_imports`: configuration reading and `sys.path` edits.
  The model takes the three paths, the remote, the branch and the options
  as already-read values.
- `main` always exits with status 1, because `run_update` returns `None`.
  That is not modelled as intended behaviour.
- `HgTree.commit_patch` reads `self.repo_root`, which no method sets. It is
  modelled as an operation that always raises (`AttributeError`), never as
  a working `hg qfinish`.
- The git and hg processes themselves. Which commands fail is modelled only
  as follows:
  - `checkout -b` fails on an existing branch;
  - `qnew` fails on an existing patch;
  - `fetch` fails on a missing ref or an existing branch;
  - `branch -D` fails on a missing branch.
- Every other command is assumed to succeed:
  - `add`, `commit` and `qrefresh`;
  - `git clone`, even into a non-empty directory, whose contents it replaces;
  - `submodule init` and `submodule update`, whose effect on the clone is
    not modelled.
- `git status` output, probes, `ls-tree` output, `os.path.relpath` and
  the manifests are inputs, not computed.
- `os.path.relpath` normalisation of submodule paths is not modelled.
  The model joins listings onto the submodule path exactly as the status
  output gives it.
- `..` components and symbolic links are not resolved. A path resolves by
  dropping empty and `.` components only.
- `Mirror.CopyOne`: tree paths are resolved onto the clone and the
  destination as relative paths. An absolute path from `ls-tree`, which
  git does not print, is not modelled.
- `Mirror.WebPlatformTests.CopyWorkTree`: the exact-contents promise is
  stated only when the clone and the support directory lie outside the
  destination. When they overlap, the wipe would delete the sources first.
- `FileSystem.Disk.Copy`: `shutil.copy2` onto an existing directory copies
  into it; the model treats that as a failure. The modelled callers never
  copy onto a directory that the copy itself created. File metadata
  (timestamps, modes) is not modelled.
- `Updater.EnsurePaths`: Python 2 iterates the `paths` dictionary in hash
  order; the model uses sync, test, metadata. Whether the loop succeeds
  does not depend on the order. After a failure, which paths were made
  before it, and which error is reported, do depend on it.
- `Paths.Components` drops empty components, so `/a` and `a` resolve to
  the same entry: relative paths are taken from the root, not from the
  current directory. `Apart(support, dest)` in the copy's promise relies
  on this when the paths are relative.
- `metadata.load_test_manifest`, `update_manifest` and `update_expected`
  are external. Their results are inputs, and calls to them are recorded
  as events. Exceptions they raise are not modelled. What `update_manifest`
  and `update_expected` write into the metadata path is an input too
  (`manifestFiles`, `expectedFiles`): the model takes them to replace the
  metadata path's contents with those files.
- `Updater.WriteMetadata`: a metadata path that is not a directory is left
  unchanged, since the collaborators' behaviour there (raising or creating
  it) is not modelled.
- `Updater.RunUpdate`: with `sync`, whether the run finishes is stated
  through `Updater.RunFlows` and `Updater.SyncTests`, under the layout in
  which the clone, the test path and the support files lie apart and the
  test path is a directory. It is not a single condition on `run_update`'s
  inputs.
- The bug object is always `None`, so messages carry bug number 0.
- Printing to stdout and stderr (the tree name, the needs-human list,
  tracebacks) is not modelled. The needs-human report is an event.
- `Mirror.WebPlatformTests.Update`: what a commit's checkout writes is
  an input (`worktree`), not computed from git objects, and it is not
  related to the `ls-tree` listing, which is a separate input. The `.git`
  directory and ignored files are not modelled: the clone directory is
  taken to hold exactly the working tree.
- `Mirror.WebPlatformTests.Update`: when a fresh `git clone` succeeds but
  the `checkout -b` after it fails, git leaves the remote's default branch
  in the clone directory. The contract says nothing about the clone
  directory then; it only says that outside it just directories were added.
- `Mirror.WebPlatformTests.Update`: a file at the clone path makes it fail
  with `NotADirectory` before any git command. `vcs` is not part of this
  model, and git cannot run inside a file.
- `Mirror.WebPlatformTests.CheckOutTarget`: after a fresh clone the local
  branches are taken to be all of the remote's refs. Git creates only the
  default branch locally and keeps the rest as `origin/*` remote-tracking
  refs; the model does not tell them apart.
- `LocalTrees.LocalTree.IsClean`: the status text is an input. Plain
  `git status` (update.py:221) prints a branch header even on a clean
  tree, so with git's usual output a Git tree would not count as clean and
  `run_update` would exit with status 1 unless the check is overridden.
  The model takes the text as given and does not encode git's output
  format.
- `Mirror.WebPlatformTests.Clean`: it checks out the commit `HEAD` points
  at when `clean` runs. That is the isolation branch's commit, not the
  revision checked out before the update; the code is followed here.
- `LocalTrees.LocalTree.constructor`: requires that the kind's `is_type`
  holds, because constructing a Mercurial or Git tree elsewhere raises in
  `hg root` or `git rev-parse`.
