/**
 * The local working tree the update is written into: a Mercurial tree (with
 * a patch queue), a Git tree (a patch is a branch) or a plain directory. Each
 * tree records the version-control commands it issues; the repository state
 * those commands act on is abstract: the existing branch or patch names, the
 * current one, and whether a patch queue exists.
 */
module LocalTrees {
  import opened Wrappers
  import opened Text

  /** The words of the version-control commands the trees issue. */
  const CmdAdd := "add"
  const CmdCheckout := "checkout"
  const CmdCommit := "commit"
  const CmdQinit := "qinit"
  const CmdQnew := "qnew"
  const CmdQrefresh := "qrefresh"
  const FlagAll := "-a"
  const FlagBranch := "-b"
  const FlagExclude := "-X"
  const FlagInclude := "-I"
  const FlagMessage := "-m"
  const FlagNoIgnoreRemoval := "--no-ignore-removal"

  /** The three tree classes: `HgTree`, `GitTree` and `NoVCSTree`. */
  datatype TreeKind = Hg | Git | NoVCS

  /**
   * What probing the current directory shows: the output of `hg root` and
   * of `git rev-parse --show-toplevel` when those commands succeed there,
   * and the absolute current directory.
   */
  datatype Probe = Probe(hgRoot: Option<string>, gitTop: Option<string>, cwd: string)

  /** `is_type` of each tree class. */
  predicate IsType(k: TreeKind, probe: Probe) {
    match k
    case Hg => probe.hgRoot.Some?
    case Git => probe.gitTop.Some?
    case NoVCS => true
  }

  /** The order in which `run_update` tries the tree classes. */
  const ProbeOrder: seq<TreeKind> := [Hg, Git, NoVCS]

  /**
   * The tree `run_update` selects: with the patch flag, the first kind in
   * the probe order whose `is_type` holds; without it, the plain tree.
   */
  method SelectTree(patch: bool, probe: Probe) returns (k: TreeKind)
    ensures !patch ==> k == NoVCS
    ensures patch ==> IsType(k, probe)
    ensures patch ==> (k == Hg <==> probe.hgRoot.Some?)
    ensures patch ==> (k == Git <==> probe.hgRoot.None? && probe.gitTop.Some?)
    ensures patch ==> (k == NoVCS <==> probe.hgRoot.None? && probe.gitTop.None?)
  {
    if !patch {
      return NoVCS;
    }
    assert ProbeOrder[0] == Hg && ProbeOrder[1] == Git && ProbeOrder[2] == NoVCS;
    var i := 0;
    while i < |ProbeOrder|
      invariant 0 <= i <= |ProbeOrder|
      invariant forall j :: 0 <= j < i ==> !IsType(ProbeOrder[j], probe)
    {
      if IsType(ProbeOrder[i], probe) {
        return ProbeOrder[i];
      }
      i := i + 1;
    }
    assert false;
  }

  /** The root directory a tree of kind `k` binds to. */
  function RootOf(k: TreeKind, probe: Probe): string
    requires IsType(k, probe)
  {
    match k
    case Hg => Strip(probe.hgRoot.value)
    case Git => Strip(probe.gitTop.value)
    case NoVCS => probe.cwd
  }

  datatype TreeError =
    | CommandFailed(command: seq<string>)   // a hg or git command exited non-zero
    | AssertionFailed                       // an `assert` in the source
    | AttributeError                        // an attribute the class does not define

  /** The `-I <item>` pairs `HgTree.update_patch` passes to `hg qrefresh`, as a reference definition. */
  function IncludeFlags(items: seq<string>): seq<string>
  {
    if items == [] then [] else [FlagInclude, items[0]] + IncludeFlags(items[1..])
  }

  /** Each item is preceded by its own `-I`, in order. */
  lemma {:induction false} IncludeFlagsShape(items: seq<string>)
    ensures |IncludeFlags(items)| == 2 * |items|
    ensures forall i :: 0 <= i < |items| ==>
      IncludeFlags(items)[2 * i] == FlagInclude && IncludeFlags(items)[2 * i + 1] == items[i]
  {
    if items != [] {
      IncludeFlagsShape(items[1..]);
      var rest := IncludeFlags(items[1..]);
      assert IncludeFlags(items) == [FlagInclude, items[0]] + rest;
      forall i | 1 <= i < |items|
        ensures IncludeFlags(items)[2 * i] == FlagInclude && IncludeFlags(items)[2 * i + 1] == items[i]
      {
        assert IncludeFlags(items)[2 * i] == rest[2 * (i - 1)];
        assert IncludeFlags(items)[2 * i + 1] == rest[2 * (i - 1) + 1];
      }
    }
  }

  /** One more item adds one more pair at the end. */
  lemma {:induction false} IncludeFlagsAppend(items: seq<string>, x: string)
    ensures IncludeFlags(items + [x]) == IncludeFlags(items) + [FlagInclude, x]
  {
    if items != [] {
      assert (items + [x])[1..] == items[1..] + [x];
      IncludeFlagsAppend(items[1..], x);
    } else {
      assert IncludeFlags([x]) == [FlagInclude, x] + IncludeFlags([]);
    }
  }

  /** The loop of `HgTree.update_patch` that builds the `-I` arguments. */
  method HgIncludeArgs(items: seq<string>) returns (args: seq<string>)
    ensures args == IncludeFlags(items)
  {
    args := [];
    for i := 0 to |items|
      invariant args == IncludeFlags(items[..i])
    {
      IncludeFlagsAppend(items[..i], items[i]);
      assert items[..i + 1] == items[..i] + [items[i]];
      args := args + [FlagInclude, items[i]];
    }
    assert items[..|items|] == items;
  }

  /** The arguments of the `add` command `add_new` issues. */
  function AddArgs(k: TreeKind, prefix: Option<string>): (args: seq<string>)
    ensures args != [] && args[0] == CmdAdd
    ensures k == Git && prefix.None? ==> args == [CmdAdd, FlagAll]
    ensures prefix.Some? && k != NoVCS ==> args[|args| - 1] == prefix.value
  {
    match (k, prefix)
    case (Git, None) => [CmdAdd, FlagAll]
    case (Git, Some(p)) => [CmdAdd, FlagNoIgnoreRemoval, p]
    case (_, None) => [CmdAdd]
    case (_, Some(p)) => [CmdAdd, FlagInclude, p]
  }

  /** The commands `create_patch(name, msg)` issues on a tree of kind `k` rooted at `root`. */
  function CreateCommands(k: TreeKind, root: string, name: string, msg: string): seq<seq<string>>
  {
    match k
    case NoVCS => []
    case Git => [[CmdCheckout, FlagBranch, name]]
    case Hg => [[CmdQinit], [CmdQnew, name, FlagExclude, root, FlagMessage, msg]]
  }

  /** The commands `add_new(prefix)` issues on a tree of kind `k`. */
  function AddCommands(k: TreeKind, prefix: Option<string>): seq<seq<string>>
  {
    if k == NoVCS then [] else [AddArgs(k, prefix)]
  }

  /**
   * The commands `update_patch(includes)` issues on a tree of kind `k`
   * whose kept message is `message` (Git issues none when it has no message).
   */
  function UpdateCommands(k: TreeKind, message: Option<string>, includes: Option<seq<string>>): seq<seq<string>>
  {
    var paths := if includes.Some? then includes.value else [];
    match k
    case NoVCS => []
    case Git => if message.None? then [] else [[CmdCommit, FlagMessage, message.value] + paths]
    case Hg => [[CmdQrefresh] + IncludeFlags(paths)]
  }

  /** A tree of kind `k` whose status command prints `status` is clean: the plain tree always, the others when nothing but whitespace is printed. */
  predicate CleanStatus(k: TreeKind, status: string) {
    k == NoVCS || AllSpace(status)
  }

  class LocalTree {
    const kind: TreeKind
    const root: string
    /** The commit message a Git tree keeps between `create_patch` and `update_patch`. */
    var message: Option<string>
    /** The existing Git branches, or the patches in the Mercurial queue. */
    var names: set<string>
    /** The Git branch checked out, or the Mercurial patch on top of the queue. */
    var current: Option<string>
    /** Whether the Mercurial patch queue exists. */
    var queueReady: bool
    /** The version-control commands issued, in order. */
    var log: seq<seq<string>>

    /** A tree of a kind whose `is_type` holds, bound to its root; `message` starts unset. */
    constructor (kind: TreeKind, probe: Probe, names: set<string>, current: Option<string>, queueReady: bool)
      requires IsType(kind, probe)
      ensures this.kind == kind && root == RootOf(kind, probe)
      ensures message == None && this.names == names && this.current == current
      ensures this.queueReady == queueReady && log == []
    {
      this.kind := kind;
      this.root := RootOf(kind, probe);
      this.message := None;
      this.names := names;
      this.current := current;
      this.queueReady := queueReady;
      this.log := [];
    }

    /**
     * `is_clean`, given what `hg status` / `git status` prints: the plain
     * tree is always clean; a version-controlled tree is clean when the
     * status output is nothing but whitespace.
     */
    function IsClean(status: string): (r: bool)
      reads this
      ensures kind == NoVCS ==> r
      ensures kind != NoVCS ==> (r <==> AllSpace(status))
      ensures r == CleanStatus(kind, status)
    {
      StripEmpty(status);
      kind == NoVCS || Strip(status) == ""
    }

    /** `add_new(prefix)`: stage new files, under `prefix` when given. The plain tree does nothing. */
    method AddNew(prefix: Option<string>)
      modifies this
      ensures log == old(log) + AddCommands(kind, prefix)
      ensures message == old(message) && names == old(names) && current == old(current)
      ensures queueReady == old(queueReady)
    {
      if kind != NoVCS {
        log := log + [AddArgs(kind, prefix)];
      }
    }

    /**
     * `create_patch(name, message)`. Git keeps the message, then creates
     * and checks out a branch `name`, which fails when the branch exists.
     * Mercurial creates the patch queue (a failure because it exists is
     * ignored), then pushes a new patch `name`, which fails when the queue
     * has one of that name. The plain tree does nothing.
     */
    method CreatePatch(name: string, msg: string) returns (out: Outcome<TreeError>)
      modifies this
      ensures log == old(log) + CreateCommands(kind, root, name, msg)
      ensures kind == NoVCS ==> out.Pass? && unchanged(this)
      ensures kind == Git ==> message == Some(msg) && queueReady == old(queueReady)
      ensures kind == Hg ==> message == old(message) && queueReady
      ensures kind != NoVCS ==> (out.Pass? <==> name !in old(names))
      ensures kind != NoVCS && out.Pass? ==> names == old(names) + {name} && current == Some(name)
      ensures out.Fail? ==> out == Fail(CommandFailed(log[|log| - 1])) && names == old(names) && current == old(current)
    {
      match kind
      case NoVCS =>
        return Pass;
      case Git =>
        message := Some(msg);
        var checkout := [CmdCheckout, FlagBranch, name];
        log := log + [checkout];
        if name in names {
          return Fail(CommandFailed(checkout));
        }
        names, current := names + {name}, Some(name);
        return Pass;
      case Hg =>
        // `hg qinit` fails when the queue already exists; that failure is ignored.
        log := log + [[CmdQinit]];
        queueReady := true;
        var qnew := [CmdQnew, name, FlagExclude, root, FlagMessage, msg];
        log := log + [qnew];
        if name in names {
          return Fail(CommandFailed(qnew));
        }
        names, current := names + {name}, Some(name);
        return Pass;
    }

    /**
     * `update_patch(includes)`: record the working-tree changes in the
     * current patch, restricted to the `includes` paths when given. Git
     * commits with the message `create_patch` kept, and fails its assertion
     * when no message was kept; Mercurial refreshes the top patch.
     */
    method UpdatePatch(includes: Option<seq<string>>) returns (out: Outcome<TreeError>)
      modifies this
      ensures message == old(message) && names == old(names) && current == old(current)
      ensures queueReady == old(queueReady)
      ensures out.Fail? <==> kind == Git && old(message).None?
      ensures out.Fail? ==> out == Fail(AssertionFailed)
      ensures log == old(log) + UpdateCommands(kind, message, includes)
    {
      match kind
      case NoVCS =>
        return Pass;
      case Git =>
        if message.None? {
          return Fail(AssertionFailed);
        }
        var args := if includes.Some? then includes.value else [];
        log := log + [[CmdCommit, FlagMessage, message.value] + args];
        return Pass;
      case Hg =>
        var args := [];
        if includes.Some? {
          args := HgIncludeArgs(includes.value);
        }
        log := log + [[CmdQrefresh] + args];
        return Pass;
    }

    /**
     * `commit_patch`. Git and the plain tree have nothing to do; the
     * Mercurial version reads an attribute the class never sets, so it
     * always raises.
     */
    method CommitPatch() returns (out: Outcome<TreeError>)
      ensures out.Fail? <==> kind == Hg
      ensures out.Fail? ==> out.error == AttributeError
    {
      if kind == Hg {
        return Fail(AttributeError);
      }
      return Pass;
    }
  }

  /** A fresh Git tree has no message, so `update_patch` before `create_patch` fails its assertion. */
  method GitUpdateBeforeCreate(probe: Probe, names: set<string>, includes: Option<seq<string>>)
    returns (out: Outcome<TreeError>)
    requires probe.gitTop.Some?
    ensures out == Fail(AssertionFailed)
  {
    var tree := new LocalTree(Git, probe, names, None, false);
    out := tree.UpdatePatch(includes);
  }

  /**
   * After `create_patch(name, msg)` on a Git tree, `update_patch` commits
   * with exactly `msg`, whether or not the branch could be created.
   */
  method GitCommitsCreatedMessage(probe: Probe, names: set<string>, name: string, msg: string, includes: seq<string>)
    returns (committed: seq<string>)
    requires probe.gitTop.Some?
    ensures committed == [CmdCommit, FlagMessage, msg] + includes
  {
    var tree := new LocalTree(Git, probe, names, None, false);
    var created := tree.CreatePatch(name, msg);
    var updated := tree.UpdatePatch(Some(includes));
    committed := tree.log[|tree.log| - 1];
  }

  /** The plain tree is clean whatever the status and issues no command through its mutators. */
  method PlainTreeIsInert(probe: Probe, status: string, prefix: Option<string>, name: string, msg: string,
                          includes: Option<seq<string>>)
    returns (clean: bool, issued: seq<seq<string>>)
    ensures clean && issued == []
  {
    var tree := new LocalTree(NoVCS, probe, {}, None, false);
    clean := tree.IsClean(status);
    tree.AddNew(prefix);
    var created := tree.CreatePatch(name, msg);
    var updated := tree.UpdatePatch(includes);
    var committed := tree.CommitPatch();
    issued := tree.log;
  }
}
