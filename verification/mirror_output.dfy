/**
 * Parsing the two git listings the mirror reads: `git submodule status
 * --recursive` (one line per submodule, whose second space-separated field
 * is the submodule's path) and `git ls-tree -r --name-only HEAD` (one
 * tracked path per line). Both parsers depend only on the command output.
 */
module MirrorOutput {
  import opened Wrappers
  import opened Text
  import opened Paths

  // ---------------------------------------------------------------------------
  // submodule status

  /**
   * The submodule paths named by the status lines: blank lines are skipped,
   * every other stripped line contributes its second space-separated field.
   * A non-blank line without a space has no second field (the source raises
   * IndexError), which is `None` here.
   */
  function SubmodulePaths(lines: seq<string>): Option<seq<string>>
  {
    if lines == [] then Some([])
    else
      var line := Strip(lines[0]);
      if line == "" then SubmodulePaths(lines[1..])
      else
        var parts := Split(line, ' ');
        if |parts| < 2 then None
        else match SubmodulePaths(lines[1..])
          case None => None
          case Some(rest) => Some([parts[1]] + rest)
  }

  /** `WebPlatformTests._submodules` on the output of `git submodule status --recursive`. */
  function Submodules(output: string): Option<seq<string>>
  {
    SubmodulePaths(Split(output, '\n'))
  }

  /** The lines that are not blank once stripped, in order. */
  function NonBlank(lines: seq<string>): (r: seq<string>)
    ensures forall i :: 0 <= i < |r| ==> Strip(r[i]) != ""
    ensures |r| <= |lines|
  {
    if lines == [] then []
    else if Strip(lines[0]) == "" then NonBlank(lines[1..])
    else [lines[0]] + NonBlank(lines[1..])
  }

  predicate HasSecondField(line: string) {
    |Split(Strip(line), ' ')| >= 2
  }

  /** Every one of the lines has a second field. */
  predicate AllHaveSecondField(lines: seq<string>) {
    forall i :: 0 <= i < |lines| ==> HasSecondField(lines[i])
  }

  lemma AllHaveSecondFieldCons(line: string, rest: seq<string>)
    ensures AllHaveSecondField([line] + rest) <==> HasSecondField(line) && AllHaveSecondField(rest)
  {
    var all := [line] + rest;
    if AllHaveSecondField(all) {
      assert HasSecondField(all[0]);
      forall j | 0 <= j < |rest|
        ensures HasSecondField(rest[j])
      {
        assert rest[j] == all[j + 1];
      }
    }
    if HasSecondField(line) && AllHaveSecondField(rest) {
      forall i | 0 < i < |all|
        ensures HasSecondField(all[i])
      {
        assert all[i] == rest[i - 1];
      }
    }
  }

  /** The parse succeeds exactly when every non-blank line has a second field. */
  lemma {:induction false} SubmodulePathsDefined(lines: seq<string>)
    ensures SubmodulePaths(lines).Some? <==> AllHaveSecondField(NonBlank(lines))
  {
    if lines != [] {
      SubmodulePathsDefined(lines[1..]);
      if Strip(lines[0]) != "" {
        assert NonBlank(lines) == [lines[0]] + NonBlank(lines[1..]);
        AllHaveSecondFieldCons(lines[0], NonBlank(lines[1..]));
      }
    }
  }

  /**
   * A successful parse yields one path per non-blank line, in order, each
   * the second field of its stripped line.
   */
  lemma {:induction false} SubmodulePathsValues(lines: seq<string>)
    requires SubmodulePaths(lines).Some?
    ensures |SubmodulePaths(lines).value| == |NonBlank(lines)|
    ensures forall i :: 0 <= i < |NonBlank(lines)| ==>
      && HasSecondField(NonBlank(lines)[i])
      && SubmodulePaths(lines).value[i] == Split(Strip(NonBlank(lines)[i]), ' ')[1]
  {
    if lines != [] {
      SubmodulePathsValues(lines[1..]);
      if Strip(lines[0]) != "" {
        var nb := NonBlank(lines);
        var tail := NonBlank(lines[1..]);
        var r := SubmodulePaths(lines).value;
        var rest := SubmodulePaths(lines[1..]).value;
        assert nb == [lines[0]] + tail;
        assert HasSecondField(lines[0]);
        assert r == [Split(Strip(lines[0]), ' ')[1]] + rest;
        forall i | 0 < i < |nb|
          ensures HasSecondField(nb[i]) && r[i] == Split(Strip(nb[i]), ' ')[1]
        {
          assert nb[i] == tail[i - 1] && r[i] == rest[i - 1];
        }
      }
    }
  }

  /**
   * One line of `git submodule status`: state flag, commit, path and, when
   * git can describe the commit, the description it prints in parentheses.
   */
  datatype SubmoduleStatus = SubmoduleStatus(flag: char, sha: string, path: string, describe: Option<string>)

  /** The text after the path: ` (describe)`, or nothing. */
  function Described(d: Option<string>): string
  {
    if d.Some? then " (" + d.value + ")" else ""
  }

  /** The line git prints for a submodule. */
  function StatusLine(e: SubmoduleStatus): string
  {
    [e.flag] + e.sha + " " + e.path + Described(e.describe)
  }

  /** What git prints: one line per submodule, each ended by a newline. */
  function RenderStatus(es: seq<SubmoduleStatus>): string
  {
    if es == [] then "" else StatusLine(es[0]) + "\n" + RenderStatus(es[1..])
  }

  /**
   * Flags git uses: up to date, different commit, not initialised,
   * conflicted. Git describes only an initialised, unconflicted submodule,
   * and not always.
   */
  predicate ValidEntry(e: SubmoduleStatus) {
    && (e.flag == ' ' || e.flag == '+' || e.flag == '-' || e.flag == 'U')
    && ((e.flag == '-' || e.flag == 'U') ==> e.describe.None?)
    && e.sha != [] && NoSpaceAt(e.sha)
    && e.path != [] && NoSpaceAt(e.path)
    && (e.describe.Some? ==> '\n' !in e.describe.value)
  }

  function PathsOf(es: seq<SubmoduleStatus>): (r: seq<string>)
    ensures |r| == |es| && forall i :: 0 <= i < |es| ==> r[i] == es[i].path
  {
    if es == [] then [] else [es[0].path] + PathsOf(es[1..])
  }

  /** A submodule line without its blank flag. */
  function StatusCore(e: SubmoduleStatus): string
  {
    (if e.flag == ' ' then "" else [e.flag]) + e.sha + " " + e.path + Described(e.describe)
  }

  lemma StatusCoreTrimmed(e: SubmoduleStatus)
    requires ValidEntry(e)
    ensures StatusCore(e) != [] && !IsSpace(StatusCore(e)[0]) && !IsSpace(StatusCore(e)[|StatusCore(e)| - 1])
  {
    var core := StatusCore(e);
    if e.flag == ' ' {
      assert core[0] == e.sha[0];
    } else {
      assert core[0] == e.flag;
    }
    if e.describe.Some? {
      assert core[|core| - 1] == ')';
    } else {
      assert core[|core| - 1] == e.path[|e.path| - 1];
    }
  }

  /** A submodule line, stripped, is the line without its blank flag. */
  lemma StripStatusLine(e: SubmoduleStatus)
    requires ValidEntry(e)
    ensures Strip(StatusLine(e)) == StatusCore(e)
  {
    var core := StatusCore(e);
    StatusCoreTrimmed(e);
    StripTrimmed(core);
    if e.flag == ' ' {
      assert StatusLine(e)[1..] == core;
    } else {
      assert StatusLine(e) == core;
    }
  }

  /** The path and its description, split on blanks, start with the path. */
  lemma PathFieldFirst(e: SubmoduleStatus)
    requires ValidEntry(e)
    ensures Split(e.path + Described(e.describe), ' ')[0] == e.path
  {
    assert ' ' !in e.path by {
      assert forall i :: 0 <= i < |e.path| ==> e.path[i] != ' ';
    }
    if e.describe.Some? {
      var tail := "(" + e.describe.value + ")";
      assert e.path + Described(e.describe) == e.path + [' '] + tail;
      SplitPrefix(e.path, ' ', tail);
    } else {
      assert e.path + Described(e.describe) == e.path;
      SplitFree(e.path, ' ');
    }
  }

  /** A stripped submodule line is a blank-free head, a blank, then the path and its description. */
  lemma StatusCoreFields(e: SubmoduleStatus)
    requires ValidEntry(e)
    ensures StatusCore(e) == ((if e.flag == ' ' then "" else [e.flag]) + e.sha) + [' '] + (e.path + Described(e.describe))
    ensures ' ' !in (if e.flag == ' ' then "" else [e.flag]) + e.sha
  {
    assert forall i :: 0 <= i < |e.sha| ==> e.sha[i] != ' ';
  }

  /** The second field of a submodule line is the submodule's path. */
  lemma SecondFieldIsPath(e: SubmoduleStatus)
    requires ValidEntry(e)
    ensures HasSecondField(StatusLine(e))
    ensures Split(Strip(StatusLine(e)), ' ')[1] == e.path
  {
    StripStatusLine(e);
    StatusCoreFields(e);
    SplitPrefix((if e.flag == ' ' then "" else [e.flag]) + e.sha, ' ', e.path + Described(e.describe));
    PathFieldFirst(e);
  }

  /** A status line is never blank. */
  lemma StatusLineNotBlank(e: SubmoduleStatus)
    requires ValidEntry(e)
    ensures Strip(StatusLine(e)) != ""
  {
    StripStatusLine(e);
  }

  /** The lines of a rendered status, plus the empty piece after the last newline. */
  function StatusLines(es: seq<SubmoduleStatus>): (r: seq<string>)
    ensures |r| == |es| + 1
  {
    if es == [] then [""] else [StatusLine(es[0])] + StatusLines(es[1..])
  }

  lemma {:induction false} RenderStatusLines(es: seq<SubmoduleStatus>)
    requires forall i :: 0 <= i < |es| ==> ValidEntry(es[i])
    ensures Split(RenderStatus(es), '\n') == StatusLines(es)
  {
    if es != [] {
      RenderStatusLines(es[1..]);
      var line := StatusLine(es[0]);
      assert '\n' !in line by {
        var e := es[0];
        assert forall i :: 0 <= i < |e.sha| ==> e.sha[i] != '\n';
        assert forall i :: 0 <= i < |e.path| ==> e.path[i] != '\n';
        assert '\n' !in Described(e.describe);
      }
      assert RenderStatus(es) == line + ['\n'] + RenderStatus(es[1..]);
      SplitPrefix(line, '\n', RenderStatus(es[1..]));
    }
  }

  lemma {:induction false} StatusLinesParse(es: seq<SubmoduleStatus>)
    requires forall i :: 0 <= i < |es| ==> ValidEntry(es[i])
    ensures SubmodulePaths(StatusLines(es)) == Some(PathsOf(es))
  {
    if es == [] {
      assert Strip("") == "";
    } else {
      StatusLinesParse(es[1..]);
      StatusLineNotBlank(es[0]);
      SecondFieldIsPath(es[0]);
      assert StatusLines(es)[1..] == StatusLines(es[1..]);
    }
  }

  /**
   * Parsing what git prints for a list of submodules gives back their paths,
   * in order, whatever their state flags, with or without a description.
   */
  lemma SubmodulesRoundTrip(es: seq<SubmoduleStatus>)
    requires forall i :: 0 <= i < |es| ==> ValidEntry(es[i])
    ensures Submodules(RenderStatus(es)) == Some(PathsOf(es))
  {
    RenderStatusLines(es);
    StatusLinesParse(es);
  }

  // ---------------------------------------------------------------------------
  // ls-tree

  /** Every non-blank item, stripped and joined onto `rel`, in order. */
  function ListingPaths(rel: string, items: seq<string>): seq<string>
  {
    if items == [] then []
    else
      var item := Strip(items[0]);
      if item == "" then ListingPaths(rel, items[1..])
      else [PathJoin(rel, item)] + ListingPaths(rel, items[1..])
  }

  /** The paths one `git ls-tree -r --name-only HEAD` listing contributes. */
  function RepoListing(rel: string, output: string): seq<string>
  {
    ListingPaths(rel, Split(output, '\n'))
  }

  /** The listings of the submodules, in submodule order, each relative to its submodule path. */
  function SubmoduleListings(repoPath: string, subs: seq<string>, lsTree: string -> string): seq<string>
  {
    if subs == [] then []
    else
      RepoListing(subs[0], lsTree(PathJoin(repoPath, subs[0])))
        + SubmoduleListings(repoPath, subs[1..], lsTree)
  }

  /**
   * `WebPlatformTests._tree_paths`: the main repository's listing relative
   * to ".", then each submodule's listing relative to the submodule path.
   * `lsTree` gives the ls-tree output of the repository at a directory.
   */
  function TreePaths(repoPath: string, statusOutput: string, lsTree: string -> string): Option<seq<string>>
  {
    match Submodules(statusOutput)
    case None => None
    case Some(subs) => Some(RepoListing(".", lsTree(repoPath)) + SubmoduleListings(repoPath, subs, lsTree))
  }

  /** A name ls-tree prints: one line, not blank, no whitespace at either end. */
  predicate ListedName(n: string) {
    n != [] && '\n' !in n && !IsSpace(n[0]) && !IsSpace(n[|n| - 1])
  }

  /** What ls-tree prints for a list of names. */
  function RenderListing(names: seq<string>): string
  {
    if names == [] then "" else names[0] + "\n" + RenderListing(names[1..])
  }

  /** The names, each joined onto `rel`. */
  function Prefixed(rel: string, names: seq<string>): (r: seq<string>)
    ensures |r| == |names| && forall i :: 0 <= i < |names| ==> r[i] == PathJoin(rel, names[i])
  {
    if names == [] then [] else [PathJoin(rel, names[0])] + Prefixed(rel, names[1..])
  }

  /** Parsing what ls-tree prints gives back every name, joined onto `rel`, in order. */
  lemma {:induction false} ListingRoundTrip(rel: string, names: seq<string>)
    requires forall i :: 0 <= i < |names| ==> ListedName(names[i])
    ensures RepoListing(rel, RenderListing(names)) == Prefixed(rel, names)
  {
    if names == [] {
      assert Split("", '\n') == [""];
      assert Strip("") == "";
      assert ListingPaths(rel, [""]) == ListingPaths(rel, []);
    } else {
      ListingRoundTrip(rel, names[1..]);
      SplitPrefix(names[0], '\n', RenderListing(names[1..]));
      assert RenderListing(names) == names[0] + ['\n'] + RenderListing(names[1..]);
      StripTrimmed(names[0]);
    }
  }

  /** The expected tree listing of the submodules: each name joined onto its submodule path. */
  function SubmoduleTrees(es: seq<SubmoduleStatus>, names: seq<seq<string>>): seq<string>
    requires |names| == |es|
  {
    if es == [] then [] else Prefixed(es[0].path, names[0]) + SubmoduleTrees(es[1..], names[1..])
  }

  lemma {:induction false} SubmoduleListingsRoundTrip(
    repoPath: string, es: seq<SubmoduleStatus>, names: seq<seq<string>>, lsTree: string -> string)
    requires |names| == |es|
    requires forall k :: 0 <= k < |es| ==> lsTree(PathJoin(repoPath, es[k].path)) == RenderListing(names[k])
    requires forall k, i :: 0 <= k < |names| && 0 <= i < |names[k]| ==> ListedName(names[k][i])
    ensures SubmoduleListings(repoPath, PathsOf(es), lsTree) == SubmoduleTrees(es, names)
  {
    if es != [] {
      SubmoduleListingsRoundTrip(repoPath, es[1..], names[1..], lsTree);
      ListingRoundTrip(es[0].path, names[0]);
      assert PathsOf(es)[1..] == PathsOf(es[1..]);
    }
  }

  /**
   * For a clone whose main repository tracks `main` and whose submodules
   * `es` track `names`, the tree listing is the main repository's paths
   * (relative to ".") followed by each submodule's paths joined onto the
   * submodule's path, in the order git lists the submodules.
   */
  lemma TreePathsRoundTrip(
    repoPath: string, main: seq<string>, es: seq<SubmoduleStatus>, names: seq<seq<string>>,
    lsTree: string -> string)
    requires |names| == |es|
    requires forall i :: 0 <= i < |es| ==> ValidEntry(es[i])
    requires forall i :: 0 <= i < |main| ==> ListedName(main[i])
    requires forall k, i :: 0 <= k < |names| && 0 <= i < |names[k]| ==> ListedName(names[k][i])
    requires lsTree(repoPath) == RenderListing(main)
    requires forall k :: 0 <= k < |es| ==> lsTree(PathJoin(repoPath, es[k].path)) == RenderListing(names[k])
    ensures TreePaths(repoPath, RenderStatus(es), lsTree) == Some(Prefixed(".", main) + SubmoduleTrees(es, names))
  {
    SubmodulesRoundTrip(es);
    ListingRoundTrip(".", main);
    SubmoduleListingsRoundTrip(repoPath, es, names, lsTree);
  }

  /** Blank ls-tree lines contribute nothing; every other line contributes one path. */
  lemma {:induction false} ListingPathsCount(rel: string, items: seq<string>)
    ensures |ListingPaths(rel, items)| == |NonBlank(items)|
    ensures forall i :: 0 <= i < |NonBlank(items)| ==>
      ListingPaths(rel, items)[i] == PathJoin(rel, Strip(NonBlank(items)[i]))
  {
    if items != [] {
      ListingPathsCount(rel, items[1..]);
    }
  }

  /** A path the main repository lists as "./x" resolves to the same components as "x". */
  lemma MainListingResolves(output: string, i: nat)
    requires i < |RepoListing(".", output)|
    ensures exists item ::
              && item != "" && Strip(item) == item
              && RepoListing(".", output)[i] == PathJoin(".", item)
              && (!IsAbsolute(item) ==> Components(RepoListing(".", output)[i]) == Components(item))
  {
    var items := Split(output, '\n');
    ListingPathsCount(".", items);
    var item := Strip(NonBlank(items)[i]);
    StripIdempotent(NonBlank(items)[i]);
    if !IsAbsolute(item) {
      DotJoin(item);
    }
  }
}
