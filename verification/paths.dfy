/**
 * File-system paths. The script builds paths as strings with `os.path.join`;
 * the disk resolves them to sequences of components, dropping empty and "."
 * components, so that "dest/./a" and "dest/a" name the same entry.
 */
module Paths {
  import opened Text

  type Path = seq<string>

  /** `posixpath.join(a, b)` for two arguments. */
  function PathJoin(a: string, b: string): (r: string)
  {
    if b != [] && b[0] == '/' then b
    else if a == [] || a[|a| - 1] == '/' then a + b
    else a + "/" + b
  }

  predicate IsAbsolute(s: string) {
    s != [] && s[0] == '/'
  }

  /** The pieces of a split that name something: not empty and not ".". */
  function Named(pieces: seq<string>): seq<string>
  {
    if pieces == [] then []
    else if pieces[0] == "" || pieces[0] == "." then Named(pieces[1..])
    else [pieces[0]] + Named(pieces[1..])
  }

  /** The components a path string resolves to. */
  function Components(s: string): Path
  {
    Named(Split(s, '/'))
  }

  function Parent(p: Path): Path
    requires p != []
  {
    p[..|p| - 1]
  }

  /** The directory part of a path (the root is its own directory part). */
  function Dirname(p: Path): Path
  {
    if p == [] then [] else Parent(p)
  }

  predicate IsPrefix(p: Path, q: Path) {
    |p| <= |q| && q[..|p|] == p
  }

  /** `q` lies inside directory `d` (and is not `d` itself). */
  predicate StrictlyUnder(d: Path, q: Path) {
    |d| < |q| && q[..|d|] == d
  }

  /** Neither path lies at or inside the other. */
  predicate Apart(a: Path, b: Path) {
    !IsPrefix(a, b) && !IsPrefix(b, a)
  }

  /** Resolving two piece lists one after the other resolves their concatenation. */
  lemma {:induction false} NamedAppend(xs: seq<string>, ys: seq<string>)
    ensures Named(xs + ys) == Named(xs) + Named(ys)
  {
    if xs == [] {
      assert xs + ys == ys;
    } else {
      var zs := xs + ys;
      assert zs[0] == xs[0] && zs[1..] == xs[1..] + ys;
      NamedAppend(xs[1..], ys);
      if xs[0] != "" && xs[0] != "." {
        assert [xs[0]] + (Named(xs[1..]) + Named(ys)) == ([xs[0]] + Named(xs[1..])) + Named(ys);
      }
    }
  }

  /** Prepending a character to the first piece commutes with appending more pieces. */
  lemma PrependPiece(c: char, ra: seq<string>, rb: seq<string>)
    requires |ra| >= 1
    ensures [[c] + (ra + rb)[0]] + (ra + rb)[1..] == ([[c] + ra[0]] + ra[1..]) + rb
  {
    assert (ra + rb)[1..] == ra[1..] + rb;
  }

  /** Splitting around one separator splits each side on its own. */
  lemma {:induction false} SplitAround(a: string, sep: char, b: string)
    ensures Split(a + [sep] + b, sep) == Split(a, sep) + Split(b, sep)
  {
    var s := a + [sep] + b;
    if a == [] {
      assert s[0] == sep && s[1..] == b;
    } else {
      assert s[0] == a[0] && s[1..] == a[1..] + [sep] + b;
      SplitAround(a[1..], sep, b);
      if a[0] == sep {
        assert [""] + (Split(a[1..], sep) + Split(b, sep)) == ([""] + Split(a[1..], sep)) + Split(b, sep);
      } else {
        PrependPiece(a[0], Split(a[1..], sep), Split(b, sep));
      }
    }
  }

  /** Components on either side of one separator resolve on their own. */
  lemma ComponentsAround(x: string, y: string)
    ensures Components(x + "/" + y) == Components(x) + Components(y)
  {
    assert x + "/" + y == x + ['/'] + y;
    SplitAround(x, '/', y);
    NamedAppend(Split(x, '/'), Split(y, '/'));
  }

  /**
   * Joining a relative path onto a directory resolves to the directory's
   * components followed by the relative path's; an absolute right-hand side
   * replaces the left-hand side, as `os.path.join` does.
   */
  lemma ComponentsOfJoin(a: string, b: string)
    ensures !IsAbsolute(b) ==> Components(PathJoin(a, b)) == Components(a) + Components(b)
    ensures IsAbsolute(b) ==> Components(PathJoin(a, b)) == Components(b)
  {
    assert Components([]) == [] by {
      assert Split([], '/') == [""];
    }
    if !IsAbsolute(b) {
      if a == [] {
        assert PathJoin(a, b) == b;
      } else if a[|a| - 1] == '/' {
        var a' := a[..|a| - 1];
        assert a == a' + "/" + [];
        ComponentsAround(a', []);
        assert a + b == a' + "/" + b;
        ComponentsAround(a', b);
      } else {
        ComponentsAround(a, b);
      }
    }
  }

  /** A path listed relative to "." names the same entry as the bare path. */
  lemma DotJoin(item: string)
    requires !IsAbsolute(item)
    ensures Components(PathJoin(".", item)) == Components(item)
  {
    ComponentsOfJoin(".", item);
    assert Split(".", '/') == ["."];
  }
}
