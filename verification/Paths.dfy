/**
 Path strings and the places they name. A place is a sequence of component names from the root.
 Symbolic links are leaves (lstat), so "." and ".." are resolved on the text alone.
 */
module Paths {

  type Path = seq<string>

  predicate ValidName(n: string) {
    n != "" && n != "." && n != ".." && '/' !in n
  }

  function Prepend(c: char, pieces: seq<string>): (r: seq<string>)
    requires |pieces| > 0
    ensures |r| > 0
  {
    if c == '/' then [""] + pieces else [[c] + pieces[0]] + pieces[1..]
  }

  /** The pieces between the slashes. */
  function Split(s: string): (r: seq<string>)
    ensures |r| > 0
  {
    if s == "" then [""] else Prepend(s[0], Split(s[1..]))
  }

  function Enter(p: Path, name: string): Path {
    if name == "" || name == "." then p
    else if name == ".." then (if p == [] then [] else p[..|p| - 1])
    else p + [name]
  }

  function Walk(p: Path, names: seq<string>): Path {
    if names == [] then p else Enter(Walk(p, names[..|names| - 1]), names[|names| - 1])
  }

  /** The place a path string names. */
  function Resolve(s: string): Path {
    Walk([], Split(s))
  }

  /** build_path: "%s/%s" */
  function BuildPath(dir: string, name: string): string {
    dir + ['/'] + name
  }

  lemma PrependJoin(c: char, x: seq<string>, y: seq<string>)
    requires |x| > 0
    ensures Prepend(c, x + y) == Prepend(c, x) + y
  {
    assert (x + y)[1..] == x[1..] + y;
  }

  lemma {:induction false} SplitJoin(a: string, b: string)
    ensures Split(a + ['/'] + b) == Split(a) + Split(b)
  {
    hide Prepend;
    var s := a + ['/'] + b;
    if a == "" {
      assert s[1..] == b;
      assert Prepend('/', Split(b)) == [""] + Split(b) by { PrependSlash(Split(b)); }
    } else {
      assert s[0] == a[0] && s[1..] == a[1..] + ['/'] + b;
      SplitJoin(a[1..], b);
      PrependJoin(a[0], Split(a[1..]), Split(b));
    }
  }

  lemma PrependSlash(pieces: seq<string>)
    requires |pieces| > 0
    ensures Prepend('/', pieces) == [""] + pieces
  {
  }

  lemma {:induction false} SplitName(n: string)
    requires '/' !in n
    ensures Split(n) == [n]
  {
    if n != "" {
      SplitName(n[1..]);
      assert n == [n[0]] + n[1..];
    }
  }

  lemma {:induction false} WalkJoin(p: Path, a: seq<string>, b: seq<string>)
    ensures Walk(p, a + b) == Walk(Walk(p, a), b)
    decreases |b|
  {
    if b == [] {
      assert a + b == a;
    } else {
      WalkJoin(p, a, b[..|b| - 1]);
      assert (a + b)[..|a + b| - 1] == a + b[..|b| - 1];
    }
  }

  /** A valid name behind a slash is one step down, whatever the directory string looks like. */
  lemma BuildPathResolves(dir: string, name: string)
    requires ValidName(name)
    ensures Resolve(BuildPath(dir, name)) == Resolve(dir) + [name]
  {
    SplitJoin(dir, name);
    SplitName(name);
    WalkJoin([], Split(dir), [name]);
    assert [name][..0] == [];
  }
}
