/**
 * The parts of Node's POSIX `path` module the core uses. `JoinPath` covers
 * the shapes of directory that occur here (empty, `.`, a directory ending in
 * `/`, any other directory); it does not collapse `..` or repeated separators.
 */
module NodePath {
  import opened Wrappers
  import opened JsString

  /** What `JoinPath(dir, name)` puts before `name`. */
  function JoinPrefix(dir: string): string {
    if dir == "." || dir == "" then "" else if EndsWith(dir, "/") then dir else dir + "/"
  }

  /** `path.join(dir, name)` for a `name` without separators at its ends. */
  function JoinPath(dir: string, name: string): (r: string)
    ensures r == JoinPrefix(dir) + name
  {
    if dir == "." || dir == "" then name
    else if EndsWith(dir, "/") then dir + name
    else dir + "/" + name
  }

  /** Joining under one directory keeps names apart. */
  lemma JoinInjective(dir: string, a: string, b: string)
    requires JoinPath(dir, a) == JoinPath(dir, b)
    ensures a == b
  {
    var p := JoinPrefix(dir);
    assert a == (p + a)[|p|..] && b == (p + b)[|p|..];
  }

  /** A directory of two or more characters that does not end in `/` gets a `/` appended. */
  lemma PlainDirPrefix(dir: string)
    requires |dir| >= 2 && dir[|dir| - 1] != '/'
    ensures JoinPrefix(dir) == dir + "/"
  {
    assert dir != "." by {
      assert |dir| != |"."|;
    }
    assert !EndsWith(dir, "/") by {
      assert dir[|dir| - 1..][0] == dir[|dir| - 1];
    }
  }

  /** `p` without its trailing `/`s, as `dirname` and `basename` first read it; a path of only `/`s keeps one. */
  function StripTrailing(p: string): (q: string)
    ensures |q| <= |p| && q == p[..|q|]
    ensures |p| > 0 ==> |q| > 0
    ensures |q| <= 1 || q[|q| - 1] != '/'
    ensures |p| == 0 || p[|p| - 1] != '/' ==> q == p
  {
    if |p| > 1 && p[|p| - 1] == '/' then StripTrailing(p[..|p| - 1]) else p
  }

  /**
   * `path.dirname(p)`: after dropping trailing `/`s, everything before the
   * last `/`; `.` when there is none, and `/` (or `//`) at the root.
   */
  function Dirname(p: string): string {
    var q := StripTrailing(p);
    match LastIndexOf(q, '/')
    case None => "."
    case Some(i) => if i == 0 then "/" else if i == 1 && q[0] == '/' then "//" else q[..i]
  }

  /** `path.basename(p)`: after dropping trailing `/`s, everything after the last `/`. */
  function Basename(p: string): string {
    var q := StripTrailing(p);
    match LastIndexOf(q, '/')
    case None => q
    case Some(i) => q[i + 1..]
  }

  /** No empty segment (`//`) and no leading `./`, the shapes `path.join` would normalise. */
  predicate Normal(p: string) {
    && (forall k :: 0 < k < |p| ==> !(p[k - 1] == '/' && p[k] == '/'))
    && !(|p| >= 2 && p[0] == '.' && p[1] == '/')
  }

  /** A prefix of a normal path is normal. */
  lemma NormalPrefix(p: string, m: nat)
    requires Normal(p) && m <= |p|
    ensures Normal(p[..m])
  {
    var q := p[..m];
    forall k | 0 < k < |q|
      ensures !(q[k - 1] == '/' && q[k] == '/')
    {
      assert q[k - 1] == p[k - 1] && q[k] == p[k];
    }
  }

  /** The split-and-join for a path already without its trailing `/`s. */
  lemma JoinStripped(q: string, suffix: string)
    requires Normal(q) && StripTrailing(q) == q
    ensures JoinPath(Dirname(q), Basename(q) + suffix) == q + suffix
  {
    match LastIndexOf(q, '/')
    case None =>
    case Some(i) =>
      if i == 0 {
        assert q + suffix == "/" + (q[1..] + suffix);
      } else {
        assert q[..i] != "." && q[..i] != "" by {
          if i == 1 { assert q[0] != '.'; } else { assert |q[..i]| != 1; }
        }
        assert !EndsWith(q[..i], "/") by {
          assert q[i - 1] != '/';
        }
        assert q + suffix == q[..i] + "/" + (q[i + 1..] + suffix);
      }
  }

  /**
   * Splitting a normal path and joining the parts back, with `suffix` added
   * to the last one, gives the path without its trailing `/` followed by
   * `suffix`; for a path that does not end in `/`, the path itself.
   */
  lemma JoinDirnameBasename(p: string, suffix: string)
    requires Normal(p)
    ensures JoinPath(Dirname(p), Basename(p) + suffix) == StripTrailing(p) + suffix
    ensures |p| == 0 || p[|p| - 1] != '/' ==> JoinPath(Dirname(p), Basename(p) + suffix) == p + suffix
  {
    var q := StripTrailing(p);
    NormalPrefix(p, |q|);
    assert StripTrailing(q) == q;
    assert Dirname(p) == Dirname(q) && Basename(p) == Basename(q);
    JoinStripped(q, suffix);
  }
}
