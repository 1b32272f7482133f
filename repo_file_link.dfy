/**
 * `splitPath` of the repository-file link: a path is split on '/', the
 * last component is the file name and the others, joined back with '/',
 * are the directory shown before it.
 */
module RepoFileLink {

  /** `s.split('/')`: the pieces between the slashes, empty ones included. */
  function Split(s: string): (parts: seq<string>)
    ensures |parts| >= 1
    ensures forall i :: 0 <= i < |parts| ==> '/' !in parts[i]
    decreases |s|
  {
    if '/' !in s then [s]
    else
      var k := FirstSlash(s);
      [s[..k]] + Split(s[k + 1..])
  }

  /** The index of the first '/' of `s`. */
  function FirstSlash(s: string): (k: nat)
    requires '/' in s
    ensures k < |s| && s[k] == '/' && '/' !in s[..k]
  {
    if s[0] == '/' then 0
    else
      assert '/' in s[1..] by {
        var j :| 0 <= j < |s| && s[j] == '/';
        assert s[1..][j - 1] == '/';
      }
      var k := 1 + FirstSlash(s[1..]);
      assert s[..k] == [s[0]] + s[1..][..k - 1];
      k
  }

  /** `parts.join('/')`. */
  function Join(parts: seq<string>): string
  {
    if parts == [] then ""
    else if |parts| == 1 then parts[0]
    else parts[0] + "/" + Join(parts[1..])
  }

  /**
   * `splitPath`: every component but the last, joined; and the last. The
   * file name holds no '/'; a path without '/' is all file name, and with
   * one, directory, '/' and file name give the path back.
   */
  function SplitPath(path: string): (r: (string, string))
    ensures '/' !in r.1
    ensures '/' !in path ==> r == ("", path)
    ensures '/' in path ==> r.0 + "/" + r.1 == path
  {
    var components := Split(path);
    SplitCount(path);
    JoinSplit(path);
    if |components| >= 2 then
      JoinLast(components);
      (Join(components[..|components| - 1]), components[|components| - 1])
    else
      (Join(components[..|components| - 1]), components[|components| - 1])
  }

  /**
   * What the link shows: `${dir}/` when the directory is non-empty, then
   * the file name. It is the path itself, or the path less a leading '/'.
   */
  function Displayed(path: string): (shown: string)
    ensures shown == path || (|path| > 0 && path[0] == '/' && shown == path[1..])
  {
    var (fileBase, fileName) := SplitPath(path);
    (if fileBase != "" then fileBase + "/" else "") + fileName
  }

  // ---------------------------------------------------------------------
  // Properties
  // ---------------------------------------------------------------------

  /** Joining the pieces of a split gives back the text. */
  lemma {:induction false} JoinSplit(s: string)
    ensures Join(Split(s)) == s
    decreases |s|
  {
    if '/' in s {
      var k := FirstSlash(s);
      var rest := Split(s[k + 1..]);
      JoinSplit(s[k + 1..]);
      assert Split(s) == [s[..k]] + rest;
      assert s == s[..k] + "/" + s[k + 1..];
    }
  }

  /** There is more than one piece exactly when the text has a slash. */
  lemma SplitCount(s: string)
    ensures |Split(s)| >= 2 <==> '/' in s
  {
  }

  /** Joining, the last piece is separated from the rest by one '/'. */
  lemma {:induction false} JoinLast(parts: seq<string>)
    requires |parts| >= 2
    ensures Join(parts) == Join(parts[..|parts| - 1]) + "/" + parts[|parts| - 1]
    decreases |parts|
  {
    if |parts| > 2 {
      JoinLast(parts[1..]);
      assert parts[1..][..|parts| - 2] == parts[..|parts| - 1][1..];
    } else {
      assert parts[..1] == [parts[0]];
    }
  }

  /** The file name is the last '/'-separated component and holds no '/'. */
  lemma BaseIsLastComponent(path: string)
    ensures var (dir, base) := SplitPath(path);
            && '/' !in base
            && |base| <= |path| && base == path[|path| - |base|..]
            && (|base| < |path| ==> path[|path| - |base| - 1] == '/')
  {
    var (dir, base) := SplitPath(path);
    if '/' in path {
      assert path[|path| - |base| - 1] == (dir + "/" + base)[|dir|];
    } else {
      assert base == path;
    }
  }

  /** With a '/', the directory is the text before the last '/'. */
  lemma DirBeforeLastSlash(path: string)
    requires '/' in path
    ensures var dir := SplitPath(path).0;
            && |dir| < |path| && path[|dir|] == '/'
            && dir == path[..|dir|]
            && '/' !in path[|dir| + 1..]
  {
    var (dir, base) := SplitPath(path);
    assert path[|dir| + 1..] == base;
    assert path[..|dir|] == dir;
  }

  /** The link shows the whole path whenever the directory is non-empty or the path has no '/'. */
  lemma DisplayedIsPath(path: string)
    requires SplitPath(path).0 != "" || '/' !in path
    ensures Displayed(path) == path
  {
  }

  /** A path whose only '/' is its first character is shown without it. */
  lemma LeadingSlashDropped()
    ensures SplitPath("/a") == ("", "a") && Displayed("/a") == "a"
  {
    assert FirstSlash("/a") == 0;
    assert Split("/a") == ["", "a"];
  }
}
