/** The two `os.path` functions the image scan and `worker_task` use, with POSIX separators. */
module OsPath {

  const SEP: char := '/'

  /** `os.path.join(a, b)`: an absolute `b` replaces `a`; otherwise `b` follows `a` and a separator when `a` lacks a final one. */
  function Join(a: string, b: string): (p: string)
    ensures |b| <= |p| && p[|p| - |b|..] == b
    ensures (|b| > 0 && b[0] == SEP) || (|a| <= |p| && p[..|a|] == a)
  {
    if |b| > 0 && b[0] == SEP then b
    else if a == "" || a[|a| - 1] == SEP then a + b
    else a + [SEP] + b
  }

  /**
   * `os.path.basename(p)`: everything after the last separator. The three
   * clauses together pin the result down: the longest suffix of `p` that
   * holds no separator.
   */
  function Basename(p: string): (b: string)
    ensures SEP !in b
    ensures |b| <= |p| && p[|p| - |b|..] == b
    ensures |b| < |p| ==> p[|p| - |b| - 1] == SEP
  {
    if p == "" then ""
    else if p[|p| - 1] == SEP then ""
    else
      var b := Basename(p[..|p| - 1]) + [p[|p| - 1]];
      assert p[|p| - |b|..] == p[..|p| - 1][|p| - |b|..] + [p[|p| - 1]];
      b
  }

  /** A character other than the separator extends the basename. */
  lemma BasenameSnoc(q: string, c: char)
    requires c != SEP
    ensures Basename(q + [c]) == Basename(q) + [c]
  {
    assert (q + [c])[..|q|] == q;
  }

  /** Appending a separator-free name to a directory that ends at a separator makes that name the basename. */
  lemma {:induction false} BasenameAfterSep(dir: string, name: string)
    requires dir == "" || dir[|dir| - 1] == SEP
    requires SEP !in name
    ensures Basename(dir + name) == name
  {
    if name == "" {
      assert dir + name == dir;
    } else {
      var init, last := name[..|name| - 1], name[|name| - 1];
      assert name == init + [last] && SEP !in init && last != SEP by {
        assert last in name;
      }
      assert dir + name == (dir + init) + [last];
      BasenameAfterSep(dir, init);
      BasenameSnoc(dir + init, last);
    }
  }

  /** The basename of `join(root, name)` is `name` for any name without a separator, as `os.walk` yields. */
  lemma BasenameOfJoin(root: string, name: string)
    requires SEP !in name
    ensures Basename(Join(root, name)) == name
  {
    if root == "" || root[|root| - 1] == SEP {
      BasenameAfterSep(root, name);
    } else {
      var dir := root + [SEP];
      assert root + [SEP] + name == dir + name;
      BasenameAfterSep(dir, name);
    }
  }
}
