/** `os.path.basename` and two-argument `os.path.join`, as Python's `posixpath` defines them. */
module PosixPath {

  /** `p.rfind(c)`: the index of the last `c` in `p`, or -1 when there is none. */
  function RFind(p: string, c: char): (i: int)
    ensures -1 <= i < |p|
    ensures i >= 0 ==> p[i] == c
    ensures forall k :: i < k < |p| ==> p[k] != c
    decreases |p|
  {
    if p == [] then -1
    else if p[|p| - 1] == c then |p| - 1
    else
      var i := RFind(p[..|p| - 1], c);
      assert forall k :: i < k < |p| - 1 ==> p[..|p| - 1][k] == p[k];
      i
  }

  /** `os.path.basename(p)`: everything after the last `/`. */
  function Basename(p: string): string {
    p[RFind(p, '/') + 1..]
  }

  /**
   * The base name is the last component: a suffix of the path with no `/`
   * in it, preceded by a `/` unless it is the whole path.
   */
  lemma BasenameIsLastComponent(p: string)
    ensures var r := Basename(p);
            && '/' !in r
            && |r| <= |p| && r == p[|p| - |r|..]
            && (|r| < |p| ==> p[|p| - |r| - 1] == '/')
  {
    var i := RFind(p, '/') + 1;
    assert forall k :: 0 <= k < |p| - i ==> p[i..][k] == p[i + k];
  }

  /** `os.path.join(a, b)`: an absolute `b` replaces `a`; otherwise one `/` separates them. */
  function Join(a: string, b: string): string {
    if |b| > 0 && b[0] == '/' then b
    else if a == [] || a[|a| - 1] == '/' then a + b
    else a + "/" + b
  }

  /** A name as a directory listing yields it: non-empty and free of `/`. */
  predicate IsEntryName(n: string) {
    |n| > 0 && '/' !in n
  }

  /** The last component of a path ending in `/` followed by a name is that name. */
  lemma BasenameAfterSlash(a: string, b: string)
    requires a == [] || a[|a| - 1] == '/'
    requires '/' !in b
    ensures Basename(a + b) == b
  {
    var p := a + b;
    assert forall k :: |a| <= k < |p| ==> p[k] == b[k - |a|];
    assert RFind(p, '/') == |a| - 1 by {
      if a != [] {
        assert p[|a| - 1] == '/';
      }
    }
    assert p[|a|..] == b;
  }

  /**
   * Joining a directory and a name and taking the last component gives the
   * name back, whatever the directory.
   */
  lemma {:induction false} BasenameOfJoin(root: string, name: string)
    requires IsEntryName(name)
    ensures Basename(Join(root, name)) == name
  {
    if root == [] || root[|root| - 1] == '/' {
      BasenameAfterSlash(root, name);
    } else {
      assert Join(root, name) == (root + "/") + name;
      BasenameAfterSlash(root + "/", name);
    }
  }
}
