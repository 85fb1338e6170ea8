/** The two posixpath operations the services use on directory entries. */
module Paths {

  /** posixpath.join(a, b) for two components. */
  function Join(a: string, b: string): (r: string)
    ensures |r| >= |b| && r[|r| - |b|..] == b
    ensures (b == [] || b[0] != '/') ==> a <= r
    ensures (b == [] || b[0] != '/') ==> |r| <= |a| + 1 + |b|
  {
    if b != [] && b[0] == '/' then b
    else if a == [] || a[|a| - 1] == '/' then a + b
    else a + "/" + b
  }

  /** posixpath.basename(p): everything after the last '/'. */
  function Basename(p: string): (r: string)
    ensures '/' !in r
    ensures |r| <= |p| && r == p[|p| - |r|..]
  {
    if p == [] || p[|p| - 1] == '/' then []
    else Basename(p[..|p| - 1]) + [p[|p| - 1]]
  }

  /** A separator-free name after a directory part ending in '/' is that path's basename. */
  lemma {:induction false} BasenameAfterSeparator(dir: string, name: string)
    requires dir == [] || dir[|dir| - 1] == '/'
    requires '/' !in name
    ensures Basename(dir + name) == name
  {
    var p := dir + name;
    if name == [] {
      assert p == dir;
    } else {
      var last := name[|name| - 1];
      var init := name[..|name| - 1];
      assert last != '/';
      assert p[|p| - 1] == last;
      assert p[..|p| - 1] == dir + init;
      assert Basename(p) == Basename(dir + init) + [last];
      BasenameAfterSeparator(dir, init);
      assert name == init + [last];
    }
  }

  /** A file name without a separator is recovered from any path it was joined onto. */
  lemma BasenameOfJoin(a: string, b: string)
    requires '/' !in b
    ensures Basename(Join(a, b)) == b
  {
    var dir := if a == [] || a[|a| - 1] == '/' then a else a + "/";
    assert Join(a, b) == dir + b;
    BasenameAfterSeparator(dir, b);
  }
}
