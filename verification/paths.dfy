/** Local and remote path construction shared by every driver variant:
    `mountpoint(name)` is `filepath.Join(root, name)` and `subdir(name)` is
    `filepath.Join("/", name)`. Go's `filepath.Join` also cleans its result
    (collapsing `..`, `.` and repeated separators); the model joins a clean
    directory with one path segment, which is what volume names are. */
module Paths {

  /** A volume name that names exactly one path segment. */
  predicate Segment(name: string) {
    name != "" && name != "." && name != ".." && '/' !in name
  }

  /** `filepath.Join(dir, elem)` for a clean `dir` and a single segment `elem`:
      empty elements are ignored and exactly one separator is placed between. */
  function Join(dir: string, elem: string): (p: string)
    ensures elem != "" && dir != "" ==> |p| > |dir| && p[..|dir|] == dir
    ensures elem != "" ==> |p| >= |elem| && p[|p| - |elem|..] == elem
  {
    if elem == "" then dir
    else if dir == "" then elem
    else if dir[|dir| - 1] == '/' then dir + elem
    else dir + "/" + elem
  }

  /** Local mountpoint of a volume (driver.go, main.go and minio/s3.go `mountpoint`). */
  function Mountpoint(root: string, name: string): string {
    Join(root, name)
  }

  /** Remote directory of a volume inside the gluster volume (`subdir`, and
      gfs.go's `filepath.Join("/", name)`). */
  function Subdir(name: string): (p: string)
    ensures p == "/" + name
  {
    Join("/", name)
  }

  /** `strings.HasPrefix(name, ".")`: the listing's hidden-file marker. */
  predicate Hidden(name: string) {
    |name| > 0 && name[0] == '.'
  }

  /** The text after the last separator of a path (empty when the path ends
      in a separator). */
  function LastSegment(p: string): (s: string)
    ensures '/' !in s
    ensures |s| <= |p|
  {
    if |p| == 0 then ""
    else if p[|p| - 1] == '/' then ""
    else LastSegment(p[..|p| - 1]) + [p[|p| - 1]]
  }

  lemma {:induction false} LastSegmentAfterSeparator(d: string, n: string)
    requires d == "" || d[|d| - 1] == '/'
    requires '/' !in n
    ensures LastSegment(d + n) == n
    decreases |n|
  {
    if n == "" {
      assert d + n == d;
    } else {
      var n' := n[..|n| - 1];
      assert (d + n)[..|d + n| - 1] == d + n';
      LastSegmentAfterSeparator(d, n');
      assert n == n' + [n[|n| - 1]];
    }
  }

  /** The volume name is recoverable from its mountpoint: the last segment of
      `root/name` is `name`. */
  lemma MountpointLastSegment(root: string, name: string)
    requires Segment(name)
    ensures LastSegment(Mountpoint(root, name)) == name
  {
    if root == "" {
      assert "" + name == name;
      LastSegmentAfterSeparator("", name);
    } else if root[|root| - 1] == '/' {
      LastSegmentAfterSeparator(root, name);
    } else {
      assert root + "/" + name == (root + "/") + name;
      LastSegmentAfterSeparator(root + "/", name);
    }
  }

  /** Distinct volume names never share a mountpoint under one root. */
  lemma MountpointInjective(root: string, a: string, b: string)
    requires Segment(a) && Segment(b)
    requires Mountpoint(root, a) == Mountpoint(root, b)
    ensures a == b
  {
    MountpointLastSegment(root, a);
    MountpointLastSegment(root, b);
  }
}
