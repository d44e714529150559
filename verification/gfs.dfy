/** gfs.go: the connector that works on the remote gluster volume (create,
    list, get, recursive remove) and runs the mount helpers. */
module GfsConnector {
  import opened Common
  import opened Paths
  import opened Helpers
  import opened Remote

  /** What a deletion left in place, the error it returned (None for Go's
      nil) and the remote calls it made, in order. */
  datatype Removal<+T> = Removal(left: T, err: Option<Error>, ops: seq<RemoteOp>)

  function Size(n: Node): nat
    decreases n
  {
    1 + SizeAll(n.children)
  }

  function SizeAll(ns: seq<Node>): nat
    decreases ns
  {
    if ns == [] then 0 else Size(ns[0]) + SizeAll(ns[1..])
  }

  function AsSeq(n: Option<Node>): seq<Node> {
    match n
    case Some(x) => [x]
    case None => []
  }

  /** `removeAll(path)`: deletes the directory's contents, then the directory.
      It succeeds exactly when nothing of the subtree is left, its first call
      opens `path`, and on success its last call is the `Rmdir` of `path`.
      `Rmdir` refuses a directory that still has entries besides `.` and
      `..`, so an entry whose deletion failed makes it fail too. */
  function RemoveAll(path: string, dir: Node, f: Faults): (r: Removal<Option<Node>>)
    ensures r.err.None? <==> r.left.None?
    ensures r.ops != [] && r.ops[0] == Open(path)
    ensures r.err.None? ==> r.ops[|r.ops| - 1] == Rmdir(path)
    decreases Size(dir), 2
  {
    var content := RemoveContent(path, dir, f);
    var rest := dir.(children := content.left);
    if content.err.Some? then Removal(Some(rest), content.err, content.ops)
    else if path in f.rmdir || HasRealEntries(content.left) then
      Removal(Some(rest), Some(RemoteFailed(Rmdir(path))), content.ops + [Rmdir(path)])
    else Removal(None, None, content.ops + [Rmdir(path)])
  }

  /** `removeContent(path)`: opens and lists the directory (a non-directory
      cannot be listed), then deletes each entry. */
  function RemoveContent(path: string, dir: Node, f: Faults): (r: Removal<seq<Node>>)
    ensures r.ops != [] && r.ops[0] == Open(path)
    decreases Size(dir), 1
  {
    if path in f.open then Removal(dir.children, Some(RemoteFailed(Open(path))), [Open(path)])
    else if path in f.readdir || !dir.isDir then
      Removal(dir.children, Some(RemoteFailed(Readdir(path))), [Open(path), Readdir(path)])
    else
      var each := RemoveEach(path, dir.children, f);
      Removal(each.left, each.err, [Open(path), Readdir(path)] + each.ops)
  }

  /** The loop of `removeContent` over a listing: `.` and `..` are skipped,
      a directory is removed recursively and its failure ends the loop with
      that error, anything else is unlinked and a failing unlink is only
      logged. */
  function RemoveEach(path: string, files: seq<Node>, f: Faults): (r: Removal<seq<Node>>)
    decreases SizeAll(files), 3
  {
    if files == [] then Removal([], None, [])
    else
      assert SizeAll(files) == Size(files[0]) + SizeAll(files[1..]);
      var file := files[0];
      var sub := Join(path, file.name);
      if Dot(file.name) then
        var rest := RemoveEach(path, files[1..], f);
        Removal([file] + rest.left, rest.err, rest.ops)
      else if file.isDir then
        var child := RemoveAll(sub, file, f);
        if child.err.Some? then Removal(AsSeq(child.left) + files[1..], child.err, child.ops)
        else
          var rest := RemoveEach(path, files[1..], f);
          Removal(rest.left, rest.err, child.ops + rest.ops)
      else
        var rest := RemoveEach(path, files[1..], f);
        var kept := if sub in f.unlink then [file] else [];
        Removal(kept + rest.left, rest.err, [Unlink(sub)] + rest.ops)
  }

  // ---------------------------------------------------------------------
  // Properties of the recursive removal

  /** With no failing call, removing a directory deletes the whole subtree,
      the directory itself included. */
  lemma {:induction false} RemoveAllNoFaults(path: string, dir: Node)
    requires dir.isDir
    ensures RemoveAll(path, dir, NoFaults).left.None?
    ensures RemoveAll(path, dir, NoFaults).err.None?
    decreases Size(dir), 2
  {
    RemoveEachNoFaults(path, dir.children);
  }

  lemma {:induction false} RemoveEachNoFaults(path: string, files: seq<Node>)
    ensures RemoveEach(path, files, NoFaults).err.None?
    ensures !HasRealEntries(RemoveEach(path, files, NoFaults).left)
    decreases SizeAll(files), 3
  {
    if files != [] {
      var file := files[0];
      assert SizeAll(files) == Size(file) + SizeAll(files[1..]);
      RemoveEachNoFaults(path, files[1..]);
      if !Dot(file.name) && file.isDir {
        RemoveAllNoFaults(Join(path, file.name), file);
      }
      var r := RemoveEach(path, files, NoFaults);
      var rest := RemoveEach(path, files[1..], NoFaults);
      if Dot(file.name) {
        assert r.left == [file] + rest.left;
        forall i | 0 <= i < |r.left|
          ensures Dot(r.left[i].name)
        {
          if i > 0 { assert r.left[i] == rest.left[i - 1]; }
        }
      } else {
        assert r.left == rest.left;
      }
    }
  }

  /** The entries a successful pass over a listing keeps: `.`, `..`, and the
      non-directories whose unlink failed, in listing order. */
  function KeptOnSuccess(path: string, files: seq<Node>, f: Faults): seq<Node> {
    if files == [] then []
    else
      var file := files[0];
      var keep := Dot(file.name) || (!file.isDir && Join(path, file.name) in f.unlink);
      (if keep then [file] else []) + KeptOnSuccess(path, files[1..], f)
  }

  /** A pass that returns nil has removed every subdirectory and every file
      whose unlink succeeded; a failing unlink did not stop it. */
  lemma {:induction false} RemoveEachSucceeded(path: string, files: seq<Node>, f: Faults)
    requires RemoveEach(path, files, f).err.None?
    ensures RemoveEach(path, files, f).left == KeptOnSuccess(path, files, f)
    decreases |files|
  {
    if files != [] {
      var file := files[0];
      if !Dot(file.name) && file.isDir {
        assert RemoveAll(Join(path, file.name), file, f).err.None?;
      }
      RemoveEachSucceeded(path, files[1..], f);
    }
  }

  predicate IsSuffix<T(==)>(suffix: seq<T>, s: seq<T>) {
    |suffix| <= |s| && s[|s| - |suffix|..] == suffix
  }

  /** A pass fails only because removing some subdirectory failed; it
      returns that error at once and leaves every later entry untouched. */
  lemma {:induction false} RemoveEachAborts(path: string, files: seq<Node>, f: Faults)
    requires RemoveEach(path, files, f).err.Some?
    ensures exists k | 0 <= k < |files| ::
      && files[k].isDir && !Dot(files[k].name)
      && RemoveAll(Join(path, files[k].name), files[k], f).err == RemoveEach(path, files, f).err
      && IsSuffix(files[k + 1..], RemoveEach(path, files, f).left)
    decreases |files|
  {
    var file := files[0];
    var r := RemoveEach(path, files, f);
    var sub := Join(path, file.name);
    var child := RemoveAll(sub, file, f);
    if !Dot(file.name) && file.isDir && child.err.Some? {
      assert r.left == AsSeq(child.left) + files[1..];
      assert IsSuffix(files[0 + 1..], r.left);
    } else {
      var rest := RemoveEach(path, files[1..], f);
      var prefix: seq<Node>;
      if Dot(file.name) {
        prefix := [file];
      } else if file.isDir {
        prefix := [];
      } else {
        prefix := if sub in f.unlink then [file] else [];
      }
      assert r.left == prefix + rest.left && r.err == rest.err;
      RemoveEachAborts(path, files[1..], f);
      var k :| 0 <= k < |files[1..]|
        && files[1..][k].isDir && !Dot(files[1..][k].name)
        && RemoveAll(Join(path, files[1..][k].name), files[1..][k], f).err == rest.err
        && IsSuffix(files[1..][k + 1..], rest.left);
      assert files[k + 1] == files[1..][k];
      assert files[k + 2..] == files[1..][k + 1..];
      assert r.left[|r.left| - |rest.left|..] == rest.left;
      assert IsSuffix(files[(k + 1) + 1..], r.left);
    }
  }

  // ---------------------------------------------------------------------
  // The connector's operations on the volume's top level

  /** `create(name)`: `Mkdir("/" + name)`. */
  function Create(entries: seq<Node>, name: string, now: Time, f: Faults): (c: Change<()>)
    ensures c.result.Err? <==> Subdir(name) in f.mkdir || Find(entries, name).Some?
    ensures c.result.Err? ==> c.entries == entries && c.result.error == RemoteFailed(Mkdir("/" + name))
    ensures c.result.Ok? ==> c.entries == entries + [Node(name, true, now, [])]
  {
    MkdirEntry(entries, name, now, f)
  }

  /** `list()`: every entry of the volume's top level, unfiltered. */
  function List(entries: seq<Node>, f: Faults): (r: Result<seq<Node>>)
    ensures r.Ok? <==> "." !in f.open && "." !in f.readdir
    ensures r.Ok? ==> r.value == entries
  {
    ReadTop(entries, f)
  }

  /** `get(name)`: `Stat("/" + name)`, whose error is passed on, and an error
      when the entry is not a directory. */
  function Get(entries: seq<Node>, name: string, f: Faults): (r: Result<Node>)
    ensures r.Ok? <==> Subdir(name) !in f.stat && Find(entries, name).Some? && entries[Find(entries, name).value].isDir
    ensures r.Ok? ==> r.value == entries[Find(entries, name).value] && r.value.name == name
    ensures (Subdir(name) in f.stat || Find(entries, name).None?) ==> r == Err(RemoteFailed(Stat("/" + name)))
    ensures r.Err? && Subdir(name) !in f.stat && Find(entries, name).Some? ==> r == Err(RemoteNotDirectory(name))
  {
    match StatEntry(entries, name, f)
    case Err(e) => Err(e)
    case Ok(stat) => if !stat.isDir then Err(RemoteNotDirectory(name)) else Ok(stat)
  }

  /** `remove(name)`: `removeAll("/" + name)`. An absent name fails at the
      first `Open`. The volume keeps whatever the removal left. */
  function Remove(entries: seq<Node>, name: string, f: Faults): (r: Removal<seq<Node>>)
    ensures r.ops != [] && r.ops[0] == Open("/" + name)
    ensures Find(entries, name).None? ==> r == Removal(entries, Some(RemoteFailed(Open("/" + name))), [Open("/" + name)])
    ensures Find(entries, name).Some? ==>
      var i := Find(entries, name).value;
      var sub := RemoveAll("/" + name, entries[i], f);
      && r.err == sub.err
      && r.left == entries[..i] + AsSeq(sub.left) + entries[i + 1..]
  {
    var path := Subdir(name);
    match Find(entries, name)
    case None => Removal(entries, Some(RemoteFailed(Open(path))), [Open(path)])
    case Some(i) =>
      var sub := RemoveAll(path, entries[i], f);
      Removal(entries[..i] + AsSeq(sub.left) + entries[i + 1..], sub.err, sub.ops)
  }

  /** Removing an existing directory with no failing call takes exactly that
      entry off the volume's top level. */
  lemma RemoveNoFaults(entries: seq<Node>, name: string)
    requires Find(entries, name).Some? && entries[Find(entries, name).value].isDir
    ensures Remove(entries, name, NoFaults).err.None?
    ensures var i := Find(entries, name).value;
      Remove(entries, name, NoFaults).left == entries[..i] + entries[i + 1..]
  {
    var i := Find(entries, name).value;
    RemoveAllNoFaults(Subdir(name), entries[i]);
  }

  /** A directory `create` made is what `get` then returns. */
  lemma CreateThenGet(entries: seq<Node>, name: string, now: Time, f: Faults)
    requires Subdir(name) !in f.stat
    requires Create(entries, name, now, f).result.Ok?
    ensures Get(Create(entries, name, now, f).entries, name, f) == Ok(Node(name, true, now, []))
  {
    FindAppended(entries, Node(name, true, now, []));
  }

  // ---------------------------------------------------------------------
  // Mount helpers

  /** The outcome of running a helper whose exit status is `ok`. */
  function Exec(argv: seq<string>, ok: bool): (r: Result<()>)
    ensures r.Ok? <==> ok
    ensures r.Err? ==> r.error == ExecFailed(argv)
  {
    if ok then Ok(()) else Err(ExecFailed(argv))
  }

  /** `mountWithGlusterfs(mountpoint, name)`: one helper run; its error is
      returned unchanged. */
  function MountWithGlusterfs(hosts: seq<string>, volume: string, mountpoint: string, name: string, ok: bool): (r: (seq<string>, Result<()>))
    ensures |r.0| == 6 + 2 * |hosts|
    ensures ParseGlusterfsArgv(r.0) == Some(GlusterfsRequest(hosts, volume, "/" + name, mountpoint))
    ensures r.1.Ok? <==> ok
  {
    var argv := GlusterfsArgv(hosts, volume, Subdir(name), mountpoint);
    GlusterfsArgvRoundTrip(GlusterfsRequest(hosts, volume, Subdir(name), mountpoint));
    (argv, Exec(argv, ok))
  }

  /** `mountWithMount(mountpoint, name)` with `pick` for the random server index. */
  function MountWithMount(hosts: seq<string>, volume: string, mountpoint: string, name: string, pick: nat, ok: bool): (r: (seq<string>, Result<()>))
    requires pick < |hosts|
    ensures r.0 == ["mount", "-t", "glusterfs", hosts[pick] + ":/" + volume + "/" + name, mountpoint]
    ensures r.1.Ok? <==> ok
  {
    var argv := MountArgv(hosts, volume, name, mountpoint, pick);
    (argv, Exec(argv, ok))
  }

  /** `unmount(mountpoint)`. */
  function Unmount(mountpoint: string, ok: bool): (r: (seq<string>, Result<()>))
    ensures r.0 == ["umount", mountpoint]
    ensures r.1.Ok? <==> ok
  {
    var argv := UmountArgv(mountpoint);
    (argv, Exec(argv, ok))
  }
}
