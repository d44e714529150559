/** The remote gluster volume as the drivers see it through gfapi: a tree of
    named entries, and a fault oracle saying which calls fail, by the path
    they address. The gfapi library itself is outside the model. */
module Remote {
  import opened Common
  import opened Paths

  /** A directory entry with its modification time; a directory's listing
      is `children`, which may include the `.` and `..` entries. */
  datatype Node = Node(name: string, isDir: bool, modTime: Time, children: seq<Node>)

  /** The remote calls that fail during one request, by path. `connectFails`
      covers gfapi `Init` and `Mount`. */
  datatype Faults = Faults(
    connectFails: bool,
    open: set<string>, readdir: set<string>, stat: set<string>,
    mkdir: set<string>, rmdir: set<string>, unlink: set<string>)

  const NoFaults: Faults := Faults(false, {}, {}, {}, {}, {}, {})

  /** The new state of the volume's top level and what the call returned. */
  datatype Change<+T> = Change(entries: seq<Node>, result: Result<T>)

  /** The self and parent entries a listing reports. */
  predicate Dot(name: string) {
    name == "." || name == ".."
  }

  /** Position of the first entry called `name`. */
  function Find(entries: seq<Node>, name: string): (r: Option<nat>)
    ensures r.Some? ==> r.value < |entries| && entries[r.value].name == name
    ensures r.Some? ==> forall j | 0 <= j < r.value :: entries[j].name != name
    ensures r.None? ==> forall j | 0 <= j < |entries| :: entries[j].name != name
  {
    if entries == [] then None
    else if entries[0].name == name then Some(0)
    else
      match Find(entries[1..], name)
      case Some(i) => Some(i + 1)
      case None => None
  }

  /** An entry appended under a fresh name is found at the end. */
  lemma {:induction false} FindAppended(entries: seq<Node>, n: Node)
    requires Find(entries, n.name).None?
    ensures Find(entries + [n], n.name) == Some(|entries|)
  {
    if entries != [] {
      assert (entries + [n])[1..] == entries[1..] + [n];
      FindAppended(entries[1..], n);
    }
  }

  /** True when a listing holds anything besides `.` and `..`. */
  predicate HasRealEntries(entries: seq<Node>) {
    exists i | 0 <= i < |entries| :: !Dot(entries[i].name)
  }

  /** `Stat("/" + name)`: fails when the fault oracle says so or nothing of
      that name exists. */
  function StatEntry(entries: seq<Node>, name: string, f: Faults): (r: Result<Node>)
    ensures r.Err? <==> Subdir(name) in f.stat || Find(entries, name).None?
    ensures r.Err? ==> r.error == RemoteFailed(Stat(Subdir(name)))
    ensures r.Ok? ==> r.value in entries && r.value.name == name
  {
    var path := Subdir(name);
    if path in f.stat then Err(RemoteFailed(Stat(path)))
    else match Find(entries, name)
      case None => Err(RemoteFailed(Stat(path)))
      case Some(i) => Ok(entries[i])
  }

  /** `Mkdir("/" + name)`: fails when faulted or when the name is taken,
      otherwise adds an empty directory stamped `now`. */
  function MkdirEntry(entries: seq<Node>, name: string, now: Time, f: Faults): (c: Change<()>)
    ensures c.result.Err? <==> Subdir(name) in f.mkdir || Find(entries, name).Some?
    ensures c.result.Err? ==> c.entries == entries && c.result.error == RemoteFailed(Mkdir(Subdir(name)))
    ensures c.result.Ok? ==> c.entries == entries + [Node(name, true, now, [])]
  {
    var path := Subdir(name);
    if path in f.mkdir || Find(entries, name).Some? then Change(entries, Err(RemoteFailed(Mkdir(path))))
    else Change(entries + [Node(name, true, now, [])], Ok(()))
  }

  /** `Rmdir("/" + name)`: removes the named entry only when it is an empty
      directory and the call is not faulted. */
  function RmdirEntry(entries: seq<Node>, name: string, f: Faults): (c: Change<()>)
    ensures c.result.Ok? <==>
      && Subdir(name) !in f.rmdir
      && Find(entries, name).Some?
      && entries[Find(entries, name).value].isDir
      && !HasRealEntries(entries[Find(entries, name).value].children)
    ensures c.result.Err? ==> c.entries == entries && c.result.error == RemoteFailed(Rmdir(Subdir(name)))
    ensures c.result.Ok? ==> |c.entries| == |entries| - 1
    ensures c.result.Ok? ==> var i := Find(entries, name).value;
      c.entries == entries[..i] + entries[i + 1..]
  {
    var path := Subdir(name);
    if path in f.rmdir then Change(entries, Err(RemoteFailed(Rmdir(path))))
    else match Find(entries, name)
      case None => Change(entries, Err(RemoteFailed(Rmdir(path))))
      case Some(i) =>
        if !entries[i].isDir || HasRealEntries(entries[i].children) then Change(entries, Err(RemoteFailed(Rmdir(path))))
        else Change(entries[..i] + entries[i + 1..], Ok(()))
  }

  /** `Open(".")` then `Readdir(0)` on the volume's top level. */
  function ReadTop(entries: seq<Node>, f: Faults): (r: Result<seq<Node>>)
    ensures r.Ok? <==> "." !in f.open && "." !in f.readdir
    ensures r.Ok? ==> r.value == entries
  {
    if "." in f.open then Err(RemoteFailed(Open(".")))
    else if "." in f.readdir then Err(RemoteFailed(Readdir(".")))
    else Ok(entries)
  }

  /** The List filter of driver.go and main.go: the directories of a listing
      whose name does not start with `.` (`showHidden` is always false), as
      name-only volumes, in listing order. */
  function VisibleVolumes(files: seq<Node>): (vols: seq<Volume>)
    ensures |vols| <= |files|
    ensures forall i | 0 <= i < |files| && files[i].isDir && !Hidden(files[i].name) ::
      Volume(files[i].name, None, "") in vols
    ensures forall v | v in vols ::
      && v.createdAt.None? && v.mountpoint == ""
      && (exists i | 0 <= i < |files| :: files[i].isDir && !Hidden(files[i].name) && files[i].name == v.name)
  {
    if files == [] then []
    else
      var rest := VisibleVolumes(files[1..]);
      assert forall i | 1 <= i < |files| :: files[i] == files[1..][i - 1];
      if files[0].isDir && !Hidden(files[0].name) then [Volume(files[0].name, None, "")] + rest
      else rest
  }

  /** One listing entry gives one volume exactly when it is a visible
      directory. */
  lemma VisibleVolumesSingle(n: Node)
    ensures VisibleVolumes([n]) == if n.isDir && !Hidden(n.name) then [Volume(n.name, None, "")] else []
  {
    assert [n][1..] == [];
  }

  /** The filter works entry by entry: the volumes of a concatenated listing
      are those of each part, in order. With VisibleVolumesSingle this pins
      the result to one volume per visible directory, in listing order. */
  lemma {:induction false} VisibleVolumesAppend(a: seq<Node>, b: seq<Node>)
    ensures VisibleVolumes(a + b) == VisibleVolumes(a) + VisibleVolumes(b)
    decreases |a|
  {
    if a == [] {
      assert a + b == b;
    } else {
      assert (a + b)[1..] == a[1..] + b;
      assert (a + b)[0] == a[0];
      VisibleVolumesAppend(a[1..], b);
    }
  }
}
