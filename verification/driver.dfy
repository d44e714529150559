/** driver.go: the glusterfs driver that mounts through the `glusterfs` FUSE
    helper and answers Get for tracked volumes from its registry. */
module GlusterDriver {
  import opened Common
  import opened Paths
  import opened Helpers
  import opened ActiveMounts
  import opened Remote

  // ---------------------------------------------------------------------
  // Mount

  /** The `err` Mount tests after running the helper. The not-exist error of
      os.Lstat survives a successful MkdirAll, whose own error is bound by a
      shadowing `:=`, and the helper's error is discarded. */
  function StaleLstatError(lstat: LstatOutcome, mountpoint: string): (e: Option<Error>)
    ensures e.None? <==> lstat == IsDir || lstat == NotDir
  {
    match lstat
    case NotExist => Some(PathNotExist(mountpoint))
    case LstatError => Some(LstatFailed(mountpoint))
    case _ => None
  }

  /** True when Mount runs the mount helper: MkdirAll did not fail, the
      mountpoint is not a non-directory, and either the volume has no
      connections or Lstat failed in a way other than not-exist. */
  predicate AttemptsMount(reg: Registry, name: string, host: Host) {
    && !(host.lstat == NotExist && !host.mkdirOk)
    && host.lstat != NotDir
    && (Connections(reg, name) == 0 || host.lstat == LstatError)
  }

  /** driver.go Mount, as written. */
  function Mount(cfg: Config, reg: Registry, name: string, id: string, host: Host): (o: Outcome<Registry, string>)
    ensures name in o.state
    ensures name !in reg ==> o.state[name].mountpoint == Mountpoint(cfg.root, name) && o.state[name].createdAt == ZeroTime
    ensures name !in reg && o.result.Err? ==> o.state[name] == NewEntry(Mountpoint(cfg.root, name))
    ensures name in reg && o.result.Err? ==> o.state[name] == reg[name]
    ensures o.result.Ok? ==>
      && o.result.value == Mountpoint(cfg.root, name)
      && o.state[name].connections == Connections(reg, name) + 1
      && ClientCount(o.state[name].ids, id) == (if name in reg then ClientCount(reg[name].ids, id) else 0) + 1
    ensures o.result.Ok? ==> var t := Track(reg, name, Mountpoint(cfg.root, name))[name];
      && o.state[name].ids == t.ids[id := ClientCount(t.ids, id) + 1]
      && o.state[name].createdAt == t.createdAt
      && o.state[name].mountpoint == (if AttemptsMount(reg, name, host) then Mountpoint(cfg.root, name) else t.mountpoint)
    ensures o.result.Ok? <==>
      host.lstat == IsDir || (host.lstat == NotExist && host.mkdirOk && Connections(reg, name) != 0)
    ensures host.lstat == NotDir ==> o.result == Err(MountpointNotDirectory(Mountpoint(cfg.root, name)))
  {
    var mp := Mountpoint(cfg.root, name);
    var reg1 := Track(reg, name, mp);
    var v := reg1[name];
    if host.lstat == NotExist && !host.mkdirOk then Outcome(reg1, Err(MkdirAllFailed(mp)), [])
    else
      // best-effort cleanup of a mountpoint Lstat cannot read; its result is ignored
      var cleanup := if host.lstat == LstatError then [UmountArgv(mp)] else [];
      var shouldMount := v.connections == 0 || host.lstat == LstatError;
      if host.lstat == NotDir then Outcome(reg1, Err(MountpointNotDirectory(mp)), cleanup)
      else if shouldMount then
        var execs := cleanup + [MountArgvFor(cfg, name, mp)];
        match StaleLstatError(host.lstat, mp)
        case Some(err) => Outcome(reg1, Err(err), execs)
        case None => Outcome(reg1[name := Acquire(v.(mountpoint := mp), id)], Ok(mp), execs)
      else Outcome(reg1[name := Acquire(v, id)], Ok(mp), cleanup)
  }

  /** Mount changes no entry but the one of the volume it mounts. */
  lemma MountTouchesOnlyName(cfg: Config, reg: Registry, name: string, id: string, host: Host)
    ensures SameExcept(reg, Mount(cfg, reg, name, id, host).state, name)
  {
    var reg1 := Track(reg, name, Mountpoint(cfg.root, name));
    var s := Mount(cfg, reg, name, id, host).state;
    assert s == reg1 || s == reg1[name := s[name]];
    forall n | n in reg.Keys + s.Keys && n != name
      ensures n in reg && n in s && reg[n] == s[n]
    {
      assert n in reg1 && reg1[n] == reg[n];
    }
  }

  /** Exactly which helpers Mount runs, each at most once: a cleanup
      `umount` exactly when Lstat failed with an error other than not-exist,
      followed by the mount helper exactly when AttemptsMount holds. */
  lemma MountExecs(cfg: Config, reg: Registry, name: string, id: string, host: Host)
    ensures var o := Mount(cfg, reg, name, id, host);
      var mp := Mountpoint(cfg.root, name);
      o.execs == (if host.lstat == LstatError then [UmountArgv(mp)] else [])
        + (if AttemptsMount(reg, name, host) then [MountArgvFor(cfg, name, mp)] else [])
  {
  }

  /** The error each failure of Mount returns: the MkdirAll error when the
      mountpoint cannot be created, and, once the helper has run, the error
      Lstat returned before it (StaleLstatError), whatever the helper did. */
  lemma MountErrors(cfg: Config, reg: Registry, name: string, id: string, host: Host)
    ensures var o := Mount(cfg, reg, name, id, host);
      var mp := Mountpoint(cfg.root, name);
      && (host.lstat == NotExist && !host.mkdirOk ==> o.result == Err(MkdirAllFailed(mp)))
      && (host.lstat == LstatError ==> o.result == Err(LstatFailed(mp)))
      && (AttemptsMount(reg, name, host) && StaleLstatError(host.lstat, mp).Some? ==>
            o.result == Err(StaleLstatError(host.lstat, mp).value))
  {
  }

  /** Mount keeps the invariant the source maintains. */
  lemma MountPreservesInv(cfg: Config, reg: Registry, name: string, id: string, host: Host)
    requires Inv(cfg.root, reg)
    ensures Inv(cfg.root, Mount(cfg, reg, name, id, host).state)
  {
    var mp := Mountpoint(cfg.root, name);
    var reg1 := Track(reg, name, mp);
    var v := reg1[name];
    assert EntryInv(cfg.root, name, NewEntry(mp));
    InvUpdate(cfg.root, reg, name, NewEntry(mp));
    assert EntryInv(cfg.root, name, v);
    var s := Mount(cfg, reg, name, id, host).state;
    if (host.lstat == NotExist && !host.mkdirOk) || host.lstat == NotDir {
      assert s == reg1;
    } else if v.connections == 0 || host.lstat == LstatError {
      if StaleLstatError(host.lstat, mp).None? {
        assert v.(mountpoint := mp) == v;
        AcquirePreservesEntryInv(cfg.root, name, v, id);
        InvUpdate(cfg.root, reg1, name, Acquire(v, id));
      }
    } else {
      AcquirePreservesEntryInv(cfg.root, name, v, id);
      InvUpdate(cfg.root, reg1, name, Acquire(v, id));
    }
  }

  /** Mount also keeps the counting invariant `connections == sum(ids)`. */
  lemma MountPreservesValid(cfg: Config, reg: Registry, name: string, id: string, host: Host)
    requires AllValid(reg)
    ensures AllValid(Mount(cfg, reg, name, id, host).state)
  {
    var mp := Mountpoint(cfg.root, name);
    var reg1 := Track(reg, name, mp);
    var v := reg1[name];
    assert Valid(NewEntry(mp));
    AllValidUpdate(reg, name, NewEntry(mp));
    var s := Mount(cfg, reg, name, id, host).state;
    if (host.lstat == NotExist && !host.mkdirOk) || host.lstat == NotDir {
      assert s == reg1;
    } else if v.connections == 0 || host.lstat == LstatError {
      if StaleLstatError(host.lstat, mp).None? {
        AcquirePreservesValid(v.(mountpoint := mp), id);
        AllValidUpdate(reg1, name, Acquire(v.(mountpoint := mp), id));
      }
    } else {
      AcquirePreservesValid(v, id);
      AllValidUpdate(reg1, name, Acquire(v, id));
    }
  }

  /** The mount helper's exit status has no effect on Mount, and neither has
      the exit status of the cleanup umount. */
  lemma MountIgnoresHelperResults(cfg: Config, reg: Registry, name: string, id: string, host: Host, mountOk: bool, umountOk: bool)
    ensures Mount(cfg, reg, name, id, host.(mountOk := mountOk, umountOk := umountOk)) == Mount(cfg, reg, name, id, host)
  {
  }

  /** The first Mount of an untracked volume whose mountpoint is a directory
      reports success even when the mount helper fails. */
  lemma MountSucceedsDespiteFailedHelper(cfg: Config, name: string, id: string)
    ensures var o := Mount(cfg, map[], name, id, Host(IsDir, true, false, true));
      && o.execs == [MountArgvFor(cfg, name, Mountpoint(cfg.root, name))]
      && o.result == Ok(Mountpoint(cfg.root, name))
      && o.state[name].connections == 1
  {
  }

  /** The first Mount of a volume whose mountpoint does not exist yet creates
      it and runs the mount helper successfully, then returns the stale
      not-exist error and records no connection. */
  lemma FreshMountpointMountFails(cfg: Config, name: string, id: string)
    ensures var o := Mount(cfg, map[], name, id, Host(NotExist, true, true, true));
      && o.execs == [MountArgvFor(cfg, name, Mountpoint(cfg.root, name))]
      && o.result == Err(PathNotExist(Mountpoint(cfg.root, name)))
      && o.state[name] == NewEntry(Mountpoint(cfg.root, name))
  {
  }

  /** Mount as evidently intended: the error checked after the helper runs is
      the helper's own. */
  function MountIntended(cfg: Config, reg: Registry, name: string, id: string, host: Host): (o: Outcome<Registry, string>)
    ensures name in o.state
    ensures o.result.Err? ==> o.state[name] == Track(reg, name, Mountpoint(cfg.root, name))[name]
    ensures o.result.Ok? ==> o.state[name].connections == Connections(reg, name) + 1
    ensures MountArgvFor(cfg, name, Mountpoint(cfg.root, name)) in o.execs <==> AttemptsMount(reg, name, host)
    ensures o.result.Ok? <==>
      && !(host.lstat == NotExist && !host.mkdirOk)
      && host.lstat != NotDir
      && (AttemptsMount(reg, name, host) ==> host.mountOk)
  {
    var mp := Mountpoint(cfg.root, name);
    var reg1 := Track(reg, name, mp);
    var v := reg1[name];
    if host.lstat == NotExist && !host.mkdirOk then Outcome(reg1, Err(MkdirAllFailed(mp)), [])
    else
      var cleanup := if host.lstat == LstatError then [UmountArgv(mp)] else [];
      var shouldMount := v.connections == 0 || host.lstat == LstatError;
      if host.lstat == NotDir then Outcome(reg1, Err(MountpointNotDirectory(mp)), cleanup)
      else if shouldMount then
        var argv := MountArgvFor(cfg, name, mp);
        if !host.mountOk then Outcome(reg1, Err(ExecFailed(argv)), cleanup + [argv])
        else Outcome(reg1[name := Acquire(v.(mountpoint := mp), id)], Ok(mp), cleanup + [argv])
      else Outcome(reg1[name := Acquire(v, id)], Ok(mp), cleanup)
  }

  /** The corrected Mount runs the same helpers as the one as written, and
      differs from it only when the helper runs and either fails or follows
      a fresh mountpoint. */
  lemma MountIntendedAgrees(cfg: Config, reg: Registry, name: string, id: string, host: Host)
    ensures MountIntended(cfg, reg, name, id, host).execs == Mount(cfg, reg, name, id, host).execs
    ensures !AttemptsMount(reg, name, host) || (host.lstat == IsDir && host.mountOk) ==>
      MountIntended(cfg, reg, name, id, host) == Mount(cfg, reg, name, id, host)
  {
  }

  /** The entry a corrected Mount records after running the helper
      successfully: the tracked entry, mounted at `root/name`, acquired. */
  lemma MountIntendedAttemptEntry(cfg: Config, reg: Registry, name: string, id: string, host: Host)
    requires AttemptsMount(reg, name, host) && host.mountOk
    ensures var mp := Mountpoint(cfg.root, name);
      MountIntended(cfg, reg, name, id, host).state[name] == Acquire(Track(reg, name, mp)[name].(mountpoint := mp), id)
  {
  }

  /** A success of the corrected Mount only acquires, as for Mount. */
  lemma MountIntendedOnlyAcquires(cfg: Config, reg: Registry, name: string, id: string, host: Host)
    ensures var o := MountIntended(cfg, reg, name, id, host);
      var t := Track(reg, name, Mountpoint(cfg.root, name))[name];
      o.result.Ok? ==>
        && o.result.value == Mountpoint(cfg.root, name)
        && o.state[name].ids == t.ids[id := ClientCount(t.ids, id) + 1]
        && o.state[name].createdAt == t.createdAt
        && o.state[name].mountpoint == (if AttemptsMount(reg, name, host) then Mountpoint(cfg.root, name) else t.mountpoint)
  {
    if !AttemptsMount(reg, name, host) {
      MountIntendedAgrees(cfg, reg, name, id, host);
    } else if host.mountOk {
      MountIntendedAttemptEntry(cfg, reg, name, id, host);
    }
  }

  /** The corrected Mount, too, changes only the mounted volume's entry. */
  lemma MountIntendedTouchesOnlyName(cfg: Config, reg: Registry, name: string, id: string, host: Host)
    ensures SameExcept(reg, MountIntended(cfg, reg, name, id, host).state, name)
  {
    var reg1 := Track(reg, name, Mountpoint(cfg.root, name));
    var s := MountIntended(cfg, reg, name, id, host).state;
    assert s == reg1 || s == reg1[name := s[name]];
    forall n | n in reg.Keys + s.Keys && n != name
      ensures n in reg && n in s && reg[n] == s[n]
    {
      assert n in reg1 && reg1[n] == reg[n];
    }
  }

  /** The corrected Mount keeps the counting invariant `connections == sum(ids)`. */
  lemma MountIntendedPreservesValid(cfg: Config, reg: Registry, name: string, id: string, host: Host)
    requires AllValid(reg)
    ensures AllValid(MountIntended(cfg, reg, name, id, host).state)
  {
    var mp := Mountpoint(cfg.root, name);
    var reg1 := Track(reg, name, mp);
    var v := reg1[name];
    assert Valid(NewEntry(mp));
    AllValidUpdate(reg, name, NewEntry(mp));
    var s := MountIntended(cfg, reg, name, id, host).state;
    if (host.lstat == NotExist && !host.mkdirOk) || host.lstat == NotDir {
      assert s == reg1;
    } else if v.connections == 0 || host.lstat == LstatError {
      if host.mountOk {
        AcquirePreservesValid(v.(mountpoint := mp), id);
        AllValidUpdate(reg1, name, Acquire(v.(mountpoint := mp), id));
      }
    } else {
      AcquirePreservesValid(v, id);
      AllValidUpdate(reg1, name, Acquire(v, id));
    }
  }

  /** With the correction, a Mount that ran the helper succeeds exactly when
      the helper did, so an acquisition is recorded only for a volume the
      helper mounted. As written, a failed helper can still be reported as a
      success (MountSucceedsDespiteFailedHelper). */
  lemma MountIntendedRecordsOnlyMounted(cfg: Config, reg: Registry, name: string, id: string, host: Host)
    requires AttemptsMount(reg, name, host)
    ensures MountIntended(cfg, reg, name, id, host).result.Ok? <==> host.mountOk
  {
  }

  // ---------------------------------------------------------------------
  // Facade

  /** driver.go Get: a tracked volume is answered from its entry without
      touching the remote volume; otherwise the remote entry `/name` is
      stat'ed and must be a directory. */
  function Get(reg: Registry, name: string, entries: seq<Node>, f: Faults): (r: Result<Volume>)
    ensures name !in reg ==>
      (r.Ok? <==> !f.connectFails && StatEntry(entries, name, f).Ok? && StatEntry(entries, name, f).value.isDir)
    ensures name !in reg && r.Ok? ==> r.value.name == name && r.value.mountpoint == "" && r.value.createdAt.Some?
    ensures name !in reg && r.Ok? ==> exists i | 0 <= i < |entries| ::
      entries[i].name == name && entries[i].isDir && r.value.createdAt == Some(entries[i].modTime)
  {
    if name in reg then
      Ok(Volume(name, Some(reg[name].createdAt), reg[name].mountpoint))
    else if f.connectFails then Err(ConnectFailed)
    else match StatEntry(entries, name, f)
      case Err(e) => Err(e)
      case Ok(stat) =>
        if !stat.isDir then Err(RemoteNotDirectory(name))
        else Ok(Volume(stat.name, Some(stat.modTime), ""))
  }

  /** For a tracked volume Get reports its mountpoint `root/name` and the
      entry's creation time, which Mount never sets, whatever the remote
      volume holds or whichever of its calls would fail. */
  lemma GetTracked(root: string, reg: Registry, name: string, entries: seq<Node>, f: Faults)
    requires Inv(root, reg) && name in reg
    ensures Get(reg, name, entries, f) == Ok(Volume(name, Some(ZeroTime), Mountpoint(root, name)))
  {
    assert EntryInv(root, name, reg[name]);
  }

  /** driver.go `findVolume`: the registry's view of a volume. */
  function FindVolume(reg: Registry, name: string): (r: Option<Volume>)
    ensures r.Some? <==> name in reg
    ensures r.Some? ==> r.value.name == name && r.value.mountpoint == reg[name].mountpoint && r.value.createdAt.None?
  {
    if name !in reg then None else Some(Volume(name, None, reg[name].mountpoint))
  }

  /** driver.go `volume(stat)`: only a directory makes a volume. */
  function VolumeOf(stat: Node): (r: Result<Volume>)
    ensures r.Ok? <==> stat.isDir
    ensures r.Ok? ==> r.value == Volume(stat.name, Some(stat.modTime), "")
    ensures r.Err? ==> r.error == RemoteNotDirectory(stat.name)
  {
    if !stat.isDir then Err(RemoteNotDirectory(stat.name))
    else Ok(Volume(stat.name, Some(stat.modTime), ""))
  }

  /** driver.go List: the visible directories of the volume's top level. */
  function List(entries: seq<Node>, f: Faults): (r: Result<seq<Volume>>)
    ensures r.Ok? <==> !f.connectFails && "." !in f.open && "." !in f.readdir
    ensures r.Ok? ==> forall v | v in r.value ::
      exists i | 0 <= i < |entries| :: entries[i].isDir && !Hidden(entries[i].name) && entries[i].name == v.name
    ensures r.Ok? ==> forall i | 0 <= i < |entries| && entries[i].isDir && !Hidden(entries[i].name) ::
      Volume(entries[i].name, None, "") in r.value
  {
    if f.connectFails then Err(ConnectFailed)
    else match ReadTop(entries, f)
      case Err(e) => Err(e)
      case Ok(files) => Ok(VisibleVolumes(files))
  }

  /** driver.go Path: `root/name`, tracked or not; for a tracked volume it
      agrees with the entry, and it names the volume as its last segment. */
  function Path(cfg: Config, reg: Registry, name: string): (r: Result<string>)
    ensures r.Ok? && r.value == Mountpoint(cfg.root, name)
    ensures name in reg && EntryInv(cfg.root, name, reg[name]) ==> r.value == reg[name].mountpoint
    ensures Segment(name) ==> LastSegment(r.value) == name
  {
    assert Segment(name) ==> LastSegment(Mountpoint(cfg.root, name)) == name by {
      if Segment(name) { MountpointLastSegment(cfg.root, name); }
    }
    Ok(Mountpoint(cfg.root, name))
  }

  /** driver.go Create: `Mkdir("/name")` after connecting. */
  function Create(entries: seq<Node>, name: string, now: Time, f: Faults): (c: Change<()>)
    ensures c.result.Ok? <==> !f.connectFails && Subdir(name) !in f.mkdir && Find(entries, name).None?
    ensures c.result.Ok? ==> c.entries == entries + [Node(name, true, now, [])]
    ensures c.result.Err? ==> c.entries == entries
  {
    if f.connectFails then Change(entries, Err(ConnectFailed))
    else MkdirEntry(entries, name, now, f)
  }

  /** driver.go Remove: a single `Rmdir("/name")` after connecting, so only
      an empty directory can be removed; the registry is not consulted. */
  function Remove(entries: seq<Node>, name: string, f: Faults): (c: Change<()>)
    ensures c.result.Ok? <==>
      && !f.connectFails
      && Subdir(name) !in f.rmdir
      && Find(entries, name).Some?
      && entries[Find(entries, name).value].isDir
      && !HasRealEntries(entries[Find(entries, name).value].children)
    ensures c.result.Ok? ==> var i := Find(entries, name).value;
      c.entries == entries[..i] + entries[i + 1..]
    ensures c.result.Err? ==> c.entries == entries
  {
    if f.connectFails then Change(entries, Err(ConnectFailed))
    else RmdirEntry(entries, name, f)
  }

  /** A volume Create made is found by Get, as a directory stamped with the
      creation time, as long as the registry does not track it and its stat
      does not fail. */
  lemma CreateThenGet(reg: Registry, entries: seq<Node>, name: string, now: Time, f: Faults)
    requires name !in reg && Subdir(name) !in f.stat
    requires Create(entries, name, now, f).result.Ok?
    ensures Get(reg, name, Create(entries, name, now, f).entries, f) == Ok(Volume(name, Some(now), ""))
  {
    FindAppended(entries, Node(name, true, now, []));
  }

  /** Removing a volume Create has just made restores the volume's top
      level. */
  lemma CreateThenRemove(entries: seq<Node>, name: string, now: Time)
    requires Create(entries, name, now, NoFaults).result.Ok?
    ensures Remove(Create(entries, name, now, NoFaults).entries, name, NoFaults) == Change(entries, Ok(()))
  {
    var n := Node(name, true, now, []);
    FindAppended(entries, n);
    var grown := entries + [n];
    assert grown[|entries|] == n;
    assert !HasRealEntries(n.children);
    assert grown[..|entries|] + grown[|entries| + 1..] == entries;
  }

  function Capabilities(): Scope {
    Global
  }
}
