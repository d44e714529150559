/** main.go: the glusterfs driver variant that checks the mountpoint and runs
    the mount helper only for a volume with no connections, and that answers
    Get from the remote volume alone. Its Unmount is ActiveMounts.Unmount;
    its Path, List, Create and Remove are the ones of GlusterDriver. */
module GlusterMain {
  import opened Common
  import opened Paths
  import opened Helpers
  import opened ActiveMounts
  import opened Remote
  import GlusterDriver

  // ---------------------------------------------------------------------
  // Mount

  /** True when the local checks of a first mount pass: the mountpoint is a
      directory, or did not exist and MkdirAll created it. */
  predicate MountpointReady(host: Host) {
    host.lstat == IsDir || (host.lstat == NotExist && host.mkdirOk)
  }

  /** main.go Mount. A volume with connections is only acquired again; for
      one without, Lstat, MkdirAll and the mount helper run first and each
      failure returns its own error without acquiring. The entry made for
      an untracked name stays in the registry even when Mount fails. */
  function Mount(cfg: Config, reg: Registry, name: string, id: string, host: Host): (o: Outcome<Registry, string>)
    ensures name in o.state
    ensures name !in reg ==> o.state[name].mountpoint == Mountpoint(cfg.root, name)
    ensures o.result.Err? ==> o.state[name] == Track(reg, name, Mountpoint(cfg.root, name))[name]
    ensures o.result.Ok? ==>
      && o.result.value == Mountpoint(cfg.root, name)
      && o.state[name].connections == Connections(reg, name) + 1
      && ClientCount(o.state[name].ids, id) == (if name in reg then ClientCount(reg[name].ids, id) else 0) + 1
    ensures o.result.Ok? <==> Connections(reg, name) != 0 || (MountpointReady(host) && host.mountOk)
    ensures o.execs != [] <==> Connections(reg, name) == 0 && MountpointReady(host)
    ensures o.execs != [] ==> o.execs == [MountArgvFor(cfg, name, Mountpoint(cfg.root, name))]
  {
    var mp := Mountpoint(cfg.root, name);
    var reg1 := Track(reg, name, mp);
    var v := reg1[name];
    if v.connections == 0 then
      if host.lstat == NotExist && !host.mkdirOk then Outcome(reg1, Err(MkdirAllFailed(v.mountpoint)), [])
      else if host.lstat == LstatError then Outcome(reg1, Err(LstatFailed(v.mountpoint)), [])
      else if host.lstat == NotDir then Outcome(reg1, Err(MountpointNotDirectory(v.mountpoint)), [])
      else
        var argv := MountArgvFor(cfg, name, mp);
        if !host.mountOk then Outcome(reg1, Err(ExecFailed(argv)), [argv])
        else Outcome(reg1[name := Acquire(v, id)], Ok(mp), [argv])
    else Outcome(reg1[name := Acquire(v, id)], Ok(mp), [])
  }

  /** A successful Mount only acquires: the client's count goes up by one,
      and every other client's count, the mountpoint and the creation time
      of the entry are those it had (or was given on registration). */
  lemma MountOnlyAcquires(cfg: Config, reg: Registry, name: string, id: string, host: Host)
    ensures var o := Mount(cfg, reg, name, id, host);
      var t := Track(reg, name, Mountpoint(cfg.root, name))[name];
      o.result.Ok? ==>
        && o.state[name].ids == t.ids[id := ClientCount(t.ids, id) + 1]
        && o.state[name].createdAt == t.createdAt
        && o.state[name].mountpoint == t.mountpoint
  {
  }

  /** The error of a failed first mount names its cause: the MkdirAll, the
      Lstat, the non-directory check or the helper, in that order. */
  lemma MountErrors(cfg: Config, reg: Registry, name: string, id: string, host: Host)
    requires Connections(reg, name) == 0
    ensures var r := Mount(cfg, reg, name, id, host).result;
      var mp := Mountpoint(cfg.root, name);
      && (host.lstat == NotExist && !host.mkdirOk ==> r == Err(MkdirAllFailed(Track(reg, name, mp)[name].mountpoint)))
      && (host.lstat == LstatError ==> r == Err(LstatFailed(Track(reg, name, mp)[name].mountpoint)))
      && (host.lstat == NotDir ==> r == Err(MountpointNotDirectory(Track(reg, name, mp)[name].mountpoint)))
      && (MountpointReady(host) && !host.mountOk ==> r == Err(ExecFailed(MountArgvFor(cfg, name, mp))))
  {
  }

  /** Mount changes no entry but the one of the volume it mounts. */
  lemma MountTouchesOnlyName(cfg: Config, reg: Registry, name: string, id: string, host: Host)
    ensures SameExcept(reg, Mount(cfg, reg, name, id, host).state, name)
  {
    var reg1 := Track(reg, name, Mountpoint(cfg.root, name));
    var s := Mount(cfg, reg, name, id, host).state;
    assert s == reg1 || s == reg1[name := s[name]];
    forall n | n in reg.Keys + s.Keys && n != name
      ensures n in reg && n in s && reg[n] == s[n]
    {
      assert n in reg1 && reg1[n] == reg[n];
    }
  }

  /** A failed Mount of an untracked volume leaves behind a tracked entry
      with no connections and no clients. */
  lemma FailedMountLeavesEntry(cfg: Config, reg: Registry, name: string, id: string, host: Host)
    requires name !in reg && !(MountpointReady(host) && host.mountOk)
    ensures var s := Mount(cfg, reg, name, id, host).state;
      name in s && s[name].connections == 0 && s[name].ids == map[]
  {
  }

  /** Mount keeps the invariant the source maintains. */
  lemma MountPreservesInv(cfg: Config, reg: Registry, name: string, id: string, host: Host)
    requires Inv(cfg.root, reg)
    ensures Inv(cfg.root, Mount(cfg, reg, name, id, host).state)
  {
    var mp := Mountpoint(cfg.root, name);
    var reg1 := Track(reg, name, mp);
    var v := reg1[name];
    assert EntryInv(cfg.root, name, NewEntry(mp));
    InvUpdate(cfg.root, reg, name, NewEntry(mp));
    assert EntryInv(cfg.root, name, v);
    var s := Mount(cfg, reg, name, id, host).state;
    if v.connections == 0 && ((host.lstat == NotExist && !host.mkdirOk) || host.lstat == LstatError || host.lstat == NotDir) {
      assert s == reg1;
    } else if v.connections == 0 && !host.mountOk {
      assert s == reg1;
    } else {
      assert s == reg1[name := Acquire(v, id)];
      AcquirePreservesEntryInv(cfg.root, name, v, id);
      InvUpdate(cfg.root, reg1, name, Acquire(v, id));
    }
  }

  /** Mount keeps the counting invariant `connections == sum(ids)`. */
  lemma MountPreservesValid(cfg: Config, reg: Registry, name: string, id: string, host: Host)
    requires AllValid(reg)
    ensures AllValid(Mount(cfg, reg, name, id, host).state)
  {
    var mp := Mountpoint(cfg.root, name);
    var reg1 := Track(reg, name, mp);
    var v := reg1[name];
    assert Valid(NewEntry(mp));
    AllValidUpdate(reg, name, NewEntry(mp));
    var s := Mount(cfg, reg, name, id, host).state;
    if v.connections == 0 && ((host.lstat == NotExist && !host.mkdirOk) || host.lstat == LstatError || host.lstat == NotDir) {
      assert s == reg1;
    } else if v.connections == 0 && !host.mountOk {
      assert s == reg1;
    } else {
      assert s == reg1[name := Acquire(v, id)];
      AcquirePreservesValid(v, id);
      AllValidUpdate(reg1, name, Acquire(v, id));
    }
  }

  /** The first Mount of an untracked volume runs the helper once and
      records one connection of its client. */
  lemma FirstMount(cfg: Config, name: string, a: string, host: Host)
    requires MountpointReady(host) && host.mountOk
    ensures var mp := Mountpoint(cfg.root, name);
      Mount(cfg, map[], name, a, host)
      == Outcome(map[name := Entry(1, mp, ZeroTime, map[a := 1])], Ok(mp), [MountArgvFor(cfg, name, mp)])
  {
    var mp := Mountpoint(cfg.root, name);
    var e1 := Entry(1, mp, ZeroTime, map[a := 1]);
    var empty: Registry := map[];
    assert Track(empty, name, mp) == map[name := NewEntry(mp)];
    var ids0: map<string, int> := map[];
    assert ClientCount(ids0, a) == 0;
    assert ids0[a := 1] == map[a := 1];
    assert Acquire(NewEntry(mp), a) == e1;
    assert map[name := NewEntry(mp)][name := e1] == map[name := e1];
    assert Mount(cfg, empty, name, a, host).state == map[name := NewEntry(mp)][name := e1];
  }

  /** A second client's Mount of a mounted volume runs nothing and only
      counts itself. */
  lemma SecondMount(cfg: Config, name: string, a: string, b: string, host: Host)
    requires a != b
    ensures var mp := Mountpoint(cfg.root, name);
      Mount(cfg, map[name := Entry(1, mp, ZeroTime, map[a := 1])], name, b, host)
      == Outcome(map[name := Entry(2, mp, ZeroTime, map[a := 1, b := 1])], Ok(mp), [])
  {
    var mp := Mountpoint(cfg.root, name);
    var e1 := Entry(1, mp, ZeroTime, map[a := 1]);
    var e2 := Entry(2, mp, ZeroTime, map[a := 1, b := 1]);
    assert Track(map[name := e1], name, mp) == map[name := e1];
    assert ClientCount(e1.ids, b) == 0;
    assert Acquire(e1, b) == e2;
    assert map[name := e1][name := e2] == map[name := e2];
  }

  /** Releasing the first of two clients keeps the mount; releasing the
      second runs `umount` and drops the entry. */
  lemma TwoClientsUnmount(mp: string, name: string, a: string, b: string)
    requires a != b
    ensures var e2 := Entry(2, mp, ZeroTime, map[a := 1, b := 1]);
      var e1 := Entry(1, mp, ZeroTime, map[b := 1]);
      && Unmount(map[name := e2], name, a, true) == Outcome(map[name := e1], Ok(()), [])
      && Unmount(map[name := e1], name, b, true) == Outcome(map[], Ok(()), [UmountArgv(mp)])
  {
    var e2 := Entry(2, mp, ZeroTime, map[a := 1, b := 1]);
    var e1 := Entry(1, mp, ZeroTime, map[b := 1]);
    assert map[a := 1, b := 1] - {a} == map[b := 1];
    assert ReleaseAsWritten(e2, a) == e1;
    assert |e1.ids| == 1;
    assert map[name := e2][name := e1] == map[name := e1];
    var e0 := Entry(0, mp, ZeroTime, map[]);
    assert map[b := 1] - {b} == map[];
    assert ReleaseAsWritten(e1, b) == e0;
    assert map[name := e1] - {name} == map[];
  }

  /** Two clients share one physical mount: A and B mount, A and B unmount.
      The mount helper runs once, `umount` runs once, on the last release,
      and the entry is gone afterwards. */
  lemma TwoClientsShareOneMount(cfg: Config, name: string, a: string, b: string, host: Host)
    requires a != b && MountpointReady(host) && host.mountOk
    ensures
      var mp := Mountpoint(cfg.root, name);
      var m1 := Mount(cfg, map[], name, a, host);
      var m2 := Mount(cfg, m1.state, name, b, host);
      var u1 := Unmount(m2.state, name, a, true);
      var u2 := Unmount(u1.state, name, b, true);
      && m1.execs == [MountArgvFor(cfg, name, mp)] && m2.execs == [] && u1.execs == [] && u2.execs == [UmountArgv(mp)]
      && m1.result.Ok? && m2.result.Ok? && u1.result.Ok? && u2.result.Ok?
      && m2.state[name].connections == 2 && u1.state[name].connections == 1 && name !in u2.state
  {
    FirstMount(cfg, name, a, host);
    SecondMount(cfg, name, a, b, host);
    TwoClientsUnmount(Mountpoint(cfg.root, name), name, a, b);
  }

  // ---------------------------------------------------------------------
  // Facade

  /** main.go `volume(stat)`: a directory makes a volume named after it and
      mounted at `root/name`, with no creation time. */
  function VolumeOf(root: string, stat: Node): (r: Result<Volume>)
    ensures r.Ok? <==> stat.isDir
    ensures r.Ok? ==> r.value.name == stat.name && r.value.createdAt.None?
    ensures r.Ok? ==> r.value.mountpoint == Mountpoint(root, stat.name)
    ensures r.Ok? && Segment(stat.name) ==> LastSegment(r.value.mountpoint) == stat.name
    ensures r.Err? ==> r.error == RemoteNotDirectory(stat.name)
  {
    if !stat.isDir then Err(RemoteNotDirectory(stat.name))
    else
      assert Segment(stat.name) ==> LastSegment(Mountpoint(root, stat.name)) == stat.name by {
        if Segment(stat.name) { MountpointLastSegment(root, stat.name); }
      }
      Ok(Volume(stat.name, None, Mountpoint(root, stat.name)))
  }

  /** main.go Get: never consults the registry; stats `/name` on the remote
      volume and reports it as a volume mounted at `root/name`. */
  function Get(cfg: Config, name: string, entries: seq<Node>, f: Faults): (r: Result<Volume>)
    ensures r.Ok? <==> !f.connectFails && StatEntry(entries, name, f).Ok? && StatEntry(entries, name, f).value.isDir
    ensures r.Ok? ==> r.value.name == name && r.value.createdAt.None?
    ensures f.connectFails ==> r == Err(ConnectFailed)
  {
    if f.connectFails then Err(ConnectFailed)
    else match StatEntry(entries, name, f)
      case Err(e) => Err(e)
      case Ok(stat) => VolumeOf(cfg.root, stat)
  }

  /** The mountpoint Get reports for a volume is the one Path (the same code
      as GlusterDriver.Path) reports, for any registry. */
  lemma GetAgreesWithPath(cfg: Config, reg: Registry, name: string, entries: seq<Node>, f: Faults)
    requires Get(cfg, name, entries, f).Ok?
    ensures Get(cfg, name, entries, f).value.mountpoint == GlusterDriver.Path(cfg, reg, name).value
  {
    assert StatEntry(entries, name, f).value.name == name;
  }

  function Capabilities(): Scope {
    Local
  }
}
