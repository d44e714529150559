/** minio/s3.go: a driver variant that keeps the same mount registry but has
    no remote namespace behind its facade. Create and Remove are refused,
    List is empty, and Get and Path answer from the registry alone. Its
    Mount is GlusterDriver.Mount and its Unmount is ActiveMounts.Unmount. */
module MinioDriver {
  import opened Common
  import opened Paths
  import opened ActiveMounts
  import GlusterDriver
  import GlusterMain

  /** minio/s3.go Create: always refused; the registry is untouched and no
      helper runs. */
  function Create(reg: Registry, name: string): (o: Outcome<Registry, ()>)
    ensures o.state == reg && o.execs == []
    ensures o.result.Err? && o.result.error.NotSupported?
  {
    Outcome(reg, Err(NotSupported("create")), [])
  }

  /** minio/s3.go Remove: always refused; the registry is untouched and no
      helper runs. */
  function Remove(reg: Registry, name: string): (o: Outcome<Registry, ()>)
    ensures o.state == reg && o.execs == []
    ensures o.result.Err? && o.result.error.NotSupported?
  {
    Outcome(reg, Err(NotSupported("remove")), [])
  }

  /** minio/s3.go List: no volume is ever listed, tracked or not. */
  function List(reg: Registry): (r: Result<seq<Volume>>)
    ensures r.Ok? && |r.value| == 0
  {
    Ok([])
  }

  /** minio/s3.go Get: a tracked volume is reported with its creation time
      and mountpoint; an untracked one gives an empty response, not an
      error. */
  function Get(reg: Registry, name: string): (r: Result<Option<Volume>>)
    ensures r.Ok?
    ensures r.value.Some? <==> name in reg
    ensures r.value.Some? ==>
      r.value.value == Volume(name, Some(reg[name].createdAt), reg[name].mountpoint)
  {
    if name in reg then Ok(Some(Volume(name, Some(reg[name].createdAt), reg[name].mountpoint)))
    else Ok(None)
  }

  /** minio/s3.go Path: the tracked entry's mountpoint, or an error for a
      volume that is not tracked. */
  function Path(reg: Registry, name: string): (r: Result<string>)
    ensures r.Ok? <==> name in reg
    ensures r.Ok? ==> r.value == reg[name].mountpoint
    ensures r.Err? ==> r.error == NotMounted(name)
  {
    if name in reg then Ok(reg[name].mountpoint) else Err(NotMounted(name))
  }

  /** Get reports a volume exactly when Path finds one, at the same
      mountpoint. */
  lemma GetAgreesWithPath(reg: Registry, name: string)
    ensures Get(reg, name).value.Some? <==> Path(reg, name).Ok?
    ensures Path(reg, name).Ok? ==> Get(reg, name).value.value.mountpoint == Path(reg, name).value
  {
  }

  /** Under the entry invariant, a tracked volume's mountpoint is
      `root/name` and its creation time is the zero time Mount leaves. */
  lemma GetTracked(root: string, reg: Registry, name: string)
    requires name in reg && EntryInv(root, name, reg[name])
    ensures Get(reg, name) == Ok(Some(Volume(name, Some(ZeroTime), Mountpoint(root, name))))
  {
  }

  /** For a tracked volume this Path agrees with the glusterfs driver's;
      for an untracked one the glusterfs driver still answers `root/name`
      while this one refuses. */
  lemma PathAgainstGlusterDriver(cfg: Config, reg: Registry, name: string)
    requires Inv(cfg.root, reg)
    ensures name in reg ==> Path(reg, name) == GlusterDriver.Path(cfg, reg, name)
    ensures name !in reg ==> Path(reg, name).Err? && GlusterDriver.Path(cfg, reg, name).Ok?
  {
    if name in reg {
      assert EntryInv(cfg.root, name, reg[name]);
    }
  }

  /** Mount registers the volume before any check, so after ANY Mount,
      failed ones included, Path answers with `root/name`. */
  lemma PathAfterMount(cfg: Config, reg: Registry, name: string, id: string, host: Host)
    requires Inv(cfg.root, reg)
    ensures Path(GlusterDriver.Mount(cfg, reg, name, id, host).state, name) == Ok(Mountpoint(cfg.root, name))
  {
    var s := GlusterDriver.Mount(cfg, reg, name, id, host).state;
    GlusterDriver.MountPreservesInv(cfg, reg, name, id, host);
    assert EntryInv(cfg.root, name, s[name]);
  }

  /** Once the last client key is released and `umount` succeeds, Path
      refuses the volume; when `umount` fails the volume stays reachable. */
  lemma PathAfterUnmount(reg: Registry, name: string, id: string, umountOk: bool)
    requires CanRelease(reg, name, id)
    ensures var released := ReleaseAsWritten(reg[name], id);
      var p := Path(Unmount(reg, name, id, umountOk).state, name);
      && (p == Err(NotMounted(name)) <==> |released.ids| == 0 && umountOk)
      && (p.Ok? ==> p.value == reg[name].mountpoint)
  {
  }

  function Capabilities(): Scope {
    Global
  }

  /** The scope each variant advertises: global for the glusterfs driver
      and this one, local for main.go's. */
  lemma CapabilityScopes()
    ensures GlusterDriver.Capabilities() == Global
    ensures GlusterMain.Capabilities() == Local
    ensures Capabilities() == Global
  {
  }
}
