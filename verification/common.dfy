/** Shared vocabulary of the glusterfs volume plugin model: result wrappers,
    the error taxonomy, the driver configuration, the outcomes the local host
    reports during one request, and the shape of a registry operation's
    outcome (new state, result, helper processes executed). */
module Common {

  datatype Option<+T> = None | Some(value: T)

  /** A Go `(value, error)` pair: exactly one of the two is meaningful. */
  datatype Result<+T> = Ok(value: T) | Err(error: Error)

  /** Timestamps are opaque; RFC 3339 formatting is not modelled. */
  type Time = int

  /** Go's zero `time.Time`, the value of every `createdAt` the drivers never assign. */
  const ZeroTime: Time := 0

  /** A call into the remote gluster volume (gfapi), named by the path it addresses. */
  datatype RemoteOp =
    | Open(path: string)
    | Readdir(path: string)
    | Stat(path: string)
    | Mkdir(path: string)
    | Rmdir(path: string)
    | Unlink(path: string)

  datatype Error =
    | PathNotExist(path: string)          // os.Lstat's not-exist error
    | LstatFailed(path: string)           // any other os.Lstat error
    | MkdirAllFailed(path: string)
    | MountpointNotDirectory(path: string)
    | ExecFailed(argv: seq<string>)       // a helper process exited non-zero
    | VolumeNotFound(name: string)
    | NoActiveConnections(name: string)
    | UnknownClient(name: string, id: string)
    | NotMounted(name: string)
    | NotSupported(operation: string)
    | ConnectFailed                       // gfapi Init or Mount failed
    | RemoteFailed(op: RemoteOp)          // a gfapi call on the volume failed
    | RemoteNotDirectory(name: string)

  /** A volume as reported to the container host. An unset `CreatedAt` is
      None and an unset `Mountpoint` is the empty string. */
  datatype Volume = Volume(name: string, createdAt: Option<Time>, mountpoint: string)

  /** The capability scope a driver advertises. */
  datatype Scope = Global | Local

  /** Driver configuration: the local root under which mountpoints live, the
      gluster volume identifier and its ordered list of servers. */
  datatype Config = Config(root: string, volume: string, hosts: seq<string>)

  /** What os.Lstat reports about a mountpoint. */
  datatype LstatOutcome = NotExist | IsDir | NotDir | LstatError

  /** The outcomes of the local calls one Mount or Unmount request may make:
      os.Lstat, os.MkdirAll, the `glusterfs` mount helper and the `umount` helper. */
  datatype Host = Host(lstat: LstatOutcome, mkdirOk: bool, mountOk: bool, umountOk: bool)

  /** A registry operation's effect: the registry afterwards, the value or
      error returned, and the argument vectors of the helper processes run,
      in order. */
  datatype Outcome<S, +T> = Outcome(state: S, result: Result<T>, execs: seq<seq<string>>)
}
