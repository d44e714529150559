/** Argument vectors of the helper processes the plugin executes. Process
    execution itself is outside the model: an operation records the argv it
    would run and takes the helper's success as an outcome parameter. */
module Helpers {
  import opened Common
  import opened Paths

  /** One `--volfile-server <host>` pair per host, in order. */
  function ServerFlags(hosts: seq<string>): (flags: seq<string>)
    ensures |flags| == 2 * |hosts|
  {
    if hosts == [] then [] else ["--volfile-server", hosts[0]] + ServerFlags(hosts[1..])
  }

  /** Position `2i` holds the flag and `2i + 1` the i-th host. */
  lemma {:induction false} ServerFlagsLayout(hosts: seq<string>)
    ensures forall i | 0 <= i < |hosts| ::
      ServerFlags(hosts)[2 * i] == "--volfile-server" && ServerFlags(hosts)[2 * i + 1] == hosts[i]
    decreases |hosts|
  {
    if hosts != [] {
      var flags := ServerFlags(hosts);
      var rest := ServerFlags(hosts[1..]);
      ServerFlagsLayout(hosts[1..]);
      forall i | 0 <= i < |hosts|
        ensures flags[2 * i] == "--volfile-server" && flags[2 * i + 1] == hosts[i]
      {
        if i > 0 {
          var j := i - 1;
          assert 2 * i == 2 * j + 2;
          assert flags[2 * i] == rest[2 * j] && flags[2 * i + 1] == rest[2 * j + 1];
          assert hosts[i] == hosts[1..][j];
        }
      }
    }
  }

  /** `glusterfs --volfile-server h1 ... --volfile-id <volume>
      --subdir-mount <subdir> <mountpoint>`: the FUSE mount helper invocation
      of driver.go `mount`, main.go Mount, minio/s3.go `mount` and gfs.go
      `mountWithGlusterfs`. */
  function GlusterfsArgv(hosts: seq<string>, volume: string, subdir: string, mountpoint: string): (argv: seq<string>)
    ensures |argv| == 6 + 2 * |hosts|
    ensures argv[0] == "glusterfs"
    ensures argv[|argv| - 5..] == ["--volfile-id", volume, "--subdir-mount", subdir, mountpoint]
  {
    ["glusterfs"] + ServerFlags(hosts) + ["--volfile-id", volume, "--subdir-mount", subdir, mountpoint]
  }

  /** Every host is passed to the helper, in order, each after its own flag. */
  lemma GlusterfsArgvServers(hosts: seq<string>, volume: string, subdir: string, mountpoint: string)
    ensures var argv := GlusterfsArgv(hosts, volume, subdir, mountpoint);
      forall i | 0 <= i < |hosts| :: argv[1 + 2 * i] == "--volfile-server" && argv[2 + 2 * i] == hosts[i]
  {
    var argv := GlusterfsArgv(hosts, volume, subdir, mountpoint);
    var flags := ServerFlags(hosts);
    ServerFlagsLayout(hosts);
    assert argv[1..1 + |flags|] == flags;
  }

  /** The helper invocation that mounts volume `name` of `cfg` at `mountpoint`. */
  function MountArgvFor(cfg: Config, name: string, mountpoint: string): seq<string> {
    GlusterfsArgv(cfg.hosts, cfg.volume, Subdir(name), mountpoint)
  }

  /** `umount <mountpoint>`. */
  function UmountArgv(mountpoint: string): (argv: seq<string>)
    ensures |argv| == 2 && argv[0] == "umount" && argv[1] == mountpoint
  {
    ["umount", mountpoint]
  }

  /** What a glusterfs helper invocation asks for. */
  datatype GlusterfsRequest = GlusterfsRequest(hosts: seq<string>, volume: string, subdir: string, mountpoint: string)

  function ParseServerFlags(flags: seq<string>): Option<seq<string>>
    decreases |flags|
  {
    if flags == [] then Some([])
    else if |flags| >= 2 && flags[0] == "--volfile-server" then
      match ParseServerFlags(flags[2..])
      case Some(rest) => Some([flags[1]] + rest)
      case None => None
    else None
  }

  /** Reads a glusterfs argument vector back into the request it encodes. */
  function ParseGlusterfsArgv(argv: seq<string>): Option<GlusterfsRequest> {
    if |argv| >= 6 && argv[0] == "glusterfs"
       && argv[|argv| - 5] == "--volfile-id" && argv[|argv| - 3] == "--subdir-mount"
    then
      match ParseServerFlags(argv[1..|argv| - 5])
      case Some(hosts) => Some(GlusterfsRequest(hosts, argv[|argv| - 4], argv[|argv| - 2], argv[|argv| - 1]))
      case None => None
    else None
  }

  lemma {:induction false} ServerFlagsRoundTrip(hosts: seq<string>)
    ensures ParseServerFlags(ServerFlags(hosts)) == Some(hosts)
    decreases |hosts|
  {
    if hosts != [] {
      var flags := ServerFlags(hosts);
      assert flags[2..] == ServerFlags(hosts[1..]);
      ServerFlagsRoundTrip(hosts[1..]);
      assert [hosts[0]] + hosts[1..] == hosts;
    }
  }

  lemma {:induction false} ParsedServerFlags(flags: seq<string>, hosts: seq<string>)
    requires ParseServerFlags(flags) == Some(hosts)
    ensures ServerFlags(hosts) == flags
    decreases |flags|
  {
    if flags != [] {
      var rest := ParseServerFlags(flags[2..]).value;
      ParsedServerFlags(flags[2..], rest);
      assert hosts == [flags[1]] + rest;
      assert hosts[1..] == rest;
      assert flags == [flags[0], flags[1]] + flags[2..];
    }
  }

  /** Parsing a built mount helper vector gives back the request it encodes. */
  lemma GlusterfsArgvRoundTrip(req: GlusterfsRequest)
    ensures ParseGlusterfsArgv(GlusterfsArgv(req.hosts, req.volume, req.subdir, req.mountpoint)) == Some(req)
  {
    var flags := ServerFlags(req.hosts);
    var tail := ["--volfile-id", req.volume, "--subdir-mount", req.subdir, req.mountpoint];
    var built := ["glusterfs"] + flags + tail;
    assert built == GlusterfsArgv(req.hosts, req.volume, req.subdir, req.mountpoint);
    var n := |built|;
    assert n == 6 + |flags|;
    assert built[1..n - 5] == flags;
    assert built[n - 5..] == tail;
    assert built[0] == "glusterfs" && built[n - 5] == "--volfile-id" && built[n - 3] == "--subdir-mount";
    assert built[n - 4] == req.volume && built[n - 2] == req.subdir && built[n - 1] == req.mountpoint;
    ServerFlagsRoundTrip(req.hosts);
  }

  /** Every vector the parser accepts is exactly the one built from what it
      parsed, so two different requests never share a helper invocation. */
  lemma GlusterfsArgvParsed(argv: seq<string>, req: GlusterfsRequest)
    requires ParseGlusterfsArgv(argv) == Some(req)
    ensures GlusterfsArgv(req.hosts, req.volume, req.subdir, req.mountpoint) == argv
  {
    var middle := argv[1..|argv| - 5];
    ParsedServerFlags(middle, req.hosts);
    var tail := ["--volfile-id", req.volume, "--subdir-mount", req.subdir, req.mountpoint];
    assert argv[|argv| - 5..] == tail;
    assert argv == [argv[0]] + middle + argv[|argv| - 5..];
  }

  /** `mount -t glusterfs <server>:/<volume>/<name> <mountpoint>` (gfs.go
      `mountWithMount`). The server is `hosts[pick]`, where `pick` stands for
      `rand.Intn(len(hosts))`; the source indexes `hosts` unguarded, so it
      needs at least one host. */
  function MountArgv(hosts: seq<string>, volume: string, name: string, mountpoint: string, pick: nat): (argv: seq<string>)
    requires pick < |hosts|
    ensures |argv| == 5
    ensures argv[..3] == ["mount", "-t", "glusterfs"] && argv[4] == mountpoint
    ensures exists i | 0 <= i < |hosts| :: argv[3] == hosts[i] + ":/" + volume + "/" + name
  {
    ["mount", "-t", "glusterfs", hosts[pick] + ":/" + volume + "/" + name, mountpoint]
  }
}
