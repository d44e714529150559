/** The per-volume mount reference-counting registry (`activeMount` in
    driver.go and main.go, `mount` in minio/s3.go) and the Unmount operation,
    whose text is identical in all three variants.

    Operations are atomic transitions on an immutable map. The Go Unmount
    takes no lock (driver.go:237, main.go:228, minio/s3.go:189) while Mount
    does, so an Unmount can interleave with a Mount on the same entry; a
    sequential model cannot express that race. */
module ActiveMounts {
  import opened Common
  import opened Paths
  import opened Helpers

  /** One tracked volume: total acquisitions, where it is mounted, when the
      entry was made, and the acquisitions per client ID. */
  datatype Entry = Entry(connections: int, mountpoint: string, createdAt: Time, ids: map<string, int>)

  type Registry = map<string, Entry>

  /** The entry Mount inserts for an untracked name: no connections, no
      clients, and a `createdAt` that no variant ever assigns. */
  function NewEntry(mountpoint: string): Entry {
    Entry(0, mountpoint, ZeroTime, map[])
  }

  /** Go's read of a missing map key yields zero. */
  function ClientCount(ids: map<string, int>, id: string): int {
    if id in ids then ids[id] else 0
  }

  function Connections(reg: Registry, name: string): int {
    if name in reg then reg[name].connections else 0
  }

  /** The registry after Mount has made sure `name` is tracked. */
  function Track(reg: Registry, name: string, mountpoint: string): (r: Registry)
    ensures name in r
    ensures name in reg ==> r == reg
    ensures name !in reg ==> r == reg[name := NewEntry(mountpoint)]
    ensures r[name].connections == Connections(reg, name)
  {
    if name in reg then reg else reg[name := NewEntry(mountpoint)]
  }

  /** `a` and `b` agree on every name other than `name`. */
  predicate SameExcept(a: Registry, b: Registry, name: string) {
    forall n | n in a.Keys + b.Keys && n != name :: n in a && n in b && a[n] == b[n]
  }

  // ---------------------------------------------------------------------
  // Counting

  /** Some recorded client of a non-empty count map. */
  ghost function Pick(ids: map<string, int>): (k: string)
    requires |ids| != 0
    ensures k in ids
  {
    var k :| k in ids; k
  }

  /** Sum of the per-client acquisition counts. */
  ghost function SumIds(ids: map<string, int>): int
    decreases |ids|
  {
    if |ids| == 0 then 0
    else
      var k := Pick(ids);
      ids[k] + SumIds(ids - {k})
  }

  lemma {:induction false} SumIdsRemove(ids: map<string, int>, k: string)
    requires k in ids
    ensures SumIds(ids) == ids[k] + SumIds(ids - {k})
    decreases |ids|
  {
    var j := Pick(ids);
    if j != k {
      SumIdsRemove(ids - {j}, k);
      SumIdsRemove(ids - {k}, j);
      assert ids - {j} - {k} == ids - {k} - {j};
    }
  }

  /** Overwriting one client's count changes the sum by the difference. */
  lemma SumIdsUpdate(ids: map<string, int>, k: string, v: int)
    ensures SumIds(ids[k := v]) == SumIds(ids) - ClientCount(ids, k) + v
  {
    SumIdsRemove(ids[k := v], k);
    assert ids[k := v] - {k} == ids - {k};
    if k in ids {
      SumIdsRemove(ids, k);
    } else {
      assert ids - {k} == ids;
    }
  }

  /** Dropping one client removes its whole count from the sum. */
  lemma SumIdsDelete(ids: map<string, int>, k: string)
    requires k in ids
    ensures SumIds(ids - {k}) == SumIds(ids) - ids[k]
  {
    SumIdsRemove(ids, k);
  }

  /** Every recorded client holds at least one acquisition. */
  predicate PositiveCounts(ids: map<string, int>) {
    forall c | c in ids :: ids[c] >= 1
  }

  lemma {:induction false} SumIdsAtLeastSize(ids: map<string, int>)
    requires PositiveCounts(ids)
    ensures SumIds(ids) >= |ids|
    decreases |ids|
  {
    if |ids| != 0 {
      SumIdsAtLeastSize(ids - {Pick(ids)});
    }
  }

  // ---------------------------------------------------------------------
  // Invariants

  /** The counting invariant, which the `connections` counter and the
      per-client `ids` counts are evidently meant to keep for every entry:
      `connections` is the sum of the per-client counts, and a client is recorded only while it
      holds an acquisition. */
  ghost predicate Valid(e: Entry) {
    PositiveCounts(e.ids) && e.connections == SumIds(e.ids)
  }

  /** Under the counting invariant, no client is left exactly when no
      connection is left. */
  lemma ValidNoClientsIffNoConnections(e: Entry)
    requires Valid(e)
    ensures |e.ids| == 0 <==> e.connections == 0
  {
    SumIdsAtLeastSize(e.ids);
  }

  ghost predicate AllValid(reg: Registry) {
    forall n | n in reg :: Valid(reg[n])
  }

  lemma AllValidUpdate(reg: Registry, name: string, e: Entry)
    requires AllValid(reg) && Valid(e)
    ensures AllValid(reg[name := e])
  {
  }

  /** What the source's own operations actually keep true of an entry under
      `root`: its mountpoint is `root/name`, `createdAt` is never set,
      counts are never negative, and the clients never hold more
      acquisitions than `connections` records (equality is lost, see
      ReleaseAsWrittenKeepsSumIffNotTwo). */
  ghost predicate EntryInv(root: string, name: string, e: Entry) {
    && e.mountpoint == Mountpoint(root, name)
    && e.createdAt == ZeroTime
    && PositiveCounts(e.ids)
    && 0 <= SumIds(e.ids) <= e.connections
  }

  ghost predicate Inv(root: string, reg: Registry) {
    forall n | n in reg :: EntryInv(root, n, reg[n])
  }

  lemma InvUpdate(root: string, reg: Registry, name: string, e: Entry)
    requires Inv(root, reg) && EntryInv(root, name, e)
    ensures Inv(root, reg[name := e])
  {
  }

  lemma EmptyRegistryInv(root: string)
    ensures Inv(root, map[])
  {
  }

  // ---------------------------------------------------------------------
  // Acquisition (`v.ids[r.ID]++; v.connections++`)

  function Acquire(e: Entry, id: string): (e': Entry)
    ensures e'.mountpoint == e.mountpoint && e'.createdAt == e.createdAt
    ensures e'.connections == e.connections + 1
    ensures e'.ids.Keys == e.ids.Keys + {id}
    ensures ClientCount(e'.ids, id) == ClientCount(e.ids, id) + 1
    ensures forall c | c in e.ids && c != id :: c in e'.ids && e'.ids[c] == e.ids[c]
  {
    e.(connections := e.connections + 1, ids := e.ids[id := ClientCount(e.ids, id) + 1])
  }

  /** An acquisition keeps `connections == sum(ids)`. */
  lemma AcquirePreservesValid(e: Entry, id: string)
    requires Valid(e)
    ensures Valid(Acquire(e, id))
  {
    SumIdsUpdate(e.ids, id, ClientCount(e.ids, id) + 1);
  }

  lemma AcquirePreservesEntryInv(root: string, name: string, e: Entry, id: string)
    requires EntryInv(root, name, e)
    ensures EntryInv(root, name, Acquire(e, id))
  {
    SumIdsUpdate(e.ids, id, ClientCount(e.ids, id) + 1);
  }

  // ---------------------------------------------------------------------
  // Release and Unmount as written

  /** `i--; v.connections--; if i <= 1 { delete } else { v.ids[ID] = i }`:
      the client's key is dropped once its decremented count is at most one,
      that is when it held one or two acquisitions. */
  function ReleaseAsWritten(e: Entry, id: string): (e': Entry)
    requires id in e.ids
    ensures e'.mountpoint == e.mountpoint && e'.createdAt == e.createdAt
    ensures e'.connections == e.connections - 1
    ensures id in e'.ids <==> e.ids[id] > 2
    ensures id in e'.ids ==> e'.ids[id] == e.ids[id] - 1
    ensures e'.ids.Keys - {id} == e.ids.Keys - {id}
    ensures forall c | c in e.ids && c != id :: c in e'.ids && e'.ids[c] == e.ids[c]
  {
    var i := e.ids[id] - 1;
    e.(connections := e.connections - 1,
       ids := if i <= 1 then e.ids - {id} else e.ids[id := i])
  }

  /** The registry-level precondition of a release: the name is tracked, has
      connections, and knows the client. */
  predicate CanRelease(reg: Registry, name: string, id: string) {
    name in reg && reg[name].connections != 0 && id in reg[name].ids
  }

  /** Unmount (driver.go, main.go and minio/s3.go). Checks, in order, that
      the name is tracked, that it has connections and that it knows the
      client; releases one acquisition; and once no client key is left runs
      `umount` on the entry's mountpoint, deleting the entry only when that
      succeeds. A failing `umount` leaves the released entry in place. */
  function Unmount(reg: Registry, name: string, id: string, umountOk: bool): (o: Outcome<Registry, ()>)
    ensures name !in reg ==> o == Outcome(reg, Err(VolumeNotFound(name)), [])
    ensures name in reg && reg[name].connections == 0 ==>
      o == Outcome(reg, Err(NoActiveConnections(name)), [])
    ensures name in reg && reg[name].connections != 0 && id !in reg[name].ids ==>
      o == Outcome(reg, Err(UnknownClient(name, id)), [])
    ensures CanRelease(reg, name, id) ==>
      var released := ReleaseAsWritten(reg[name], id);
      && SameExcept(reg, o.state, name)
      && o.execs == (if |released.ids| == 0 then [UmountArgv(reg[name].mountpoint)] else [])
      && (name !in o.state <==> |released.ids| == 0 && umountOk)
      && (name in o.state ==> o.state[name] == released)
      && (o.result.Err? <==> |released.ids| == 0 && !umountOk)
  {
    if name !in reg then Outcome(reg, Err(VolumeNotFound(name)), [])
    else
      var v := reg[name];
      if v.connections == 0 then Outcome(reg, Err(NoActiveConnections(name)), [])
      else if id !in v.ids then Outcome(reg, Err(UnknownClient(name, id)), [])
      else
        var v' := ReleaseAsWritten(v, id);
        if |v'.ids| == 0 then
          var argv := UmountArgv(v.mountpoint);
          if umountOk then Outcome(reg - {name}, Ok(()), [argv])
          else Outcome(reg[name := v'], Err(ExecFailed(argv)), [argv])
        else Outcome(reg[name := v'], Ok(()), [])
  }

  /** A release keeps the invariant the source does maintain. */
  lemma ReleaseAsWrittenPreservesEntryInv(root: string, name: string, e: Entry, id: string)
    requires EntryInv(root, name, e) && e.connections != 0 && id in e.ids
    ensures EntryInv(root, name, ReleaseAsWritten(e, id))
  {
    var e' := ReleaseAsWritten(e, id);
    if e.ids[id] > 2 {
      SumIdsUpdate(e.ids, id, e.ids[id] - 1);
      assert e'.ids == e.ids[id := e.ids[id] - 1];
    } else {
      SumIdsDelete(e.ids, id);
      assert e'.ids == e.ids - {id};
    }
    SumIdsAtLeastSize(e'.ids);
  }

  /** Unmount keeps the invariant the source does maintain. */
  lemma UnmountPreservesInv(root: string, reg: Registry, name: string, id: string, umountOk: bool)
    requires Inv(root, reg)
    ensures Inv(root, Unmount(reg, name, id, umountOk).state)
  {
    if CanRelease(reg, name, id) {
      ReleaseAsWrittenPreservesEntryInv(root, name, reg[name], id);
      var r := Unmount(reg, name, id, umountOk).state;
      forall n | n in r
        ensures EntryInv(root, n, r[n])
      {
        if n != name {
          assert r[n] == reg[n];
        }
      }
    }
  }

  /** Where `connections == sum(ids)` breaks: releasing a client that held
      exactly two acquisitions drops both from `ids` but only one from
      `connections`; every other release keeps the equality. */
  lemma ReleaseAsWrittenKeepsSumIffNotTwo(e: Entry, id: string)
    requires Valid(e) && id in e.ids
    ensures Valid(ReleaseAsWritten(e, id)) <==> e.ids[id] != 2
  {
    var e' := ReleaseAsWritten(e, id);
    if e.ids[id] > 2 {
      SumIdsUpdate(e.ids, id, e.ids[id] - 1);
      assert e'.ids == e.ids[id := e.ids[id] - 1];
    } else {
      SumIdsDelete(e.ids, id);
      assert e'.ids == e.ids - {id};
    }
  }

  /** A client that mounted a volume twice and unmounts once triggers the
      physical `umount` and loses the entry, although one of its
      acquisitions is still outstanding; its second Unmount then reports the
      volume as not found. */
  lemma DoubleAcquireUnmountsEarly(mp: string, name: string, id: string)
    ensures
      var reg: Registry := map[name := Acquire(Acquire(NewEntry(mp), id), id)];
      var first := Unmount(reg, name, id, true);
      && reg[name].connections == 2
      && first.execs == [UmountArgv(mp)]
      && first.result == Ok(())
      && name !in first.state
      && Unmount(first.state, name, id, true).result == Err(VolumeNotFound(name))
  {
    var reg: Registry := map[name := Acquire(Acquire(NewEntry(mp), id), id)];
    assert reg[name].ids == map[id := 2];
  }

  /** More generally, whenever a client's release leaves no client key the
      umount runs, whatever `connections` still records: starting from
      `connections == sum(ids)`, a connection is still recorded at that
      point exactly when the releasing client held two acquisitions. */
  lemma UnmountIgnoresRemainingConnections(reg: Registry, name: string, id: string, umountOk: bool)
    requires CanRelease(reg, name, id) && Valid(reg[name])
    requires |ReleaseAsWritten(reg[name], id).ids| == 0
    ensures Unmount(reg, name, id, umountOk).execs == [UmountArgv(reg[name].mountpoint)]
    ensures ReleaseAsWritten(reg[name], id).connections == 1 <==> reg[name].ids[id] == 2
  {
    var e := reg[name];
    SumIdsRemove(e.ids, id);
    assert e.ids.Keys - {id} == {};
    assert e.ids - {id} == map[];
  }

  // ---------------------------------------------------------------------
  // Release and Unmount as evidently intended

  /** Drops the client's key when its count reaches zero. */
  function ReleaseIntended(e: Entry, id: string): (e': Entry)
    requires id in e.ids
    ensures e'.mountpoint == e.mountpoint && e'.createdAt == e.createdAt
    ensures e'.connections == e.connections - 1
    ensures id in e'.ids <==> e.ids[id] > 1
    ensures id in e'.ids ==> e'.ids[id] == e.ids[id] - 1
    ensures e'.ids.Keys - {id} == e.ids.Keys - {id}
    ensures forall c | c in e.ids && c != id :: c in e'.ids && e'.ids[c] == e.ids[c]
  {
    var i := e.ids[id] - 1;
    e.(connections := e.connections - 1,
       ids := if i <= 0 then e.ids - {id} else e.ids[id := i])
  }

  /** Unmount with the client key dropped only at zero and the physical
      unmount run only once the last connection is released. */
  function UnmountIntended(reg: Registry, name: string, id: string, umountOk: bool): (o: Outcome<Registry, ()>)
    ensures name !in reg ==> o == Outcome(reg, Err(VolumeNotFound(name)), [])
    ensures name in reg && reg[name].connections == 0 ==>
      o == Outcome(reg, Err(NoActiveConnections(name)), [])
    ensures name in reg && reg[name].connections != 0 && id !in reg[name].ids ==>
      o == Outcome(reg, Err(UnknownClient(name, id)), [])
    ensures CanRelease(reg, name, id) ==>
      var released := ReleaseIntended(reg[name], id);
      && SameExcept(reg, o.state, name)
      && o.execs == (if released.connections == 0 then [UmountArgv(reg[name].mountpoint)] else [])
      && (o.result.Err? <==> released.connections == 0 && !umountOk)
      && (name !in o.state <==> released.connections == 0 && umountOk)
      && (name in o.state ==> o.state[name] == released)
  {
    if name !in reg then Outcome(reg, Err(VolumeNotFound(name)), [])
    else
      var v := reg[name];
      if v.connections == 0 then Outcome(reg, Err(NoActiveConnections(name)), [])
      else if id !in v.ids then Outcome(reg, Err(UnknownClient(name, id)), [])
      else
        var v' := ReleaseIntended(v, id);
        if v'.connections == 0 then
          var argv := UmountArgv(v.mountpoint);
          if umountOk then Outcome(reg - {name}, Ok(()), [argv])
          else Outcome(reg[name := v'], Err(ExecFailed(argv)), [argv])
        else Outcome(reg[name := v'], Ok(()), [])
  }

  /** The corrected release keeps `connections == sum(ids)`, and under it the
      umount runs exactly when the last client key goes. */
  lemma ReleaseIntendedPreservesValid(e: Entry, id: string)
    requires Valid(e) && id in e.ids
    ensures Valid(ReleaseIntended(e, id))
    ensures ReleaseIntended(e, id).connections == 0 <==> |ReleaseIntended(e, id).ids| == 0
  {
    var e' := ReleaseIntended(e, id);
    if e.ids[id] > 1 {
      SumIdsUpdate(e.ids, id, e.ids[id] - 1);
      assert e'.ids == e.ids[id := e.ids[id] - 1];
    } else {
      SumIdsDelete(e.ids, id);
      assert e'.ids == e.ids - {id};
    }
    ValidNoClientsIffNoConnections(e');
  }

  lemma UnmountIntendedPreservesValid(reg: Registry, name: string, id: string, umountOk: bool)
    requires AllValid(reg)
    ensures AllValid(UnmountIntended(reg, name, id, umountOk).state)
  {
    if CanRelease(reg, name, id) {
      ReleaseIntendedPreservesValid(reg[name], id);
    }
  }

  /** With the correction, a client that acquired twice needs two releases
      before the physical unmount runs. */
  lemma DoubleAcquireIntended(mp: string, name: string, id: string)
    ensures
      var reg: Registry := map[name := Acquire(Acquire(NewEntry(mp), id), id)];
      var first := UnmountIntended(reg, name, id, true);
      var second := UnmountIntended(first.state, name, id, true);
      && first.execs == [] && first.result == Ok(())
      && second.execs == [UmountArgv(mp)] && second.result == Ok(())
      && name !in second.state
  {
    var reg: Registry := map[name := Acquire(Acquire(NewEntry(mp), id), id)];
    assert reg[name].ids == map[id := 2];
    var first := UnmountIntended(reg, name, id, true);
    assert first.state[name].ids == map[id := 1];
  }
}
