/** `vm_worker_create_snapshot` and `vm_worker_remove_snapshot`: one snapshot of every volume of a VM,
    or none, with each volume's count of snapshots kept in its statistics. */
module VmSnapshot {
  import opened Wrappers

  type VolumeId = string

  type Name = string

  /** One volume: its RBD snapshots, its snapshot entries in the store, and the count among its
      statistics. */
  datatype Volume = Volume(rbd: set<Name>, entries: map<Name, string>, snapshotCount: int)

  type Volumes = map<VolumeId, Volume>

  /** The store's view is RBD's, and the count is right. */
  predicate Consistent(v: Volume) {
    v.entries.Keys == v.rbd && v.snapshotCount == |v.entries|
  }

  ghost predicate AllConsistent(vs: Volumes) {
    forall v | v in vs :: Consistent(vs[v])
  }

  /** The VM's own entry for a snapshot: its configuration, and which volumes it covers. */
  datatype VmEntry = VmEntry(xml: string, covered: seq<VolumeId>)

  datatype Outcome = Done | Failed | Raised

  // `add_snapshot` and `remove_snapshot` of one volume

  /** The entry and the count, which is all there is to do for a snapshot received from elsewhere. */
  function Record(v: Volume, name: Name, info: string): Volume {
    Volume(v.rbd, v.entries[name := info], v.snapshotCount + 1)
  }

  function Add(v: Volume, name: Name, info: string): Volume {
    Volume(v.rbd + {name}, v.entries[name := info], v.snapshotCount + 1)
  }

  function Remove(v: Volume, name: Name): Volume {
    Volume(v.rbd - {name}, v.entries - {name}, v.snapshotCount - 1)
  }

  lemma MapMinus(m: map<Name, string>, name: Name)
    requires name in m
    ensures |m - {name}| == |m| - 1
  {
    assert m.Keys == (m - {name}).Keys + {name};
  }

  lemma AddKeeps(v: Volume, name: Name, info: string)
    requires Consistent(v)
    ensures Consistent(Add(v, name, info)) <==> name !in v.rbd
    ensures name !in v.rbd ==> Remove(Add(v, name, info), name) == v
  {
    if name in v.rbd {
      assert v.entries[name := info].Keys == v.entries.Keys;
      assert |v.entries[name := info].Keys| == |v.entries.Keys|;
    } else {
      MapMinus(v.entries[name := info], name);
      assert v.entries[name := info] - {name} == v.entries;
    }
  }

  /** Recording puts right a volume whose snapshot the store does not know yet; recording it twice counts
      it twice. */
  lemma RecordKeeps(v: Volume, name: Name, info: string)
    requires v.rbd == v.entries.Keys + {name} && v.snapshotCount == |v.entries|
    ensures Consistent(Record(v, name, info)) <==> name !in v.entries
  {
    if name in v.entries {
      assert v.entries[name := info].Keys == v.entries.Keys;
      assert |v.entries[name := info].Keys| == |v.entries.Keys|;
    } else {
      MapMinus(v.entries[name := info], name);
      assert v.entries[name := info] - {name} == v.entries;
    }
  }

  lemma AddAllKeeps(vs: Volumes, v: VolumeId, name: Name, info: string)
    requires AllConsistent(vs) && v in vs && name !in vs[v].rbd
    ensures AllConsistent(vs[v := Add(vs[v], name, info)])
  {
    AddKeeps(vs[v], name, info);
  }

  lemma RemoveAllKeeps(vs: Volumes, v: VolumeId, name: Name)
    requires AllConsistent(vs) && v in vs && name in vs[v].rbd
    ensures AllConsistent(vs[v := Remove(vs[v], name)])
  {
    RemoveKeeps(vs[v], name);
  }

  lemma RemoveKeeps(v: Volume, name: Name)
    requires Consistent(v) && name in v.rbd
    ensures Consistent(Remove(v, name))
  {
    MapMinus(v.entries, name);
  }

  /** `vs` with a fresh snapshot of every volume in `s`. */
  function Snapped(vs: Volumes, s: set<VolumeId>, name: Name, info: map<VolumeId, string>): Volumes
    requires s <= vs.Keys && s <= info.Keys
  {
    map v | v in vs :: if v in s then Add(vs[v], name, info[v]) else vs[v]
  }

  function Unsnapped(vs: Volumes, s: set<VolumeId>, name: Name): Volumes {
    map v | v in vs :: if v in s then Remove(vs[v], name) else vs[v]
  }

  /** No volume in `s` has a snapshot of this name. */
  ghost predicate Fresh(vs: Volumes, s: set<VolumeId>, name: Name) {
    s <= vs.Keys && forall v | v in s :: name !in vs[v].rbd
  }

  /** Removing a fresh snapshot again gives back every volume exactly as it was. */
  lemma CreateThenRemove(vs: Volumes, s: set<VolumeId>, name: Name, info: map<VolumeId, string>)
    requires AllConsistent(vs) && Fresh(vs, s, name) && s <= info.Keys
    ensures Unsnapped(Snapped(vs, s, name, info), s, name) == vs
  {
    var r := Unsnapped(Snapped(vs, s, name, info), s, name);
    forall v | v in vs ensures r[v] == vs[v] {
      if v in s {
        AddKeeps(vs[v], name, info[v]);
      }
    }
  }

  lemma SnapOne(vs: Volumes, s: set<VolumeId>, name: Name, info: map<VolumeId, string>, v: VolumeId)
    requires AllConsistent(vs) && Fresh(vs, s, name) && s <= info.Keys && v in Snapped(vs, s, name, info) && v in info
    requires name !in Snapped(vs, s, name, info)[v].rbd
    ensures v !in s && v in vs && Fresh(vs, s + {v}, name)
    ensures Snapped(vs, s, name, info)[v := Add(Snapped(vs, s, name, info)[v], name, info[v])] ==
            Snapped(vs, s + {v}, name, info)
  {
  }

  lemma SnapNone(vs: Volumes, l: seq<VolumeId>, name: Name, info: map<VolumeId, string>)
    ensures NoRepeats(l[..0]) && ToSet(l[..0]) == {} && Snapped(vs, {}, name, info) == vs
  {
  }

  /** `vs` with the snapshots of `s` entered and counted. */
  function Recorded(vs: Volumes, s: set<VolumeId>, name: Name, info: map<VolumeId, string>): Volumes
    requires s <= info.Keys
  {
    map v | v in vs :: if v in s then Record(vs[v], name, info[v]) else vs[v]
  }

  lemma RecordedNone(vs: Volumes, l: seq<VolumeId>, name: Name, info: map<VolumeId, string>)
    ensures ToSet(l[..0]) == {} && Recorded(vs, {}, name, info) == vs
  {
  }

  lemma RecordedNext(vs: Volumes, l: seq<VolumeId>, i: nat, name: Name, info: map<VolumeId, string>)
    requires i < |l| && l[i] in vs && l[i] in info && ToSet(l[..i]) <= info.Keys
    ensures NoRepeats(l) ==>
              var w := Recorded(vs, ToSet(l[..i]), name, info);
              w[l[i] := Record(w[l[i]], name, info[l[i]])] == Recorded(vs, ToSet(l[..i]) + {l[i]}, name, info)
  {
    if NoRepeats(l) {
      assert l[i] !in ToSet(l[..i]);
    }
  }

  /** Received snapshots of exactly these volumes, recorded once: the store's view is RBD's again. */
  lemma RecordedConsistent(vs: Volumes, s: set<VolumeId>, name: Name, info: map<VolumeId, string>)
    requires s <= info.Keys
    requires forall v | v in vs && v in s :: vs[v].rbd == vs[v].entries.Keys + {name}
    requires forall v | v in vs && v in s :: vs[v].snapshotCount == |vs[v].entries|
    requires forall v | v in vs && v !in s :: Consistent(vs[v])
    ensures AllConsistent(Recorded(vs, s, name, info)) <==> forall v | v in vs && v in s :: name !in vs[v].entries
  {
    hide Consistent;
    var w := Recorded(vs, s, name, info);
    forall v | v in vs && v in s ensures Consistent(w[v]) <==> name !in vs[v].entries {
      RecordKeeps(vs[v], name, info[v]);
    }
    assert forall v | v in vs && v !in s :: w[v] == vs[v];
  }

  lemma UnsnapNone(vs: Volumes, l: seq<VolumeId>, name: Name)
    ensures NoRepeats(l[..0]) && ToSet(l[..0]) == {} && Unsnapped(vs, {}, name) == vs
  {
  }

  lemma UnsnapAnother(vs: Volumes, s: set<VolumeId>, v: VolumeId, name: Name)
    requires v in Unsnapped(vs, s, name)
    ensures v in vs
    ensures var w := Unsnapped(vs, s, name);
      name in w[v].rbd ==> v !in s && w[v] == vs[v] && w[v := Remove(w[v], name)] == Unsnapped(vs, s + {v}, name)
    ensures name in Unsnapped(vs, s, name)[v].entries && v !in s ==> name in vs[v].entries
  {
    if v in s {
      assert name !in Remove(vs[v], name).rbd;
    }
  }

  lemma UnsnapOne(vs: Volumes, s: set<VolumeId>, name: Name, info: map<VolumeId, string>, v: VolumeId)
    requires AllConsistent(vs) && Fresh(vs, s, name) && s <= info.Keys && v in s
    ensures var w := Snapped(vs, s, name, info);
            && name in w[v].entries && name in w[v].rbd
            && w[v := Remove(w[v], name)] == Snapped(vs, s - {v}, name, info)
  {
    AddKeeps(vs[v], name, info[v]);
  }

  /** What the three leave of one volume, field by field. */
  lemma FieldByField(vs: Volumes, s: set<VolumeId>, name: Name, info: map<VolumeId, string>, v: VolumeId)
    requires s <= vs.Keys && s <= info.Keys && v in vs
    ensures var made, noted, gone :=
              Snapped(vs, s, name, info)[v], Recorded(vs, s, name, info)[v], Unsnapped(vs, s, name)[v];
            if v !in s then made == noted == gone == vs[v]
            else
              && made.rbd - vs[v].rbd <= {name} <= made.rbd && vs[v].rbd <= made.rbd && noted.rbd == vs[v].rbd
              && gone.rbd <= vs[v].rbd && name !in gone.rbd && vs[v].rbd <= gone.rbd + {name}
              && name in made.entries && made.entries[name] == info[v] && made.entries == noted.entries
              && name !in gone.entries
              && (forall n | n != name :: n in made.entries <==> n in vs[v].entries)
              && (forall n | n != name :: n in gone.entries <==> n in vs[v].entries)
              && (forall n | n != name && n in vs[v].entries :: made.entries[n] == gone.entries[n] == vs[v].entries[n])
              && made.snapshotCount == noted.snapshotCount == gone.snapshotCount + 2 == vs[v].snapshotCount + 1
  {
  }

  /** Every listed volume, each listed once, has the snapshot, and every command works. */
  ghost predicate Removable(vs: Volumes, covered: seq<VolumeId>, name: Name, ceph: nat -> bool) {
    && NoRepeats(covered)
    && (forall v | v in ToSet(covered) :: v in vs && name in vs[v].rbd && name in vs[v].entries)
    && forall k | 0 <= k < |covered| :: ceph(k)
  }

  function ToSet(s: seq<VolumeId>): set<VolumeId> {
    set i | 0 <= i < |s| :: s[i]
  }

  predicate NoRepeats(s: seq<VolumeId>) {
    forall i, j | 0 <= i < j < |s| :: s[i] != s[j]
  }

  lemma Push(s: seq<VolumeId>, v: VolumeId)
    ensures ToSet(s + [v]) == ToSet(s) + {v}
    ensures NoRepeats(s) && v !in ToSet(s) ==> NoRepeats(s + [v])
  {
    assert forall k | 0 <= k < |s| :: (s + [v])[k] == s[k] && s[k] in ToSet(s);
    assert (s + [v])[|s|] == v;
  }

  lemma Pop(s: seq<VolumeId>)
    requires s != []
    ensures ToSet(s) == {s[0]} + ToSet(s[1..])
    ensures NoRepeats(s) ==> s[0] !in ToSet(s[1..]) && ToSet(s[1..]) == ToSet(s) - {s[0]} && NoRepeats(s[1..])
  {
    assert forall k | 0 <= k < |s| - 1 :: s[1..][k] == s[k + 1];
    assert forall k | 0 < k < |s| :: s[k] == s[1..][k - 1];
  }

  /** A volume whose turn has not come has no snapshot of the name yet. */
  lemma StillFresh(vs: Volumes, l: seq<VolumeId>, i: nat, name: Name, info: map<VolumeId, string>)
    requires i < |l| && ToSet(l[..i]) <= vs.Keys && ToSet(l[..i]) <= info.Keys
    ensures var w := Snapped(vs, ToSet(l[..i]), name, info);
      NoRepeats(l) && Fresh(vs, ToSet(l), name) ==> l[i] in w && name !in w[l[i]].rbd
  {
    if NoRepeats(l) && Fresh(vs, ToSet(l), name) {
      assert l[i] in ToSet(l) && l[i] !in ToSet(l[..i]);
    }
  }

  /** The same on removal: it is as it was before. */
  lemma StillThere(vs: Volumes, l: seq<VolumeId>, i: nat, name: Name)
    requires i < |l| && NoRepeats(l) && l[i] in vs
    ensures l[i] in ToSet(l) && l[i] in Unsnapped(vs, ToSet(l[..i]), name)
    ensures Unsnapped(vs, ToSet(l[..i]), name)[l[i]] == vs[l[i]]
  {
    assert l[i] !in ToSet(l[..i]);
  }

  /** A removal that got as far as the n-th volume. */
  ghost predicate HalfRemoved(vs: Volumes, covered: seq<VolumeId>, name: Name, ceph: nat -> bool, n: nat,
                              left: Volumes)
  {
    && n < |covered|
    && Removable(vs, covered[..n], name, ceph) && !Removable(vs, covered[..n + 1], name, ceph)
    && left == Unsnapped(vs, ToSet(covered[..n]), name)
  }

  /** What the next removal needs, in terms of the volumes as they were. */
  lemma RemovableNext(vs: Volumes, covered: seq<VolumeId>, name: Name, ceph: nat -> bool, n: nat)
    requires n < |covered|
    ensures Removable(vs, covered[..n + 1], name, ceph) ==>
              var left, v := Unsnapped(vs, ToSet(covered[..n]), name), covered[n];
              v in left && name in left[v].rbd && name in left[v].entries && ceph(n)
    ensures Removable(vs, covered, name, ceph) ==> Removable(vs, covered[..n + 1], name, ceph)
  {
    var l := covered[..n + 1];
    if Removable(vs, l, name, ceph) {
      InSet(l);
      assert l[n] in ToSet(l);
      StillThere(vs, l, n, name);
      assert l[..n] == covered[..n];
    }
    if Removable(vs, covered, name, ceph) {
      InSet(covered);
      forall v | v in ToSet(l) ensures v in ToSet(covered) {
        var i :| 0 <= i < |l| && l[i] == v;
        assert covered[i] == v;
      }
    }
  }

  lemma StoppedAt(vs: Volumes, covered: seq<VolumeId>, name: Name, ceph: nat -> bool, n: nat, left: Volumes)
    requires n < |covered| && left == Unsnapped(vs, ToSet(covered[..n]), name)
    requires NoRepeats(covered[..n]) && forall k | 0 <= k < n :: ceph(k)
    requires forall v | v in ToSet(covered[..n]) :: v in vs && name in vs[v].rbd && name in vs[v].entries
    requires !(covered[n] in left && name in left[covered[n]].rbd && name in left[covered[n]].entries && ceph(n))
    ensures HalfRemoved(vs, covered, name, ceph, n, left) && !Removable(vs, covered, name, ceph)
  {
    RemovableNext(vs, covered, name, ceph, n);
  }

  /** Calling it again, whatever works this time, succeeds exactly when it would have succeeded in the
      first place and nothing had been removed: one volume removed is enough to keep the entry for good. */
  lemma RetryExact(vs: Volumes, covered: seq<VolumeId>, name: Name, ceph: nat -> bool, n: nat, left: Volumes,
                   again: nat -> bool)
    requires HalfRemoved(vs, covered, name, ceph, n, left)
    ensures Removable(left, covered, name, again) <==> n == 0 && Removable(vs, covered, name, again)
  {
    if n == 0 {
      UnsnapNone(vs, covered, name);
    } else {
      InSet(covered);
      InSet(covered[..n]);
      assert covered[..n][0] == covered[0];
      assert name !in Unsnapped(vs, ToSet(covered[..n]), name)[covered[0]].rbd;
    }
  }

  /** Two volumes, and only the first command works: then nothing helps. */
  lemma RetryFails(v: VolumeId, w: VolumeId, name: Name, info: string)
    requires v != w
    ensures exists vs: Volumes, ceph: nat -> bool, left: Volumes ::
              && AllConsistent(vs) && Removable(vs, [v, w], name, _ => true)
              && HalfRemoved(vs, [v, w], name, ceph, 1, left) && !Removable(left, [v, w], name, _ => true)
  {
    hide Unsnapped, AllConsistent;
    var has := Volume({name}, map[name := info], 1);
    var vs: Volumes := map[v := has, w := has];
    var covered, first := [v, w], (k: nat) => k == 0;
    var left := Unsnapped(vs, ToSet(covered[..1]), name);
    EachConsistent(vs);
    AllHave(vs, covered, name);
    AllHave(vs, covered[..1], name);
    assert first(0) && !first(1);
    assert HalfRemoved(vs, covered, name, first, 1, left);
    hide HalfRemoved, Removable, AllConsistent;
    RetryExact(vs, covered, name, first, 1, left, _ => true);
    RetryWitness(vs, covered, name, first, left);
  }

  lemma EachConsistent(vs: Volumes)
    requires forall v | v in vs :: Consistent(vs[v])
    ensures AllConsistent(vs)
  {
  }

  lemma RetryWitness(vs: Volumes, covered: seq<VolumeId>, name: Name, ceph: nat -> bool, left: Volumes)
    requires AllConsistent(vs) && Removable(vs, covered, name, _ => true)
    requires HalfRemoved(vs, covered, name, ceph, 1, left) && !Removable(left, covered, name, _ => true)
    ensures exists vs: Volumes, ceph: nat -> bool, left: Volumes ::
              && AllConsistent(vs) && Removable(vs, covered, name, _ => true)
              && HalfRemoved(vs, covered, name, ceph, 1, left) && !Removable(left, covered, name, _ => true)
  {
    hide HalfRemoved, Removable, AllConsistent;
  }

  lemma AllHave(vs: Volumes, l: seq<VolumeId>, name: Name)
    requires NoRepeats(l) && forall i | 0 <= i < |l| :: l[i] in vs && name in vs[l[i]].rbd && name in vs[l[i]].entries
    ensures Removable(vs, l, name, _ => true)
    ensures forall ceph: nat -> bool | (forall k | 0 <= k < |l| :: ceph(k)) :: Removable(vs, l, name, ceph)
  {
  }

  lemma InSet(l: seq<VolumeId>)
    ensures forall i | 0 <= i < |l| :: l[i] in ToSet(l)
  {
  }

  class Cluster {
    var volumes: Volumes
    var entries: map<Name, VmEntry>   // the VM's snapshots

    constructor (volumes: Volumes, entries: map<Name, VmEntry>)
      ensures this.volumes == volumes && this.entries == entries
    {
      this.volumes, this.entries := volumes, entries;
    }

    /** One volume's snapshot; `ceph` says whether the command itself works, which it never does for a name
        that the volume already has. With `zkOnly` there is no command, only the entry and the count. */
    method AddSnapshot(v: VolumeId, name: Name, info: string, zkOnly: bool, ceph: bool) returns (ok: bool)
      modifies this`volumes
      ensures ok <==> v in old(volumes) && (zkOnly || (ceph && name !in old(volumes)[v].rbd))
      ensures !ok ==> volumes == old(volumes)
      ensures ok && zkOnly ==> volumes == old(volumes)[v := Record(old(volumes)[v], name, info)]
      ensures ok && !zkOnly ==> volumes == old(volumes)[v := Add(old(volumes)[v], name, info)]
      ensures old(AllConsistent(volumes)) && !(ok && zkOnly) ==> AllConsistent(volumes)
    {
      hide AllConsistent;
      if v !in volumes {
        return false;
      }
      if !zkOnly {
        if !ceph || name in volumes[v].rbd {
          return false;
        }
        if AllConsistent(volumes) {
          AddAllKeeps(volumes, v, name, info);
        }
        volumes := volumes[v := volumes[v].(rbd := volumes[v].rbd + {name})];
      }
      volumes := volumes[v := volumes[v].(entries := volumes[v].entries[name := info])];
      volumes := volumes[v := volumes[v].(snapshotCount := volumes[v].snapshotCount + 1)];
      ok := true;
    }

    method RemoveSnapshot(v: VolumeId, name: Name, ceph: bool) returns (ok: bool)
      modifies this`volumes
      ensures ok <==> v in old(volumes) && name in old(volumes)[v].entries && ceph && name in old(volumes)[v].rbd
      ensures volumes == if ok then old(volumes)[v := Remove(old(volumes)[v], name)] else old(volumes)
      ensures old(AllConsistent(volumes)) ==> AllConsistent(volumes)
    {
      hide AllConsistent;
      if v !in volumes || name !in volumes[v].entries || !ceph || name !in volumes[v].rbd {
        return false;
      }
      if AllConsistent(volumes) {
        RemoveAllKeeps(volumes, v, name);
      }
      volumes := volumes[v := volumes[v].(rbd := volumes[v].rbd - {name})];
      volumes := volumes[v := volumes[v].(entries := volumes[v].entries - {name})];
      volumes := volumes[v := volumes[v].(snapshotCount := volumes[v].snapshotCount - 1)];
      ok := true;
    }

    /** Snapshots every volume in `rbdList`, then records the VM's configuration. `ceph(k)` says whether
        the k-th snapshot command works, `cleanup(k)` the k-th removal after a failure. All volumes get
        the snapshot, or, when every cleanup works, none does and nothing else changed either. */
    method CreateVmSnapshot(name: Name, rbdList: seq<VolumeId>, xml: string, info: map<VolumeId, string>,
                            ceph: nat -> bool, cleanup: nat -> bool) returns (outcome: Outcome)
      requires AllConsistent(volumes) && ToSet(rbdList) <= info.Keys
      modifies this
      ensures AllConsistent(volumes)
      ensures outcome == Done <==>
                && name !in old(entries) && rbdList != [] && NoRepeats(rbdList)
                && Fresh(old(volumes), ToSet(rbdList), name)
                && forall k | 0 <= k < |rbdList| :: ceph(k)
      ensures outcome == Done ==>
                && volumes == Snapped(old(volumes), ToSet(rbdList), name, info)
                && entries == old(entries)[name := VmEntry(xml, rbdList)]
      ensures outcome != Done ==> entries == old(entries)
      ensures outcome != Done && (forall k: nat :: cleanup(k)) ==> volumes == old(volumes)
      ensures outcome == Raised <==> rbdList == [] && name !in old(entries)
    {
      hide AllConsistent, Snapped, ToSet, NoRepeats, Add;
      if name in entries {
        return Failed;
      }
      if rbdList == [] {
        // the empty list of volumes cannot be taken apart
        return Raised;
      }
      ghost var start := volumes;
      var snapList: seq<VolumeId> := [];
      SnapNone(start, rbdList, name, info);
      var i := 0;
      while i < |rbdList|
        invariant 0 <= i <= |rbdList| && snapList == rbdList[..i] && AllConsistent(volumes)
        invariant NoRepeats(snapList) && ToSet(snapList) <= info.Keys && Fresh(start, ToSet(snapList), name)
        invariant volumes == Snapped(start, ToSet(snapList), name, info) && entries == old(entries)
        invariant forall k | 0 <= k < i :: ceph(k)
      {
        var v := rbdList[i];
        InSet(rbdList);
        assert rbdList[..i + 1] == rbdList[..i] + [v];
        StillFresh(start, rbdList, i, name, info);
        var ok := AddSnapshot(v, name, info[v], false, ceph(i));
        if !ok {
          CleanUp(name, snapList, cleanup, start, info);
          return Failed;
        }
        SnapOne(start, ToSet(snapList), name, info, v);
        Push(snapList, v);
        snapList := snapList + [v];
        i := i + 1;
      }
      assert snapList == rbdList;
      entries := entries[name := VmEntry(xml, snapList)];
      outcome := Done;
    }

    /** The same with `zk_only`: the snapshots were received from elsewhere, and are only recorded. It fails
        only for a volume that does not exist, and then the cleanup removes the received snapshots, too. */
    method RecordVmSnapshot(name: Name, rbdList: seq<VolumeId>, xml: string, info: map<VolumeId, string>,
                            cleanup: nat -> bool) returns (outcome: Outcome)
      requires ToSet(rbdList) <= info.Keys
      modifies this
      ensures outcome == Done <==> name !in old(entries) && rbdList != [] && ToSet(rbdList) <= old(volumes).Keys
      ensures outcome == Done && NoRepeats(rbdList) ==>
                volumes == Recorded(old(volumes), ToSet(rbdList), name, info)
      ensures entries == if outcome == Done then old(entries)[name := VmEntry(xml, rbdList)] else old(entries)
      ensures outcome == Raised <==> rbdList == [] && name !in old(entries)
    {
      hide ToSet, NoRepeats, Recorded;
      if name in entries {
        return Failed;
      }
      if rbdList == [] {
        return Raised;
      }
      ghost var start := volumes;
      InSet(rbdList);
      RecordedNone(start, rbdList, name, info);
      var i := 0;
      while i < |rbdList|
        invariant 0 <= i <= |rbdList| && entries == old(entries) && volumes.Keys == start.Keys
        invariant ToSet(rbdList[..i]) <= start.Keys && ToSet(rbdList[..i]) <= info.Keys
        invariant NoRepeats(rbdList) ==> volumes == Recorded(start, ToSet(rbdList[..i]), name, info)
      {
        var v := rbdList[i];
        assert rbdList[..i + 1] == rbdList[..i] + [v];
        Push(rbdList[..i], v);
        var ok := AddSnapshot(v, name, info[v], true, true);
        if !ok {
          RemoveAgain(name, rbdList[..i], cleanup);
          return Failed;
        }
        RecordedNext(start, rbdList, i, name, info);
        i := i + 1;
      }
      assert rbdList[..i] == rbdList;
      entries := entries[name := VmEntry(xml, rbdList)];
      outcome := Done;
    }

    /** The removals after a failure, whatever comes of them. */
    method RemoveAgain(name: Name, snapList: seq<VolumeId>, cleanup: nat -> bool)
      modifies this`volumes
      ensures volumes.Keys == old(volumes).Keys
    {
      for i := 0 to |snapList|
        invariant volumes.Keys == old(volumes).Keys
      {
        var ignored := RemoveSnapshot(snapList[i], name, cleanup(i));
      }
    }

    /** Removes what was taken before the failure, in the order it was taken, whatever comes of it. */
    method CleanUp(name: Name, snapList: seq<VolumeId>, cleanup: nat -> bool, ghost start: Volumes,
                   ghost info: map<VolumeId, string>)
      requires AllConsistent(start) && NoRepeats(snapList) && ToSet(snapList) <= info.Keys
      requires Fresh(start, ToSet(snapList), name) && AllConsistent(volumes)
      requires volumes == Snapped(start, ToSet(snapList), name, info)
      modifies this`volumes
      ensures AllConsistent(volumes)
      ensures (forall k: nat :: cleanup(k)) ==> volumes == start
    {
      var left := snapList;
      var i := 0;
      while left != []
        invariant NoRepeats(left) && ToSet(left) <= info.Keys && Fresh(start, ToSet(left), name)
        invariant AllConsistent(volumes)
        invariant (forall k: nat :: cleanup(k)) ==> volumes == Snapped(start, ToSet(left), name, info)
        decreases |left|
      {
        Pop(left);
        UnsnapOne(start, ToSet(left), name, info, left[0]);
        var ignored := RemoveSnapshot(left[0], name, cleanup(i));
        left, i := left[1..], i + 1;
      }
      assert Snapped(start, {}, name, info) == start;
    }

    /** Removes the snapshot of every volume the VM's entry lists, then the entry; stops at the first
        failure, with the volumes before it done. */
    method RemoveVmSnapshot(name: Name, ceph: nat -> bool) returns (ok: bool)
      modifies this
      ensures old(AllConsistent(volumes)) ==> AllConsistent(volumes)
      ensures ok <==> name in old(entries) && Removable(old(volumes), old(entries)[name].covered, name, ceph)
      ensures ok ==>
                && entries == old(entries) - {name}
                && volumes == Unsnapped(old(volumes), ToSet(old(entries)[name].covered), name)
      ensures !ok ==> entries == old(entries)
      ensures !ok && name !in old(entries) ==> volumes == old(volumes)
      ensures !ok && name in old(entries) ==>
                exists n :: HalfRemoved(old(volumes), old(entries)[name].covered, name, ceph, n, volumes)
    {
      hide AllConsistent, ToSet, Unsnapped, Remove, NoRepeats, HalfRemoved;
      if name !in entries {
        return false;
      }
      var covered := entries[name].covered;
      ghost var start := volumes;
      UnsnapNone(start, covered, name);
      InSet(covered);
      var i := 0;
      while i < |covered|
        invariant 0 <= i <= |covered| && entries == old(entries)
        invariant AllConsistent(start) ==> AllConsistent(volumes)
        invariant forall v | v in ToSet(covered[..i]) :: v in start && name in start[v].rbd && name in start[v].entries
        invariant volumes == Unsnapped(start, ToSet(covered[..i]), name)
        invariant NoRepeats(covered[..i]) && forall k | 0 <= k < i :: ceph(k)
      {
        var v := covered[i];
        RemovableNext(start, covered, name, ceph, i);
        assert covered[..i + 1] == covered[..i] + [v];
        Push(covered[..i], v);
        ok := RemoveSnapshot(v, name, ceph(i));
        if !ok {
          StoppedAt(start, covered, name, ceph, i, volumes);
          return;
        }
        UnsnapAnother(start, ToSet(covered[..i]), v, name);
        i := i + 1;
      }
      assert covered[..i] == covered;
      entries := entries - {name};
      ok := true;
    }
  }
}
