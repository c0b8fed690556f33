/** `cluster_backup` and `cluster_restore`: the whole store dumped depth first and written back in
    one transaction. */
module ClusterBackup {
  import opened Wrappers
  import opened Text
  import opened ZkTree
  import opened ZkWrite
  import opened ZkRename
  import ZkSchema
  import SchemaV15

  /** The built-in and database trees, which a backup leaves out. */
  predicate Skipped(p: Path) {
    p == ["zookeeper"] || p == ["patroni"]
  }

  const SCHEMA_VERSION: Path := ["schema", "version"]

  /** A Python dictionary in insertion order. */
  type Dump = seq<(Path, string)>

  ghost function Collect(list: Listing, t: Tree, p: Path): Dump
    requires IsListing(list) && Valid(t) && p in t
    decreases Subtree(t, p), 1, 0
  {
    var names := list(Children(t, p));
    assert Enumerates(names, Children(t, p));
    [(p, t[p].data)] + CollectChildren(list, t, p, names)
  }

  ghost function CollectChildren(list: Listing, t: Tree, p: Path, names: seq<string>): Dump
    requires IsListing(list) && Valid(t) && p in t
    requires forall i | 0 <= i < |names| :: names[i] in Children(t, p)
    decreases Subtree(t, p), 0, |names|
  {
    if names == [] then []
    else
      ChildSubtree(t, p, names[0]);
      (if Skipped(p + [names[0]]) then [] else Collect(list, t, p + [names[0]])) +
      CollectChildren(list, t, p, names[1..])
  }

  /** Nothing on the way from `p` down to `q` is skipped. */
  predicate Reaches(p: Path, q: Path) {
    p <= q && forall n | |p| < n <= |q| :: !Skipped(q[..n])
  }

  ghost function Covered(t: Tree, p: Path): set<Path> {
    set q | q in t.Keys && Reaches(p, q)
  }

  ghost function CoveredBy(t: Tree, p: Path, names: seq<string>): set<Path> {
    set q | q in t.Keys && |q| > |p| && Reaches(p, q) && q[|p|] in names
  }

  /** A dump lists exactly the nodes of `w` with their data, each once. */
  ghost predicate Lists(t: Tree, d: Dump, w: set<Path>) {
    && (forall i | 0 <= i < |d| :: d[i].0 in w && d[i].0 in t && d[i].1 == t[d[i].0].data)
    && (forall q | q in w :: exists i :: 0 <= i < |d| && d[i].0 == q)
    && (forall i, j | 0 <= i < j < |d| :: d[i].0 != d[j].0)
  }

  /** Every listed node hangs from `p` or from a node listed before it. */
  ghost predicate ParentsFirst(d: Dump, p: Path) {
    forall i | 0 <= i < |d| ::
      d[i].0 != [] && (Parent(d[i].0) == p || exists j :: 0 <= j < i && d[j].0 == Parent(d[i].0))
  }

  lemma ListsConcat(t: Tree, a: Dump, b: Dump, w1: set<Path>, w2: set<Path>)
    requires Lists(t, a, w1) && Lists(t, b, w2) && w1 !! w2
    ensures Lists(t, a + b, w1 + w2)
  {
    var d := a + b;
    forall q | q in w1 + w2 ensures exists i :: 0 <= i < |d| && d[i].0 == q {
      if q in w1 {
        var i :| 0 <= i < |a| && a[i].0 == q;
        assert d[i].0 == q;
      } else {
        var i :| 0 <= i < |b| && b[i].0 == q;
        assert d[|a| + i].0 == q;
      }
    }
  }

  lemma ParentsConcat(a: Dump, b: Dump, p: Path)
    requires ParentsFirst(a, p) && ParentsFirst(b, p)
    ensures ParentsFirst(a + b, p)
  {
    var d := a + b;
    forall i | 0 <= i < |d|
      ensures d[i].0 != [] && (Parent(d[i].0) == p || exists j :: 0 <= j < i && d[j].0 == Parent(d[i].0))
    {
      if i < |a| {
        assert a[i] == d[i];
        if Parent(a[i].0) != p {
          var j :| 0 <= j < i && a[j].0 == Parent(a[i].0);
          assert d[j].0 == Parent(d[i].0);
        }
      } else {
        assert b[i - |a|] == d[i];
        if Parent(d[i].0) != p {
          var j :| 0 <= j < i - |a| && b[j].0 == Parent(b[i - |a|].0);
          assert d[|a| + j].0 == Parent(d[i].0);
        }
      }
    }
  }

  /** The recursive listing of one node: itself first, then everything reachable below it. */
  lemma {:induction false} CollectLists(list: Listing, t: Tree, p: Path)
    requires IsListing(list) && Valid(t) && p in t
    ensures Lists(t, Collect(list, t, p), Covered(t, p))
    ensures Collect(list, t, p)[0].0 == p && ParentsFirst(Collect(list, t, p)[1..], p)
    decreases Subtree(t, p), 1, 0
  {
    var names := list(Children(t, p));
    assert Enumerates(names, Children(t, p));
    CollectChildrenLists(list, t, p, names);
    var kids := CollectChildren(list, t, p, names);
    var first: Dump := [(p, t[p].data)];
    assert first[0].0 == p;
    ListsConcat(t, first, kids, {p}, CoveredBy(t, p, names));
    assert Collect(list, t, p)[1..] == kids;
    CoveredSplit(t, p, names);
  }

  lemma CoveredSplit(t: Tree, p: Path, names: seq<string>)
    requires Valid(t) && p in t && Enumerates(names, Children(t, p))
    ensures Covered(t, p) == {p} + CoveredBy(t, p, names)
  {
    forall q | q in Covered(t, p) && q != p ensures q in CoveredBy(t, p, names) {
      var k := q[..|p| + 1];
      PrefixClosed(t, k, q);
      assert k in t.Keys && Parent(k) == p && k[|k| - 1] == q[|p|];
    }
  }

  lemma {:induction false} CollectChildrenLists(list: Listing, t: Tree, p: Path, names: seq<string>)
    requires IsListing(list) && Valid(t) && p in t
    requires forall i | 0 <= i < |names| :: names[i] in Children(t, p)
    requires forall i, j | 0 <= i < j < |names| :: names[i] != names[j]
    ensures Lists(t, CollectChildren(list, t, p, names), CoveredBy(t, p, names))
    ensures ParentsFirst(CollectChildren(list, t, p, names), p)
    decreases Subtree(t, p), 0, |names|
  {
    if names == [] {
    } else {
      var c, rest := names[0], names[1..];
      ChildSubtree(t, p, c);
      CollectChildrenLists(list, t, p, rest);
      var mine := if Skipped(p + [c]) then [] else Collect(list, t, p + [c]);
      if !Skipped(p + [c]) {
        CollectLists(list, t, p + [c]);
        assert ParentsFirst(mine[..1], p);
        ChildFirst(mine, p, c);
      }
      OneCovered(t, p, c, rest);
      assert names == [c] + rest && c !in rest;
      ListsConcat(t, mine, CollectChildren(list, t, p, rest), CoveredBy(t, p, [c]), CoveredBy(t, p, rest));
      ParentsConcat(mine, CollectChildren(list, t, p, rest), p);
    }
  }

  lemma ChildFirst(d: Dump, p: Path, c: string)
    requires d != [] && d[0].0 == p + [c] && ParentsFirst(d[1..], p + [c])
    ensures ParentsFirst(d, p)
  {
    forall i | 0 <= i < |d|
      ensures d[i].0 != [] && (Parent(d[i].0) == p || exists j :: 0 <= j < i && d[j].0 == Parent(d[i].0))
    {
      if i > 0 {
        assert d[1..][i - 1] == d[i];
        if Parent(d[i].0) == p + [c] {
          assert d[0].0 == Parent(d[i].0);
        } else {
          var j :| 0 <= j < i - 1 && d[1..][j].0 == Parent(d[i].0);
          assert d[j + 1].0 == Parent(d[i].0);
        }
      }
    }
  }

  lemma OneCovered(t: Tree, p: Path, c: string, rest: seq<string>)
    requires c !in rest
    ensures CoveredBy(t, p, [c]) == if Skipped(p + [c]) then {} else Covered(t, p + [c])
    ensures CoveredBy(t, p, [c] + rest) == CoveredBy(t, p, [c]) + CoveredBy(t, p, rest)
    ensures CoveredBy(t, p, [c]) !! CoveredBy(t, p, rest)
  {
    forall q | q in t.Keys && |q| > |p| && p <= q && q[|p|] == c
      ensures Reaches(p, q) <==> !Skipped(p + [c]) && Reaches(p + [c], q)
    {
      assert q[..|p| + 1] == p + [c];
    }
    forall q | q in Covered(t, p + [c]) ensures |q| > |p| && p <= q && q[|p|] == c {
      assert p <= p + [c] <= q;
    }
  }

  /** What a backup of the whole store covers. */
  ghost function Backed(t: Tree): set<Path> {
    set q | q in t.Keys && !(["zookeeper"] <= q) && !(["patroni"] <= q)
  }

  lemma BackedIsCovered(t: Tree)
    ensures Covered(t, []) == Backed(t)
  {
    forall q | q in t ensures Reaches([], q) <==> !(["zookeeper"] <= q) && !(["patroni"] <= q) {
      if |q| >= 1 {
        assert !Skipped(q[..1]) <==> !(["zookeeper"] <= q) && !(["patroni"] <= q);
      }
      forall n | 1 < n <= |q| ensures !Skipped(q[..n]) {
        assert |q[..n]| == n;
      }
    }
  }

  function AsWrite(d: Dump): seq<(Resolution, string)> {
    seq(|d|, i requires 0 <= i < |d| => (At(d[i].0), d[i].1))
  }

  lemma {:induction false} AsSamples(d: Dump, kv: seq<(Resolution, string)>, t: Tree)
    requires |kv| == |d| && forall i | 0 <= i < |d| :: kv[i] == (At(d[i].0), d[i].1)
    ensures |Pairs(kv, t)| == |d|
    ensures forall i | 0 <= i < |d| :: Pairs(kv, t)[i] == Sample(d[i].0, d[i].1, See(t, d[i].0))
    decreases |d|
  {
    if d != [] {
      AsSamples(d[1..], kv[1..], t);
    }
  }

  /** `r` is `t` with every backed-up node of `t0` present at its saved value, and all else as in `t`. */
  ghost predicate RestoredFrom(t0: Tree, t: Tree, r: Tree) {
    && (forall q | q in Backed(t0) :: q in r && r[q].data == t0[q].data)
    && (forall q | q in t && q !in Backed(t0) :: q in r && r[q] == t[q])
    && (forall q | q in r && q !in Backed(t0) :: q in t)
  }

  /** Every path the backup lists finds its parent in the tree or earlier in the list. */
  lemma BackupHasParents(list: Listing, t0: Tree, t: Tree)
    requires IsListing(list) && Valid(t0) && Valid(t)
    ensures var ss := Pairs(AsWrite(Collect(list, t0, [])), t);
      forall i | 0 <= i < |ss| && ss[i].path !in t :: HasParent(t, ss, i)
  {
    hide Collect, Pairs, IsListing;
    var d := Collect(list, t0, []);
    var ss := Pairs(AsWrite(d), t);
    CollectLists(list, t0, []);
    AsSamples(d, AsWrite(d), t);
    forall i | 0 <= i < |ss| && ss[i].path !in t ensures HasParent(t, ss, i) {
      assert i > 0 && d[1..][i - 1] == d[i];
      if Parent(d[i].0) != [] {
        var j :| 0 <= j < i - 1 && d[1..][j].0 == Parent(d[i].0);
        assert ss[j + 1].path == Parent(ss[i].path);
      }
    }
  }

  /** Restoring a backup of any tree onto any tree commits, gives every backed-up path its saved
      value, and leaves every other path alone. */
  lemma BackupRestores(list: Listing, t0: Tree, t: Tree)
    requires IsListing(list) && Valid(t0) && Valid(t)
    ensures var ops := WriteOps(Pairs(AsWrite(Collect(list, t0, [])), t));
            Run(t, ops).Some? && RestoredFrom(t0, t, Run(t, ops).value)
  {
    hide Collect, Pairs, IsListing, HasParent, Backed, Lists, RestoredFrom, WrittenTo, Distinct;
    var d := Collect(list, t0, []);
    var kv := AsWrite(d);
    var ss := Pairs(kv, t);
    CollectLists(list, t0, []);
    BackedIsCovered(t0);
    AsSamples(d, kv, t);
    BackupHasParents(list, t0, t);
    ListedOnce(t0, d, ss);
    QuietWriteExact(kv, seq(|kv|, i => Moment(t, t)), t);
    AllRestored(t0, t, d, ss, Run(t, WriteOps(ss)).value);
  }

  lemma ListedOnce(t0: Tree, d: Dump, ss: seq<Sample>)
    requires Lists(t0, d, Backed(t0)) && |ss| == |d| && forall i | 0 <= i < |d| :: ss[i].path == d[i].0
    ensures Distinct(ss)
  {
  }

  /** Writing what a backup lists restores it. */
  lemma AllRestored(t0: Tree, t: Tree, d: Dump, ss: seq<Sample>, r: Tree)
    requires Lists(t0, d, Backed(t0)) && |ss| == |d|
    requires forall i | 0 <= i < |d| :: ss[i].path == d[i].0 && ss[i].value == d[i].1
    requires WrittenTo(t, ss, r)
    ensures RestoredFrom(t0, t, r)
  {
    hide Backed;
    forall q | q in Backed(t0) ensures q in r && r[q].data == t0[q].data {
      var i :| 0 <= i < |d| && d[i].0 == q;
      assert ss[i].path == q && IsLast(ss, i);
    }
    forall q | q !in Backed(t0) ensures Unlisted(ss, q) {
    }
  }

  datatype Outcome = Restored | Refused | Mismatch | Raised

  function Lookup(d: Dump, p: Path): Option<string> {
    if d == [] then None
    else if d[|d| - 1].0 == p then Some(d[|d| - 1].1)
    else Lookup(d[..|d| - 1], p)
  }

  lemma {:induction false} LookupFinds(d: Dump, p: Path)
    requires forall i, j | 0 <= i < j < |d| :: d[i].0 != d[j].0
    ensures forall i | 0 <= i < |d| && d[i].0 == p :: Lookup(d, p) == Some(d[i].1)
    ensures (forall i | 0 <= i < |d| :: d[i].0 != p) ==> Lookup(d, p).None?
    decreases |d|
  {
    if d != [] {
      LookupFinds(d[..|d| - 1], p);
      assert forall i | 0 <= i < |d| - 1 :: d[..|d| - 1][i] == d[i];
    }
  }

  /** A dump names the schema version of the tree it was taken from, so a cluster at that version
      accepts it. */
  lemma BackupVersion(list: Listing, t: Tree)
    requires IsListing(list) && Valid(t)
    ensures Lookup(Collect(list, t, []), SCHEMA_VERSION) ==
            if SCHEMA_VERSION in t then Some(t[SCHEMA_VERSION].data) else None
  {
    var d := Collect(list, t, []);
    CollectLists(list, t, []);
    BackedIsCovered(t);
    LookupFinds(d, SCHEMA_VERSION);
    if SCHEMA_VERSION in t {
      assert SCHEMA_VERSION[0] == "schema";
      assert !(["zookeeper"] <= SCHEMA_VERSION) && !(["patroni"] <= SCHEMA_VERSION);
      assert SCHEMA_VERSION in Backed(t);
    }
  }

  /** The version a dump names, if it is a number. */
  function StoredVersion(d: Dump): Option<int> {
    var version :- Lookup(d, SCHEMA_VERSION);
    ParseInt(version)
  }

  /** One cluster's side of backup and restore. */
  class Cluster {
    const server: Server
    const schemaVersion: nat
    var clusterData: Dump

    constructor (server: Server, schemaVersion: nat)
      ensures this.server == server && this.schemaVersion == schemaVersion && clusterData == []
    {
      this.server, this.schemaVersion, clusterData := server, schemaVersion, [];
    }

    /** `get_data`: reads one node, then its children. */
    method GetData(p: Path)
      requires IsListing(server.list) && Valid(server.tree) && p in server.tree
      modifies this`clusterData
      ensures clusterData == old(clusterData) + Collect(server.list, server.tree, p)
      decreases Subtree(server.tree, p), 1
    {
      clusterData := clusterData + [(p, server.tree[p].data)];
      var names := server.list(Children(server.tree, p));
      ghost var kids := NodeListing(server.list, server.tree, p, names);
      GetChildren(p, names);
    }

    method GetChildren(p: Path, names: seq<string>)
      requires IsListing(server.list) && Valid(server.tree) && p in server.tree
      requires forall k | 0 <= k < |names| :: names[k] in Children(server.tree, p)
      modifies this`clusterData
      ensures clusterData == old(clusterData) + CollectChildren(server.list, server.tree, p, names)
      decreases Subtree(server.tree, p), 0
    {
      ghost var total := clusterData + CollectChildren(server.list, server.tree, p, names);
      var i := 0;
      while i < |names|
        invariant 0 <= i <= |names|
        invariant clusterData + CollectChildren(server.list, server.tree, p, names[i..]) == total
      {
        ghost var one, rest := NextListed(server.list, server.tree, p, names, i);
        AppendOne(clusterData, one, rest);
        if !Skipped(p + [names[i]]) {
          GetData(p + [names[i]]);
        }
        i := i + 1;
      }
      assert clusterData + [] == clusterData;
    }

    method Backup() returns (dump: Dump)
      requires IsListing(server.list) && Valid(server.tree)
      modifies this`clusterData
      ensures dump == Collect(server.list, server.tree, [])
      ensures Lists(server.tree, dump, Backed(server.tree))
    {
      clusterData := [];
      GetData([]);
      dump := clusterData;
      CollectLists(server.list, server.tree, []);
      BackedIsCovered(server.tree);
    }

    /** Refuses a dump of another schema version; raises when the dump names no version at all. */
    method Restore(dump: Dump) returns (outcome: Outcome)
      modifies server
      ensures outcome == Raised <==> StoredVersion(dump).None?
      ensures outcome == Mismatch <==> StoredVersion(dump).Some? && StoredVersion(dump).value != schemaVersion
      ensures outcome != Restored ==> server.tree == old(server.tree)
      ensures outcome in {Restored, Refused} ==>
              && (outcome == Restored) == Run(old(server.tree), WriteOps(Pairs(AsWrite(dump), old(server.tree)))).Some?
              && (outcome == Restored ==>
                  Run(old(server.tree), WriteOps(Pairs(AsWrite(dump), old(server.tree)))) == Some(server.tree))
    {
      var kv: seq<(Resolution, string)> := [];
      var version: Option<string> := None;
      var i := 0;
      while i < |dump|
        invariant 0 <= i <= |dump|
        invariant version == Lookup(dump[..i], SCHEMA_VERSION)
        invariant kv == AsWrite(dump[..i])
      {
        assert dump[..i + 1][..i] == dump[..i];
        if dump[i].0 == SCHEMA_VERSION {
          version := Some(dump[i].1);
        }
        kv := kv + [(At(dump[i].0), dump[i].1)];
        i := i + 1;
      }
      assert dump[..i] == dump;
      if version.None? || ParseInt(version.value).None? {
        return Raised;
      }
      if ParseInt(version.value).value != schemaVersion {
        return Mismatch;
      }
      var handler := new ZkWrite.Handler(server);
      var tree := server.tree;
      var schedule := seq(|kv|, i => Moment(tree, tree));
      QuietSampling(kv, schedule, server.tree);
      var ok := handler.Write(kv, schedule, tree);
      outcome := if ok then Restored else Refused;
    }
  }

  lemma DumpedVersion(list: Listing, t: Tree)
    requires IsListing(list) && Valid(t)
    ensures StoredVersion(Collect(list, t, [])) ==
            if ["schema", "version"] in t then ParseInt(t[["schema", "version"]].data) else None
  {
    BackupVersion(list, t);
  }

  /** A backup of one cluster, restored on another: accepted exactly when the other's schema version is the one
      stored in the first one's tree, and then every node backed up is there with its data, and nothing else
      has changed. Where no version is stored, or no number, it raises. */
  method BackupAndRestore(source: Cluster, target: Cluster) returns (outcome: Outcome)
    requires IsListing(source.server.list) && Valid(source.server.tree) && Valid(target.server.tree)
    modifies source`clusterData, target.server
    ensures var t := old(source.server.tree);
            match if ["schema", "version"] in t then ParseInt(t[["schema", "version"]].data) else None
            case Some(v) =>
              if v == target.schemaVersion then
                outcome == Restored && RestoredFrom(t, old(target.server.tree), target.server.tree)
              else
                outcome == Mismatch && target.server.tree == old(target.server.tree)
            case None => outcome == Raised && target.server.tree == old(target.server.tree)
  {
    hide *;
    var dump := source.Backup();
    DumpedVersion(source.server.list, source.server.tree);
    BackupRestores(source.server.list, source.server.tree, target.server.tree);
    outcome := target.Restore(dump);
  }

  /** The store of a cluster that was initialized at schema version 15 says so, so its backup is accepted on
      clusters at that version. */
  lemma FreshVersion(t0: Tree, t: Tree)
    requires ZkSchema.WellFormed(SchemaV15.V15) && ZkSchema.AppliedTo(SchemaV15.V15, t0, t)
    requires ["schema", "version"] !in t0
    ensures ["schema", "version"] in t && ParseInt(t[["schema", "version"]].data) == Some(15)
  {
    hide *;
    VersionDemanded(t, Decimal(15));
    AppliedAt(SchemaV15.V15, t0, t, ["schema", "version"], Decimal(15));
    VersionDemanded(t, t[["schema", "version"]].data);
    ParseIntDecimal(15);
  }

  lemma AppliedAt(s: ZkSchema.Schema, t0: Tree, t: Tree, p: Path, d: string)
    requires ZkSchema.WellFormed(s) && ZkSchema.AppliedTo(s, t0, t) && ZkSchema.Demanded(s, t, p, d) && p !in t0
    ensures p in t && ZkSchema.Demanded(s, t, p, t[p].data)
  {
    hide ZkSchema.WellFormed, ZkSchema.Demanded;
  }

  lemma VersionDemanded(t: Tree, d: string)
    requires ZkSchema.WellFormed(SchemaV15.V15)
    ensures ZkSchema.Demanded(SchemaV15.V15, t, ["schema", "version"], d) <==> d == Decimal(15)
  {
    hide *;
    VersionInBase(d);
    forall e | e in ZkSchema.ITEMS ensures RootElsewhere(SchemaV15.V15, e) {
      V15Elsewhere(e);
    }
    OnlyInBase(SchemaV15.V15, t, d);
  }

  lemma V15Elsewhere(e: string)
    requires e in ZkSchema.ITEMS
    ensures RootElsewhere(SchemaV15.V15, e)
  {
    hide *;
    SchemaV15.V15Elements(e);
    PlaceElsewhere(e);
    FoundElsewhere(SchemaV15.V15, e, SchemaV15.Place(e));
  }

  lemma PlaceElsewhere(e: string)
    ensures SchemaV15.Place(e) != [] && SchemaV15.Place(e)[0] != "schema"
  {
  }

  lemma FoundElsewhere(s: ZkSchema.Schema, e: string, place: Path)
    requires ZkSchema.Find(s.base, e) == Some(place) && place != [] && place[0] != "schema"
    ensures RootElsewhere(s, e)
  {
  }

  lemma VersionInBase(d: string)
    ensures ZkSchema.DemandedBase(SchemaV15.V15, ["schema", "version"], d) <==> d == Decimal(15)
  {
    hide *;
    OnlyVersion();
    AtVersion(SchemaV15.V15, d);
  }

  lemma OnlyVersion()
    ensures SchemaV15.V15.version == 15 && |SchemaV15.V15.base| > 2
    ensures SchemaV15.V15.base[2] == ("schema.version", ["schema", "version"])
    ensures forall i | 0 <= i < |SchemaV15.V15.base| && SchemaV15.V15.base[i].1 == ["schema", "version"] :: i == 2
  {
    hide SchemaV15.V15, SchemaV15.BASE;
    V15Base();
    VersionThere();
    forall i | 0 <= i < |SchemaV15.BASE| && SchemaV15.BASE[i].1 == ["schema", "version"] ensures i == 2 {
      VersionOnce(i);
    }
  }

  lemma V15Base()
    ensures SchemaV15.V15.base == SchemaV15.BASE && SchemaV15.V15.version == 15
  {
    hide SchemaV15.BASE, SchemaV15.KeysOf;
  }

  lemma VersionThere()
    ensures |SchemaV15.BASE| > 2 && SchemaV15.BASE[2] == ("schema.version", ["schema", "version"])
  {
  }

  lemma VersionOnce(i: nat)
    requires i < |SchemaV15.BASE| && SchemaV15.BASE[i].1 == ["schema", "version"]
    ensures i == 2
  {
    assert SchemaV15.BASE[i].1[1] == "version";
  }

  lemma AtVersion(s: ZkSchema.Schema, d: string)
    requires |s.base| > 2 && s.base[2] == ("schema.version", ["schema", "version"])
    requires forall i | 0 <= i < |s.base| && s.base[i].1 == ["schema", "version"] :: i == 2
    ensures ZkSchema.DemandedBase(s, ["schema", "version"], d) <==> d == Decimal(s.version)
  {
    hide Decimal;
  }

  predicate RootElsewhere(s: ZkSchema.Schema, e: string) {
    && ZkSchema.Find(s.base, e).Some? && ZkSchema.Root(s, e) != []
    && ZkSchema.Root(s, e)[0] != "schema"
  }

  lemma OnlyInBase(s: ZkSchema.Schema, t: Tree, d: string)
    requires ZkSchema.WellFormed(s) && forall e | e in ZkSchema.ITEMS :: RootElsewhere(s, e)
    ensures var p := ["schema", "version"]; ZkSchema.Demanded(s, t, p, d) <==> ZkSchema.DemandedBase(s, p, d)
  {
    assert ZkSchema.SIMPLE[2] == "network" && RootElsewhere(s, "network");
    forall e, q | e in ZkSchema.ITEMS && ZkSchema.IsItem(s, e, q) ensures !(q <= ["schema", "version"]) {
      assert RootElsewhere(s, e) && q[0] == ZkSchema.Root(s, e)[0];
    }
  }

  lemma AppendOne(d: Dump, one: Dump, rest: Dump)
    ensures d + (one + rest) == (d + one) + rest
    ensures one == [] ==> d + one == d
  {
  }

  lemma NextListed(list: Listing, t: Tree, p: Path, names: seq<string>, i: nat) returns (one: Dump, rest: Dump)
    requires IsListing(list) && Valid(t) && p in t && i < |names|
    requires forall k | 0 <= k < |names| :: names[k] in Children(t, p)
    ensures p + [names[i]] in t && Subtree(t, p + [names[i]]) < Subtree(t, p)
    ensures one == if Skipped(p + [names[i]]) then [] else Collect(list, t, p + [names[i]])
    ensures rest == CollectChildren(list, t, p, names[i + 1..])
    ensures CollectChildren(list, t, p, names[i..]) == one + rest
  {
    ChildSubtree(t, p, names[i]);
    one := if Skipped(p + [names[i]]) then [] else Collect(list, t, p + [names[i]]);
    rest := CollectChildren(list, t, p, names[i + 1..]);
    assert names[i..][0] == names[i] && names[i..][1..] == names[i + 1..];
  }

  lemma NodeListing(list: Listing, t: Tree, p: Path, names: seq<string>) returns (kids: Dump)
    requires IsListing(list) && Valid(t) && p in t && names == list(Children(t, p))
    ensures forall k | 0 <= k < |names| :: names[k] in Children(t, p)
    ensures kids == CollectChildren(list, t, p, names)
    ensures Collect(list, t, p) == [(p, t[p].data)] + kids
  {
    assert Enumerates(names, Children(t, p));
    kids := CollectChildren(list, t, p, names);
  }
}
