/** `run_vm_backup`: one VM's newest-first list of full and incremental backups, extended and pruned on
    every run. Successful runs only. */
module Autobackup {
  import opened Wrappers

  type Name = nat

  datatype Kind = Full | Incremental

  datatype Backup = Backup(name: Name, kind: Kind, parent: Option<Name>)

  type List = seq<Backup>

  function FirstFull(l: List): Option<Name> {
    if l == [] then None else if l[0].kind == Full then Some(l[0].name) else FirstFull(l[1..])
  }

  /** How many incrementals are newer than the newest full backup. */
  function Gap(l: List): nat {
    if l == [] || l[0].kind == Full then 0 else 1 + Gap(l[1..])
  }

  predicate Names(l: List, n: Name) {
    exists i | 0 <= i < |l| :: l[i].name == n
  }

  /** Each backup has its own name, and every incremental one builds on the newest full backup older
      than it. */
  predicate Chained(l: List) {
    l == [] ||
    (&& Chained(l[1..]) && !Names(l[1..], l[0].name)
     && (l[0].kind == Incremental ==> l[0].parent.Some? && l[0].parent == FirstFull(l[1..])))
  }

  /** The list through its r-th full backup. */
  function Through(l: List, r: nat): List {
    if r == 0 || l == [] then [] else [l[0]] + Through(l[1..], if l[0].kind == Full then r - 1 else r)
  }

  /** And what comes after it. */
  function Beyond(l: List, r: nat): List {
    if r == 0 then l else if l == [] then [] else Beyond(l[1..], if l[0].kind == Full then r - 1 else r)
  }

  lemma {:induction false} Cut(l: List, r: nat)
    ensures Through(l, r) + Beyond(l, r) == l
    decreases |l|
  {
    if r > 0 && l != [] {
      Cut(l[1..], if l[0].kind == Full then r - 1 else r);
    }
  }

  function OfKind(l: List, k: Kind): List {
    if l == [] then [] else (if l[0].kind == k then [l[0]] else []) + OfKind(l[1..], k)
  }

  // The marking and removing loops

  /** The full backups of `l` that are more than `r` from the front, `found` of them already passed. */
  function Expired(l: List, found: nat, r: int): List {
    if l == [] then []
    else if l[0].kind == Full then (if found + 1 > r then [l[0]] else []) + Expired(l[1..], found + 1, r)
    else Expired(l[1..], found, r)
  }

  /** `marked` extended by the incrementals of `l` whose parent is marked already. */
  function Dependents(l: List, marked: List): List
    decreases |l|
  {
    if l == [] then marked
    else if l[0].kind == Incremental && l[0].parent.Some? && Names(marked, l[0].parent.value)
    then Dependents(l[1..], marked + [l[0]])
    else Dependents(l[1..], marked)
  }

  /** `list.remove`: the first element that equals it. */
  function RemoveFirst(l: List, b: Backup): List {
    if l == [] then [] else if l[0] == b then l[1..] else [l[0]] + RemoveFirst(l[1..], b)
  }

  function RemoveAll(l: List, bs: List): List
    decreases |bs|
  {
    if bs == [] then l else RemoveAll(RemoveFirst(l, bs[0]), bs[1..])
  }

  function Marked(l: List, r: int): List {
    Dependents(l, Expired(l, 0, r))
  }

  function NewBackup(l: List, interval: int, force: bool, name: Name): Backup {
    var last := FirstFull(l);
    if last.None? || force || Gap(l) >= interval - 1 then Backup(name, Full, None)
    else Backup(name, Incremental, last)
  }

  /** The list after one successful run. */
  function NextList(l: List, interval: int, retention: int, force: bool, name: Name): List {
    [NewBackup(l, interval, force, name)] + RemoveAll(l, Marked(l, retention))
  }

  function NamesOf(l: List): set<Name> {
    set i | 0 <= i < |l| :: l[i].name
  }

  /** The VM's snapshots after one successful run. */
  function LiveNext(live: set<Name>, l: List, interval: int, retention: int, force: bool, name: Name): set<Name> {
    (if NewBackup(l, interval, force, name).kind == Full then live + {name} else live + {name} - {name})
    - NamesOf(Marked(l, retention))
  }

  lemma NamesOfNone(l: List)
    ensures NamesOf(l[..0]) == {}
  {
  }

  lemma NamesOfMore(l: List, b: Backup)
    ensures NamesOf(l + [b]) == NamesOf(l) + {b.name}
  {
    assert forall k | 0 <= k < |l| :: (l + [b])[k] == l[k];
    assert (l + [b])[|l|] == b;
  }

  // One step of each loop

  lemma FirstFullFrom(l: List, i: nat)
    requires i <= |l|
    ensures FirstFull(l[i..]) ==
            if i == |l| then None else if l[i].kind == Full then Some(l[i].name) else FirstFull(l[i + 1..])
    ensures Gap(l[i..]) == if i == |l| || l[i].kind == Full then 0 else 1 + Gap(l[i + 1..])
  {
    assert i < |l| ==> l[i..][1..] == l[i + 1..];
  }

  lemma ExpiredAt(l: List, i: nat, found: nat, r: int)
    requires i <= |l|
    ensures Expired(l[i..], found, r) ==
            if i == |l| then []
            else if l[i].kind == Full then (if found + 1 > r then [l[i]] else []) + Expired(l[i + 1..], found + 1, r)
            else Expired(l[i + 1..], found, r)
  {
    assert i < |l| ==> l[i..][1..] == l[i + 1..];
  }

  lemma DependentsAt(l: List, i: nat, marked: List)
    requires i <= |l|
    ensures Dependents(l[i..], marked) ==
            if i == |l| then marked
            else if l[i].kind == Incremental && l[i].parent.Some? && Names(marked, l[i].parent.value)
            then Dependents(l[i + 1..], marked + [l[i]])
            else Dependents(l[i + 1..], marked)
  {
    assert i < |l| ==> l[i..][1..] == l[i + 1..];
  }

  lemma RemoveAllAt(l: List, bs: List, i: nat)
    requires i <= |bs|
    ensures RemoveAll(l, bs[i..]) == if i == |bs| then l else RemoveAll(RemoveFirst(l, bs[i]), bs[i + 1..])
  {
    assert i < |bs| ==> bs[i..][1..] == bs[i + 1..];
  }

  class Worker {
    const fullInterval: int
    const fullRetention: int
    var trackedBackups: List
    var snapshots: set<Name>   // the VM's "ab" snapshots still in existence

    constructor (fullInterval: int, fullRetention: int)
      ensures this.fullInterval == fullInterval && this.fullRetention == fullRetention
      ensures trackedBackups == [] && snapshots == {}
    {
      this.fullInterval, this.fullRetention := fullInterval, fullRetention;
      trackedBackups, snapshots := [], {};
    }

    method RunVmBackup(forceFull: bool, snapshotName: Name)
      modifies this
      ensures trackedBackups == NextList(old(trackedBackups), fullInterval, fullRetention, forceFull, snapshotName)
      ensures snapshots ==
              LiveNext(old(snapshots), old(trackedBackups), fullInterval, fullRetention, forceFull, snapshotName)
    {
      hide FirstFull, Gap, Expired, Dependents, RemoveAll, RemoveFirst, NamesOf, Names;
      ghost var start := trackedBackups;
      assert start[0..] == start;
      // full or incremental
      var lastFull: Option<Name>, index := None, 0;
      while index < |trackedBackups| && lastFull.None?
        invariant trackedBackups == start && snapshots == old(snapshots) && 0 <= index <= |start|
        invariant lastFull.None? ==> FirstFull(trackedBackups) == FirstFull(trackedBackups[index..])
        invariant lastFull.None? ==> Gap(trackedBackups) == index + Gap(trackedBackups[index..])
        invariant lastFull.Some? ==> FirstFull(trackedBackups) == lastFull && Gap(trackedBackups) == index
        decreases |trackedBackups| - index, lastFull.None?
      {
        FirstFullFrom(trackedBackups, index);
        if trackedBackups[index].kind == Full {
          lastFull := Some(trackedBackups[index].name);
        } else {
          index := index + 1;
        }
      }
      FirstFullFrom(trackedBackups, index);
      var parent := if lastFull.None? || forceFull || index >= fullInterval - 1 then None else lastFull;
      var retain := parent.None?;
      var backup := Backup(snapshotName, if parent.Some? then Incremental else Full, parent);

      // the snapshot exists for the export, and is dropped again unless it is kept
      snapshots := snapshots + {snapshotName};
      if !retain {
        snapshots := snapshots - {snapshotName};
      }

      ghost var live := snapshots;
      // expired full backups
      var marked: List := [];
      var found, i := 0, 0;
      while i < |trackedBackups|
        invariant trackedBackups == start && snapshots == live && 0 <= i <= |start|
        invariant marked + Expired(start[i..], found, fullRetention) == Expired(start, 0, fullRetention)
      {
        ExpiredAt(start, i, found, fullRetention);
        if trackedBackups[i].kind == Full {
          found := found + 1;
          if found > fullRetention {
            marked := marked + [trackedBackups[i]];
          }
        }
        i := i + 1;
      }
      ExpiredAt(start, i, found, fullRetention);
      assert marked == Expired(start, 0, fullRetention);
      // incrementals that depend on them
      i := 0;
      while i < |trackedBackups|
        invariant trackedBackups == start && snapshots == live && 0 <= i <= |start|
        invariant Dependents(start[i..], marked) == Marked(start, fullRetention)
      {
        DependentsAt(start, i, marked);
        var b := trackedBackups[i];
        if b.kind == Incremental && b.parent.Some? && Names(marked, b.parent.value) {
          marked := marked + [b];
        }
        i := i + 1;
      }
      DependentsAt(start, i, marked);
      // removal, whether or not a snapshot of that name still exists
      i := 0;
      assert marked[0..] == marked;
      NamesOfNone(marked);
      while i < |marked|
        invariant 0 <= i <= |marked|
        invariant RemoveAll(trackedBackups, marked[i..]) == RemoveAll(start, marked)
        invariant snapshots == live - NamesOf(marked[..i])
      {
        RemoveAllAt(trackedBackups, marked, i);
        assert marked[..i + 1] == marked[..i] + [marked[i]];
        NamesOfMore(marked[..i], marked[i]);
        snapshots := snapshots - {marked[i].name};
        trackedBackups := RemoveFirst(trackedBackups, marked[i]);
        i := i + 1;
      }
      assert marked[..i] == marked;
      RemoveAllAt(trackedBackups, marked, i);
      trackedBackups := [backup] + trackedBackups;
    }
  }

  // What the marking finds: everything beyond the retained prefix

  lemma {:induction false} ExpiredIsBeyond(l: List, found: nat, r: int)
    requires r >= 0
    ensures Expired(l, found, r) == if found <= r then OfKind(Beyond(l, r - found), Full) else OfKind(l, Full)
    decreases |l|
  {
    if l != [] {
      ExpiredIsBeyond(l[1..], if l[0].kind == Full then found + 1 else found, r);
    }
  }

  lemma {:induction false} NamesConcat(a: List, b: List, n: Name)
    ensures Names(a + b, n) <==> Names(a, n) || Names(b, n)
  {
    if Names(a, n) {
      var i :| 0 <= i < |a| && a[i].name == n;
      assert (a + b)[i].name == n;
    }
    if Names(b, n) {
      var i :| 0 <= i < |b| && b[i].name == n;
      assert (a + b)[|a| + i].name == n;
    }
  }

  lemma {:induction false} OfKindNames(l: List, k: Kind)
    ensures forall b | b in OfKind(l, k) :: b in l && b.kind == k
    ensures forall b | b in l && b.kind == k :: b in OfKind(l, k)
    ensures forall n | Names(OfKind(l, k), n) :: Names(l, n)
    ensures FirstFull(l).Some? ==> Names(OfKind(l, Full), FirstFull(l).value) && Names(l, FirstFull(l).value)
  {
    if l != [] {
      OfKindNames(l[1..], k);
      OfKindNames(l[1..], Full);
      var head: List := if l[0].kind == k then [l[0]] else [];
      assert l == [l[0]] + l[1..];
      forall n ensures Names(OfKind(l, k), n) <==> Names(head, n) || Names(OfKind(l[1..], k), n) {
        NamesConcat(head, OfKind(l[1..], k), n);
      }
      forall n ensures Names(l, n) <==> n == l[0].name || Names(l[1..], n) {
        NamesConcat([l[0]], l[1..], n);
      }
      assert Names(head, l[0].name) <==> l[0].kind == k by {
        if l[0].kind == k { assert head[0].name == l[0].name; }
      }
      if l[0].kind == Full {
        assert OfKind(l, Full)[0].name == l[0].name;
      } else {
        NamesConcat([], OfKind(l[1..], Full), if FirstFull(l).Some? then FirstFull(l).value else 0);
        assert OfKind(l, Full) == OfKind(l[1..], Full);
      }
    }
  }

  lemma {:induction false} ChainedParts(a: List, b: List)
    requires Chained(a + b)
    ensures Chained(b)
    ensures forall n | Names(a, n) :: !Names(b, n)
    decreases |a|
  {
    if a == [] {
      assert a + b == b;
    } else {
      assert (a + b)[1..] == a[1..] + b && (a + b)[0] == a[0];
      ChainedParts(a[1..], b);
      assert a == [a[0]] + a[1..];
      forall n | Names(a, n) ensures !Names(b, n) {
        NamesConcat([a[0]], a[1..], n);
        NamesConcat(a[1..], b, n);
      }
    }
  }

  /** In the retained part no incremental depends on an expired full backup. */
  lemma {:induction false} PrefixIndependent(l: List, r: nat, rest: List, marked: List)
    requires Chained(l) && forall n | Names(Through(l, r), n) :: !Names(marked, n)
    ensures Dependents(Through(l, r) + rest, marked) == Dependents(rest, marked)
    decreases |l|
  {
    var p := Through(l, r);
    if p == [] {
      assert p + rest == rest;
    } else {
      var r' := if l[0].kind == Full then r - 1 else r;
      var q := Through(l[1..], r');
      assert (p + rest)[0] == l[0] && (p + rest)[1..] == q + rest;
      assert p == [l[0]] + q;
      forall n | Names(q, n) ensures !Names(marked, n) {
        NamesConcat([l[0]], q, n);
      }
      PrefixIndependent(l[1..], r', rest, marked);
      if l[0].kind == Incremental {
        FirstFullKept(l[1..], r');
        NamesConcat([l[0]], q, l[0].parent.value);
      }
    }
  }

  lemma {:induction false} FirstFullKept(l: List, r: nat)
    requires r > 0
    ensures FirstFull(Through(l, r)) == FirstFull(l) && Gap(Through(l, r)) == Gap(l)
    ensures FirstFull(l).Some? ==> Names(Through(l, r), FirstFull(l).value)
    decreases |l|
  {
    if l != [] {
      var q := Through(l[1..], if l[0].kind == Full then r - 1 else r);
      assert Through(l, r)[1..] == q && Through(l, r)[0] == l[0];
      if l[0].kind == Full {
        assert Through(l, r)[0].name == l[0].name;
      } else {
        FirstFullKept(l[1..], r);
        if FirstFull(l).Some? {
          NamesConcat([l[0]], q, FirstFull(l).value);
        }
      }
    }
  }

  /** Beyond it, every incremental does. */
  lemma {:induction false} SuffixDependent(l: List, marked: List)
    requires Chained(l) && forall n | Names(OfKind(l, Full), n) :: Names(marked, n)
    ensures Dependents(l, marked) == marked + OfKind(l, Incremental)
    decreases |l|
  {
    if l != [] {
      hide Names;
      var rest := l[1..];
      var head: List := if l[0].kind == Full then [l[0]] else [];
      forall n | Names(OfKind(rest, Full), n) ensures Names(marked, n) {
        NamesConcat(head, OfKind(rest, Full), n);
      }
      if l[0].kind == Incremental {
        OfKindNames(rest, Full);
        assert Names(marked, l[0].parent.value);
        forall n | Names(OfKind(rest, Full), n) ensures Names(marked + [l[0]], n) {
          NamesConcat(marked, [l[0]], n);
        }
        SuffixDependent(rest, marked + [l[0]]);
        assert marked + [l[0]] + OfKind(rest, Incremental) == marked + OfKind(l, Incremental);
      } else {
        SuffixDependent(rest, marked);
      }
    }
  }

  /** The loops mark exactly what comes after the retained prefix: its full backups, then its
      incremental ones. */
  lemma MarkedIsBeyond(l: List, r: nat)
    requires Chained(l) && r > 0
    ensures Marked(l, r) == OfKind(Beyond(l, r), Full) + OfKind(Beyond(l, r), Incremental)
  {
    var p, q := Through(l, r), Beyond(l, r);
    ExpiredIsBeyond(l, 0, r);
    var expired := OfKind(q, Full);
    Cut(l, r);
    ChainedParts(p, q);
    OfKindNames(q, Full);
    forall n | Names(p, n) ensures !Names(expired, n) {
    }
    PrefixIndependent(l, r, q, expired);
    SuffixDependent(q, expired);
  }

  // What the removing leaves

  lemma {:induction false} RemoveBehind(p: List, q: List, b: Backup)
    requires b !in p
    ensures RemoveFirst(p + q, b) == p + RemoveFirst(q, b)
    decreases |p|
  {
    if p == [] {
      assert p + q == q;
      assert p + RemoveFirst(q, b) == RemoveFirst(q, b);
    } else {
      assert (p + q)[0] == p[0] && (p + q)[1..] == p[1..] + q;
      RemoveBehind(p[1..], q, b);
    }
  }

  lemma {:induction false} RemoveOne(q: List, b: Backup)
    requires b in q
    ensures multiset(RemoveFirst(q, b)) == multiset(q) - multiset{b}
  {
    assert q == [q[0]] + q[1..];
    if q[0] != b {
      RemoveOne(q[1..], b);
      assert multiset(RemoveFirst(q, b)) == multiset{q[0]} + multiset(RemoveFirst(q[1..], b));
    }
  }

  lemma {:induction false} RemoveAllBehind(p: List, q: List, bs: List)
    requires multiset(bs) == multiset(q) && forall b | b in q :: b !in p
    ensures RemoveAll(p + q, bs) == p
    decreases |bs|
  {
    if bs == [] {
      assert |multiset(q)| == |q| && |multiset(bs)| == 0;
      assert p + q == p;
    } else {
      assert bs == [bs[0]] + bs[1..] && bs[0] in multiset(bs);
      RemoveBehind(p, q, bs[0]);
      RemoveOne(q, bs[0]);
      var q' := RemoveFirst(q, bs[0]);
      forall b | b in q' ensures b !in p {
        assert b in multiset(q');
        assert b in multiset(q);
      }
      RemoveAllBehind(p, q', bs[1..]);
    }
  }

  lemma {:induction false} KindsTogether(l: List)
    ensures multiset(OfKind(l, Full) + OfKind(l, Incremental)) == multiset(l)
  {
    if l != [] {
      KindsTogether(l[1..]);
      assert l == [l[0]] + l[1..];
    }
  }

  /** The mark-and-remove loops keep exactly the list through the `full_retention`-th full backup. */
  lemma KeepsPrefix(l: List, r: nat)
    requires Chained(l) && r > 0
    ensures RemoveAll(l, Marked(l, r)) == Through(l, r)
    ensures NamesOf(Marked(l, r)) == NamesOf(Beyond(l, r))
  {
    var p, q := Through(l, r), Beyond(l, r);
    Cut(l, r);
    ChainedParts(p, q);
    MarkedIsBeyond(l, r);
    KindsTogether(q);
    forall b | b in q ensures b !in p {
      var i :| 0 <= i < |q| && q[i] == b;
      assert Names(q, b.name);
      forall k | 0 <= k < |p| ensures p[k] != b {
        assert Names(p, p[k].name);
      }
    }
    RemoveAllBehind(p, q, Marked(l, r));
    SameNames(Marked(l, r), q);
  }

  lemma SameNames(a: List, b: List)
    requires multiset(a) == multiset(b)
    ensures NamesOf(a) == NamesOf(b)
  {
    forall n ensures n in NamesOf(a) <==> n in NamesOf(b) {
      if n in NamesOf(a) {
        var i :| 0 <= i < |a| && a[i].name == n;
        assert a[i] in multiset(a) && a[i] in multiset(b) && a[i] in b;
      }
      if n in NamesOf(b) {
        var i :| 0 <= i < |b| && b[i].name == n;
        assert b[i] in multiset(b) && b[i] in multiset(a) && b[i] in a;
      }
    }
  }

  // Over any sequence of runs

  /** The list after a sequence of runs, newest first: each is forced full or not, with its name. */
  function AfterRuns(interval: int, retention: int, runs: seq<(bool, Name)>): List {
    if runs == [] then []
    else NextList(AfterRuns(interval, retention, runs[1..]), interval, retention, runs[0].0, runs[0].1)
  }

  predicate FreshNames(runs: seq<(bool, Name)>) {
    forall i, j | 0 <= i < j < |runs| :: runs[i].1 != runs[j].1
  }

  /** Every name in the list was given by one of the runs. */
  predicate NamedBy(l: List, runs: seq<(bool, Name)>) {
    forall n | n in NamesOf(l) :: exists i :: 0 <= i < |runs| && runs[i].1 == n
  }

  /** Every incremental backup's parent is a tracked full backup older than it. */
  ghost predicate NoOrphans(l: List) {
    forall i | 0 <= i < |l| && l[i].kind == Incremental ::
      exists j :: i < j < |l| && l[j].kind == Full && l[i].parent == Some(l[j].name)
  }

  lemma {:induction false} FirstFullAt(l: List) returns (j: nat)
    requires FirstFull(l).Some?
    ensures j < |l| && l[j].kind == Full && FirstFull(l) == Some(l[j].name)
  {
    if l[0].kind == Full {
      j := 0;
    } else {
      j := FirstFullAt(l[1..]);
      j := j + 1;
    }
  }

  lemma {:induction false} ChainedHasNoOrphans(l: List)
    requires Chained(l)
    ensures NoOrphans(l)
  {
    if l != [] {
      ChainedHasNoOrphans(l[1..]);
      forall i | 0 <= i < |l| && l[i].kind == Incremental
        ensures exists j :: i < j < |l| && l[j].kind == Full && l[i].parent == Some(l[j].name)
      {
        if i == 0 {
          var j := FirstFullAt(l[1..]);
          assert l[j + 1] == l[1..][j];
        } else {
          var j :| i - 1 < j < |l| - 1 && l[1..][j].kind == Full && l[1..][i - 1].parent == Some(l[1..][j].name);
          assert l[j + 1] == l[1..][j];
        }
      }
    }
  }

  lemma {:induction false} ThroughChained(l: List, r: nat)
    requires Chained(l)
    ensures Chained(Through(l, r))
    decreases |l|
  {
    var p := Through(l, r);
    if p != [] {
      var r' := if l[0].kind == Full then r - 1 else r;
      var q := Through(l[1..], r');
      assert p[1..] == q && p[0] == l[0];
      ThroughChained(l[1..], r');
      Cut(l[1..], r');
      if Names(q, l[0].name) {
        NamesConcat(q, Beyond(l[1..], r'), l[0].name);
        assert false;
      }
      if l[0].kind == Incremental {
        FirstFullKept(l[1..], r');
      }
    }
  }

  lemma NextChained(l: List, interval: int, retention: int, force: bool, name: Name)
    requires Chained(l) && retention > 0 && name !in NamesOf(l)
    ensures Chained(NextList(l, interval, retention, force, name))
    ensures NamesOf(NextList(l, interval, retention, force, name)) <= NamesOf(l) + {name}
  {
    KeepsPrefix(l, retention);
    ThroughChained(l, retention);
    Cut(l, retention);
    FirstFullKept(l, retention);
    var p := Through(l, retention);
    var next := NextList(l, interval, retention, force, name);
    assert next[1..] == p;
    forall i | 0 <= i < |p| ensures p[i].name in NamesOf(l) {
      assert l[i] == p[i];
    }
  }

  lemma {:induction false} RunsChained(interval: int, retention: int, runs: seq<(bool, Name)>)
    requires retention > 0 && FreshNames(runs)
    ensures Chained(AfterRuns(interval, retention, runs)) && NamedBy(AfterRuns(interval, retention, runs), runs)
    decreases |runs|
  {
    if runs != [] {
      var rest := runs[1..];
      assert forall i | 0 <= i < |rest| :: rest[i] == runs[i + 1];
      RunsChained(interval, retention, rest);
      var l := AfterRuns(interval, retention, rest);
      assert runs[0].1 !in NamesOf(l);
      NextChained(l, interval, retention, runs[0].0, runs[0].1);
      forall n | n in NamesOf(AfterRuns(interval, retention, runs))
        ensures exists i :: 0 <= i < |runs| && runs[i].1 == n
      {
        if n == runs[0].1 {
        } else {
          var i :| 0 <= i < |rest| && rest[i].1 == n;
          assert runs[i + 1].1 == n;
        }
      }
    }
  }

  ghost predicate NeverOrphans(interval: int, retention: int) {
    forall runs: seq<(bool, Name)> | FreshNames(runs) :: NoOrphans(AfterRuns(interval, retention, runs))
  }

  /** A schedule never orphans an incremental backup if and only if it retains a full one, or takes
      full ones only. */
  lemma NeverOrphansExactly(interval: int, retention: int)
    ensures NeverOrphans(interval, retention) <==> retention > 0 || interval <= 1
  {
    if retention > 0 {
      forall runs: seq<(bool, Name)> | FreshNames(runs) ensures NoOrphans(AfterRuns(interval, retention, runs)) {
        RunsChained(interval, retention, runs);
        ChainedHasNoOrphans(AfterRuns(interval, retention, runs));
      }
    } else if interval <= 1 {
      forall runs: seq<(bool, Name)> | FreshNames(runs) ensures NoOrphans(AfterRuns(interval, retention, runs)) {
        OnlyFulls(interval, retention, runs);
      }
    } else {
      var f := Backup(0, Full, None);
      var first, both: seq<(bool, Name)> := [(false, 0)], [(false, 1), (false, 0)];
      assert first[1..] == [] && both[1..] == first;
      assert AfterRuns(interval, retention, first) == [f];
      var none: List := [];
      assert [f][1..] == none && Expired([f], 0, retention) == [f];
      assert Marked([f], retention) == Dependents(none, [f]);
      assert AfterRuns(interval, retention, both) == [Backup(1, Incremental, Some(0))];
      var l := AfterRuns(interval, retention, both);
      assert l[0].kind == Incremental && |l| == 1;
      assert FreshNames(both);
    }
  }

  lemma {:induction false} RemoveAllSubset(l: List, bs: List)
    ensures forall b | b in RemoveAll(l, bs) :: b in l
    decreases |bs|
  {
    if bs != [] {
      RemoveSubset(l, bs[0]);
      RemoveAllSubset(RemoveFirst(l, bs[0]), bs[1..]);
    }
  }

  lemma {:induction false} RemoveSubset(l: List, b: Backup)
    ensures forall c | c in RemoveFirst(l, b) :: c in l
  {
    if l != [] && l[0] != b {
      RemoveSubset(l[1..], b);
    }
  }

  lemma {:induction false} OnlyFulls(interval: int, retention: int, runs: seq<(bool, Name)>)
    requires interval <= 1
    ensures forall b | b in AfterRuns(interval, retention, runs) :: b.kind == Full
    decreases |runs|
  {
    if runs != [] {
      OnlyFulls(interval, retention, runs[1..]);
      var l := AfterRuns(interval, retention, runs[1..]);
      RemoveAllSubset(l, Marked(l, retention));
    }
  }

  // How long the list gets

  /** Every stretch of incrementals is short enough and ends in a full backup. */
  predicate Spaced(l: List, interval: int) {
    l == [] || (FirstFull(l).Some? && Gap(l) <= interval - 1 && Spaced(l[1..], interval))
  }

  function FullCount(l: List): nat {
    |OfKind(l, Full)|
  }

  function Times(r: nat, interval: nat): nat {
    if r == 0 then 0 else interval + Times(r - 1, interval)
  }

  lemma {:induction false} TimesIsProduct(r: nat, interval: nat)
    ensures Times(r, interval) == r * interval
  {
    if r > 0 {
      TimesIsProduct(r - 1, interval);
    }
  }

  lemma {:induction false} ThroughSpaced(l: List, r: nat, interval: nat)
    requires Spaced(l, interval)
    ensures Spaced(Through(l, r), interval)
    ensures FullCount(Through(l, r)) <= r
    decreases |l|
  {
    if r > 0 && l != [] {
      var r' := if l[0].kind == Full then r - 1 else r;
      var q := Through(l[1..], r');
      assert Through(l, r)[1..] == q && Through(l, r)[0] == l[0];
      ThroughSpaced(l[1..], r', interval);
      FirstFullKept(l, r);
    }
  }

  lemma {:induction false} ThroughLength(l: List, r: nat, interval: nat)
    requires Spaced(l, interval)
    ensures |Through(l, r)| <= if r == 0 then 0 else Times(r - 1, interval) + Gap(l) + 1
    decreases |l|
  {
    if r > 0 && l != [] {
      ThroughLength(l[1..], if l[0].kind == Full then r - 1 else r, interval);
      assert l[1..] != [] ==> Gap(l[1..]) <= interval - 1;
      assert l[1..] == [] ==> Through(l[1..], if l[0].kind == Full then r - 1 else r) == [];
    }
  }

  lemma {:induction false} RunsSpaced(interval: int, retention: int, runs: seq<(bool, Name)>)
    requires interval > 0 && retention > 0 && FreshNames(runs)
    ensures Spaced(AfterRuns(interval, retention, runs), interval)
    decreases |runs|
  {
    if runs != [] {
      var rest := runs[1..];
      assert forall i | 0 <= i < |rest| :: rest[i] == runs[i + 1];
      RunsSpaced(interval, retention, rest);
      RunsChained(interval, retention, rest);
      var l := AfterRuns(interval, retention, rest);
      KeepsPrefix(l, retention);
      ThroughSpaced(l, retention, interval);
      FirstFullKept(l, retention);
      assert AfterRuns(interval, retention, runs)[1..] == Through(l, retention);
    }
  }

  /** Over any sequence of successful runs the newest full backup is at most `full_interval` - 1 from
      the front, at most one full backup more than retained is tracked, and the list is bounded. */
  lemma Bounded(interval: int, retention: int, runs: seq<(bool, Name)>)
    requires interval > 0 && retention > 0 && FreshNames(runs) && runs != []
    ensures var l := AfterRuns(interval, retention, runs);
            && FirstFull(l).Some? && Gap(l) <= interval - 1
            && FullCount(l) <= retention + 1
            && |l| <= retention * interval + 1
  {
    var rest := runs[1..];
    assert forall i | 0 <= i < |rest| :: rest[i] == runs[i + 1];
    RunsSpaced(interval, retention, runs);
    RunsSpaced(interval, retention, rest);
    RunsChained(interval, retention, rest);
    var l, next := AfterRuns(interval, retention, rest), AfterRuns(interval, retention, runs);
    KeepsPrefix(l, retention);
    ThroughSpaced(l, retention, interval);
    ThroughLength(l, retention, interval);
    TimesIsProduct(retention, interval);
    assert next[1..] == Through(l, retention);
  }

  // The snapshots behind the list

  function FullNames(l: List): set<Name> {
    NamesOf(OfKind(l, Full))
  }

  /** One run keeps the VM's snapshots equal to the tracked full backups: an incremental drops its own,
      and expiry removes those of the fulls it drops. */
  lemma SnapshotsMatch(l: List, interval: int, retention: int, force: bool, name: Name)
    requires Chained(l) && retention > 0 && name !in NamesOf(l)
    ensures LiveNext(FullNames(l), l, interval, retention, force, name) ==
            FullNames(NextList(l, interval, retention, force, name))
  {
    var p, q := Through(l, retention), Beyond(l, retention);
    var next := NextList(l, interval, retention, force, name);
    KeepsPrefix(l, retention);
    Cut(l, retention);
    ChainedParts(p, q);
    assert next[1..] == p;
    forall n ensures n in FullNames(l) <==> n in FullNames(p) || n in FullNames(q) {
      OfKindConcat(p, q);
      InNames(OfKind(p, Full) + OfKind(q, Full), n);
      InNames(OfKind(p, Full), n);
      InNames(OfKind(q, Full), n);
      NamesConcat(OfKind(p, Full), OfKind(q, Full), n);
    }
    forall n ensures n in FullNames(p) ==> n !in NamesOf(q) && n in NamesOf(l) {
      InNames(OfKind(p, Full), n);
      InNames(q, n);
      InNames(l, n);
      OfKindNames(p, Full);
      NamesConcat(p, q, n);
    }
    forall n | n in NamesOf(q) ensures n in NamesOf(l) {
      InNames(q, n);
      InNames(l, n);
      NamesConcat(p, q, n);
    }
    forall n ensures n in FullNames(q) ==> n in NamesOf(q) {
      InNames(OfKind(q, Full), n);
      InNames(q, n);
      OfKindNames(q, Full);
    }
    forall n ensures n in FullNames(next) <==> (next[0].kind == Full && n == name) || n in FullNames(p) {
      var head: List := if next[0].kind == Full then [next[0]] else [];
      InNames(head + OfKind(p, Full), n);
      InNames(OfKind(p, Full), n);
      NamesConcat(head, OfKind(p, Full), n);
      if next[0].kind == Full { assert head[0].name == name; }
    }
  }

  /** The VM's snapshots after a sequence of runs. */
  function LiveAfter(interval: int, retention: int, runs: seq<(bool, Name)>): set<Name> {
    if runs == [] then {}
    else LiveNext(LiveAfter(interval, retention, runs[1..]), AfterRuns(interval, retention, runs[1..]),
                  interval, retention, runs[0].0, runs[0].1)
  }

  /** So after any runs they are exactly those of the tracked full backups. */
  lemma {:induction false} LiveIsFull(interval: int, retention: int, runs: seq<(bool, Name)>)
    requires retention > 0 && FreshNames(runs)
    ensures LiveAfter(interval, retention, runs) == FullNames(AfterRuns(interval, retention, runs))
    decreases |runs|
  {
    if runs != [] {
      var rest := runs[1..];
      assert forall i | 0 <= i < |rest| :: rest[i] == runs[i + 1];
      hide NextList, LiveNext, NamesOf, Chained;
      LiveIsFull(interval, retention, rest);
      RunsChained(interval, retention, rest);
      NameUnused(interval, retention, runs);
      SnapshotsMatch(AfterRuns(interval, retention, rest), interval, retention, runs[0].0, runs[0].1);
    }
  }

  lemma NameUnused(interval: int, retention: int, runs: seq<(bool, Name)>)
    requires retention > 0 && FreshNames(runs) && runs != []
    ensures FreshNames(runs[1..]) && runs[0].1 !in NamesOf(AfterRuns(interval, retention, runs[1..]))
  {
    var rest := runs[1..];
    assert forall i | 0 <= i < |rest| :: rest[i] == runs[i + 1];
    RunsChained(interval, retention, rest);
  }

  lemma InNames(l: List, n: Name)
    ensures n in NamesOf(l) <==> Names(l, n)
  {
  }

  lemma {:induction false} OfKindConcat(a: List, b: List)
    ensures OfKind(a + b, Full) == OfKind(a, Full) + OfKind(b, Full)
  {
    if a == [] {
      assert a + b == b;
    } else {
      assert (a + b)[0] == a[0] && (a + b)[1..] == a[1..] + b;
      OfKindConcat(a[1..], b);
    }
  }

  // One run, spelt out

  /** The newest full backup, by its place in the list. */
  lemma {:induction false} NewestFull(l: List)
    ensures FirstFull(l).Some? <==> exists k :: 0 <= k < |l| && l[k].kind == Full
    ensures Gap(l) <= |l| && forall i | 0 <= i < Gap(l) :: l[i].kind == Incremental
    ensures FirstFull(l).Some? ==> Gap(l) < |l| && l[Gap(l)].kind == Full && l[Gap(l)].name == FirstFull(l).value
  {
    if l != [] && l[0].kind != Full {
      var rest := l[1..];
      NewestFull(rest);
      if k :| 0 <= k < |l| && l[k].kind == Full {
        assert rest[k - 1].kind == Full;
      }
      if FirstFull(l).Some? {
        assert l[Gap(rest) + 1] == rest[Gap(rest)];
      }
      assert Gap(l) == 1 + Gap(rest);
      forall i | 0 <= i < Gap(l) ensures l[i].kind == Incremental {
        if i > 0 {
          assert l[i] == rest[i - 1];
        }
      }
    }
  }

  /** `b` is taken with `l` before it: an incremental backup exactly when it is not forced to be full and some full
      backup is among the newest `interval` - 1, and then it builds on the newest full backup. */
  ghost predicate TakenAs(b: Backup, l: List, interval: int, force: bool, name: Name) {
    && b.name == name
    && (b.kind == Incremental <==> !force && exists k :: 0 <= k < |l| && k < interval - 1 && l[k].kind == Full)
    && (b.kind == Full ==> b.parent == None)
    && (b.kind == Incremental ==> exists k :: 0 <= k < |l| && NewestFullAt(l, k) && b.parent == Some(l[k].name))
  }

  predicate NewestFullAt(l: List, k: nat)
    requires k < |l|
  {
    l[k].kind == Full && forall i | 0 <= i < k :: l[i].kind == Incremental
  }

  lemma Taken(l: List, interval: int, force: bool, name: Name)
    ensures TakenAs(NewBackup(l, interval, force, name), l, interval, force, name)
  {
    NewestFull(l);
    if FirstFull(l).Some? {
      assert NewestFullAt(l, Gap(l));
    }
  }

  /** `kept` is `l` without everything behind its `r`-th full backup: each entry with fewer than `r` full ones
      before it. */
  predicate KeptThrough(l: List, r: nat, kept: List) {
    kept <= l && forall i | 0 <= i < |l| :: i < |kept| <==> FullCount(l[..i]) < r
  }

  lemma {:induction false} ThroughIs(l: List, r: nat)
    ensures KeptThrough(l, r, Through(l, r))
    decreases |l|
  {
    if r > 0 && l != [] {
      var rest, s := l[1..], if l[0].kind == Full then r - 1 else r;
      var p := Through(rest, s);
      ThroughIs(rest, s);
      assert l == [l[0]] + rest && Through(l, r) == [l[0]] + p;
      forall i | 0 <= i < |l| ensures i < |p| + 1 <==> FullCount(l[..i]) < r {
        if i > 0 {
          assert l[..i][0] == l[0] && l[..i][1..] == rest[..i - 1];
        }
      }
    }
  }

  /** What every run leaves behind, from what the runs before it have left: its own backup, in front of the entries
      that are retained; and snapshots of exactly the full backups. */
  lemma EveryRun(interval: int, retention: int, runs: seq<(bool, Name)>)
    requires retention > 0 && FreshNames(runs) && runs != []
    ensures var before, after := AfterRuns(interval, retention, runs[1..]), AfterRuns(interval, retention, runs);
            && after != [] && TakenAs(after[0], before, interval, runs[0].0, runs[0].1)
            && KeptThrough(before, retention, after[1..])
            && forall n :: n in LiveAfter(interval, retention, runs) <==>
                 exists i :: 0 <= i < |after| && after[i].kind == Full && after[i].name == n
  {
    var rest := runs[1..];
    var before := AfterRuns(interval, retention, rest);
    NameUnused(interval, retention, runs);
    RunsChained(interval, retention, rest);
    Taken(before, interval, runs[0].0, runs[0].1);
    KeepsPrefix(before, retention);
    ThroughIs(before, retention);
    var after := AfterRuns(interval, retention, runs);
    assert after[1..] == Through(before, retention);
    LiveIsFull(interval, retention, runs);
    FullNamesAre(after);
  }

  lemma {:induction false} FullNamesAre(l: List)
    ensures forall n :: n in FullNames(l) <==> exists i :: 0 <= i < |l| && l[i].kind == Full && l[i].name == n
  {
    OfKindNames(l, Full);
    forall n ensures n in FullNames(l) <==> exists i :: 0 <= i < |l| && l[i].kind == Full && l[i].name == n {
      var fulls := OfKind(l, Full);
      if n in FullNames(l) {
        var k :| 0 <= k < |fulls| && fulls[k].name == n;
        assert fulls[k] in l;
      }
      if i :| 0 <= i < |l| && l[i].kind == Full && l[i].name == n {
        assert l[i] in fulls;
      }
    }
  }

  /** A forced run leaves a full backup in front, and its snapshot. */
  lemma ForcedIsFull(interval: int, retention: int, runs: seq<(bool, Name)>)
    requires retention > 0 && FreshNames(runs) && runs != [] && runs[0].0
    ensures var after := AfterRuns(interval, retention, runs);
            && after != [] && after[0] == Backup(runs[0].1, Full, None)
            && runs[0].1 in LiveAfter(interval, retention, runs)
  {
    EveryRun(interval, retention, runs);
    var after := AfterRuns(interval, retention, runs);
    assert after[0].kind == Full && after[0].name == runs[0].1;
  }
}
