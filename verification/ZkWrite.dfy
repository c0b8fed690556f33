/** `ZKHandler.write`: several keys created or updated in one transaction, each update guarded by
    the version that was read for its key before the commit. */
module ZkWrite {
  import opened Wrappers
  import opened ZkTree

  /** What a key resolves to in the active schema (`ZKHandler.get_schema_path`): a path; nothing,
      in which case the pair is skipped; or an exception, which leaves `write` before its commit. */
  datatype Resolution = At(path: Path) | Unknown | Raises

  /** One key as it was sampled: the version read for it, or None when it did not exist. */
  datatype Sample = Sample(path: Path, value: string, seen: Option<nat>)

  function See(t: Tree, p: Path): Option<nat> {
    if p in t then Some(t[p].version) else None
  }

  function SampleOps(s: Sample): seq<Op> {
    match s.seen
    case None => [Create(s.path, s.value)]
    case Some(v) => [SetData(s.path, s.value), Check(s.path, v + 1)]
  }

  function WriteOps(ss: seq<Sample>): seq<Op> {
    if ss == [] then [] else SampleOps(ss[0]) + WriteOps(ss[1..])
  }

  /** The store when `write` asks whether a key exists, and when it then reads its version. */
  datatype Moment = Moment(asked: Tree, read: Tree)

  /** The tree a key is sampled from. */
  function From(m: Moment, p: Path): Tree {
    if p in m.asked then m.read else m.asked
  }

  /** The samples `write` takes when the server goes through `schedule[i]` at the i-th pair; None when a
      key raises, as one that is deleted between the two requests does. */
  function Sampled(kv: seq<(Resolution, string)>, schedule: seq<Moment>): Option<seq<Sample>>
    requires |schedule| >= |kv|
    decreases |kv|
  {
    if kv == [] then
      Some([])
    else
      match kv[0].0
      case Raises => None
      case Unknown => Sampled(kv[1..], schedule[1..])
      case At(p) =>
        if p in schedule[0].asked && p !in schedule[0].read then None
        else
          var rest :- Sampled(kv[1..], schedule[1..]);
          Some([Sample(p, kv[0].1, See(From(schedule[0], p), p))] + rest)
  }

  ghost predicate Distinct(ss: seq<Sample>) {
    forall i, j | 0 <= i < j < |ss| :: ss[i].path != ss[j].path
  }

  /** The parent of a new path exists, or is itself created earlier in the list. */
  ghost predicate HasParent(t: Tree, ss: seq<Sample>, i: nat)
    requires i < |ss|
  {
    && ss[i].path != []
    && (|| Parent(ss[i].path) in t
        || exists j :: 0 <= j < i && ss[j].path == Parent(ss[i].path))
  }

  /** The version a sampled key has once it is written. */
  function Next(seen: Option<nat>): nat {
    if seen.None? then 0 else seen.value + 1
  }

  /** The version of `p` after the samples `before` were written to `t`. */
  function Expected(t: Tree, before: seq<Sample>, p: Path): Option<nat> {
    if before == [] then See(t, p)
    else
      var s := before[|before| - 1];
      if s.path == p then Some(Next(s.seen)) else Expected(t, before[..|before| - 1], p)
  }

  /** The commit store shows, for every key, what was sampled for it; for a key that was listed before,
      what that earlier entry makes of it. */
  ghost predicate Undisturbed(t: Tree, ss: seq<Sample>) {
    forall i | 0 <= i < |ss| :: Expected(t, ss[..i], ss[i].path) == ss[i].seen
  }

  ghost predicate Committable(t: Tree, ss: seq<Sample>) {
    && Undisturbed(t, ss)
    && forall i | 0 <= i < |ss| && ss[i].seen.None? :: HasParent(t, ss, i)
  }

  /** No later entry has the same key. */
  ghost predicate IsLast(ss: seq<Sample>, i: nat)
    requires i < |ss|
  {
    forall j | i < j < |ss| :: ss[j].path != ss[i].path
  }

  ghost predicate Unlisted(ss: seq<Sample>, p: Path) {
    forall i | 0 <= i < |ss| :: ss[i].path != p
  }

  /** The tree a successful write leaves: each key has its (last) new value and the next version, and
      the rest is as before. */
  ghost predicate WrittenTo(t: Tree, ss: seq<Sample>, r: Tree) {
    && (forall i | 0 <= i < |ss| :: ss[i].path in r)
    && (forall i | 0 <= i < |ss| && IsLast(ss, i) :: r[ss[i].path] == Node(ss[i].value, Next(ss[i].seen)))
    && (forall p | p in t && Unlisted(ss, p) :: p in r && r[p] == t[p])
    && (forall p | p in r && Unlisted(ss, p) :: p in t)
  }

  /** One sample's operations succeed exactly when the commit store agrees with the sample. */
  lemma SampleStep(t: Tree, s: Sample)
    ensures Run(t, SampleOps(s)) ==
            if See(t, s.path) == s.seen && (s.seen.None? ==> s.path != [] && Parent(s.path) in t)
            then Some(t[s.path := Node(s.value, Next(s.seen))])
            else None
  {
    var ops := SampleOps(s);
    match s.seen
    case None =>
      assert ops[1..] == [];
    case Some(v) =>
      if s.path in t {
        var t1 := t[s.path := Node(s.value, t[s.path].version + 1)];
        assert ops[1..] == [Check(s.path, v + 1)] && ops[1..][1..] == [];
        assert Run(t, ops) == Run(t1, ops[1..]);
        assert Run(t1, ops[1..]) == if t1[s.path].version == v + 1 then Run(t1, []) else None;
      }
  }

  lemma {:induction false} WriteOpsLast(ss: seq<Sample>, s: Sample)
    ensures WriteOps(ss + [s]) == WriteOps(ss) + SampleOps(s)
    decreases |ss|
  {
    var all := ss + [s];
    if ss == [] {
      assert all[1..] == [];
    } else {
      assert all[1..] == ss[1..] + [s];
      WriteOpsLast(ss[1..], s);
    }
  }

  /** The exact condition for a write to take effect, over every sampling history and with repeated
      keys: no key changed between its sampling and the commit but by the write itself, and every
      new key has a parent. */
  lemma {:induction false} CommitExact(t: Tree, ss: seq<Sample>)
    ensures Run(t, WriteOps(ss)).Some? <==> Committable(t, ss)
    ensures Run(t, WriteOps(ss)).Some? ==>
              var r := Run(t, WriteOps(ss)).value;
              WrittenTo(t, ss, r) && forall p :: See(r, p) == Expected(t, ss, p)
    decreases |ss|
  {
    hide WriteOps, Run, WrittenTo, Committable;
    if ss == [] {
      NothingWritten(t);
    } else {
      var init, s := ss[..|ss| - 1], ss[|ss| - 1];
      assert ss == init + [s];
      WriteOpsLast(init, s);
      RunConcat(t, WriteOps(init), SampleOps(s));
      CommitExact(t, init);
      CommittableLast(t, init, s);
      if Run(t, WriteOps(init)).Some? {
        var r := Run(t, WriteOps(init)).value;
        SampleStep(r, s);
        ParentWritten(t, init, s, r);
        WrittenLast(t, init, s, r);
      }
    }
  }

  lemma NothingWritten(t: Tree)
    ensures Run(t, WriteOps([])) == Some(t) && Committable(t, []) && WrittenTo(t, [], t)
    ensures forall p :: See(t, p) == Expected(t, [], p)
  {
  }

  lemma CommittableLast(t: Tree, init: seq<Sample>, s: Sample)
    ensures Committable(t, init + [s]) <==>
            && Committable(t, init) && Expected(t, init, s.path) == s.seen
            && (s.seen.None? ==> HasParent(t, init + [s], |init|))
  {
    hide Expected;
    var ss := init + [s];
    assert ss[..|init|] == init;
    assert forall i | 0 <= i < |init| :: ss[i] == init[i] && ss[..i] == init[..i];
    forall i | 0 <= i < |init| ensures HasParent(t, ss, i) <==> HasParent(t, init, i) {
      HasParentSame(t, init, s, i);
    }
    assert ss[|init|] == s;
  }

  lemma HasParentSame(t: Tree, init: seq<Sample>, s: Sample, i: nat)
    requires i < |init|
    ensures HasParent(t, init + [s], i) <==> HasParent(t, init, i)
  {
    var ss := init + [s];
    assert forall j | 0 <= j < |init| :: ss[j] == init[j];
  }

  /** A path exists after the writes if it did before or was written. */
  lemma ParentWritten(t: Tree, init: seq<Sample>, s: Sample, r: Tree)
    requires WrittenTo(t, init, r)
    ensures HasParent(t, init + [s], |init|) <==> s.path != [] && Parent(s.path) in r
  {
    var ss := init + [s];
    assert ss[|init|] == s && forall j | 0 <= j < |init| :: ss[j] == init[j];
    if s.path != [] && Parent(s.path) in r && !(Parent(s.path) in t) {
      assert !Unlisted(init, Parent(s.path));
      var j :| 0 <= j < |init| && init[j].path == Parent(s.path);
      assert ss[j].path == Parent(s.path);
    }
    if HasParent(t, ss, |init|) && Parent(s.path) !in t {
      var j :| 0 <= j < |init| && ss[j].path == Parent(s.path);
      assert init[j].path == Parent(s.path);
    }
  }

  lemma SeenLast(t: Tree, init: seq<Sample>, s: Sample, r: Tree)
    requires forall p :: See(r, p) == Expected(t, init, p)
    ensures var r' := r[s.path := Node(s.value, Next(s.seen))];
            forall p :: See(r', p) == Expected(t, init + [s], p)
  {
    var ss := init + [s];
    assert ss[|init|] == s && ss[..|init|] == init;
  }

  lemma WrittenLast(t: Tree, init: seq<Sample>, s: Sample, r: Tree)
    requires WrittenTo(t, init, r) && forall p :: See(r, p) == Expected(t, init, p)
    ensures var r' := r[s.path := Node(s.value, Next(s.seen))];
            WrittenTo(t, init + [s], r') && forall p :: See(r', p) == Expected(t, init + [s], p)
  {
    hide Expected;
    var ss, r' := init + [s], r[s.path := Node(s.value, Next(s.seen))];
    SeenLast(t, init, s, r);
    assert ss[|init|] == s && forall j | 0 <= j < |init| :: ss[j] == init[j];
    forall i | 0 <= i < |ss| && IsLast(ss, i) ensures r'[ss[i].path] == Node(ss[i].value, Next(ss[i].seen)) {
      if i < |init| {
        assert ss[|init|].path != ss[i].path;
        assert IsLast(init, i) by {
          assert forall j | i < j < |init| :: ss[j].path != ss[i].path;
        }
      }
    }
    forall p | Unlisted(ss, p) ensures p != s.path && Unlisted(init, p) {
      assert ss[|init|].path != p;
    }
  }

  lemma {:induction false} ExpectedFresh(t: Tree, before: seq<Sample>, p: Path)
    requires Unlisted(before, p)
    ensures Expected(t, before, p) == See(t, p)
    decreases |before|
  {
    if before != [] {
      ExpectedFresh(t, before[..|before| - 1], p);
    }
  }

  /** With distinct keys each entry stands for itself. */
  lemma DistinctUndisturbed(t: Tree, ss: seq<Sample>)
    requires Distinct(ss)
    ensures Undisturbed(t, ss) <==> forall i | 0 <= i < |ss| :: See(t, ss[i].path) == ss[i].seen
  {
    forall i | 0 <= i < |ss| ensures Expected(t, ss[..i], ss[i].path) == See(t, ss[i].path) {
      ExpectedFresh(t, ss[..i], ss[i].path);
    }
  }

  /** Nobody else touches the store: it holds the same tree at every sampling and at the commit. */
  ghost predicate Quiet(schedule: seq<Moment>, t: Tree) {
    forall i | 0 <= i < |schedule| :: schedule[i] == Moment(t, t)
  }

  /** The pairs `write` keeps, with the version each key has in one fixed tree. */
  function Pairs(kv: seq<(Resolution, string)>, t: Tree): seq<Sample> {
    if kv == [] then []
    else if kv[0].0.At? then
      [Sample(kv[0].0.path, kv[0].1, See(t, kv[0].0.path))] + Pairs(kv[1..], t)
    else Pairs(kv[1..], t)
  }

  /** The samples of an undisturbed store. */
  ghost predicate AsSeen(t: Tree, ss: seq<Sample>) {
    forall i | 0 <= i < |ss| :: See(t, ss[i].path) == ss[i].seen
  }

  lemma {:induction false} QuietSampling(kv: seq<(Resolution, string)>, schedule: seq<Moment>, t: Tree)
    requires |schedule| >= |kv| && Quiet(schedule, t)
    requires forall i | 0 <= i < |kv| :: !kv[i].0.Raises?
    ensures Sampled(kv, schedule) == Some(Pairs(kv, t)) && AsSeen(t, Pairs(kv, t))
    decreases |kv|
  {
    if kv != [] {
      assert forall i | 0 <= i < |kv[1..]| :: kv[1..][i] == kv[i + 1];
      QuietSampling(kv[1..], schedule[1..], t);
      assert !kv[0].0.Raises?;
    }
  }

  /** A key listed twice and sampled alike has moved on by the time its second entry is checked. */
  lemma {:induction false} ExpectedAgain(t: Tree, before: seq<Sample>, p: Path)
    requires AsSeen(t, before)
    ensures Unlisted(before, p) || Expected(t, before, p) == Some(Next(See(t, p)))
    decreases |before|
  {
    if before != [] {
      var init, s := before[..|before| - 1], before[|before| - 1];
      assert forall i | 0 <= i < |init| :: before[i] == init[i];
      ExpectedAgain(t, init, p);
      if s.path != p && Unlisted(init, p) {
        assert Unlisted(before, p);
      }
    }
  }

  lemma QuietDistinct(t: Tree, ss: seq<Sample>)
    requires AsSeen(t, ss)
    ensures Undisturbed(t, ss) <==> Distinct(ss)
  {
    if Distinct(ss) {
      DistinctUndisturbed(t, ss);
    } else {
      var i, j :| 0 <= i < j < |ss| && ss[i].path == ss[j].path;
      assert ss[..j][i] == ss[i];
      ExpectedAgain(t, ss[..j], ss[j].path);
      assert !Unlisted(ss[..j], ss[j].path);
      assert Expected(t, ss[..j], ss[j].path) != ss[j].seen;
    }
  }

  /** Without interference a write takes effect if and only if the resolved paths are pairwise
      distinct and every new path has its parent in the tree or earlier in the list. */
  lemma QuietWriteExact(kv: seq<(Resolution, string)>, schedule: seq<Moment>, t: Tree)
    requires |schedule| >= |kv| && Quiet(schedule, t)
    requires forall i | 0 <= i < |kv| :: !kv[i].0.Raises?
    ensures Sampled(kv, schedule) == Some(Pairs(kv, t))
    ensures Run(t, WriteOps(Pairs(kv, t))).Some? <==>
            && Distinct(Pairs(kv, t))
            && forall i | 0 <= i < |Pairs(kv, t)| && Pairs(kv, t)[i].path !in t :: HasParent(t, Pairs(kv, t), i)
    ensures Run(t, WriteOps(Pairs(kv, t))).Some? ==>
            WrittenTo(t, Pairs(kv, t), Run(t, WriteOps(Pairs(kv, t))).value)
  {
    hide WrittenTo, HasParent, Undisturbed, Distinct, Run, WriteOps, Quiet;
    QuietSampling(kv, schedule, t);
    var ss := Pairs(kv, t);
    CommitExact(t, ss);
    QuietDistinct(t, ss);
    assert forall i | 0 <= i < |ss| :: ss[i].seen == See(t, ss[i].path);
  }

  /** A key whose first sample no longer fits makes the whole write do nothing. */
  lemma InterferenceAborts(t: Tree, ss: seq<Sample>, i: nat)
    requires i < |ss| && Unlisted(ss[..i], ss[i].path) && See(t, ss[i].path) != ss[i].seen
    ensures Run(t, WriteOps(ss)).None?
  {
    CommitExact(t, ss);
    ExpectedFresh(t, ss[..i], ss[i].path);
  }

  predicate Touches(op: Op, p: Path) {
    op.path == p && (op.SetData? || op.Create?)
  }

  predicate NoneTouches(others: seq<Op>, p: Path) {
    forall k | 0 <= k < |others| :: !Touches(others[k], p)
  }

  /** Versions only grow while a node is not deleted, and grow strictly when it is written. */
  lemma {:induction false} VersionGrows(t: Tree, others: seq<Op>, p: Path)
    requires Run(t, others).Some? && Op.Delete(p) !in others
    ensures var r := Run(t, others).value;
      && (p in t ==> p in r && t[p].version <= r[p].version)
      && (!NoneTouches(others, p) ==> See(r, p) != See(t, p))
      && (p in r && p !in t ==> !NoneTouches(others, p))
    decreases |others|
  {
    if others != [] {
      var t', rest := Step(t, others[0]).value, others[1..];
      assert forall k | 0 <= k < |rest| :: rest[k] == others[k + 1];
      VersionGrows(t', rest, p);
      assert others[0] != Op.Delete(p);
      if NoneTouches(rest, p) && !NoneTouches(others, p) {
        assert Touches(others[0], p);
      }
    }
  }

  ghost predicate ListedBefore(kv: seq<(Resolution, string)>, k: nat, p: Path)
    requires k <= |kv|
  {
    exists m :: 0 <= m < k && kv[m].0 == At(p)
  }

  lemma {:induction false} SampleOf(kv: seq<(Resolution, string)>, schedule: seq<Moment>, k: nat) returns (i: nat)
    requires |schedule| >= |kv| && k < |kv| && kv[k].0.At? && Sampled(kv, schedule).Some?
    ensures var ss := Sampled(kv, schedule).value;
      && i < |ss| && ss[i] == Sample(kv[k].0.path, kv[k].1, See(From(schedule[k], kv[k].0.path), kv[k].0.path))
      && forall j | 0 <= j < i :: ListedBefore(kv, k, ss[j].path)
    decreases |kv|
  {
    if k == 0 {
      i := 0;
    } else {
      i := SampleOf(kv[1..], schedule[1..], k - 1);
      var rest, ss := Sampled(kv[1..], schedule[1..]).value, Sampled(kv, schedule).value;
      var d := if kv[0].0.At? then 1 else 0;
      assert ss[d..] == rest;
      forall j | 0 <= j < i + d ensures ListedBefore(kv, k, ss[j].path) {
        if j < d {
          assert kv[0].0 == At(ss[0].path);
        } else {
          assert ss[j] == rest[j - d] && ListedBefore(kv[1..], k - 1, rest[j - d].path);
          var m :| 0 <= m < k - 1 && kv[1..][m].0 == At(rest[j - d].path);
          assert kv[m + 1].0 == At(ss[j].path);
        }
      }
      i := i + d;
    }
  }

  /** How many of the keys resolve to a path. */
  function Known(kv: seq<(Resolution, string)>): nat {
    if kv == [] then 0 else (if kv[0].0.At? then 1 else 0) + Known(kv[1..])
  }

  /** A key that ends the sampling: it raises, or it vanishes between the two requests. */
  predicate Stops(r: Resolution, m: Moment) {
    r.Raises? || (r.At? && r.path in m.asked && r.path !in m.read)
  }

  /** The sampling ends early exactly when some key stops it. Otherwise it takes one sample of each key that
      resolves, in order: the value to be written, and the version the key had when it was read. */
  lemma {:induction false} SampledExact(kv: seq<(Resolution, string)>, schedule: seq<Moment>)
    requires |schedule| >= |kv|
    ensures Sampled(kv, schedule).None? <==> exists i :: 0 <= i < |kv| && Stops(kv[i].0, schedule[i])
    ensures Sampled(kv, schedule).Some? ==>
              var ss := Sampled(kv, schedule).value;
              && |ss| == Known(kv)
              && forall i | 0 <= i < |kv| && kv[i].0.At? ::
                   var k, p := Known(kv[..i]), kv[i].0.path;
                   && k < |ss| && ss[k].path == p && ss[k].value == kv[i].1
                   && (if p in schedule[i].asked
                       then p in schedule[i].read && ss[k].seen == Some(schedule[i].read[p].version)
                       else ss[k].seen == None)
    decreases |kv|
  {
    if kv != [] {
      var rest, later := kv[1..], schedule[1..];
      SampledExact(rest, later);
      if i :| 0 <= i < |kv| && Stops(kv[i].0, schedule[i]) {
        assert i > 0 ==> Stops(rest[i - 1].0, later[i - 1]);
      }
      if i :| 0 <= i < |rest| && Stops(rest[i].0, later[i]) {
        assert Stops(kv[i + 1].0, schedule[i + 1]);
      }
      assert Sampled(kv, schedule).None? ==> Stops(kv[0].0, schedule[0]) || Sampled(rest, later).None?;
      if Sampled(kv, schedule).Some? {
        OnePlace(kv, schedule);
      }
    }
  }

  lemma OnePlace(kv: seq<(Resolution, string)>, schedule: seq<Moment>)
    requires kv != [] && |schedule| >= |kv| && Sampled(kv, schedule).Some?
    ensures Sampled(kv[1..], schedule[1..]).Some? && Known(kv[..0]) == 0
    ensures var d := if kv[0].0.At? then 1 else 0;
      && Sampled(kv[1..], schedule[1..]).value == Sampled(kv, schedule).value[d..]
      && forall i | 0 < i < |kv| :: Known(kv[..i]) == d + Known(kv[1..][..i - 1])
  {
    forall i | 0 < i < |kv|
      ensures Known(kv[..i]) == (if kv[0].0.At? then 1 else 0) + Known(kv[1..][..i - 1])
    {
      assert kv[..i][1..] == kv[1..][..i - 1];
    }
  }

  /** Optimistic concurrency: when other clients create or update a key after it was sampled, and do
      not delete it, the write takes no effect, whatever else they do. */
  lemma UpdateAborts(kv: seq<(Resolution, string)>, schedule: seq<Moment>, last: Tree, k: nat, others: seq<Op>)
    requires |schedule| == |kv| && Sampled(kv, schedule).Some?
    requires k < |kv| && kv[k].0.At? && forall m | 0 <= m < k :: kv[m].0 != kv[k].0
    requires Run(From(schedule[k], kv[k].0.path), others) == Some(last)
    requires !NoneTouches(others, kv[k].0.path) && Op.Delete(kv[k].0.path) !in others
    ensures Run(last, WriteOps(Sampled(kv, schedule).value)).None?
  {
    hide Run, Sampled, WriteOps;
    var ss, p := Sampled(kv, schedule).value, kv[k].0.path;
    var i := SampleOf(kv, schedule, k);
    VersionGrows(From(schedule[k], p), others, p);
    forall j | 0 <= j < i ensures ss[j].path != p {
      assert ListedBefore(kv, k, ss[j].path);
      var m :| 0 <= m < k && kv[m].0 == At(ss[j].path);
    }
    InterferenceAborts(last, ss, i);
  }

  /** Whatever other clients do between the samplings and the commit, a write of distinct keys takes
      effect if and only if each still has the version it was sampled at and each new one has a
      parent; and then it changes exactly its own keys. */
  lemma WriteExact(kv: seq<(Resolution, string)>, schedule: seq<Moment>, last: Tree)
    requires |schedule| == |kv| && Sampled(kv, schedule).Some? && Distinct(Sampled(kv, schedule).value)
    ensures var t, ss := last, Sampled(kv, schedule).value;
            && (Run(t, WriteOps(ss)).Some? <==>
                AsSeen(t, ss) && forall i | 0 <= i < |ss| && ss[i].seen.None? :: HasParent(t, ss, i))
            && (Run(t, WriteOps(ss)).Some? ==> WrittenTo(t, ss, Run(t, WriteOps(ss)).value))
  {
    hide Run, WriteOps, WrittenTo, HasParent, Undisturbed;
    CommitExact(last, Sampled(kv, schedule).value);
    DistinctUndisturbed(last, Sampled(kv, schedule).value);
  }

  /** The sampling from the i-th pair on. */
  lemma SampledFrom(kv: seq<(Resolution, string)>, schedule: seq<Moment>, i: nat)
    requires |schedule| == |kv| && i < |kv|
    ensures var here, rest := Sampled(kv[i..], schedule[i..]), Sampled(kv[i + 1..], schedule[i + 1..]);
            match kv[i].0
            case Raises => here.None?
            case Unknown => here == rest
            case At(p) =>
              if p in schedule[i].asked && p !in schedule[i].read then here.None?
              else
                && (here.None? <==> rest.None?)
                && (rest.Some? ==>
                      here.value == [Sample(p, kv[i].1, See(From(schedule[i], p), p))] + rest.value)
  {
    assert kv[i..][0] == kv[i] && kv[i..][1..] == kv[i + 1..];
    assert schedule[i..][0] == schedule[i] && schedule[i..][1..] == schedule[i + 1..];
  }

  lemma NothingLeft(kv: seq<(Resolution, string)>, schedule: seq<Moment>)
    requires kv == [] && schedule == []
    ensures Sampled(kv, schedule) == Some([]) && WriteOps([]) == []
  {
  }

  lemma OpsFrom(ops: seq<Op>, s: Sample, rest: seq<Sample>)
    ensures ops + WriteOps([s] + rest) == ops + SampleOps(s) + WriteOps(rest)
  {
    assert ([s] + rest)[1..] == rest;
  }

  /** A client of the store. */
  class Handler {
    const server: Server

    constructor (server: Server)
      ensures this.server == server
    {
      this.server := server;
    }

    /** Samples the keys one by one, then commits. `schedule` says what other clients have made of
        the store by the time of each request, and `last` by the commit. */
    method Write(kv: seq<(Resolution, string)>, schedule: seq<Moment>, last: Tree) returns (ok: bool)
      requires |schedule| == |kv|
      modifies server
      ensures Sampled(kv, schedule).None? ==>
                !ok && exists i :: 0 <= i < |kv| && server.tree in {schedule[i].asked, schedule[i].read}
      ensures Sampled(kv, schedule).Some? ==>
                ok == Run(last, WriteOps(Sampled(kv, schedule).value)).Some?
      ensures ok ==> Run(last, WriteOps(Sampled(kv, schedule).value)) == Some(server.tree)
      ensures !ok && Sampled(kv, schedule).Some? ==> server.tree == last
    {
      hide Sampled, WriteOps, SampleOps, Run;
      var ops: seq<Op> := [];
      var i := 0;
      assert kv[0..] == kv && schedule[0..] == schedule;
      while i < |kv|
        invariant 0 <= i <= |kv|
        invariant Sampled(kv, schedule).None? <==> Sampled(kv[i..], schedule[i..]).None?
        invariant Sampled(kv, schedule).Some? ==>
                  WriteOps(Sampled(kv, schedule).value) == ops + WriteOps(Sampled(kv[i..], schedule[i..]).value)
      {
        SampledFrom(kv, schedule, i);
        server.tree := schedule[i].asked;
        match kv[i].0 {
          case Raises => return false;
          case Unknown =>
          case At(p) =>
            var seen: Option<nat> := None;
            if p in server.tree {
              server.tree := schedule[i].read;
              if p !in server.tree {
                return false;
              }
              seen := Some(server.tree[p].version);
            }
            var mine := Sample(p, kv[i].1, seen);
            ghost var rest := Sampled(kv[i + 1..], schedule[i + 1..]);
            if rest.Some? {
              OpsFrom(ops, mine, rest.value);
            }
            ops := ops + SampleOps(mine);
        }
        i := i + 1;
      }
      server.tree := last;
      NothingLeft(kv[i..], schedule[i..]);
      assert Sampled(kv, schedule).Some? ==> WriteOps(Sampled(kv, schedule).value) == ops;
      ok := server.Commit(ops);
    }
  }
}
