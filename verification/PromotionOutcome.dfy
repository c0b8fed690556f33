/** What a promotion leaves on the two clusters. */
module PromotionOutcome {
  import opened Wrappers
  import opened Promotion

  /** The state the remote VM is to be given: the one found here, if it is one to be kept. */
  predicate Kept(found: VmState, remote: Option<VmState>) {
    if found == Start || found == Stop || found == Disable then remote == Some(found) else remote == Some(Start)
  }

  // A worker left alone

  function Works(n: nat): (es: seq<Event>)
    ensures |es| == n && forall e | e in es :: e == Work
  {
    seq(n, _ => Work)
  }

  lemma WorkFirst(w: World, n: nat, rely: Rely, removeOnSource: bool)
    requires n > 0
    ensures Run(w, Works(n), rely, removeOnSource)
         == Run(Worker(w, removeOnSource), Works(n - 1), rely, removeOnSource)
  {
    hide Worker;
    assert Works(n)[0] == Work && Works(n)[1..] == Works(n - 1);
  }

  /** Past its wait, with the VM `l` and these volumes, none of which anybody touches. */
  predicate Going(w: World, found: VmState, l: Local, disks: seq<Disk>, stop: Option<seq<Disk>>,
                  removeOnSource: bool) {
    var j := w.job;
    && j.stage != Begin && !Early(w) && j.previous == found && w.disks == disks && |j.remoteDisks| == |disks|
    && |j.taken| <= |disks| && j.taken == disks[..|j.taken|]
    && j.sent <= |j.taken| && j.remoteDisks[..j.sent] == disks[..j.sent]
    && (j.stage == Snapshotting || j.stage == SendConfig ==> j.sent == 0)
    && (j.stage != Snapshotting ==> j.taken == disks)
    && (j.stage == StartRemote || j.stage == Finish || j.stage == Ended ==> j.remoteDisks == disks)
    && (j.stage == Finish || j.stage == Ended ==> Kept(found, w.remote))
    && j.stopDisks == stop && (j.stage != Finish && j.stage != Ended ==> j.startDisks == None)
    && (j.stage == Finish || j.stage == Ended ==>
          j.startDisks == if found == Stop || found == Disable then None else Some(disks))
    && (j.stage != Ended ==> w.local == Some(l))
    && (j.stage == Ended ==> w.local == if removeOnSource then None else Some(l.(state := Mirror)))
  }

  /** The steps still to go. */
  function Left(w: World): nat {
    var j := w.job;
    match j.stage
    case Snapshotting => 5 + |w.disks| + if |j.taken| < |w.disks| then |w.disks| - |j.taken| else 0
    case SendConfig => 4 + |w.disks|
    case Sending => 3 + if j.sent < |w.disks| then |w.disks| - j.sent else 0
    case StartRemote => 2
    case Finish => 1
    case _ => 0
  }

  lemma GoingOn(w: World, found: VmState, l: Local, disks: seq<Disk>, stop: Option<seq<Disk>>, removeOnSource: bool)
    requires Going(w, found, l, disks, stop, removeOnSource)
    ensures Going(Worker(w, removeOnSource), found, l, disks, stop, removeOnSource)
    ensures w.job.stage != Ended ==> Left(Worker(w, removeOnSource)) < Left(w)
  {
    match w.job.stage
    case Snapshotting => GoingSnapshotting(w, found, l, disks, stop, removeOnSource);
    case Sending => GoingSending(w, found, l, disks, stop, removeOnSource);
    case _ =>
  }

  lemma GoingSnapshotting(w: World, found: VmState, l: Local, disks: seq<Disk>, stop: Option<seq<Disk>>,
                          removeOnSource: bool)
    requires Going(w, found, l, disks, stop, removeOnSource) && w.job.stage == Snapshotting
    ensures Going(Worker(w, removeOnSource), found, l, disks, stop, removeOnSource)
    ensures Left(Worker(w, removeOnSource)) < Left(w)
  {
    var j := w.job;
    if |j.taken| < |disks| {
      assert disks[..|j.taken| + 1] == disks[..|j.taken|] + [disks[|j.taken|]];
    } else {
      assert disks[..|j.taken|] == disks;
    }
  }

  lemma GoingSending(w: World, found: VmState, l: Local, disks: seq<Disk>, stop: Option<seq<Disk>>,
                     removeOnSource: bool)
    requires Going(w, found, l, disks, stop, removeOnSource) && w.job.stage == Sending
    ensures Going(Worker(w, removeOnSource), found, l, disks, stop, removeOnSource)
    ensures Left(Worker(w, removeOnSource)) < Left(w)
  {
    var j := w.job;
    if j.sent < |j.taken| {
      assert disks[..j.sent + 1] == disks[..j.sent] + [disks[j.sent]];
      var sent := j.remoteDisks[j.sent := j.taken[j.sent]];
      assert sent[..j.sent + 1] == j.remoteDisks[..j.sent] + [disks[j.sent]];
    } else {
      assert j.remoteDisks[..j.sent] == j.remoteDisks && disks[..j.sent] == disks;
    }
  }

  lemma {:induction false} GoesToTheEnd(w: World, n: nat, found: VmState, l: Local, disks: seq<Disk>,
                                        stop: Option<seq<Disk>>, rely: Rely, removeOnSource: bool)
    requires Going(w, found, l, disks, stop, removeOnSource) && n >= Left(w)
    ensures var r := Run(w, Works(n), rely, removeOnSource);
            Going(r, found, l, disks, stop, removeOnSource) && r.job.stage == Ended
    decreases n
  {
    if n > 0 {
      WorkFirst(w, n, rely, removeOnSource);
      GoingOn(w, found, l, disks, stop, removeOnSource);
      hide Worker, Going, Left;
      var next := Worker(w, removeOnSource);
      if w.job.stage == Ended {
        StaysEnded(w, removeOnSource);
      }
      GoesToTheEnd(next, n - 1, found, l, disks, stop, rely, removeOnSource);
    }
  }

  lemma StaysEnded(w: World, removeOnSource: bool)
    requires w.job.stage == Ended
    ensures Worker(w, removeOnSource) == w && Left(w) == 0
  {
  }

  /** A VM that is not started, nor disturbed: its disks and its state go over, and it is removed here, or a
      mirror. */
  lemma PromotesStopped(w: World, n: nat, rely: Rely, removeOnSource: bool)
    requires Init(w) && w.local.value.state != Start && n >= 6 + 2 * |w.disks|
    ensures var r := Run(w, Works(n), rely, removeOnSource);
            && r.job.stage == Ended && Kept(w.local.value.state, r.remote)
            && r.job.remoteDisks == r.job.taken == r.disks == w.disks
            && r.local == if removeOnSource then None else Some(Local(Mirror, w.local.value.running))
  {
    WorkFirst(w, n, rely, removeOnSource);
    var l := w.local.value;
    GoesToTheEnd(Worker(w, removeOnSource), n - 1, l.state, l, w.disks, None, rely, removeOnSource);
  }

  /** A started VM is shut down first, and goes over, as started, once somebody has taken it out of shutdown,
      however long the worker has waited by then. */
  lemma PromotesStarted(w: World, waited: nat, to: Local, n: nat, rely: Rely, removeOnSource: bool)
    requires Init(w) && w.local.value.state == Start && waited >= 3 && n >= 6 + 2 * |w.disks|
    requires rely(Local(Shutdown, w.local.value.running), to) && to.state != Shutdown
    ensures var r := Run(w, Works(waited) + [Move(to)] + Works(n), rely, removeOnSource);
            && r.job.stage == Ended && r.remote == Some(Start)
            && r.job.remoteDisks == r.job.taken == r.disks == w.disks
            && r.job.stopDisks == r.job.startDisks == Some(w.disks)
            && r.local == if removeOnSource then None else Some(Local(Mirror, to.running))
  {
    hide Worker, Run;
    var l := w.local.value;
    var waiting :=
      World(Some(Local(Shutdown, l.running)), w.remote, w.disks, w.job.(stage := Waiting, previous := Start));
    ToTheWait(w, waited, rely, removeOnSource);
    RunConcat(w, Works(waited) + [Move(to)], Works(n), rely, removeOnSource);
    RunConcat(w, Works(waited), [Move(to)], rely, removeOnSource);
    var over := Moved(waiting, to);
    OneEvent(waiting, Move(to), rely, removeOnSource);
    var next := Worker(over, removeOnSource);
    WorkFirst(over, n, rely, removeOnSource);
    assert Going(next, Start, to, w.disks, Some(w.disks), removeOnSource) by { WaitLeft(over, removeOnSource); }
    GoesToTheEnd(next, n - 1, Start, to, w.disks, Some(w.disks), rely, removeOnSource);
  }

  lemma OneEvent(w: World, e: Event, rely: Rely, removeOnSource: bool)
    ensures Run(w, [e], rely, removeOnSource) == Do(w, e, rely, removeOnSource)
  {
    hide Do;
    assert Run(Do(w, e, rely, removeOnSource), [e][1..], rely, removeOnSource) == Do(w, e, rely, removeOnSource);
  }

  lemma WaitLeft(w: World, removeOnSource: bool)
    requires w.job.stage == Waiting && !Is(w, Shutdown)
    ensures Worker(w, removeOnSource) == w.(job := w.job.(stage := Snapshotting))
  {
  }

  /** The worker has set the VM to shutdown, and waits. */
  lemma ToTheWait(w: World, n: nat, rely: Rely, removeOnSource: bool)
    requires Init(w) && w.local.value.state == Start && n >= 3
    ensures Run(w, Works(n), rely, removeOnSource)
         == World(Some(Local(Shutdown, w.local.value.running)), w.remote, w.disks,
                  w.job.(stage := Waiting, previous := Start))
  {
    var w1 := Worker(w, removeOnSource);
    var w2 := Worker(w1, removeOnSource);
    WorkFirst(w, n, rely, removeOnSource);
    WorkFirst(w1, n - 1, rely, removeOnSource);
    WorkFirst(w2, n - 2, rely, removeOnSource);
    Waits(Worker(w2, removeOnSource), n - 3, rely, removeOnSource);
  }

  lemma {:induction false} Waits(w: World, n: nat, rely: Rely, removeOnSource: bool)
    requires w.job.stage == Waiting && Is(w, Shutdown)
    ensures Run(w, Works(n), rely, removeOnSource) == w
  {
    if n > 0 {
      WorkFirst(w, n, rely, removeOnSource);
      Waits(w, n - 1, rely, removeOnSource);
    }
  }

  /** A VM that exists on the other side and is no mirror is left alone, on both sides. */
  lemma RefusesOther(w: World, n: nat, rely: Rely, removeOnSource: bool)
    requires w.job.stage == Begin && w.remote.Some? && w.remote.value != Mirror && n > 0
    ensures Run(w, Works(n), rely, removeOnSource) == w.(job := w.job.(stage := Ended))
  {
    WorkFirst(w, n, rely, removeOnSource);
    EndedForGood(Worker(w, removeOnSource), n - 1, rely, removeOnSource);
  }

  lemma {:induction false} EndedForGood(w: World, n: nat, rely: Rely, removeOnSource: bool)
    requires w.job.stage == Ended
    ensures Run(w, Works(n), rely, removeOnSource) == w
  {
    if n > 0 {
      WorkFirst(w, n, rely, removeOnSource);
      EndedForGood(w, n - 1, rely, removeOnSource);
    }
  }

  /** So is one that has left start by the time its shutdown is to be requested. */
  lemma RefusesNoLongerStarted(w: World, to: Local, n: nat, rely: Rely, removeOnSource: bool)
    requires Init(w) && w.local.value.state == Start && rely(w.local.value, to) && to.state != Start && n > 0
    ensures var r := Run(w, [Work, Move(to)] + Works(n), rely, removeOnSource);
            r.job.stage == Ended && r.local == Some(to) && r.remote == w.remote && r.disks == w.disks
            && r.job.remoteDisks == w.job.remoteDisks && r.job.taken == []
  {
    var w1 := Worker(w, removeOnSource);
    var moved := Moved(w1, to);
    RunConcat(w, [Work, Move(to)], Works(n), rely, removeOnSource);
    assert [Work, Move(to)] == [Work] + [Move(to)];
    RunConcat(w, [Work], [Move(to)], rely, removeOnSource);
    OneEvent(w, Work, rely, removeOnSource);
    OneEvent(w1, Move(to), rely, removeOnSource);
    WorkFirst(moved, n, rely, removeOnSource);
    EndedForGood(Worker(moved, removeOnSource), n - 1, rely, removeOnSource);
  }

  // Whatever happens

  /** What holds at every point of every run of a VM found in `found`. */
  predicate OnTrack(w: World, found: VmState, remote: Option<VmState>, removeOnSource: bool) {
    var j := w.job;
    && j.stage != Begin && (j.stage != Ended ==> j.previous == found && w.local.Some?)
    && |j.taken| <= |w.disks| == |j.remoteDisks| && j.sent <= |j.taken|
    && (Early(w) || j.stage == Snapshotting || j.stage == SendConfig ==> j.sent == 0)
    && (j.stage == SendConfig || j.stage == Sending || j.stage == StartRemote || j.stage == Finish ==>
          |j.taken| == |w.disks|)
    && j.taken[..j.sent] == j.remoteDisks[..j.sent]
    && (j.stage == StartRemote || j.stage == Finish ==> j.sent == |w.disks|)
    && (w.remote == remote || w.remote == Some(Mirror) || Kept(found, w.remote))
    && (j.stage == Finish || w.local.None? ==> Kept(found, w.remote))
    && (w.remote.Some? && w.remote.value != Mirror ==>
          (j.stage == Finish || j.stage == Ended) && j.remoteDisks == j.taken && |j.taken| == |w.disks|)
    && (w.local.None? ==> removeOnSource)
  }

  lemma OnTrackWorker(w: World, found: VmState, remote: Option<VmState>, removeOnSource: bool)
    requires OnTrack(w, found, remote, removeOnSource)
    ensures OnTrack(Worker(w, removeOnSource), found, remote, removeOnSource)
  {
    if w.job.stage == Sending {
      OnTrackSending(w, found, remote, removeOnSource);
    } else if w.job.stage == StartRemote {
      assert w.job.taken[..w.job.sent] == w.job.taken && w.job.remoteDisks[..w.job.sent] == w.job.remoteDisks;
    }
  }

  lemma OnTrackSending(w: World, found: VmState, remote: Option<VmState>, removeOnSource: bool)
    requires OnTrack(w, found, remote, removeOnSource) && w.job.stage == Sending
    ensures OnTrack(Worker(w, removeOnSource), found, remote, removeOnSource)
  {
    var j := w.job;
    if j.sent < |j.taken| {
      var sent := j.remoteDisks[j.sent := j.taken[j.sent]];
      assert sent[..j.sent + 1] == j.remoteDisks[..j.sent] + [j.taken[j.sent]];
      assert j.taken[..j.sent + 1] == j.taken[..j.sent] + [j.taken[j.sent]];
    }
  }

  lemma OnTrackCut(w: World, found: VmState, remote: Option<VmState>, removeOnSource: bool)
    requires OnTrack(w, found, remote, removeOnSource)
    ensures OnTrack(w.(job := w.job.(stage := Ended)), found, remote, removeOnSource)
  {
  }

  lemma OnTrackStep(w: World, e: Event, found: VmState, remote: Option<VmState>, rely: Rely, removeOnSource: bool)
    requires OnTrack(w, found, remote, removeOnSource)
    ensures OnTrack(Do(w, e, rely, removeOnSource), found, remote, removeOnSource)
  {
    hide Worker;
    OnTrackWorker(w, found, remote, removeOnSource);
    OnTrackCut(w, found, remote, removeOnSource);
    OnTrackCut(Worker(w, removeOnSource), found, remote, removeOnSource);
  }

  lemma {:induction false} OnTrackRun(w: World, es: seq<Event>, found: VmState, remote: Option<VmState>, rely: Rely,
                                      removeOnSource: bool)
    requires OnTrack(w, found, remote, removeOnSource)
    ensures OnTrack(Run(w, es, rely, removeOnSource), found, remote, removeOnSource)
    decreases |es|
  {
    hide Do, OnTrack;
    if es != [] {
      OnTrackStep(w, es[0], found, remote, rely, removeOnSource);
      OnTrackRun(Do(w, es[0], rely, removeOnSource), es[1..], found, remote, rely, removeOnSource);
    }
  }

  /** In every run, whatever fails and whatever the others do: the VM is removed here only on request, and only
      once the remote one has the state it is to have; and the remote one is given that state only when each
      of its volumes holds the snapshot taken of the local one. */
  lemma NothingLost(w: World, es: seq<Event>, rely: Rely, removeOnSource: bool)
    requires Init(w)
    ensures var r := Run(w, [Work] + es, rely, removeOnSource);
            && (r.local.None? ==> removeOnSource && Kept(w.local.value.state, r.remote))
            && (r.remote == w.remote || r.remote == Some(Mirror) || Kept(w.local.value.state, r.remote))
            && (r.remote.Some? && r.remote.value != Mirror ==>
                  r.job.remoteDisks == r.job.taken && |r.job.taken| == |w.disks|)
  {
    hide Do, Run;
    RunConcat(w, [Work], es, rely, removeOnSource);
    OneEvent(w, Work, rely, removeOnSource);
    FirstLook(w, rely, removeOnSource);
    OnTrackRun(Do(w, Work, rely, removeOnSource), es, w.local.value.state, w.remote, rely, removeOnSource);
    SameCount(w, [Work] + es, rely, removeOnSource);
  }

  lemma FirstLook(w: World, rely: Rely, removeOnSource: bool)
    requires Init(w)
    ensures OnTrack(Do(w, Work, rely, removeOnSource), w.local.value.state, w.remote, removeOnSource)
  {
  }

  lemma {:induction false} SameCount(w: World, es: seq<Event>, rely: Rely, removeOnSource: bool)
    ensures |Run(w, es, rely, removeOnSource).disks| == |w.disks|
    decreases |es|
  {
    hide Do;
    if es != [] {
      DisksKeepCount(w, es[0], rely, removeOnSource);
      SameCount(Do(w, es[0], rely, removeOnSource), es[1..], rely, removeOnSource);
    }
  }

  /** The faults that were allowed for: a cut before or after any step, and anything left on the volume being
      sent. */
  lemma Faults(w: World, d: Disk, rely: Rely, removeOnSource: bool)
    ensures Run(w, [Cut], rely, removeOnSource) == w.(job := w.job.(stage := Ended))
    ensures Run(w, [CutAfter], rely, removeOnSource) == Run(w, [Work, Cut], rely, removeOnSource)
    ensures w.job.stage == Sending && w.job.sent < |w.job.remoteDisks| ==>
              var r := Run(w, [CutSending(d)], rely, removeOnSource);
              && r.job.stage == Ended && r.job.remoteDisks == w.job.remoteDisks[w.job.sent := d]
              && r == w.(job := w.job.(stage := r.job.stage, remoteDisks := r.job.remoteDisks))
  {
    hide Worker;
    OneEvent(w, Cut, rely, removeOnSource);
    OneEvent(w, CutAfter, rely, removeOnSource);
    OneEvent(w, CutSending(d), rely, removeOnSource);
    assert [Work, Cut] == [Work] + [Cut];
    RunConcat(w, [Work], [Cut], rely, removeOnSource);
    OneEvent(w, Work, rely, removeOnSource);
    OneEvent(Worker(w, removeOnSource), Cut, rely, removeOnSource);
  }

  /** And what the others may do: any change their relation allows, and any writes while the guest runs. */
  lemma Interference(w: World, to: Local, disks: seq<Disk>, rely: Rely, removeOnSource: bool)
    requires w.local.Some? && w.job.stage != Waiting
    ensures rely(w.local.value, to) ==> Run(w, [Move(to)], rely, removeOnSource) == w.(local := Some(to))
    ensures w.local.value.running && |disks| == |w.disks| ==>
              Run(w, [Write(disks)], rely, removeOnSource) == w.(disks := disks)
  {
    OneEvent(w, Move(to), rely, removeOnSource);
    OneEvent(w, Write(disks), rely, removeOnSource);
  }

  // What the node daemons do to a VM that is left to them

  predicate Migrates(state: VmState) {
    state == Migrate || state == MigrateLive
  }

  /** The same place, or the guest off; a shutdown or a migration that is over; a migration that failed; or, for one
      that restarts or migrates with its guest running, started. */
  predicate Alone(a: Local, b: Local) {
    || b == a || b == Local(a.state, false)
    || (b == Local(Stop, false) && (a.state == Shutdown || a.state == Restart || a.state == Migrate))
    || (b.state == Fail && Migrates(a.state) && (b.running ==> a.running))
    || (b.state == Start && (a.state == Restart || (Migrates(a.state) && a.running)))
  }

  function AloneFrom(a: Local): Local -> bool {
    (b: Local) => Alone(a, b)
  }

  /** Exactly these are the places it can get to with nobody else about. */
  lemma DaemonsAlone(a: Local, b: Local)
    ensures Reach(Others({}), a, b) <==> Alone(a, b)
  {
    if Reach(Others({}), a, b) {
      AloneKept(a);
      hide Others, Reach;
      KeepsReach(Others({}), AloneFrom(a), a, b);
    }
    if Alone(a, b) {
      AloneReached(a, b, {});
    }
  }

  lemma AloneKept(a: Local)
    ensures Keeps(Others({}), AloneFrom(a))
  {
  }

  lemma AloneReached(a: Local, b: Local, writers: set<Writer>)
    requires Alone(a, b)
    ensures Reach(Others(writers), a, b)
  {
    var rely := Others(writers);
    ReachSelf(rely, a);
    var off := Local(a.state, false);
    ReachOne(rely, a, off);
    if b == Local(Stop, false) && (a.state == Shutdown || a.state == Restart || a.state == Migrate) {
      ReachOne(rely, off, b);
      ReachTrans(rely, a, off, b);
    } else if b.state == Fail && Migrates(a.state) {
      if b.running == a.running {
        ReachOne(rely, a, b);
      } else {
        ReachOne(rely, off, b);
        ReachTrans(rely, a, off, b);
      }
    } else if b.state == Start && (a.state == Restart || (Migrates(a.state) && a.running)) {
      ReachOne(rely, a, b);
    }
  }

  /** Where one of the further writers may take it besides, with the daemons' help. */
  predicate Further(x: Writer, a: Local, b: Local) {
    match x
    case Timeout => b.state == Stop && a.running && (a.state == Shutdown || a.state == Restart || a.state == Migrate)
    case StopWrite => b == Local(Stop, false)
    case Starting => (a.state == Start || a.state == Shutdown || Migrates(a.state)) && Alone(Local(a.state, true), b)
    case FailedStart => b == Local(Fail, false)
    case Flush =>
      || b == Local(Migrate, false) || b == Local(Fail, false) || b == Local(Stop, false)
      || ((a.running || a.state == Restart)
          && (b.state == Migrate || b.state == Fail || b.state == Start || b.state == Shutdown))
      || (a.state == Start && b == Local(Shutdown, false))
    case Return =>
      || b == Local(Migrate, false) || b == Local(Fail, false) || b == Local(Stop, false)
      || ((a.running || a.state == Restart) && (b.state == Migrate || b.state == Fail || b.state == Start))
    case _ => b.state == Start
  }

  function FurtherFrom(x: Writer, a: Local): Local -> bool {
    (b: Local) => Alone(a, b) || Further(x, a, b)
  }

  /** Exactly these are the places it can get to with one writer about. */
  lemma OneWriterAbout(x: Writer, a: Local, b: Local)
    ensures Reach(Others({x}), a, b) <==> Alone(a, b) || Further(x, a, b)
  {
    hide Others, Reach, Alone, Further;
    if Reach(Others({x}), a, b) {
      FurtherKept(x, a);
      KeepsReach(Others({x}), FurtherFrom(x, a), a, b);
    }
    if Alone(a, b) {
      AloneReached(a, b, {x});
    } else if Further(x, a, b) {
      FurtherReached(x, a, b);
    }
  }

  lemma FurtherKept(x: Writer, a: Local)
    ensures Keeps(Others({x}), FurtherFrom(x, a)) && FurtherFrom(x, a)(a)
  {
    forall c, d | (Alone(a, c) || Further(x, a, c)) && Others({x})(c, d) ensures Alone(a, d) || Further(x, a, d) {
      if Daemon(c, d) {
        DaemonKeeps(x, a, c, d);
      } else {
        assert Writes(x, c, d);
        WriterKeeps(x, a, c, d);
      }
    }
  }

  lemma DaemonKeeps(x: Writer, a: Local, c: Local, d: Local)
    requires (Alone(a, c) || Further(x, a, c)) && Daemon(c, d)
    ensures Alone(a, d) || Further(x, a, d)
  {
  }

  lemma WriterKeeps(x: Writer, a: Local, c: Local, d: Local)
    requires (Alone(a, c) || Further(x, a, c)) && Writes(x, c, d)
    ensures Alone(a, d) || Further(x, a, d)
  {
  }

  /** One write, then what the daemons make of it. */
  lemma WriteThen(x: Writer, a: Local, c: Local, b: Local)
    requires Writes(x, a, c) && Alone(c, b)
    ensures Reach(Others({x}), a, b)
  {
    WriterReaches(x, {x}, a, c);
    AloneReached(c, b, {x});
    ReachTrans(Others({x}), a, c, b);
  }

  lemma FurtherReached(x: Writer, a: Local, b: Local)
    requires Further(x, a, b)
    ensures Reach(Others({x}), a, b)
  {
    var off := Local(a.state, false);
    AloneReached(a, off, {x});
    match x
    case Timeout => WriteThen(x, a, Local(Stop, true), b);
    case StopWrite => WriterReaches(x, {x}, a, b);
    case Starting => StartingReached(a, b);
    case FailedStart =>
      WriterReaches(x, {x}, off, b);
      ReachTrans(Others({x}), a, off, b);
    case Flush => SentReached(x, a, b);
    case Return => SentReached(x, a, b);
    case _ => WriterReaches(x, {x}, a, b);
  }

  lemma StartingReached(a: Local, b: Local)
    requires Further(Starting, a, b)
    ensures Reach(Others({Starting}), a, b)
  {
    var off, on := Local(a.state, false), Local(a.state, true);
    AloneReached(a, off, {Starting});
    WriteThen(Starting, off, on, b);
    ReachTrans(Others({Starting}), a, off, b);
  }

  lemma SentReached(x: Writer, a: Local, b: Local)
    requires (x == Flush || x == Return) && Further(x, a, b)
    ensures Reach(Others({x}), a, b)
  {
    var off, started := Local(a.state, false), Local(Start, true);
    AloneReached(a, off, {x});
    if b == Local(Migrate, false) || b == Local(Fail, false) || b == Local(Stop, false) {
      WriteThen(x, off, Local(Migrate, false), b);
      ReachTrans(Others({x}), a, off, b);
    } else if a.state == Start && b == Local(Shutdown, false) {
      WriteThen(x, off, b, b);
      ReachTrans(Others({x}), a, off, b);
    } else {
      StartedBySending(x, a);
      if b.state == Start {
        AloneReached(started, b, {x});
      } else if b.state == Shutdown {
        WriteThen(x, started, Local(Shutdown, true), b);
      } else {
        WriteThen(x, started, Local(Migrate, true), b);
      }
      ReachTrans(Others({x}), a, started, b);
    }
  }

  lemma StartedBySending(x: Writer, a: Local)
    requires (x == Flush || x == Return) && (a.running || a.state == Restart)
    ensures Reach(Others({x}), a, Local(Start, true))
  {
    if a.state == Restart {
      AloneReached(a, Local(Start, true), {x});
    } else {
      WriteThen(x, a, Local(Migrate, true), Local(Start, true));
    }
  }
}
