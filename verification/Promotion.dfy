/** `vm_worker_promote_mirror`: a VM is shut down here, its disks are sent to the mirror, the mirror is
    started there. The worker is followed step by step and may be cut off at any point; meanwhile
    everyone else on the local cluster may change the VM's state and guest, in ways given by a relation. */
module Promotion {
  import opened Wrappers

  datatype VmState =
    | Start | Restart | Shutdown | Stop | Disable | Fail | Migrate | MigrateLive | Unmigrate
    | Provision | Import | Restore | Mirror

  /** The VM's state here, and whether its guest executes. */
  datatype Local = Local(state: VmState, running: bool)

  /** What the others may do to a VM, at any time and any number of times. */
  type Rely = (Local, Local) -> bool

  /** A volume's content. */
  type Disk = int

  /** How far the worker is. */
  datatype Stage =
    | Begin | NeedShutdown | SetShutdown | Waiting | Snapshotting | SendConfig | Sending | StartRemote | Finish | Ended

  /** The worker's side. */
  datatype Job = Job(
    stage: Stage,
    previous: VmState,              // the local state it found
    taken: seq<Disk>,               // the snapshots of the volumes, in order
    sent: nat,                      // how many of them were sent
    remoteDisks: seq<Disk>,         // the remote volumes
    stopDisks: Option<seq<Disk>>,   // the local volumes when the state last left shutdown during the wait
    startDisks: Option<seq<Disk>>   // the remote volumes when the remote VM was set to start
  )

  datatype World = World(
    local: Option<Local>,           // None once the VM was removed
    remote: Option<VmState>,        // None while the VM does not exist there
    disks: seq<Disk>,               // the local volumes
    job: Job
  )

  datatype Event =
    | Work                     // the worker's next step
    | Cut                      // the worker fails before it
    | CutAfter                 // or after it took effect, its answer lost
    | CutSending(d: Disk)      // a broken transfer leaves anything on the volume being sent
    | Move(to: Local)          // somebody else changes the VM
    | Write(disks: seq<Disk>)  // the guest writes while it runs

  // The worker

  /** The state given to the remote VM: the one found here, or start for anything unusual. */
  function Target(previous: VmState): VmState {
    if previous == Start || previous == Stop || previous == Disable then previous else Start
  }

  function At(w: World, stage: Stage): World {
    w.(job := w.job.(stage := stage))
  }

  /** The worker writes the state; the guest does not notice at once. */
  function In(w: World, state: VmState): World {
    if w.local.None? then w else w.(local := Some(w.local.value.(state := state)))
  }

  predicate Is(w: World, state: VmState) {
    w.local.Some? && w.local.value.state == state
  }

  function SetRemote(w: World): World {
    var target := Target(w.job.previous);
    w.(remote := Some(target),
       job := if target == Start then w.job.(startDisks := Some(w.job.remoteDisks)) else w.job)
  }

  function Worker(w: World, removeOnSource: bool): World {
    var j := w.job;
    match j.stage
    case Begin =>
      if w.local.None? || (w.remote.Some? && w.remote != Some(Mirror)) then At(w, Ended)
      else
        var next := if Is(w, Start) then NeedShutdown else Snapshotting;
        w.(job := j.(stage := next, previous := w.local.value.state))
    case NeedShutdown => At(w, if Is(w, Start) then SetShutdown else Ended)
    case SetShutdown => At(In(w, Shutdown), Waiting)
    case Waiting => if Is(w, Shutdown) then w else At(w, Snapshotting)
    case Snapshotting =>
      if |j.taken| < |w.disks| then w.(job := j.(taken := j.taken + [w.disks[|j.taken|]])) else At(w, SendConfig)
    case SendConfig => At(w, Sending).(remote := if w.remote.None? then Some(Mirror) else w.remote)
    case Sending =>
      if j.sent < |j.taken| && j.sent < |j.remoteDisks|
      then w.(job := j.(remoteDisks := j.remoteDisks[j.sent := j.taken[j.sent]], sent := j.sent + 1))
      else At(w, StartRemote)
    case StartRemote => At(SetRemote(w), Finish)
    case Finish => At(if removeOnSource then w.(local := None) else In(w, Mirror), Ended)
    case Ended => w
  }

  /** What one event does; an event that is not possible does nothing. */
  function Do(w: World, e: Event, rely: Rely, removeOnSource: bool): World {
    var j := w.job;
    match e
    case Work => Worker(w, removeOnSource)
    case Cut => At(w, Ended)
    case CutAfter => At(Worker(w, removeOnSource), Ended)
    case CutSending(d) =>
      if j.stage == Sending && j.sent < |j.remoteDisks|
      then w.(job := j.(remoteDisks := j.remoteDisks[j.sent := d], stage := Ended)) else w
    case Move(to) => if w.local.Some? && rely(w.local.value, to) then Moved(w, to) else w
    case Write(disks) =>
      if w.local.Some? && w.local.value.running && |disks| == |w.disks| then w.(disks := disks) else w
  }

  function Moved(w: World, to: Local): World {
    var left := w.job.stage == Waiting && Is(w, Shutdown) && to.state != Shutdown;
    w.(local := Some(to), job := if left then w.job.(stopDisks := Some(w.disks)) else w.job)
  }

  function Run(w: World, es: seq<Event>, rely: Rely, removeOnSource: bool): World
    decreases |es|
  {
    if es == [] then w else Run(Do(w, es[0], rely, removeOnSource), es[1..], rely, removeOnSource)
  }

  /** A promotion about to begin: the mirror exists on the other side, or nothing does. */
  predicate Init(w: World) {
    var j := w.job;
    && w.local.Some? && (w.remote.None? || w.remote == Some(Mirror))
    && j.stage == Begin && j.taken == [] && j.sent == 0 && |j.remoteDisks| == |w.disks|
    && j.stopDisks == None && j.startDisks == None
  }

  // Where the others can take a VM

  predicate IsPath(rely: Rely, path: seq<Local>) {
    |path| > 0 && forall i | 0 <= i < |path| - 1 :: rely(path[i], path[i + 1])
  }

  ghost predicate Reach(rely: Rely, a: Local, b: Local) {
    exists path :: IsPath(rely, path) && path[0] == a && path[|path| - 1] == b
  }

  lemma ReachSelf(rely: Rely, a: Local)
    ensures Reach(rely, a, a)
  {
    assert IsPath(rely, [a]);
  }

  lemma StepReach(rely: Rely, a: Local, b: Local, c: Local)
    requires rely(a, b) && Reach(rely, b, c)
    ensures Reach(rely, a, c)
  {
    var path :| IsPath(rely, path) && path[0] == b && path[|path| - 1] == c;
    var longer := [a] + path;
    assert forall i | 0 < i < |longer| :: longer[i] == path[i - 1];
    assert IsPath(rely, longer);
  }

  lemma ReachOne(rely: Rely, a: Local, b: Local)
    requires rely(a, b)
    ensures Reach(rely, a, b)
  {
    ReachSelf(rely, b);
    StepReach(rely, a, b, b);
  }

  /** Somebody may set it to start. */
  ghost predicate CanStart(rely: Rely, l: Local) {
    exists running :: Reach(rely, l, Local(Start, running))
  }

  /** Its guest may run. */
  ghost predicate CanRun(rely: Rely, l: Local) {
    exists state :: Reach(rely, l, Local(state, true))
  }

  /** The same if at some time the worker may make it a mirror. */
  ghost predicate CanStartYet(rely: Rely, l: Local, removeOnSource: bool) {
    || CanStart(rely, l)
    || (!removeOnSource && exists c :: Reach(rely, l, c) && CanStart(rely, Local(Mirror, c.running)))
  }

  ghost predicate CanRunYet(rely: Rely, l: Local, removeOnSource: bool) {
    || CanRun(rely, l)
    || (!removeOnSource && exists c :: Reach(rely, l, c) && CanRun(rely, Local(Mirror, c.running)))
  }

  lemma CanStartSteps(rely: Rely, a: Local, b: Local, removeOnSource: bool)
    requires rely(a, b)
    ensures CanStart(rely, b) ==> CanStart(rely, a)
    ensures CanStartYet(rely, b, removeOnSource) ==> CanStartYet(rely, a, removeOnSource)
  {
    if running :| Reach(rely, b, Local(Start, running)) {
      StepReach(rely, a, b, Local(Start, running));
    }
    if c :| !removeOnSource && Reach(rely, b, c) && CanStart(rely, Local(Mirror, c.running)) {
      StepReach(rely, a, b, c);
    }
  }

  lemma CanRunSteps(rely: Rely, a: Local, b: Local, removeOnSource: bool)
    requires rely(a, b)
    ensures CanRun(rely, b) ==> CanRun(rely, a)
    ensures CanRunYet(rely, b, removeOnSource) ==> CanRunYet(rely, a, removeOnSource)
  {
    if state :| Reach(rely, b, Local(state, true)) {
      StepReach(rely, a, b, Local(state, true));
    }
    if c :| !removeOnSource && Reach(rely, b, c) && CanRun(rely, Local(Mirror, c.running)) {
      StepReach(rely, a, b, c);
    }
  }

  lemma NowStarted(rely: Rely, l: Local)
    ensures l.state == Start ==> CanStart(rely, l)
    ensures l.running ==> CanRun(rely, l)
  {
    ReachSelf(rely, l);
    assert l == Local(l.state, l.running);
  }

  /** A VM in shutdown may leave that state for a place of which `bad` holds. */
  ghost predicate WaitMayEnd(rely: Rely, l: Local, bad: Local -> bool) {
    exists b :: Reach(rely, l, b) && b.state != Shutdown && bad(b)
  }

  /** The same of a VM found started: by the time the worker sets it to shutdown, without looking again,
      it may be somewhere else, and its guest on or off. */
  ghost predicate ShutdownMayEnd(rely: Rely, l: Local, bad: Local -> bool) {
    exists m :: Reach(rely, l, m) && WaitMayEnd(rely, Local(Shutdown, m.running), bad)
  }

  ghost function StartsYet(rely: Rely, removeOnSource: bool): Local -> bool {
    l => CanStartYet(rely, l, removeOnSource)
  }

  ghost function RunsYet(rely: Rely, removeOnSource: bool): Local -> bool {
    l => CanRunYet(rely, l, removeOnSource)
  }

  ghost function Runs(rely: Rely): Local -> bool {
    l => CanRun(rely, l)
  }

  /** What may still happen, may have happened before. */
  lemma MayEndSteps(rely: Rely, a: Local, b: Local, bad: Local -> bool)
    requires rely(a, b)
    ensures WaitMayEnd(rely, b, bad) ==> WaitMayEnd(rely, a, bad)
    ensures ShutdownMayEnd(rely, b, bad) ==> ShutdownMayEnd(rely, a, bad)
  {
    if c :| Reach(rely, b, c) && c.state != Shutdown && bad(c) {
      StepReach(rely, a, b, c);
    }
    if m :| Reach(rely, b, m) && WaitMayEnd(rely, Local(Shutdown, m.running), bad) {
      StepReach(rely, a, b, m);
    }
  }

  lemma MayEndNow(rely: Rely, l: Local, bad: Local -> bool)
    ensures l.state != Shutdown && bad(l) ==> WaitMayEnd(rely, l, bad)
    ensures WaitMayEnd(rely, Local(Shutdown, l.running), bad) ==> ShutdownMayEnd(rely, l, bad)
  {
    ReachSelf(rely, l);
  }

  // What some run leads to

  ghost predicate Leads(w: World, r: World, rely: Rely, removeOnSource: bool) {
    exists es :: Run(w, es, rely, removeOnSource) == r
  }

  lemma {:induction false} RunConcat(w: World, a: seq<Event>, b: seq<Event>, rely: Rely, removeOnSource: bool)
    ensures Run(w, a + b, rely, removeOnSource) == Run(Run(w, a, rely, removeOnSource), b, rely, removeOnSource)
    decreases |a|
  {
    hide Do;
    if a == [] {
      assert a + b == b;
    } else {
      assert (a + b)[0] == a[0] && (a + b)[1..] == a[1..] + b;
      RunConcat(Do(w, a[0], rely, removeOnSource), a[1..], b, rely, removeOnSource);
    }
  }

  lemma Itself(w: World, rely: Rely, removeOnSource: bool)
    ensures Leads(w, w, rely, removeOnSource)
  {
    assert Run(w, [], rely, removeOnSource) == w;
  }

  lemma Then(w: World, v: World, r: World, rely: Rely, removeOnSource: bool)
    requires Leads(w, v, rely, removeOnSource) && Leads(v, r, rely, removeOnSource)
    ensures Leads(w, r, rely, removeOnSource)
  {
    var a :| Run(w, a, rely, removeOnSource) == v;
    var b :| Run(v, b, rely, removeOnSource) == r;
    RunConcat(w, a, b, rely, removeOnSource);
  }

  /** One event in front. */
  lemma First(w: World, e: Event, r: World, rely: Rely, removeOnSource: bool)
    requires Leads(Do(w, e, rely, removeOnSource), r, rely, removeOnSource)
    ensures Leads(w, r, rely, removeOnSource)
  {
    hide Do;
    var es :| Run(Do(w, e, rely, removeOnSource), es, rely, removeOnSource) == r;
    var all := [e] + es;
    assert all[1..] == es;
    assert Run(w, all, rely, removeOnSource) == r;
  }

  lemma OneStep(w: World, rely: Rely, removeOnSource: bool)
    ensures Leads(w, Worker(w, removeOnSource), rely, removeOnSource)
  {
    hide Worker;
    Itself(Worker(w, removeOnSource), rely, removeOnSource);
    First(w, Work, Worker(w, removeOnSource), rely, removeOnSource);
  }

  lemma {:induction false} TakeAll(w: World, rely: Rely, removeOnSource: bool)
    requires w.job.stage == Snapshotting && |w.job.taken| <= |w.disks| && w.job.taken == w.disks[..|w.job.taken|]
    ensures Leads(w, w.(job := w.job.(taken := w.disks, stage := SendConfig)), rely, removeOnSource)
    decreases |w.disks| - |w.job.taken|
  {
    hide Leads;
    OneStep(w, rely, removeOnSource);
    if |w.job.taken| == |w.disks| {
      assert w.job.taken == w.disks;
    } else {
      var next := Worker(w, removeOnSource);
      TakeAll(next, rely, removeOnSource);
      Then(w, next, w.(job := w.job.(taken := w.disks, stage := SendConfig)), rely, removeOnSource);
    }
  }

  lemma {:induction false} SendAll(w: World, rely: Rely, removeOnSource: bool)
    requires var j := w.job;
      j.stage == Sending && j.sent <= |j.taken| == |j.remoteDisks| && j.remoteDisks[..j.sent] == j.taken[..j.sent]
    ensures var j := w.job;
      Leads(w, w.(job := j.(remoteDisks := j.taken, sent := |j.taken|, stage := StartRemote)), rely, removeOnSource)
    decreases |w.job.taken| - w.job.sent
  {
    hide Leads;
    var j := w.job;
    OneStep(w, rely, removeOnSource);
    if j.sent == |j.taken| {
      assert j.remoteDisks[..j.sent] == j.remoteDisks && j.taken[..j.sent] == j.taken;
    } else {
      var next := Worker(w, removeOnSource);
      assert next.job.remoteDisks[..j.sent + 1] == j.remoteDisks[..j.sent] + [j.taken[j.sent]];
      assert j.taken[..j.sent + 1] == j.taken[..j.sent] + [j.taken[j.sent]];
      SendAll(next, rely, removeOnSource);
      var sent := w.(job := j.(remoteDisks := j.taken, sent := |j.taken|, stage := StartRemote));
      Then(w, next, sent, rely, removeOnSource);
    }
  }

  /** What an undisturbed worker makes of a VM it is about to snapshot, up to starting the remote one. */
  function Promoted(w: World): World {
    w.(remote := Some(Start),
       job := Job(Finish, w.job.previous, w.disks, |w.disks|, w.disks, w.job.stopDisks, Some(w.disks)))
  }

  predicate AboutToSnapshot(w: World) {
    && w.job.stage == Snapshotting && w.job.taken == [] && w.job.sent == 0 && |w.job.remoteDisks| == |w.disks|
    && Target(w.job.previous) == Start && w.local.Some?
  }

  lemma PromoteAll(w: World, rely: Rely, removeOnSource: bool)
    requires AboutToSnapshot(w)
    ensures Leads(w, Promoted(w), rely, removeOnSource)
  {
    hide Leads;
    var taken := w.(job := w.job.(taken := w.disks, stage := SendConfig));
    var sending := At(taken, Sending).(remote := if w.remote.None? then Some(Mirror) else w.remote);
    var sent := sending.(job := sending.job.(remoteDisks := w.disks, sent := |w.disks|, stage := StartRemote));
    TakeAll(w, rely, removeOnSource);
    OneStep(taken, rely, removeOnSource);
    Then(w, taken, sending, rely, removeOnSource);
    SendAll(sending, rely, removeOnSource);
    Then(w, sending, sent, rely, removeOnSource);
    OneStep(sent, rely, removeOnSource);
    Then(w, sent, Promoted(w), rely, removeOnSource);
  }

  /** The worker's record after the others have taken the VM somewhere. */
  predicate Recorded(w: World, to: Local, j: Job) {
    && (j == w.job || (w.job.stage == Waiting && j == w.job.(stopDisks := Some(w.disks))))
    && (w.job.stage == Waiting && Is(w, Shutdown) && to.state != Shutdown ==> j == w.job.(stopDisks := Some(w.disks)))
  }

  lemma {:induction false} MoveAlong(w: World, path: seq<Local>, rely: Rely, removeOnSource: bool) returns (j: Job)
    requires IsPath(rely, path) && w.local == Some(path[0])
    ensures Recorded(w, path[|path| - 1], j)
    ensures Leads(w, World(Some(path[|path| - 1]), w.remote, w.disks, j), rely, removeOnSource)
    decreases |path|
  {
    hide Leads;
    if |path| == 1 {
      j := w.job;
      Itself(w, rely, removeOnSource);
    } else {
      var next := Moved(w, path[1]);
      assert rely(path[0], path[1]);
      assert IsPath(rely, path[1..]) by {
        forall i | 0 <= i < |path[1..]| - 1 ensures rely(path[1..][i], path[1..][i + 1]) {
          assert path[1..][i] == path[i + 1] && path[1..][i + 1] == path[i + 1 + 1];
        }
      }
      j := MoveAlong(next, path[1..], rely, removeOnSource);
      First(w, Move(path[1]), World(Some(path[|path| - 1]), w.remote, w.disks, j), rely, removeOnSource);
    }
  }

  lemma MoveTo(w: World, to: Local, rely: Rely, removeOnSource: bool) returns (r: World)
    requires w.local.Some? && Reach(rely, w.local.value, to)
    ensures r.local == Some(to) && r.remote == w.remote && r.disks == w.disks && Recorded(w, to, r.job)
    ensures Leads(w, r, rely, removeOnSource)
  {
    hide Leads;
    var path :| IsPath(rely, path) && path[0] == w.local.value && path[|path| - 1] == to;
    var j := MoveAlong(w, path, rely, removeOnSource);
    r := World(Some(to), w.remote, w.disks, j);
  }

  // Safety: never in state start on both sides

  predicate Safe(w: World) {
    !(Is(w, Start) && w.remote == Some(Start))
  }

  /** In every run from the worker's first look at the VM on, with any faults of the worker. */
  ghost predicate AlwaysSafe(w: World, rely: Rely, removeOnSource: bool) {
    forall es :: Safe(Run(Worker(w, removeOnSource), es, rely, removeOnSource))
  }

  /** Nothing bad can come of the promotion any more. */
  ghost predicate NothingBad(w: World, rely: Rely, bad: Local -> bool) {
    match w.job.stage
    case Begin => false
    case NeedShutdown => w.local.Some? && !ShutdownMayEnd(rely, w.local.value, bad)
    case SetShutdown => w.local.Some? && !ShutdownMayEnd(rely, w.local.value, bad)
    case Waiting => w.local.Some? && !WaitMayEnd(rely, w.local.value, bad)
    case Ended => true
    case _ => w.local.Some? && !bad(w.local.value)
  }

  lemma NothingBadWorker(w: World, rely: Rely, bad: Local -> bool, removeOnSource: bool)
    requires NothingBad(w, rely, bad)
    ensures NothingBad(Worker(w, removeOnSource), rely, bad)
  {
    hide WaitMayEnd, ShutdownMayEnd;
    if w.local.Some? {
      MayEndNow(rely, w.local.value, bad);
    }
  }

  /** No place that is not bad has a bad one after it. */
  ghost predicate Backward(rely: Rely, bad: Local -> bool) {
    forall a, b | rely(a, b) && bad(b) :: bad(a)
  }

  lemma NothingBadStep(w: World, e: Event, rely: Rely, bad: Local -> bool, removeOnSource: bool)
    requires NothingBad(w, rely, bad) && Backward(rely, bad)
    ensures NothingBad(Do(w, e, rely, removeOnSource), rely, bad)
  {
    hide WaitMayEnd, ShutdownMayEnd, Worker;
    NothingBadWorker(w, rely, bad, removeOnSource);
    if e.Move? && w.local.Some? && rely(w.local.value, e.to) {
      MayEndSteps(rely, w.local.value, e.to, bad);
    }
  }

  lemma StartsBackward(rely: Rely, removeOnSource: bool)
    ensures Backward(rely, StartsYet(rely, removeOnSource))
  {
    forall a, b | rely(a, b) && CanStartYet(rely, b, removeOnSource) ensures CanStartYet(rely, a, removeOnSource) {
      CanStartSteps(rely, a, b, removeOnSource);
    }
  }

  lemma RunsBackward(rely: Rely, removeOnSource: bool)
    ensures Backward(rely, RunsYet(rely, removeOnSource)) && Backward(rely, Runs(rely))
  {
    forall a, b | rely(a, b)
      ensures CanRunYet(rely, b, removeOnSource) ==> CanRunYet(rely, a, removeOnSource)
      ensures CanRun(rely, b) ==> CanRun(rely, a)
    {
      CanRunSteps(rely, a, b, removeOnSource);
    }
  }

  ghost predicate SafeInv(w: World, rely: Rely, removeOnSource: bool) {
    && NothingBad(w, rely, StartsYet(rely, removeOnSource))
    && (w.remote == Some(Start) ==> w.job.stage == Finish || w.job.stage == Ended)
    && (w.remote == Some(Start) && w.local.Some? ==> !CanStart(rely, w.local.value))
  }

  lemma SafeWorker(w: World, rely: Rely, removeOnSource: bool)
    requires SafeInv(w, rely, removeOnSource)
    ensures SafeInv(Worker(w, removeOnSource), rely, removeOnSource)
    ensures SafeInv(At(Worker(w, removeOnSource), Ended), rely, removeOnSource)
  {
    hide CanStart, WaitMayEnd, ShutdownMayEnd, Reach;
    NothingBadWorker(w, rely, StartsYet(rely, removeOnSource), removeOnSource);
    if w.job.stage == Finish {
      ReachSelf(rely, w.local.value);
    }
  }

  lemma SafeStep(w: World, e: Event, rely: Rely, removeOnSource: bool)
    requires SafeInv(w, rely, removeOnSource)
    ensures SafeInv(Do(w, e, rely, removeOnSource), rely, removeOnSource)
  {
    hide CanStart, CanStartYet, WaitMayEnd, ShutdownMayEnd, Worker;
    SafeWorker(w, rely, removeOnSource);
    StartsBackward(rely, removeOnSource);
    NothingBadStep(w, e, rely, StartsYet(rely, removeOnSource), removeOnSource);
    if e.Move? && w.local.Some? && rely(w.local.value, e.to) {
      CanStartSteps(rely, w.local.value, e.to, removeOnSource);
    }
  }

  lemma {:induction false} SafeRun(w: World, es: seq<Event>, rely: Rely, removeOnSource: bool)
    requires SafeInv(w, rely, removeOnSource)
    ensures Safe(Run(w, es, rely, removeOnSource))
    decreases |es|
  {
    hide Do;
    if es == [] {
      if w.local.Some? {
        NowStarted(rely, w.local.value);
      }
    } else {
      SafeStep(w, es[0], rely, removeOnSource);
      SafeRun(Do(w, es[0], rely, removeOnSource), es[1..], rely, removeOnSource);
    }
  }

  /** The remote VM is not going to be started. */
  predicate NeverStarts(w: World) {
    && Target(w.job.previous) != Start && w.remote != Some(Start) && w.job.startDisks == None
    && w.job.stage != Begin && w.job.stage != NeedShutdown && w.job.stage != SetShutdown && w.job.stage != Waiting
  }

  lemma {:induction false} NeverStartsRun(w: World, es: seq<Event>, rely: Rely, removeOnSource: bool)
    requires NeverStarts(w)
    ensures NeverStarts(Run(w, es, rely, removeOnSource))
    decreases |es|
  {
    if es != [] {
      NeverStartsRun(Do(w, es[0], rely, removeOnSource), es[1..], rely, removeOnSource);
    }
  }

  /** Something bad may come of the promotion: for a VM found started, once the worker takes its shutdown
      for done; otherwise at once. */
  ghost predicate MayGoWrong(rely: Rely, l: Local, bad: Local -> bool) {
    if l.state == Start then ShutdownMayEnd(rely, l, bad) else bad(l)
  }

  /** A promotion that will not start the remote VM is harmless. Any other is safe exactly when nobody can
      set the VM to start after its shutdown seems done; for every behaviour the others may have. */
  lemma PromotionSafety(w: World, rely: Rely, removeOnSource: bool)
    requires Init(w)
    ensures AlwaysSafe(w, rely, removeOnSource) <==>
            || w.local.value.state == Stop || w.local.value.state == Disable
            || !MayGoWrong(rely, w.local.value, StartsYet(rely, removeOnSource))
  {
    hide Run, CanStartYet, ShutdownMayEnd;
    var w1 := Worker(w, removeOnSource);
    if w.local.value.state == Stop || w.local.value.state == Disable {
      forall es ensures Safe(Run(w1, es, rely, removeOnSource)) {
        NeverStartsRun(w1, es, rely, removeOnSource);
      }
    } else if MayGoWrong(rely, w.local.value, StartsYet(rely, removeOnSource)) {
      var r := UnsafeRun(w, rely, removeOnSource);
    } else {
      forall es ensures Safe(Run(w1, es, rely, removeOnSource)) {
        SafeRun(w1, es, rely, removeOnSource);
      }
    }
  }

  /** The wait ends with the VM as it may be bad. */
  lemma WaitOver(w: World, rely: Rely, bad: Local -> bool, removeOnSource: bool) returns (r: World)
    requires Init(w) && w.local.value.state == Start && ShutdownMayEnd(rely, w.local.value, bad)
    ensures Leads(Worker(w, removeOnSource), r, rely, removeOnSource)
    ensures AboutToSnapshot(r) && bad(r.local.value) && r.remote == w.remote
    ensures r.disks == w.disks && r.job.stopDisks == Some(w.disks)
  {
    hide Leads, Reach;
    var w1 := Worker(w, removeOnSource);
    var m :| Reach(rely, w.local.value, m) && WaitMayEnd(rely, Local(Shutdown, m.running), bad);
    var b :| Reach(rely, Local(Shutdown, m.running), b) && b.state != Shutdown && bad(b);
    var seen := Worker(w1, removeOnSource);
    OneStep(w1, rely, removeOnSource);
    var moved := MoveTo(seen, m, rely, removeOnSource);
    Then(w1, seen, moved, rely, removeOnSource);
    var waiting := Worker(moved, removeOnSource);
    OneStep(moved, rely, removeOnSource);
    Then(w1, moved, waiting, rely, removeOnSource);
    var over := MoveTo(waiting, b, rely, removeOnSource);
    Then(w1, waiting, over, rely, removeOnSource);
    r := Worker(over, removeOnSource);
    OneStep(over, rely, removeOnSource);
    Then(w1, over, r, rely, removeOnSource);
  }

  /** A VM about to be snapshotted, now or after a wait, of which something bad may come. */
  lemma SnapshotNext(w: World, rely: Rely, bad: Local -> bool, removeOnSource: bool) returns (r: World)
    requires Init(w) && w.local.value.state != Stop && w.local.value.state != Disable
    requires MayGoWrong(rely, w.local.value, bad)
    ensures Leads(Worker(w, removeOnSource), r, rely, removeOnSource)
    ensures AboutToSnapshot(r) && bad(r.local.value) && r.disks == w.disks
    ensures w.local.value.state == Start ==> r.job.stopDisks == Some(w.disks)
  {
    if w.local.value.state == Start {
      r := WaitOver(w, rely, bad, removeOnSource);
    } else {
      r := Worker(w, removeOnSource);
      Itself(r, rely, removeOnSource);
    }
  }

  /** The remote VM is started, and then somebody starts the local one. */
  lemma UnsafeRun(w: World, rely: Rely, removeOnSource: bool) returns (r: World)
    requires Init(w) && w.local.value.state != Stop && w.local.value.state != Disable
    requires MayGoWrong(rely, w.local.value, StartsYet(rely, removeOnSource))
    ensures Leads(Worker(w, removeOnSource), r, rely, removeOnSource) && !Safe(r)
  {
    hide Leads, Reach, MayGoWrong;
    var w1 := Worker(w, removeOnSource);
    var next := SnapshotNext(w, rely, StartsYet(rely, removeOnSource), removeOnSource);
    var promoted := Promoted(next);
    PromoteAll(next, rely, removeOnSource);
    Then(w1, next, promoted, rely, removeOnSource);
    if CanStart(rely, next.local.value) {
      var running :| Reach(rely, next.local.value, Local(Start, running));
      r := MoveTo(promoted, Local(Start, running), rely, removeOnSource);
      Then(w1, promoted, r, rely, removeOnSource);
    } else {
      var c :| Reach(rely, next.local.value, c) && CanStart(rely, Local(Mirror, c.running));
      var ended := FinishAt(promoted, c, rely, removeOnSource);
      Then(w1, promoted, ended, rely, removeOnSource);
      var running :| Reach(rely, Local(Mirror, c.running), Local(Start, running));
      r := MoveTo(ended, Local(Start, running), rely, removeOnSource);
      Then(w1, ended, r, rely, removeOnSource);
    }
  }

  lemma FinishAt(w: World, c: Local, rely: Rely, removeOnSource: bool) returns (r: World)
    requires w.job.stage == Finish && w.local.Some? && !removeOnSource && Reach(rely, w.local.value, c)
    ensures Leads(w, r, rely, removeOnSource)
    ensures r.local == Some(Local(Mirror, c.running)) && r.remote == w.remote && r.disks == w.disks
    ensures r.job == w.job.(stage := Ended)
  {
    hide Leads, Reach;
    var at := MoveTo(w, c, rely, removeOnSource);
    r := Worker(at, removeOnSource);
    OneStep(at, rely, removeOnSource);
    Then(w, at, r, rely, removeOnSource);
  }

  // The disks: what the remote starts with is what the local VM stopped with

  /** The remote VM starts with the disks as they were when the shutdown was over. */
  predicate Faithful(w: World) {
    w.job.startDisks.Some? ==> w.job.startDisks == w.job.stopDisks
  }

  /** And nothing runs here, nor has written anything since. */
  predicate Quiet(w: World) {
    w.job.startDisks.Some? ==>
      && w.job.startDisks == w.job.stopDisks == Some(w.disks)
      && (w.local.Some? ==> !w.local.value.running)
  }

  ghost predicate AlwaysFaithful(w: World, rely: Rely, removeOnSource: bool) {
    forall es :: Faithful(Run(Worker(w, removeOnSource), es, rely, removeOnSource))
  }

  ghost predicate AlwaysQuiet(w: World, rely: Rely, removeOnSource: bool) {
    forall es :: Quiet(Run(Worker(w, removeOnSource), es, rely, removeOnSource))
  }

  predicate Early(w: World) {
    w.job.stage == NeedShutdown || w.job.stage == SetShutdown || w.job.stage == Waiting
  }

  predicate Late(w: World) {
    !Early(w) && w.job.stage != Ended
  }

  /** A VM found started on its way, whatever the others do. */
  predicate Shape(w: World) {
    var j := w.job;
    && j.stage != Begin && |j.taken| <= |w.disks| == |j.remoteDisks| && j.sent <= |j.taken|
    && (Early(w) ==> j.taken == [] && j.sent == 0 && j.startDisks.None?)
    && (j.stage == Waiting && !Is(w, Shutdown) ==> j.stopDisks.Some?)
    && (Late(w) ==> j.stopDisks.Some?)
    && (j.stage != Ended ==> w.local.Some?)
    && (j.stopDisks.Some? ==> |j.stopDisks.value| == |w.disks|)
    && (j.stage == Snapshotting || j.stage == SendConfig ==> j.sent == 0)
    && (j.stage == SendConfig || j.stage == Sending ==> |j.taken| == |w.disks|)
    && (j.stage == StartRemote || j.stage == Finish ==> j.sent == |w.disks| == |j.taken|)
    && (j.startDisks.Some? ==> j.stopDisks.Some? && |j.startDisks.value| == |w.disks|)
  }

  /** While nobody can run the guest after its shutdown: what was taken and sent is what was there then. */
  predicate Frozen(w: World) {
    var j := w.job;
    && (j.stage == Waiting && !Is(w, Shutdown) ==> j.stopDisks == Some(w.disks))
    && (Late(w) ==> j.stopDisks == Some(w.disks)
                    && |j.taken| <= |w.disks| && j.sent <= |j.taken| && j.sent <= |j.remoteDisks|
                    && j.taken == w.disks[..|j.taken|] && j.remoteDisks[..j.sent] == j.taken[..j.sent])
    && (j.startDisks.Some? ==> j.stopDisks == j.startDisks)
  }

  lemma ShapeWorker(w: World, removeOnSource: bool)
    requires Shape(w)
    ensures Shape(Worker(w, removeOnSource)) && Shape(At(Worker(w, removeOnSource), Ended))
  {
  }

  lemma ShapeStep(w: World, e: Event, rely: Rely, removeOnSource: bool)
    requires Shape(w)
    ensures Shape(Do(w, e, rely, removeOnSource))
  {
    hide Worker;
    ShapeWorker(w, removeOnSource);
  }

  lemma FrozenWorker(w: World, removeOnSource: bool)
    requires Shape(w) && Frozen(w)
    ensures Frozen(Worker(w, removeOnSource)) && Frozen(At(Worker(w, removeOnSource), Ended))
  {
    match w.job.stage
    case Snapshotting => FrozenSnapshotting(w, removeOnSource);
    case Sending => FrozenSending(w, removeOnSource);
    case StartRemote =>
      var j := w.job;
      assert j.remoteDisks[..j.sent] == j.remoteDisks && j.taken[..j.sent] == j.taken;
      assert w.disks[..|j.taken|] == w.disks;
    case _ =>
  }

  lemma FrozenSnapshotting(w: World, removeOnSource: bool)
    requires Shape(w) && Frozen(w) && w.job.stage == Snapshotting
    ensures Frozen(Worker(w, removeOnSource)) && Frozen(At(Worker(w, removeOnSource), Ended))
  {
    var j := w.job;
    if |j.taken| < |w.disks| {
      assert w.disks[..|j.taken| + 1] == w.disks[..|j.taken|] + [w.disks[|j.taken|]];
    }
  }

  lemma FrozenSending(w: World, removeOnSource: bool)
    requires Shape(w) && Frozen(w) && w.job.stage == Sending
    ensures Frozen(Worker(w, removeOnSource)) && Frozen(At(Worker(w, removeOnSource), Ended))
  {
    var j := w.job;
    if j.sent < |j.taken| {
      var r := j.remoteDisks[j.sent := j.taken[j.sent]];
      assert r[..j.sent + 1] == r[..j.sent] + [r[j.sent]];
      assert r[..j.sent] == j.remoteDisks[..j.sent];
      assert j.taken[..j.sent + 1] == j.taken[..j.sent] + [j.taken[j.sent]];
    }
  }

  /** `bad` includes every place with a running guest. */
  ghost predicate CoversRunning(bad: Local -> bool) {
    forall l: Local | l.running :: bad(l)
  }

  lemma FrozenStep(w: World, e: Event, rely: Rely, bad: Local -> bool, removeOnSource: bool)
    requires Shape(w) && Frozen(w) && NothingBad(w, rely, bad) && CoversRunning(bad)
    ensures Frozen(Do(w, e, rely, removeOnSource))
  {
    hide Worker, ShutdownMayEnd, WaitMayEnd;
    FrozenWorker(w, removeOnSource);
    if w.local.Some? {
      MayEndNow(rely, w.local.value, bad);
    }
  }

  lemma {:induction false} FrozenRun(w: World, es: seq<Event>, rely: Rely, bad: Local -> bool, removeOnSource: bool)
    requires Shape(w) && Frozen(w) && NothingBad(w, rely, bad) && CoversRunning(bad) && Backward(rely, bad)
    ensures Shape(Run(w, es, rely, removeOnSource)) && Frozen(Run(w, es, rely, removeOnSource))
    decreases |es|
  {
    hide Shape, Frozen, NothingBad, Do, Backward, CoversRunning;
    if es != [] {
      ShapeStep(w, es[0], rely, removeOnSource);
      FrozenStep(w, es[0], rely, bad, removeOnSource);
      NothingBadStep(w, es[0], rely, bad, removeOnSource);
      FrozenRun(Do(w, es[0], rely, removeOnSource), es[1..], rely, bad, removeOnSource);
    }
  }

  lemma {:induction false} ShapeRun(w: World, es: seq<Event>, rely: Rely, removeOnSource: bool)
    requires Shape(w)
    ensures Shape(Run(w, es, rely, removeOnSource))
    decreases |es|
  {
    hide Shape, Do;
    if es != [] {
      ShapeStep(w, es[0], rely, removeOnSource);
      ShapeRun(Do(w, es[0], rely, removeOnSource), es[1..], rely, removeOnSource);
    }
  }

  /** After the end, too, nothing runs here and nothing is written. */
  ghost predicate QuietInv(w: World, rely: Rely, removeOnSource: bool) {
    && Shape(w) && Frozen(w) && NothingBad(w, rely, RunsYet(rely, removeOnSource))
    && (w.job.startDisks.Some? ==> w.job.stopDisks == Some(w.disks))
    && (w.job.startDisks.Some? && w.local.Some? ==> !CanRun(rely, w.local.value))
  }

  lemma QuietWorker(w: World, rely: Rely, removeOnSource: bool)
    requires QuietInv(w, rely, removeOnSource)
    ensures QuietInv(Worker(w, removeOnSource), rely, removeOnSource)
    ensures QuietInv(At(Worker(w, removeOnSource), Ended), rely, removeOnSource)
  {
    hide CanRun, WaitMayEnd, ShutdownMayEnd, Reach, Shape, Frozen;
    ShapeWorker(w, removeOnSource);
    FrozenWorker(w, removeOnSource);
    NothingBadWorker(w, rely, RunsYet(rely, removeOnSource), removeOnSource);
    StopsKept(w, removeOnSource);
    StartedLate(w);
    if w.job.stage == Finish {
      ReachSelf(rely, w.local.value);
    }
  }

  lemma StopsKept(w: World, removeOnSource: bool)
    requires Shape(w) && Frozen(w)
    ensures var w' := Worker(w, removeOnSource);
      && w'.disks == w.disks && w'.job.stopDisks == w.job.stopDisks
      && (w'.job.startDisks != w.job.startDisks ==> w.job.stage == StartRemote && w.job.stopDisks == Some(w.disks))
  {
  }

  lemma QuietStep(w: World, e: Event, rely: Rely, removeOnSource: bool)
    requires QuietInv(w, rely, removeOnSource)
    ensures QuietInv(Do(w, e, rely, removeOnSource), rely, removeOnSource)
  {
    hide CanRun, CanRunYet, WaitMayEnd, ShutdownMayEnd, Worker, Shape, Frozen, Backward, CoversRunning, NothingBad;
    var bad := RunsYet(rely, removeOnSource);
    QuietWorker(w, rely, removeOnSource);
    QuietEnded(w, rely, removeOnSource);
    RunsBackward(rely, removeOnSource);
    RunsCover(rely, removeOnSource);
    NothingBadStep(w, e, rely, bad, removeOnSource);
    FrozenStep(w, e, rely, bad, removeOnSource);
    ShapeStep(w, e, rely, removeOnSource);
    StartedLate(w);
    if w.local.Some? {
      NowStarted(rely, w.local.value);
      if e.Move? && rely(w.local.value, e.to) {
        CanRunSteps(rely, w.local.value, e.to, removeOnSource);
      }
    }
  }

  lemma StartedLate(w: World)
    requires Shape(w)
    ensures w.job.startDisks.Some? ==> !Early(w)
  {
  }

  lemma QuietEnded(w: World, rely: Rely, removeOnSource: bool)
    requires QuietInv(w, rely, removeOnSource)
    ensures NothingBad(At(w, Ended), rely, RunsYet(rely, removeOnSource))
  {
  }

  lemma RunsCover(rely: Rely, removeOnSource: bool)
    ensures CoversRunning(RunsYet(rely, removeOnSource)) && CoversRunning(Runs(rely))
  {
    forall l: Local | l.running ensures CanRun(rely, l) {
      NowStarted(rely, l);
    }
  }

  lemma {:induction false} QuietRun(w: World, es: seq<Event>, rely: Rely, removeOnSource: bool)
    requires QuietInv(w, rely, removeOnSource)
    ensures Quiet(Run(w, es, rely, removeOnSource))
    decreases |es|
  {
    hide Do, Shape;
    if es == [] {
      if w.local.Some? {
        NowStarted(rely, w.local.value);
      }
    } else {
      QuietStep(w, es[0], rely, removeOnSource);
      QuietRun(Do(w, es[0], rely, removeOnSource), es[1..], rely, removeOnSource);
    }
  }

  /** A VM that was neither started nor is to stay off goes over without any shutdown. */
  lemma NoShutdown(w: World, rely: Rely, removeOnSource: bool) returns (r: World)
    requires Init(w) && w.local.value.state != Stop && w.local.value.state != Disable && w.local.value.state != Start
    ensures Leads(Worker(w, removeOnSource), r, rely, removeOnSource)
    ensures r.job.startDisks.Some? && r.job.stopDisks == None
  {
    var w1 := Worker(w, removeOnSource);
    PromoteAll(w1, rely, removeOnSource);
    r := Promoted(w1);
  }

  /** The remote VM's disks are always the local ones at the end of the shutdown, with nothing running or
      written here since, exactly when the remote VM is not started, or the VM was started and nobody
      can run its guest after its shutdown seems done. */
  lemma RemoteStartsWhereLocalStopped(w: World, rely: Rely, removeOnSource: bool)
    requires Init(w)
    ensures AlwaysQuiet(w, rely, removeOnSource) <==>
            || w.local.value.state == Stop || w.local.value.state == Disable
            || (w.local.value.state == Start && !ShutdownMayEnd(rely, w.local.value, RunsYet(rely, removeOnSource)))
  {
    hide Run, CanRunYet, ShutdownMayEnd;
    var w1 := Worker(w, removeOnSource);
    if w.local.value.state == Stop || w.local.value.state == Disable {
      forall es ensures Quiet(Run(w1, es, rely, removeOnSource)) {
        NeverStartsRun(w1, es, rely, removeOnSource);
      }
    } else if w.local.value.state != Start {
      var r := NoShutdown(w, rely, removeOnSource);
    } else if ShutdownMayEnd(rely, w.local.value, RunsYet(rely, removeOnSource)) {
      var r := RunningRun(w, rely, removeOnSource);
    } else {
      forall es ensures Quiet(Run(w1, es, rely, removeOnSource)) {
        QuietRun(w1, es, rely, removeOnSource);
      }
    }
  }

  /** The guest runs while the remote one is started. */
  lemma RunningRun(w: World, rely: Rely, removeOnSource: bool) returns (r: World)
    requires Init(w) && w.local.value.state == Start
    requires ShutdownMayEnd(rely, w.local.value, RunsYet(rely, removeOnSource))
    ensures Leads(Worker(w, removeOnSource), r, rely, removeOnSource) && !Quiet(r)
  {
    hide Leads, Reach, ShutdownMayEnd;
    var w1 := Worker(w, removeOnSource);
    var next := WaitOver(w, rely, RunsYet(rely, removeOnSource), removeOnSource);
    var promoted := Promoted(next);
    PromoteAll(next, rely, removeOnSource);
    Then(w1, next, promoted, rely, removeOnSource);
    if CanRun(rely, next.local.value) {
      var state :| Reach(rely, next.local.value, Local(state, true));
      r := MoveTo(promoted, Local(state, true), rely, removeOnSource);
      Then(w1, promoted, r, rely, removeOnSource);
    } else {
      var c :| Reach(rely, next.local.value, c) && CanRun(rely, Local(Mirror, c.running));
      var ended := FinishAt(promoted, c, rely, removeOnSource);
      Then(w1, promoted, ended, rely, removeOnSource);
      var state :| Reach(rely, Local(Mirror, c.running), Local(state, true));
      r := MoveTo(ended, Local(state, true), rely, removeOnSource);
      Then(w1, ended, r, rely, removeOnSource);
    }
  }

  /** The disks alone agree also if there are none, or if the guest runs only after the end. */
  lemma DisksAgreeExactly(w: World, rely: Rely, removeOnSource: bool)
    requires Init(w)
    ensures AlwaysFaithful(w, rely, removeOnSource) <==>
            || w.local.value.state == Stop || w.local.value.state == Disable
            || (w.local.value.state == Start && (w.disks == [] || !ShutdownMayEnd(rely, w.local.value, Runs(rely))))
  {
    hide Run, CanRun, ShutdownMayEnd, Shape, Frozen, Backward, CoversRunning;
    var w1 := Worker(w, removeOnSource);
    if w.local.value.state == Stop || w.local.value.state == Disable {
      forall es ensures Faithful(Run(w1, es, rely, removeOnSource)) {
        NeverStartsRun(w1, es, rely, removeOnSource);
      }
    } else if w.local.value.state != Start {
      var r := NoShutdown(w, rely, removeOnSource);
    } else if w.disks == [] {
      StartedShape(w, removeOnSource);
      forall es ensures Faithful(Run(w1, es, rely, removeOnSource)) {
        ShapeRun(w1, es, rely, removeOnSource);
        NoDisks(w1, es, rely, removeOnSource);
        NothingToTell(Run(w1, es, rely, removeOnSource));
      }
    } else if ShutdownMayEnd(rely, w.local.value, Runs(rely)) {
      var r := WritingRun(w, rely, removeOnSource);
    } else {
      StartedShape(w, removeOnSource);
      RunsBackward(rely, removeOnSource);
      RunsCover(rely, removeOnSource);
      forall es ensures Faithful(Run(w1, es, rely, removeOnSource)) {
        FrozenRun(w1, es, rely, Runs(rely), removeOnSource);
        FrozenIsFaithful(Run(w1, es, rely, removeOnSource));
      }
    }
  }

  lemma FrozenIsFaithful(w: World)
    requires Frozen(w)
    ensures Faithful(w)
  {
  }

  lemma NothingToTell(w: World)
    requires Shape(w) && w.disks == []
    ensures Faithful(w)
  {
  }

  lemma StartedShape(w: World, removeOnSource: bool)
    requires Init(w) && w.local.value.state == Start
    ensures Shape(Worker(w, removeOnSource)) && Frozen(Worker(w, removeOnSource))
  {
  }

  lemma {:induction false} NoDisks(w: World, es: seq<Event>, rely: Rely, removeOnSource: bool)
    requires w.disks == []
    ensures Run(w, es, rely, removeOnSource).disks == []
    decreases |es|
  {
    hide Do;
    if es != [] {
      DisksKeepCount(w, es[0], rely, removeOnSource);
      NoDisks(Do(w, es[0], rely, removeOnSource), es[1..], rely, removeOnSource);
    }
  }

  lemma DisksKeepCount(w: World, e: Event, rely: Rely, removeOnSource: bool)
    ensures |Do(w, e, rely, removeOnSource).disks| == |w.disks|
  {
  }

  /** The guest writes after the end of its shutdown, and before the snapshots. */
  lemma WritingRun(w: World, rely: Rely, removeOnSource: bool) returns (r: World)
    requires Init(w) && w.local.value.state == Start && w.disks != []
    requires ShutdownMayEnd(rely, w.local.value, Runs(rely))
    ensures Leads(Worker(w, removeOnSource), r, rely, removeOnSource) && !Faithful(r)
  {
    hide Leads, Reach, ShutdownMayEnd;
    var w1 := Worker(w, removeOnSource);
    var next := WaitOver(w, rely, Runs(rely), removeOnSource);
    var state :| Reach(rely, next.local.value, Local(state, true));
    var running := MoveTo(next, Local(state, true), rely, removeOnSource);
    Then(w1, next, running, rely, removeOnSource);
    var disks := w.disks[0 := w.disks[0] + 1];
    assert disks[0] != w.disks[0];
    var written := running.(disks := disks);
    Itself(written, rely, removeOnSource);
    First(running, Write(disks), written, rely, removeOnSource);
    Then(w1, running, written, rely, removeOnSource);
    PromoteAll(written, rely, removeOnSource);
    r := Promoted(written);
    Then(w1, written, r, rely, removeOnSource);
  }

  // Who the others are

  predicate IsMigrating(s: VmState) {
    s == Migrate || s == MigrateLive
  }

  /** The daemon brings such a VM back to start by itself. */
  predicate Resumes(l: Local) {
    l.state == Restart || (IsMigrating(l.state) && l.running)
  }

  /** What the daemon that runs the guest does to a VM left to it: the guest goes off; a shutdown, in
      whatever state it is part of, is reported; a migration or restart ends, or fails. */
  predicate Daemon(a: Local, b: Local) {
    || b == a.(running := false)
    || ((a.state == Shutdown || a.state == Restart || a.state == Migrate) && !a.running && b == Local(Stop, false))
    || (IsMigrating(a.state) && b == Local(Fail, a.running))
    || (Resumes(a) && b.state == Start)
  }

  /** Everyone who may write the VM's state besides: each decides on the VM first and writes later, whatever
      its state has become, so one that may be about is taken to write at any time.
        Timeout      a shutdown that takes too long is reported while the guest still runs
        StopWrite    a stop, or a shutdown begun earlier, is reported once the guest is off
        Starting     a start ends, and the guest runs
        FailedStart  or it fails
        Restarting   the two writes that end a restart, before and after the guest is started again
        Receiving    the write of either node that ends a migration in start
        Fence        the VMs listed as running on a dead node are started elsewhere
        Keepalive    a failed guest is started again
        Autostart    a flagged VM is started on a node brought back into service
        Flush        VMs are moved from a node that is being emptied, or shut down if there is no other
        Return       a migrated VM is brought back to a node brought back into service */
  datatype Writer =
    | Timeout | StopWrite | Starting | FailedStart | Restarting | Receiving
    | Fence | Keepalive | Autostart | Flush | Return

  const STARTERS := {Restarting, Receiving, Fence, Keepalive, Autostart}

  predicate Writes(x: Writer, a: Local, b: Local) {
    match x
    case Timeout =>
      (a.state == Shutdown || a.state == Restart || a.state == Migrate) && a.running && b == Local(Stop, true)
    case StopWrite => b == Local(Stop, false)
    case Starting =>
      (a.state == Start || a.state == Shutdown || IsMigrating(a.state)) && !a.running && b == a.(running := true)
    case FailedStart => !a.running && b == Local(Fail, false)
    case Flush => b == Local(Migrate, a.running) || (a.state == Start && b == Local(Shutdown, a.running))
    case Return => b == Local(Migrate, a.running)
    case _ => b.state == Start
  }

  function Others(writers: set<Writer>): Rely {
    (a: Local, b: Local) => Daemon(a, b) || exists x | x in writers :: Writes(x, a, b)
  }

  /** The guest may run during the promotion. */
  predicate MayRun(l: Local, writers: set<Writer>) {
    l.running || Starting in writers
  }

  /** Nobody about will start it, and nobody will migrate it while its guest may run. */
  predicate Unthreatened(l: Local, writers: set<Writer>) {
    && writers !! STARTERS && l.state != Restart
    && (MayRun(l, writers) ==> !IsMigrating(l.state) && Flush !in writers && Return !in writers)
  }

  /** Nobody about will start it, and its shutdown is not taken for done while its guest may run. */
  predicate Undisturbed(l: Local, writers: set<Writer>) {
    && writers !! STARTERS
    && (MayRun(l, writers) ==> Timeout !in writers && Flush !in writers && Return !in writers)
  }

  lemma WriterMoves(x: Writer, writers: set<Writer>, a: Local, b: Local)
    requires x in writers && Writes(x, a, b)
    ensures Others(writers)(a, b)
  {
  }

  lemma WriterReaches(x: Writer, writers: set<Writer>, a: Local, b: Local)
    requires x in writers && Writes(x, a, b)
    ensures Reach(Others(writers), a, b)
  {
    WriterMoves(x, writers, a, b);
    ReachOne(Others(writers), a, b);
  }

  /** Only good places follow a good one. */
  ghost predicate Keeps(rely: Rely, good: Local -> bool) {
    forall a, b | good(a) && rely(a, b) :: good(b)
  }

  lemma {:induction false} KeepsAlong(rely: Rely, good: Local -> bool, path: seq<Local>)
    requires Keeps(rely, good) && IsPath(rely, path) && good(path[0])
    ensures good(path[|path| - 1])
    decreases |path|
  {
    if |path| > 1 {
      var init := path[..|path| - 1];
      assert IsPath(rely, init);
      KeepsAlong(rely, good, init);
      assert rely(path[|path| - 2], path[|path| - 1]);
    }
  }

  lemma KeepsReach(rely: Rely, good: Local -> bool, a: Local, b: Local)
    requires Keeps(rely, good) && good(a) && Reach(rely, a, b)
    ensures good(b)
  {
    var path :| IsPath(rely, path) && path[0] == a && path[|path| - 1] == b;
    KeepsAlong(rely, good, path);
  }

  /** Its guest runs only if it may. */
  function Within(may: bool): Local -> bool {
    (l: Local) => l.state != Restart && (l.running ==> may)
  }

  /** It is not started, nor will be. */
  function Calm(may: bool): Local -> bool {
    (l: Local) => l.state != Start && l.state != Restart && if may then !IsMigrating(l.state) else !l.running
  }

  lemma WithinKept(l: Local, writers: set<Writer>)
    requires writers !! STARTERS
    ensures Keeps(Others(writers), Within(MayRun(l, writers)))
  {
    forall a, b | Within(MayRun(l, writers))(a) && Others(writers)(a, b) ensures Within(MayRun(l, writers))(b) {
      if !Daemon(a, b) {
        var x :| x in writers && Writes(x, a, b);
        assert x !in STARTERS;
      }
    }
  }

  lemma CalmKept(l: Local, writers: set<Writer>)
    requires Unthreatened(l, writers)
    ensures Keeps(Others(writers), Calm(MayRun(l, writers)))
  {
    forall a, b | Calm(MayRun(l, writers))(a) && Others(writers)(a, b) ensures Calm(MayRun(l, writers))(b) {
      if !Daemon(a, b) {
        var x :| x in writers && Writes(x, a, b);
        assert x !in STARTERS;
      }
    }
  }

  lemma CalmNeverStarts(l: Local, writers: set<Writer>, c: Local, removeOnSource: bool)
    requires Unthreatened(l, writers) && Calm(MayRun(l, writers))(c)
    ensures !CanStartYet(Others(writers), c, removeOnSource)
  {
    hide Others, Unthreatened, Reach, MayRun;
    var rely, may := Others(writers), MayRun(l, writers);
    CalmKept(l, writers);
    forall running | Reach(rely, c, Local(Start, running)) ensures false {
      KeepsReach(rely, Calm(may), c, Local(Start, running));
    }
    forall d, running | Reach(rely, c, d) && Reach(rely, Local(Mirror, d.running), Local(Start, running))
      ensures false
    {
      KeepsReach(rely, Calm(may), c, d);
      KeepsReach(rely, Calm(may), Local(Mirror, d.running), Local(Start, running));
    }
  }

  lemma UnthreatenedIsSafe(l: Local, writers: set<Writer>, removeOnSource: bool)
    requires Unthreatened(l, writers)
    ensures !MayGoWrong(Others(writers), l, StartsYet(Others(writers), removeOnSource))
  {
    hide Others, Reach, CanStartYet;
    var rely, may := Others(writers), MayRun(l, writers);
    CalmKept(l, writers);
    WithinKept(l, writers);
    if l.state == Start {
      forall m, b | Reach(rely, l, m) && Reach(rely, Local(Shutdown, m.running), b)
        ensures !CanStartYet(rely, b, removeOnSource)
      {
        KeepsReach(rely, Within(may), l, m);
        KeepsReach(rely, Calm(may), Local(Shutdown, m.running), b);
        CalmNeverStarts(l, writers, b, removeOnSource);
      }
    } else {
      CalmNeverStarts(l, writers, l, removeOnSource);
    }
  }

  lemma WaitEnds(rely: Rely, l: Local, b: Local, bad: Local -> bool)
    requires Reach(rely, l, b) && b.state != Shutdown && bad(b)
    ensures WaitMayEnd(rely, l, bad)
  {
  }

  lemma StarterThreatens(x: Writer, l: Local, writers: set<Writer>, removeOnSource: bool)
    requires x in writers && x in STARTERS
    ensures MayGoWrong(Others(writers), l, StartsYet(Others(writers), removeOnSource))
    ensures l.state == Start ==> ShutdownMayEnd(Others(writers), l, Runs(Others(writers)))
  {
    hide Others, Reach, WaitMayEnd, ShutdownMayEnd;
    var rely, b := Others(writers), Local(Start, true);
    var stopped := Local(Shutdown, l.running);
    WriterReaches(x, writers, l, b);
    WriterReaches(x, writers, stopped, b);
    NowStarted(rely, b);
    WaitEnds(rely, stopped, b, StartsYet(rely, removeOnSource));
    WaitEnds(rely, stopped, b, Runs(rely));
    MayEndNow(rely, l, StartsYet(rely, removeOnSource));
    MayEndNow(rely, l, Runs(rely));
    assert CanStart(rely, l);
  }

  lemma ResumesStarts(l: Local, writers: set<Writer>)
    requires Resumes(l)
    ensures CanStart(Others(writers), l)
  {
    ReachOne(Others(writers), l, Local(Start, true));
  }

  /** Before anything else the guest is started, unless it runs. */
  lemma StartedFirst(l: Local, writers: set<Writer>)
    requires MayRun(l, writers) && (l.state == Start || l.state == Shutdown || IsMigrating(l.state))
    ensures Reach(Others(writers), l, Local(l.state, true))
  {
    if l.running {
      ReachSelf(Others(writers), l);
      assert l == Local(l.state, true);
    } else {
      WriterReaches(Starting, writers, l, Local(l.state, true));
    }
  }

  lemma CanStartAfter(rely: Rely, a: Local, b: Local)
    requires Reach(rely, a, b) && CanStart(rely, b)
    ensures CanStart(rely, a)
  {
    var running :| Reach(rely, b, Local(Start, running));
    ReachTrans(rely, a, b, Local(Start, running));
  }

  lemma ReachTrans(rely: Rely, a: Local, b: Local, c: Local)
    requires Reach(rely, a, b) && Reach(rely, b, c)
    ensures Reach(rely, a, c)
  {
    var p :| IsPath(rely, p) && p[0] == a && p[|p| - 1] == b;
    var q :| IsPath(rely, q) && q[0] == b && q[|q| - 1] == c;
    var both := p[..|p| - 1] + q;
    forall i | 0 <= i < |both| - 1 ensures rely(both[i], both[i + 1]) {
      if i < |p| - 1 {
        assert both[i] == p[i] && both[i + 1] == p[i + 1];
      } else {
        assert both[i] == q[i - (|p| - 1)] && both[i + 1] == q[i - (|p| - 1) + 1];
      }
    }
    assert both[0] == a && both[|both| - 1] == c;
  }

  lemma MigratingStarts(l: Local, writers: set<Writer>)
    requires MayRun(l, writers) && IsMigrating(l.state)
    ensures CanStart(Others(writers), l)
  {
    StartedFirst(l, writers);
    ResumesStarts(Local(l.state, true), writers);
    CanStartAfter(Others(writers), l, Local(l.state, true));
  }

  /** A VM sent away while its guest may run. */
  lemma SentAwayStarts(x: Writer, l: Local, writers: set<Writer>)
    requires x in writers && (x == Flush || x == Return) && MayRun(l, writers)
    ensures CanStart(Others(writers), l) && CanStart(Others(writers), Local(Migrate, l.running))
  {
    var b := Local(Migrate, l.running);
    WriterReaches(x, writers, l, b);
    MigratingStarts(b, writers);
    CanStartAfter(Others(writers), l, b);
  }

  lemma MoverThreatens(x: Writer, l: Local, writers: set<Writer>, removeOnSource: bool)
    requires x in writers && (x == Flush || x == Return) && MayRun(l, writers)
    ensures MayGoWrong(Others(writers), l, StartsYet(Others(writers), removeOnSource))
  {
    var rely, stopped := Others(writers), Local(Shutdown, l.running);
    SentAwayStarts(x, l, writers);
    WriterReaches(x, writers, stopped, Local(Migrate, l.running));
    hide Others, Reach;
    WaitEnds(rely, stopped, Local(Migrate, l.running), StartsYet(rely, removeOnSource));
    MayEndNow(rely, l, StartsYet(rely, removeOnSource));
  }

  /** With these writers about a promotion that starts the remote VM is safe exactly when nobody about will
      start the local one, or migrate it while its guest may run, and it is not restarting or migrating. */
  lemma WritersSafety(w: World, writers: set<Writer>, removeOnSource: bool)
    requires Init(w)
    ensures AlwaysSafe(w, Others(writers), removeOnSource) <==>
            || w.local.value.state == Stop || w.local.value.state == Disable
            || Unthreatened(w.local.value, writers)
  {
    hide AlwaysSafe, MayGoWrong, Others, CanStart;
    var l := w.local.value;
    PromotionSafety(w, Others(writers), removeOnSource);
    if Unthreatened(l, writers) {
      UnthreatenedIsSafe(l, writers, removeOnSource);
    } else if !(writers !! STARTERS) {
      var x :| x in writers && x in STARTERS;
      StarterThreatens(x, l, writers, removeOnSource);
    } else if l.state == Restart || (MayRun(l, writers) && IsMigrating(l.state)) {
      AlreadyThreatened(l, writers, removeOnSource);
    } else {
      MoverThreatens(if Flush in writers then Flush else Return, l, writers, removeOnSource);
    }
  }

  lemma AlreadyThreatened(l: Local, writers: set<Writer>, removeOnSource: bool)
    requires l.state == Restart || (MayRun(l, writers) && IsMigrating(l.state))
    ensures MayGoWrong(Others(writers), l, StartsYet(Others(writers), removeOnSource))
  {
    if l.state == Restart {
      ResumesStarts(l, writers);
    } else {
      MigratingStarts(l, writers);
    }
  }

  /** Its guest is off for good. */
  predicate IsOver(l: Local, writers: set<Writer>) {
    && l.state != Start && l.state != Restart && l.state != Shutdown && !l.running
    && (IsMigrating(l.state) ==> Starting !in writers)
  }

  function Over(writers: set<Writer>): Local -> bool {
    (l: Local) => IsOver(l, writers)
  }

  /** Or it is still in shutdown, its guest running only if it may. */
  predicate IsEnding(l: Local, may: bool, writers: set<Writer>) {
    if l.state == Shutdown then l.running ==> may else IsOver(l, writers)
  }

  function Ending(may: bool, writers: set<Writer>): Local -> bool {
    (l: Local) => IsEnding(l, may, writers)
  }

  lemma OverKept(l: Local, writers: set<Writer>)
    requires Undisturbed(l, writers)
    ensures Keeps(Others(writers), Over(writers))
  {
    forall a, b | Over(writers)(a) && Others(writers)(a, b) ensures Over(writers)(b) {
      if !Daemon(a, b) {
        var x :| x in writers && Writes(x, a, b);
        assert x !in STARTERS;
      }
    }
  }

  lemma EndingMoved(may: bool, writers: set<Writer>, x: Writer, a: Local, b: Local)
    requires writers !! STARTERS && IsEnding(a, may, writers) && a.state == Shutdown
    requires Starting in writers ==> may
    requires may ==> Timeout !in writers && Flush !in writers && Return !in writers
    requires x in writers && Writes(x, a, b)
    ensures IsEnding(b, may, writers)
  {
    assert x !in STARTERS;
  }

  lemma EndingKept(l: Local, writers: set<Writer>)
    requires Undisturbed(l, writers)
    ensures Keeps(Others(writers), Ending(MayRun(l, writers), writers))
  {
    var may := MayRun(l, writers);
    forall a, b | Ending(may, writers)(a) && Others(writers)(a, b) ensures Ending(may, writers)(b) {
      if a.state != Shutdown {
        OverKept(l, writers);
        assert Over(writers)(a);
      } else if !Daemon(a, b) {
        var x :| x in writers && Writes(x, a, b);
        EndingMoved(may, writers, x, a, b);
      }
    }
  }

  lemma OverNeverRuns(l: Local, writers: set<Writer>, c: Local, removeOnSource: bool)
    requires Undisturbed(l, writers) && Over(writers)(c)
    ensures !CanRunYet(Others(writers), c, removeOnSource) && !CanRun(Others(writers), c)
  {
    hide Others, Undisturbed, Reach;
    var rely := Others(writers);
    OverKept(l, writers);
    forall state | Reach(rely, c, Local(state, true)) ensures false {
      KeepsReach(rely, Over(writers), c, Local(state, true));
    }
    forall d, state | Reach(rely, c, d) && Reach(rely, Local(Mirror, d.running), Local(state, true)) ensures false {
      KeepsReach(rely, Over(writers), c, d);
      KeepsReach(rely, Over(writers), Local(Mirror, d.running), Local(state, true));
    }
  }

  lemma UndisturbedIsQuiet(l: Local, writers: set<Writer>, removeOnSource: bool)
    requires Undisturbed(l, writers) && l.state == Start
    ensures !ShutdownMayEnd(Others(writers), l, RunsYet(Others(writers), removeOnSource))
    ensures !ShutdownMayEnd(Others(writers), l, Runs(Others(writers)))
  {
    hide Others, Reach, CanRunYet, CanRun;
    var rely := Others(writers);
    EndingKept(l, writers);
    WithinKept(l, writers);
    forall m, b | Reach(rely, l, m) && Reach(rely, Local(Shutdown, m.running), b) && b.state != Shutdown
      ensures !CanRunYet(rely, b, removeOnSource) && !CanRun(rely, b)
    {
      KeepsReach(rely, Within(MayRun(l, writers)), l, m);
      KeepsReach(rely, Ending(MayRun(l, writers), writers), Local(Shutdown, m.running), b);
      OverNeverRuns(l, writers, b, removeOnSource);
    }
  }

  /** The wait ends while the guest runs. */
  lemma Disturbs(x: Writer, l: Local, writers: set<Writer>)
    requires x in writers && (x == Timeout || x == Flush || x == Return) && MayRun(l, writers) && l.state == Start
    ensures ShutdownMayEnd(Others(writers), l, Runs(Others(writers)))
  {
    var rely, m, stopped := Others(writers), Local(Start, true), Local(Shutdown, true);
    var b := Local(if x == Timeout then Stop else Migrate, true);
    StartedFirst(l, writers);
    WriterReaches(x, writers, stopped, b);
    NowStarted(rely, b);
    hide Others, Reach;
    assert WaitMayEnd(rely, stopped, Runs(rely));
    assert Reach(rely, l, m) && stopped == Local(Shutdown, m.running);
  }

  lemma RunsIsRunsYet(rely: Rely, l: Local, removeOnSource: bool)
    requires ShutdownMayEnd(rely, l, Runs(rely))
    ensures ShutdownMayEnd(rely, l, RunsYet(rely, removeOnSource))
  {
    hide CanRun, Reach;
    var m :| Reach(rely, l, m) && WaitMayEnd(rely, Local(Shutdown, m.running), Runs(rely));
    assert WaitMayEnd(rely, Local(Shutdown, m.running), RunsYet(rely, removeOnSource));
  }

  /** And a started VM's disks arrive as they were when its shutdown was over, with nothing running or written
      here since, exactly when nobody about will start it, and no timeout, flush or return of it is
      possible while its guest may run; the disks alone also if there are none. */
  lemma WritersDisks(w: World, writers: set<Writer>, removeOnSource: bool)
    requires Init(w) && w.local.value.state == Start
    ensures AlwaysQuiet(w, Others(writers), removeOnSource) <==> Undisturbed(w.local.value, writers)
    ensures AlwaysFaithful(w, Others(writers), removeOnSource) <==> w.disks == [] || Undisturbed(w.local.value, writers)
  {
    hide AlwaysQuiet, AlwaysFaithful, ShutdownMayEnd, Others;
    var l := w.local.value;
    RemoteStartsWhereLocalStopped(w, Others(writers), removeOnSource);
    DisksAgreeExactly(w, Others(writers), removeOnSource);
    if Undisturbed(l, writers) {
      UndisturbedIsQuiet(l, writers, removeOnSource);
    } else {
      if !(writers !! STARTERS) {
        var x :| x in writers && x in STARTERS;
        StarterThreatens(x, l, writers, removeOnSource);
      } else {
        Disturbs(if Timeout in writers then Timeout else if Flush in writers then Flush else Return, l, writers);
      }
      RunsIsRunsYet(Others(writers), l, removeOnSource);
    }
  }
}
