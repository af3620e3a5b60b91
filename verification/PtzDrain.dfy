/** What happens to the queue once nothing more is submitted: it shrinks by one camera per pick, and
    after a shutdown the worker carries out exactly what was queued and exits. */
module PtzDrain {
  import opened KeyOrder
  import opened PtzModel
  import opened PtzSystem
  import opened PtzInvariants
  import opened PtzTheorems

  ghost predicate NoSubmissions(r: Run, i: nat, j: nat)
    requires j <= |r.labels|
  {
    forall k :: i <= k < j ==> !r.labels[k].IsSubmission()
  }

  /** Neither the settings nor the iteration under way bound moves by a timeout. */
  ghost predicate Unbounded(s: System) {
    && s.ctl.settings.moveTimeoutSeconds == 0
    && (s.pc.Floor? ==> s.pc.settings.moveTimeoutSeconds == 0)
    && (s.pc.Calling? || s.pc.InCall? || s.pc.Holding? ==> s.pc.job.settings.moveTimeoutSeconds == 0)
  }

  /** Executor calls already decided on but not made. */
  function Due(s: System): nat {
    if s.pc.Calling? then 1 else 0
  }

  lemma PickDrains(s: System, settings: Settings, t: nat, id: CameraId, s': System)
    requires QueueInv(s.ctl.cams, s.subs, s.picks) && Work(s.ctl) != {}
    requires PickStep(s, settings, t, id, s')
    ensures id in Work(s.ctl) && Work(s'.ctl) == Work(s.ctl) - {id}
    ensures s'.pc.Calling? && s'.pc.job.settings == settings
    ensures |s'.picks| == |s.picks| + 1 && s'.execs == s.execs
    ensures s'.ctl.settings == s.ctl.settings && s'.ctl.shutdown == s.ctl.shutdown
  {
    PickFinds(s, settings, t, id, s');
    assert CamInv(s.ctl.cams, s.subs, s.picks, id);
  }

  /** A step other than a pick leaves the work and the pick log alone. */
  lemma OtherKeepsWork(s: System, l: Label, s': System)
    requires Next(s, l, s') && !l.IsSubmission() && !l.Enter? && !l.FloorWake?
    ensures Work(s'.ctl) == Work(s.ctl) && s'.picks == s.picks
    ensures s'.ctl.shutdown == (s.ctl.shutdown || l.Shutdown?)
    ensures s'.pc.Exited? <==> s.pc.Exited?
    ensures s'.ctl.settings == (if l.SetSettings? then l.settings else s.ctl.settings)
  {
  }

  /** Without submissions, picks made and cameras with work add up to a constant. */
  lemma StepDrains(s: System, l: Label, s': System)
    requires Inv(s) && Next(s, l, s') && !l.IsSubmission()
    ensures |s'.picks| + |Work(s'.ctl)| == |s.picks| + |Work(s.ctl)|
    ensures s'.pc.Exited? ==> s.pc.Exited? || Work(s'.ctl) == {}
    ensures s.pc.Exited? ==> s'.pc.Exited? && Work(s'.ctl) == Work(s.ctl)
    ensures s.ctl.shutdown ==> s'.ctl.shutdown
  {
    if l.Enter? {
      if Work(s.ctl) != {} && !FloorBlocks(s.ctl, s.ctl.settings, s.lastMove, s.now) {
        PickDrains(s, s.ctl.settings, l.t, l.id, s');
      }
    } else if l.FloorWake? {
      PickDrains(s, s.pc.settings, l.t, l.id, s');
    } else {
      OtherKeepsWork(s, l, s');
    }
  }

  /** With unbounded moves each pick is called exactly once. */
  lemma StepCallsOnce(s: System, l: Label, s': System)
    requires Next(s, l, s') && Unbounded(s) && s'.ctl.settings.moveTimeoutSeconds == 0
    requires s.pc.Holding? ==> Bounded(s.pc.job)
    ensures Unbounded(s')
    ensures |s'.execs| + Due(s') + |s.picks| == |s.execs| + Due(s) + |s'.picks|
  {
  }

  /** From any point on, while nothing is submitted: every pick takes exactly one camera off the work. */
  lemma {:induction false} Drains(r: Run, i: nat, j: nat)
    requires IsRun(r) && i <= j < |r.states| && NoSubmissions(r, i, j)
    ensures |r.states[j].picks| + |Work(r.states[j].ctl)| == |r.states[i].picks| + |Work(r.states[i].ctl)|
    ensures r.states[j].pc.Exited? && !r.states[i].pc.Exited? ==> Work(r.states[j].ctl) == {}
    ensures r.states[i].ctl.shutdown ==> r.states[j].ctl.shutdown
  {
    if i < j {
      Drains(r, i, j - 1);
      RunInv(r, j - 1);
      StepDrains(r.states[j - 1], r.labels[j - 1], r.states[j]);
    }
  }

  lemma {:induction false} CallsOnce(r: Run, i: nat, j: nat)
    requires IsRun(r) && i <= j < |r.states| && Unbounded(r.states[i])
    requires forall k :: i <= k <= j ==> r.states[k].ctl.settings.moveTimeoutSeconds == 0
    ensures Unbounded(r.states[j])
    ensures var s, t := r.states[i], r.states[j];
            |t.execs| + Due(t) + |s.picks| == |s.execs| + Due(s) + |t.picks|
  {
    if i < j {
      CallsOnce(r, i, j - 1);
      assert r.states[j - 1].pc.Holding? ==> Bounded(r.states[j - 1].pc.job) by { RunInv(r, j - 1); }
      StepCallsOnce(r.states[j - 1], r.labels[j - 1], r.states[j]);
    }
  }

  /** When the worker has exited, it picked exactly the cameras that had work, called the executor
      once for each (and once for a command it was about to call), and left nothing outstanding. */
  lemma ExitDrained(r: Run, i: nat, j: nat)
    requires IsRun(r) && i <= j < |r.states| && NoSubmissions(r, i, j) && Unbounded(r.states[i])
    requires forall k :: i <= k <= j ==> r.states[k].ctl.settings.moveTimeoutSeconds == 0
    requires !r.states[i].pc.Exited? && r.states[j].pc.Exited?
    ensures var s, t := r.states[i], r.states[j];
            && |t.picks| - |s.picks| == |Work(s.ctl)|
            && |t.execs| - |s.execs| == |Work(s.ctl)| + Due(s)
            && Idle(t.ctl) && t.ctl.shutdown
  {
    Drains(r, i, j);
    CallsOnce(r, i, j);
    RunInv(r, j);
  }

  // ---- the worker settles, or exits ----

  /** No camera holds a move: what a round of stops leaves. */
  ghost predicate NothingHeld(c: Controller) {
    forall id :: id in c.cams ==> !c.cams[id].held
  }

  /** The two ways in which no move can be repeated without a new submission: with `holds`, because none
      is held; without, because none is bounded. */
  ghost predicate Quiet(s: System, holds: bool) {
    if holds then NothingHeld(s.ctl) else Unbounded(s)
  }

  /** The worker steps from a pick to the next iteration: one more if the move picked may be bounded. */
  function StepsPerPick(holds: bool): nat {
    if holds then 7 else 6
  }

  function Rank(pc: Pc, holds: bool): (n: nat)
    ensures n <= StepsPerPick(holds)
  {
    match pc
    case Calling(_) => StepsPerPick(holds)
    case InCall(_) => StepsPerPick(holds) - 1
    case Holding(_, _) => 5
    case Leaving => 4
    case Notifying => 3
    case Asleep => 2
    case Top => 2
    case Floor(_) => 1
    case Exited => 0
  }

  function Measure(s: System, holds: bool): nat {
    StepsPerPick(holds) * |Work(s.ctl)| + Rank(s.pc, holds)
  }

  /** A step other than a pick, or a pick that is not due yet, brings the worker nearer the next pick. */
  lemma RankFalls(s: System, l: Label, s': System, holds: bool)
    requires Next(s, l, s') && Quiet(s, holds) && !l.IsSubmission() && !l.Enter? && !l.FloorWake?
    requires s.pc.Holding? ==> Bounded(s.pc.job)
    ensures Rank(s'.pc, holds) + (if l.IsWorker() then 1 else 0) <= Rank(s.pc, holds)
  {
    hide EnterStep, PickStep, Idle, Work, AfterFinish;
  }

  lemma PickFalls(s: System, settings: Settings, t: nat, id: CameraId, s': System, holds: bool)
    requires QueueInv(s.ctl.cams, s.subs, s.picks) && Work(s.ctl) != {} && (s.pc.Top? || s.pc.Floor?)
    requires PickStep(s, settings, t, id, s')
    ensures Measure(s', holds) + 1 <= Measure(s, holds)
  {
    PickDrains(s, settings, t, id, s');
    hide PickStep, QueueInv, Work;
    assert |Work(s'.ctl)| == |Work(s.ctl)| - 1;
  }

  /** Without a submission the measure never grows, and every worker step lowers it. */
  lemma MeasureFalls(s: System, l: Label, s': System, holds: bool)
    requires QueueInv(s.ctl.cams, s.subs, s.picks) && (s.pc.Floor? ==> Work(s.ctl) != {})
    requires s.pc.Holding? ==> Bounded(s.pc.job)
    requires Next(s, l, s') && Quiet(s, holds) && !l.IsSubmission()
    ensures Measure(s', holds) + (if l.IsWorker() then 1 else 0) <= Measure(s, holds)
  {
    hide QueueInv, Quiet, PickStep, Work, FloorBlocks;
    if l.Enter? {
      if Work(s.ctl) != {} && !FloorBlocks(s.ctl, s.ctl.settings, s.lastMove, s.now) {
        PickFalls(s, s.ctl.settings, l.t, l.id, s', holds);
      }
    } else if l.FloorWake? {
      PickFalls(s, s.pc.settings, l.t, l.id, s', holds);
    } else {
      OtherKeepsWork(s, l, s');
      RankFalls(s, l, s', holds);
      hide Next, Rank;
    }
  }

  lemma NothingHeldKept(s: System, l: Label, s': System)
    requires Next(s, l, s') && NothingHeld(s.ctl) && !l.IsSubmission()
    ensures NothingHeld(s'.ctl)
  {
  }

  function WorkerSteps(labels: seq<Label>, i: nat, j: nat): nat
    requires i <= j <= |labels|
  {
    if i == j then 0 else WorkerSteps(labels, i, j - 1) + (if labels[j - 1].IsWorker() then 1 else 0)
  }

  /** What the measure's fall needs of the state. */
  lemma MeasureReady(r: Run, i: nat, holds: bool)
    requires IsRun(r) && i < |r.states|
    ensures var s := r.states[i];
            && QueueInv(s.ctl.cams, s.subs, s.picks) && (s.pc.Floor? ==> Work(s.ctl) != {})
            && (s.pc.Holding? ==> Bounded(s.pc.job))
            && (Idle(s.ctl) <==> Measure(s, holds) <= 3)
  {
    RunInv(r, i);
  }

  lemma MeasureFallsAt(r: Run, k: nat, holds: bool)
    requires IsRun(r) && k < |r.labels| && Quiet(r.states[k], holds) && !r.labels[k].IsSubmission()
    ensures Measure(r.states[k + 1], holds) + (if r.labels[k].IsWorker() then 1 else 0) <= Measure(r.states[k], holds)
  {
    hide Measure, Quiet, Idle;
    MeasureReady(r, k, holds);
    MeasureFalls(r.states[k], r.labels[k], r.states[k + 1], holds);
  }

  /** A stretch of a run without submissions in which no move can be repeated: it starts with no move
      held, or the move timeout is zero throughout. */
  ghost predicate QuietStretch(r: Run, i: nat, j: nat, holds: bool)
    requires i <= j < |r.states| == |r.labels| + 1
  {
    && NoSubmissions(r, i, j) && Quiet(r.states[i], holds)
    && (!holds ==> forall k :: i <= k <= j ==> r.states[k].ctl.settings.moveTimeoutSeconds == 0)
  }

  lemma {:induction false} StaysQuiet(r: Run, i: nat, j: nat, holds: bool)
    requires IsRun(r) && i <= j < |r.states| && QuietStretch(r, i, j, holds)
    ensures Quiet(r.states[j], holds)
  {
    if !holds {
      CallsOnce(r, i, j);
    } else if i < j {
      StaysQuiet(r, i, j - 1, holds);
      NothingHeldKept(r.states[j - 1], r.labels[j - 1], r.states[j]);
    }
  }

  lemma QuietPrefix(r: Run, i: nat, j: nat, holds: bool)
    requires i < j < |r.states| == |r.labels| + 1 && QuietStretch(r, i, j, holds)
    ensures QuietStretch(r, i, j - 1, holds) && !r.labels[j - 1].IsSubmission()
  {
  }

  lemma MeasureBound(s: System, holds: bool)
    ensures Measure(s, holds) <= StepsPerPick(holds) * |Work(s.ctl)| + StepsPerPick(holds)
  {
    hide StepsPerPick, Rank, Work;
  }

  /** So once nothing more is submitted, and no move can be repeated, the worker takes a bounded number of
      steps: at most six for each camera with work and six more, or seven if moves may be bounded. */
  lemma {:induction false} StepBound(r: Run, i: nat, j: nat, holds: bool)
    requires IsRun(r) && i <= j < |r.states| && QuietStretch(r, i, j, holds)
    ensures WorkerSteps(r.labels, i, j) + Measure(r.states[j], holds) <= Measure(r.states[i], holds)
    ensures Measure(r.states[i], holds) <= StepsPerPick(holds) * |Work(r.states[i].ctl)| + StepsPerPick(holds)
  {
    hide Next, Init, Quiet, Measure, QuietStretch;
    MeasureBound(r.states[i], holds);
    if i < j {
      QuietPrefix(r, i, j, holds);
      StepBound(r, i, j - 1, holds);
      StaysQuiet(r, i, j - 1, holds);
      MeasureFallsAt(r, j - 1, holds);
    }
  }

  /** And the controller becomes idle: after all but three of those steps at the latest, and for good. */
  lemma IdleWithin(r: Run, i: nat, j: nat, holds: bool)
    requires IsRun(r) && i <= j < |r.states| && QuietStretch(r, i, j, holds)
    ensures var n := StepsPerPick(holds);
            WorkerSteps(r.labels, i, j) >= n * |Work(r.states[i].ctl)| + n - 3 ==> Idle(r.states[j].ctl)
    ensures Idle(r.states[i].ctl) ==> Idle(r.states[j].ctl)
  {
    StepBound(r, i, j, holds);
    MeasureReady(r, i, holds);
    MeasureReady(r, j, holds);
  }

  /** The worker carries out a bounded move that is still the newest thing its caller asked for. */
  ghost predicate Repeats(s: System) {
    && (s.pc.Calling? || s.pc.InCall? || s.pc.Holding?)
    && Bounded(s.pc.job) && Current(s.subs, s.pc.job.cam, s.pc.job.cmd)
  }

  lemma RepeatsSubmission(s: System, l: Label, s': System)
    requires Repeats(s) && Next(s, l, s') && l.IsSubmission() && l.id != s.pc.job.cam
    ensures Repeats(s') && s'.pc.job == s.pc.job && s'.picks == s.picks
  {
    NewestAppend(s.subs, s'.subs[|s.subs|], s.pc.job.cam);
  }

  lemma RepeatsStep(s: System, l: Label, s': System)
    requires QueueInv(s.ctl.cams, s.subs, s.picks) && Repeats(s) && Next(s, l, s')
    requires l.IsSubmission() ==> l.id != s.pc.job.cam
    ensures Repeats(s') && s'.pc.job == s.pc.job && s'.picks == s.picks
  {
    if l.IsSubmission() {
      RepeatsSubmission(s, l, s');
    } else {
      NotOver(s);
      hide QueueInv, CamInv, Current, AfterFinish, PickStep;
    }
  }

  /** Its hold does not end, and after a timeout it is fired again. */
  lemma NotOver(s: System)
    requires QueueInv(s.ctl.cams, s.subs, s.picks) && Repeats(s)
    ensures !HoldEnds(s.ctl, s.pc.job.cam, s.pc.job.cmd) && Refires(s.ctl, s.pc.job.cam, s.pc.job.cmd)
  {
    assert CamInv(s.ctl.cams, s.subs, s.picks, s.pc.job.cam);
  }

  /** Where moves are bounded and held there is no such bound: until something is submitted for its
      camera the worker stays with the move, picks nothing for any camera, and is never idle. */
  lemma {:induction false} HeldMoveKeepsWorker(r: Run, i: nat, j: nat)
    requires IsRun(r) && i <= j < |r.states| && Repeats(r.states[i])
    requires forall k :: i <= k < j && r.labels[k].IsSubmission() ==> r.labels[k].id != r.states[i].pc.job.cam
    ensures Repeats(r.states[j]) && r.states[j].pc.job == r.states[i].pc.job
    ensures r.states[j].picks == r.states[i].picks && !Idle(r.states[j].ctl)
  {
    RunInv(r, j);
    hide Next, Current;
    if i < j {
      HeldMoveKeepsWorker(r, i, j - 1);
      assert QueueInv(r.states[j - 1].ctl.cams, r.states[j - 1].subs, r.states[j - 1].picks) by { RunInv(r, j - 1); }
      RepeatsStep(r.states[j - 1], r.labels[j - 1], r.states[j]);
    }
  }

  lemma CanPick(s: System, settings: Settings) returns (id: CameraId, s': System)
    requires Work(s.ctl) != {}
    ensures PickStep(s, settings, s.now, id, s')
  {
    WorkSplits(s.ctl);
    if Stops(s.ctl) != {} {
      id := FirstExists(Stops(s.ctl));
      s' := TakeStop(s, settings, s.now, id);
    } else {
      id := FirstExists(Fresh(s.ctl));
      s' := TakeMove(s, settings, s.now, id);
    }
  }

  lemma HoldStep(s: System) returns (t: nat, l: Label, s': System)
    requires s.pc.Holding?
    ensures s.now <= t && l.IsWorker() && Next(s.(now := t), l, s')
  {
    t := s.now;
    if HoldEnds(s.ctl, s.pc.job.cam, s.pc.job.cmd) {
      l, s' := HoldOver, s.(pc := Leaving);
    } else {
      t := s.now + s.pc.deadline;
      l, s' := HoldTimeout, s.(now := t, pc := Calling(s.pc.job));
    }
  }

  lemma TopStep(s: System) returns (l: Label, s': System)
    requires s.pc.Top? && (Work(s.ctl) != {} || s.ctl.shutdown)
    ensures l.IsWorker() && Next(s, l, s')
  {
    if Work(s.ctl) == {} {
      l, s' := Enter(s.now, ""), s.(pc := Exited);
    } else if FloorBlocks(s.ctl, s.ctl.settings, s.lastMove, s.now) {
      l, s' := Enter(s.now, ""), s.(pc := Floor(s.ctl.settings));
    } else {
      var id;
      id, s' := CanPick(s, s.ctl.settings);
      l := Enter(s.now, id);
    }
  }

  lemma FloorStep(s: System) returns (t: nat, l: Label, s': System)
    requires s.pc.Floor? && Work(s.ctl) != {}
    ensures s.now <= t && l.IsWorker() && Next(s.(now := t), l, s')
  {
    t := s.now + s.lastMove + s.pc.settings.minIntervalMs * NS_PER_MS;
    var id;
    id, s' := CanPick(s.(now := t), s.pc.settings);
    l := FloorWake(t, id);
  }

  lemma BusyStep(s: System) returns (l: Label, s': System)
    requires s.pc.Calling? || s.pc.InCall? || s.pc.Leaving? || s.pc.Notifying?
    requires s.pc.Calling? ==> |s.picks| > 0
    ensures l.IsWorker() && Next(s, l, s')
  {
    match s.pc
    case Calling(job) =>
      l, s' := Call, s.(pc := InCall(job), execs := s.execs + [Exec(job.cam, job.cmd, |s.picks| - 1, s.now)]);
    case InCall(job) =>
      l, s' := Return, s.(pc := if job.cmd.stop || job.settings.moveTimeoutSeconds == 0 then Leaving
                                else Holding(job, s.now + job.settings.moveTimeoutSeconds * NS_PER_S));
    case Leaving =>
      var ctl := AfterFinish(s.ctl);
      l, s' := Finish, s.(ctl := ctl, pc := if Idle(ctl) then Notifying else Top);
    case Notifying => l, s' := NotifyIdle, s.(pc := Top, sleeping := {});
  }

  /** The worker is never stuck: as long as there is something to do, or an exit to make, it can take a
      step once enough time has passed, or it is asleep and a caller is about to wake it. */
  lemma NeverStuck(r: Run, i: nat) returns (t: nat, l: Label, s': System)
    requires IsRun(r) && i < |r.states|
    requires !Idle(r.states[i].ctl) || r.states[i].ctl.shutdown
    requires !r.states[i].pc.Exited?
    ensures r.states[i].now <= t && Next(r.states[i].(now := t), l, s')
    ensures l.IsWorker() || (l.Notify? && r.states[i].pc.Asleep?)
  {
    var s := r.states[i];
    assert s.pc.Asleep? ==> s.owed > 0 by { RunInv(r, i); }
    assert s.pc.Top? && Work(s.ctl) == {} ==> s.ctl.shutdown by { RunInv(r, i); }
    assert s.pc.Calling? ==> |s.picks| > 0 by { RunInv(r, i); }
    assert s.pc.Floor? ==> Work(s.ctl) != {} by { RunInv(r, i); }
    t := s.now;
    if s.pc.Asleep? {
      l, s' := Notify, s.(owed := s.owed - 1, pc := Top);
    } else {
      hide Next, Idle;
      if s.pc.Top? {
        l, s' := TopStep(s);
      } else if s.pc.Floor? {
        t, l, s' := FloorStep(s);
      } else if s.pc.Holding? {
        t, l, s' := HoldStep(s);
      } else {
        l, s' := BusyStep(s);
      }
      assert s.(now := s.now) == s;
    }
  }
}
