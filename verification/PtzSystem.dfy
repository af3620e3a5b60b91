/** The governor as a labelled transition system: any number of caller threads, one worker thread,
    and a monotone clock. Every step is one critical section, one wait or one call made outside the
    mutex; three logs record what was submitted, picked and handed to the executor. */
module PtzSystem {
  import opened KeyOrder
  import opened PtzModel

  datatype Submission = MoveSub(cam: CameraId, cmd: Command) | StopSub(cam: CameraId)

  /** What the executor is to be given for a submission. */
  function CommandOf(s: Submission): Command {
    if s.MoveSub? then s.cmd else STOP
  }

  /** One pick: the camera and command, the clock reading, the iteration's settings, and how many
      submissions had been made by then. */
  datatype Pick = Pick(cam: CameraId, cmd: Command, at: nat, settings: Settings, seen: nat)

  /** One executor call, the pick it carries out, and the clock reading. */
  datatype Exec = Exec(cam: CameraId, cmd: Command, pick: nat, at: nat)

  datatype Job = Job(cam: CameraId, cmd: Command, settings: Settings)

  /** Where the worker thread is. */
  datatype Pc =
    | Top                                // testing the main wait's predicate
    | Asleep                             // blocked in the main wait
    | Floor(settings: Settings)          // in the floor's timed wait
    | Calling(job: Job)                  // mutex released, executor not called yet
    | InCall(job: Job)                   // inside the executor
    | Holding(job: Job, deadline: nat)   // bounded move: in the re-fire timed wait
    | Leaving                            // dispatch returned, count not yet lowered
    | Notifying                          // count lowered to idle, waiters not yet notified
    | Exited

  datatype System = System(ctl: Controller, pc: Pc, lastMove: nat, now: nat,
                           owed: nat,            // callers that changed state and have not notified yet
                           sleeping: set<nat>,   // threads blocked in WaitIdle
                           subs: seq<Submission>, picks: seq<Pick>, execs: seq<Exec>)

  datatype Label =
    // caller threads and the clock
    | Move(id: CameraId, pan: real, tilt: real, zoom: real)
    | Stop(id: CameraId)
    | SetSettings(settings: Settings)
    | Shutdown
    | Notify
    | WaitIdle(thread: nat)
    | SpuriousIdleWake(thread: nat)
    | Tick(t: nat)
    // the worker thread
    | Sleep
    | SpuriousWake
    | Enter(t: nat, id: CameraId)
    | FloorWake(t: nat, id: CameraId)
    | Call
    | Return
    | HoldOver
    | HoldTimeout
    | Finish
    | NotifyIdle
  {
    predicate IsSubmission() { Move? || Stop? }
    predicate IsWorker() {
      Enter? || FloorWake? || Call? || Return? || HoldOver? || HoldTimeout? || Finish? || NotifyIdle?
    }
  }

  ghost predicate Init(s: System) {
    && (exists settings :: s.ctl == Controller(map[], settings, false, 0))
    && s.pc == Top && s.lastMove == 0 && s.owed == 0 && s.sleeping == {}
    && s.subs == [] && s.picks == [] && s.execs == []
  }

  function TakeStop(s: System, settings: Settings, t: nat, id: CameraId): System
    requires id in s.ctl.cams
  {
    s.(ctl := AfterStopPick(s.ctl, id), pc := Calling(Job(id, STOP, settings)), now := t,
       picks := s.picks + [Pick(id, STOP, t, settings, |s.subs|)])
  }

  function TakeMove(s: System, settings: Settings, t: nat, id: CameraId): System
    requires id in s.ctl.cams
  {
    var cmd := s.ctl.cams[id].heldCmd;
    s.(ctl := AfterMovePick(s.ctl, id), pc := Calling(Job(id, cmd, settings)), now := t, lastMove := t,
       picks := s.picks + [Pick(id, cmd, t, settings, |s.subs|)])
  }

  /** The pick that ends an iteration's critical section; the clock may advance to `t` meanwhile. */
  ghost predicate PickStep(s: System, settings: Settings, t: nat, id: CameraId, s': System) {
    && s.now <= t
    && if Stops(s.ctl) != {} then IsFirst(id, Stops(s.ctl)) && s' == TakeStop(s, settings, t, id)
       else if Fresh(s.ctl) != {} then IsFirst(id, Fresh(s.ctl)) && s' == TakeMove(s, settings, t, id)
       else s' == s.(pc := Top)
  }

  ghost predicate EnterStep(s: System, t: nat, id: CameraId, s': System) {
    && s.pc.Top?
    && (s.ctl.shutdown || Work(s.ctl) != {})
    && if Work(s.ctl) == {} then s' == s.(pc := Exited)
       else if FloorBlocks(s.ctl, s.ctl.settings, s.lastMove, s.now) then s' == s.(pc := Floor(s.ctl.settings))
       else PickStep(s, s.ctl.settings, t, id, s')
  }

  ghost predicate ReturnStep(s: System, s': System) {
    && s.pc.InCall?
    && var job := s.pc.job;
       s' == s.(pc := if job.cmd.stop || job.settings.moveTimeoutSeconds == 0 then Leaving
                      else Holding(job, s.now + job.settings.moveTimeoutSeconds * NS_PER_S))
  }

  ghost predicate HoldTimeoutStep(s: System, s': System) {
    && s.pc.Holding?
    && s.now >= s.pc.deadline
    && !HoldEnds(s.ctl, s.pc.job.cam, s.pc.job.cmd)
    && s' == s.(pc := if Refires(s.ctl, s.pc.job.cam, s.pc.job.cmd) then Calling(s.pc.job) else Leaving)
  }

  ghost predicate FinishStep(s: System, s': System) {
    && s.pc.Leaving?
    && var ctl := AfterFinish(s.ctl);
       s' == s.(ctl := ctl, pc := if Idle(ctl) then Notifying else Top)
  }

  ghost predicate Next(s: System, l: Label, s': System) {
    match l
    case Move(id, pan, tilt, zoom) =>
      var ctl := AfterMove(s.ctl, id, pan, tilt, zoom);
      s' == s.(ctl := ctl, owed := s.owed + 1, subs := s.subs + [MoveSub(id, ctl.cams[id].heldCmd)])
    case Stop(id) =>
      s' == s.(ctl := AfterStop(s.ctl, id), owed := s.owed + 1, subs := s.subs + [StopSub(id)])
    case SetSettings(settings) => s' == s.(ctl := s.ctl.(settings := settings), owed := s.owed + 1)
    case Shutdown => s' == s.(ctl := s.ctl.(shutdown := true), owed := s.owed + 1)
    case Notify => s.owed > 0 && s' == s.(owed := s.owed - 1, pc := if s.pc.Asleep? then Top else s.pc)
    case WaitIdle(thread) =>
      thread !in s.sleeping && s' == if Idle(s.ctl) then s else s.(sleeping := s.sleeping + {thread})
    case SpuriousIdleWake(thread) => s' == s.(sleeping := s.sleeping - {thread})
    case Tick(t) => s.now <= t && s' == s.(now := t)
    case Sleep => s.pc.Top? && !s.ctl.shutdown && Work(s.ctl) == {} && s' == s.(pc := Asleep)
    case SpuriousWake => s.pc.Asleep? && s' == s.(pc := Top)
    case Enter(t, id) => EnterStep(s, t, id, s')
    case FloorWake(t, id) =>
      && s.pc.Floor?
      && !FloorBlocks(s.ctl, s.pc.settings, s.lastMove, s.now)
      && PickStep(s, s.pc.settings, t, id, s')
    case Call =>
      && s.pc.Calling?
      && |s.picks| > 0
      && s' == s.(pc := InCall(s.pc.job),
                  execs := s.execs + [Exec(s.pc.job.cam, s.pc.job.cmd, |s.picks| - 1, s.now)])
    case Return => ReturnStep(s, s')
    case HoldOver => s.pc.Holding? && HoldEnds(s.ctl, s.pc.job.cam, s.pc.job.cmd) && s' == s.(pc := Leaving)
    case HoldTimeout => HoldTimeoutStep(s, s')
    case Finish => FinishStep(s, s')
    case NotifyIdle => s.pc.Notifying? && s' == s.(pc := Top, sleeping := {})
  }

  /** A run: the states passed through and the steps between them. */
  datatype Run = Run(states: seq<System>, labels: seq<Label>)

  /** `r` is a stretch of steps, starting anywhere. */
  ghost predicate IsPath(r: Run) {
    && |r.states| == |r.labels| + 1
    && forall i :: 0 <= i < |r.labels| ==> Next(r.states[i], r.labels[i], r.states[i + 1])
  }

  ghost predicate IsRun(r: Run) {
    IsPath(r) && Init(r.states[0])
  }

  /** The index of the newest submission for a camera, or -1. */
  function Newest(subs: seq<Submission>, cam: CameraId): (i: int)
    ensures -1 <= i < |subs|
    ensures i >= 0 ==> subs[i].cam == cam
    ensures forall j :: i < j < |subs| ==> subs[j].cam != cam
  {
    if subs == [] then -1
    else if subs[|subs| - 1].cam == cam then |subs| - 1
    else Newest(subs[..|subs| - 1], cam)
  }

  /** The index of the last pick of a camera, or -1. */
  function LastPick(picks: seq<Pick>, cam: CameraId): (i: int)
    ensures -1 <= i < |picks|
    ensures i >= 0 ==> picks[i].cam == cam
    ensures forall j :: i < j < |picks| ==> picks[j].cam != cam
  {
    if picks == [] then -1
    else if picks[|picks| - 1].cam == cam then |picks| - 1
    else LastPick(picks[..|picks| - 1], cam)
  }

  /** The index of the last executor call for a camera, or -1. */
  function LastExec(execs: seq<Exec>, cam: CameraId): (i: int)
    ensures -1 <= i < |execs|
    ensures i >= 0 ==> execs[i].cam == cam
    ensures forall j :: i < j < |execs| ==> execs[j].cam != cam
  {
    if execs == [] then -1
    else if execs[|execs| - 1].cam == cam then |execs| - 1
    else LastExec(execs[..|execs| - 1], cam)
  }

  /** The index of the last move among the picks, or -1. */
  function LastMove(picks: seq<Pick>): (i: int)
    ensures -1 <= i < |picks|
    ensures i >= 0 ==> !picks[i].cmd.stop
    ensures forall j :: i < j < |picks| ==> picks[j].cmd.stop
  {
    if picks == [] then -1
    else if !picks[|picks| - 1].cmd.stop then |picks| - 1
    else LastMove(picks[..|picks| - 1])
  }

  lemma LastMoveAppend(picks: seq<Pick>, x: Pick)
    ensures LastMove(picks + [x]) == if x.cmd.stop then LastMove(picks) else |picks|
  {
    assert (picks + [x])[..|picks|] == picks;
  }

  /** The submission a pick answers: the newest one for its camera when it was made. */
  function Source(subs: seq<Submission>, p: Pick): int {
    Newest(if p.seen <= |subs| then subs[..p.seen] else subs, p.cam)
  }

  lemma NewestAppend(subs: seq<Submission>, x: Submission, cam: CameraId)
    ensures Newest(subs + [x], cam) == if x.cam == cam then |subs| else Newest(subs, cam)
  {
    assert (subs + [x])[..|subs|] == subs;
  }

  lemma LastPickAppend(picks: seq<Pick>, x: Pick, cam: CameraId)
    ensures LastPick(picks + [x], cam) == if x.cam == cam then |picks| else LastPick(picks, cam)
  {
    assert (picks + [x])[..|picks|] == picks;
  }

  lemma LastExecAppend(execs: seq<Exec>, x: Exec, cam: CameraId)
    ensures LastExec(execs + [x], cam) == if x.cam == cam then |execs| else LastExec(execs, cam)
  {
    assert (execs + [x])[..|execs|] == execs;
  }
}
