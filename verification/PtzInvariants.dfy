/** What every reachable state of the governor satisfies. */
module PtzInvariants {
  import opened KeyOrder
  import opened PtzModel
  import opened PtzSystem

  // ---- the queue: camera states against the logs ----

  /** The newest submission for `cam` has been picked. */
  ghost predicate Answered(subs: seq<Submission>, picks: seq<Pick>, cam: CameraId) {
    var k := LastPick(picks, cam);
    k >= 0 && Newest(subs, cam) < picks[k].seen
  }

  /** A camera's state is determined by its newest submission and whether that was picked. */
  ghost predicate CamInv(cams: map<CameraId, CamState>, subs: seq<Submission>, picks: seq<Pick>, cam: CameraId) {
    var n := Newest(subs, cam);
    && (cam in cams <==> n >= 0)
    && (n < 0 ==> LastPick(picks, cam) < 0)
    && (n >= 0 ==>
          var st := cams[cam];
          match subs[n]
          case MoveSub(_, cmd) =>
            && !cmd.stop && st.held && !st.stopPending && st.heldCmd == cmd
            && (st.hasDispatched <==> Answered(subs, picks, cam))
            && (st.hasDispatched ==> st.lastDispatched == cmd)
          case StopSub(_) =>
            && !st.held && !st.hasDispatched
            && (st.stopPending <==> !Answered(subs, picks, cam)))
  }

  /** Every pick answers a submission made before it. */
  ghost predicate PickSound(subs: seq<Submission>, p: Pick) {
    && p.seen <= |subs|
    && Source(subs, p) >= 0
    && p.cmd == CommandOf(subs[Source(subs, p)])
  }

  /** Each pick answers a submission made after the camera's earlier picks. */
  ghost predicate InOrder(subs: seq<Submission>, picks: seq<Pick>) {
    forall i, j :: 0 <= i < j < |picks| && picks[i].cam == picks[j].cam ==> picks[i].seen <= Source(subs, picks[j])
  }

  ghost predicate QueueInv(cams: map<CameraId, CamState>, subs: seq<Submission>, picks: seq<Pick>) {
    && (forall cam :: CamInv(cams, subs, picks, cam))
    && (forall k :: 0 <= k < |picks| ==> PickSound(subs, picks[k]))
    && InOrder(subs, picks)
  }

  lemma CamInvSubmit(cams: map<CameraId, CamState>, cams': map<CameraId, CamState>,
                     subs: seq<Submission>, picks: seq<Pick>, x: Submission, cam: CameraId)
    requires QueueInv(cams, subs, picks)
    requires forall c :: c != x.cam ==> (c in cams <==> c in cams') && (c in cams ==> cams'[c] == cams[c])
    requires x.cam in cams' && !cams'[x.cam].hasDispatched
    requires x.MoveSub? ==>
               !x.cmd.stop && cams'[x.cam].held && !cams'[x.cam].stopPending && cams'[x.cam].heldCmd == x.cmd
    requires x.StopSub? ==> !cams'[x.cam].held && cams'[x.cam].stopPending
    ensures CamInv(cams', subs + [x], picks, cam)
  {
    NewestAppend(subs, x, cam);
    assert CamInv(cams, subs, picks, cam);
    var k := LastPick(picks, cam);
    if k >= 0 { assert PickSound(subs, picks[k]); }
  }

  lemma QueueInvSubmit(cams: map<CameraId, CamState>, cams': map<CameraId, CamState>,
                       subs: seq<Submission>, picks: seq<Pick>, x: Submission)
    requires QueueInv(cams, subs, picks)
    requires forall c :: c != x.cam ==> (c in cams <==> c in cams') && (c in cams ==> cams'[c] == cams[c])
    requires x.cam in cams' && !cams'[x.cam].hasDispatched
    requires x.MoveSub? ==>
               !x.cmd.stop && cams'[x.cam].held && !cams'[x.cam].stopPending && cams'[x.cam].heldCmd == x.cmd
    requires x.StopSub? ==> !cams'[x.cam].held && cams'[x.cam].stopPending
    ensures QueueInv(cams', subs + [x], picks)
  {
    forall cam ensures CamInv(cams', subs + [x], picks, cam) {
      CamInvSubmit(cams, cams', subs, picks, x, cam);
    }
    forall k | 0 <= k < |picks|
      ensures Source(subs + [x], picks[k]) == Source(subs, picks[k]) && PickSound(subs, picks[k])
    {
      assert PickSound(subs, picks[k]);
      assert (subs + [x])[..picks[k].seen] == subs[..picks[k].seen];
    }
  }

  lemma CamInvPick(cams: map<CameraId, CamState>, cams': map<CameraId, CamState>,
                   subs: seq<Submission>, picks: seq<Pick>, p: Pick, cam: CameraId)
    requires QueueInv(cams, subs, picks)
    requires p.seen == |subs| && p.cam in cams
    requires HasWorkOn(cams[p.cam])
    requires cams' == cams[p.cam := if cams[p.cam].stopPending
                                    then cams[p.cam].(stopPending := false, held := false, hasDispatched := false)
                                    else cams[p.cam].(lastDispatched := cams[p.cam].heldCmd, hasDispatched := true)]
    ensures CamInv(cams', subs, picks + [p], cam)
  {
    LastPickAppend(picks, p, cam);
    assert CamInv(cams, subs, picks, cam);
  }

  lemma QueueInvPick(cams: map<CameraId, CamState>, cams': map<CameraId, CamState>,
                     subs: seq<Submission>, picks: seq<Pick>, p: Pick)
    requires QueueInv(cams, subs, picks)
    requires p.seen == |subs| && p.cam in cams
    requires HasWorkOn(cams[p.cam])
    requires p.cmd == if cams[p.cam].stopPending then STOP else cams[p.cam].heldCmd
    requires cams' == cams[p.cam := if cams[p.cam].stopPending
                                    then cams[p.cam].(stopPending := false, held := false, hasDispatched := false)
                                    else cams[p.cam].(lastDispatched := cams[p.cam].heldCmd, hasDispatched := true)]
    ensures QueueInv(cams', subs, picks + [p])
  {
    forall cam ensures CamInv(cams', subs, picks + [p], cam) {
      CamInvPick(cams, cams', subs, picks, p, cam);
    }
    assert CamInv(cams, subs, picks, p.cam);
    assert subs[..p.seen] == subs;
    assert PickSound(subs, p);
    PickOrder(subs, picks, p);
  }

  /** A pick of a camera whose newest submission is unanswered comes after all its earlier picks. */
  lemma PickOrder(subs: seq<Submission>, picks: seq<Pick>, p: Pick)
    requires (forall k :: 0 <= k < |picks| ==> PickSound(subs, picks[k])) && InOrder(subs, picks)
    requires p.seen == |subs| && !Answered(subs, picks, p.cam)
    ensures InOrder(subs, picks + [p])
  {
    hide PickSound;
    assert Source(subs, p) == Newest(subs, p.cam) by { assert subs[..p.seen] == subs; }
    hide Source;
    forall i | 0 <= i < |picks| && picks[i].cam == p.cam ensures picks[i].seen <= Source(subs, p) {
      SeenBefore(subs, picks, i);
    }
  }

  /** No pick of a camera saw more than its last one did. */
  lemma SeenBefore(subs: seq<Submission>, picks: seq<Pick>, i: nat)
    requires (forall k :: 0 <= k < |picks| ==> PickSound(subs, picks[k])) && InOrder(subs, picks)
    requires i < |picks|
    ensures var k := LastPick(picks, picks[i].cam); i <= k && picks[i].seen <= picks[k].seen
  {
    hide PickSound, Source;
    var k := LastPick(picks, picks[i].cam);
    if i < k { SourceBelow(subs, picks[k]); }
  }

  lemma SourceBelow(subs: seq<Submission>, p: Pick)
    requires PickSound(subs, p)
    ensures Source(subs, p) < p.seen
  {
  }

  // ---- the worker: program counter, dispatch count and executor log ----

  ghost predicate Busy(pc: Pc) {
    pc.Calling? || pc.InCall? || pc.Holding? || pc.Leaving?
  }

  /** How many picks have reached the executor. */
  function Executed(execs: seq<Exec>): nat {
    if execs == [] then 0 else execs[|execs| - 1].pick + 1
  }

  /** Call `i` carries out a pick: the one after the call before it, or the same one again when
      that is a bounded move. */
  ghost predicate Link(execs: seq<Exec>, picks: seq<Pick>, i: nat)
    requires i < |execs|
  {
    var e := execs[i];
    && e.pick < |picks| && e.cam == picks[e.pick].cam && e.cmd == picks[e.pick].cmd
    && if i == 0 then e.pick == 0
       else || e.pick == execs[i - 1].pick + 1
            || (e.pick == execs[i - 1].pick && !e.cmd.stop && picks[e.pick].settings.moveTimeoutSeconds > 0)
  }

  /** The executor log is the pick log, each pick in turn, with repeats of a bounded move only. */
  ghost predicate Chain(execs: seq<Exec>, picks: seq<Pick>) {
    forall i :: 0 <= i < |execs| ==> Link(execs, picks, i)
  }

  /** The last call for a camera carries out its last executed pick. */
  ghost predicate LastMatches(execs: seq<Exec>, picks: seq<Pick>, cam: CameraId)
    requires Executed(execs) <= |picks|
  {
    var e, p := LastExec(execs, cam), LastPick(picks[..Executed(execs)], cam);
    if p < 0 then e < 0 else e >= 0 && execs[e].pick == p
  }

  ghost predicate JobMatches(pc: Pc, picks: seq<Pick>) {
    pc.Calling? || pc.InCall? || pc.Holding? ==>
      && |picks| > 0
      && pc.job.cam == picks[|picks| - 1].cam && pc.job.cmd == picks[|picks| - 1].cmd
      && pc.job.settings == picks[|picks| - 1].settings
  }

  ghost predicate Bounded(job: Job) {
    !job.cmd.stop && job.settings.moveTimeoutSeconds > 0
  }

  ghost predicate WorkerInv(dispatching: nat, pc: Pc, picks: seq<Pick>, execs: seq<Exec>) {
    && dispatching == (if Busy(pc) then 1 else 0)
    && JobMatches(pc, picks)
    && Chain(execs, picks)
    && (Executed(execs) == |picks| || (pc.Calling? && Executed(execs) + 1 == |picks|))
    && (pc.Calling? && Executed(execs) == |picks| ==> Bounded(pc.job))
    && (pc.Holding? ==> Bounded(pc.job))
    && (forall cam :: LastMatches(execs, picks, cam))
  }

  lemma ChainPick(execs: seq<Exec>, picks: seq<Pick>, p: Pick)
    requires Chain(execs, picks)
    ensures Chain(execs, picks + [p])
  {
    forall i | 0 <= i < |execs| ensures Link(execs, picks + [p], i) {
      assert Link(execs, picks, i);
    }
  }

  lemma ChainCall(execs: seq<Exec>, picks: seq<Pick>, e: Exec)
    requires Chain(execs, picks)
    requires Link(execs + [e], picks, |execs|)
    ensures Chain(execs + [e], picks)
  {
    forall i | 0 <= i < |execs| ensures Link(execs + [e], picks, i) {
      assert Link(execs, picks, i);
    }
  }

  lemma WorkerInvPick(dispatching: nat, pc: Pc, picks: seq<Pick>, execs: seq<Exec>, p: Pick)
    requires WorkerInv(dispatching, pc, picks, execs) && !Busy(pc)
    ensures WorkerInv(Increment(dispatching), Calling(Job(p.cam, p.cmd, p.settings)), picks + [p], execs)
  {
    ChainPick(execs, picks, p);
    assert (picks + [p])[..Executed(execs)] == picks == picks[..Executed(execs)];
    forall cam ensures LastMatches(execs, picks + [p], cam) {
      assert LastMatches(execs, picks, cam);
    }
  }

  lemma LastMatchesCall(picks: seq<Pick>, execs: seq<Exec>, e: Exec, cam: CameraId)
    requires |picks| > 0 && e.pick == |picks| - 1 && e.cam == picks[e.pick].cam
    requires Executed(execs) == |picks| || Executed(execs) + 1 == |picks|
    requires LastMatches(execs, picks, cam)
    ensures LastMatches(execs + [e], picks, cam)
  {
    var last := picks[|picks| - 1];
    LastExecAppend(execs, e, cam);
    assert picks[..|picks|] == picks;
    assert picks == picks[..|picks| - 1] + [last];
    LastPickAppend(picks[..|picks| - 1], last, cam);
  }

  lemma WorkerInvCall(dispatching: nat, pc: Pc, picks: seq<Pick>, execs: seq<Exec>, at: nat)
    requires WorkerInv(dispatching, pc, picks, execs) && pc.Calling?
    ensures WorkerInv(dispatching, InCall(pc.job), picks,
                      execs + [Exec(pc.job.cam, pc.job.cmd, |picks| - 1, at)])
  {
    var e := Exec(pc.job.cam, pc.job.cmd, |picks| - 1, at);
    if execs != [] { assert Link(execs, picks, |execs| - 1); }
    ChainCall(execs, picks, e);
    forall cam ensures LastMatches(execs + [e], picks, cam) {
      LastMatchesCall(picks, execs, e, cam);
    }
  }

  // ---- the movement floor ----

  /** `lastMove` is the clock reading of the last move pick, and zero before the first. */
  ghost predicate ClockInv(lastMove: nat, now: nat, picks: seq<Pick>) {
    && lastMove <= now
    && lastMove == (if LastMove(picks) < 0 then 0 else picks[LastMove(picks)].at)
    && (forall i :: 0 <= i < |picks| && !picks[i].cmd.stop ==> picks[i].at <= lastMove)
    && (forall i, j :: 0 <= i < j < |picks| && !picks[i].cmd.stop && !picks[j].cmd.stop && picks[i].at != 0 ==>
          picks[j].at >= picks[i].at + picks[j].settings.minIntervalMs * NS_PER_MS)
  }

  lemma ClockInvPick(lastMove: nat, now: nat, picks: seq<Pick>, p: Pick)
    requires ClockInv(lastMove, now, picks) && now <= p.at
    requires p.cmd.stop || lastMove == 0 || now >= lastMove + p.settings.minIntervalMs * NS_PER_MS
    ensures ClockInv(if p.cmd.stop then lastMove else p.at, p.at, picks + [p])
  {
    LastMoveAppend(picks, p);
  }

  // ---- waiting threads ----

  /** Nobody sleeps in WaitIdle on an idle controller unless a notification is on its way. */
  ghost predicate IdleInv(s: System) {
    && (s.pc.Notifying? ==> s.ctl.dispatching == 0)
    && (s.sleeping != {} && Idle(s.ctl) ==> s.pc.Notifying?)
  }

  /** The worker does not sleep through work or shutdown unless a caller is about to notify it. */
  ghost predicate WakeInv(s: System) {
    && (s.pc.Asleep? && (s.ctl.shutdown || Work(s.ctl) != {}) ==> s.owed > 0)
    && (s.pc.Floor? ==> Work(s.ctl) != {})
    && (s.pc.Exited? ==> s.ctl.shutdown)
  }

  ghost predicate Inv(s: System) {
    && QueueInv(s.ctl.cams, s.subs, s.picks)
    && WorkerInv(s.ctl.dispatching, s.pc, s.picks, s.execs)
    && ClockInv(s.lastMove, s.now, s.picks)
    && IdleInv(s)
    && WakeInv(s)
  }

  lemma InitInv(s: System)
    requires Init(s)
    ensures Inv(s)
  {
  }

  /** Work consists of queued stops and of moves that need a dispatch. */
  lemma WorkSplits(c: Controller)
    ensures Work(c) == Stops(c) + Fresh(c)
  {
  }

  lemma SubmitInv(s: System, l: Label, s': System)
    requires Inv(s) && Next(s, l, s') && l.IsSubmission()
    ensures Inv(s')
  {
    QueueInvSubmit(s.ctl.cams, s'.ctl.cams, s.subs, s.picks, s'.subs[|s.subs|]);
    assert l.id in Work(s'.ctl);
  }

  /** An iteration that sees work and passes the floor always picks something. */
  lemma PickFinds(s: System, settings: Settings, t: nat, id: CameraId, s': System)
    requires QueueInv(s.ctl.cams, s.subs, s.picks) && Work(s.ctl) != {}
    requires PickStep(s, settings, t, id, s')
    ensures id in s.ctl.cams && HasWorkOn(s.ctl.cams[id])
    ensures s.ctl.cams[id].stopPending <==> Stops(s.ctl) != {}
    ensures s' == if s.ctl.cams[id].stopPending then TakeStop(s, settings, t, id) else TakeMove(s, settings, t, id)
    ensures CamInv(s.ctl.cams, s.subs, s.picks, id)
  {
    WorkSplits(s.ctl);
    assert CamInv(s.ctl.cams, s.subs, s.picks, id);
  }

  lemma PickInv(s: System, settings: Settings, t: nat, id: CameraId, s': System)
    requires Inv(s) && (s.pc.Top? || s.pc.Floor?) && Work(s.ctl) != {}
    requires !FloorBlocks(s.ctl, settings, s.lastMove, s.now)
    requires PickStep(s, settings, t, id, s')
    ensures Inv(s')
  {
    PickFinds(s, settings, t, id, s');
    var p := s'.picks[|s.picks|];
    QueueInvPick(s.ctl.cams, s'.ctl.cams, s.subs, s.picks, p);
    WorkerInvPick(s.ctl.dispatching, s.pc, s.picks, s.execs, p);
    ClockInvPick(s.lastMove, s.now, s.picks, p);
  }

  lemma OtherWorkerInv(s: System, l: Label, s': System)
    requires WorkerInv(s.ctl.dispatching, s.pc, s.picks, s.execs) && Next(s, l, s')
    requires !l.IsSubmission() && !l.Enter? && !l.FloorWake? && !l.Call?
    ensures WorkerInv(s'.ctl.dispatching, s'.pc, s'.picks, s'.execs)
  {
    assert s'.picks == s.picks && s'.execs == s.execs;
    assert forall cam :: LastMatches(s.execs, s.picks, cam) ==> LastMatches(s'.execs, s'.picks, cam);
  }

  lemma OtherWaitInv(s: System, l: Label, s': System)
    requires IdleInv(s) && WakeInv(s) && WorkerInv(s.ctl.dispatching, s.pc, s.picks, s.execs) && Next(s, l, s')
    requires !l.IsSubmission() && !l.Enter? && !l.FloorWake? && !l.Call?
    ensures IdleInv(s') && WakeInv(s')
  {
    assert Work(s'.ctl) == Work(s.ctl);
  }

  lemma EnterInv(s: System, t: nat, id: CameraId, s': System)
    requires Inv(s) && EnterStep(s, t, id, s')
    ensures Inv(s')
  {
    if Work(s.ctl) != {} && !FloorBlocks(s.ctl, s.ctl.settings, s.lastMove, s.now) {
      PickInv(s, s.ctl.settings, t, id, s');
    }
  }

  lemma OtherInv(s: System, l: Label, s': System)
    requires Inv(s) && Next(s, l, s')
    requires !l.IsSubmission() && !l.Enter? && !l.FloorWake? && !l.Call?
    ensures Inv(s')
  {
    OtherWorkerInv(s, l, s');
    OtherWaitInv(s, l, s');
  }

  lemma CallInv(s: System, s': System)
    requires Inv(s) && Next(s, Call, s')
    ensures Inv(s')
  {
    WorkerInvCall(s.ctl.dispatching, s.pc, s.picks, s.execs, s.now);
  }

  lemma NextInv(s: System, l: Label, s': System)
    requires Inv(s) && Next(s, l, s')
    ensures Inv(s')
  {
    match l
    case Move(_, _, _, _) => SubmitInv(s, l, s');
    case Stop(_) => SubmitInv(s, l, s');
    case Enter(t, id) => EnterInv(s, t, id, s');
    case FloorWake(t, id) => PickInv(s, s.pc.settings, t, id, s');
    case Call => CallInv(s, s');
    case _ => OtherInv(s, l, s');
  }

  /** Every state of every run satisfies the invariant. */
  lemma {:induction false} RunInv(r: Run, i: nat)
    requires IsRun(r) && i < |r.states|
    ensures Inv(r.states[i])
  {
    if i == 0 {
      InitInv(r.states[0]);
    } else {
      RunInv(r, i - 1);
      NextInv(r.states[i - 1], r.labels[i - 1], r.states[i]);
    }
  }
}
