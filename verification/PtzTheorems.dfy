/** What the governor promises over whole runs, whatever the interleaving. */
module PtzTheorems {
  import opened KeyOrder
  import opened PtzModel
  import opened PtzSystem
  import opened PtzInvariants
  import opened PtzLabels

  // ---- latest wins ----

  /** Whenever nothing is queued or in flight, the last command the executor got for each camera is
      the one its caller submitted last: the velocities of the last Move with the timeout of that moment,
      or a stop; a camera nobody submitted for got none. */
  lemma QuiescentCorrect(r: Run, i: nat, cam: CameraId)
    requires IsRun(r) && i < |r.states| && Idle(r.states[i].ctl)
    ensures var s := r.states[i];
            var k, e := LastFor(r.labels[..i], cam), LastExec(s.execs, cam);
            && (k >= 0 <==> e >= 0)
            && (k >= 0 ==>
                  var l, cmd := r.labels[k], s.execs[e].cmd;
                  && (l.Move? ==>
                        && !cmd.stop && cmd.pan == l.pan && cmd.tilt == l.tilt && cmd.zoom == l.zoom
                        && cmd.timeoutSeconds == r.states[k].ctl.settings.moveTimeoutSeconds)
                  && (l.Stop? ==> cmd.stop && cmd.pan == 0.0 && cmd.tilt == 0.0 && cmd.zoom == 0.0))
  {
    hide IsRun, Idle;
    QuiescentLog(r, i, cam);
    NewestCarries(r, i, cam);
  }

  /** In terms of the logs: the last command is that of the newest submission. */
  lemma QuiescentLog(r: Run, i: nat, cam: CameraId)
    requires IsRun(r) && i < |r.states| && Idle(r.states[i].ctl)
    ensures var s := r.states[i];
            var n, e := Newest(s.subs, cam), LastExec(s.execs, cam);
            && (n >= 0 <==> e >= 0)
            && (n >= 0 ==> s.execs[e].cmd == CommandOf(s.subs[n]))
  {
    RunInv(r, i);
    var s := r.states[i];
    assert CamInv(s.ctl.cams, s.subs, s.picks, cam);
    assert LastMatches(s.execs, s.picks, cam);
    assert s.picks[..|s.picks|] == s.picks;
    var n, k := Newest(s.subs, cam), LastPick(s.picks, cam);
    if n >= 0 {
      assert cam !in Work(s.ctl) && Answered(s.subs, s.picks, cam);
      NewestInPrefix(s.subs, s.picks[k].seen, cam);
      assert PickSound(s.subs, s.picks[k]);
      assert Link(s.execs, s.picks, LastExec(s.execs, cam));
    }
  }

  lemma {:induction false} NewestInPrefix(subs: seq<Submission>, n: nat, cam: CameraId)
    requires Newest(subs, cam) < n <= |subs|
    ensures Newest(subs[..n], cam) == Newest(subs, cam)
    decreases |subs|
  {
    if |subs| > n {
      assert subs[..|subs| - 1][..n] == subs[..n];
      NewestInPrefix(subs[..|subs| - 1], n, cam);
    } else {
      assert subs[..n] == subs;
    }
  }

  /** Step `m` makes a pick. */
  ghost predicate MakesPick(r: Run, m: nat) {
    m + 1 < |r.states| && |r.states[m + 1].picks| > |r.states[m].picks|
  }

  /** A pick answers the last call for its camera, with what that call asked for; and per camera the calls
      answered strictly increase, so that none is answered twice. */
  lemma LatestWins(r: Run, m: nat)
    requires IsRun(r) && MakesPick(r, m)
    ensures var p := r.states[m + 1].picks[|r.states[m].picks|];
            var k := LastFor(r.labels[..m], p.cam);
            && k >= 0
            && var l := r.labels[k];
               && (l.Move? ==>
                     && !p.cmd.stop && p.cmd.pan == l.pan && p.cmd.tilt == l.tilt && p.cmd.zoom == l.zoom
                     && p.cmd.timeoutSeconds == r.states[k].ctl.settings.moveTimeoutSeconds)
               && (l.Stop? ==> p.cmd.stop && p.cmd.pan == 0.0 && p.cmd.tilt == 0.0 && p.cmd.zoom == 0.0)
               && (forall q: nat :: q < m && MakesPick(r, q)
                                    && r.states[q + 1].picks[|r.states[q].picks|].cam == p.cam ==>
                     LastFor(r.labels[..q], p.cam) < k)
  {
    var s, t := r.states[m], r.states[m + 1];
    PickAtStep(r, m);
    var p := t.picks[|s.picks|];
    NewestCarries(r, m, p.cam);
    RunInv(r, m + 1);
    assert PickSound(t.subs, p);
    assert s.subs[..|s.subs|] == s.subs;
    forall q: nat | q < m && MakesPick(r, q) && r.states[q + 1].picks[|r.states[q].picks|].cam == p.cam
      ensures LastFor(r.labels[..q], p.cam) < LastFor(r.labels[..m], p.cam)
    {
      EarlierPick(r, q, m);
    }
  }

  /** A pick is one more entry, of a submission of that moment. */
  lemma PickAtStep(r: Run, m: nat)
    requires IsRun(r) && MakesPick(r, m)
    ensures var s, t := r.states[m], r.states[m + 1];
            && t.picks == s.picks + [t.picks[|s.picks|]] && t.subs == s.subs
            && t.picks[|s.picks|].seen == |s.subs|
  {
    assert Next(r.states[m], r.labels[m], r.states[m + 1]);
  }

  lemma EarlierPick(r: Run, q: nat, m: nat)
    requires IsRun(r) && q < m && MakesPick(r, q) && MakesPick(r, m)
    requires r.states[q + 1].picks[|r.states[q].picks|].cam == r.states[m + 1].picks[|r.states[m].picks|].cam
    ensures var cam := r.states[m + 1].picks[|r.states[m].picks|].cam;
            LastFor(r.labels[..q], cam) < LastFor(r.labels[..m], cam)
  {
    var s, t := r.states[m], r.states[m + 1];
    assert InOrder(t.subs, t.picks) by { RunInv(r, m + 1); }
    hide Next, Init, InOrder, LastFor, Newest;
    PickAtStep(r, q);
    PickAtStep(r, m);
    LogsGrow(r, q + 1, m);
    SeenInOrder(t.subs, t.picks, |r.states[q].picks|, |s.picks|);
    LaterCall(r, q, m, t.picks[|s.picks|].cam);
  }

  lemma SeenInOrder(subs: seq<Submission>, picks: seq<Pick>, i: nat, j: nat)
    requires InOrder(subs, picks) && i < j < |picks| && picks[i].cam == picks[j].cam && picks[j].seen == |subs|
    ensures picks[i].seen <= Newest(subs, picks[j].cam)
  {
    assert subs[..|subs|] == subs;
  }

  lemma {:induction false} LogsGrow(r: Run, i: nat, j: nat)
    requires IsRun(r) && i <= j < |r.states|
    ensures r.states[i].picks <= r.states[j].picks
  {
    hide Next, Init;
    if i < j {
      LogsGrow(r, i, j - 1);
      PicksGrow(r.states[j - 1], r.labels[j - 1], r.states[j]);
    }
  }

  /** In terms of the logs: the picks answer submissions in order, each the newest at its time and none
      twice. */
  lemma LatestWinsLog(r: Run, i: nat)
    requires IsRun(r) && i < |r.states|
    ensures var s := r.states[i];
            && (forall k :: 0 <= k < |s.picks| ==>
                  var p, src := s.picks[k], Source(s.subs, s.picks[k]);
                  && 0 <= src < p.seen <= |s.subs|
                  && s.subs[src].cam == p.cam && p.cmd == CommandOf(s.subs[src])
                  && (forall j :: src < j < p.seen ==> s.subs[j].cam != p.cam))
            && (forall a, b :: 0 <= a < b < |s.picks| && s.picks[a].cam == s.picks[b].cam ==>
                  Source(s.subs, s.picks[a]) < Source(s.subs, s.picks[b]))
  {
    RunInv(r, i);
    var s := r.states[i];
    forall k | 0 <= k < |s.picks|
      ensures var p, src := s.picks[k], Source(s.subs, s.picks[k]);
              && 0 <= src < p.seen <= |s.subs|
              && s.subs[src].cam == p.cam && p.cmd == CommandOf(s.subs[src])
              && (forall j :: src < j < p.seen ==> s.subs[j].cam != p.cam)
    {
      var p := s.picks[k];
      assert PickSound(s.subs, p);
      assert forall j :: 0 <= j < p.seen ==> s.subs[..p.seen][j] == s.subs[j];
    }
  }

  /** The picks carried out by a log of calls, adjacent repeats taken once. */
  function Collapse(execs: seq<Exec>): seq<nat> {
    if execs == [] then []
    else
      var front, e := execs[..|execs| - 1], execs[|execs| - 1];
      if front != [] && front[|front| - 1].pick == e.pick then Collapse(front)
      else Collapse(front) + [e.pick]
  }

  lemma {:induction false} CollapseChain(execs: seq<Exec>, picks: seq<Pick>)
    requires Chain(execs, picks)
    ensures |Collapse(execs)| == Executed(execs)
    ensures forall k :: 0 <= k < |Collapse(execs)| ==> Collapse(execs)[k] == k
  {
    if execs != [] {
      var front := execs[..|execs| - 1];
      forall i | 0 <= i < |front| ensures Link(front, picks, i) {
        assert Link(execs, picks, i);
      }
      CollapseChain(front, picks);
      assert Link(execs, picks, |execs| - 1);
    }
  }

  ghost predicate CallSound(execs: seq<Exec>, picks: seq<Pick>, k: nat)
    requires k < |execs|
  {
    var e := execs[k];
    && e.pick < |picks| && e.cam == picks[e.pick].cam && e.cmd == picks[e.pick].cmd
    && (k > 0 && execs[k - 1].pick == e.pick ==>
          !e.cmd.stop && picks[e.pick].settings.moveTimeoutSeconds > 0)
  }

  /** The executor log carries out the pick log: every pick in order, all but possibly the newest,
      where only a bounded move is called more than once and those calls follow each other. */
  ghost predicate CarriesOut(execs: seq<Exec>, picks: seq<Pick>) {
    && (forall k :: 0 <= k < |execs| ==> CallSound(execs, picks, k))
    && (forall k :: 0 <= k < |Collapse(execs)| ==> Collapse(execs)[k] == k)
    && |picks| - 1 <= |Collapse(execs)| <= |picks|
  }

  lemma ChainCarriesOut(execs: seq<Exec>, picks: seq<Pick>)
    requires Chain(execs, picks) && |picks| - 1 <= Executed(execs) <= |picks|
    ensures CarriesOut(execs, picks)
    ensures |Collapse(execs)| == Executed(execs)
  {
    CollapseChain(execs, picks);
    forall k | 0 <= k < |execs| ensures CallSound(execs, picks, k) {
      assert Link(execs, picks, k);
    }
  }

  lemma ExecutorFollowsPicks(r: Run, i: nat)
    requires IsRun(r) && i < |r.states|
    ensures CarriesOut(r.states[i].execs, r.states[i].picks)
    ensures r.states[i].ctl.dispatching == 0 ==> |Collapse(r.states[i].execs)| == |r.states[i].picks|
  {
    RunInv(r, i);
    ChainCarriesOut(r.states[i].execs, r.states[i].picks);
  }

  // ---- stop purges ----

  /** The move calls for `cam` from index `from` of the log on. */
  function MoveCalls(execs: seq<Exec>, from: nat, cam: CameraId): nat {
    if |execs| <= from then 0
    else
      var e := execs[|execs| - 1];
      MoveCalls(execs[..|execs| - 1], from, cam) + (if e.cam == cam && !e.cmd.stop then 1 else 0)
  }

  /** A move for `cam` was chosen under the mutex but the executor has not been called yet. */
  ghost predicate Committed(s: System, cam: CameraId) {
    s.pc.Calling? && s.pc.job.cam == cam && !s.pc.job.cmd.stop
  }

  lemma NoMoveCall(s: System, t: System, from: nat, cam: CameraId)
    requires Next(s, Call, t) && from <= |s.execs|
    ensures MoveCalls(t.execs, from, cam) + (if Committed(t, cam) then 1 else 0)
         <= MoveCalls(s.execs, from, cam) + (if Committed(s, cam) then 1 else 0)
  {
    assert t.execs[..|t.execs| - 1] == s.execs;
  }

  lemma NoMovePick(s: System, settings: Settings, at: nat, id: CameraId, t: System, cam: CameraId)
    requires PickStep(s, settings, at, id, t) && cam in s.ctl.cams && !s.ctl.cams[cam].held
    ensures cam in t.ctl.cams && !t.ctl.cams[cam].held
    ensures s.picks <= t.picks && s.execs == t.execs
    ensures forall k :: |s.picks| <= k < |t.picks| && t.picks[k].cam == cam ==> t.picks[k].cmd == STOP
    ensures !Committed(t, cam)
  {
  }

  lemma NoMoveStep(s: System, l: Label, t: System, from: nat, cam: CameraId)
    requires Next(s, l, t) && from <= |s.execs|
    requires cam in s.ctl.cams && !s.ctl.cams[cam].held && !(l.Move? && l.id == cam)
    ensures cam in t.ctl.cams && !t.ctl.cams[cam].held
    ensures s.picks <= t.picks && s.execs <= t.execs
    ensures forall k :: |s.picks| <= k < |t.picks| && t.picks[k].cam == cam ==> t.picks[k].cmd == STOP
    ensures MoveCalls(t.execs, from, cam) + (if Committed(t, cam) then 1 else 0)
         <= MoveCalls(s.execs, from, cam) + (if Committed(s, cam) then 1 else 0)
  {
    hide FloorBlocks, Idle, HoldEnds, PickStep, MoveCalls;
    if l.Call? {
      NoMoveCall(s, t, from, cam);
    } else if l.Enter? && Work(s.ctl) != {} && !FloorBlocks(s.ctl, s.ctl.settings, s.lastMove, s.now) {
      NoMovePick(s, s.ctl.settings, l.t, l.id, t, cam);
    } else if l.FloorWake? {
      NoMovePick(s, s.pc.settings, l.t, l.id, t, cam);
    }
  }

  /** From a Stop for `cam` up to the next Move for it, every pick for `cam` is a stop, and the
      executor gets a move for it only if one was already committed when Stop was called; at most one. */
  lemma {:induction false} StopPurges(r: Run, i: nat, j: nat, cam: CameraId)
    requires IsRun(r) && i < j < |r.states| && r.labels[i] == Stop(cam)
    requires forall k :: i < k < j ==> !(r.labels[k].Move? && r.labels[k].id == cam)
    ensures var s, t := r.states[i + 1], r.states[j];
            && s.picks <= t.picks && s.execs <= t.execs
            && (forall k :: |s.picks| <= k < |t.picks| && t.picks[k].cam == cam ==> t.picks[k].cmd == STOP)
            && MoveCalls(t.execs, |s.execs|, cam) + (if Committed(t, cam) then 1 else 0)
                 <= (if Committed(r.states[i], cam) then 1 else 0)
    ensures cam in r.states[j].ctl.cams && !r.states[j].ctl.cams[cam].held
  {
    if j == i + 1 {
      assert Next(r.states[i], r.labels[i], r.states[j]);
    } else {
      StopPurges(r, i, j - 1, cam);
      NoMoveStep(r.states[j - 1], r.labels[j - 1], r.states[j], |r.states[i + 1].execs|, cam);
    }
  }

  /** A queued stop excludes a held move. */
  lemma StopExcludesHeld(r: Run, i: nat, cam: CameraId)
    requires IsRun(r) && i < |r.states| && cam in r.states[i].ctl.cams
    ensures !(r.states[i].ctl.cams[cam].stopPending && r.states[i].ctl.cams[cam].held)
  {
    RunInv(r, i);
    assert CamInv(r.states[i].ctl.cams, r.states[i].subs, r.states[i].picks, cam);
  }

  lemma StopFirstStep(s: System, l: Label, t: System, cam: CameraId)
    requires QueueInv(s.ctl.cams, s.subs, s.picks) && Next(s, l, t)
    requires cam in s.ctl.cams && s.ctl.cams[cam].stopPending && !(l.Move? && l.id == cam)
    ensures s.picks <= t.picks && |t.picks| <= |s.picks| + 1
    ensures |t.picks| > |s.picks| ==> t.picks[|s.picks|].cmd == STOP
    ensures (|t.picks| > |s.picks| && t.picks[|s.picks|].cam == cam)
            || (cam in t.ctl.cams && t.ctl.cams[cam].stopPending)
  {
    assert cam in Stops(s.ctl) && cam in Work(s.ctl);
  }

  /** None of the picks `from` to `to` is for `cam`. */
  ghost predicate NoPickOf(picks: seq<Pick>, from: nat, to: nat, cam: CameraId)
    requires to <= |picks|
  {
    forall p :: from <= p < to ==> picks[p].cam != cam
  }

  /** Up to the first pick for `cam`, and with it, the picks from `from` on are stops. */
  ghost predicate StopsOnly(picks: seq<Pick>, from: nat, cam: CameraId) {
    forall p :: from <= p < |picks| && NoPickOf(picks, from, p, cam) ==> picks[p].cmd == STOP
  }

  lemma StopsOnlyGrows(picks: seq<Pick>, more: seq<Pick>, from: nat, cam: CameraId)
    requires picks <= more && from <= |picks| && |more| <= |picks| + 1
    requires StopsOnly(picks, from, cam)
    requires |more| > |picks| && NoPickOf(picks, from, |picks|, cam) ==> more[|picks|].cmd == STOP
    ensures StopsOnly(more, from, cam)
    ensures NoPickOf(more, from, |more|, cam) ==>
              NoPickOf(picks, from, |picks|, cam) && (|more| > |picks| ==> more[|picks|].cam != cam)
  {
    forall p | from <= p <= |picks| && NoPickOf(more, from, p, cam) ensures NoPickOf(picks, from, p, cam) {
      assert forall q :: from <= q < p ==> picks[q] == more[q];
    }
    if NoPickOf(more, from, |more|, cam) {
      assert NoPickOf(more, from, |picks|, cam);
    }
  }

  /** A stop goes before any queued move: from a Stop for `cam` until it is picked, or replaced by a Move
      for `cam`, every pick of any camera is a stop, and this one stays queued. */
  lemma {:induction false} StopsGoFirst(r: Run, i: nat, j: nat, cam: CameraId)
    requires IsRun(r) && i < j < |r.states| && r.labels[i] == Stop(cam)
    requires forall k :: i < k < j ==> !(r.labels[k].Move? && r.labels[k].id == cam)
    ensures var from, t := |r.states[i].picks|, r.states[j];
            && r.states[i].picks <= t.picks && StopsOnly(t.picks, from, cam)
            && (NoPickOf(t.picks, from, |t.picks|, cam) ==> cam in t.ctl.cams && t.ctl.cams[cam].stopPending)
  {
    hide Next, Init, NoPickOf;
    var from := |r.states[i].picks|;
    if j == i + 1 {
      StopQueues(r.states[i], r.labels[i], r.states[j], cam);
    } else {
      StopsGoFirst(r, i, j - 1, cam);
      hide StopsOnly;
      var s, l, t := r.states[j - 1], r.labels[j - 1], r.states[j];
      assert Next(s, l, t);
      assert QueueInv(s.ctl.cams, s.subs, s.picks) by { RunInv(r, j - 1); }
      PicksGrow(s, l, t);
      if NoPickOf(s.picks, from, |s.picks|, cam) {
        StopFirstStep(s, l, t, cam);
      }
      StopsOnlyGrows(s.picks, t.picks, from, cam);
    }
  }

  lemma StopQueues(s: System, l: Label, t: System, cam: CameraId)
    requires Next(s, l, t) && l == Stop(cam)
    ensures t.picks == s.picks && cam in t.ctl.cams && t.ctl.cams[cam].stopPending
  {
  }

  lemma PicksGrow(s: System, l: Label, t: System)
    requires Next(s, l, t)
    ensures s.picks <= t.picks && |t.picks| <= |s.picks| + 1
  {
  }

  // ---- repeats ----

  /** The newest submission for `cam` is a move with the velocities of `cmd`. */
  ghost predicate Current(subs: seq<Submission>, cam: CameraId, cmd: Command) {
    var n := Newest(subs, cam);
    && n >= 0 && subs[n].MoveSub?
    && subs[n].cmd.pan == cmd.pan && subs[n].cmd.tilt == cmd.tilt && subs[n].cmd.zoom == cmd.zoom
  }

  lemma HoldsCurrent(r: Run, i: nat)
    requires IsRun(r) && i < |r.states| && r.states[i].pc.Holding?
    ensures var s, job := r.states[i], r.states[i].pc.job;
            && (HoldEnds(s.ctl, job.cam, job.cmd) <==> !Current(s.subs, job.cam, job.cmd))
            && (Refires(s.ctl, job.cam, job.cmd) <==> Current(s.subs, job.cam, job.cmd))
  {
    RunInv(r, i);
    var s := r.states[i];
    assert CamInv(s.ctl.cams, s.subs, s.picks, s.pc.job.cam);
  }

  /** While a bounded move is held, its hold ends early exactly when the last call for its camera was a Stop,
      or a Move that differs in pan, tilt or zoom; another timeout alone does not end it. When it times out
      it is fired again exactly when the hold has not ended so. */
  lemma RefiresCurrent(r: Run, i: nat)
    requires IsRun(r) && i < |r.states| && r.states[i].pc.Holding?
    ensures var s, job := r.states[i], r.states[i].pc.job;
            var k := LastFor(r.labels[..i], job.cam);
            && k >= 0
            && var l := r.labels[k];
               var changed := l.Stop? || l.pan != job.cmd.pan || l.tilt != job.cmd.tilt || l.zoom != job.cmd.zoom;
               && (HoldEnds(s.ctl, job.cam, job.cmd) <==> changed)
               && (Refires(s.ctl, job.cam, job.cmd) <==> !changed)
  {
    HoldsCurrent(r, i);
    NewestCarries(r, i, r.states[i].pc.job.cam);
    RunInv(r, i);
    JobHasCall(r, i);
  }

  lemma JobHasCall(r: Run, i: nat)
    requires IsRun(r) && i < |r.states| && r.states[i].pc.Holding?
    ensures Newest(r.states[i].subs, r.states[i].pc.job.cam) >= 0
  {
    RunInv(r, i);
    var s := r.states[i];
    assert PickSound(s.subs, s.picks[|s.picks| - 1]);
    var p := s.picks[|s.picks| - 1];
    assert s.subs[Source(s.subs, p)] == s.subs[..p.seen][Source(s.subs, p)];
  }

  // ---- no lost wakeup ----

  /** At most one dispatch is in flight, and exactly while the worker is between pick and finish. */
  lemma OneDispatch(r: Run, i: nat)
    requires IsRun(r) && i < |r.states|
    ensures r.states[i].ctl.dispatching == if Busy(r.states[i].pc) then 1 else 0
  {
    RunInv(r, i);
  }

  lemma IdleStep(s: System, l: Label, s': System)
    requires IdleInv(s) && WakeInv(s) && Next(s, l, s')
    requires s.pc.Top? || s.pc.Floor? ==> s.ctl.dispatching == 0
    ensures !Idle(s.ctl) && Idle(s'.ctl) ==> l.Finish? && s'.pc.Notifying?
    ensures s.pc.Notifying? ==> s'.pc.Notifying? || s'.sleeping == {}
  {
    if l.IsSubmission() {
      assert l.id in Work(s'.ctl);
    } else if l.Enter? || l.FloorWake? {
      WorkSplits(s.ctl);
    } else {
      assert Work(s'.ctl) == Work(s.ctl);
    }
  }

  /** Only the finish of a dispatch turns the idle condition true, and it goes on to notify; so no
      thread is left sleeping in WaitIdle on an idle controller without a notification to come. */
  lemma NoLostIdleWakeup(r: Run, i: nat)
    requires IsRun(r) && i < |r.labels|
    ensures !Idle(r.states[i].ctl) && Idle(r.states[i + 1].ctl) ==>
              r.labels[i].Finish? && r.states[i + 1].pc.Notifying?
    ensures r.states[i + 1].sleeping != {} && Idle(r.states[i + 1].ctl) ==> r.states[i + 1].pc.Notifying?
    ensures r.states[i].pc.Notifying? ==> r.states[i + 1].pc.Notifying? || r.states[i + 1].sleeping == {}
  {
    RunInv(r, i);
    RunInv(r, i + 1);
    IdleStep(r.states[i], r.labels[i], r.states[i + 1]);
  }

  /** Work seen at the top of the loop is still there after the floor wait, so an iteration always
      has something to dispatch: it never goes round with nothing picked. And the worker sleeps on
      work or shutdown only while a caller is still to notify it. */
  lemma WorkNeverLost(r: Run, i: nat)
    requires IsRun(r) && i < |r.labels|
    ensures r.states[i].pc.Floor? ==> Work(r.states[i].ctl) != {}
    ensures r.labels[i].FloorWake? ==> r.states[i + 1].pc.Calling?
    ensures r.labels[i].Enter? && !r.states[i + 1].pc.Exited? && !r.states[i + 1].pc.Floor? ==>
              r.states[i + 1].pc.Calling?
    ensures r.states[i].pc.Asleep? && (r.states[i].ctl.shutdown || Work(r.states[i].ctl) != {}) ==>
              r.states[i].owed > 0
  {
    RunInv(r, i);
    var s, l, s' := r.states[i], r.labels[i], r.states[i + 1];
    assert Next(s, l, s');
    if l.FloorWake? {
      PickFinds(s, s.pc.settings, l.t, l.id, s');
    } else if l.Enter? && !s'.pc.Exited? && !s'.pc.Floor? {
      PickFinds(s, s.ctl.settings, l.t, l.id, s');
    }
  }

  /** After a hold timed out the second test of the held command always succeeds. */
  lemma RecheckRedundant(c: Controller, id: CameraId, cmd: Command)
    ensures Refires(c, id, cmd) <==> !HoldEnds(c, id, cmd)
  {
  }

  // ---- the movement floor ----

  /** Two move picks, on any cameras, are at least the later iteration's interval apart, unless the
      earlier one happened at the clock's epoch. */
  lemma MovementFloor(r: Run, i: nat, a: nat, b: nat)
    requires IsRun(r) && i < |r.states| && a < b < |r.states[i].picks|
    requires !r.states[i].picks[a].cmd.stop && !r.states[i].picks[b].cmd.stop
    requires r.states[i].picks[a].at != 0
    ensures r.states[i].picks[b].at - r.states[i].picks[a].at >= r.states[i].picks[b].settings.minIntervalMs * 1_000_000
  {
    RunInv(r, i);
  }

  /** Leaving the floor wait before the next slot always picks a stop. */
  lemma EarlyExitPicksStop(r: Run, i: nat)
    requires IsRun(r) && i < |r.labels| && r.labels[i].FloorWake? && r.states[i].pc.Floor?
    requires r.states[i].now < r.states[i].lastMove + r.states[i].pc.settings.minIntervalMs * 1_000_000
    requires r.states[i].lastMove != 0
    ensures r.states[i + 1].pc.Calling? && r.states[i + 1].pc.job.cmd == STOP
  {
    RunInv(r, i);
    assert Next(r.states[i], r.labels[i], r.states[i + 1]);
  }

  function Last(r: Run): System
    requires r.states != []
  {
    r.states[|r.states| - 1]
  }

  /** A run with one more step. */
  ghost function Then(r: Run, l: Label, s: System): (r': Run)
    requires IsRun(r) && Next(Last(r), l, s)
    ensures IsRun(r') && Last(r') == s
  {
    Run(r.states + [s], r.labels + [l])
  }

  /** In every run, move pick `b` keeps its interval from an earlier move pick `a` made at time `at`. */
  ghost predicate FloorHolds(at: nat, interval: nat) {
    forall r: Run, a: nat, b: nat :: IsRun(r) && TwoMoves(Last(r).picks, a, b, at, interval) ==>
      Last(r).picks[b].at - at >= interval * 1_000_000
  }

  ghost predicate TwoMoves(picks: seq<Pick>, a: nat, b: nat, at: nat, interval: nat) {
    && a < b < |picks| && !picks[a].cmd.stop && !picks[b].cmd.stop
    && picks[a].at == at && picks[b].settings.minIntervalMs == interval
  }

  /** The movement floor holds after a move picked at clock reading `at` exactly when that reading is
      not the clock's epoch, which the code takes for "no move yet" (or no interval is asked for). */
  lemma FloorExactly(at: nat, interval: nat)
    ensures FloorHolds(at, interval) <==> at != 0 || interval == 0
  {
    forall r: Run, a: nat, b: nat
      | IsRun(r) && TwoMoves(Last(r).picks, a, b, at, interval) && (at != 0 || interval == 0)
      ensures Last(r).picks[b].at - at >= interval * 1_000_000
    {
      if at != 0 {
        MovementFloor(r, |r.states| - 1, a, b);
      }
    }
    if at == 0 && interval != 0 {
      var r := EpochMoveUnarmed(interval);
      assert TwoMoves(Last(r).picks, 0, 1, at, interval);
    }
  }

  /** An idle controller whose clock still reads its epoch. */
  ghost predicate AtEpoch(s: System, interval: nat) {
    && s.pc.Top? && s.now == 0 && s.lastMove == 0 && s.ctl.cams.Keys <= {"a"} && s.ctl.dispatching == 0
    && s.ctl.settings == Settings(true, true, 0, true, interval)
  }

  lemma EpochPick(r: Run, interval: nat) returns (r': Run)
    requires IsRun(r) && AtEpoch(Last(r), interval)
    ensures IsRun(r') && Work(Last(r').ctl) == {} && Last(r').pc.Calling?
    ensures AtEpoch(Last(r').(pc := Top, ctl := Last(r').ctl.(dispatching := 0)), interval)
    ensures Last(r').ctl.dispatching == 1
    ensures Last(r').pc.job.settings == Last(r).ctl.settings
    ensures |Last(r').picks| == |Last(r).picks| + 1 && Last(r).picks <= Last(r').picks
    ensures var p := Last(r').picks[|Last(r).picks|];
            !p.cmd.stop && p.at == 0 && p.settings == Last(r).ctl.settings
  {
    var s := Last(r);
    var ctl := AfterMove(s.ctl, "a", 1.0, 0.0, 0.0);
    var s1 := s.(ctl := ctl, owed := s.owed + 1, subs := s.subs + [MoveSub("a", ctl.cams["a"].heldCmd)]);
    assert Fresh(s1.ctl) == {"a"} && Stops(s1.ctl) == {} && "a" in Work(s1.ctl);
    var s2 := TakeMove(s1, s.ctl.settings, 0, "a");
    r' := Then(Then(r, Label.Move("a", 1.0, 0.0, 0.0), s1), Enter(0, "a"), s2);
  }

  lemma EpochFinish(r: Run) returns (r': Run)
    requires IsRun(r) && Last(r).pc.Calling? && Last(r).pc.job.settings.moveTimeoutSeconds == 0
    requires |Last(r).picks| > 0 && Work(Last(r).ctl) == {} && Last(r).ctl.dispatching == 1
    ensures IsRun(r') && Last(r').picks == Last(r).picks
    ensures var s, s' := Last(r), Last(r');
            s'.pc.Top? && s'.ctl == s.ctl.(dispatching := 0) && s'.now == s.now && s'.lastMove == s.lastMove
  {
    var s := Last(r);
    var s1 := s.(pc := InCall(s.pc.job), execs := s.execs + [Exec(s.pc.job.cam, s.pc.job.cmd, |s.picks| - 1, s.now)]);
    var s2 := s1.(pc := Leaving);
    var s3 := s2.(ctl := AfterFinish(s2.ctl), pc := Notifying);
    assert Work(s3.ctl) == Work(s.ctl);
    r' := Then(Then(Then(r, Call, s1), Return, s2), Finish, s3);
    r' := Then(r', NotifyIdle, s3.(pc := Top, sleeping := {}));
  }

  /** A move picked while the clock reads its epoch does not arm the floor: the next move may be
      picked at the same instant, whatever the interval. */
  lemma EpochMoveUnarmed(interval: nat) returns (r: Run)
    ensures IsRun(r)
    ensures var p := Last(r).picks;
            && |p| == 2 && !p[0].cmd.stop && !p[1].cmd.stop
            && p[0].at == p[1].at == 0 && p[1].settings.minIntervalMs == interval
  {
    var s := System(Controller(map[], Settings(true, true, 0, true, interval), false, 0), Top, 0, 0, 0, {}, [], [], []);
    r := Run([s], []);
    r := EpochPick(r, interval);
    r := EpochFinish(r);
    r := EpochPick(r, interval);
  }
}
