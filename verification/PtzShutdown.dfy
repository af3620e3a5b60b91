/** What becomes of commands submitted after a shutdown: the code queues them, and the worker carries them
    out unless it has exited. */
module PtzShutdown {
  import opened KeyOrder
  import opened PtzModel
  import opened PtzSystem
  import opened PtzInvariants
  import opened PtzTheorems

  lemma ExitedStep(s: System, l: Label, s': System)
    requires Next(s, l, s') && s.pc.Exited?
    ensures s'.pc.Exited? && s'.picks == s.picks && s'.execs == s.execs
  {
  }

  /** Once the worker has exited nothing is ever picked or called again. */
  lemma {:induction false} ExitedForGood(r: Run, i: nat, j: nat)
    requires IsRun(r) && i <= j < |r.states| && r.states[i].pc.Exited?
    ensures r.states[j].pc.Exited?
    ensures r.states[j].picks == r.states[i].picks && r.states[j].execs == r.states[i].execs
  {
    hide Next, Init;
    if i < j {
      ExitedForGood(r, i, j - 1);
      ExitedStep(r.states[j - 1], r.labels[j - 1], r.states[j]);
    }
  }

  /** Step `i` submits a command after the shutdown, with the worker exited or not. */
  ghost predicate LateSubmission(r: Run, i: nat, exited: bool) {
    && IsRun(r) && i < |r.labels| && r.labels[i].IsSubmission()
    && r.states[i].ctl.shutdown && r.states[i].pc.Exited? == exited
  }

  /** By state `j` pick `k` has answered the command submitted in step `i`. */
  ghost predicate Answers(r: Run, i: nat, j: nat, k: nat)
    requires i < |r.states|
  {
    && i < j < |r.states| && k < |r.states[j].picks|
    && Source(r.states[j].subs, r.states[j].picks[k]) == |r.states[i].subs|
  }

  lemma ExitedRefuses(r: Run, i: nat, j: nat, k: nat)
    requires LateSubmission(r, i, true)
    ensures !Answers(r, i, j, k)
  {
    if i < j < |r.states| && k < |r.states[j].picks| {
      ExitedForGood(r, i, j);
      RunInv(r, i);
      RunInv(r, j);
      assert PickSound(r.states[i].subs, r.states[i].picks[k]) && PickSound(r.states[j].subs, r.states[j].picks[k]);
    }
  }

  /** A move is submitted right after the shutdown of a fresh controller. */
  lemma LateMove() returns (r: Run)
    ensures LateSubmission(r, 1, false) && r.labels[0].Shutdown? && r.labels[1].Move?
    ensures |r.states| == 3 && |r.states[1].subs| == 0 && r.states[2] == Last(r)
    ensures var s := r.states[2];
            && s.pc.Top? && s.now == 0 && s.lastMove == 0 && s.picks == [] && s.execs == []
            && s.ctl.cams.Keys == {"a"} && NeedsMove(s.ctl.cams["a"]) && !s.ctl.cams["a"].stopPending
            && s.subs == [MoveSub("a", s.ctl.cams["a"].heldCmd)] && !s.ctl.cams["a"].heldCmd.stop
  {
    var settings := Settings(true, true, 0, true, 75);
    var s := System(Controller(map[], settings, false, 0), Top, 0, 0, 0, {}, [], [], []);
    var s1 := s.(ctl := s.ctl.(shutdown := true), owed := 1);
    var ctl := AfterMove(s1.ctl, "a", 1.0, 0.0, 0.0);
    var s2 := s1.(ctl := ctl, owed := 2, subs := s1.subs + [MoveSub("a", ctl.cams["a"].heldCmd)]);
    r := Then(Then(Run([s], []), Label.Shutdown, s1), Label.Move("a", 1.0, 0.0, 0.0), s2);
  }

  /** The worker picks the only move there is, and calls the executor with it. */
  lemma PickAndCall(s: System) returns (s1: System, s2: System)
    requires s.pc.Top? && s.lastMove == 0 && s.picks == [] && s.execs == []
    requires s.ctl.cams.Keys == {"a"} && NeedsMove(s.ctl.cams["a"]) && !s.ctl.cams["a"].stopPending
    ensures Next(s, Enter(s.now, "a"), s1) && Next(s1, Call, s2) && s2.subs == s.subs
    ensures var cmd := s.ctl.cams["a"].heldCmd;
            s2.picks == [Pick("a", cmd, s.now, s.ctl.settings, |s.subs|)] && s2.execs == [Exec("a", cmd, 0, s.now)]
  {
    assert Fresh(s.ctl) == {"a"} && Stops(s.ctl) == {} && "a" in Work(s.ctl);
    s1 := TakeMove(s, s.ctl.settings, s.now, "a");
    s2 := s1.(pc := InCall(s1.pc.job), execs := s1.execs + [Exec("a", s1.pc.job.cmd, 0, s.now)]);
  }

  /** A run in which a move submitted after the shutdown is picked and reaches the executor. */
  lemma LateMoveDispatched() returns (r: Run)
    ensures LateSubmission(r, 1, false) && r.labels[0].Shutdown? && r.labels[1].Move?
    ensures Answers(r, 1, 4, 0) && Last(r) == r.states[4]
    ensures |Last(r).execs| == 1 && Last(r).execs[0].cmd == CommandOf(Last(r).subs[0])
  {
    r := LateMove();
    var s := Last(r);
    var s1, s2 := PickAndCall(s);
    hide Next, Init;
    r := Then(Then(r, Enter(0, "a"), s1), Call, s2);
    assert s2.subs[..1] == s2.subs;
  }

  /** No command submitted after a shutdown is ever answered, in any run, if and only if the worker had
      exited when it was submitted. */
  ghost predicate Refused(exited: bool) {
    forall r: Run, i: nat, j: nat, k: nat :: LateSubmission(r, i, exited) ==> !Answers(r, i, j, k)
  }

  lemma RefusedExactly(exited: bool)
    ensures Refused(exited) <==> exited
  {
    if exited {
      forall r: Run, i: nat, j: nat, k: nat | LateSubmission(r, i, true) ensures !Answers(r, i, j, k) {
        ExitedRefuses(r, i, j, k);
      }
    } else {
      var r := LateMoveDispatched();
      assert Answers(r, 1, 4, 0);
    }
  }
}
