/** The governor's times: the movement floor lets go when it should, bounded moves are repeated at their
    timeout, and every iteration goes by the settings of its start. */
module PtzTimes {
  import opened KeyOrder
  import opened PtzModel
  import opened PtzSystem
  import opened PtzInvariants
  import opened PtzTheorems

  // ---- the floor lets go ----

  /** The worker can make a pick at this very clock reading. */
  ghost predicate CanPickNow(s: System) {
    exists l: Label, s': System :: Next(s, l, s') && s'.now == s.now && |s'.picks| == |s.picks| + 1
  }

  lemma PickNow(s: System, settings: Settings, l: Label)
    requires Work(s.ctl) != {}
    requires (s.pc.Top? && l.Enter? && settings == s.ctl.settings)
             || (s.pc.Floor? && l.FloorWake? && settings == s.pc.settings)
    requires !FloorBlocks(s.ctl, settings, s.lastMove, s.now)
    ensures CanPickNow(s)
  {
    WorkSplits(s.ctl);
    var id, s';
    if Stops(s.ctl) != {} {
      id := FirstExists(Stops(s.ctl));
      s' := TakeStop(s, settings, s.now, id);
    } else {
      id := FirstExists(Fresh(s.ctl));
      s' := TakeMove(s, settings, s.now, id);
    }
    if l.Enter? {
      assert Next(s, Enter(s.now, id), s');
    } else {
      assert Next(s, FloorWake(s.now, id), s');
    }
  }

  lemma BlockedPicksNothing(s: System, settings: Settings)
    requires s.pc == Floor(settings) || (s.pc.Top? && settings == s.ctl.settings)
    requires FloorBlocks(s.ctl, settings, s.lastMove, s.now)
    ensures !CanPickNow(s)
  {
    forall l: Label, s': System | Next(s, l, s') ensures s'.picks == s.picks {
      hide FloorBlocks;
    }
  }

  /** With work to do, the worker can make a pick at once exactly when no move was picked yet (a move
      picked at the clock's epoch does not count), or the iteration's interval since the last move pick
      has passed, or a stop is queued. */
  lemma FloorReleases(r: Run, i: nat)
    requires IsRun(r) && i < |r.states| && Work(r.states[i].ctl) != {}
    requires r.states[i].pc.Top? || r.states[i].pc.Floor?
    ensures var s := r.states[i];
            var n := LastMove(s.picks);
            var interval := if s.pc.Floor? then s.pc.settings.minIntervalMs else s.ctl.settings.minIntervalMs;
            CanPickNow(s) <==>
              || n < 0 || s.picks[n].at == 0 || s.now >= s.picks[n].at + interval * 1_000_000
              || (exists id :: id in s.ctl.cams && s.ctl.cams[id].stopPending)
  {
    var s := r.states[i];
    assert ClockInv(s.lastMove, s.now, s.picks) by { RunInv(r, i); }
    var settings := if s.pc.Floor? then s.pc.settings else s.ctl.settings;
    StopQueuedIs(s.ctl);
    if FloorBlocks(s.ctl, settings, s.lastMove, s.now) {
      BlockedPicksNothing(s, settings);
    } else {
      PickNow(s, settings, if s.pc.Floor? then FloorWake(s.now, "") else Enter(s.now, ""));
    }
  }

  lemma StopQueuedIs(c: Controller)
    ensures Stops(c) != {} <==> exists id :: id in c.cams && c.cams[id].stopPending
  {
    if id :| id in c.cams && c.cams[id].stopPending { assert id in Stops(c); }
  }

  // ---- the settings of an iteration ----

  /** The worker in the floor wait entered it with the settings of that moment, and has picked nothing since. */
  lemma {:induction false} FloorSince(r: Run, i: nat) returns (e: nat)
    requires IsRun(r) && i < |r.states| && r.states[i].pc.Floor?
    ensures e < i && r.labels[e].Enter? && r.states[e].ctl.settings == r.states[i].pc.settings
    ensures r.states[e].picks == r.states[i].picks
  {
    FloorStep(r, i);
    if r.states[i - 1].pc.Floor? {
      e := FloorSince(r, i - 1);
    } else {
      e := i - 1;
    }
  }

  lemma FloorStep(r: Run, i: nat)
    requires IsRun(r) && i < |r.states| && r.states[i].pc.Floor?
    ensures i > 0 && r.states[i - 1].picks == r.states[i].picks
    ensures if r.states[i - 1].pc.Floor? then r.states[i - 1].pc == r.states[i].pc
            else r.labels[i - 1].Enter? && r.states[i - 1].ctl.settings == r.states[i].pc.settings
  {
    if i > 0 {
      assert Next(r.states[i - 1], r.labels[i - 1], r.states[i]);
    }
  }

  /** Every pick goes by the settings its iteration started with. */
  lemma IterationSettings(r: Run, m: nat) returns (e: nat)
    requires IsRun(r) && MakesPick(r, m)
    ensures e <= m && r.labels[e].Enter? && r.states[e].picks == r.states[m].picks
    ensures r.states[m + 1].picks[|r.states[m].picks|].settings == r.states[e].ctl.settings
  {
    var s, l, t := r.states[m], r.labels[m], r.states[m + 1];
    assert Next(s, l, t);
    if l.FloorWake? {
      e := FloorSince(r, m);
    } else {
      e := m;
    }
  }

  // ---- repeats ----

  /** How long a repeat has to wait. */
  function HoldTime(settings: Settings): nat {
    settings.moveTimeoutSeconds * 1_000_000_000
  }

  ghost predicate Spaced(execs: seq<Exec>, picks: seq<Pick>, k: nat)
    requires k < |execs|
  {
    var e := execs[k];
    e.pick < |picks|
    && (k > 0 && execs[k - 1].pick == e.pick ==> e.at >= execs[k - 1].at + HoldTime(picks[e.pick].settings))
  }

  /** The calls so far are spaced, and the next one will be. */
  ghost predicate TimeInv(s: System) {
    && (forall k :: 0 <= k < |s.execs| ==> Spaced(s.execs, s.picks, k))
    && (forall k :: 0 <= k < |s.execs| ==> s.execs[k].at <= s.now)
    && (s.pc.Holding? ==>
          && s.execs != [] && s.pc.deadline <= s.now + HoldTime(s.pc.job.settings)
          && s.execs[|s.execs| - 1].at + HoldTime(s.pc.job.settings) <= s.pc.deadline)
    && (s.pc.InCall? ==> s.execs != [])
    && (s.pc.Calling? && s.execs != [] && s.execs[|s.execs| - 1].pick == |s.picks| - 1 ==>
          s.now >= s.execs[|s.execs| - 1].at + HoldTime(s.pc.job.settings))
  }

  lemma TimeCall(s: System, s': System)
    requires TimeInv(s) && WorkerInv(s.ctl.dispatching, s.pc, s.picks, s.execs) && Next(s, Call, s')
    ensures TimeInv(s')
  {
    hide HoldTime;
    forall k | 0 <= k < |s'.execs| ensures Spaced(s'.execs, s'.picks, k) {
      if k < |s.execs| { assert Spaced(s.execs, s.picks, k); }
    }
  }

  lemma TimePick(s: System, l: Label, s': System)
    requires TimeInv(s) && WorkerInv(s.ctl.dispatching, s.pc, s.picks, s.execs) && Next(s, l, s')
    requires l.Enter? || l.FloorWake?
    ensures TimeInv(s')
  {
    hide HoldTime;
    if s.execs != [] { assert Link(s.execs, s.picks, |s.execs| - 1); }
    forall k | 0 <= k < |s'.execs| ensures Spaced(s'.execs, s'.picks, k) {
      assert Spaced(s.execs, s.picks, k);
    }
  }

  lemma TimeOther(s: System, l: Label, s': System)
    requires TimeInv(s) && WorkerInv(s.ctl.dispatching, s.pc, s.picks, s.execs) && Next(s, l, s')
    requires !l.Call? && !l.Enter? && !l.FloorWake?
    ensures TimeInv(s')
  {
    hide FloorBlocks, Idle, HoldEnds, Refires;
    assert s'.execs == s.execs && s'.picks == s.picks && s'.now >= s.now;
    assert forall k :: 0 <= k < |s'.execs| ==> Spaced(s'.execs, s'.picks, k);
  }

  lemma {:induction false} RunTimes(r: Run, i: nat)
    requires IsRun(r) && i < |r.states|
    ensures TimeInv(r.states[i])
  {
    hide Init, Next, TimeInv;
    if i == 0 {
      TimesStart(r.states[0]);
    } else {
      RunTimes(r, i - 1);
      TimeStep(r, i - 1);
    }
  }

  lemma TimesStart(s: System)
    requires Init(s)
    ensures TimeInv(s)
  {
  }

  lemma TimeStep(r: Run, i: nat)
    requires IsRun(r) && i < |r.labels| && TimeInv(r.states[i])
    ensures TimeInv(r.states[i + 1])
  {
    hide Init, Next, TimeInv, WorkerInv;
    var s, l, s' := r.states[i], r.labels[i], r.states[i + 1];
    assert Next(s, l, s');
    assert WorkerInv(s.ctl.dispatching, s.pc, s.picks, s.execs) by { RunInv(r, i); }
    if l.Call? {
      TimeCall(s, s');
    } else if l.Enter? || l.FloorWake? {
      TimePick(s, l, s');
    } else {
      TimeOther(s, l, s');
    }
  }

  /** Two calls that carry out the same pick are at least the move timeout apart; and while the move is held
      its deadline is that long after the call, and never further ahead than that. */
  lemma RepeatsSpaced(r: Run, i: nat)
    requires IsRun(r) && i < |r.states|
    ensures var s := r.states[i];
            && (forall k :: 0 < k < |s.execs| && s.execs[k].pick == s.execs[k - 1].pick ==>
                  && s.execs[k].pick < |s.picks|
                  && s.execs[k].at >= s.execs[k - 1].at
                                      + s.picks[s.execs[k].pick].settings.moveTimeoutSeconds * 1_000_000_000)
            && (s.pc.Holding? ==>
                  var hold := s.pc.job.settings.moveTimeoutSeconds * 1_000_000_000;
                  && s.execs != []
                  && s.execs[|s.execs| - 1].at + hold <= s.pc.deadline <= s.now + hold)
  {
    RunTimes(r, i);
    var s := r.states[i];
    forall k | 0 < k < |s.execs| && s.execs[k].pick == s.execs[k - 1].pick
      ensures s.execs[k].pick < |s.picks|
              && s.execs[k].at >= s.execs[k - 1].at
                                  + s.picks[s.execs[k].pick].settings.moveTimeoutSeconds * 1_000_000_000
    {
      assert Spaced(s.execs, s.picks, k);
    }
  }

  /** Once its deadline is reached, a held move can be called again at once exactly when it is still current. */
  lemma RepeatsOnTime(s: System)
    requires s.pc.Holding?
    ensures (exists s' :: Next(s, HoldTimeout, s') && s'.pc == Calling(s.pc.job))
        <==> s.now >= s.pc.deadline && Refires(s.ctl, s.pc.job.cam, s.pc.job.cmd)
  {
    RecheckRedundant(s.ctl, s.pc.job.cam, s.pc.job.cmd);
    if s.now >= s.pc.deadline && Refires(s.ctl, s.pc.job.cam, s.pc.job.cmd) {
      assert Next(s, HoldTimeout, s.(pc := Calling(s.pc.job)));
    }
  }
}
