/** The calls the callers made, as a run's labels have them, against the submissions that were logged. */
module PtzLabels {
  import opened PtzModel
  import opened PtzSystem
  import opened PtzInvariants

  /** The last call of Move or Stop for a camera, or -1. */
  function LastFor(labels: seq<Label>, cam: CameraId): (k: int)
    ensures -1 <= k < |labels|
    ensures k >= 0 ==> labels[k].IsSubmission() && labels[k].id == cam
    ensures forall j :: k < j < |labels| ==> !(labels[j].IsSubmission() && labels[j].id == cam)
  {
    if labels == [] then -1
    else
      var n := |labels| - 1;
      if labels[n].IsSubmission() && labels[n].id == cam then n else LastFor(labels[..n], cam)
  }

  /** A Move logs a move with the caller's own velocities and the timeout of the moment, a Stop a stop, and
      nothing else logs anything. */
  lemma SubmissionIs(s: System, l: Label, t: System)
    requires Next(s, l, t)
    ensures l.Move? ==>
              var cmd := Command(l.pan, l.tilt, l.zoom, false, s.ctl.settings.moveTimeoutSeconds);
              t.subs == s.subs + [MoveSub(l.id, cmd)]
    ensures l.Stop? ==> t.subs == s.subs + [StopSub(l.id)]
    ensures !l.IsSubmission() ==> t.subs == s.subs
  {
  }

  lemma {:induction false} SubsGrow(r: Run, i: nat, j: nat)
    requires IsRun(r) && i <= j < |r.states|
    ensures r.states[i].subs <= r.states[j].subs
  {
    hide Next, Init;
    if i < j {
      SubsGrow(r, i, j - 1);
      SubmissionIs(r.states[j - 1], r.labels[j - 1], r.states[j]);
    }
  }

  lemma LastForAppend(labels: seq<Label>, l: Label, cam: CameraId)
    ensures LastFor(labels + [l], cam)
         == if l.IsSubmission() && l.id == cam then |labels| else LastFor(labels, cam)
  {
    assert (labels + [l])[..|labels|] == labels;
  }

  lemma StartsEmpty(r: Run)
    requires IsRun(r)
    ensures r.states[0].subs == [] && r.states[0].picks == []
  {
  }

  /** The newest submission for a camera is the one its last call logged. */
  lemma {:induction false} NewestIsLast(r: Run, i: nat, cam: CameraId)
    requires IsRun(r) && i < |r.states|
    ensures var k, n := LastFor(r.labels[..i], cam), Newest(r.states[i].subs, cam);
            && (k < 0 <==> n < 0)
            && (k >= 0 ==> |r.states[k].subs| == n < |r.states[k + 1].subs|
                           && r.states[i].subs[n] == r.states[k + 1].subs[n])
  {
    hide Next, Init, LastFor, Newest;
    StartsEmpty(r);
    if i > 0 {
      NewestIsLast(r, i - 1, cam);
      var s, l, t := r.states[i - 1], r.labels[i - 1], r.states[i];
      assert Next(s, l, t);
      SubmissionIs(s, l, t);
      assert r.labels[..i] == r.labels[..i - 1] + [l];
      LastForAppend(r.labels[..i - 1], l, cam);
      if l.IsSubmission() {
        assert t.subs == s.subs + [t.subs[|s.subs|]];
        NewestAppend(s.subs, t.subs[|s.subs|], cam);
      }
    }
  }

  /** A newest submission made since state `q` was made by a call since then. */
  lemma LaterCall(r: Run, q: nat, m: nat, cam: CameraId)
    requires IsRun(r) && q < m < |r.states| && |r.states[q].subs| <= Newest(r.states[m].subs, cam)
    ensures LastFor(r.labels[..q], cam) < LastFor(r.labels[..m], cam)
  {
    hide Next, Init;
    NewestIsLast(r, m, cam);
    var k := LastFor(r.labels[..m], cam);
    if k < q { SubsGrow(r, k + 1, q); }
  }

  /** So what it holds is what the last caller asked for. */
  lemma NewestCarries(r: Run, i: nat, cam: CameraId)
    requires IsRun(r) && i < |r.states|
    ensures var k, n := LastFor(r.labels[..i], cam), Newest(r.states[i].subs, cam);
            && (k < 0 <==> n < 0)
            && (k >= 0 ==>
                  var l, sub := r.labels[k], r.states[i].subs[n];
                  && |r.states[k].subs| == n
                  && (l.Move? ==>
                        sub == MoveSub(cam, Command(l.pan, l.tilt, l.zoom, false,
                                                    r.states[k].ctl.settings.moveTimeoutSeconds)))
                  && (l.Stop? ==> sub == StopSub(cam)))
  {
    NewestIsLast(r, i, cam);
    var k := LastFor(r.labels[..i], cam);
    if k >= 0 {
      assert Next(r.states[k], r.labels[k], r.states[k + 1]);
      hide Next;
      SubmissionIs(r.states[k], r.labels[k], r.states[k + 1]);
    }
  }
}
