/** Runs of calls to the apply policy, and where each captured incident goes. */
module ApplyRuns {
  import opened ApplyModel
  import opened ApplyPolicies

  /** How an incident came to its end. */
  datatype End = AppliedByUser | DroppedByUser | AppliedOnIdle | OverwrittenByPrompt | OverwrittenByDefer

  datatype Fate = Fate(tag: nat, end: End)

  /** The policy and the output count, with the history of captured incidents: each capture gets a
      tag, its position in `incidents`; `fates` records the ends in order. */
  datatype History = History(policy: Policy, outputs: int, incidents: seq<Incident>,
                             pendingTag: Option<nat>, deferredTag: Option<nat>, fates: seq<Fate>)

  datatype Call =
    | CameraMoved(inc: Incident)
    | SetOutputActive(active: bool)
    | ApplyPending
    | IgnorePending(remember: bool)
    | DeferPending
    | PromptTimeout
    | SetDefaultPolicy(choice: PolicyChoice)
    | SetCameraPolicy(camera: string, choice: PolicyChoice, remember: bool)
    | TrackSourceUrl(source: string, url: string)
    | TrackMappings(mappings: seq<SourceMapping>)
    | ForgetSource(source: string)

  const START := History(Policy(Ask, map[], map[], [], None, None), 0, [], None, None, [])

  function Ends(tag: Option<nat>, end: End): seq<Fate> {
    if tag.Some? then [Fate(tag.value, end)] else []
  }

  /** What a call does to the policy, and the rewrites it has carried out. */
  function Outcome(h: History, call: Call): Result {
    match call
    case CameraMoved(inc) => OnIpChange(h.policy, inc, h.outputs != 0)
    case SetOutputActive(active) =>
      if CountAfter(h.outputs, active) != 0 then Result(h.policy, Ignored, [])
      else OnOutputsIdle(h.policy, [])
    case ApplyPending => ApplyModel.ApplyPending(h.policy, [])
    case IgnorePending(remember) => Result(AfterIgnorePending(h.policy, remember), Ignored, [])
    case DeferPending => Result(AfterDeferPending(h.policy), Deferred, [])
    case PromptTimeout => Result(AfterDeferPending(h.policy), Deferred, [])
    case SetDefaultPolicy(choice) => Result(h.policy.(defaultPolicy := choice), Ignored, [])
    case SetCameraPolicy(camera, choice, remember) =>
      Result(AfterSetCameraPolicy(h.policy, camera, choice, remember), Ignored, [])
    case TrackSourceUrl(source, url) =>
      Result(h.policy.(sourceUrls := h.policy.sourceUrls[source := url]), Ignored, [])
    case TrackMappings(mappings) => Result(h.policy.(mappings := mappings), Ignored, [])
    case ForgetSource(source) =>
      Result(h.policy.(sourceUrls := h.policy.sourceUrls - {source},
                       mappings := Without(h.policy.mappings, source)), Ignored, [])
  }

  /** The history after a call: the tags follow what the call is for, not what it did to the policy. */
  function After(h: History, call: Call): History {
    var r := Outcome(h, call);
    var g := h.(policy := r.policy);
    match call
    case CameraMoved(inc) =>
      if !r.decision.Prompted? then g
      else g.(incidents := h.incidents + [inc], pendingTag := Some(|h.incidents|),
              fates := h.fates + Ends(h.pendingTag, OverwrittenByPrompt))
    case SetOutputActive(active) =>
      var n := CountAfter(h.outputs, active);
      if n != 0 then g.(outputs := n)
      else g.(outputs := n, deferredTag := None, fates := h.fates + Ends(h.deferredTag, AppliedOnIdle))
    case ApplyPending => g.(pendingTag := None, fates := h.fates + Ends(h.pendingTag, AppliedByUser))
    case IgnorePending(_) => g.(pendingTag := None, fates := h.fates + Ends(h.pendingTag, DroppedByUser))
    case DeferPending => Defer(h, g)
    case PromptTimeout => Defer(h, g)
    case _ => g
  }

  function Defer(h: History, g: History): History {
    if h.pendingTag.None? then g
    else g.(pendingTag := None, deferredTag := h.pendingTag,
            fates := h.fates + Ends(h.deferredTag, OverwrittenByDefer))
  }

  /** The history after a run of calls. */
  function Run(calls: seq<Call>): History {
    if calls == [] then START else After(Run(calls[..|calls| - 1]), calls[|calls| - 1])
  }

  function CountFates(fates: seq<Fate>, tag: nat): nat {
    if fates == [] then 0
    else CountFates(fates[..|fates| - 1], tag) + (if fates[|fates| - 1].tag == tag then 1 else 0)
  }

  /** In how many places an incident is: pending, deferred, or at an end. */
  function Places(h: History, tag: nat): nat {
    CountFates(h.fates, tag) + (if h.pendingTag == Some(tag) then 1 else 0)
    + (if h.deferredTag == Some(tag) then 1 else 0)
  }

  /** A held tag names the very incident the policy holds. */
  ghost predicate Holds(h: History, tag: Option<nat>, held: Option<Incident>) {
    && (tag.Some? <==> held.Some?)
    && (tag.Some? ==> tag.value < |h.incidents| && held.value == h.incidents[tag.value])
  }

  ghost predicate Inv(h: History) {
    && Holds(h, h.pendingTag, h.policy.pending)
    && Holds(h, h.deferredTag, h.policy.deferred)
    && h.outputs >= 0
    && forall tag: nat :: Places(h, tag) == if tag < |h.incidents| then 1 else 0
  }

  lemma CountEnds(fates: seq<Fate>, tag: Option<nat>, end: End, t: nat)
    ensures CountFates(fates + Ends(tag, end), t) == CountFates(fates, t) + (if tag == Some(t) then 1 else 0)
  {
    if tag.Some? {
      assert (fates + Ends(tag, end))[..|fates|] == fates;
    } else {
      assert fates + Ends(tag, end) == fates;
    }
  }

  /** A call moves tags between places but neither loses nor doubles one. */
  lemma AfterPlaces(h: History, call: Call, tag: nat)
    ensures Places(After(h, call), tag)
         == Places(h, tag) + (if tag == |h.incidents| && |After(h, call).incidents| > tag then 1 else 0)
  {
    hide RewritesOf, PolicyFor, AfterSetCameraPolicy, Without, Ends, CountFates;
    match call
    case CameraMoved(_) => CountEnds(h.fates, h.pendingTag, OverwrittenByPrompt, tag);
    case SetOutputActive(_) => CountEnds(h.fates, h.deferredTag, AppliedOnIdle, tag);
    case ApplyPending => CountEnds(h.fates, h.pendingTag, AppliedByUser, tag);
    case IgnorePending(_) => CountEnds(h.fates, h.pendingTag, DroppedByUser, tag);
    case DeferPending => CountEnds(h.fates, h.deferredTag, OverwrittenByDefer, tag);
    case PromptTimeout => CountEnds(h.fates, h.deferredTag, OverwrittenByDefer, tag);
    case _ =>
  }

  lemma AfterHolds(h: History, call: Call)
    requires Holds(h, h.pendingTag, h.policy.pending) && Holds(h, h.deferredTag, h.policy.deferred)
    requires h.outputs >= 0
    ensures var g := After(h, call);
            Holds(g, g.pendingTag, g.policy.pending) && Holds(g, g.deferredTag, g.policy.deferred) && g.outputs >= 0
  {
    hide RewritesOf, PolicyFor, Without, Ends, AfterSetCameraPolicy;
    match call
    case CameraMoved(_) =>
    case SetOutputActive(_) =>
    case _ => AfterHoldsOther(h, call);
  }

  lemma AfterHoldsOther(h: History, call: Call)
    requires Holds(h, h.pendingTag, h.policy.pending) && Holds(h, h.deferredTag, h.policy.deferred)
    requires !call.CameraMoved? && !call.SetOutputActive?
    ensures var g := After(h, call);
            && Holds(g, g.pendingTag, g.policy.pending) && Holds(g, g.deferredTag, g.policy.deferred)
            && g.outputs == h.outputs
  {
    hide RewritesOf, PolicyFor, Without, Ends;
  }

  lemma AfterInv(h: History, call: Call)
    requires Inv(h)
    ensures Inv(After(h, call))
  {
    AfterHolds(h, call);
    hide After;
    var g := After(h, call);
    assert |h.incidents| <= |g.incidents| <= |h.incidents| + 1 by { AfterGrows(h, call); }
    forall tag: nat ensures Places(g, tag) == if tag < |g.incidents| then 1 else 0 {
      AfterPlaces(h, call, tag);
      assert Places(h, tag) == if tag < |h.incidents| then 1 else 0;
    }
  }

  lemma AfterGrows(h: History, call: Call)
    ensures h.incidents <= After(h, call).incidents && h.fates <= After(h, call).fates
    ensures |After(h, call).incidents| <= |h.incidents| + 1
  {
    hide RewritesOf, PolicyFor, Without;
  }

  lemma {:induction false} RunInv(calls: seq<Call>)
    ensures Inv(Run(calls))
  {
    if calls != [] {
      RunInv(calls[..|calls| - 1]);
      AfterInv(Run(calls[..|calls| - 1]), calls[|calls| - 1]);
    }
  }

  /** Over every run each captured incident is in exactly one place: pending, deferred, or at one end;
      and what is pending or deferred is the incident as it was captured. */
  lemma Accounted(calls: seq<Call>, tag: nat)
    requires tag < |Run(calls).incidents|
    ensures var h := Run(calls);
            && Places(h, tag) == 1
            && (h.pendingTag == Some(tag) ==> h.policy.pending == Some(h.incidents[tag]))
            && (h.deferredTag == Some(tag) ==> h.policy.deferred == Some(h.incidents[tag]))
            && (h.policy.pending.None? && h.policy.deferred.None? ==> CountFates(h.fates, tag) == 1)
  {
    RunInv(calls);
  }

  /** Ends are final and captures are kept: later calls only add to both. */
  lemma {:induction false} HistoryGrows(calls: seq<Call>, n: nat)
    requires n <= |calls|
    ensures Run(calls[..n]).fates <= Run(calls).fates && Run(calls[..n]).incidents <= Run(calls).incidents
  {
    hide After;
    if n < |calls| {
      var front := calls[..|calls| - 1];
      HistoryGrows(front, n);
      AfterGrows(Run(front), calls[|calls| - 1]);
      assert front[..n] == calls[..n];
    } else {
      assert calls[..n] == calls;
    }
  }

  /** What consuming an incident carries out: its rewrites over the mappings of that moment. */
  lemma ConsumedRewrites(calls: seq<Call>, call: Call)
    ensures Run(calls).pendingTag.Some? ==> Run(calls).pendingTag.value < |Run(calls).incidents|
    ensures Run(calls).deferredTag.Some? ==> Run(calls).deferredTag.value < |Run(calls).incidents|
    ensures var h := Run(calls);
            && (call.ApplyPending? && h.pendingTag.Some? ==>
                  && Outcome(h, call).rewrites == RewritesOf(h.policy, h.incidents[h.pendingTag.value])
                  && After(h, call).fates == h.fates + [Fate(h.pendingTag.value, AppliedByUser)])
            && (call.SetOutputActive? && CountAfter(h.outputs, call.active) == 0 && h.deferredTag.Some? ==>
                  && Outcome(h, call).rewrites == RewritesOf(h.policy, h.incidents[h.deferredTag.value])
                  && After(h, call).fates == h.fates + [Fate(h.deferredTag.value, AppliedOnIdle)])
  {
    RunInv(calls);
  }

  /** The live-output promise: while an output is active sources are rewritten only at the user's
      word, by Apply on a prompt or by the policy Always; and prompts come only while one is active. */
  lemma LiveOutputsUntouched(calls: seq<Call>, call: Call)
    ensures var h, r := Run(calls), Outcome(Run(calls), call);
            && (r.rewrites != [] && After(h, call).outputs != 0 ==>
                  call.ApplyPending? || (call.CameraMoved? && PolicyFor(h.policy, call.inc.cameraId).Always?))
            && (call.CameraMoved? && r.decision.Prompted? ==>
                  h.outputs > 0 && PolicyFor(h.policy, call.inc.cameraId).Ask? && r.rewrites == [])
            && (call.CameraMoved? && PolicyFor(h.policy, call.inc.cameraId).Ignore? ==>
                  r.rewrites == [] && After(h, call) == h)
  {
    RunInv(calls);
  }

  /** `camera` is ignored by a choice of its own. */
  predicate IsIgnored(p: Policy, camera: string) {
    camera in p.cameraPolicy && p.cameraPolicy[camera].Ignore?
  }

  lemma KeepsIgnored(h: History, call: Call, camera: string)
    requires IsIgnored(h.policy, camera) && !(call.SetCameraPolicy? && call.camera == camera)
    ensures IsIgnored(After(h, call).policy, camera)
  {
    hide RewritesOf, Without, Ends, PolicyFor;
  }

  lemma BecomesIgnored(h: History, inc: Incident)
    requires h.policy.pending == Some(inc)
    ensures IsIgnored(After(h, IgnorePending(true)).policy, inc.cameraId)
  {
  }

  lemma {:induction false} StaysIgnored(calls: seq<Call>, n: nat, m: nat, inc: Incident)
    requires n < m <= |calls| && calls[n] == IgnorePending(true) && Run(calls[..n]).policy.pending == Some(inc)
    requires forall k :: n < k < m ==> !(calls[k].SetCameraPolicy? && calls[k].camera == inc.cameraId)
    ensures IsIgnored(Run(calls[..m]).policy, inc.cameraId)
  {
    hide After, IsIgnored;
    assert calls[..m][..m - 1] == calls[..m - 1];
    if m > n + 1 {
      StaysIgnored(calls, n, m - 1, inc);
      KeepsIgnored(Run(calls[..m - 1]), calls[m - 1], inc.cameraId);
    } else {
      BecomesIgnored(Run(calls[..n]), inc);
    }
  }

  /** Once the user chose to ignore a camera for good, no later move of it does anything at all, for as
      long as nobody sets that camera's policy. */
  lemma IgnoredForGood(calls: seq<Call>, n: nat, m: nat, inc: Incident)
    requires n < m < |calls| && calls[n] == IgnorePending(true) && Run(calls[..n]).policy.pending == Some(inc)
    requires forall k :: n < k < m ==> !(calls[k].SetCameraPolicy? && calls[k].camera == inc.cameraId)
    requires calls[m].CameraMoved? && calls[m].inc.cameraId == inc.cameraId
    ensures Run(calls[..m + 1]) == Run(calls[..m])
    ensures Outcome(Run(calls[..m]), calls[m]).rewrites == []
  {
    StaysIgnored(calls, n, m, inc);
    assert calls[..m + 1][..m] == calls[..m];
  }

  // ---- what a move of a camera leads to ----

  /** In every run, what a move of a camera leads to, by the camera's own policy or else the default:
      nothing if that is Ignore; a prompt, which makes the incident pending, if it is Ask and an output is
      active; and otherwise the rewrites at once. Each of these only if the camera has an auto-apply mapping. */
  lemma MoveHandled(calls: seq<Call>, inc: Incident)
    ensures var h := Run(calls);
            var r := Outcome(h, CameraMoved(inc));
            var choice := if inc.cameraId in h.policy.cameraPolicy then h.policy.cameraPolicy[inc.cameraId]
                          else h.policy.defaultPolicy;
            var some := exists m :: m in h.policy.mappings && m.cameraId == inc.cameraId && m.autoApply;
            && (choice.Ignore? ==> r.policy == h.policy && r.decision.Ignored? && r.rewrites == [])
            && (!choice.Ignore? && (h.outputs == 0 || choice.Always?) ==>
                  && r.policy == h.policy
                  && r.rewrites == Rewrites(h.policy.mappings, h.policy.sourceUrls, inc)
                  && (r.rewrites != [] <==> some)
                  && r.decision == if some then AppliedNow else Ignored)
            && (choice.Ask? && h.outputs != 0 ==>
                  && r.rewrites == []
                  && r.decision == (if some then Prompted else Ignored)
                  && r.policy == if some then h.policy.(pending := Some(inc)) else h.policy)
  {
    var p := Run(calls).policy;
    RewritesExist(p.mappings, p.sourceUrls, inc);
    hide Rewrites, Run;
  }

  /** Each decision says whether rewrites were carried out or an incident became pending or deferred. */
  lemma Decisions(calls: seq<Call>, call: Call)
    ensures var r := Outcome(Run(calls), call);
            && (r.decision.AppliedNow? <==> r.rewrites != [])
            && (r.decision.Prompted? ==> call.CameraMoved? && r.policy.pending == Some(call.inc))
            && (r.decision.Deferred? ==> call.DeferPending? || call.PromptTimeout?)
  {
    hide Rewrites, Run;
  }

  // ---- what the policy knows ----

  /** What a call does to a camera's choice: the default follows the last default set, a choice of the
      camera's own follows the last one remembered, and is gone when it is not to be remembered; ignoring a
      prompt sets it to Ignore for the prompt's camera, if it is to be remembered. */
  lemma ChoiceStep(h: History, call: Call, camera: string)
    ensures var p, q := h.policy, After(h, call).policy;
            var own := camera in p.cameraPolicy;
            if call.SetCameraPolicy? && call.camera == camera then
              if call.remember then camera in q.cameraPolicy && q.cameraPolicy[camera] == call.choice
              else camera !in q.cameraPolicy
            else if call == IgnorePending(true) && p.pending.Some? && p.pending.value.cameraId == camera then
              camera in q.cameraPolicy && q.cameraPolicy[camera] == Ignore
            else
              (camera in q.cameraPolicy <==> own) && (own ==> q.cameraPolicy[camera] == p.cameraPolicy[camera])
    ensures After(h, call).policy.defaultPolicy
         == if call.SetDefaultPolicy? then call.choice else h.policy.defaultPolicy
    ensures PolicyFor(h.policy, camera)
         == if camera in h.policy.cameraPolicy then h.policy.cameraPolicy[camera] else h.policy.defaultPolicy
  {
    hide Rewrites;
  }

  /** What a call does to the tracked URLs and mappings. */
  lemma TrackingStep(h: History, call: Call)
    ensures After(h, call).policy.sourceUrls
         == match call
            case TrackSourceUrl(source, url) => h.policy.sourceUrls[source := url]
            case ForgetSource(source) => h.policy.sourceUrls - {source}
            case _ => h.policy.sourceUrls
    ensures After(h, call).policy.mappings
         == match call
            case TrackMappings(mappings) => mappings
            case ForgetSource(source) => Without(h.policy.mappings, source)
            case _ => h.policy.mappings
  {
    hide Rewrites, Without;
  }

  // ---- the count of active outputs ----

  /** Starts less stops among some calls. */
  function Net(calls: seq<Call>): int {
    if calls == [] then 0
    else Net(calls[..|calls| - 1]) + Change(calls[|calls| - 1])
  }

  function Change(call: Call): int {
    if !call.SetOutputActive? then 0 else if call.active then 1 else -1
  }

  lemma NetSnoc(calls: seq<Call>, k: nat)
    requires k < |calls|
    ensures Net(calls[k..]) == Net(calls[..|calls| - 1][k..]) + Change(calls[|calls| - 1])
  {
    assert calls[k..][..|calls[k..]| - 1] == calls[..|calls| - 1][k..];
  }

  lemma OutputsStep(h: History, call: Call)
    requires h.outputs >= 0
    ensures After(h, call).outputs
         == if !call.SetOutputActive? then h.outputs
            else if call.active then h.outputs + 1
            else if h.outputs > 0 then h.outputs - 1 else 0
  {
    hide Rewrites;
  }

  /** The count is the number of starts not matched by a later stop: the most by which starts outnumber
      stops from some point of the run on. So it is zero exactly when every start was matched. */
  lemma {:induction false} OutputsUnmatched(calls: seq<Call>) returns (k: nat)
    ensures forall j :: 0 <= j <= |calls| ==> Net(calls[j..]) <= Run(calls).outputs
    ensures k <= |calls| && Net(calls[k..]) == Run(calls).outputs
  {
    hide After;
    if calls == [] {
      k := 0;
    } else {
      var n := |calls| - 1;
      var front, last := calls[..n], calls[n];
      k := OutputsUnmatched(front);
      RunInv(front);
      OutputsStep(Run(front), last);
      assert calls[|calls|..] == [] && front[n..] == [];
      forall j | 0 <= j <= |calls| ensures Net(calls[j..]) <= Run(calls).outputs {
        if j <= n { NetSnoc(calls, j); }
      }
      if last.SetOutputActive? && !last.active && Run(front).outputs == 0 {
        k := |calls|;
      } else {
        NetSnoc(calls, k);
      }
    }
  }
}
