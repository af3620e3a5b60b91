/** The live-output apply policy as values: what each transition does to the policy and what it gives. */
module ApplyModel {
  import opened UrlRewrite

  datatype Option<T> = None | Some(value: T)

  datatype PolicyChoice = Ask | Always | Ignore

  datatype Decision = AppliedNow | Prompted | Deferred | Ignored

  datatype SourceMapping = SourceMapping(collectionUuid: string, sourceName: string, cameraId: string,
                                         profileToken: string, autoApply: bool)

  datatype SourceRewrite = SourceRewrite(mapping: SourceMapping, oldUrl: string, newUrl: string, cameraId: string)

  datatype Incident = Incident(cameraId: string, newStreamUri: string, credentials: string)

  datatype Policy = Policy(defaultPolicy: PolicyChoice, cameraPolicy: map<string, PolicyChoice>,
                           sourceUrls: map<string, string>, mappings: seq<SourceMapping>,
                           pending: Option<Incident>, deferred: Option<Incident>)

  function PolicyFor(p: Policy, camera: string): PolicyChoice {
    if camera in p.cameraPolicy then p.cameraPolicy[camera] else p.defaultPolicy
  }

  function AfterSetCameraPolicy(p: Policy, camera: string, choice: PolicyChoice, remember: bool): Policy {
    if remember then p.(cameraPolicy := p.cameraPolicy[camera := choice])
    else p.(cameraPolicy := p.cameraPolicy - {camera})
  }

  function Without(mappings: seq<SourceMapping>, source: string): seq<SourceMapping> {
    if mappings == [] then []
    else
      var front, m := Without(mappings[..|mappings| - 1], source), mappings[|mappings| - 1];
      if m.sourceName == source then front else front + [m]
  }

  predicate Applies(m: SourceMapping, inc: Incident) {
    m.cameraId == inc.cameraId && m.autoApply
  }

  function RewriteFor(m: SourceMapping, urls: map<string, string>, inc: Incident): SourceRewrite {
    var oldUrl := if m.sourceName in urls then urls[m.sourceName] else "";
    SourceRewrite(m, oldUrl, RewriteSourceUrl(oldUrl, inc.newStreamUri, inc.credentials), m.cameraId)
  }

  /** The rewrites an incident produces, over the mappings in order. */
  function Rewrites(mappings: seq<SourceMapping>, urls: map<string, string>, inc: Incident): seq<SourceRewrite> {
    if mappings == [] then []
    else
      var front, m := Rewrites(mappings[..|mappings| - 1], urls, inc), mappings[|mappings| - 1];
      if Applies(m, inc) then front + [RewriteFor(m, urls, inc)] else front
  }

  function RewritesOf(p: Policy, inc: Incident): seq<SourceRewrite> {
    Rewrites(p.mappings, p.sourceUrls, inc)
  }

  /** What a transition leaves: the policy, the decision and the caller's list of rewrites. */
  datatype Result = Result(policy: Policy, decision: Decision, rewrites: seq<SourceRewrite>)

  function OnIpChange(p: Policy, inc: Incident, outputActive: bool): Result {
    if PolicyFor(p, inc.cameraId).Ignore? then Result(p, Ignored, [])
    else if outputActive && PolicyFor(p, inc.cameraId).Ask? then
      if RewritesOf(p, inc) == [] then Result(p, Ignored, [])
      else Result(p.(pending := Some(inc)), Prompted, [])
    else
      Result(p, if RewritesOf(p, inc) == [] then Ignored else AppliedNow, RewritesOf(p, inc))
  }

  /** With nothing pending the caller's list keeps what it held. */
  function ApplyPending(p: Policy, list: seq<SourceRewrite>): Result {
    if p.pending.None? then Result(p, Ignored, list)
    else
      var r := RewritesOf(p, p.pending.value);
      Result(p.(pending := None), if r == [] then Ignored else AppliedNow, r)
  }

  function AfterIgnorePending(p: Policy, remember: bool): Policy {
    var q := if p.pending.Some? && remember
             then AfterSetCameraPolicy(p, p.pending.value.cameraId, Ignore, true) else p;
    q.(pending := None)
  }

  function AfterDeferPending(p: Policy): Policy {
    if p.pending.Some? then p.(deferred := p.pending, pending := None) else p
  }

  /** The decision stands for the boolean result: an incident was applied or not. */
  function OnOutputsIdle(p: Policy, list: seq<SourceRewrite>): Result {
    if p.deferred.None? then Result(p, Ignored, list)
    else
      var r := RewritesOf(p, p.deferred.value);
      Result(p.(deferred := None), if r == [] then Ignored else AppliedNow, if r == [] then list else r)
  }

  /** The caller's list is replaced by an incident's rewrites when there is one to consume, except that an
      incident consumed on idle without anything to rewrite leaves the list alone. */
  lemma ListsKept(p: Policy, list: seq<SourceRewrite>)
    ensures var r := ApplyPending(p, list);
            && (p.pending.None? ==> r.rewrites == list && r.policy == p)
            && (p.pending.Some? ==>
                  r.rewrites == Rewrites(p.mappings, p.sourceUrls, p.pending.value) && r.policy.pending.None?)
    ensures var r := OnOutputsIdle(p, list);
            && (p.deferred.None? || Rewrites(p.mappings, p.sourceUrls, p.deferred.value) == [] ==>
                  r.rewrites == list && r.decision.Ignored?)
            && (p.deferred.Some? && Rewrites(p.mappings, p.sourceUrls, p.deferred.value) != [] ==>
                  r.rewrites == Rewrites(p.mappings, p.sourceUrls, p.deferred.value) && r.decision.AppliedNow?)
            && r.policy.deferred.None?
  {
    hide Rewrites;
  }

  // ---- what the list of rewrites is ----

  /** The positions of the mappings an incident applies to, in increasing order. */
  function Positions(mappings: seq<SourceMapping>, inc: Incident): seq<nat> {
    if mappings == [] then []
    else
      var n := |mappings| - 1;
      var front := Positions(mappings[..n], inc);
      if Applies(mappings[n], inc) then front + [n] else front
  }

  ghost predicate ArePositions(ps: seq<nat>, mappings: seq<SourceMapping>, inc: Incident) {
    && (forall p :: p in ps ==> p < |mappings| && Applies(mappings[p], inc))
    && (forall i, j :: 0 <= i < j < |ps| ==> ps[i] < ps[j])
    && (forall k :: 0 <= k < |mappings| && Applies(mappings[k], inc) ==> k in ps)
  }

  lemma {:induction false} PositionsAre(mappings: seq<SourceMapping>, inc: Incident)
    ensures ArePositions(Positions(mappings, inc), mappings, inc)
  {
    if mappings != [] {
      var n := |mappings| - 1;
      var front, ps := Positions(mappings[..n], inc), Positions(mappings, inc);
      PositionsAre(mappings[..n], inc);
      forall p | p in front ensures p < n && Applies(mappings[p], inc) {
        assert mappings[..n][p] == mappings[p];
      }
      forall i | 0 <= i < |front| ensures front[i] < n {
        assert front[i] in front;
      }
      forall k | 0 <= k < |mappings| && Applies(mappings[k], inc) ensures k in ps {
        if k < n {
          assert mappings[..n][k] == mappings[k];
        } else {
          assert ps == front + [n];
        }
      }
    }
  }

  /** The list is the order-preserving image of exactly the camera's auto-apply mappings; each entry holds
      the mapping, the source's tracked URL if there is one, and that URL's rewrite to the new stream. */
  lemma {:induction false} RewritesImage(mappings: seq<SourceMapping>, urls: map<string, string>, inc: Incident)
    ensures var rs, ps := Rewrites(mappings, urls, inc), Positions(mappings, inc);
            && (forall p: nat :: p in ps <==>
                  p < |mappings| && mappings[p].cameraId == inc.cameraId && mappings[p].autoApply)
            && (forall i, j :: 0 <= i < j < |ps| ==> ps[i] < ps[j])
            && |rs| == |ps|
            && forall i :: 0 <= i < |rs| ==>
                 && ps[i] in ps
                 && rs[i].mapping == mappings[ps[i]] && rs[i].cameraId == inc.cameraId
                 && rs[i].oldUrl == (if rs[i].mapping.sourceName in urls then urls[rs[i].mapping.sourceName] else "")
                 && rs[i].newUrl == RewriteSourceUrl(rs[i].oldUrl, inc.newStreamUri, inc.credentials)
  {
    PositionsAre(mappings, inc);
    ImageOf(mappings, urls, inc);
    hide Rewrites, Positions;
  }

  lemma {:induction false} ImageOf(mappings: seq<SourceMapping>, urls: map<string, string>, inc: Incident)
    ensures var rs, ps := Rewrites(mappings, urls, inc), Positions(mappings, inc);
            && ArePositions(ps, mappings, inc) && |rs| == |ps|
            && forall i :: 0 <= i < |rs| ==>
                 ps[i] in ps && rs[i] == RewriteFor(mappings[ps[i]], urls, inc)
  {
    hide RewriteFor;
    PositionsAre(mappings, inc);
    if mappings != [] {
      var n := |mappings| - 1;
      ImageOf(mappings[..n], urls, inc);
      PositionsAre(mappings[..n], inc);
      var ps := Positions(mappings[..n], inc);
      forall i | 0 <= i < |ps| ensures ps[i] < n && mappings[..n][ps[i]] == mappings[ps[i]] {
        assert ps[i] in ps;
      }
    }
  }

  /** So, for a new stream with a scheme and no '@', each entry's new URL is the new stream with the wanted
      credentials spliced in: the incident's, or else those of the source's own URL. */
  lemma RewritesCarry(mappings: seq<SourceMapping>, urls: map<string, string>, inc: Incident, i: nat)
    requires i < |Rewrites(mappings, urls, inc)|
    requires Scheme(inc.newStreamUri) >= 0 && '@' !in Authority(inc.newStreamUri)
    requires '/' !in inc.credentials && '?' !in inc.credentials && '#' !in inc.credentials
    ensures var rw := Rewrites(mappings, urls, inc)[i];
            && Strip(rw.newUrl) == inc.newStreamUri
            && ExtractUserinfo(rw.newUrl)
               == if inc.credentials != [] then inc.credentials else ExtractUserinfo(rw.oldUrl)
  {
    hide Rewrites, Positions, RewriteSourceUrl, Strip, ExtractUserinfo, Scheme, Authority;
    RewritesImage(mappings, urls, inc);
    RewriteSplices(Rewrites(mappings, urls, inc)[i].oldUrl, inc.newStreamUri, inc.credentials);
  }

  /** There is something to rewrite exactly when the camera has an auto-apply mapping. */
  lemma RewritesExist(mappings: seq<SourceMapping>, urls: map<string, string>, inc: Incident)
    ensures Rewrites(mappings, urls, inc) != [] <==>
              exists m :: m in mappings && m.cameraId == inc.cameraId && m.autoApply
  {
    hide Rewrites, Positions;
    RewritesImage(mappings, urls, inc);
    var rs, ps := Rewrites(mappings, urls, inc), Positions(mappings, inc);
    if rs != [] {
      assert ps[0] in ps && mappings[ps[0]] in mappings;
    }
    if m :| m in mappings && m.cameraId == inc.cameraId && m.autoApply {
      var k: nat :| k < |mappings| && mappings[k] == m;
      assert k in ps;
    }
  }

  /** Forgetting goes mapping by mapping, and keeps the order. */
  lemma {:induction false} WithoutAppend(a: seq<SourceMapping>, b: seq<SourceMapping>, source: string)
    ensures Without(a + b, source) == Without(a, source) + Without(b, source)
    ensures forall m: SourceMapping :: Without([m], source) == if m.sourceName == source then [] else [m]
  {
    assert forall m: SourceMapping :: [m][..0] == [];
    if b == [] {
      assert a + b == a;
    } else {
      assert (a + b)[..|a + b| - 1] == a + b[..|b| - 1];
      WithoutAppend(a, b[..|b| - 1], source);
    }
  }

  /** What is left after forgetting a source: the other mappings, in order. */
  lemma {:induction false} WithoutIs(mappings: seq<SourceMapping>, source: string,
                                     urls: map<string, string>, inc: Incident)
    ensures forall m :: m in Without(mappings, source) <==> m in mappings && m.sourceName != source
    ensures forall r :: r in Rewrites(Without(mappings, source), urls, inc) ==> r.mapping.sourceName != source
  {
    if mappings != [] {
      var n := |mappings| - 1;
      WithoutIs(mappings[..n], source, urls, inc);
      assert mappings == mappings[..n] + [mappings[n]];
      var front := Without(mappings[..n], source);
      if mappings[n].sourceName != source {
        assert (front + [mappings[n]])[..|front|] == front;
      }
    }
  }
}
