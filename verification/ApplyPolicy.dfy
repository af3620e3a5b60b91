/** The policy object and the OBS side that carries its decisions out. */
module ApplyPolicies {
  import opened UrlRewrite
  import opened ApplyModel

  class ApplyPolicy {
    var defaultPolicy: PolicyChoice
    var cameraPolicy: map<string, PolicyChoice>
    var sourceUrls: map<string, string>
    var mappings: seq<SourceMapping>
    var pending: Option<Incident>
    var deferred: Option<Incident>

    ghost function Model(): Policy
      reads this
    {
      Policy(defaultPolicy, cameraPolicy, sourceUrls, mappings, pending, deferred)
    }

    constructor ()
      ensures Model() == Policy(Ask, map[], map[], [], None, None)
    {
      defaultPolicy, cameraPolicy, sourceUrls, mappings := Ask, map[], map[], [];
      pending, deferred := None, None;
    }

    method SetDefaultPolicy(p: PolicyChoice)
      modifies this
      ensures Model() == old(Model()).(defaultPolicy := p)
    {
      defaultPolicy := p;
    }

    function Choice(camera: string): (c: PolicyChoice)
      reads this
      ensures c == PolicyFor(Model(), camera)
    {
      if camera in cameraPolicy then cameraPolicy[camera] else defaultPolicy
    }

    method SetCameraPolicy(camera: string, p: PolicyChoice, remember: bool)
      modifies this
      ensures Model() == AfterSetCameraPolicy(old(Model()), camera, p, remember)
    {
      if remember {
        cameraPolicy := cameraPolicy[camera := p];
      } else {
        cameraPolicy := cameraPolicy - {camera};
      }
    }

    method TrackSourceUrl(source: string, url: string)
      modifies this
      ensures Model() == old(Model()).(sourceUrls := old(sourceUrls)[source := url])
    {
      sourceUrls := sourceUrls[source := url];
    }

    method TrackMappings(ms: seq<SourceMapping>)
      modifies this
      ensures Model() == old(Model()).(mappings := ms)
    {
      mappings := ms;
    }

    method ForgetSource(source: string)
      modifies this
      ensures Model() == old(Model()).(sourceUrls := old(sourceUrls) - {source},
                                       mappings := Without(old(mappings), source))
    {
      sourceUrls := sourceUrls - {source};
      var kept := [];
      for i := 0 to |mappings|
        invariant mappings == old(mappings) && kept == Without(mappings[..i], source)
        invariant Model() == old(Model()).(sourceUrls := old(sourceUrls) - {source})
      {
        if mappings[i].sourceName != source {
          kept := kept + [mappings[i]];
        }
        assert mappings[..i + 1][..i] == mappings[..i];
      }
      assert mappings[..|mappings|] == mappings;
      mappings := kept;
    }

    method BuildRewrites(inc: Incident) returns (n: nat, rewrites: seq<SourceRewrite>)
      ensures rewrites == Rewrites(mappings, sourceUrls, inc) && n == |rewrites|
    {
      rewrites, n := [], 0;
      for i := 0 to |mappings|
        invariant rewrites == Rewrites(mappings[..i], sourceUrls, inc) && n == |rewrites|
      {
        var m := mappings[i];
        assert mappings[..i + 1][..i] == mappings[..i];
        if m.cameraId != inc.cameraId || !m.autoApply {
          continue;
        }
        var oldUrl := if m.sourceName in sourceUrls then sourceUrls[m.sourceName] else "";
        var newUrl := RewriteSourceUrl(oldUrl, inc.newStreamUri, inc.credentials);
        rewrites := rewrites + [SourceRewrite(m, oldUrl, newUrl, m.cameraId)];
        n := n + 1;
      }
      assert mappings[..|mappings|] == mappings;
    }

    method OnIpChange(camera: string, newStreamUri: string, outputActive: bool, credentials: string)
      returns (decision: Decision, rewrites: seq<SourceRewrite>)
      modifies this
      ensures Result(Model(), decision, rewrites)
           == ApplyModel.OnIpChange(old(Model()), Incident(camera, newStreamUri, credentials), outputActive)
    {
      rewrites := [];
      if Choice(camera) == Ignore {
        return Ignored, rewrites;
      }
      var inc := Incident(camera, newStreamUri, credentials);
      if outputActive && Choice(camera) == Ask {
        var n, probe := BuildRewrites(inc);
        if n == 0 {
          return Ignored, rewrites;
        }
        pending := Some(inc);
        return Prompted, rewrites;
      }
      var n;
      n, rewrites := BuildRewrites(inc);
      decision := if n != 0 then AppliedNow else Ignored;
    }

    method ApplyPending(list: seq<SourceRewrite>) returns (decision: Decision, rewrites: seq<SourceRewrite>)
      modifies this
      ensures Result(Model(), decision, rewrites) == ApplyModel.ApplyPending(old(Model()), list)
    {
      if pending.None? {
        return Ignored, list;
      }
      var n;
      n, rewrites := BuildRewrites(pending.value);
      pending := None;
      decision := if n != 0 then AppliedNow else Ignored;
    }

    method IgnorePending(remember: bool) returns (decision: Decision)
      modifies this
      ensures Model() == AfterIgnorePending(old(Model()), remember) && decision == Ignored
    {
      if pending.Some? && remember {
        SetCameraPolicy(pending.value.cameraId, Ignore, true);
      }
      pending := None;
      decision := Ignored;
    }

    method DeferPending() returns (decision: Decision)
      modifies this
      ensures Model() == AfterDeferPending(old(Model())) && decision == Deferred
    {
      if pending.Some? {
        deferred := pending;
        pending := None;
      }
      decision := Deferred;
    }

    method OnPromptTimeout() returns (decision: Decision)
      modifies this
      ensures Model() == AfterDeferPending(old(Model())) && decision == Deferred
    {
      decision := DeferPending();
    }

    method OnOutputsIdle(list: seq<SourceRewrite>) returns (applied: bool, rewrites: seq<SourceRewrite>)
      modifies this
      ensures Result(Model(), if applied then AppliedNow else Ignored, rewrites)
           == ApplyModel.OnOutputsIdle(old(Model()), list)
    {
      rewrites := list;
      if deferred.None? {
        return false, rewrites;
      }
      var n, tmp := BuildRewrites(deferred.value);
      applied := n != 0;
      deferred := None;
      if applied {
        rewrites := tmp;
      }
    }

    /** The sources a pending incident would rewrite, for the prompt. */
    method PendingSources() returns (names: seq<string>)
      ensures pending.None? ==> names == []
      ensures pending.Some? ==>
                var rs := Rewrites(mappings, sourceUrls, pending.value);
                |names| == |rs| && forall i :: 0 <= i < |rs| ==> names[i] == rs[i].mapping.sourceName
    {
      names := [];
      if pending.None? {
        return;
      }
      for i := 0 to |mappings|
        invariant var rs := Rewrites(mappings[..i], sourceUrls, pending.value);
                  |names| == |rs| && forall k :: 0 <= k < |rs| ==> names[k] == rs[k].mapping.sourceName
      {
        assert mappings[..i + 1][..i] == mappings[..i];
        if mappings[i].cameraId == pending.value.cameraId && mappings[i].autoApply {
          names := names + [mappings[i].sourceName];
        }
      }
      assert mappings[..|mappings|] == mappings;
    }
  }

  // ---- carrying rewrites out ----

  /** The media sources' inputs after a list of rewrites: each goes through a second rewrite against
      the source's current input; rewrites without a name or for an unknown source are skipped. */
  function AfterRewrites(inputs: map<string, string>, rewrites: seq<SourceRewrite>): map<string, string> {
    if rewrites == [] then inputs
    else
      var m, rw := AfterRewrites(inputs, rewrites[..|rewrites| - 1]), rewrites[|rewrites| - 1];
      var name := rw.mapping.sourceName;
      if name == "" || name !in m then m else m[name := RewriteSourceUrl(m[name], rw.newUrl, "")]
  }

  class ObsSide {
    const policy: ApplyPolicy
    var inputs: map<string, string>    // media source name -> its input
    var outputCount: int

    constructor (policy: ApplyPolicy, inputs: map<string, string>)
      ensures this.policy == policy && this.inputs == inputs && outputCount == 0
    {
      this.policy, this.inputs, outputCount := policy, inputs, 0;
    }

    method ApplySourceRewrites(rewrites: seq<SourceRewrite>)
      modifies `inputs
      ensures inputs == AfterRewrites(old(inputs), rewrites)
    {
      for i := 0 to |rewrites|
        invariant inputs == AfterRewrites(old(inputs), rewrites[..i])
      {
        assert rewrites[..i + 1][..i] == rewrites[..i];
        var name := rewrites[i].mapping.sourceName;
        if name == "" {
          continue;
        }
        if name !in inputs {
          continue;
        }
        inputs := inputs[name := RewriteSourceUrl(inputs[name], rewrites[i].newUrl, "")];
      }
      assert rewrites[..|rewrites|] == rewrites;
    }

    method SetOutputActive(active: bool)
      modifies this, policy
      ensures outputCount == CountAfter(old(outputCount), active)
      ensures outputCount != 0 ==> policy.Model() == old(policy.Model()) && inputs == old(inputs)
      ensures outputCount == 0 ==>
                var r := ApplyModel.OnOutputsIdle(old(policy.Model()), []);
                policy.Model() == r.policy && inputs == AfterRewrites(old(inputs), r.rewrites)
    {
      if active {
        outputCount := outputCount + 1;
      } else if outputCount > 0 {
        outputCount := outputCount - 1;
      }
      if outputCount != 0 {
        return;
      }
      var applied, rewrites := policy.OnOutputsIdle([]);
      if applied {
        ApplySourceRewrites(rewrites);
      }
    }

    /** The rewrites of an applied incident are queued to the UI thread, given here as the result. */
    method OnCameraMoved(camera: string, newStreamUri: string, credentials: string)
      returns (queued: seq<SourceRewrite>, prompt: bool)
      modifies policy
      ensures var r := ApplyModel.OnIpChange(old(policy.Model()), Incident(camera, newStreamUri, credentials),
                                             outputCount != 0);
              policy.Model() == r.policy && queued == r.rewrites && prompt == r.decision.Prompted?
    {
      var decision, rewrites := policy.OnIpChange(camera, newStreamUri, outputCount != 0, credentials);
      queued := if decision == AppliedNow then rewrites else [];
      prompt := decision == Prompted;
    }
  }

  function CountAfter(n: int, active: bool): int {
    if active then n + 1 else if n > 0 then n - 1 else n
  }

  /** What the last rewrite for a source makes of its input: the rewrite's URL, with the input's own userinfo
      put in where the URL carries none; the sources without a rewrite keep theirs. */
  lemma {:induction false} LastRewriteStands(inputs: map<string, string>, rewrites: seq<SourceRewrite>, k: nat)
    requires k < |rewrites|
    requires rewrites[k].mapping.sourceName != "" && rewrites[k].mapping.sourceName in inputs
    requires forall j :: k < j < |rewrites| ==> rewrites[j].mapping.sourceName != rewrites[k].mapping.sourceName
    ensures AfterRewrites(inputs, rewrites).Keys == inputs.Keys == AfterRewrites(inputs, rewrites[..k]).Keys
    ensures var name, url := rewrites[k].mapping.sourceName, rewrites[k].newUrl;
            var before, after := AfterRewrites(inputs, rewrites[..k])[name], AfterRewrites(inputs, rewrites)[name];
            && (ExtractUserinfo(url) != [] || Scheme(url) < 0 || ExtractUserinfo(before) == [] ==> after == url)
            && (Scheme(url) >= 0 && ExtractUserinfo(url) == [] ==>
                  ExtractUserinfo(after) == ExtractUserinfo(before) && Strip(after) == Strip(url))
  {
    hide RewriteSourceUrl, ExtractUserinfo, Strip, Scheme;
    var n := |rewrites| - 1;
    KeysKept(inputs, rewrites);
    KeysKept(inputs, rewrites[..n]);
    KeysKept(inputs, rewrites[..k]);
    if k < n {
      LastRewriteStands(inputs, rewrites[..n], k);
      assert rewrites[..n][..k] == rewrites[..k];
    } else {
      SecondPassIs(AfterRewrites(inputs, rewrites[..k])[rewrites[k].mapping.sourceName], rewrites[k].newUrl);
    }
  }

  lemma SecondPassIs(current: string, url: string)
    ensures var after := RewriteSourceUrl(current, url, "");
            && (ExtractUserinfo(url) != [] || Scheme(url) < 0 || ExtractUserinfo(current) == [] ==> after == url)
            && (Scheme(url) >= 0 && ExtractUserinfo(url) == [] ==>
                  ExtractUserinfo(after) == ExtractUserinfo(current) && Strip(after) == Strip(url))
  {
    SecondPass(current, url);
    var ui := ExtractUserinfo(current);
    ExtractedHasNoDelims(current);
    if Scheme(url) >= 0 && ExtractUserinfo(url) == [] && ui != [] {
      DelimsAre(ui);
      InjectExtract(url, ui);
      InjectStrip(url, ui);
    }
  }

  lemma {:induction false} OthersKeepInput(inputs: map<string, string>, rewrites: seq<SourceRewrite>, name: string)
    requires name in inputs && forall j :: 0 <= j < |rewrites| ==> rewrites[j].mapping.sourceName != name
    ensures name in AfterRewrites(inputs, rewrites) && AfterRewrites(inputs, rewrites)[name] == inputs[name]
  {
    hide RewriteSourceUrl;
    if rewrites != [] { OthersKeepInput(inputs, rewrites[..|rewrites| - 1], name); }
  }

  lemma {:induction false} KeysKept(inputs: map<string, string>, rewrites: seq<SourceRewrite>)
    ensures AfterRewrites(inputs, rewrites).Keys == inputs.Keys
  {
    if rewrites != [] { KeysKept(inputs, rewrites[..|rewrites| - 1]); }
  }
}
