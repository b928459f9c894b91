/** What every interleaving of capture runs keeps, and what change detection means for orderly ones. */
module CaptureLaws {
  import opened Wrappers
  import opened Capture
  import opened CaptureVerifier

  // ---------------------------------------------------------------- write once

  function Days(log: seq<(DayKey, Manifest)>): set<DayKey> {
    if log == [] then {} else Days(log[..|log| - 1]) + {log[|log| - 1].0}
  }

  /** Manifests are exactly the logged writes, and each day is written once. */
  ghost predicate Once(manifests: map<DayKey, Manifest>, log: seq<(DayKey, Manifest)>) {
    && manifests.Keys == Days(log)
    && (forall i :: 0 <= i < |log| ==> log[i].0 in manifests && manifests[log[i].0] == log[i].1)
    && (forall i, j :: 0 <= i < j < |log| ==> log[i].0 != log[j].0)
  }

  lemma OnceAppend(manifests: map<DayKey, Manifest>, log: seq<(DayKey, Manifest)>, day: DayKey, m: Manifest)
    requires Once(manifests, log) && day !in manifests
    ensures Once(manifests[day := m], log + [(day, m)])
  {
    var longer := log + [(day, m)];
    assert longer[..|longer| - 1] == log;
  }

  /** Each manifest was written by a run of its day and carries that run's invocation. */
  ghost predicate WriterInv(s: State) {
    && s.writers.Keys == s.manifests.Keys
    && (forall day :: day in s.manifests ==>
          && s.writers[day] < |s.runs|
          && s.runs[s.writers[day]].day == day
          && s.runs[s.writers[day]].invocation == s.manifests[day].invocation)
  }

  ghost predicate LogInv(s: State) {
    Once(s.manifests, s.log) && WriterInv(s)
  }

  /** The manifest a run is preparing carries that run's invocation. */
  predicate HasDraft(pc: Pc) {
    pc.ReadingPointer? || pc.WritingOk? || pc.PuttingPointer? || pc.Recording?
  }

  /** Only the run that steps changes, and only its program counter. */
  lemma OthersStay(sha: string -> string, s: State, step: Step, r: nat)
    requires Enabled(s, step) && r < |Apply(sha, s, step).runs|
    ensures var t := Apply(sha, s, step);
            if r == |s.runs| then step.Begin? && t.runs[r].pc.Checking?
            else
              && r < |s.runs| && t.runs[r].day == s.runs[r].day && t.runs[r].invocation == s.runs[r].invocation
              && t.runs[r].pc == if !step.Begin? && step.r == r then NextPc(sha, s, step) else s.runs[r].pc
  {
  }

  ghost predicate GoodDraft(run: CaptureRun) {
    HasDraft(run.pc) ==>
      && run.pc.draft.invocation == run.invocation
      && (run.pc.Recording? <==> run.pc.draft.status.Failed?)
      && (!run.pc.Recording? ==> run.pc.draft.bodyKey.Some?)
      && (run.pc.draft.bodyKey.Some? ==> run.pc.draft.sha.Some?)
  }

  ghost predicate DraftInv(s: State) {
    forall r :: 0 <= r < |s.runs| ==> GoodDraft(s.runs[r])
  }

  lemma DraftInvStep(sha: string -> string, s: State, step: Step)
    requires DraftInv(s) && Enabled(s, step)
    ensures DraftInv(Apply(sha, s, step))
  {
    var t := Apply(sha, s, step);
    forall r | 0 <= r < |t.runs|
      ensures GoodDraft(t.runs[r])
    {
      OthersStay(sha, s, step, r);
      if r < |s.runs| {
        assert GoodDraft(s.runs[r]);
      }
    }
  }

  predicate Extends(a: State, b: State) {
    && |a.runs| <= |b.runs|
    && (forall r :: 0 <= r < |a.runs| ==> a.runs[r].day == b.runs[r].day && a.runs[r].invocation == b.runs[r].invocation)
    && (forall day :: day in a.manifests ==> day in b.manifests && a.manifests[day] == b.manifests[day])
    && (forall day :: day in a.writers ==> day in b.writers && a.writers[day] == b.writers[day])
    && a.log <= b.log
    && (forall key :: key in a.bodies ==> key in b.bodies && a.bodies[key] <= b.bodies[key])
  }

  /** No step removes or changes a manifest, a stored body version or a run's identity. */
  lemma StepExtends(sha: string -> string, s: State, step: Step)
    requires Enabled(s, step) && s.writers.Keys == s.manifests.Keys
    ensures Extends(s, Apply(sha, s, step))
  {
    var t := Apply(sha, s, step);
    if !step.Begin? {
      EffectExtends(s, step);
    }
    forall r | 0 <= r < |s.runs|
      ensures s.runs[r].day == t.runs[r].day && s.runs[r].invocation == t.runs[r].invocation
    {
      OthersStay(sha, s, step, r);
    }
  }

  lemma EffectExtends(s: State, step: Step)
    requires Enabled(s, step) && s.writers.Keys == s.manifests.Keys && !step.Begin?
    ensures Extends(s, Effect(s, step))
  {
  }

  lemma WriterInvStep(sha: string -> string, s: State, step: Step)
    requires WriterInv(s) && DraftInv(s) && Enabled(s, step)
    ensures WriterInv(Apply(sha, s, step))
  {
    var t := Apply(sha, s, step);
    if Writes(s, step) {
      assert GoodDraft(s.runs[step.r]);
    }
    forall day | day in t.manifests
      ensures && day in t.writers && t.writers[day] < |t.runs|
              && t.runs[t.writers[day]].day == day && t.runs[t.writers[day]].invocation == t.manifests[day].invocation
    {
      OthersStay(sha, s, step, t.writers[day]);
    }
  }

  lemma LogInvStep(sha: string -> string, s: State, step: Step)
    requires LogInv(s) && DraftInv(s) && Enabled(s, step)
    ensures LogInv(Apply(sha, s, step))
  {
    WriterInvStep(sha, s, step);
    if Writes(s, step) {
      OnceAppend(s.manifests, s.log, s.runs[step.r].day, s.runs[step.r].pc.draft);
    }
  }

  lemma {:induction false} LogInvRun(sha: string -> string, steps: seq<Step>)
    requires Run(sha, steps).Some?
    ensures LogInv(Run(sha, steps).value) && DraftInv(Run(sha, steps).value)
    decreases |steps|
  {
    if steps != [] {
      var before := steps[..|steps| - 1];
      LogInvRun(sha, before);
      LogInvStep(sha, Run(sha, before).value, steps[|steps| - 1]);
      DraftInvStep(sha, Run(sha, before).value, steps[|steps| - 1]);
    }
  }

  lemma {:induction false} RunExtends(sha: string -> string, steps: seq<Step>, more: seq<Step>)
    requires Run(sha, steps + more).Some?
    ensures Run(sha, steps).Some? && Extends(Run(sha, steps).value, Run(sha, steps + more).value)
    decreases |more|
  {
    if more == [] {
      assert steps + more == steps;
    } else {
      var less := more[..|more| - 1];
      assert (steps + more)[..|steps + more| - 1] == steps + less;
      RunExtends(sha, steps, less);
      LogInvRun(sha, steps + less);
      StepExtends(sha, Run(sha, steps + less).value, more[|more| - 1]);
      ExtendsTransitive(Run(sha, steps).value, Run(sha, steps + less).value, Run(sha, steps + more).value);
    }
  }

  lemma ExtendsTransitive(a: State, b: State, c: State)
    requires Extends(a, b) && Extends(b, c)
    ensures Extends(a, c)
  {
  }

  /**
   * Under every interleaving the manifest of a source and date is written at most once, and the
   * verifier's status for that date, once not missing, is for ever the one determined by the first
   * writer's status and invocation.
   */
  lemma VerifierStatusSettles(sha: string -> string, steps: seq<Step>, more: seq<Step>, day: DayKey)
    requires Run(sha, steps).Some? && Run(sha, steps + more).Some?
    requires VerifierStatus(Run(sha, steps).value, day) != MISSING
    ensures var s, t := Run(sha, steps).value, Run(sha, steps + more).value;
            && day in s.manifests && day in s.writers && s.writers[day] < |s.runs| && day in t.manifests
            && var first := s.runs[s.writers[day]];
            && first.day == day
            && t.manifests[day] == s.manifests[day]
            && VerifierStatus(t, day) == Resolve(Some(Reading(Some(StatusText(s.manifests[day].status)), Some(first.invocation))), day.date)
  {
    RunExtends(sha, steps, more);
    LogInvRun(sha, steps);
  }

  /** No day appears twice among the manifest writes of a history. */
  lemma WrittenAtMostOnce(sha: string -> string, steps: seq<Step>, i: nat, j: nat)
    requires Run(sha, steps).Some?
    requires i < |Run(sha, steps).value.log| && j < |Run(sha, steps).value.log|
    requires Run(sha, steps).value.log[i].0 == Run(sha, steps).value.log[j].0
    ensures i == j
  {
    LogInvRun(sha, steps);
  }

  // ---------------------------------------------------------------- bodies are never orphaned

  /** Some stored version of the body has the manifest's digest. */
  predicate Backed(sha: string -> string, s: State, m: Manifest) {
    m.bodyKey.Some? ==>
      && m.sha.Some?
      && exists k :: 0 <= k < |Versions(s, m.bodyKey.value)| && sha(Versions(s, m.bodyKey.value)[k]) == m.sha.value
  }

  lemma BackedStays(sha: string -> string, s: State, t: State, m: Manifest)
    requires Backed(sha, s, m) && Extends(s, t)
    ensures Backed(sha, t, m)
  {
    if m.bodyKey.Some? {
      var key := m.bodyKey.value;
      var k :| 0 <= k < |Versions(s, key)| && sha(Versions(s, key)[k]) == m.sha.value;
      assert Versions(t, key)[k] == Versions(s, key)[k];
    }
  }

  ghost predicate BodyInv(sha: string -> string, s: State) {
    && (forall day :: day in s.manifests ==>
          Backed(sha, s, s.manifests[day]) && (s.manifests[day].status.Ok? ==> s.manifests[day].bodyKey.Some?))
    && (forall r :: 0 <= r < |s.runs| && HasDraft(s.runs[r].pc) ==> Backed(sha, s, s.runs[r].pc.draft))
  }

  lemma ManifestStaysBacked(sha: string -> string, s: State, step: Step, day: DayKey)
    requires BodyInv(sha, s) && DraftInv(s) && LogInv(s) && Enabled(s, step)
    requires day in Apply(sha, s, step).manifests
    ensures var t := Apply(sha, s, step);
            Backed(sha, t, t.manifests[day]) && (t.manifests[day].status.Ok? ==> t.manifests[day].bodyKey.Some?)
  {
    var t := Apply(sha, s, step);
    StepExtends(sha, s, step);
    if day in s.manifests {
      BackedStays(sha, s, t, s.manifests[day]);
    } else {
      assert Writes(s, step) && GoodDraft(s.runs[step.r]);
      BackedStays(sha, s, t, s.runs[step.r].pc.draft);
    }
  }

  lemma BodyInvStep(sha: string -> string, s: State, step: Step)
    requires BodyInv(sha, s) && DraftInv(s) && LogInv(s) && Enabled(s, step)
    ensures BodyInv(sha, Apply(sha, s, step))
  {
    var t := Apply(sha, s, step);
    forall day | day in t.manifests
      ensures Backed(sha, t, t.manifests[day]) && (t.manifests[day].status.Ok? ==> t.manifests[day].bodyKey.Some?)
    {
      ManifestStaysBacked(sha, s, step, day);
    }
    forall r | 0 <= r < |t.runs| && HasDraft(t.runs[r].pc)
      ensures Backed(sha, t, t.runs[r].pc.draft)
    {
      DraftBacked(sha, s, step, r);
    }
  }

  /** A run never changes the digest and body key of the manifest it prepares. */
  lemma DraftKeeps(sha: string -> string, s: State, step: Step)
    requires Enabled(s, step) && !step.Begin?
    requires HasDraft(s.runs[step.r].pc) && HasDraft(NextPc(sha, s, step))
    ensures NextPc(sha, s, step).draft.bodyKey == s.runs[step.r].pc.draft.bodyKey
    ensures NextPc(sha, s, step).draft.sha == s.runs[step.r].pc.draft.sha
  {
  }

  lemma FirstDraftBacked(sha: string -> string, s: State, step: Step)
    requires Enabled(s, step) && !step.Begin?
    requires !HasDraft(s.runs[step.r].pc) && HasDraft(NextPc(sha, s, step))
    ensures Backed(sha, Apply(sha, s, step), NextPc(sha, s, step).draft)
  {
    if step.PutBody? && step.put.Stored? {
      var pc := s.runs[step.r].pc;
      var key := BodyKey(s.runs[step.r].day, pc.ext);
      assert Versions(Apply(sha, s, step), key)[|Versions(s, key)|] == pc.body;
    }
  }

  lemma DraftBacked(sha: string -> string, s: State, step: Step, r: nat)
    requires BodyInv(sha, s) && LogInv(s) && Enabled(s, step)
    requires r < |Apply(sha, s, step).runs| && HasDraft(Apply(sha, s, step).runs[r].pc)
    ensures Backed(sha, Apply(sha, s, step), Apply(sha, s, step).runs[r].pc.draft)
  {
    var t := Apply(sha, s, step);
    StepExtends(sha, s, step);
    OthersStay(sha, s, step, r);
    if HasDraft(s.runs[r].pc) {
      BackedStays(sha, s, t, s.runs[r].pc.draft);
      if !step.Begin? && step.r == r {
        DraftKeeps(sha, s, step);
      }
    } else {
      FirstDraftBacked(sha, s, step);
    }
  }

  /**
   * In every reachable store, a manifest with a body key has some stored version of that body with
   * the manifest's digest, and every "ok" manifest has a body key.
   */
  lemma {:induction false} ManifestsAreBacked(sha: string -> string, steps: seq<Step>)
    requires Run(sha, steps).Some?
    ensures BodyInv(sha, Run(sha, steps).value)
    decreases |steps|
  {
    if steps != [] {
      var before := steps[..|steps| - 1];
      ManifestsAreBacked(sha, before);
      LogInvRun(sha, before);
      BodyInvStep(sha, Run(sha, before).value, steps[|steps| - 1]);
    }
  }

  // ---------------------------------------------------------------- change detection

  /** Entry `i` of the log says "unchanged" exactly when its digest is the one the pointer held. */
  predicate DeltaRight(log: seq<(DayKey, Manifest)>, landed: set<DayKey>, i: nat)
    requires i < |log|
  {
    log[i].1.status.Ok? ==>
      && log[i].1.sha.Some?
      && log[i].1.delta == Some(if LastLanded(log[..i], landed, log[i].0.source) == log[i].1.sha then Unchanged else Changed)
  }

  ghost predicate DeltasRight(log: seq<(DayKey, Manifest)>, landed: set<DayKey>) {
    forall i :: 0 <= i < |log| ==> DeltaRight(log, landed, i)
  }

  /** The pointer of each source holds the digest of its last "ok" manifest whose pointer landed. */
  ghost predicate PointersRight(s: State) {
    forall source :: PreviousSha(s, source) == LastLanded(s.log, s.landed, source)
  }

  /** The entry of `day` is the last "ok" entry of its source and has this digest. */
  predicate IsLastOk(log: seq<(DayKey, Manifest)>, day: DayKey, digest: Option<string>) {
    exists k :: 0 <= k < |log| && log[k].0 == day && log[k].1.status.Ok? && log[k].1.sha == digest
                && forall j :: k < j < |log| ==> !(log[j].0.source == day.source && log[j].1.status.Ok?)
  }

  /** What a run is about to write agrees with the pointer, and with the manifest it has just written. */
  ghost predicate Informed(s: State, run: CaptureRun) {
    && (run.pc.PuttingPointer? ==> IsLastOk(s.log, run.day, run.pc.draft.sha))
    && (run.pc.WritingOk? ==>
          run.pc.draft.delta ==
            Some(if LastLanded(s.log, s.landed, run.day.source) == run.pc.draft.sha then Unchanged else Changed))
  }

  ghost predicate PointerInv(s: State) {
    && DeltasRight(s.log, s.landed)
    && PointersRight(s)
    && (forall r :: 0 <= r < |s.runs| ==> Informed(s, s.runs[r]))
  }

  lemma LastLandedAppend(log: seq<(DayKey, Manifest)>, landed: set<DayKey>, day: DayKey, m: Manifest, source: string)
    ensures LastLanded(log + [(day, m)], landed, source) ==
            if day.source == source && m.status.Ok? && day in landed then m.sha else LastLanded(log, landed, source)
  {
    assert (log + [(day, m)])[..|log|] == log;
  }

  /** A day that lands changes nothing for logs without it and for other sources. */
  lemma {:induction false} LastLandedApart(log: seq<(DayKey, Manifest)>, landed: set<DayKey>, day: DayKey, source: string)
    requires source == day.source ==> forall k :: 0 <= k < |log| ==> log[k].0 != day
    ensures LastLanded(log, landed + {day}, source) == LastLanded(log, landed, source)
  {
    if log != [] {
      LastLandedApart(log[..|log| - 1], landed, day, source);
    }
  }

  /** The last "ok" manifest of a source, once landed, is what the pointer holds. */
  lemma {:induction false} LastLandedHit(log: seq<(DayKey, Manifest)>, landed: set<DayKey>, day: DayKey, digest: Option<string>)
    requires IsLastOk(log, day, digest) && day in landed
    ensures LastLanded(log, landed, day.source) == digest
  {
    var k :| 0 <= k < |log| && log[k].0 == day && log[k].1.status.Ok? && log[k].1.sha == digest
             && forall j :: k < j < |log| ==> !(log[j].0.source == day.source && log[j].1.status.Ok?);
    if k < |log| - 1 {
      var shorter := log[..|log| - 1];
      assert shorter[k] == log[k];
      LastLandedHit(shorter, landed, day, digest);
    }
  }

  /** Writing a manifest keeps the deltas right: its own was taken from the pointer. */
  lemma DeltasAppend(log: seq<(DayKey, Manifest)>, landed: set<DayKey>, day: DayKey, m: Manifest)
    requires DeltasRight(log, landed)
    requires m.status.Ok? ==>
               m.sha.Some? && m.delta == Some(if LastLanded(log, landed, day.source) == m.sha then Unchanged else Changed)
    ensures DeltasRight(log + [(day, m)], landed)
  {
    var longer := log + [(day, m)];
    forall i | 0 <= i < |longer|
      ensures DeltaRight(longer, landed, i)
    {
      if i < |log| {
        assert longer[..i] == log[..i];
        assert DeltaRight(log, landed, i);
      } else {
        assert longer[..i] == log;
      }
    }
  }

  /** Landing a pointer keeps them right: no later "ok" manifest of the source has been written. */
  lemma DeltasLand(log: seq<(DayKey, Manifest)>, landed: set<DayKey>, day: DayKey, digest: Option<string>)
    requires DeltasRight(log, landed) && IsLastOk(log, day, digest)
    requires forall i, j :: 0 <= i < j < |log| ==> log[i].0 != log[j].0
    ensures DeltasRight(log, landed + {day})
  {
    forall i | 0 <= i < |log|
      ensures DeltaRight(log, landed + {day}, i)
    {
      assert DeltaRight(log, landed, i);
      if log[i].1.status.Ok? {
        LastLandedApart(log[..i], landed, day, log[i].0.source);
      }
    }
  }

  /** What a step does to the log and to the landed days. */
  lemma LogStep(sha: string -> string, s: State, step: Step)
    requires Enabled(s, step)
    ensures var t := Apply(sha, s, step);
            && t.log == (if Writes(s, step) then s.log + [(s.runs[step.r].day, s.runs[step.r].pc.draft)] else s.log)
            && t.landed == (if step.PutPointer? && !step.put.NotStored? then s.landed + {s.runs[step.r].day} else s.landed)
            && t.pointers == (if step.PutPointer? && !step.put.NotStored?
                              then s.pointers[s.runs[step.r].day.source := s.runs[step.r].pc.draft.sha] else s.pointers)
  {
  }

  lemma DeltasStep(sha: string -> string, s: State, step: Step)
    requires PointerInv(s) && DraftInv(s) && LogInv(s) && Enabled(s, step)
    ensures DeltasRight(Apply(sha, s, step).log, Apply(sha, s, step).landed)
  {
    LogStep(sha, s, step);
    if Writes(s, step) {
      assert GoodDraft(s.runs[step.r]) && Informed(s, s.runs[step.r]);
      DeltasAppend(s.log, s.landed, s.runs[step.r].day, s.runs[step.r].pc.draft);
    } else if step.PutPointer? && !step.put.NotStored? {
      assert Informed(s, s.runs[step.r]);
      DeltasLand(s.log, s.landed, s.runs[step.r].day, s.runs[step.r].pc.draft.sha);
    }
  }

  /** A day that is not written yet has not landed. */
  ghost predicate LandedInv(s: State) {
    forall day :: day in s.landed ==> day in s.manifests
  }

  /** The pointed-at digest of a source moves only when one of its pointers lands. */
  lemma LastLandedStep(sha: string -> string, s: State, step: Step, source: string)
    requires PointerInv(s) && LogInv(s) && LandedInv(s) && Enabled(s, step)
    ensures var t := Apply(sha, s, step);
            LastLanded(t.log, t.landed, source) ==
            if step.PutPointer? && !step.put.NotStored? && s.runs[step.r].day.source == source then s.runs[step.r].pc.draft.sha
            else LastLanded(s.log, s.landed, source)
  {
    LogStep(sha, s, step);
    if Writes(s, step) {
      LastLandedAppend(s.log, s.landed, s.runs[step.r].day, s.runs[step.r].pc.draft, source);
    } else if step.PutPointer? && !step.put.NotStored? {
      var run := s.runs[step.r];
      assert Informed(s, run);
      if run.day.source == source {
        LastLandedHit(s.log, s.landed + {run.day}, run.day, run.pc.draft.sha);
      } else {
        LastLandedApart(s.log, s.landed, run.day, source);
      }
    }
  }

  lemma PointersStep(sha: string -> string, s: State, step: Step)
    requires PointerInv(s) && LogInv(s) && LandedInv(s) && Enabled(s, step)
    ensures PointersRight(Apply(sha, s, step))
  {
    var t := Apply(sha, s, step);
    LogStep(sha, s, step);
    forall source
      ensures PreviousSha(t, source) == LastLanded(t.log, t.landed, source)
    {
      LastLandedStep(sha, s, step, source);
      assert PreviousSha(s, source) == LastLanded(s.log, s.landed, source);
    }
  }

  lemma LandedStep(sha: string -> string, s: State, step: Step)
    requires PointerInv(s) && LogInv(s) && LandedInv(s) && Enabled(s, step)
    ensures LandedInv(Apply(sha, s, step))
  {
    LogStep(sha, s, step);
    StepExtends(sha, s, step);
    if step.PutPointer? && !step.put.NotStored? {
      assert Informed(s, s.runs[step.r]);
    }
  }

  /** Another manifest of another source, or one that is not "ok", leaves the last "ok" entry in place. */
  lemma IsLastOkAppend(log: seq<(DayKey, Manifest)>, day: DayKey, digest: Option<string>, other: DayKey, m: Manifest)
    requires IsLastOk(log, day, digest) && !(other.source == day.source && m.status.Ok?)
    ensures IsLastOk(log + [(other, m)], day, digest)
  {
    var longer := log + [(other, m)];
    var k :| 0 <= k < |log| && log[k].0 == day && log[k].1.status.Ok? && log[k].1.sha == digest
             && forall j :: k < j < |log| ==> !(log[j].0.source == day.source && log[j].1.status.Ok?);
    assert longer[k] == log[k];
  }

  /** A run that is now to put its pointer has just written its manifest, which is the last "ok" one. */
  lemma PutsItsOwn(sha: string -> string, s: State, step: Step)
    requires DraftInv(s) && LogInv(s) && Enabled(s, step) && !step.Begin?
    requires Apply(sha, s, step).runs[step.r].pc.PuttingPointer?
    ensures var t := Apply(sha, s, step); IsLastOk(t.log, t.runs[step.r].day, t.runs[step.r].pc.draft.sha)
  {
    var t, run := Apply(sha, s, step), s.runs[step.r];
    assert GoodDraft(run);
    assert step.WriteOk? && Writes(s, step);
    assert t.log == s.log + [(run.day, run.pc.draft)];
    assert t.log[|s.log|] == (run.day, run.pc.draft);
  }

  /** A run that is now to write has just compared its digest with the pointer. */
  lemma ComparedWithPointer(sha: string -> string, s: State, step: Step)
    requires PointersRight(s) && Enabled(s, step) && !step.Begin?
    requires Apply(sha, s, step).runs[step.r].pc.WritingOk?
    ensures var t := Apply(sha, s, step); Informed(t, t.runs[step.r])
  {
    var t, run := Apply(sha, s, step), s.runs[step.r];
    assert step.ReadPointer?;
    assert t.log == s.log && t.landed == s.landed;
    assert PreviousSha(s, run.day.source) == LastLanded(s.log, s.landed, run.day.source);
  }

  /** The run that steps stays informed. */
  lemma InformedMover(sha: string -> string, s: State, step: Step)
    requires PointerInv(s) && DraftInv(s) && LogInv(s) && LandedInv(s) && Enabled(s, step) && !step.Begin?
    ensures Informed(Apply(sha, s, step), Apply(sha, s, step).runs[step.r])
  {
    var pc := Apply(sha, s, step).runs[step.r].pc;
    if pc.PuttingPointer? {
      PutsItsOwn(sha, s, step);
    } else if pc.WritingOk? {
      ComparedWithPointer(sha, s, step);
    }
  }

  /** While a run is unfinished, no other run of its source takes a step. */
  lemma OtherSource(s: State, step: Step, r: nat)
    requires !Overlapping(s) && Enabled(s, step) && !step.Begin? && r < |s.runs| && step.r != r && !s.runs[r].pc.Done?
    ensures s.runs[step.r].day.source != s.runs[r].day.source
  {
    assert !s.runs[step.r].pc.Done?;
  }

  /** A run about to put its pointer still has the last "ok" manifest of its source. */
  lemma StillLast(sha: string -> string, s: State, step: Step, r: nat)
    requires DraftInv(s) && LogInv(s) && Enabled(s, step) && !Overlapping(s)
    requires r < |s.runs| && (step.Begin? || step.r != r)
    requires s.runs[r].pc.PuttingPointer? && Informed(s, s.runs[r])
    ensures IsLastOk(Apply(sha, s, step).log, s.runs[r].day, s.runs[r].pc.draft.sha)
  {
    var run := s.runs[r];
    if !step.Begin? && Writes(s, step) {
      OtherSource(s, step, r);
      IsLastOkAppend(s.log, run.day, run.pc.draft.sha, s.runs[step.r].day, s.runs[step.r].pc.draft);
    }
  }

  /** A run about to write has still compared with the last landed digest. */
  lemma StillCompared(sha: string -> string, s: State, step: Step, r: nat)
    requires PointerInv(s) && LogInv(s) && LandedInv(s) && Enabled(s, step) && !Overlapping(s)
    requires r < |s.runs| && (step.Begin? || step.r != r) && s.runs[r].pc.WritingOk?
    ensures var t, source := Apply(sha, s, step), s.runs[r].day.source;
            LastLanded(t.log, t.landed, source) == LastLanded(s.log, s.landed, source)
  {
    var source := s.runs[r].day.source;
    if !step.Begin? {
      OtherSource(s, step, r);
    }
    LastLandedStep(sha, s, step, source);
  }

  /** The others stay informed: while they are about to write, no run of their source steps. */
  lemma InformedOther(sha: string -> string, s: State, step: Step, r: nat)
    requires PointerInv(s) && DraftInv(s) && LogInv(s) && LandedInv(s) && Enabled(s, step) && !Overlapping(s)
    requires r < |s.runs| && (step.Begin? || step.r != r)
    ensures Informed(Apply(sha, s, step), Apply(sha, s, step).runs[r])
  {
    OthersStay(sha, s, step, r);
    assert Informed(s, s.runs[r]);
    if s.runs[r].pc.WritingOk? {
      StillCompared(sha, s, step, r);
    } else if s.runs[r].pc.PuttingPointer? {
      StillLast(sha, s, step, r);
    }
  }

  lemma {:induction false} PointerInvRun(sha: string -> string, steps: seq<Step>)
    requires Run(sha, steps).Some? && Separate(sha, steps)
    ensures PointerInv(Run(sha, steps).value) && LandedInv(Run(sha, steps).value)
    decreases |steps|
  {
    if steps != [] {
      var before, step := steps[..|steps| - 1], steps[|steps| - 1];
      var s, t := Run(sha, before).value, Run(sha, steps).value;
      PointerInvRun(sha, before);
      LogInvRun(sha, before);
      DeltasStep(sha, s, step);
      PointersStep(sha, s, step);
      LandedStep(sha, s, step);
      forall r | 0 <= r < |t.runs|
        ensures Informed(t, t.runs[r])
      {
        OthersStay(sha, s, step, r);
        if r < |s.runs| && !step.Begin? && step.r == r {
          InformedMover(sha, s, step);
        } else if r < |s.runs| {
          InformedOther(sha, s, step, r);
        }
      }
    }
  }

  /**
   * Over any history of non-overlapping runs, whatever pointer writes are lost, an "ok" manifest says "unchanged"
   * exactly when its digest is that of the source's most recent earlier "ok" manifest whose pointer landed.
   */
  lemma UnchangedByPointer(sha: string -> string, steps: seq<Step>, i: nat)
    requires Run(sha, steps).Some? && Separate(sha, steps)
    requires i < |Run(sha, steps).value.log| && Run(sha, steps).value.log[i].1.status.Ok?
    ensures var s := Run(sha, steps).value;
            s.log[i].1.delta == Some(Unchanged) <==> LastLanded(s.log[..i], s.landed, s.log[i].0.source) == s.log[i].1.sha
  {
    PointerInvRun(sha, steps);
    assert DeltaRight(Run(sha, steps).value.log, Run(sha, steps).value.landed, i);
  }

  lemma {:induction false} OrderlyIsSeparate(sha: string -> string, steps: seq<Step>)
    requires Run(sha, steps).Some? && Orderly(sha, steps)
    ensures Separate(sha, steps)
    decreases |steps|
  {
    if steps != [] {
      OrderlyIsSeparate(sha, steps[..|steps| - 1]);
    }
  }

  /** A run has written the manifest of `day` and is about to write its pointer. */
  ghost predicate PointerDue(s: State, day: DayKey) {
    exists r :: 0 <= r < |s.runs| && s.runs[r].day == day && s.runs[r].pc.PuttingPointer?
  }

  /** Every "ok" manifest has its pointer, or it is about to be written. */
  ghost predicate NoneLost(s: State) {
    forall k :: 0 <= k < |s.log| && s.log[k].1.status.Ok? ==> s.log[k].0 in s.landed || PointerDue(s, s.log[k].0)
  }

  lemma PointerStaysDue(sha: string -> string, s: State, step: Step, day: DayKey)
    requires Enabled(s, step) && !LosesPointer(s, step) && PointerDue(s, day)
    ensures day in Apply(sha, s, step).landed || PointerDue(Apply(sha, s, step), day)
  {
    var r :| 0 <= r < |s.runs| && s.runs[r].day == day && s.runs[r].pc.PuttingPointer?;
    LogStep(sha, s, step);
    OthersStay(sha, s, step, r);
    if step.Begin? || step.r != r {
      assert Apply(sha, s, step).runs[r].pc.PuttingPointer?;
    }
  }

  lemma NoneLostStep(sha: string -> string, s: State, step: Step)
    requires NoneLost(s) && DraftInv(s) && Enabled(s, step) && !LosesPointer(s, step)
    ensures NoneLost(Apply(sha, s, step))
  {
    var t := Apply(sha, s, step);
    LogStep(sha, s, step);
    forall k | 0 <= k < |t.log| && t.log[k].1.status.Ok?
      ensures t.log[k].0 in t.landed || PointerDue(t, t.log[k].0)
    {
      if k < |s.log| {
        assert t.log[k] == s.log[k];
        if s.log[k].0 !in s.landed {
          PointerStaysDue(sha, s, step, s.log[k].0);
        }
      } else {
        assert GoodDraft(s.runs[step.r]);
        OthersStay(sha, s, step, step.r);
        assert t.runs[step.r].pc.PuttingPointer?;
      }
    }
  }

  lemma {:induction false} NoneLostRun(sha: string -> string, steps: seq<Step>)
    requires Run(sha, steps).Some? && Orderly(sha, steps)
    ensures NoneLost(Run(sha, steps).value)
    decreases |steps|
  {
    if steps != [] {
      NoneLostRun(sha, steps[..|steps| - 1]);
      LogInvRun(sha, steps[..|steps| - 1]);
      NoneLostStep(sha, Run(sha, steps[..|steps| - 1]).value, steps[|steps| - 1]);
    }
  }

  lemma {:induction false} AllLanded(log: seq<(DayKey, Manifest)>, landed: set<DayKey>, source: string)
    requires forall k :: 0 <= k < |log| && log[k].0.source == source && log[k].1.status.Ok? ==> log[k].0 in landed
    ensures LastLanded(log, landed, source) == LastOk(log, source)
  {
    if log != [] {
      AllLanded(log[..|log| - 1], landed, source);
    }
  }

  /** A pointer that is due is that of the last "ok" entry, so every earlier one of the source has landed. */
  lemma EarlierLanded(s: State, k: nat, i: nat)
    requires PointerInv(s) && LogInv(s) && NoneLost(s)
    requires k < i < |s.log| && s.log[k].0.source == s.log[i].0.source
    requires s.log[k].1.status.Ok? && s.log[i].1.status.Ok?
    ensures s.log[k].0 in s.landed
  {
  }

  /**
   * Where in addition every pointer write succeeds, that manifest is simply the most recent earlier "ok" one of the
   * source, whatever failed or skipped days lie between.
   */
  lemma UnchangedExactly(sha: string -> string, steps: seq<Step>, i: nat)
    requires Run(sha, steps).Some? && Orderly(sha, steps)
    requires i < |Run(sha, steps).value.log| && Run(sha, steps).value.log[i].1.status.Ok?
    ensures var log := Run(sha, steps).value.log;
            log[i].1.delta == Some(Unchanged) <==> LastOk(log[..i], log[i].0.source) == log[i].1.sha
  {
    var s := Run(sha, steps).value;
    OrderlyIsSeparate(sha, steps);
    UnchangedByPointer(sha, steps, i);
    PointerInvRun(sha, steps);
    LogInvRun(sha, steps);
    NoneLostRun(sha, steps);
    forall k | 0 <= k < i && s.log[..i][k].0.source == s.log[i].0.source && s.log[..i][k].1.status.Ok?
      ensures s.log[..i][k].0 in s.landed
    {
      EarlierLanded(s, k, i);
    }
    AllLanded(s.log[..i], s.landed, s.log[i].0.source);
  }

  // ---------------------------------------------------------------- why pointer writes must succeed

  lemma Extend(sha: string -> string, steps: seq<Step>, step: Step) returns (longer: seq<Step>)
    requires Run(sha, steps).Some? && Enabled(Run(sha, steps).value, step)
    ensures Run(sha, longer) == Some(Apply(sha, Run(sha, steps).value, step))
  {
    longer := steps + [step];
    assert longer[..|longer| - 1] == steps;
  }

  /** A new run checks the day and stands before its fetch. */
  lemma WalkToFetch(sha: string -> string, steps: seq<Step>, day: DayKey, invocation: string) returns (longer: seq<Step>)
    requires Run(sha, steps).Some? && day !in Run(sha, steps).value.manifests
    ensures Run(sha, longer).Some?
    ensures var s := Run(sha, steps).value;
            Run(sha, longer).value == s.(runs := s.runs + [CaptureRun(day, invocation, Fetching)])
  {
    var s := Run(sha, steps).value;
    longer := Extend(sha, steps, Begin(day, invocation));
    longer := Extend(sha, longer, Check(|s.runs|, false));
    assert Run(sha, longer).value.runs == s.runs + [CaptureRun(day, invocation, Fetching)];
  }

  /** A new run fetches a body and stands before storing it. */
  lemma WalkToBody(sha: string -> string, steps: seq<Step>, day: DayKey, body: string) returns (longer: seq<Step>)
    requires Run(sha, steps).Some? && day !in Run(sha, steps).value.manifests
    ensures Run(sha, longer).Some?
    ensures var s := Run(sha, steps).value;
            Run(sha, longer).value == s.(runs := s.runs + [CaptureRun(day, "manual", PuttingBody(body, "html"))])
  {
    var s := Run(sha, steps).value;
    var r := |s.runs|;
    longer := WalkToFetch(sha, steps, day, "manual");
    longer := Extend(sha, longer, Fetch(r, Response(200, body, "html")));
    assert Run(sha, longer).value.runs == s.runs + [CaptureRun(day, "manual", PuttingBody(body, "html"))];
  }

  /** The manifest a run on `day` writes when it finds `previous` in the pointer. */
  function OkManifest(sha: string -> string, day: DayKey, body: string, previous: Option<string>): Manifest {
    Manifest(Ok, "manual", Some(sha(body)), Some(BodyKey(day, "html")),
             Some(if previous == Some(sha(body)) then Unchanged else Changed))
  }

  /** It stores the body, reads the pointer and stands before its manifest write. */
  lemma WalkToManifest(sha: string -> string, steps: seq<Step>, day: DayKey, body: string) returns (longer: seq<Step>)
    requires Run(sha, steps).Some? && day !in Run(sha, steps).value.manifests
    ensures Run(sha, longer).Some?
    ensures var s, t := Run(sha, steps).value, Run(sha, longer).value;
            && t.manifests == s.manifests && t.log == s.log && t.pointers == s.pointers
            && |t.runs| == |s.runs| + 1 && t.runs[|s.runs|].day == day
            && t.runs[|s.runs|].pc == WritingOk(OkManifest(sha, day, body, PreviousSha(s, day.source)))
  {
    var r := |Run(sha, steps).value.runs|;
    longer := WalkToBody(sha, steps, day, body);
    longer := Extend(sha, longer, PutBody(r, Stored));
    longer := Extend(sha, longer, ReadPointer(r, false));
  }

  /** It writes the manifest, and nothing but the log and the manifest changes. */
  lemma WalkPastManifest(sha: string -> string, steps: seq<Step>, day: DayKey, body: string) returns (longer: seq<Step>)
    requires Run(sha, steps).Some? && day !in Run(sha, steps).value.manifests
    ensures Run(sha, longer).Some?
    ensures var s, t := Run(sha, steps).value, Run(sha, longer).value;
            var m := OkManifest(sha, day, body, PreviousSha(s, day.source));
            && t.manifests == s.manifests[day := m] && t.log == s.log + [(day, m)] && t.pointers == s.pointers
            && |t.runs| == |s.runs| + 1 && t.runs[|s.runs|].day == day && t.runs[|s.runs|].pc == PuttingPointer(m)
  {
    var r := |Run(sha, steps).value.runs|;
    longer := WalkToManifest(sha, steps, day, body);
    longer := Extend(sha, longer, WriteOk(r, Stored));
  }

  /** Its pointer write fails, and the "failed" manifest finds the day taken. */
  lemma LosePointer(sha: string -> string, steps: seq<Step>, r: nat) returns (longer: seq<Step>)
    requires Run(sha, steps).Some? && r < |Run(sha, steps).value.runs|
    requires var s := Run(sha, steps).value; s.runs[r].pc.PuttingPointer? && s.runs[r].day in s.manifests
    ensures Run(sha, longer).Some?
    ensures var s, t := Run(sha, steps).value, Run(sha, longer).value;
            && t.manifests == s.manifests && t.log == s.log && t.pointers == s.pointers && |t.runs| == |s.runs|
            && t.runs[r].pc == Done(Skipped)
  {
    longer := Extend(sha, steps, PutPointer(r, NotStored));
    longer := Extend(sha, longer, Record(r, Stored));
  }

  /** One failed pointer write makes the next day's identical content read "changed". */
  lemma LostPointerMisreports(sha: string -> string, source: string, date: int, body: string) returns (steps: seq<Step>)
    ensures Run(sha, steps).Some?
    ensures var log := Run(sha, steps).value.log;
            && |log| == 2 && log[1].0 == DayKey(source, date + 1) && log[1].1.status.Ok?
            && LastOk(log[..1], source) == log[1].1.sha && log[1].1.delta == Some(Changed)
  {
    var first, second := DayKey(source, date), DayKey(source, date + 1);
    steps := WalkPastManifest(sha, [], first, body);
    steps := LosePointer(sha, steps, 0);
    var m := OkManifest(sha, first, body, None);
    assert Run(sha, steps).value.log == [(first, m)];
    steps := WalkPastManifest(sha, steps, second, body);
    assert Run(sha, steps).value.log[..1] == [(first, m)];
  }

  // ---------------------------------------------------------------- what a call reports

  /** A run that has written its day's manifest is before its pointer, in the exception branch, or done. */
  predicate PastWriting(pc: Pc) {
    pc.PuttingPointer? || (pc.Recording? && pc.guarded) || pc.Done?
  }

  ghost predicate WritersPast(s: State) {
    forall day :: day in s.writers ==> s.writers[day] < |s.runs| && PastWriting(s.runs[s.writers[day]].pc)
  }

  lemma PastWritingStays(sha: string -> string, s: State, step: Step)
    requires Enabled(s, step) && !step.Begin? && PastWriting(s.runs[step.r].pc)
    ensures PastWriting(NextPc(sha, s, step))
  {
  }

  lemma WritesThenPast(sha: string -> string, s: State, step: Step)
    requires Enabled(s, step) && Writes(s, step)
    ensures PastWriting(NextPc(sha, s, step))
    ensures Apply(sha, s, step).writers == s.writers[s.runs[step.r].day := step.r]
  {
  }

  lemma WritersPastStep(sha: string -> string, s: State, step: Step)
    requires WritersPast(s) && Enabled(s, step)
    ensures WritersPast(Apply(sha, s, step))
  {
    var t := Apply(sha, s, step);
    if Writes(s, step) {
      WritesThenPast(sha, s, step);
    }
    forall day | day in t.writers
      ensures t.writers[day] < |t.runs| && PastWriting(t.runs[t.writers[day]].pc)
    {
      OthersStay(sha, s, step, t.writers[day]);
      if !step.Begin? && t.writers[day] == step.r && PastWriting(s.runs[step.r].pc) {
        PastWritingStays(sha, s, step);
      }
    }
  }

  lemma {:induction false} WritersPastRun(sha: string -> string, steps: seq<Step>)
    requires Run(sha, steps).Some?
    ensures WritersPast(Run(sha, steps).value)
    decreases |steps|
  {
    if steps != [] {
      WritersPastRun(sha, steps[..|steps| - 1]);
      WritersPastStep(sha, Run(sha, steps[..|steps| - 1]).value, steps[|steps| - 1]);
    }
  }

  /**
   * In every interleaving, what a run reports whose own manifest stands when it takes its last step: "ok" exactly when
   * its pointer write is acknowledged, "skipped" exactly when its "failed" record finds that manifest, "failed" when
   * not even that request arrives; it never raises.
   */
  lemma OwnManifestReport(sha: string -> string, steps: seq<Step>, step: Step)
    requires Run(sha, steps).Some? && Enabled(Run(sha, steps).value, step) && !step.Begin?
    requires var s := Run(sha, steps).value;
             s.runs[step.r].day in s.writers && s.writers[s.runs[step.r].day] == step.r
    requires NextPc(sha, Run(sha, steps).value, step).Done? && !Run(sha, steps).value.runs[step.r].pc.Done?
    ensures var outcome := NextPc(sha, Run(sha, steps).value, step).outcome;
            && (outcome == Captured <==> step.PutPointer? && step.put.Stored?)
            && (outcome == Skipped <==> step.Record? && !step.put.NotStored?)
            && (outcome == CaptureFailed <==> step.Record? && step.put.NotStored?)
            && outcome != Raised
  {
    WritersPastRun(sha, steps);
    LogInvRun(sha, steps);
  }

  /**
   * In every interleaving, "skipped" means that the day's manifest exists. It is another run's, as documented, but for
   * a run in its exception branch, which may find the one it has written itself.
   */
  lemma SkippedFindsManifest(sha: string -> string, steps: seq<Step>, step: Step)
    requires Run(sha, steps).Some? && Enabled(Run(sha, steps).value, step) && !step.Begin?
    requires NextPc(sha, Run(sha, steps).value, step) == Done(Skipped)
    ensures var s := Run(sha, steps).value;
            var run := s.runs[step.r];
            && run.day in s.manifests && run.day in s.writers
            && (s.writers[run.day] == step.r ==> step.Record? && run.pc.guarded)
  {
    WritersPastRun(sha, steps);
    LogInvRun(sha, steps);
  }

  /**
   * A step ends its run with an exception exactly when the check fails, or the record of an early failure fails
   * without finding the day already written.
   */
  lemma RaisesExactly(sha: string -> string, s: State, step: Step)
    requires Enabled(s, step) && !step.Begin?
    ensures var run := s.runs[step.r];
            NextPc(sha, s, step) == Done(Raised) <==>
              || (step.Check? && step.fails)
              || (step.Record? && !run.pc.guarded && !step.put.Stored? && (step.put.NotStored? || run.day !in s.manifests))
  {
  }

  /** The failures recorded outside the exception branch are those of the fetch, and no others. */
  lemma UnguardedExactly(sha: string -> string, s: State, step: Step)
    requires Enabled(s, step) && !step.Begin?
    ensures var next := NextPc(sha, s, step);
            next.Recording? && !next.guarded <==> step.Fetch? && !(step.fetched.Response? && step.fetched.status == 200)
  {
  }

  /** A failed fetch whose record cannot be stored raises, from any history. */
  lemma CaptureCanRaise(sha: string -> string, steps: seq<Step>, day: DayKey, invocation: string) returns (longer: seq<Step>)
    requires Run(sha, steps).Some? && day !in Run(sha, steps).value.manifests
    ensures Run(sha, longer).Some?
    ensures var s, t := Run(sha, steps).value, Run(sha, longer).value;
            |t.runs| == |s.runs| + 1 && t.runs[|s.runs|] == CaptureRun(day, invocation, Done(Raised))
  {
    var r := |Run(sha, steps).value.runs|;
    longer := WalkToFetch(sha, steps, day, invocation);
    longer := Extend(sha, longer, Fetch(r, FetchError));
    longer := Extend(sha, longer, Record(r, NotStored));
  }

  /** A run can be killed wherever it stands, and leaves what is stored as it is. */
  lemma KilledAnywhere(sha: string -> string, steps: seq<Step>, r: nat)
    requires Run(sha, steps).Some? && r < |Run(sha, steps).value.runs| && !Run(sha, steps).value.runs[r].pc.Done?
    ensures var s := Run(sha, steps).value;
            Run(sha, steps + [Kill(r)]) == Some(s.(runs := s.runs[r := s.runs[r].(pc := Done(Killed))]))
  {
    var longer := steps + [Kill(r)];
    assert longer[..|longer| - 1] == steps;
  }

  // ---------------------------------------------------------------- what a manifest says

  /** A failed manifest compares nothing; an "ok" one has its digest, its body and the comparison. */
  predicate Shaped(m: Manifest) {
    && (m.status.Failed? ==> m.delta.None?)
    && (m.status.Ok? ==> m.sha.Some? && m.bodyKey.Some? && m.delta.Some?)
  }

  predicate DraftShaped(pc: Pc) {
    && (pc.Recording? ==> pc.draft.status.Failed? && Shaped(pc.draft))
    && (pc.ReadingPointer? ==> pc.draft.status.Ok? && pc.draft.sha.Some? && pc.draft.bodyKey.Some?)
    && (pc.WritingOk? || pc.PuttingPointer? ==> pc.draft.status.Ok? && Shaped(pc.draft))
  }

  ghost predicate ShapeInv(s: State) {
    && (forall day :: day in s.manifests ==> Shaped(s.manifests[day]))
    && (forall r :: 0 <= r < |s.runs| ==> DraftShaped(s.runs[r].pc))
  }

  lemma DraftStep(sha: string -> string, s: State, step: Step)
    requires Enabled(s, step) && !step.Begin? && DraftShaped(s.runs[step.r].pc)
    ensures DraftShaped(NextPc(sha, s, step))
  {
  }

  lemma ShapeStep(sha: string -> string, s: State, step: Step)
    requires ShapeInv(s) && Enabled(s, step)
    ensures ShapeInv(Apply(sha, s, step))
  {
    if !step.Begin? {
      var t, run := Apply(sha, s, step), s.runs[step.r];
      assert DraftShaped(run.pc);
      DraftStep(sha, s, step);
      assert t.manifests == if Writes(s, step) then s.manifests[run.day := run.pc.draft] else s.manifests;
      assert t.runs == s.runs[step.r := run.(pc := NextPc(sha, s, step))];
    }
  }

  /** In every interleaving each stored manifest has this shape. */
  lemma {:induction false} ManifestsAreShaped(sha: string -> string, steps: seq<Step>)
    requires Run(sha, steps).Some?
    ensures ShapeInv(Run(sha, steps).value)
    decreases |steps|
  {
    if steps != [] {
      ManifestsAreShaped(sha, steps[..|steps| - 1]);
      ShapeStep(sha, Run(sha, steps[..|steps| - 1]).value, steps[|steps| - 1]);
    }
  }
}
