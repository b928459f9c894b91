/**
 * `capture_one_source` as the sequential code it is (capture/handler.py), run for one of any number of capture runs
 * over a shared bucket. Every stage is one step of `Capture` by that run; between two stages the other runs may take
 * any steps. The exception branches of the source are the places where a stage hands over to `Recording`.
 */
module CaptureHandler {
  import opened Wrappers
  import opened Capture
  import opened CaptureLaws

  lemma WalkOn(sha: string -> string, s: State, steps: seq<Step>, t: State, step: Step) returns (longer: seq<Step>)
    requires Walk(sha, s, steps) == Some(t) && Enabled(t, step)
    ensures Walk(sha, s, longer) == Some(Apply(sha, t, step))
  {
    longer := steps + [step];
    assert longer[..|longer| - 1] == steps;
  }

  /** Walks compose. */
  lemma {:induction false} WalkConcat(sha: string -> string, s: State, a: seq<Step>, b: seq<Step>)
    requires Walk(sha, s, a).Some?
    ensures Walk(sha, s, a + b) == Walk(sha, Walk(sha, s, a).value, b)
    decreases |b|
  {
    if b == [] {
      assert a + b == a;
    } else {
      WalkConcat(sha, s, a, b[..|b| - 1]);
      assert (a + b)[..|a + b| - 1] == a + b[..|b| - 1];
    }
  }

  /** None of the steps is taken by run `r`. */
  predicate Spares(steps: seq<Step>, r: nat) {
    forall i :: 0 <= i < |steps| ==> steps[i].Begin? || steps[i].r != r
  }

  lemma {:induction false} OthersSpare(sha: string -> string, s: State, steps: seq<Step>, r: nat)
    requires Walk(sha, s, steps).Some? && Spares(steps, r) && r < |s.runs|
    ensures var t := Walk(sha, s, steps).value; r < |t.runs| && t.runs[r] == s.runs[r]
    decreases |steps|
  {
    if steps != [] {
      var before := steps[..|steps| - 1];
      OthersSpare(sha, s, before, r);
      SpareStep(sha, Walk(sha, s, before).value, steps[|steps| - 1], r);
    }
  }

  lemma SpareStep(sha: string -> string, s: State, step: Step, r: nat)
    requires Enabled(s, step) && r < |s.runs| && (step.Begin? || step.r != r)
    ensures var t := Apply(sha, s, step); r < |t.runs| && t.runs[r] == s.runs[r]
  {
  }

  /** What the outside world does to one call. */
  datatype Weather = Weather(
    checkFails: bool, fetched: FetchOutcome, putBody: PutOutcome, pointerFails: bool,
    writeOk: PutOutcome, putPointer: PutOutcome, record: PutOutcome)

  /** The fetch gave a page to archive. */
  predicate Fetched(fetched: FetchOutcome) {
    fetched.Response? && fetched.status == 200
  }

  /** The call's own "ok" manifest lands, acknowledged or not, where the day is absent. */
  predicate OkLands(env: Weather) {
    Fetched(env.fetched) && env.putBody.Stored? && !env.pointerFails && !env.writeOk.NotStored?
  }

  /** Both its manifest write and its pointer write are acknowledged. */
  predicate Acknowledged(env: Weather) {
    env.writeOk.Stored? && env.putPointer.Stored?
  }

  /**
   * What a call left alone reports, exactly. It raises when the check fails, or when a failed fetch cannot be recorded;
   * it reports "ok" when every request is acknowledged; and it reports "skipped" when the day was there before, but
   * also when its own "ok" manifest landed, something after it did not, and the "failed" record finds that manifest.
   */
  predicate Reports(env: Weather, present: bool, outcome: Outcome) {
    && outcome != Killed
    && (outcome == Raised <==> env.checkFails || (!present && !Fetched(env.fetched) && !env.record.Stored?))
    && (outcome == Captured <==> !env.checkFails && !present && OkLands(env) && Acknowledged(env))
    && (outcome == Skipped <==>
          !env.checkFails && (present || (OkLands(env) && !Acknowledged(env) && !env.record.NotStored?)))
  }

  /** The shared bucket and the runs that work on it. */
  class Bucket {
    var manifests: map<DayKey, Manifest>
    var bodies: map<BodyKey, seq<string>>
    var pointers: map<string, Option<string>>
    var writers: map<DayKey, nat>
    var log: seq<(DayKey, Manifest)>
    var landed: set<DayKey>
    var runs: seq<CaptureRun>

    function Here(): State
      reads this
    {
      State(manifests, writers, log, bodies, pointers, landed, runs)
    }

    constructor ()
      ensures Here() == EMPTY
    {
      manifests, bodies, pointers, writers, log, landed, runs := map[], map[], map[], map[], [], {}, [];
    }

    /** The steps lead from `start` to the bucket as it is. */
    ghost predicate Reached(sha: string -> string, start: State, steps: seq<Step>)
      reads this
    {
      Walk(sha, start, steps) == Some(Here())
    }

    /** Other runs take the given steps, if they can. */
    method Meanwhile(sha: string -> string, r: nat, others: seq<Step>, ghost start: State, ghost before: seq<Step>)
      returns (ghost steps: seq<Step>)
      requires r < |runs| && Reached(sha, start, before)
      modifies this
      ensures r < |runs| && runs[r] == old(runs[r]) && Reached(sha, start, steps)
      ensures others == [] ==> Here() == old(Here())
    {
      steps := before;
      var after := Walk(sha, Here(), others);
      if after.Some? && Spares(others, r) {
        OthersSpare(sha, Here(), others, r);
        WalkConcat(sha, start, before, others);
        steps := before + others;
        var s := after.value;
        manifests, bodies, pointers, writers := s.manifests, s.bodies, s.pointers, s.writers;
        log, landed, runs := s.log, s.landed, s.runs;
      }
    }

    /** `_write_manifest`: stores only where there is no manifest yet. */
    method WriteManifest(r: nat, m: Manifest, put: PutOutcome) returns (alreadyWritten: bool)
      requires r < |runs|
      modifies this`manifests, this`writers, this`log
      ensures alreadyWritten == (!put.NotStored? && runs[r].day in old(manifests))
      ensures var stored := !put.NotStored? && runs[r].day !in old(manifests);
              && manifests == (if stored then old(manifests)[runs[r].day := m] else old(manifests))
              && writers == (if stored then old(writers)[runs[r].day := r] else old(writers))
              && log == (if stored then old(log) + [(runs[r].day, m)] else old(log))
    {
      if put.NotStored? {
        return false;
      }
      if runs[r].day in manifests {
        return true;
      }
      manifests := manifests[runs[r].day := m];
      writers := writers[runs[r].day := r];
      log := log + [(runs[r].day, m)];
      alreadyWritten := false;
    }

    /** `manifest_exists`, outside every exception branch. */
    method CheckManifest(sha: string -> string, r: nat, fails: bool, ghost start: State, ghost before: seq<Step>)
      returns (ghost steps: seq<Step>)
      requires r < |runs| && runs[r].pc.Checking? && Reached(sha, start, before)
      modifies this`runs
      ensures Here() == Apply(sha, old(Here()), Check(r, fails)) && Reached(sha, start, steps)
      ensures r < |runs| && runs[r].day == old(runs[r].day)
      ensures runs[r].pc == if fails then Done(Raised) else if runs[r].day in manifests then Done(Skipped) else Fetching
    {
      steps := WalkOn(sha, start, before, Here(), Check(r, fails));
      var pc := if fails then Done(Raised) else if runs[r].day in manifests then Done(Skipped) else Fetching;
      runs := runs[r := runs[r].(pc := pc)];
    }

    method FetchSource(sha: string -> string, r: nat, fetched: FetchOutcome, ghost start: State, ghost before: seq<Step>)
      returns (ghost steps: seq<Step>)
      requires r < |runs| && runs[r].pc.Fetching? && Reached(sha, start, before)
      modifies this`runs
      ensures Here() == Apply(sha, old(Here()), Fetch(r, fetched)) && Reached(sha, start, steps)
      ensures r < |runs| && runs[r].day == old(runs[r].day)
      ensures if Fetched(fetched) then runs[r].pc.PuttingBody? else runs[r].pc.Recording? && !runs[r].pc.guarded
    {
      steps := WalkOn(sha, start, before, Here(), Fetch(r, fetched));
      var pc;
      match fetched {
        case FetchError =>
          pc := Recording(FailedManifest(runs[r].invocation, None, None), false);
        case Response(status, body, ext) =>
          if status != 200 {
            pc := Recording(FailedManifest(runs[r].invocation, Some(sha(body)), None), false);
          } else {
            pc := PuttingBody(body, ext);
          }
      }
      runs := runs[r := runs[r].(pc := pc)];
    }

    method StoreBody(sha: string -> string, r: nat, put: PutOutcome, ghost start: State, ghost before: seq<Step>)
      returns (ghost steps: seq<Step>)
      requires r < |runs| && runs[r].pc.PuttingBody? && Reached(sha, start, before)
      modifies this`runs, this`bodies
      ensures Here() == Apply(sha, old(Here()), PutBody(r, put)) && Reached(sha, start, steps)
      ensures r < |runs| && runs[r].day == old(runs[r].day)
      ensures if put.Stored? then runs[r].pc.ReadingPointer? else runs[r].pc.Recording? && runs[r].pc.guarded
    {
      steps := WalkOn(sha, start, before, Here(), PutBody(r, put));
      var pc := runs[r].pc;
      var key, digest := BodyKey(runs[r].day, pc.ext), Some(sha(pc.body));
      if !put.NotStored? {
        bodies := bodies[key := (if key in bodies then bodies[key] else []) + [pc.body]];
      }
      pc := if put.Stored? then ReadingPointer(Manifest(Ok, runs[r].invocation, digest, Some(key), None))
            else Recording(FailedManifest(runs[r].invocation, digest, None), true);
      runs := runs[r := runs[r].(pc := pc)];
    }

    method CompareWithPointer(sha: string -> string, r: nat, fails: bool, ghost start: State, ghost before: seq<Step>)
      returns (ghost steps: seq<Step>)
      requires r < |runs| && runs[r].pc.ReadingPointer? && Reached(sha, start, before)
      modifies this`runs
      ensures Here() == Apply(sha, old(Here()), ReadPointer(r, fails)) && Reached(sha, start, steps)
      ensures r < |runs| && runs[r].day == old(runs[r].day)
      ensures if fails then runs[r].pc.Recording? && runs[r].pc.guarded else runs[r].pc.WritingOk?
    {
      steps := WalkOn(sha, start, before, Here(), ReadPointer(r, fails));
      var draft := runs[r].pc.draft;
      var previous := if runs[r].day.source in pointers then pointers[runs[r].day.source] else None;
      var pc := if fails then Recording(Downgraded(draft), true)
                else WritingOk(draft.(delta := Some(if previous == draft.sha then Unchanged else Changed)));
      runs := runs[r := runs[r].(pc := pc)];
    }

    method StoreOkManifest(sha: string -> string, r: nat, put: PutOutcome, ghost start: State, ghost before: seq<Step>)
      returns (ghost steps: seq<Step>)
      requires r < |runs| && runs[r].pc.WritingOk? && Reached(sha, start, before)
      modifies this`runs, this`manifests, this`writers, this`log
      ensures Here() == Apply(sha, old(Here()), WriteOk(r, put)) && Reached(sha, start, steps)
      ensures r < |runs| && runs[r].day == old(runs[r].day)
      ensures if !put.NotStored? && runs[r].day in old(manifests) then runs[r].pc == Done(Skipped)
              else if put.Stored? then runs[r].pc.PuttingPointer?
              else runs[r].pc.Recording? && runs[r].pc.guarded
      ensures runs[r].day in manifests <==> runs[r].day in old(manifests) || !put.NotStored?
    {
      steps := WalkOn(sha, start, before, Here(), WriteOk(r, put));
      var draft := runs[r].pc.draft;
      var alreadyWritten := WriteManifest(r, draft, put);
      var pc := if alreadyWritten then Done(Skipped)
                else if put.Stored? then PuttingPointer(draft)
                else Recording(Downgraded(draft), true);
      runs := runs[r := runs[r].(pc := pc)];
    }

    method StorePointer(sha: string -> string, r: nat, put: PutOutcome, ghost start: State, ghost before: seq<Step>)
      returns (ghost steps: seq<Step>)
      requires r < |runs| && runs[r].pc.PuttingPointer? && Reached(sha, start, before)
      modifies this`runs, this`pointers, this`landed
      ensures Here() == Apply(sha, old(Here()), PutPointer(r, put)) && Reached(sha, start, steps)
      ensures r < |runs| && runs[r].day == old(runs[r].day)
      ensures if put.Stored? then runs[r].pc == Done(Captured) else runs[r].pc.Recording? && runs[r].pc.guarded
    {
      steps := WalkOn(sha, start, before, Here(), PutPointer(r, put));
      var draft := runs[r].pc.draft;
      if !put.NotStored? {
        pointers := pointers[runs[r].day.source := draft.sha];
        landed := landed + {runs[r].day};
      }
      var pc := if put.Stored? then Done(Captured) else Recording(Downgraded(draft), true);
      runs := runs[r := runs[r].(pc := pc)];
    }

    /** Writing a "failed" manifest; in the exception branch of the archive stage a failing write is swallowed. */
    method RecordFailure(sha: string -> string, r: nat, put: PutOutcome, ghost start: State, ghost before: seq<Step>)
      returns (ghost steps: seq<Step>)
      requires r < |runs| && runs[r].pc.Recording? && Reached(sha, start, before)
      modifies this`runs, this`manifests, this`writers, this`log
      ensures Here() == Apply(sha, old(Here()), Record(r, put)) && Reached(sha, start, steps)
      ensures r < |runs| && runs[r].day == old(runs[r].day) && runs[r].pc.Done?
      ensures runs[r].pc == Done(Raised) <==>
              !old(runs[r].pc.guarded) && !put.Stored? && (put.NotStored? || runs[r].day !in old(manifests))
      ensures runs[r].pc == Done(Skipped) <==> !put.NotStored? && runs[r].day in old(manifests)
      ensures runs[r].pc != Done(Captured) && runs[r].pc != Done(Killed)
    {
      steps := WalkOn(sha, start, before, Here(), Record(r, put));
      var draft, guarded := runs[r].pc.draft, runs[r].pc.guarded;
      var alreadyWritten := WriteManifest(r, draft, put);
      var pc := Done(if alreadyWritten then Skipped else if put.Stored? || guarded then CaptureFailed else Raised);
      runs := runs[r := runs[r].(pc := pc)];
    }

    /** The check, the fetch and the body write. */
    method Gather(sha: string -> string, r: nat, env: Weather, others: nat -> seq<Step>, ghost start: State, ghost before: seq<Step>)
      returns (ghost steps: seq<Step>)
      requires r < |runs| && runs[r].pc.Checking? && Reached(sha, start, before)
      modifies this
      ensures r < |runs| && runs[r].day == old(runs[r].day) && Reached(sha, start, steps)
      ensures runs[r].pc.ReadingPointer? || runs[r].pc.Recording? || runs[r].pc == Done(Skipped) || runs[r].pc == Done(Raised)
      ensures runs[r].pc == Done(Raised) <==> env.checkFails
      ensures runs[r].pc.Recording? && !runs[r].pc.guarded ==> !Fetched(env.fetched)
      ensures (forall k :: others(k) == []) ==>
                && manifests == old(manifests)
                && (runs[r].pc.Recording? && !runs[r].pc.guarded <==>
                      !env.checkFails && runs[r].day !in old(manifests) && !Fetched(env.fetched))
                && (runs[r].pc == Done(Skipped) <==> !env.checkFails && runs[r].day in old(manifests))
                && (runs[r].pc.ReadingPointer? <==>
                      !env.checkFails && runs[r].day !in old(manifests) && Fetched(env.fetched) && env.putBody.Stored?)
    {
      steps := Meanwhile(sha, r, others(0), start, before);
      steps := CheckManifest(sha, r, env.checkFails, start, steps);
      if runs[r].pc.Fetching? {
        steps := Meanwhile(sha, r, others(1), start, steps);
        steps := FetchSource(sha, r, env.fetched, start, steps);
        if runs[r].pc.PuttingBody? {
          steps := Meanwhile(sha, r, others(2), start, steps);
          steps := StoreBody(sha, r, env.putBody, start, steps);
        }
      }
    }

    /** The pointer comparison, the "ok" manifest and the pointer write. */
    method Archive(sha: string -> string, r: nat, env: Weather, others: nat -> seq<Step>, ghost start: State, ghost before: seq<Step>)
      returns (ghost steps: seq<Step>)
      requires r < |runs| && runs[r].pc.ReadingPointer? && Reached(sha, start, before)
      modifies this
      ensures r < |runs| && runs[r].day == old(runs[r].day) && Reached(sha, start, steps)
      ensures (runs[r].pc.Recording? && runs[r].pc.guarded) || runs[r].pc == Done(Skipped) || runs[r].pc == Done(Captured)
      ensures (forall k :: others(k) == []) && runs[r].day !in old(manifests) ==>
                && runs[r].pc != Done(Skipped)
                && (runs[r].day in manifests <==> !env.pointerFails && !env.writeOk.NotStored?)
                && (runs[r].pc == Done(Captured) <==> !env.pointerFails && env.writeOk.Stored? && env.putPointer.Stored?)
    {
      steps := Meanwhile(sha, r, others(3), start, before);
      steps := CompareWithPointer(sha, r, env.pointerFails, start, steps);
      if runs[r].pc.WritingOk? {
        steps := Meanwhile(sha, r, others(4), start, steps);
        steps := StoreOkManifest(sha, r, env.writeOk, start, steps);
        if runs[r].pc.PuttingPointer? {
          steps := Meanwhile(sha, r, others(5), start, steps);
          steps := StorePointer(sha, r, env.putPointer, start, steps);
        }
      }
    }

    /** The whole call, walking on from `before`. */
    method Capture(sha: string -> string, r: nat, env: Weather, others: nat -> seq<Step>, ghost start: State, ghost before: seq<Step>)
      returns (outcome: Outcome, ghost steps: seq<Step>)
      requires r < |runs| && runs[r].pc.Checking? && Reached(sha, start, before)
      modifies this
      ensures Reached(sha, start, steps)
      ensures r < |runs| && runs[r].day == old(runs[r].day) && runs[r].pc == Done(outcome)
      ensures outcome == Raised ==> env.checkFails || (!Fetched(env.fetched) && !env.record.Stored?)
      ensures (forall k :: others(k) == []) ==> Reports(env, runs[r].day in old(manifests), outcome)
    {
      steps := Gather(sha, r, env, others, start, before);
      if runs[r].pc.ReadingPointer? {
        steps := Archive(sha, r, env, others, start, steps);
      }
      if runs[r].pc.Recording? {
        steps := Meanwhile(sha, r, others(6), start, steps);
        steps := RecordFailure(sha, r, env.record, start, steps);
      }
      outcome := runs[r].pc.outcome;
    }

    /**
     * `capture_one_source`, from any reachable bucket, whatever fails and whatever the other runs do between two
     * stages: it finishes, in a reachable bucket, where the laws of every interleaving hold. It raises only when the
     * check fails or the record of an early failure does; left alone, what it reports is exactly `Reports`.
     */
    method CaptureOneSource(sha: string -> string, r: nat, env: Weather, others: nat -> seq<Step>, ghost history: seq<Step>)
      returns (outcome: Outcome, ghost steps: seq<Step>)
      requires r < |runs| && runs[r].pc.Checking? && Run(sha, history) == Some(Here())
      modifies this
      ensures Run(sha, steps) == Some(Here())
      ensures r < |runs| && runs[r].day == old(runs[r].day) && runs[r].pc == Done(outcome)
      ensures LogInv(Here()) && BodyInv(sha, Here())
      ensures outcome == Raised ==> env.checkFails || (!Fetched(env.fetched) && !env.record.Stored?)
      ensures (forall k :: others(k) == []) ==> Reports(env, runs[r].day in old(manifests), outcome)
    {
      outcome, steps := Capture(sha, r, env, others, EMPTY, history);
      LogInvRun(sha, steps);
      ManifestsAreBacked(sha, steps);
    }
  }
}
