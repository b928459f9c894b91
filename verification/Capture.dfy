/**
 * Racing captures of public sources into a versioned object store (capture/handler.py).
 *
 * Each capture run handles one source on one UTC date, step by step. A manifest is written with a
 * conditional put (If-None-Match, section 13.1.2 of RFC 9110); bodies keep every version; the
 * rolling pointer of a source is overwritten. Every request may fail, may land without being
 * acknowledged, and a run may be killed anywhere. Dates are proleptic Gregorian day numbers.
 */
module Capture {
  import opened Wrappers

  datatype DayKey = DayKey(source: string, date: int)

  datatype BodyKey = BodyKey(day: DayKey, ext: string)

  datatype Delta = Unchanged | Changed

  datatype Status = Ok | Failed

  datatype Manifest = Manifest(
    status: Status, invocation: string, sha: Option<string>, bodyKey: Option<BodyKey>, delta: Option<Delta>)

  datatype Outcome = Skipped | Captured | CaptureFailed | Raised | Killed

  /** Where a run stands in `capture_one_source`. */
  datatype Pc =
    | Checking
    | Fetching
    | PuttingBody(body: string, ext: string)
    | ReadingPointer(draft: Manifest)
    | WritingOk(draft: Manifest)
    | PuttingPointer(draft: Manifest)
    | Recording(draft: Manifest, guarded: bool)   // writing a "failed" manifest; guarded: errors are swallowed
    | Done(outcome: Outcome)

  datatype CaptureRun = CaptureRun(day: DayKey, invocation: string, pc: Pc)

  /** `pointers` maps a source to the digest in its pointer object, `None` when that object is unusable. */
  datatype State = State(
    manifests: map<DayKey, Manifest>,
    writers: map<DayKey, nat>,          // the run that wrote each manifest
    log: seq<(DayKey, Manifest)>,       // manifest writes in order
    bodies: map<BodyKey, seq<string>>,  // every stored version
    pointers: map<string, Option<string>>,
    landed: set<DayKey>,                // days whose "ok" manifest was followed by its pointer
    runs: seq<CaptureRun>)

  datatype FetchOutcome = FetchError | Response(status: int, body: string, ext: string)

  /** What becomes of a put: stored and acknowledged, stored without acknowledgement, or not stored. */
  datatype PutOutcome = Stored | StoredUnacknowledged | NotStored

  datatype Step =
    | Begin(day: DayKey, invocation: string)
    | Check(r: nat, fails: bool)
    | Fetch(r: nat, fetched: FetchOutcome)
    | PutBody(r: nat, put: PutOutcome)
    | ReadPointer(r: nat, fails: bool)
    | WriteOk(r: nat, put: PutOutcome)
    | PutPointer(r: nat, put: PutOutcome)
    | Record(r: nat, put: PutOutcome)
    | Kill(r: nat)

  /** A run standing at `pc` can take the step. */
  predicate Ready(step: Step, pc: Pc) {
    match step
    case Begin(_, _) => true
    case Check(_, _) => pc.Checking?
    case Fetch(_, _) => pc.Fetching?
    case PutBody(_, _) => pc.PuttingBody?
    case ReadPointer(_, _) => pc.ReadingPointer?
    case WriteOk(_, _) => pc.WritingOk?
    case PutPointer(_, _) => pc.PuttingPointer?
    case Record(_, _) => pc.Recording?
    case Kill(_) => !pc.Done?
  }

  predicate Enabled(s: State, step: Step) {
    step.Begin? || (step.r < |s.runs| && Ready(step, s.runs[step.r].pc))
  }

  function Move(s: State, r: nat, pc: Pc): State
    requires r < |s.runs|
  {
    s.(runs := s.runs[r := s.runs[r].(pc := pc)])
  }

  function FailedManifest(invocation: string, sha: Option<string>, bodyKey: Option<BodyKey>): Manifest {
    Manifest(Failed, invocation, sha, bodyKey, None)
  }

  /** The manifest of the exception branch: it keeps the digest, and the body key once the body landed. */
  function Downgraded(m: Manifest): Manifest {
    FailedManifest(m.invocation, m.sha, m.bodyKey)
  }

  function Versions(s: State, key: BodyKey): seq<string> {
    if key in s.bodies then s.bodies[key] else []
  }

  /** The digest read from the rolling pointer. */
  function PreviousSha(s: State, source: string): Option<string> {
    if source in s.pointers then s.pointers[source] else None
  }

  /** What the step stores: bodies, pointers, and a manifest where the conditional put finds none. */
  function Effect(s: State, step: Step): State
    requires Enabled(s, step) && !step.Begin?
  {
    var run := s.runs[step.r];
    if Writes(s, step) then
      s.(manifests := s.manifests[run.day := run.pc.draft],
         writers := s.writers[run.day := step.r],
         log := s.log + [(run.day, run.pc.draft)])
    else if step.PutBody? && !step.put.NotStored? then
      var key := BodyKey(run.day, run.pc.ext);
      s.(bodies := s.bodies[key := Versions(s, key) + [run.pc.body]])
    else if step.PutPointer? && !step.put.NotStored? then
      s.(pointers := s.pointers[run.day.source := run.pc.draft.sha], landed := s.landed + {run.day})
    else s
  }

  /** Whether the step writes the manifest of its run's day. */
  predicate Writes(s: State, step: Step)
    requires Enabled(s, step)
  {
    (step.WriteOk? || step.Record?) && !step.put.NotStored? && s.runs[step.r].day !in s.manifests
  }

  /** Where the step takes its run, with the exception branches of the source. */
  function NextPc(sha: string -> string, s: State, step: Step): Pc
    requires Enabled(s, step) && !step.Begin?
  {
    var run := s.runs[step.r];
    match step
    case Check(_, fails) =>
      if fails then Done(Raised) else if run.day in s.manifests then Done(Skipped) else Fetching
    case Fetch(_, fetched) =>
      (match fetched
       case FetchError => Recording(FailedManifest(run.invocation, None, None), false)
       case Response(status, body, ext) =>
         if status == 200 then PuttingBody(body, ext)
         else Recording(FailedManifest(run.invocation, Some(sha(body)), None), false))
    case PutBody(_, put) =>
      var digest := Some(sha(run.pc.body));
      if put.Stored? then ReadingPointer(Manifest(Ok, run.invocation, digest, Some(BodyKey(run.day, run.pc.ext)), None))
      else Recording(FailedManifest(run.invocation, digest, None), true)
    case ReadPointer(_, fails) =>
      if fails then Recording(Downgraded(run.pc.draft), true)
      else WritingOk(run.pc.draft.(delta := Some(if PreviousSha(s, run.day.source) == run.pc.draft.sha then Unchanged else Changed)))
    case WriteOk(_, put) =>
      if put.NotStored? then Recording(Downgraded(run.pc.draft), true)
      else if run.day in s.manifests then Done(Skipped)
      else if put.Stored? then PuttingPointer(run.pc.draft)
      else Recording(Downgraded(run.pc.draft), true)
    case PutPointer(_, put) =>
      if put.Stored? then Done(Captured) else Recording(Downgraded(run.pc.draft), true)
    case Record(_, put) =>
      if !put.NotStored? && run.day in s.manifests then Done(Skipped)
      else if put.Stored? || run.pc.guarded then Done(CaptureFailed)
      else Done(Raised)
    case Kill(_) => Done(Killed)
  }

  function Apply(sha: string -> string, s: State, step: Step): State
    requires Enabled(s, step)
  {
    if step.Begin? then s.(runs := s.runs + [CaptureRun(step.day, step.invocation, Checking)])
    else Move(Effect(s, step), step.r, NextPc(sha, s, step))
  }

  const EMPTY := State(map[], map[], [], map[], map[], {}, [])

  /** The state the steps lead to; `None` when some step was not enabled. */
  function Walk(sha: string -> string, s: State, steps: seq<Step>): Option<State>
    decreases |steps|
  {
    if steps == [] then Some(s)
    else
      var before := Walk(sha, s, steps[..|steps| - 1]);
      if before.Some? && Enabled(before.value, steps[|steps| - 1]) then
        Some(Apply(sha, before.value, steps[|steps| - 1]))
      else
        None
  }

  /** The state a history of steps ends in. */
  function Run(sha: string -> string, steps: seq<Step>): Option<State> {
    Walk(sha, EMPTY, steps)
  }

  // ---------------------------------------------------------------- change detection

  /** The digest of the last "ok" manifest of a source. */
  function LastOk(log: seq<(DayKey, Manifest)>, source: string): Option<string> {
    if log == [] then None
    else
      var (day, m) := log[|log| - 1];
      if day.source == source && m.status.Ok? then m.sha else LastOk(log[..|log| - 1], source)
  }

  /** The digest of the last "ok" manifest of a source whose pointer landed. */
  function LastLanded(log: seq<(DayKey, Manifest)>, landed: set<DayKey>, source: string): Option<string> {
    if log == [] then None
    else
      var (day, m) := log[|log| - 1];
      if day.source == source && m.status.Ok? && day in landed then m.sha else LastLanded(log[..|log| - 1], landed, source)
  }

  /** Some two unfinished runs handle the same source. */
  predicate Overlapping(s: State) {
    exists a, b :: 0 <= a < b < |s.runs| && !s.runs[a].pc.Done? && !s.runs[b].pc.Done? && s.runs[a].day.source == s.runs[b].day.source
  }

  /** No two runs of a source ever overlap. */
  predicate Separate(sha: string -> string, steps: seq<Step>)
    requires Run(sha, steps).Some?
    decreases |steps|
  {
    !Overlapping(Run(sha, steps).value) && (steps == [] || Separate(sha, steps[..|steps| - 1]))
  }

  /** The step leaves an "ok" manifest without its pointer. */
  predicate LosesPointer(s: State, step: Step) {
    || (step.WriteOk? && step.put.StoredUnacknowledged?)
    || (step.PutPointer? && step.put.NotStored?)
    || (step.Kill? && step.r < |s.runs| && s.runs[step.r].pc.PuttingPointer?)
  }

  /** No two runs of a source overlap, and every pointer write that is due succeeds. */
  predicate Orderly(sha: string -> string, steps: seq<Step>)
    requires Run(sha, steps).Some?
    decreases |steps|
  {
    && !Overlapping(Run(sha, steps).value)
    && (steps == [] ||
        (var before := steps[..|steps| - 1];
         Orderly(sha, before) && !LosesPointer(Run(sha, before).value, steps[|steps| - 1])))
  }
}
