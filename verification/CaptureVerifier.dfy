/** The daily verifier over the manifests (capture/verifier.py). */
module CaptureVerifier {
  import opened Wrappers
  import opened Capture

  const OK := "ok"
  const FAILED := "failed"
  const MISSING := "missing"
  const MANUAL_ONLY := "manual_only"
  const SCHEDULED := "scheduled"

  /** Day number of 2026-07-06, from which the invocation field is checked. */
  const INVOCATION_CHECK_STARTS := 739_803

  /** What reading a manifest object gives: the fields of interest, absent when missing or not text. */
  datatype Reading = Reading(status: Option<string>, invocation: Option<string>)

  /** `_resolve_manifest_status`. */
  function Resolve(reading: Option<Reading>, today: int): string {
    if reading.None? then MISSING
    else if reading.value.status.None? then FAILED
    else if reading.value.status.value != OK then reading.value.status.value
    else if today >= INVOCATION_CHECK_STARTS && reading.value.invocation != Some(SCHEDULED) then MANUAL_ONLY
    else OK
  }

  function StatusText(status: Status): string {
    if status.Ok? then OK else FAILED
  }

  function ReadManifest(s: State, day: DayKey): Option<Reading> {
    if day in s.manifests then Some(Reading(Some(StatusText(s.manifests[day].status)), Some(s.manifests[day].invocation))) else None
  }

  function VerifierStatus(s: State, day: DayKey): string {
    Resolve(ReadManifest(s, day), day.date)
  }

  /** The first write of the day was "ok", and by the schedule once that is asked for. */
  predicate Evidenced(s: State, day: DayKey) {
    && day in s.manifests && s.manifests[day].status.Ok?
    && (day.date >= INVOCATION_CHECK_STARTS ==> s.manifests[day].invocation == "scheduled")
  }

  /** Each of the four results, in terms of the manifest that stands for the day. */
  ghost predicate Reports(s: State, day: DayKey, result: string) {
    && (result == "missing" <==> day !in s.manifests)
    && (result == "failed" <==> day in s.manifests && s.manifests[day].status.Failed?)
    && (result == "manual_only" <==> day in s.manifests && s.manifests[day].status.Ok? && !Evidenced(s, day))
    && (result == "ok" <==> Evidenced(s, day))
  }

  lemma StatusExactly(s: State, day: DayKey)
    ensures Reports(s, day, VerifierStatus(s, day))
  {
    FourStatuses();
  }

  lemma FourStatuses()
    ensures "ok" != "failed" && "ok" != "missing" && "ok" != "manual_only"
    ensures "failed" != "missing" && "failed" != "manual_only" && "missing" != "manual_only"
  {
    assert |"ok"| == 2 && |"failed"| == 6 && |"missing"| == 7 && |"manual_only"| == 11;
  }

  /** A manifest without a usable status reads as failed, and any status other than "ok" is passed on as it is. */
  lemma UntrustedExactly(reading: Reading, today: int)
    ensures reading.status.None? ==> Resolve(Some(reading), today) == "failed"
    ensures reading.status.Some? && reading.status.value != "ok" ==> Resolve(Some(reading), today) == reading.status.value
    ensures Resolve(Some(reading), today) == "ok" <==>
              reading.status == Some("ok") && (today < INVOCATION_CHECK_STARTS || reading.invocation == Some("scheduled"))
  {
    FourStatuses();
  }

  /** `verify_sources`: one result per source, in order, and whether all of them are "ok". */
  method VerifySources(s: State, sources: seq<string>, today: int) returns (results: seq<string>, allOk: bool)
    ensures |results| == |sources|
    ensures forall i :: 0 <= i < |sources| ==> results[i] == VerifierStatus(s, DayKey(sources[i], today))
    ensures forall i :: 0 <= i < |sources| ==> Reports(s, DayKey(sources[i], today), results[i])
    ensures allOk <==> forall source :: source in sources ==> Evidenced(s, DayKey(source, today))
  {
    results := [];
    for i := 0 to |sources|
      invariant |results| == i
      invariant forall k :: 0 <= k < i ==> results[k] == VerifierStatus(s, DayKey(sources[k], today))
      invariant forall k :: 0 <= k < i ==> Reports(s, DayKey(sources[k], today), results[k])
    {
      StatusExactly(s, DayKey(sources[i], today));
      results := results + [VerifierStatus(s, DayKey(sources[i], today))];
    }
    allOk := forall k :: 0 <= k < |results| ==> results[k] == OK;
    assert allOk ==> forall k :: 0 <= k < |sources| ==> results[k] == VerifierStatus(s, DayKey(sources[k], today)) == OK;
  }
}
