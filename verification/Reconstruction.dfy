/** Evidence reconstruction of an invoice's charged days (src/core/reconstruction.py). */
module Reconstruction {
  import opened Wrappers
  import opened Sorting
  import opened Text

  /** A point in time and the offset it was written with. */
  datatype Instant = Instant(utc: int, offset: int)

  datatype Kind = Discharged | Available | FreeTimeStart | FreeTimeEnd | GateOut | AccessSnapshot | Unlisted(name: string)

  datatype Issue = SourceMissing | TypeNotAllowed | OwnershipMismatch | TimeInvalid | AfterCutoff | Duplicate

  datatype Row = Row(
    ref: string, kind: Kind, shipment: string, container: string, source: string, verified: bool, anchor: string,
    provenance: string, occurredAt: string, recordedAt: string, observedAt: Option<string>,
    effectiveFrom: Option<string>, effectiveTo: Option<string>, facts: string)

  datatype Event = Event(
    ref: string, kind: Kind, shipment: string, container: string, source: string, anchor: string, provenance: string,
    occurred: Instant, recorded: Instant, observed: Option<Instant>, effectiveFrom: Option<int>,
    effectiveTo: Option<int>, facts: string)

  /**
   * The case asked about, the readings of its texts, and the calendar: an instant's date as it was written, and the
   * date of a moment in the business time zone.
   */
  datatype Case = Case(
    shipment: string, container: string, cutoff: Instant, parseTime: string -> Option<Instant>,
    parseDate: string -> Option<int>, ownDate: Instant -> int, localDate: int -> int)

  datatype Validation = Validation(accepted: seq<Event>, rejected: seq<(string, Issue)>)

  // Validation

  /** An absent text reads as an absent value; a present one must parse. */
  function Optionally<T>(text: Option<string>, parse: string -> Option<T>): Option<Option<T>> {
    if text.None? then Some(None)
    else match parse(text.value) case None => None case Some(v) => Some(Some(v))
  }

  function NonEmpty(text: Option<string>): Option<string> {
    if text == Some("") then None else text
  }

  function Parse(c: Case, row: Row): Option<Event> {
    var occurred, recorded := c.parseTime(row.occurredAt), c.parseTime(row.recordedAt);
    var observed := Optionally(NonEmpty(row.observedAt), c.parseTime);
    var from, to := Optionally(row.effectiveFrom, c.parseDate), Optionally(row.effectiveTo, c.parseDate);
    if occurred.None? || recorded.None? || observed.None? || from.None? || to.None? then None
    else Some(Event(row.ref, row.kind, row.shipment, row.container, row.source, row.anchor, row.provenance,
                    occurred.value, recorded.value, observed.value, from.value, to.value, row.facts))
  }

  /** Every rule but the duplicate rule, in the order the rules are tried. */
  function Screen(c: Case, row: Row): Result<Event, Issue> {
    if !row.verified then Failure(SourceMissing)
    else if row.kind.Unlisted? then Failure(TypeNotAllowed)
    else if row.shipment != c.shipment || row.container != c.container then Failure(OwnershipMismatch)
    else match Parse(c, row)
      case None => Failure(TimeInvalid)
      case Some(event) => if event.recorded.utc > c.cutoff.utc then Failure(AfterCutoff) else Success(event)
  }

  // The rules in terms of the row's fields

  /** The row is a verified one of a listed type, about the case asked about. */
  ghost predicate OfCase(c: Case, row: Row) {
    row.verified && !row.kind.Unlisted? && row.shipment == c.shipment && row.container == c.container
  }

  /** Every time and date the row gives can be read; an empty observation time counts as none. */
  ghost predicate TimesParse(c: Case, row: Row) {
    && c.parseTime(row.occurredAt).Some? && c.parseTime(row.recordedAt).Some?
    && (row.observedAt.Some? && row.observedAt.value != "" ==> c.parseTime(row.observedAt.value).Some?)
    && (row.effectiveFrom.Some? ==> c.parseDate(row.effectiveFrom.value).Some?)
    && (row.effectiveTo.Some? ==> c.parseDate(row.effectiveTo.value).Some?)
  }

  /** And it was recorded no later than the knowledge cutoff. */
  ghost predicate Admissible(c: Case, row: Row) {
    OfCase(c, row) && TimesParse(c, row) && c.parseTime(row.recordedAt).value.utc <= c.cutoff.utc
  }

  /** The event says what the row says, with its times and dates read. */
  ghost predicate ReadsAs(c: Case, row: Row, e: Event) {
    && e.ref == row.ref && e.kind == row.kind && e.shipment == row.shipment && e.container == row.container
    && e.source == row.source && e.anchor == row.anchor && e.provenance == row.provenance && e.facts == row.facts
    && Some(e.occurred) == c.parseTime(row.occurredAt) && Some(e.recorded) == c.parseTime(row.recordedAt)
    && e.observed == (if row.observedAt.Some? && row.observedAt.value != "" then c.parseTime(row.observedAt.value) else None)
    && e.effectiveFrom == (if row.effectiveFrom.Some? then c.parseDate(row.effectiveFrom.value) else None)
    && e.effectiveTo == (if row.effectiveTo.Some? then c.parseDate(row.effectiveTo.value) else None)
  }

  /** The row fails this rule and none before it; whether it is a duplicate is not asked here. */
  ghost predicate Breaks(c: Case, row: Row, issue: Issue) {
    match issue
    case SourceMissing => !row.verified
    case TypeNotAllowed => row.verified && row.kind.Unlisted?
    case OwnershipMismatch => row.verified && !row.kind.Unlisted? && (row.shipment != c.shipment || row.container != c.container)
    case TimeInvalid => OfCase(c, row) && !TimesParse(c, row)
    case AfterCutoff => OfCase(c, row) && TimesParse(c, row) && c.parseTime(row.recordedAt).value.utc > c.cutoff.utc
    case Duplicate => false
  }

  /** Each rule turns away what fails it and passes every rule before it; what passes all reads as the row says. */
  lemma ScreenExactly(c: Case, row: Row)
    ensures Screen(c, row).Success? <==> Admissible(c, row)
    ensures Screen(c, row).Success? ==> ReadsAs(c, row, Screen(c, row).value)
    ensures forall issue :: Screen(c, row) == Failure(issue) <==> Breaks(c, row, issue)
  {
  }

  type Key = (Kind, Instant)

  function KeyOf(e: Event): Key {
    (e.kind, e.occurred)
  }

  /** Why a row is turned away when the keys in `seen` are taken. */
  function Verdict(c: Case, row: Row, seen: set<Key>): Result<Event, Issue> {
    match Screen(c, row)
    case Failure(issue) => Failure(issue)
    case Success(event) => if KeyOf(event) in seen then Failure(Duplicate) else Success(event)
  }

  function Taken(verdict: Result<Event, Issue>, seen: set<Key>): set<Key> {
    if verdict.Success? then seen + {KeyOf(verdict.value)} else seen
  }

  function Kept(c: Case, rows: seq<Row>, seen: set<Key>): seq<Event>
    decreases |rows|
  {
    if rows == [] then []
    else
      var verdict := Verdict(c, rows[0], seen);
      var rest := Kept(c, rows[1..], Taken(verdict, seen));
      if verdict.Success? then [verdict.value] + rest else rest
  }

  function Dropped(c: Case, rows: seq<Row>, seen: set<Key>): seq<(string, Issue)>
    decreases |rows|
  {
    if rows == [] then []
    else
      var verdict := Verdict(c, rows[0], seen);
      var rest := Dropped(c, rows[1..], Taken(verdict, seen));
      if verdict.Success? then rest else [(rows[0].ref, verdict.error)] + rest
  }

  /** The rows have one type and one time as written. */
  ghost predicate SameEvent(c: Case, a: Row, b: Row) {
    a.kind == b.kind && c.parseTime(a.occurredAt) == c.parseTime(b.occurredAt)
  }

  /** Row `i` is admissible, and no admissible row before it is the same event. */
  ghost predicate FirstAdmissible(c: Case, rows: seq<Row>, i: nat) {
    && i < |rows| && Admissible(c, rows[i])
    && forall j :: 0 <= j < i && Admissible(c, rows[j]) ==> !SameEvent(c, rows[j], rows[i])
  }

  lemma FirstAdmissibleTail(c: Case, rows: seq<Row>, i: nat)
    requires rows != []
    ensures FirstAdmissible(c, rows, i + 1) <==>
              FirstAdmissible(c, rows[1..], i) && (Admissible(c, rows[0]) ==> !SameEvent(c, rows[0], rows[i + 1]))
  {
    if i + 1 < |rows| {
      assert forall j :: 0 <= j < i ==> rows[1..][j] == rows[j + 1];
    }
  }

  /** The event is that of the first admissible row of its type and time. */
  ghost predicate Stands(c: Case, rows: seq<Row>, e: Event) {
    exists i: nat :: FirstAdmissible(c, rows, i) && ReadsAs(c, rows[i], e)
  }

  ghost predicate HasKey(c: Case, row: Row, e: Event) {
    row.kind == e.kind && c.parseTime(row.occurredAt) == Some(e.occurred)
  }

  lemma StandsTail(c: Case, rows: seq<Row>, e: Event)
    requires rows != []
    ensures Stands(c, rows, e) <==>
              || (Admissible(c, rows[0]) && ReadsAs(c, rows[0], e))
              || (Stands(c, rows[1..], e) && !(Admissible(c, rows[0]) && HasKey(c, rows[0], e)))
  {
    if Admissible(c, rows[0]) && ReadsAs(c, rows[0], e) {
      assert FirstAdmissible(c, rows, 0);
    }
    if Stands(c, rows[1..], e) && !(Admissible(c, rows[0]) && HasKey(c, rows[0], e)) {
      var i: nat :| FirstAdmissible(c, rows[1..], i) && ReadsAs(c, rows[1..][i], e);
      FirstAdmissibleTail(c, rows, i);
      assert FirstAdmissible(c, rows, i + 1) && ReadsAs(c, rows[i + 1], e);
    }
    if Stands(c, rows, e) {
      var i: nat :| FirstAdmissible(c, rows, i) && ReadsAs(c, rows[i], e);
      if i > 0 {
        FirstAdmissibleTail(c, rows, i - 1);
        assert FirstAdmissible(c, rows[1..], i - 1) && ReadsAs(c, rows[1..][i - 1], e);
      }
    }
  }

  lemma {:induction false} KeptExactly(c: Case, rows: seq<Row>, seen: set<Key>, e: Event)
    ensures e in Kept(c, rows, seen) <==> KeyOf(e) !in seen && Stands(c, rows, e)
    decreases |rows|
  {
    if rows != [] {
      ScreenExactly(c, rows[0]);
      KeptExactly(c, rows[1..], Taken(Verdict(c, rows[0], seen), seen), e);
      KeptHeadOrTail(c, rows, seen, e);
      StandsTail(c, rows, e);
      if Screen(c, rows[0]).Success? {
        ReadsOneWay(c, rows[0], e);
      }
    }
  }

  /** A row reads as one event only. */
  lemma ReadsOneWay(c: Case, row: Row, e: Event)
    requires Screen(c, row).Success?
    ensures ReadsAs(c, row, e) <==> Screen(c, row) == Success(e)
  {
  }

  lemma KeptHeadOrTail(c: Case, rows: seq<Row>, seen: set<Key>, e: Event)
    requires rows != []
    ensures var verdict := Verdict(c, rows[0], seen);
            e in Kept(c, rows, seen) <==> verdict == Success(e) || e in Kept(c, rows[1..], Taken(verdict, seen))
  {
  }

  /** Row `i` is turned away for this reason; a duplicate is admissible, like an earlier row of the same event. */
  ghost predicate TurnedAway(c: Case, rows: seq<Row>, seen: set<Key>, i: nat, issue: Issue) {
    && i < |rows|
    && if issue == Duplicate
       then Admissible(c, rows[i]) && (KeyTaken(c, rows[i], seen) || Repeats(c, rows, i))
       else Breaks(c, rows[i], issue)
  }

  ghost predicate Repeats(c: Case, rows: seq<Row>, i: nat)
    requires i < |rows|
  {
    exists j :: 0 <= j < i && Admissible(c, rows[j]) && SameEvent(c, rows[j], rows[i])
  }

  ghost predicate KeyTaken(c: Case, row: Row, seen: set<Key>) {
    c.parseTime(row.occurredAt).Some? && (row.kind, c.parseTime(row.occurredAt).value) in seen
  }

  lemma TurnedAwayTail(c: Case, rows: seq<Row>, seen: set<Key>, i: nat, issue: Issue)
    requires i + 1 < |rows|
    ensures TurnedAway(c, rows, seen, i + 1, issue) <==>
              TurnedAway(c, rows[1..], Taken(Verdict(c, rows[0], seen), seen), i, issue)
  {
    ScreenExactly(c, rows[0]);
    var rest, next := rows[1..], Taken(Verdict(c, rows[0], seen), seen);
    assert rest[i] == rows[i + 1];
    if Admissible(c, rows[i + 1]) {
      var key := (rows[i + 1].kind, c.parseTime(rows[i + 1].occurredAt).value);
      assert key in next <==> key in seen || (Admissible(c, rows[0]) && SameEvent(c, rows[0], rows[i + 1]));
      RepeatsTail(c, rows, i);
    }
  }

  lemma RepeatsTail(c: Case, rows: seq<Row>, i: nat)
    requires i + 1 < |rows|
    ensures Repeats(c, rows, i + 1) <==> (Admissible(c, rows[0]) && SameEvent(c, rows[0], rows[i + 1])) || Repeats(c, rows[1..], i)
  {
    if Repeats(c, rows[1..], i) {
      var j :| 0 <= j < i && Admissible(c, rows[1..][j]) && SameEvent(c, rows[1..][j], rows[1..][i]);
      assert Admissible(c, rows[j + 1]) && SameEvent(c, rows[j + 1], rows[i + 1]);
    }
    if Repeats(c, rows, i + 1) {
      var j :| 0 <= j < i + 1 && Admissible(c, rows[j]) && SameEvent(c, rows[j], rows[i + 1]);
      if j > 0 {
        assert Admissible(c, rows[1..][j - 1]) && SameEvent(c, rows[1..][j - 1], rows[1..][i]);
      }
    }
  }

  /** Some row of this reference is turned away for this reason. */
  ghost predicate Reported(c: Case, rows: seq<Row>, seen: set<Key>, ref: string, issue: Issue) {
    exists i: nat :: i < |rows| && rows[i].ref == ref && TurnedAway(c, rows, seen, i, issue)
  }

  lemma ReportedTail(c: Case, rows: seq<Row>, seen: set<Key>, ref: string, issue: Issue)
    requires rows != []
    ensures Reported(c, rows, seen, ref, issue) <==>
              || (rows[0].ref == ref && TurnedAway(c, rows, seen, 0, issue))
              || Reported(c, rows[1..], Taken(Verdict(c, rows[0], seen), seen), ref, issue)
  {
    var rest, next := rows[1..], Taken(Verdict(c, rows[0], seen), seen);
    if Reported(c, rest, next, ref, issue) {
      var i: nat :| i < |rest| && rest[i].ref == ref && TurnedAway(c, rest, next, i, issue);
      TurnedAwayTail(c, rows, seen, i, issue);
      assert rows[i + 1].ref == ref && TurnedAway(c, rows, seen, i + 1, issue);
    }
    if Reported(c, rows, seen, ref, issue) {
      var i: nat :| i < |rows| && rows[i].ref == ref && TurnedAway(c, rows, seen, i, issue);
      if i > 0 {
        TurnedAwayTail(c, rows, seen, i - 1, issue);
        assert rest[i - 1].ref == ref && TurnedAway(c, rest, next, i - 1, issue);
      }
    }
  }

  lemma FirstTurnedAway(c: Case, rows: seq<Row>, seen: set<Key>, issue: Issue)
    requires rows != []
    ensures Verdict(c, rows[0], seen) == Failure(issue) <==> TurnedAway(c, rows, seen, 0, issue)
  {
    ScreenExactly(c, rows[0]);
    assert !Repeats(c, rows, 0);
  }

  lemma DroppedHeadOrTail(c: Case, rows: seq<Row>, seen: set<Key>, ref: string, issue: Issue)
    requires rows != []
    ensures var verdict := Verdict(c, rows[0], seen);
            (ref, issue) in Dropped(c, rows, seen) <==>
              || (rows[0].ref == ref && verdict == Failure(issue))
              || (ref, issue) in Dropped(c, rows[1..], Taken(verdict, seen))
  {
  }

  lemma {:induction false} DroppedExactly(c: Case, rows: seq<Row>, seen: set<Key>, ref: string, issue: Issue)
    ensures (ref, issue) in Dropped(c, rows, seen) <==> Reported(c, rows, seen, ref, issue)
    decreases |rows|
  {
    if rows != [] {
      DroppedExactly(c, rows[1..], Taken(Verdict(c, rows[0], seen), seen), ref, issue);
      DroppedHeadOrTail(c, rows, seen, ref, issue);
      ReportedTail(c, rows, seen, ref, issue);
      FirstTurnedAway(c, rows, seen, issue);
    }
  }

  lemma {:induction false} EachRowCounted(c: Case, rows: seq<Row>, seen: set<Key>)
    ensures |Kept(c, rows, seen)| + |Dropped(c, rows, seen)| == |rows|
    decreases |rows|
  {
    if rows != [] {
      EachRowCounted(c, rows[1..], Taken(Verdict(c, rows[0], seen), seen));
    }
  }

  /** The sort key: when it happened, then its public reference. */
  predicate Earlier(a: Event, b: Event) {
    if a.occurred.utc != b.occurred.utc then a.occurred.utc < b.occurred.utc else AtMost(a.ref, b.ref)
  }

  function Validated(c: Case, rows: seq<Row>): Validation {
    Validation(Sort(Earlier, Kept(c, rows, {})), Dropped(c, rows, {}))
  }

  /** An event is accepted exactly when it is that of the first admissible row of its type and time. */
  lemma AcceptedExactly(c: Case, rows: seq<Row>, e: Event)
    ensures e in Validated(c, rows).accepted <==> Stands(c, rows, e)
  {
    KeptExactly(c, rows, {}, e);
    SortMembers(Earlier, Kept(c, rows, {}), e);
  }

  /** No evidence learned after the cutoff, unverified, or about anything but the case, is accepted. */
  lemma NothingInadmissible(c: Case, rows: seq<Row>, e: Event)
    requires e in Validated(c, rows).accepted
    ensures e.recorded.utc <= c.cutoff.utc && e.shipment == c.shipment && e.container == c.container && !e.kind.Unlisted?
    ensures exists i: nat :: i < |rows| && rows[i].verified && rows[i].ref == e.ref && Admissible(c, rows[i])
  {
    AcceptedExactly(c, rows, e);
  }

  lemma ScanStep(c: Case, rows: seq<Row>, i: nat, seen: set<Key>)
    requires i < |rows|
    ensures var verdict := Verdict(c, rows[i], seen);
            var next := Taken(verdict, seen);
            && (verdict.Success? ==>
                  && Kept(c, rows[i..], seen) == [verdict.value] + Kept(c, rows[i + 1..], next)
                  && Dropped(c, rows[i..], seen) == Dropped(c, rows[i + 1..], next))
            && (verdict.Failure? ==>
                  && Kept(c, rows[i..], seen) == Kept(c, rows[i + 1..], next)
                  && Dropped(c, rows[i..], seen) == [(rows[i].ref, verdict.error)] + Dropped(c, rows[i + 1..], next))
  {
    assert rows[i..][1..] == rows[i + 1..];
  }

  lemma Regroup<T>(done: seq<T>, x: T, rest: seq<T>)
    ensures done + ([x] + rest) == (done + [x]) + rest
  {
  }

  lemma ScanEnds(c: Case, rows: seq<Row>, accepted: seq<Event>, rejected: seq<(string, Issue)>, seen: set<Key>)
    requires accepted + Kept(c, rows[|rows|..], seen) == Kept(c, rows, {})
    requires rejected + Dropped(c, rows[|rows|..], seen) == Dropped(c, rows, {})
    ensures accepted == Kept(c, rows, {}) && rejected == Dropped(c, rows, {})
  {
    assert Kept(c, rows[|rows|..], seen) == [] && Dropped(c, rows[|rows|..], seen) == [];
  }

  lemma ValidationExactly(c: Case, rows: seq<Row>)
    ensures var v := Validated(c, rows);
            && (forall e :: e in v.accepted <==> Stands(c, rows, e))
            && (forall e :: e in v.accepted ==>
                  e.recorded.utc <= c.cutoff.utc && e.shipment == c.shipment && e.container == c.container && !e.kind.Unlisted?)
            && (forall ref, issue :: (ref, issue) in v.rejected <==> Reported(c, rows, {}, ref, issue))
            && |v.accepted| + |v.rejected| == |rows|
  {
    forall e
      ensures e in Validated(c, rows).accepted <==> Stands(c, rows, e)
    {
      AcceptedExactly(c, rows, e);
    }
    forall e | e in Validated(c, rows).accepted
      ensures e.recorded.utc <= c.cutoff.utc && e.shipment == c.shipment && e.container == c.container && !e.kind.Unlisted?
    {
      NothingInadmissible(c, rows, e);
    }
    forall ref, issue
      ensures (ref, issue) in Validated(c, rows).rejected <==> Reported(c, rows, {}, ref, issue)
    {
      DroppedExactly(c, rows, {}, ref, issue);
    }
    EachRowCounted(c, rows, {});
    assert |Sort(Earlier, Kept(c, rows, {}))| == |multiset(Kept(c, rows, {}))|;
  }

  /** `validate_events`. */
  method ValidateEvents(c: Case, rows: seq<Row>) returns (v: Validation)
    ensures v == Validated(c, rows)
    ensures forall e :: e in v.accepted <==> Stands(c, rows, e)
    ensures forall e :: e in v.accepted ==>
              e.recorded.utc <= c.cutoff.utc && e.shipment == c.shipment && e.container == c.container && !e.kind.Unlisted?
    ensures forall ref, issue :: (ref, issue) in v.rejected <==> Reported(c, rows, {}, ref, issue)
    ensures |v.accepted| + |v.rejected| == |rows|
  {
    var accepted, rejected, seen := [], [], {};
    for i := 0 to |rows|
      invariant accepted + Kept(c, rows[i..], seen) == Kept(c, rows, {})
      invariant rejected + Dropped(c, rows[i..], seen) == Dropped(c, rows, {})
    {
      ScanStep(c, rows, i, seen);
      var screened := Screen(c, rows[i]);
      if screened.Failure? {
        Regroup(rejected, (rows[i].ref, screened.error), Dropped(c, rows[i + 1..], seen));
        rejected := rejected + [(rows[i].ref, screened.error)];
      } else if KeyOf(screened.value) in seen {
        Regroup(rejected, (rows[i].ref, Duplicate), Dropped(c, rows[i + 1..], seen));
        rejected := rejected + [(rows[i].ref, Duplicate)];
      } else {
        Regroup(accepted, screened.value, Kept(c, rows[i + 1..], seen + {KeyOf(screened.value)}));
        seen := seen + {KeyOf(screened.value)};
        accepted := accepted + [screened.value];
      }
    }
    ScanEnds(c, rows, accepted, rejected, seen);
    v := Validation(Sort(Earlier, accepted), rejected);
    ValidationExactly(c, rows);
  }

  // Charge boundary

  datatype Boundary = Boundary(first: int, last: int)

  function IsKind(kind: Kind): Event -> bool {
    (e: Event) => e.kind == kind
  }

  function OfKind(events: seq<Event>, kind: Kind): seq<Event> {
    Filter(IsKind(kind), events)
  }

  /** `resolve_charge_boundary`. */
  function ChargeBoundary(c: Case, events: seq<Event>): Option<Boundary> {
    var freeTimeEnd, gateOut := OfKind(events, FreeTimeEnd), OfKind(events, GateOut);
    if freeTimeEnd == [] || gateOut == [] then None
    else
      var first, last := c.localDate(freeTimeEnd[0].occurred.utc) + 1, c.localDate(gateOut[0].occurred.utc);
      if last < first then None else Some(Boundary(first, last))
  }

  // Charged days

  datatype DayState = SourceComplete | InsufficientEvidence | ExcludedNotChargeable
  datatype Chargeability = Chargeable | NotChargeable | Unresolved
  datatype Coverage = PresentVerified | MissingCoverage
  datatype Requirement = NeedsAvailability | NeedsFreeTimeEnd | NeedsGateOut | NeedsTerminalAccess | NeedsChargeBoundary

  datatype Charge = Charge(rate: int, currency: string)

  datatype Day = Day(
    date: int, state: DayState, chargeability: Chargeability, coverage: Coverage, charge: Charge, refs: seq<string>,
    missing: seq<Requirement>)

  function Refs(events: seq<Event>): seq<string> {
    seq(|events|, i requires 0 <= i < |events| => events[i].ref)
  }

  function SnapshotDate(c: Case, e: Event): int {
    if e.effectiveFrom.Some? then e.effectiveFrom.value else c.ownDate(e.occurred)
  }

  function IsSnapshotOn(c: Case, date: int): Event -> bool {
    (e: Event) => e.kind == AccessSnapshot && SnapshotDate(c, e) == date
  }

  function SnapshotsOn(c: Case, events: seq<Event>, date: int): seq<Event> {
    Filter(IsSnapshotOn(c, date), events)
  }

  /** The boundary requirements no event meets, whichever day is asked about. */
  function BoundaryGaps(events: seq<Event>): seq<Requirement> {
    (if OfKind(events, Available) == [] then [NeedsAvailability] else [])
    + (if OfKind(events, FreeTimeEnd) == [] then [NeedsFreeTimeEnd] else [])
    + (if OfKind(events, GateOut) == [] then [NeedsGateOut] else [])
  }

  function BoundaryRefs(events: seq<Event>): seq<string> {
    Refs(OfKind(events, Available)) + Refs(OfKind(events, FreeTimeEnd)) + Refs(OfKind(events, GateOut))
  }

  predicate InWindow(boundary: Boundary, date: int) {
    boundary.first <= date <= boundary.last
  }

  /** One charged day, given what the events say about every day and the snapshot that sources this one. */
  function Adjudicate(
    charge: Charge, boundary: Option<Boundary>, gaps: seq<Requirement>, refs: seq<string>, accessRequired: bool,
    snapshot: Option<Event>, date: int): Day
  {
    var missing := gaps + if accessRequired && snapshot.None? then [NeedsTerminalAccess] else [];
    if missing == [] && boundary.Some? && !InWindow(boundary.value, date) then
      Day(date, ExcludedNotChargeable, NotChargeable, PresentVerified, charge, refs, [])
    else if missing != [] || boundary.None? then
      Day(date, InsufficientEvidence, Unresolved, MissingCoverage, charge, refs,
          if missing == [] then [NeedsChargeBoundary] else missing)
    else
      Day(date, SourceComplete, Chargeable, PresentVerified, charge,
          refs + if snapshot.Some? then [snapshot.value.ref] else [], [])
  }

  function First(events: seq<Event>): Option<Event> {
    if events == [] then None else Some(events[0])
  }

  function DayOf(c: Case, events: seq<Event>, boundary: Option<Boundary>, charge: Charge, date: int): Day {
    Adjudicate(charge, boundary, BoundaryGaps(events), BoundaryRefs(events),
               OfKind(events, AccessSnapshot) != [], First(SnapshotsOn(c, events, date)), date)
  }

  type Access = map<int, Event>

  function Lookup(access: Access, date: int): Option<Event> {
    if date in access then Some(access[date]) else None
  }

  /** The map of snapshots by the date they source: the earliest one of a date stands. */
  method IndexAccess(c: Case, events: seq<Event>) returns (access: Access)
    ensures forall date :: Lookup(access, date) == First(SnapshotsOn(c, events, date))
    ensures access != map[] <==> OfKind(events, AccessSnapshot) != []
  {
    access := map[];
    for i := 0 to |events|
      invariant forall date :: Lookup(access, date) == First(SnapshotsOn(c, events[..i], date))
      invariant access != map[] <==> OfKind(events[..i], AccessSnapshot) != []
    {
      var e := events[i];
      ghost var was := access;
      assert events[..i + 1] == events[..i] + [e];
      FilterConcat(IsKind(AccessSnapshot), events[..i], [e]);
      if e.kind == AccessSnapshot {
        var date := SnapshotDate(c, e);
        if date !in access {
          access := access[date := e];
        }
        assert date in access;
      }
      forall date
        ensures Lookup(access, date) == First(SnapshotsOn(c, events[..i + 1], date))
      {
        FilterConcat(IsSnapshotOn(c, date), events[..i], [e]);
        assert Lookup(was, date) == First(SnapshotsOn(c, events[..i], date));
      }
    }
    assert events[..|events|] == events;
  }

  function Days(c: Case, events: seq<Event>, boundary: Option<Boundary>, charge: Charge, dates: seq<int>): seq<Day> {
    seq(|dates|, i requires 0 <= i < |dates| => DayOf(c, events, boundary, charge, dates[i]))
  }

  /** `adjudicate_charged_days`. */
  method AdjudicateChargedDays(
    c: Case, dates: seq<int>, charge: Charge, events: seq<Event>, boundary: Option<Boundary>)
    returns (days: seq<Day>)
    ensures days == Days(c, events, boundary, charge, dates)
  {
    var access := IndexAccess(c, events);
    days := [];
    for i := 0 to |dates|
      invariant days == Days(c, events, boundary, charge, dates[..i])
    {
      var day := Adjudicate(charge, boundary, BoundaryGaps(events), BoundaryRefs(events), access != map[],
                            Lookup(access, dates[i]), dates[i]);
      assert day == DayOf(c, events, boundary, charge, dates[i]);
      days := days + [day];
    }
    assert dates[..|dates|] == dates;
  }

  // Terminal state

  datatype State = Complete | NeedsEvidence

  /** `resolve_terminal_state`. */
  function TerminalState(days: seq<Day>): State {
    if days != [] && forall i :: 0 <= i < |days| ==> days[i].state == SourceComplete then Complete else NeedsEvidence
  }

  datatype Outcome = Outcome(accepted: seq<Event>, boundary: Option<Boundary>, days: seq<Day>, state: State)

  /** The whole reconstruction of one invoice from the rows returned for it. */
  function Reconstruct(c: Case, rows: seq<Row>, charge: Charge, dates: seq<int>): Outcome {
    var accepted := Validated(c, rows).accepted;
    var boundary := ChargeBoundary(c, accepted);
    var days := Days(c, accepted, boundary, charge, dates);
    Outcome(accepted, boundary, days, TerminalState(days))
  }
}
