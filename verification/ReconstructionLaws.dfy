/** What the reconstruction owes its evidence: exactly the admissible rows count, and evidence only fills gaps. */
module ReconstructionLaws {
  import opened Wrappers
  import opened Sorting
  import opened Text
  import opened Reconstruction

  // Which rows are accepted

  predicate Claims(c: Case, row: Row, key: Key) {
    Screen(c, row).Success? && KeyOf(Screen(c, row).value) == key
  }

  /** Row `i` passes every rule and no earlier row that does, nor anything in `seen`, has its key. */
  predicate Accepts(c: Case, rows: seq<Row>, seen: set<Key>, i: nat)
    requires i < |rows|
  {
    && Screen(c, rows[i]).Success?
    && KeyOf(Screen(c, rows[i]).value) !in seen
    && forall j :: 0 <= j < i ==> !Claims(c, rows[j], KeyOf(Screen(c, rows[i]).value))
  }

  /** The reason a row is turned away, read off the rows before it. */
  function IssueOf(c: Case, row: Row): Issue {
    if Screen(c, row).Failure? then Screen(c, row).error else Duplicate
  }

  lemma AcceptsTail(c: Case, rows: seq<Row>, seen: set<Key>, i: nat)
    requires 0 < i < |rows|
    ensures Accepts(c, rows, seen, i) <==> Accepts(c, rows[1..], Taken(Verdict(c, rows[0], seen), seen), i - 1)
  {
    var next := Taken(Verdict(c, rows[0], seen), seen);
    if Accepts(c, rows[1..], next, i - 1) {
      forall j | 0 <= j < i
        ensures !Claims(c, rows[j], KeyOf(Screen(c, rows[i]).value))
      {
        if 0 < j {
          assert rows[j] == rows[1..][j - 1];
        }
      }
    } else if Accepts(c, rows, seen, i) {
      assert !Claims(c, rows[0], KeyOf(Screen(c, rows[i]).value));
      forall j | 0 <= j < i - 1
        ensures !Claims(c, rows[1..][j], KeyOf(Screen(c, rows[i]).value))
      {
        assert rows[1..][j] == rows[j + 1];
      }
    }
  }

  /** The rows at the positions `keep` marks, in order. */
  function Select<T>(s: seq<T>, keep: seq<bool>): seq<T>
    requires |s| == |keep|
  {
    if s == [] then []
    else if keep[0] then [s[0]] + Select(s[1..], keep[1..])
    else Select(s[1..], keep[1..])
  }

  /** `keep` marks every accepted row. */
  ghost predicate KeepsAccepted(c: Case, rows: seq<Row>, seen: set<Key>, keep: seq<bool>)
    requires |rows| == |keep|
  {
    forall i :: 0 <= i < |rows| && Accepts(c, rows, seen, i) ==> keep[i]
  }

  ghost predicate MarksAccepted(c: Case, rows: seq<Row>, seen: set<Key>, keep: seq<bool>)
    requires |rows| == |keep|
  {
    forall i :: 0 <= i < |rows| ==> (Accepts(c, rows, seen, i) <==> keep[i])
  }

  lemma KeepsAcceptedTail(c: Case, rows: seq<Row>, seen: set<Key>, keep: seq<bool>)
    requires |rows| == |keep| && rows != [] && KeepsAccepted(c, rows, seen, keep)
    ensures KeepsAccepted(c, rows[1..], Taken(Verdict(c, rows[0], seen), seen), keep[1..])
  {
    forall i | 0 <= i < |rows| - 1 && Accepts(c, rows[1..], Taken(Verdict(c, rows[0], seen), seen), i)
      ensures keep[1..][i]
    {
      AcceptsTail(c, rows, seen, i + 1);
    }
  }

  lemma MarksAcceptedTail(c: Case, rows: seq<Row>, seen: set<Key>, keep: seq<bool>)
    requires |rows| == |keep| && rows != [] && MarksAccepted(c, rows, seen, keep)
    ensures MarksAccepted(c, rows[1..], Taken(Verdict(c, rows[0], seen), seen), keep[1..])
  {
    forall i | 0 <= i < |rows| - 1
      ensures Accepts(c, rows[1..], Taken(Verdict(c, rows[0], seen), seen), i) <==> keep[1..][i]
    {
      AcceptsTail(c, rows, seen, i + 1);
    }
  }

  lemma KeptCons(c: Case, row: Row, rest: seq<Row>, seen: set<Key>)
    ensures var verdict := Verdict(c, row, seen);
            var others := Kept(c, rest, Taken(verdict, seen));
            Kept(c, [row] + rest, seen) == if verdict.Success? then [verdict.value] + others else others
  {
    assert ([row] + rest)[1..] == rest;
  }

  /** Rejected rows can be deleted from any positions: the accepted events stay exactly the same. */
  lemma {:induction false} RejectedNeverMatters(c: Case, rows: seq<Row>, seen: set<Key>, keep: seq<bool>)
    requires |rows| == |keep| && KeepsAccepted(c, rows, seen, keep)
    ensures Kept(c, Select(rows, keep), seen) == Kept(c, rows, seen)
    decreases |rows|
  {
    if rows != [] {
      var verdict := Verdict(c, rows[0], seen);
      KeepsAcceptedTail(c, rows, seen, keep);
      RejectedNeverMatters(c, rows[1..], Taken(verdict, seen), keep[1..]);
      if keep[0] {
        KeptCons(c, rows[0], Select(rows[1..], keep[1..]), seen);
      } else {
        assert !Accepts(c, rows, seen, 0);
      }
    }
  }

  /** So does everything computed from them. */
  lemma OutcomeIgnoresRejected(c: Case, rows: seq<Row>, keep: seq<bool>, charge: Charge, dates: seq<int>)
    requires |rows| == |keep| && KeepsAccepted(c, rows, {}, keep)
    ensures Reconstruct(c, Select(rows, keep), charge, dates) == Reconstruct(c, rows, charge, dates)
  {
    RejectedNeverMatters(c, rows, {}, keep);
  }

  /** The events of the rows that pass every rule but the duplicate rule. */
  function Events(c: Case, rows: seq<Row>): seq<Event> {
    if rows == [] then []
    else if Screen(c, rows[0]).Success? then [Screen(c, rows[0]).value] + Events(c, rows[1..])
    else Events(c, rows[1..])
  }

  function Reports(c: Case, rows: seq<Row>): seq<(string, Issue)> {
    if rows == [] then [] else [(rows[0].ref, IssueOf(c, rows[0]))] + Reports(c, rows[1..])
  }

  function Others(keep: seq<bool>): seq<bool> {
    seq(|keep|, i requires 0 <= i < |keep| => !keep[i])
  }

  /**
   * Each row is accepted or rejected, never both: with `keep` marking the accepted rows, the events are those rows'
   * events in order and the rejections are the other rows' reports in order.
   */
  lemma {:induction false} EachRowOnce(c: Case, rows: seq<Row>, seen: set<Key>, keep: seq<bool>)
    requires |rows| == |keep| && MarksAccepted(c, rows, seen, keep)
    ensures Kept(c, rows, seen) == Events(c, Select(rows, keep))
    ensures Dropped(c, rows, seen) == Reports(c, Select(rows, Others(keep)))
    decreases |rows|
  {
    if rows != [] {
      var verdict := Verdict(c, rows[0], seen);
      MarksAcceptedTail(c, rows, seen, keep);
      EachRowOnce(c, rows[1..], Taken(verdict, seen), keep[1..]);
      assert Others(keep)[1..] == Others(keep[1..]);
      assert keep[0] <==> Accepts(c, rows, seen, 0);
      if keep[0] {
        EventsCons(c, rows[0], Select(rows[1..], keep[1..]));
      } else {
        EventsCons(c, rows[0], Select(rows[1..], Others(keep[1..])));
      }
    }
  }

  lemma EventsCons(c: Case, row: Row, rest: seq<Row>)
    ensures Screen(c, row).Success? ==> Events(c, [row] + rest) == [Screen(c, row).value] + Events(c, rest)
    ensures Reports(c, [row] + rest) == [(row.ref, IssueOf(c, row))] + Reports(c, rest)
  {
    assert ([row] + rest)[1..] == rest;
  }

  /** No two accepted events share a type and a time as written, offset included. */
  lemma {:induction false} AcceptedKeysDistinct(c: Case, rows: seq<Row>, seen: set<Key>)
    ensures forall i, j :: 0 <= i < j < |Kept(c, rows, seen)| ==> KeyOf(Kept(c, rows, seen)[i]) != KeyOf(Kept(c, rows, seen)[j])
    ensures forall e :: e in Kept(c, rows, seen) ==> KeyOf(e) !in seen
    decreases |rows|
  {
    if rows != [] {
      AcceptedKeysDistinct(c, rows[1..], Taken(Verdict(c, rows[0], seen), seen));
    }
  }

  lemma AcceptedKeyIsUnique(c: Case, rows: seq<Row>, x: Event, y: Event)
    requires x in Kept(c, rows, {}) && y in Kept(c, rows, {}) && KeyOf(x) == KeyOf(y)
    ensures x == y
  {
    AcceptedKeysDistinct(c, rows, {});
  }

  // Duplicates written with different offsets

  /** The events name the same type and moment, however the moment was written. */
  predicate SameMoment(a: Event, b: Event) {
    a.kind == b.kind && a.occurred.utc == b.occurred.utc
  }

  /** The documented rule: no two accepted events share a type and a moment. */
  ghost predicate MomentsDistinct(events: seq<Event>) {
    forall i, j :: 0 <= i < j < |events| ==> !SameMoment(events[i], events[j])
  }

  /** The rows that pass every other rule write the same moment of the same type with the same offset. */
  ghost predicate OffsetsAgree(c: Case, rows: seq<Row>) {
    forall i, j ::
      (&& 0 <= i < |rows| && 0 <= j < |rows| && Screen(c, rows[i]).Success? && Screen(c, rows[j]).Success?
       && SameMoment(Screen(c, rows[i]).value, Screen(c, rows[j]).value))
      ==> Screen(c, rows[i]).value.occurred.offset == Screen(c, rows[j]).value.occurred.offset
  }

  /** Two passing rows of the same type and moment collapse exactly when they carry the same offset. */
  lemma PairCollapsesExactly(c: Case, a: Row, b: Row)
    requires Screen(c, a).Success? && Screen(c, b).Success? && SameMoment(Screen(c, a).value, Screen(c, b).value)
    ensures Kept(c, [a, b], {}) == [Screen(c, a).value] <==>
            Screen(c, a).value.occurred.offset == Screen(c, b).value.occurred.offset
    ensures Screen(c, a).value.occurred.offset != Screen(c, b).value.occurred.offset ==>
            Kept(c, [a, b], {}) == [Screen(c, a).value, Screen(c, b).value]
  {
    assert [a, b][1..] == [b] && [b][1..] == [];
    var seen := Taken(Verdict(c, a, {}), {});
    assert Kept(c, [b], seen) == if KeyOf(Screen(c, b).value) in seen then [] else [Screen(c, b).value];
  }

  /** Every kept event comes from a row that passes. */
  lemma {:induction false} KeptFromRow(c: Case, rows: seq<Row>, seen: set<Key>, e: Event) returns (i: nat)
    requires e in Kept(c, rows, seen)
    ensures i < |rows| && Screen(c, rows[i]) == Success(e)
    decreases |rows|
  {
    var verdict := Verdict(c, rows[0], seen);
    if verdict == Success(e) {
      i := 0;
    } else {
      var k := KeptFromRow(c, rows[1..], Taken(verdict, seen), e);
      i := k + 1;
    }
  }

  /** The key of every passing row is kept, or taken before. */
  lemma {:induction false} KeyIsKept(c: Case, rows: seq<Row>, seen: set<Key>, i: nat) returns (e: Event)
    requires i < |rows| && Screen(c, rows[i]).Success? && KeyOf(Screen(c, rows[i]).value) !in seen
    ensures e in Kept(c, rows, seen) && KeyOf(e) == KeyOf(Screen(c, rows[i]).value)
    decreases |rows|
  {
    var verdict := Verdict(c, rows[0], seen);
    if verdict.Success? && KeyOf(verdict.value) == KeyOf(Screen(c, rows[i]).value) {
      e := verdict.value;
    } else {
      e := KeyIsKept(c, rows[1..], Taken(verdict, seen), i - 1);
    }
  }

  lemma MomentsNeedOffsets(c: Case, rows: seq<Row>, i: nat, j: nat)
    requires MomentsDistinct(Kept(c, rows, {}))
    requires i < |rows| && j < |rows| && Screen(c, rows[i]).Success? && Screen(c, rows[j]).Success?
    requires SameMoment(Screen(c, rows[i]).value, Screen(c, rows[j]).value)
    ensures Screen(c, rows[i]).value.occurred.offset == Screen(c, rows[j]).value.occurred.offset
  {
    var kept := Kept(c, rows, {});
    var x := KeyIsKept(c, rows, {}, i);
    var y := KeyIsKept(c, rows, {}, j);
    var a :| 0 <= a < |kept| && kept[a] == x;
    var b :| 0 <= b < |kept| && kept[b] == y;
    assert SameMoment(x, y) && SameMoment(y, x);
    assert a == b;
  }

  /**
   * The documented collapse of duplicates, by type and moment, holds exactly when passing rows of one type and moment
   * all carry one offset: the code compares times as they are written.
   */
  lemma CollapseExactly(c: Case, rows: seq<Row>)
    ensures MomentsDistinct(Kept(c, rows, {})) <==> OffsetsAgree(c, rows)
  {
    var kept := Kept(c, rows, {});
    if OffsetsAgree(c, rows) {
      AcceptedKeysDistinct(c, rows, {});
      forall i, j | 0 <= i < j < |kept|
        ensures !SameMoment(kept[i], kept[j])
      {
        var a := KeptFromRow(c, rows, {}, kept[i]);
        var b := KeptFromRow(c, rows, {}, kept[j]);
        assert KeyOf(kept[i]) != KeyOf(kept[j]);
      }
    }
    if MomentsDistinct(kept) {
      forall i, j | 0 <= i < |rows| && 0 <= j < |rows| && Screen(c, rows[i]).Success? && Screen(c, rows[j]).Success?
                    && SameMoment(Screen(c, rows[i]).value, Screen(c, rows[j]).value)
        ensures Screen(c, rows[i]).value.occurred.offset == Screen(c, rows[j]).value.occurred.offset
      {
        MomentsNeedOffsets(c, rows, i, j);
      }
    }
  }

  // What the accepted events establish

  /** By the moment it happened, and at one moment by reference in dictionary order. */
  ghost predicate InTimeOrder(a: Event, b: Event) {
    || a.occurred.utc < b.occurred.utc
    || (a.occurred.utc == b.occurred.utc && InDictionaryOrder(a.ref, b.ref))
  }

  /** The accepted events are the kept ones, in order of time and reference. */
  lemma AcceptedSorted(c: Case, rows: seq<Row>)
    ensures var accepted := Validated(c, rows).accepted;
            && multiset(accepted) == multiset(Kept(c, rows, {}))
            && forall i, j :: 0 <= i < j < |accepted| ==> InTimeOrder(accepted[i], accepted[j])
  {
    EarlierIsOrder();
    SortSorted(Earlier, Kept(c, rows, {}));
    var accepted := Validated(c, rows).accepted;
    forall i, j | 0 <= i < j < |accepted|
      ensures InTimeOrder(accepted[i], accepted[j])
    {
      assert Earlier(accepted[i], accepted[j]);
      AtMostExactly(accepted[i].ref, accepted[j].ref);
    }
  }

  /** The first accepted event of a type is the earliest of that type. */
  lemma FirstOfKindIsEarliest(c: Case, rows: seq<Row>, kind: Kind, e: Event)
    requires e in Validated(c, rows).accepted && e.kind == kind
    ensures var s := OfKind(Validated(c, rows).accepted, kind);
            s != [] && s[0].kind == kind && s[0] in Validated(c, rows).accepted && s[0].occurred.utc <= e.occurred.utc
  {
    var accepted := Validated(c, rows).accepted;
    var s := OfKind(accepted, kind);
    EarlierIsOrder();
    FilterMembers(IsKind(kind), accepted);
    FilterSort(Earlier, IsKind(kind), Kept(c, rows, {}));
    SortSorted(Earlier, Filter(IsKind(kind), Kept(c, rows, {})));
    assert e in s && s[0] in s;
  }

  ghost predicate IsEarliest(events: seq<Event>, kind: Kind, e: Event) {
    e in events && e.kind == kind && forall x :: x in events && x.kind == kind ==> e.occurred.utc <= x.occurred.utc
  }

  /** The earliest events of a type all happened at one moment. */
  lemma EarliestAtOnce(events: seq<Event>, kind: Kind, e: Event)
    requires IsEarliest(events, kind, e)
    ensures forall x :: IsEarliest(events, kind, x) ==> x.occurred.utc == e.occurred.utc
  {
  }

  /**
   * With the earliest end of free time and the earliest gate-out given, the boundary runs from the day after the one
   * through the day of the other; there is none when that leaves no day.
   */
  lemma BoundaryGiven(c: Case, rows: seq<Row>, freeTimeEnd: Event, gateOut: Event)
    requires IsEarliest(Validated(c, rows).accepted, FreeTimeEnd, freeTimeEnd)
    requires IsEarliest(Validated(c, rows).accepted, GateOut, gateOut)
    ensures var first, last := c.localDate(freeTimeEnd.occurred.utc) + 1, c.localDate(gateOut.occurred.utc);
            ChargeBoundary(c, Validated(c, rows).accepted) == if first <= last then Some(Boundary(first, last)) else None
  {
    var accepted := Validated(c, rows).accepted;
    FirstIsEarliest(c, rows, FreeTimeEnd, freeTimeEnd);
    FirstIsEarliest(c, rows, GateOut, gateOut);
  }

  lemma FirstIsEarliest(c: Case, rows: seq<Row>, kind: Kind, e: Event)
    requires IsEarliest(Validated(c, rows).accepted, kind, e)
    ensures var s := OfKind(Validated(c, rows).accepted, kind); s != [] && s[0].occurred.utc == e.occurred.utc
  {
    var accepted := Validated(c, rows).accepted;
    HasKind(accepted, kind);
    assert Has(accepted, kind);
    EarliestOfKind(c, rows, kind);
    EarliestAtOnce(accepted, kind, e);
  }

  /** A boundary runs from the day after the earliest end of free time through the day of the earliest gate-out. */
  lemma BoundaryIsEarliest(c: Case, rows: seq<Row>) returns (freeTimeEnd: Event, gateOut: Event)
    requires ChargeBoundary(c, Validated(c, rows).accepted).Some?
    ensures var accepted := Validated(c, rows).accepted;
            && IsEarliest(accepted, FreeTimeEnd, freeTimeEnd) && IsEarliest(accepted, GateOut, gateOut)
            && ChargeBoundary(c, accepted)
                 == Some(Boundary(c.localDate(freeTimeEnd.occurred.utc) + 1, c.localDate(gateOut.occurred.utc)))
            && c.localDate(freeTimeEnd.occurred.utc) < c.localDate(gateOut.occurred.utc)
  {
    var accepted := Validated(c, rows).accepted;
    freeTimeEnd, gateOut := OfKind(accepted, FreeTimeEnd)[0], OfKind(accepted, GateOut)[0];
    EarliestOfKind(c, rows, FreeTimeEnd);
    EarliestOfKind(c, rows, GateOut);
  }

  /** There is a boundary exactly when the earliest end of free time falls on an earlier business day than the earliest gate-out. */
  lemma BoundaryExactly(c: Case, rows: seq<Row>)
    ensures ChargeBoundary(c, Validated(c, rows).accepted).Some? <==>
              exists freeTimeEnd, gateOut ::
                && IsEarliest(Validated(c, rows).accepted, FreeTimeEnd, freeTimeEnd)
                && IsEarliest(Validated(c, rows).accepted, GateOut, gateOut)
                && c.localDate(freeTimeEnd.occurred.utc) < c.localDate(gateOut.occurred.utc)
  {
    var accepted := Validated(c, rows).accepted;
    if ChargeBoundary(c, accepted).Some? {
      var first, last := BoundaryIsEarliest(c, rows);
    }
    if freeTimeEnd, gateOut :|
      && IsEarliest(accepted, FreeTimeEnd, freeTimeEnd) && IsEarliest(accepted, GateOut, gateOut)
      && c.localDate(freeTimeEnd.occurred.utc) < c.localDate(gateOut.occurred.utc)
    {
      BoundaryGiven(c, rows, freeTimeEnd, gateOut);
    }
  }

  lemma EarliestOfKind(c: Case, rows: seq<Row>, kind: Kind)
    requires OfKind(Validated(c, rows).accepted, kind) != []
    ensures IsEarliest(Validated(c, rows).accepted, kind, OfKind(Validated(c, rows).accepted, kind)[0])
  {
    var accepted := Validated(c, rows).accepted;
    FilterMembers(IsKind(kind), accepted);
    assert OfKind(accepted, kind)[0] in OfKind(accepted, kind);
    forall x | x in accepted && x.kind == kind
      ensures OfKind(accepted, kind)[0].occurred.utc <= x.occurred.utc
    {
      FirstOfKindIsEarliest(c, rows, kind, x);
    }
  }

  ghost predicate Has(events: seq<Event>, kind: Kind) {
    exists e :: e in events && e.kind == kind
  }

  /** The event is a snapshot for the date: the one it is effective from, else the one it was written on. */
  ghost predicate Sources(c: Case, e: Event, date: int) {
    && e.kind == AccessSnapshot
    && (e.effectiveFrom == Some(date) || (e.effectiveFrom.None? && c.ownDate(e.occurred) == date))
  }

  /** The date has its own snapshot, or the case uses none. */
  ghost predicate AccessSettled(c: Case, events: seq<Event>, date: int) {
    Has(events, AccessSnapshot) ==> exists e :: e in events && Sources(c, e, date)
  }

  ghost predicate Sourced(c: Case, events: seq<Event>, boundary: Option<Boundary>, date: int) {
    && Has(events, Available) && Has(events, FreeTimeEnd) && Has(events, GateOut)
    && AccessSettled(c, events, date)
    && boundary.Some?
  }

  lemma HasKind(events: seq<Event>, kind: Kind)
    ensures Has(events, kind) <==> OfKind(events, kind) != []
  {
    FilterEmpty(IsKind(kind), events);
  }

  lemma GapsExactly(events: seq<Event>)
    ensures NeedsAvailability in BoundaryGaps(events) <==> !Has(events, Available)
    ensures NeedsFreeTimeEnd in BoundaryGaps(events) <==> !Has(events, FreeTimeEnd)
    ensures NeedsGateOut in BoundaryGaps(events) <==> !Has(events, GateOut)
    ensures BoundaryGaps(events) == [] <==> Has(events, Available) && Has(events, FreeTimeEnd) && Has(events, GateOut)
  {
    HasKind(events, Available);
    HasKind(events, FreeTimeEnd);
    HasKind(events, GateOut);
  }

  lemma AccessExactly(c: Case, events: seq<Event>, date: int)
    ensures AccessSettled(c, events, date) <==> OfKind(events, AccessSnapshot) == [] || SnapshotsOn(c, events, date) != []
  {
    HasKind(events, AccessSnapshot);
    FilterEmpty(IsSnapshotOn(c, date), events);
  }

  /** The documented rule for each day's state, and what the day shows with it. */
  lemma DayExactly(c: Case, events: seq<Event>, boundary: Option<Boundary>, charge: Charge, date: int)
    ensures var day := DayOf(c, events, boundary, charge, date);
            && (day.state == SourceComplete <==>
                  Sourced(c, events, boundary, date) && boundary.value.first <= date <= boundary.value.last)
            && (day.state == ExcludedNotChargeable <==>
                  Sourced(c, events, boundary, date) && !(boundary.value.first <= date <= boundary.value.last))
            && (day.state == InsufficientEvidence <==> !Sourced(c, events, boundary, date))
            && (day.missing == [] <==> day.state != InsufficientEvidence)
            && (day.chargeability == Chargeable <==> day.state == SourceComplete)
            && (day.chargeability == NotChargeable <==> day.state == ExcludedNotChargeable)
            && (day.chargeability == Unresolved <==> day.state == InsufficientEvidence)
            && (day.coverage == PresentVerified <==> day.state != InsufficientEvidence)
            && day.date == date && day.charge == charge
  {
    GapsExactly(events);
    AccessExactly(c, events, date);
    var gaps := BoundaryGaps(events);
    assert gaps + [] == gaps && |gaps + [NeedsTerminalAccess]| > 0;
  }

  /** Event `i` is the first snapshot of the date. */
  ghost predicate OwnSnapshot(c: Case, events: seq<Event>, date: int, i: nat) {
    && i < |events| && Sources(c, events[i], date)
    && forall j :: 0 <= j < i ==> !Sources(c, events[j], date)
  }

  lemma {:induction false} FirstSnapshotExactly(c: Case, events: seq<Event>, date: int, e: Event)
    ensures First(SnapshotsOn(c, events, date)) == Some(e) <==> exists i: nat :: OwnSnapshot(c, events, date, i) && events[i] == e
  {
    if events != [] {
      var p := IsSnapshotOn(c, date);
      FirstSnapshotExactly(c, events[1..], date, e);
      if p(events[0]) {
        assert OwnSnapshot(c, events, date, 0);
      } else {
        if i: nat :| OwnSnapshot(c, events[1..], date, i) && events[1..][i] == e {
          OwnSnapshotTail(c, events, date, i);
        }
        if i: nat :| OwnSnapshot(c, events, date, i) && events[i] == e {
          OwnSnapshotTail(c, events, date, i - 1);
          assert OwnSnapshot(c, events[1..], date, i - 1) && events[1..][i - 1] == e;
        }
      }
    }
  }

  lemma OwnSnapshotTail(c: Case, events: seq<Event>, date: int, i: nat)
    requires events != [] && !Sources(c, events[0], date)
    ensures OwnSnapshot(c, events[1..], date, i) <==> OwnSnapshot(c, events, date, i + 1)
  {
    if i + 1 < |events| {
      assert forall j :: 0 <= j < i ==> events[1..][j] == events[j + 1];
    }
  }

  /** Some event of one of the three boundary types has this reference. */
  ghost predicate BoundaryRef(events: seq<Event>, ref: string) {
    exists e :: e in events && e.kind in {Available, FreeTimeEnd, GateOut} && e.ref == ref
  }

  lemma RefsOfKind(events: seq<Event>, kind: Kind, ref: string)
    ensures ref in Refs(OfKind(events, kind)) <==> exists e :: e in events && e.kind == kind && e.ref == ref
  {
    FilterMembers(IsKind(kind), events);
    var s := OfKind(events, kind);
    if e :| e in events && e.kind == kind && e.ref == ref {
      assert e in s;
      var i :| 0 <= i < |s| && s[i] == e;
      assert Refs(s)[i] == ref;
    }
    if ref in Refs(s) {
      var i :| 0 <= i < |s| && Refs(s)[i] == ref;
      assert s[i] in s;
    }
  }

  /** A day cites the boundary events, and a complete one its own snapshot too, if it has one. */
  lemma RefsExactly(c: Case, events: seq<Event>, boundary: Option<Boundary>, charge: Charge, date: int, ref: string)
    ensures var day := DayOf(c, events, boundary, charge, date);
            ref in day.refs <==>
              || BoundaryRef(events, ref)
              || (day.state == SourceComplete && exists i: nat :: OwnSnapshot(c, events, date, i) && events[i].ref == ref)
  {
    RefsOfKind(events, Available, ref);
    RefsOfKind(events, FreeTimeEnd, ref);
    RefsOfKind(events, GateOut, ref);
    assert ref in BoundaryRefs(events) <==> BoundaryRef(events, ref);
    var snapshot := First(SnapshotsOn(c, events, date));
    if snapshot.Some? {
      FirstSnapshotExactly(c, events, date, snapshot.value);
    }
    if i: nat :| OwnSnapshot(c, events, date, i) {
      FirstSnapshotExactly(c, events, date, events[i]);
    }
    RefsCited(charge, boundary, BoundaryGaps(events), BoundaryRefs(events), OfKind(events, AccessSnapshot) != [], snapshot, date, ref);
  }

  lemma RefsCited(
    charge: Charge, boundary: Option<Boundary>, gaps: seq<Requirement>, refs: seq<string>, required: bool,
    snapshot: Option<Event>, date: int, ref: string)
    ensures var day := Adjudicate(charge, boundary, gaps, refs, required, snapshot, date);
            ref in day.refs <==> ref in refs || (day.state == SourceComplete && snapshot.Some? && snapshot.value.ref == ref)
  {
  }

  /** The references of one type's events, in order. */
  function RefsOf(events: seq<Event>, kind: Kind): seq<string> {
    if events == [] then [] else (if events[0].kind == kind then [events[0].ref] else []) + RefsOf(events[1..], kind)
  }

  lemma {:induction false} RefsOfExactly(events: seq<Event>, kind: Kind)
    ensures Refs(OfKind(events, kind)) == RefsOf(events, kind)
  {
    if events != [] {
      RefsOfExactly(events[1..], kind);
    }
  }

  /** Availability first, then free-time ends, then gate-outs, then a complete day's own snapshot, each as often as it occurs. */
  lemma RefsInOrder(c: Case, events: seq<Event>, boundary: Option<Boundary>, charge: Charge, date: int, own: seq<string>)
    requires own == [] <==> forall i: nat :: !OwnSnapshot(c, events, date, i)
    requires own != [] ==> |own| == 1 && exists i: nat :: OwnSnapshot(c, events, date, i) && own[0] == events[i].ref
    ensures var day := DayOf(c, events, boundary, charge, date);
            day.refs == RefsOf(events, Available) + RefsOf(events, FreeTimeEnd) + RefsOf(events, GateOut)
                        + if day.state == SourceComplete then own else []
  {
    RefsOfExactly(events, Available);
    RefsOfExactly(events, FreeTimeEnd);
    RefsOfExactly(events, GateOut);
    var snapshot := First(SnapshotsOn(c, events, date));
    if own == [] {
      if snapshot.Some? {
        FirstSnapshotExactly(c, events, date, snapshot.value);
      }
    } else {
      var i: nat :| OwnSnapshot(c, events, date, i) && own[0] == events[i].ref;
      FirstSnapshotExactly(c, events, date, events[i]);
    }
    RefsListed(charge, boundary, BoundaryGaps(events), BoundaryRefs(events), OfKind(events, AccessSnapshot) != [], snapshot, date);
  }

  lemma RefsListed(
    charge: Charge, boundary: Option<Boundary>, gaps: seq<Requirement>, refs: seq<string>, required: bool,
    snapshot: Option<Event>, date: int)
    ensures var day := Adjudicate(charge, boundary, gaps, refs, required, snapshot, date);
            day.refs == refs + if day.state == SourceComplete && snapshot.Some? then [snapshot.value.ref] else []
  {
    assert refs + [] == refs;
  }

  /** The reconstruction is complete exactly when there are dates and each is sourced and inside the boundary. */
  lemma TerminalExactly(c: Case, events: seq<Event>, boundary: Option<Boundary>, charge: Charge, dates: seq<int>)
    ensures TerminalState(Days(c, events, boundary, charge, dates)) == Complete <==>
              dates != [] && forall date :: date in dates ==>
                Sourced(c, events, boundary, date) && boundary.value.first <= date <= boundary.value.last
  {
    var days := Days(c, events, boundary, charge, dates);
    forall i | 0 <= i < |dates|
      ensures days[i].state == SourceComplete <==>
                Sourced(c, events, boundary, dates[i]) && boundary.value.first <= dates[i] <= boundary.value.last
    {
      DayExactly(c, events, boundary, charge, dates[i]);
    }
  }

  /** What is missing is named exactly. */
  lemma MissingExactly(c: Case, events: seq<Event>, boundary: Option<Boundary>, charge: Charge, date: int)
    ensures var missing := DayOf(c, events, boundary, charge, date).missing;
            && (NeedsAvailability in missing <==> !Has(events, Available))
            && (NeedsFreeTimeEnd in missing <==> !Has(events, FreeTimeEnd))
            && (NeedsGateOut in missing <==> !Has(events, GateOut))
            && (NeedsTerminalAccess in missing <==> !AccessSettled(c, events, date))
            && (NeedsChargeBoundary in missing <==>
                  && boundary.None? && AccessSettled(c, events, date)
                  && Has(events, Available) && Has(events, FreeTimeEnd) && Has(events, GateOut))
  {
    GapsExactly(events);
    AccessExactly(c, events, date);
    OnlyBoundaryGaps(events);
    FirstSnapshot(c, events, date);
    MissingFromGaps(charge, boundary, BoundaryGaps(events), BoundaryRefs(events),
                    OfKind(events, AccessSnapshot) != [], First(SnapshotsOn(c, events, date)), date);
  }

  /** In this order, each at most once; the charge boundary alone, when nothing else is missing. */
  lemma MissingInOrder(c: Case, events: seq<Event>, boundary: Option<Boundary>, charge: Charge, date: int)
    ensures var named :=
              (if Has(events, Available) then [] else [NeedsAvailability])
              + (if Has(events, FreeTimeEnd) then [] else [NeedsFreeTimeEnd])
              + (if Has(events, GateOut) then [] else [NeedsGateOut])
              + (if AccessSettled(c, events, date) then [] else [NeedsTerminalAccess]);
            DayOf(c, events, boundary, charge, date).missing
              == if named == [] && boundary.None? then [NeedsChargeBoundary] else named
  {
    HasKind(events, Available);
    HasKind(events, FreeTimeEnd);
    HasKind(events, GateOut);
    AccessExactly(c, events, date);
    FirstSnapshot(c, events, date);
  }

  lemma OnlyBoundaryGaps(events: seq<Event>)
    ensures NeedsTerminalAccess !in BoundaryGaps(events) && NeedsChargeBoundary !in BoundaryGaps(events)
  {
  }

  lemma FirstSnapshot(c: Case, events: seq<Event>, date: int)
    ensures First(SnapshotsOn(c, events, date)).Some? <==> SnapshotsOn(c, events, date) != []
  {
  }

  lemma MissingFromGaps(
    charge: Charge, boundary: Option<Boundary>, gaps: seq<Requirement>, refs: seq<string>, required: bool,
    snapshot: Option<Event>, date: int)
    requires NeedsTerminalAccess !in gaps && NeedsChargeBoundary !in gaps
    ensures var missing := Adjudicate(charge, boundary, gaps, refs, required, snapshot, date).missing;
            && (NeedsChargeBoundary in missing <==> boundary.None? && gaps == [] && (required ==> snapshot.Some?))
            && (forall r :: r != NeedsTerminalAccess && r != NeedsChargeBoundary ==> (r in missing <==> r in gaps))
            && (NeedsTerminalAccess in missing <==> required && snapshot.None?)
  {
    assert gaps + [] == gaps;
    assert (gaps + [NeedsTerminalAccess])[|gaps|] == NeedsTerminalAccess;
  }

  // Adding a terminal-access snapshot

  lemma EarlierIsOrder()
    ensures TotalPreorder(Earlier)
  {
    forall a, b
      ensures Comparable(Earlier, a, b)
    {
      AtMostTotal(a.ref, b.ref);
    }
    forall a, b, c
      ensures Chained(Earlier, a, b, c)
    {
      if AtMost(a.ref, b.ref) && AtMost(b.ref, c.ref) {
        AtMostTransitive(a.ref, b.ref, c.ref);
      }
    }
  }

  function Without(key: Key): Event -> bool {
    (e: Event) => KeyOf(e) != key
  }

  /** No row of `rows` passes the rules with this key. */
  ghost predicate Unclaimed(c: Case, rows: seq<Row>, key: Key) {
    forall i :: 0 <= i < |rows| ==> !Claims(c, rows[i], key)
  }

  /** A taken key that no row claims has no effect. */
  lemma {:induction false} UnclaimedKeyNeverMatters(c: Case, rows: seq<Row>, seen: set<Key>, key: Key)
    requires Unclaimed(c, rows, key)
    ensures Kept(c, rows, seen + {key}) == Kept(c, rows, seen)
    ensures Filter(Without(key), Kept(c, rows, seen)) == Kept(c, rows, seen)
    decreases |rows|
  {
    if rows != [] {
      var verdict := Verdict(c, rows[0], seen);
      assert !Claims(c, rows[0], key);
      assert Verdict(c, rows[0], seen + {key}) == verdict;
      assert Taken(verdict, seen + {key}) == Taken(verdict, seen) + {key};
      assert Unclaimed(c, rows[1..], key) by {
        forall i | 0 <= i < |rows| - 1
          ensures !Claims(c, rows[1..][i], key)
        {
          assert rows[1..][i] == rows[i + 1];
        }
      }
      UnclaimedKeyNeverMatters(c, rows[1..], Taken(verdict, seen), key);
      if verdict.Success? {
        FilterCons(Without(key), verdict.value, Kept(c, rows[1..], Taken(verdict, seen)));
      }
    }
  }

  /** A new admissible row adds its event and disturbs no other. */
  lemma {:induction false} NewRowOnlyAdds(c: Case, front: seq<Row>, row: Row, back: seq<Row>, seen: set<Key>)
    requires Screen(c, row).Success?
    requires var key := KeyOf(Screen(c, row).value);
             key !in seen && Unclaimed(c, front, key) && Unclaimed(c, back, key)
    ensures var e := Screen(c, row).value;
            && e in Kept(c, front + ([row] + back), seen)
            && Filter(Without(KeyOf(e)), Kept(c, front + ([row] + back), seen)) == Kept(c, front + back, seen)
    decreases |front|
  {
    var e := Screen(c, row).value;
    var key := KeyOf(e);
    if front == [] {
      assert front + ([row] + back) == [row] + back && front + back == back;
      KeptCons(c, row, back, seen);
      UnclaimedKeyNeverMatters(c, back, seen, key);
      FilterCons(Without(key), e, Kept(c, back, seen + {key}));
    } else {
      var verdict := Verdict(c, front[0], seen);
      assert !Claims(c, front[0], key);
      NewRowTail(c, front, key);
      NewRowOnlyAdds(c, front[1..], row, back, Taken(verdict, seen));
      assert front + ([row] + back) == [front[0]] + (front[1..] + ([row] + back));
      assert front + back == [front[0]] + (front[1..] + back);
      KeptCons(c, front[0], front[1..] + ([row] + back), seen);
      KeptCons(c, front[0], front[1..] + back, seen);
      if verdict.Success? {
        FilterCons(Without(key), verdict.value, Kept(c, front[1..] + ([row] + back), Taken(verdict, seen)));
      }
    }
  }

  lemma NewRowTail(c: Case, front: seq<Row>, key: Key)
    requires front != [] && Unclaimed(c, front, key)
    ensures Unclaimed(c, front[1..], key)
  {
    forall i | 0 <= i < |front| - 1
      ensures !Claims(c, front[1..][i], key)
    {
      assert front[1..][i] == front[i + 1];
    }
  }

  /** `more` is `events` with the one snapshot `e` added somewhere. */
  ghost predicate Adds(events: seq<Event>, e: Event, more: seq<Event>) {
    && e.kind == AccessSnapshot
    && e in more
    && Filter(Without(KeyOf(e)), more) == events
    && forall x :: x in more && KeyOf(x) == KeyOf(e) ==> x == e
  }

  /** Sorting keeps this. */
  lemma SortedAdds(events: seq<Event>, e: Event, more: seq<Event>)
    requires Adds(events, e, more)
    ensures Adds(Sort(Earlier, events), e, Sort(Earlier, more))
  {
    EarlierIsOrder();
    FilterSort(Earlier, Without(KeyOf(e)), more);
    SortMembers(Earlier, more, e);
    forall x | x in Sort(Earlier, more) && KeyOf(x) == KeyOf(e)
      ensures x == e
    {
      SortMembers(Earlier, more, x);
    }
  }

  lemma KeptAdds(c: Case, front: seq<Row>, row: Row, back: seq<Row>)
    requires Screen(c, row).Success? && row.kind == AccessSnapshot
    requires var key := KeyOf(Screen(c, row).value);
             Unclaimed(c, front, key) && Unclaimed(c, back, key)
    ensures Adds(Kept(c, front + back, {}), Screen(c, row).value, Kept(c, front + ([row] + back), {}))
  {
    var e := Screen(c, row).value;
    NewRowOnlyAdds(c, front, row, back, {});
    forall x | x in Kept(c, front + ([row] + back), {}) && KeyOf(x) == KeyOf(e)
      ensures x == e
    {
      AcceptedKeyIsUnique(c, front + ([row] + back), x, e);
    }
  }

  /** A new admissible snapshot row adds exactly its event to what is accepted. */
  lemma SnapshotRowAdds(c: Case, front: seq<Row>, row: Row, back: seq<Row>)
    requires Screen(c, row).Success? && row.kind == AccessSnapshot
    requires var key := KeyOf(Screen(c, row).value);
             Unclaimed(c, front, key) && Unclaimed(c, back, key)
    ensures Adds(Validated(c, front + back).accepted, Screen(c, row).value, Validated(c, front + ([row] + back)).accepted)
  {
    KeptAdds(c, front, row, back);
    SortedAdds(Kept(c, front + back, {}), Screen(c, row).value, Kept(c, front + ([row] + back), {}));
  }

  /** Events of other types, and snapshots of other dates, are unaffected. */
  lemma OthersUnaffected(c: Case, events: seq<Event>, e: Event, more: seq<Event>, kind: Kind, date: int)
    requires Adds(events, e, more)
    ensures kind != AccessSnapshot ==> OfKind(more, kind) == OfKind(events, kind)
    ensures date != SnapshotDate(c, e) ==> SnapshotsOn(c, more, date) == SnapshotsOn(c, events, date)
  {
    if kind != AccessSnapshot {
      FilterTwice(IsKind(kind), Without(KeyOf(e)), more);
    }
    if date != SnapshotDate(c, e) {
      FilterTwice(IsSnapshotOn(c, date), Without(KeyOf(e)), more);
    }
  }

  lemma BoundaryUnaffected(c: Case, events: seq<Event>, e: Event, more: seq<Event>)
    requires Adds(events, e, more)
    ensures ChargeBoundary(c, more) == ChargeBoundary(c, events)
    ensures BoundaryGaps(more) == BoundaryGaps(events)
    ensures BoundaryRefs(more) == BoundaryRefs(events)
  {
    OthersUnaffected(c, events, e, more, Available, 0);
    OthersUnaffected(c, events, e, more, FreeTimeEnd, 0);
    OthersUnaffected(c, events, e, more, GateOut, 0);
  }

  lemma SnapshotPresent(c: Case, events: seq<Event>, e: Event, more: seq<Event>)
    requires Adds(events, e, more)
    ensures OfKind(more, AccessSnapshot) != []
    ensures SnapshotsOn(c, more, SnapshotDate(c, e)) != []
    ensures OfKind(events, AccessSnapshot) == [] ==> forall date :: SnapshotsOn(c, events, date) == []
  {
    FilterEmpty(IsKind(AccessSnapshot), more);
    FilterEmpty(IsSnapshotOn(c, SnapshotDate(c, e)), more);
    FilterEmpty(IsKind(AccessSnapshot), events);
    forall date | OfKind(events, AccessSnapshot) == []
      ensures SnapshotsOn(c, events, date) == []
    {
      FilterEmpty(IsSnapshotOn(c, date), events);
    }
  }

  /**
   * Every other day stays exactly as it was if some snapshot had already been accepted, and only then: the first
   * snapshot of all opens a gap on every other day.
   */
  lemma OtherDaysKeptExactly(c: Case, events: seq<Event>, e: Event, more: seq<Event>, charge: Charge, date: int)
    requires Adds(events, e, more) && date != SnapshotDate(c, e)
    ensures var before := DayOf(c, events, ChargeBoundary(c, events), charge, date);
            var after := DayOf(c, more, ChargeBoundary(c, more), charge, date);
            && (after == before <==> OfKind(events, AccessSnapshot) != [])
            && (OfKind(events, AccessSnapshot) == [] ==>
                  after.state == InsufficientEvidence && NeedsTerminalAccess in after.missing)
  {
    BoundaryUnaffected(c, events, e, more);
    OthersUnaffected(c, events, e, more, Available, date);
    SnapshotPresent(c, events, e, more);
    FilterGaps(events);
    AccessOpensGap(charge, ChargeBoundary(c, events), BoundaryGaps(events), BoundaryRefs(events), date);
  }

  lemma AccessOpensGap(
    charge: Charge, boundary: Option<Boundary>, gaps: seq<Requirement>, refs: seq<string>, date: int)
    requires NeedsTerminalAccess !in gaps
    ensures var gap := Adjudicate(charge, boundary, gaps, refs, true, None, date);
            gap.state == InsufficientEvidence && NeedsTerminalAccess in gap.missing
    ensures NeedsTerminalAccess !in Adjudicate(charge, boundary, gaps, refs, false, None, date).missing
  {
    assert (gaps + [NeedsTerminalAccess])[|gaps|] == NeedsTerminalAccess;
    assert gaps + [] == gaps;
  }

  predicate NotAccess(r: Requirement) {
    r != NeedsTerminalAccess
  }

  lemma FilterGaps(events: seq<Event>)
    ensures Filter(NotAccess, BoundaryGaps(events)) == BoundaryGaps(events)
    ensures Filter(NotAccess, BoundaryGaps(events) + [NeedsTerminalAccess]) == BoundaryGaps(events)
    ensures NeedsTerminalAccess !in BoundaryGaps(events)
  {
    FilterAll(NotAccess, BoundaryGaps(events));
    FilterConcat(NotAccess, BoundaryGaps(events), [NeedsTerminalAccess]);
  }

  /**
   * The snapshot's own day loses the terminal-access gap and nothing else; where that was its only gap and the
   * events set no charge boundary, the missing boundary shows instead. A day that was complete stays complete.
   */
  lemma OwnDayOnlyGains(c: Case, events: seq<Event>, e: Event, more: seq<Event>, charge: Charge)
    requires Adds(events, e, more)
    ensures var boundary := ChargeBoundary(c, events);
            var before := DayOf(c, events, boundary, charge, SnapshotDate(c, e));
            var after := DayOf(c, more, ChargeBoundary(c, more), charge, SnapshotDate(c, e));
            && after.missing == (if boundary.None? && BoundaryGaps(events) == [] then [NeedsChargeBoundary]
                                 else Filter(NotAccess, before.missing))
            && (before.state != InsufficientEvidence ==> after.state == before.state)
            && (before.missing == [NeedsTerminalAccess] && boundary.Some? ==>
                  after.state == if InWindow(boundary.value, SnapshotDate(c, e)) then SourceComplete else ExcludedNotChargeable)
  {
    BoundaryUnaffected(c, events, e, more);
    SnapshotPresent(c, events, e, more);
    FilterGaps(events);
    var date := SnapshotDate(c, e);
    AccessClosesGap(charge, ChargeBoundary(c, events), BoundaryGaps(events), BoundaryRefs(events),
                    OfKind(events, AccessSnapshot) != [], First(SnapshotsOn(c, events, date)),
                    SnapshotsOn(c, more, date)[0], date);
  }

  lemma AccessClosesGap(
    charge: Charge, boundary: Option<Boundary>, gaps: seq<Requirement>, refs: seq<string>, required: bool,
    was: Option<Event>, now: Event, date: int)
    requires Filter(NotAccess, gaps) == Filter(NotAccess, gaps + [NeedsTerminalAccess]) == gaps
    ensures var before := Adjudicate(charge, boundary, gaps, refs, required, was, date);
            var after := Adjudicate(charge, boundary, gaps, refs, true, Some(now), date);
            && after.missing == (if boundary.None? && gaps == [] then [NeedsChargeBoundary]
                                 else Filter(NotAccess, before.missing))
            && (before.state != InsufficientEvidence ==> after.state == before.state)
            && (before.missing == [NeedsTerminalAccess] && boundary.Some? ==>
                  after.state == if InWindow(boundary.value, date) then SourceComplete else ExcludedNotChargeable)
  {
    assert gaps + [] == gaps;
  }

  /** From the rows themselves: with a snapshot already accepted, one more never loses a completed reconstruction. */
  lemma CompleteStaysComplete(c: Case, front: seq<Row>, row: Row, back: seq<Row>, charge: Charge, dates: seq<int>)
    requires Screen(c, row).Success? && row.kind == AccessSnapshot
    requires var key := KeyOf(Screen(c, row).value);
             Unclaimed(c, front, key) && Unclaimed(c, back, key)
    requires OfKind(Validated(c, front + back).accepted, AccessSnapshot) != []
    requires Reconstruct(c, front + back, charge, dates).state == Complete
    ensures Reconstruct(c, front + ([row] + back), charge, dates).state == Complete
  {
    SnapshotRowAdds(c, front, row, back);
    var events, more := Validated(c, front + back).accepted, Validated(c, front + ([row] + back)).accepted;
    var e := Screen(c, row).value;
    var after := Reconstruct(c, front + ([row] + back), charge, dates).days;
    forall i | 0 <= i < |dates|
      ensures after[i].state == SourceComplete
    {
      assert Reconstruct(c, front + back, charge, dates).days[i].state == SourceComplete;
      if dates[i] == SnapshotDate(c, e) {
        OwnDayOnlyGains(c, events, e, more, charge);
      } else {
        OtherDaysKeptExactly(c, events, e, more, charge, dates[i]);
      }
    }
  }
}
