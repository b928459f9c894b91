/**
 * Committing captured days to the database and replaying them (recording/commit.py, restore_live.py).
 *
 * `tariff_snapshots` is keyed by (tenant, carrier, lane, captured_at). `recordings_day_idx` is
 * (tenant, run date, target, carrier, lane or '', terminal or ''); its carrier column is null for a
 * day that is not "ok", and null is never equal to null, so such rows never conflict.
 */
module Recordings {
  import opened Wrappers

  datatype Source = Source(key: string, laneLabel: string)

  /** A parsed manifest.json; absent fields are `None`, times are instants, and so is an unusable `captured_at`. */
  datatype StoredManifest = StoredManifest(
    status: Option<string>, capturedAt: Option<int>, capturedDate: int, url: Option<string>, bodyKey: Option<string>,
    sha: Option<string>, error: Option<string>, invocation: Option<string>)

  datatype Context = Context(tenant: string, scacOf: map<string, string>, carrierByScac: map<string, string>)

  datatype RecordingStatus = COMMITTED | FAILED | SKIPPED

  /** A recording points at the body when there is one, else at the manifest of its source and day. */
  datatype S3Key = BodyObject(key: string) | ManifestObject(source: string, date: int)

  datatype SnapshotKey = SnapshotKey(tenant: string, carrier: string, lane: string, capturedAt: int)

  datatype RecordingKey = RecordingKey(tenant: string, runDate: int, carrier: string, lane: string)

  /** `version_label` and `effective_date` are both the capture date; `doc_text` is empty and `headline_rate` null. */
  datatype SnapshotRow = SnapshotRow(key: SnapshotKey, effectiveDate: int, url: string, body: string, sha: string)

  datatype RecordingRow = RecordingRow(
    tenant: string, runDate: int, carrier: Option<string>, lane: Option<string>, status: RecordingStatus,
    rowsWritten: nat, s3Key: S3Key, error: Option<string>, startedAt: int, invocation: string)

  /** A stored snapshot and the recording it is linked to. */
  datatype Snapshot = Snapshot(row: SnapshotRow, recording: Option<RecordingKey>)

  /** `nulls` holds the recordings whose carrier is null. */
  datatype Db = Db(
    snapshots: map<SnapshotKey, Snapshot>, recordings: map<RecordingKey, RecordingRow>, nulls: multiset<RecordingRow>)

  /** What one source-day asks of the database. An "ok" day has a snapshot and the key of its recording. */
  datatype Op =
    | OkDay(snapshot: SnapshotRow, key: RecordingKey, recording: RecordingRow)
    | OtherDay(recording: RecordingRow)

  function RecordingStatusOf(status: string): RecordingStatus {
    if status == "ok" then COMMITTED else if status == "skipped" then SKIPPED else FAILED
  }

  function Status(m: StoredManifest): string {
    if m.status.Some? then m.status.value else "failed"
  }

  /** `build_recording_row`. */
  function RecordingRowOf(ctx: Context, source: Source, date: int, m: StoredManifest, carrier: Option<string>, lane: Option<string>): RecordingRow
    requires m.capturedAt.Some?
  {
    RecordingRow(
      ctx.tenant, date, carrier, lane, RecordingStatusOf(Status(m)), 0,
      if m.bodyKey.Some? && m.bodyKey.value != [] then BodyObject(m.bodyKey.value) else ManifestObject(source.key, date),
      m.error, m.capturedAt.value, if m.invocation.Some? then m.invocation.value else "manual")
  }

  /** The rows a source-day asks for; `None` where the source raises before anything is written. */
  function Prepare(ctx: Context, source: Source, date: int, m: StoredManifest): Option<Op> {
    if m.capturedAt.None? then None
    else if Status(m) != "ok" then Some(OtherDay(RecordingRowOf(ctx, source, date, m, None, None)))
    else if source.key !in ctx.scacOf || ctx.scacOf[source.key] !in ctx.carrierByScac then None
    else if m.url.None? || m.sha.None? || m.bodyKey.None? then None
    else
      var carrier := ctx.carrierByScac[ctx.scacOf[source.key]];
      var snapshot := SnapshotRow(
        SnapshotKey(ctx.tenant, carrier, source.laneLabel, m.capturedAt.value), m.capturedDate, m.url.value, m.bodyKey.value, m.sha.value);
      Some(OkDay(snapshot, RecordingKey(ctx.tenant, date, carrier, source.laneLabel),
                 RecordingRowOf(ctx, source, date, m, Some(carrier), Some(source.laneLabel))))
  }

  /**
   * The rows a source-day asks for agree: an "ok" day and no other is COMMITTED and has a snapshot, its conflict key
   * is read off its recording row, and the snapshot is of the same tenant, carrier and lane.
   */
  lemma RowsAgree(ctx: Context, source: Source, date: int, m: StoredManifest)
    requires Prepare(ctx, source, date, m).Some?
    ensures var op := Prepare(ctx, source, date, m).value;
            var row := op.recording;
            && (op.OkDay? <==> Status(m) == "ok") && (row.status == COMMITTED <==> Status(m) == "ok")
            && (row.carrier.Some? <==> op.OkDay?) && (row.lane.Some? <==> op.OkDay?)
            && row.runDate == date && row.tenant == ctx.tenant
            && (op.OkDay? ==>
                  && op.key == RecordingKey(row.tenant, row.runDate, row.carrier.value, row.lane.value)
                  && op.snapshot.key == SnapshotKey(row.tenant, row.carrier.value, row.lane.value, row.startedAt))
  {
  }

  /** Nothing the source reads is missing: an "ok" day needs its carrier, the URL, the digest and the body's key. */
  predicate Preparable(ctx: Context, source: Source, m: StoredManifest) {
    && m.capturedAt.Some?
    && (Status(m) == "ok" ==>
          && source.key in ctx.scacOf && ctx.scacOf[source.key] in ctx.carrierByScac
          && m.url.Some? && m.sha.Some? && m.bodyKey.Some?)
  }

  /** INSERT ... ON CONFLICT DO NOTHING. */
  function InsertIfAbsent<K, V>(table: map<K, V>, key: K, row: V): map<K, V> {
    if key in table then table else table[key := row]
  }

  /** The transaction body of `commit_source_day`: two inserts that do nothing on conflict, then the link. */
  function Commit(db: Db, op: Op): Db {
    match op
    case OtherDay(recording) => db.(nulls := db.nulls + multiset{recording})
    case OkDay(snapshot, key, recording) =>
      var newSnapshot, newRecording := snapshot.key !in db.snapshots, key !in db.recordings;
      Db(InsertIfAbsent(db.snapshots, snapshot.key, Snapshot(snapshot, if newRecording then Some(key) else None)),
         InsertIfAbsent(db.recordings, key, recording.(rowsWritten := if newSnapshot then 1 else 0)),
         db.nulls)
  }

  /** The recording of a source-day as the manifest has it; `rows` is 1 when its snapshot is new. */
  ghost predicate Records(
    ctx: Context, source: Source, date: int, m: StoredManifest, carrier: Option<string>, lane: Option<string>, rows: nat,
    row: RecordingRow)
  {
    && row.tenant == ctx.tenant && row.runDate == date && row.carrier == carrier && row.lane == lane
    && (row.status == COMMITTED <==> m.status == Some("ok")) && (row.status == SKIPPED <==> m.status == Some("skipped"))
    && row.rowsWritten == rows
    && (m.bodyKey.Some? && m.bodyKey.value != [] ==> row.s3Key == BodyObject(m.bodyKey.value))
    && (m.bodyKey.None? || m.bodyKey.value == [] ==> row.s3Key == ManifestObject(source.key, date))
    && row.error == m.error && Some(row.startedAt) == m.capturedAt
    && row.invocation == (if m.invocation.Some? then m.invocation.value else "manual")
  }

  /**
   * What an "ok" day leaves. Each row is added only where its key is new and is read off the manifest; the snapshot
   * is linked exactly when both are new, and nothing else changes.
   */
  ghost predicate LeavesOk(ctx: Context, source: Source, date: int, m: StoredManifest, before: Db, after: Db)
    requires Preparable(ctx, source, m) && Status(m) == "ok"
  {
    var carrier := ctx.carrierByScac[ctx.scacOf[source.key]];
    var k := SnapshotKey(ctx.tenant, carrier, source.laneLabel, m.capturedAt.value);
    var key := RecordingKey(ctx.tenant, date, carrier, source.laneLabel);
    && after.snapshots.Keys == before.snapshots.Keys + {k}
    && after.recordings.Keys == before.recordings.Keys + {key}
    && after.nulls == before.nulls
    && (forall x :: x in before.snapshots ==> after.snapshots[x] == before.snapshots[x])
    && (forall x :: x in before.recordings ==> after.recordings[x] == before.recordings[x])
    && (k !in before.snapshots ==>
          && after.snapshots[k].row == SnapshotRow(k, m.capturedDate, m.url.value, m.bodyKey.value, m.sha.value)
          && after.snapshots[k].recording == if key in before.recordings then None else Some(key))
    && (key !in before.recordings ==>
          Records(ctx, source, date, m, Some(carrier), Some(source.laneLabel), if k in before.snapshots then 0 else 1,
                  after.recordings[key]))
  }

  /** What any other day leaves: one more recording, without carrier or lane. */
  ghost predicate LeavesOther(ctx: Context, source: Source, date: int, m: StoredManifest, before: Db, after: Db) {
    && after.snapshots == before.snapshots && after.recordings == before.recordings
    && exists row :: after.nulls == before.nulls + multiset{row} && Records(ctx, source, date, m, None, None, 0, row)
  }

  /** What a committed source-day leaves, in terms of its manifest. */
  ghost predicate Leaves(ctx: Context, source: Source, date: int, m: StoredManifest, before: Db, after: Db)
    requires Preparable(ctx, source, m)
  {
    if Status(m) == "ok" then LeavesOk(ctx, source, date, m, before, after)
    else LeavesOther(ctx, source, date, m, before, after)
  }

  lemma PreparesExactly(ctx: Context, source: Source, date: int, m: StoredManifest)
    ensures Prepare(ctx, source, date, m).Some? <==> Preparable(ctx, source, m)
  {
  }

  lemma CommitLeaves(ctx: Context, source: Source, date: int, m: StoredManifest, db: Db)
    ensures Preparable(ctx, source, m) ==>
              Prepare(ctx, source, date, m).Some? &&
              Leaves(ctx, source, date, m, db, Commit(db, Prepare(ctx, source, date, m).value))
  {
    if Preparable(ctx, source, m) {
      var op := Prepare(ctx, source, date, m).value;
      if op.OtherDay? {
        assert Records(ctx, source, date, m, None, None, 0, op.recording);
      }
    }
  }

  function CommitAll(db: Db, ops: seq<Op>): Db
    decreases |ops|
  {
    if ops == [] then db else CommitAll(Commit(db, ops[0]), ops[1..])
  }

  /** The rows with a null carrier that a list of source-days asks for. */
  function NullRows(ops: seq<Op>): multiset<RecordingRow> {
    if ops == [] then multiset{}
    else NullRows(ops[1..]) + if ops[0].OtherDay? then multiset{ops[0].recording} else multiset{}
  }

  predicate AllOk(ops: seq<Op>) {
    forall i :: 0 <= i < |ops| ==> ops[i].OkDay?
  }

  // ---------------------------------------------------------------- laws of replay

  lemma {:induction false} CommitConcat(db: Db, a: seq<Op>, b: seq<Op>)
    ensures CommitAll(db, a + b) == CommitAll(CommitAll(db, a), b)
    decreases |a|
  {
    if a == [] {
      assert a + b == b;
    } else {
      assert (a + b)[1..] == a[1..] + b;
      CommitConcat(Commit(db, a[0]), a[1..], b);
    }
  }

  /** The keyed tables already hold what the source-day asks for. */
  predicate Present(db: Db, op: Op) {
    op.OkDay? ==> op.snapshot.key in db.snapshots && op.key in db.recordings
  }

  lemma {:induction false} CommitGrows(db: Db, ops: seq<Op>)
    ensures db.snapshots.Keys <= CommitAll(db, ops).snapshots.Keys
    ensures db.recordings.Keys <= CommitAll(db, ops).recordings.Keys
    ensures forall i :: 0 <= i < |ops| ==> Present(CommitAll(db, ops), ops[i])
    decreases |ops|
  {
    if ops != [] {
      var after := Commit(db, ops[0]);
      CommitGrows(after, ops[1..]);
      assert Present(after, ops[0]);
      forall i | 0 <= i < |ops|
        ensures Present(CommitAll(db, ops), ops[i])
      {
        if i > 0 {
          assert ops[1..][i - 1] == ops[i];
        }
      }
    }
  }

  /** Committing what is present adds its null rows once more and touches nothing else. */
  lemma {:induction false} CommitPresent(db: Db, ops: seq<Op>)
    requires forall i :: 0 <= i < |ops| ==> Present(db, ops[i])
    ensures CommitAll(db, ops) == db.(nulls := db.nulls + NullRows(ops))
    decreases |ops|
  {
    if ops != [] {
      assert Present(db, ops[0]);
      var after := Commit(db, ops[0]);
      assert after.snapshots == db.snapshots && after.recordings == db.recordings;
      forall i | 0 <= i < |ops| - 1
        ensures Present(after, ops[1..][i])
      {
        assert Present(db, ops[i + 1]);
      }
      CommitPresent(after, ops[1..]);
    }
  }

  /** The keyed tables do not depend on the rows with a null carrier. */
  lemma {:induction false} NullsApart(db: Db, extra: multiset<RecordingRow>, ops: seq<Op>)
    ensures CommitAll(db.(nulls := db.nulls + extra), ops) ==
            CommitAll(db, ops).(nulls := CommitAll(db, ops).nulls + extra)
    decreases |ops|
  {
    if ops != [] {
      NullsApart(Commit(db, ops[0]), extra, ops[1..]);
      assert Commit(db.(nulls := db.nulls + extra), ops[0]) ==
             Commit(db, ops[0]).(nulls := Commit(db, ops[0]).nulls + extra);
    }
  }

  /** A full replay after a partial one: the same rows, plus the partial replay's null-carrier rows once more. */
  lemma ReplayAfterPartial(db: Db, ops: seq<Op>, n: nat)
    requires n <= |ops|
    ensures var once := CommitAll(db, ops);
            CommitAll(CommitAll(db, ops[..n]), ops) == once.(nulls := once.nulls + NullRows(ops[..n]))
  {
    var partial := CommitAll(db, ops[..n]);
    assert ops == ops[..n] + ops[n..];
    CommitGrows(db, ops[..n]);
    CommitPresent(partial, ops[..n]);
    CommitConcat(partial, ops[..n], ops[n..]);
    CommitConcat(db, ops[..n], ops[n..]);
    NullsApart(partial, NullRows(ops[..n]), ops[n..]);
  }

  /** Any number of partial replays. */
  function Partials(db: Db, ops: seq<Op>, lengths: seq<nat>): Db
    requires forall k :: 0 <= k < |lengths| ==> lengths[k] <= |ops|
    decreases |lengths|
  {
    if lengths == [] then db
    else CommitAll(Partials(db, ops, lengths[..|lengths| - 1]), ops[..lengths[|lengths| - 1]])
  }

  function PartialNulls(ops: seq<Op>, lengths: seq<nat>): multiset<RecordingRow>
    requires forall k :: 0 <= k < |lengths| ==> lengths[k] <= |ops|
    decreases |lengths|
  {
    if lengths == [] then multiset{}
    else PartialNulls(ops, lengths[..|lengths| - 1]) + NullRows(ops[..lengths[|lengths| - 1]])
  }

  /** After any partial replays the keyed tables of one more full replay are those of a single full replay. */
  lemma {:induction false} ReplayAfterPartials(db: Db, ops: seq<Op>, lengths: seq<nat>)
    requires forall k :: 0 <= k < |lengths| ==> lengths[k] <= |ops|
    ensures var once := CommitAll(db, ops);
            CommitAll(Partials(db, ops, lengths), ops) == once.(nulls := once.nulls + PartialNulls(ops, lengths))
    decreases |lengths|
  {
    if lengths == [] {
      assert CommitAll(db, ops).nulls + multiset{} == CommitAll(db, ops).nulls;
    } else {
      var before, n := lengths[..|lengths| - 1], lengths[|lengths| - 1];
      ReplayAfterPartials(db, ops, before);
      ReplayAfterPartial(Partials(db, ops, before), ops, n);
      var once := CommitAll(db, ops);
      assert once.nulls + PartialNulls(ops, before) + NullRows(ops[..n]) == once.nulls + PartialNulls(ops, lengths);
    }
  }

  lemma {:induction false} NullRowsEmpty(ops: seq<Op>)
    ensures NullRows(ops) == multiset{} <==> AllOk(ops)
  {
    if ops != [] {
      NullRowsEmpty(ops[1..]);
      AllOkCons(ops);
      if ops[0].OtherDay? {
        assert ops[0].recording in NullRows(ops);
      } else {
        assert NullRows(ops) == NullRows(ops[1..]);
      }
    }
  }

  lemma AllOkCons(ops: seq<Op>)
    requires ops != []
    ensures AllOk(ops) <==> ops[0].OkDay? && AllOk(ops[1..])
  {
    assert ops == [ops[0]] + ops[1..];
  }

  /**
   * Replaying after a partial replay (or twice) gives the rows of a single replay exactly when every
   * source-day replayed before was "ok"; a failed or skipped day is inserted again each time.
   */
  lemma ReplayIdempotentExactly(db: Db, ops: seq<Op>, n: nat)
    requires n <= |ops|
    ensures CommitAll(CommitAll(db, ops[..n]), ops) == CommitAll(db, ops) <==> AllOk(ops[..n])
  {
    ReplayAfterPartial(db, ops, n);
    NullRowsEmpty(ops[..n]);
    var once, again := CommitAll(db, ops).nulls, NullRows(ops[..n]);
    assert |once + again| == |once| + |again|;
    if again == multiset{} {
      assert once + again == once;
    }
  }

  /** Two "ok" source-days that are the same or clash in no key. */
  predicate Compatible(a: Op, b: Op) {
    && a.OkDay? && b.OkDay?
    && (a == b || (a.snapshot.key != b.snapshot.key && a.key != b.key))
  }

  lemma InsertSwap<K, V>(table: map<K, V>, k: K, v: V, l: K, w: V)
    requires k != l
    ensures InsertIfAbsent(InsertIfAbsent(table, k, v), l, w) == InsertIfAbsent(InsertIfAbsent(table, l, w), k, v)
  {
  }

  lemma CommitSwap(db: Db, a: Op, b: Op)
    requires Compatible(a, b)
    ensures Commit(Commit(db, a), b) == Commit(Commit(db, b), a)
  {
    if a != b {
      var newA, newB := a.snapshot.key !in db.snapshots, b.snapshot.key !in db.snapshots;
      var recA, recB := a.key !in db.recordings, b.key !in db.recordings;
      InsertSwap(db.snapshots, a.snapshot.key, Snapshot(a.snapshot, if recA then Some(a.key) else None),
                 b.snapshot.key, Snapshot(b.snapshot, if recB then Some(b.key) else None));
      InsertSwap(db.recordings, a.key, a.recording.(rowsWritten := if newA then 1 else 0),
                 b.key, b.recording.(rowsWritten := if newB then 1 else 0));
    }
  }

  lemma {:induction false} CommitMoves(db: Db, x: Op, ops: seq<Op>)
    requires forall i :: 0 <= i < |ops| ==> Compatible(x, ops[i])
    ensures CommitAll(Commit(db, x), ops) == Commit(CommitAll(db, ops), x)
    decreases |ops|
  {
    if ops != [] {
      CommitSwap(db, x, ops[0]);
      CommitMoves(Commit(db, ops[0]), x, ops[1..]);
    }
  }

  /**
   * When no two source-days clash, a full replay of "ok" days also absorbs any earlier commits of
   * some of them, in any order and with repetitions, such as the daily commits.
   */
  lemma {:induction false} ReplayAbsorbs(db: Db, ops: seq<Op>, earlier: seq<Op>)
    requires forall i, j :: 0 <= i < |ops| && 0 <= j < |ops| ==> Compatible(ops[i], ops[j])
    requires forall k :: 0 <= k < |earlier| ==> earlier[k] in ops
    ensures CommitAll(CommitAll(db, earlier), ops) == CommitAll(db, ops)
    decreases |earlier|
  {
    if earlier != [] {
      var x := earlier[0];
      assert x in ops;
      var at :| 0 <= at < |ops| && ops[at] == x;
      ReplayAbsorbs(Commit(db, x), ops, earlier[1..]);
      forall i | 0 <= i < |ops|
        ensures Compatible(x, ops[i])
      {
        assert Compatible(ops[at], ops[i]);
      }
      CommitMoves(db, x, ops);
      CommitGrows(db, ops);
      assert Present(CommitAll(db, ops), ops[at]);
    }
  }

  // ---------------------------------------------------------------- what a replay adds

  lemma CommitSnoc(db: Db, ops: seq<Op>)
    requires ops != []
    ensures CommitAll(db, ops) == Commit(CommitAll(db, ops[..|ops| - 1]), ops[|ops| - 1])
  {
    var n := |ops| - 1;
    assert ops == ops[..n] + [ops[n]];
    assert [ops[n]][1..] == [];
    CommitConcat(db, ops[..n], [ops[n]]);
  }

  /** Some "ok" source-day in the list has this snapshot key. */
  predicate AsksSnapshot(ops: seq<Op>, k: SnapshotKey) {
    exists j :: 0 <= j < |ops| && ops[j].OkDay? && ops[j].snapshot.key == k
  }

  predicate AsksRecording(ops: seq<Op>, key: RecordingKey) {
    exists j :: 0 <= j < |ops| && ops[j].OkDay? && ops[j].key == key
  }

  lemma {:induction false} KeysExactly(db: Db, ops: seq<Op>, k: SnapshotKey, key: RecordingKey)
    ensures k in CommitAll(db, ops).snapshots <==> k in db.snapshots || AsksSnapshot(ops, k)
    ensures key in CommitAll(db, ops).recordings <==> key in db.recordings || AsksRecording(ops, key)
    decreases |ops|
  {
    if ops != [] {
      var n := |ops| - 1;
      CommitSnoc(db, ops);
      KeysExactly(db, ops[..n], k, key);
      assert ops == ops[..n] + [ops[n]];
      assert AsksSnapshot(ops, k) <==> AsksSnapshot(ops[..n], k) || (ops[n].OkDay? && ops[n].snapshot.key == k);
      assert AsksRecording(ops, key) <==> AsksRecording(ops[..n], key) || (ops[n].OkDay? && ops[n].key == key);
    }
  }

  /** Source-day `i` is the first to ask for its snapshot, which was not there before. */
  predicate AddsSnapshot(db: Db, ops: seq<Op>, i: nat) {
    i < |ops| && ops[i].OkDay? && ops[i].snapshot.key !in db.snapshots && !AsksSnapshot(ops[..i], ops[i].snapshot.key)
  }

  predicate AddsRecording(db: Db, ops: seq<Op>, i: nat) {
    i < |ops| && ops[i].OkDay? && ops[i].key !in db.recordings && !AsksRecording(ops[..i], ops[i].key)
  }

  /** What was there stays as it was. */
  lemma {:induction false} ReplayKeeps(db: Db, ops: seq<Op>)
    ensures forall k :: k in db.snapshots ==> k in CommitAll(db, ops).snapshots && CommitAll(db, ops).snapshots[k] == db.snapshots[k]
    ensures forall k :: k in db.recordings ==> k in CommitAll(db, ops).recordings && CommitAll(db, ops).recordings[k] == db.recordings[k]
    decreases |ops|
  {
    if ops != [] {
      ReplayKeeps(Commit(db, ops[0]), ops[1..]);
    }
  }

  /** The source-day that adds a snapshot gives its row, and links it exactly when it adds its recording too. */
  lemma SnapshotAdded(db: Db, ops: seq<Op>, i: nat)
    requires AddsSnapshot(db, ops, i)
    ensures var after := CommitAll(db, ops);
            && ops[i].snapshot.key in after.snapshots
            && after.snapshots[ops[i].snapshot.key]
                 == Snapshot(ops[i].snapshot, if AddsRecording(db, ops, i) then Some(ops[i].key) else None)
  {
    var before := CommitAll(db, ops[..i]);
    KeysExactly(db, ops[..i], ops[i].snapshot.key, ops[i].key);
    CommittedAt(db, ops, i);
    ReplayKeeps(Commit(before, ops[i]), ops[i + 1..]);
  }

  /** The source-day that adds a recording gives its row, which counts its snapshot exactly when it adds that too. */
  lemma RecordingAdded(db: Db, ops: seq<Op>, i: nat)
    requires AddsRecording(db, ops, i)
    ensures var after := CommitAll(db, ops);
            && ops[i].key in after.recordings
            && after.recordings[ops[i].key] == ops[i].recording.(rowsWritten := if AddsSnapshot(db, ops, i) then 1 else 0)
  {
    var before := CommitAll(db, ops[..i]);
    KeysExactly(db, ops[..i], ops[i].snapshot.key, ops[i].key);
    CommittedAt(db, ops, i);
    ReplayKeeps(Commit(before, ops[i]), ops[i + 1..]);
  }

  lemma CommittedAt(db: Db, ops: seq<Op>, i: nat)
    requires i < |ops|
    ensures CommitAll(db, ops) == CommitAll(Commit(CommitAll(db, ops[..i]), ops[i]), ops[i + 1..])
  {
    assert ops == ops[..i] + ops[i..];
    assert ops[i..][0] == ops[i] && ops[i..][1..] == ops[i + 1..];
    CommitConcat(db, ops[..i], ops[i..]);
  }

  /** A snapshot that was not there before was added by the first source-day that asked for it. */
  lemma {:induction false} FirstAsked(ops: seq<Op>, k: SnapshotKey) returns (i: nat)
    requires AsksSnapshot(ops, k)
    ensures i < |ops| && ops[i].OkDay? && ops[i].snapshot.key == k && !AsksSnapshot(ops[..i], k)
    decreases |ops|
  {
    var n := |ops| - 1;
    assert ops == ops[..n] + [ops[n]];
    if AsksSnapshot(ops[..n], k) {
      i := FirstAsked(ops[..n], k);
      assert ops[..n][..i] == ops[..i];
    } else {
      i := n;
    }
  }

  /**
   * Every snapshot a replay adds together with its recording is linked to it, and that recording counts one row; a
   * snapshot added where the recording was there already stays unlinked.
   */
  lemma AddedAreLinked(db: Db, ops: seq<Op>, k: SnapshotKey) returns (i: nat)
    requires k in CommitAll(db, ops).snapshots && k !in db.snapshots
    ensures AddsSnapshot(db, ops, i) && ops[i].snapshot.key == k
    ensures var after := CommitAll(db, ops);
            && after.snapshots[k].row == ops[i].snapshot
            && ops[i].key in after.recordings
            && if AddsRecording(db, ops, i)
               then after.snapshots[k].recording == Some(ops[i].key) && after.recordings[ops[i].key].rowsWritten == 1
               else after.snapshots[k].recording == None
  {
    KeysExactly(db, ops, k, RecordingKey("", 0, "", ""));
    i := FirstAsked(ops, k);
    SnapshotAdded(db, ops, i);
    KeysExactly(db, ops, k, ops[i].key);
    if AddsRecording(db, ops, i) {
      RecordingAdded(db, ops, i);
    }
  }

  /** Every link leads to a recording of the same tenant, carrier and lane that counts the snapshot as its one row. */
  predicate LinksHold(db: Db) {
    forall k :: k in db.snapshots && db.snapshots[k].recording.Some? ==>
      var key := db.snapshots[k].recording.value;
      && key in db.recordings && db.recordings[key].rowsWritten == 1
      && key.tenant == k.tenant && key.carrier == k.carrier && key.lane == k.lane
  }

  /** The two keys of a source-day name the same tenant, carrier and lane. */
  predicate KeysAgree(op: Op) {
    op.OkDay? ==>
      op.key.tenant == op.snapshot.key.tenant && op.key.carrier == op.snapshot.key.carrier && op.key.lane == op.snapshot.key.lane
  }

  lemma {:induction false} LinksStayHeld(db: Db, ops: seq<Op>)
    requires LinksHold(db) && forall i :: 0 <= i < |ops| ==> KeysAgree(ops[i])
    ensures LinksHold(CommitAll(db, ops))
    decreases |ops|
  {
    if ops != [] {
      assert KeysAgree(ops[0]);
      LinksStayHeld(Commit(db, ops[0]), ops[1..]);
    }
  }
}
