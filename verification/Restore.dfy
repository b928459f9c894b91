/** The replay loop (restore_live.py) over `commit_day` and `commit_source_day` (recording/commit.py). */
module Restore {
  import opened Wrappers
  import opened TransactionRetry
  import opened Recordings

  const DEFAULT_MAX_RETRIES := 5
  const DEFAULT_BASE_DELAY_SECONDS := 0.1

  datatype Archive = Archive(ctx: Context, sources: seq<Source>, manifests: map<(string, int), StoredManifest>)

  /** `daterange`. */
  function DateRange(first: int, last: int): (dates: seq<int>)
    ensures |dates| == if first <= last then last - first + 1 else 0
    ensures forall i :: 0 <= i < |dates| ==> dates[i] == first + i
  {
    if first > last then [] else seq(last - first + 1, i => first + i)
  }

  /** What one source asks for on one day: nothing without a manifest, and `None` where the commit raises. */
  function SourceItem(a: Archive, source: Source, date: int): seq<Option<Op>> {
    if (source.key, date) in a.manifests then [Prepare(a.ctx, source, date, a.manifests[(source.key, date)])] else []
  }

  function Flatten<T>(parts: seq<seq<T>>): seq<T> {
    if parts == [] then [] else Flatten(parts[..|parts| - 1]) + parts[|parts| - 1]
  }

  function DayItems(a: Archive, date: int): seq<Option<Op>> {
    Flatten(seq(|a.sources|, k requires 0 <= k < |a.sources| => SourceItem(a, a.sources[k], date)))
  }

  /** What a range asks for, in date and source order. */
  function Items(a: Archive, dates: seq<int>): seq<Option<Op>> {
    Flatten(seq(|dates|, i requires 0 <= i < |dates| => DayItems(a, dates[i])))
  }

  function Somes(ops: seq<Op>): (r: seq<Option<Op>>)
    ensures |r| == |ops|
  {
    seq(|ops|, i requires 0 <= i < |ops| => Some(ops[i]))
  }

  /** The retried transaction ends in an acknowledged commit. */
  predicate Succeeds(attempts: nat -> Attempt) {
    attempts(AttemptsMade(attempts, DEFAULT_MAX_RETRIES) - 1).Commits?
  }

  /** It takes effect, acknowledged or not. */
  predicate Lands(attempts: nat -> Attempt) {
    var last := attempts(AttemptsMade(attempts, DEFAULT_MAX_RETRIES) - 1);
    last.Commits? || last == Fails(true)
  }

  /** One source-day, in one retried transaction: all of it or nothing. */
  method CommitSourceDay(conn: Connection<Db>, a: Archive, source: Source, date: int, m: StoredManifest, attempts: nat -> Attempt)
    returns (ok: bool)
    modifies conn
    ensures var op := Prepare(a.ctx, source, date, m);
            && (ok <==> op.Some? && Succeeds(attempts))
            && conn.db == if op.Some? && Lands(attempts) then Commit(old(conn.db), op.value) else old(conn.db)
    ensures ok <==> Preparable(a.ctx, source, m) && Succeeds(attempts)
    ensures if Preparable(a.ctx, source, m) && Lands(attempts) then Leaves(a.ctx, source, date, m, old(conn.db), conn.db)
            else conn.db == old(conn.db)
    ensures conn.slept - old(conn.slept) <= Limit(DEFAULT_BASE_DELAY_SECONDS, DEFAULT_MAX_RETRIES)
  {
    var op := Prepare(a.ctx, source, date, m);
    PreparesExactly(a.ctx, source, date, m);
    CommitLeaves(a.ctx, source, date, m, conn.db);
    if op.None? {
      WaitedWithinLimit(DEFAULT_BASE_DELAY_SECONDS, 0, DEFAULT_MAX_RETRIES);
      return false;
    }
    var verdict, tries := conn.RunWithRetry((d: Db) => Commit(d, op.value), attempts, DEFAULT_MAX_RETRIES, DEFAULT_BASE_DELAY_SECONDS);
    ok := verdict.Committed?;
  }

  // ---------------------------------------------------------------- what a replay does

  /** What the outside world does to one source-day: whether reading its manifest fails, and each try to commit it. */
  datatype Weather = Weather(readFails: bool, attempts: nat -> Attempt)

  /** What one part of a replay brings to the database, and whether the replay goes on after it. */
  datatype Part = Part(ops: seq<Op>, goes: bool)

  /** One source-day: without a manifest it brings nothing; it goes on unless the read, the rows or the commit fail. */
  function SourcePart(a: Archive, source: Source, date: int, env: Weather): Part {
    if env.readFails then Part([], false)
    else if (source.key, date) !in a.manifests then Part([], true)
    else
      var op := Prepare(a.ctx, source, date, a.manifests[(source.key, date)]);
      Part(if op.Some? && Lands(env.attempts) then [op.value] else [], op.Some? && Succeeds(env.attempts))
  }

  /** Parts one after the other, up to one after which the replay does not go on. */
  function Chain(parts: seq<Part>): Part {
    if parts == [] then Part([], true)
    else
      var before, last := Chain(parts[..|parts| - 1]), parts[|parts| - 1];
      if before.goes then Part(before.ops + last.ops, last.goes) else before
  }

  function DayParts(a: Archive, date: int, env: nat -> Weather): seq<Part> {
    seq(|a.sources|, k requires 0 <= k < |a.sources| => SourcePart(a, a.sources[k], date, env(k)))
  }

  function DayPart(a: Archive, date: int, env: nat -> Weather): Part {
    Chain(DayParts(a, date, env))
  }

  function RangeParts(a: Archive, dates: seq<int>, env: nat -> nat -> Weather): seq<Part> {
    seq(|dates|, i requires 0 <= i < |dates| => DayPart(a, dates[i], env(i)))
  }

  function RangePart(a: Archive, dates: seq<int>, env: nat -> nat -> Weather): Part {
    Chain(RangeParts(a, dates, env))
  }

  lemma {:induction false} ChainStops(parts: seq<Part>, k: nat)
    requires k <= |parts| && !Chain(parts[..k]).goes
    ensures Chain(parts) == Chain(parts[..k])
    decreases |parts|
  {
    if k == |parts| {
      assert parts[..k] == parts;
    } else {
      assert parts[..|parts| - 1][..k] == parts[..k];
      ChainStops(parts[..|parts| - 1], k);
    }
  }

  /** One more part: what it brings is added, and where it does not go on the chain is over. */
  lemma ChainStep(db: Db, parts: seq<Part>, k: nat)
    requires k < |parts| && Chain(parts[..k]).goes
    ensures CommitAll(CommitAll(db, Chain(parts[..k]).ops), parts[k].ops) == CommitAll(db, Chain(parts[..k + 1]).ops)
    ensures Chain(parts[..k + 1]).goes == parts[k].goes
    ensures !parts[k].goes ==> Chain(parts) == Chain(parts[..k + 1])
  {
    assert parts[..k + 1][..k] == parts[..k];
    CommitConcat(db, Chain(parts[..k]).ops, parts[k].ops);
    if !parts[k].goes {
      ChainStops(parts, k + 1);
    }
  }

  /** The whole chain goes exactly when every part does. */
  lemma {:induction false} ChainGoes(parts: seq<Part>)
    ensures Chain(parts).goes <==> forall i :: 0 <= i < |parts| ==> parts[i].goes
  {
    if parts != [] {
      ChainGoes(parts[..|parts| - 1]);
    }
  }

  /** A replay of a range finishes exactly when no read fails and every manifest there prepares and commits. */
  ghost predicate AllGo(a: Archive, dates: seq<int>, env: nat -> nat -> Weather) {
    forall i, k :: 0 <= i < |dates| && 0 <= k < |a.sources| ==> SourceGoes(a, a.sources[k], dates[i], env(i)(k))
  }

  predicate SourceGoes(a: Archive, source: Source, date: int, env: Weather) {
    && !env.readFails
    && ((source.key, date) in a.manifests ==>
          Preparable(a.ctx, source, a.manifests[(source.key, date)]) && Succeeds(env.attempts))
  }

  lemma DayGoes(a: Archive, date: int, env: nat -> Weather)
    ensures DayPart(a, date, env).goes <==> forall k :: 0 <= k < |a.sources| ==> SourceGoes(a, a.sources[k], date, env(k))
  {
    var parts := DayParts(a, date, env);
    ChainGoes(parts);
    forall k | 0 <= k < |a.sources|
      ensures parts[k].goes <==> SourceGoes(a, a.sources[k], date, env(k))
    {
      if (a.sources[k].key, date) in a.manifests {
        PreparesExactly(a.ctx, a.sources[k], date, a.manifests[(a.sources[k].key, date)]);
      }
    }
    assert (forall k :: 0 <= k < |parts| ==> parts[k].goes) <==>
           forall k :: 0 <= k < |a.sources| ==> SourceGoes(a, a.sources[k], date, env(k));
  }

  lemma RangeGoes(a: Archive, dates: seq<int>, env: nat -> nat -> Weather)
    ensures RangePart(a, dates, env).goes <==> AllGo(a, dates, env)
  {
    var parts := RangeParts(a, dates, env);
    ChainGoes(parts);
    forall i | 0 <= i < |dates|
      ensures parts[i].goes <==> forall k :: 0 <= k < |a.sources| ==> SourceGoes(a, a.sources[k], dates[i], env(i)(k))
    {
      DayGoes(a, dates[i], env(i));
    }
  }

  lemma CommitOne(db: Db, op: Op)
    ensures CommitAll(db, [op]) == Commit(db, op)
  {
    assert [op][1..] == [];
  }

  /** One source of `commit_day`: skipped without a manifest, and raising when that cannot be told. */
  method CommitNext(conn: Connection<Db>, a: Archive, source: Source, date: int, env: Weather) returns (ok: bool)
    modifies conn
    ensures ok == SourcePart(a, source, date, env).goes
    ensures conn.db == CommitAll(old(conn.db), SourcePart(a, source, date, env).ops)
  {
    if env.readFails {
      return false;
    }
    if (source.key, date) !in a.manifests {
      return true;
    }
    var m := a.manifests[(source.key, date)];
    ghost var op := Prepare(a.ctx, source, date, m);
    if op.Some? {
      CommitOne(conn.db, op.value);
    }
    ok := CommitSourceDay(conn, a, source, date, m, env.attempts);
  }

  /** `commit_day`: the sources in order, up to one that raises. */
  method CommitDay(conn: Connection<Db>, a: Archive, date: int, env: nat -> Weather) returns (finished: bool)
    modifies conn
    ensures finished == DayPart(a, date, env).goes
    ensures conn.db == CommitAll(old(conn.db), DayPart(a, date, env).ops)
  {
    ghost var parts := DayParts(a, date, env);
    for k := 0 to |a.sources|
      invariant Chain(parts[..k]).goes
      invariant conn.db == CommitAll(old(conn.db), Chain(parts[..k]).ops)
    {
      ChainStep(old(conn.db), parts, k);
      var ok := CommitNext(conn, a, a.sources[k], date, env(k));
      if !ok {
        return false;
      }
    }
    assert parts[..|parts|] == parts;
    finished := true;
  }

  method ReplayDates(conn: Connection<Db>, a: Archive, dates: seq<int>, env: nat -> nat -> Weather) returns (finished: bool)
    modifies conn
    ensures finished == RangePart(a, dates, env).goes
    ensures conn.db == CommitAll(old(conn.db), RangePart(a, dates, env).ops)
  {
    ghost var parts := RangeParts(a, dates, env);
    for i := 0 to |dates|
      invariant Chain(parts[..i]).goes
      invariant conn.db == CommitAll(old(conn.db), Chain(parts[..i]).ops)
    {
      ChainStep(old(conn.db), parts, i);
      var ok := CommitDay(conn, a, dates[i], env(i));
      if !ok {
        return false;
      }
    }
    assert parts[..|parts|] == parts;
    finished := true;
  }

  // ---------------------------------------------------------------- replays of one range

  /** The part brings a prefix of what is asked for, and all of it when it goes. */
  predicate Brings(part: Part, items: seq<Option<Op>>) {
    Somes(part.ops) <= items && (part.goes ==> Somes(part.ops) == items)
  }

  lemma SomesConcat(a: seq<Op>, b: seq<Op>)
    ensures Somes(a + b) == Somes(a) + Somes(b)
  {
  }

  lemma BringsStep(before: Part, last: Part, a: seq<Option<Op>>, b: seq<Option<Op>>)
    requires Brings(before, a) && Brings(last, b)
    ensures Brings(if before.goes then Part(before.ops + last.ops, last.goes) else before, a + b)
  {
    SomesConcat(before.ops, last.ops);
  }

  lemma {:induction false} ChainBrings(parts: seq<Part>, items: seq<seq<Option<Op>>>)
    requires |parts| == |items| && forall i :: 0 <= i < |parts| ==> Brings(parts[i], items[i])
    ensures Brings(Chain(parts), Flatten(items))
  {
    if parts != [] {
      var n := |parts| - 1;
      ChainBrings(parts[..n], items[..n]);
      BringsStep(Chain(parts[..n]), parts[n], Flatten(items[..n]), items[n]);
    }
  }

  lemma SourceBrings(a: Archive, source: Source, date: int, env: Weather)
    ensures Brings(SourcePart(a, source, date, env), SourceItem(a, source, date))
  {
  }

  lemma DayBrings(a: Archive, date: int, env: nat -> Weather)
    ensures Brings(DayPart(a, date, env), DayItems(a, date))
  {
    var items := seq(|a.sources|, k requires 0 <= k < |a.sources| => SourceItem(a, a.sources[k], date));
    forall k | 0 <= k < |a.sources|
      ensures Brings(DayParts(a, date, env)[k], items[k])
    {
      SourceBrings(a, a.sources[k], date, env(k));
    }
    ChainBrings(DayParts(a, date, env), items);
  }

  /** A replay brings a prefix of what the range asks for, in date and source order, and all of it when it finishes. */
  lemma RangeBrings(a: Archive, dates: seq<int>, env: nat -> nat -> Weather)
    ensures Brings(RangePart(a, dates, env), Items(a, dates))
  {
    var items := seq(|dates|, i requires 0 <= i < |dates| => DayItems(a, dates[i]));
    forall i | 0 <= i < |dates|
      ensures Brings(RangeParts(a, dates, env)[i], items[i])
    {
      DayBrings(a, dates[i], env(i));
    }
    ChainBrings(RangeParts(a, dates, env), items);
  }

  lemma SomesPrefix(a: seq<Op>, b: seq<Op>)
    requires Somes(a) <= Somes(b)
    ensures |a| <= |b| && a == b[..|a|]
  {
    forall i | 0 <= i < |a|
      ensures a[i] == b[i]
    {
      assert Somes(a)[i] == Somes(b)[i];
    }
  }

  /**
   * A replay of a range that finishes, after one that stopped anywhere or finished too, whatever aborts either met:
   * the rows are those of the finished replay alone if and only if every source-day committed before was "ok".
   */
  lemma ReplayAgainExactly(a: Archive, dates: seq<int>, db: Db, before: nat -> nat -> Weather, env: nat -> nat -> Weather)
    requires AllGo(a, dates, env)
    ensures var partial, full := RangePart(a, dates, before).ops, RangePart(a, dates, env).ops;
            CommitAll(CommitAll(db, partial), full) == CommitAll(db, full) <==> AllOk(partial)
  {
    var partial, full := RangePart(a, dates, before).ops, RangePart(a, dates, env).ops;
    RangeGoes(a, dates, env);
    RangeBrings(a, dates, before);
    RangeBrings(a, dates, env);
    SomesPrefix(partial, full);
    ReplayIdempotentExactly(db, full, |partial|);
  }

  /** Any two replays that finish bring the same commits, however many tries they took. */
  lemma FinishedReplaysAgree(a: Archive, dates: seq<int>, x: nat -> nat -> Weather, y: nat -> nat -> Weather)
    requires AllGo(a, dates, x) && AllGo(a, dates, y)
    ensures RangePart(a, dates, x).ops == RangePart(a, dates, y).ops
  {
    RangeGoes(a, dates, x);
    RangeGoes(a, dates, y);
    RangeBrings(a, dates, x);
    RangeBrings(a, dates, y);
    SomesPrefix(RangePart(a, dates, x).ops, RangePart(a, dates, y).ops);
  }

  // ---------------------------------------------------------------- what a replay leaves, in terms of the archive

  /** The archive has an "ok" manifest of the source for the day, with all that the commit reads. */
  predicate HasOk(a: Archive, source: Source, date: int) {
    && (source.key, date) in a.manifests
    && Preparable(a.ctx, source, a.manifests[(source.key, date)])
    && Status(a.manifests[(source.key, date)]) == "ok"
  }

  function CarrierOf(a: Archive, source: Source): string
    requires source.key in a.ctx.scacOf && a.ctx.scacOf[source.key] in a.ctx.carrierByScac
  {
    a.ctx.carrierByScac[a.ctx.scacOf[source.key]]
  }

  /** The row of an archived "ok" day, read off its manifest. */
  function ArchivedSnapshot(a: Archive, source: Source, date: int): SnapshotRow
    requires HasOk(a, source, date)
  {
    var m := a.manifests[(source.key, date)];
    SnapshotRow(SnapshotKey(a.ctx.tenant, CarrierOf(a, source), source.laneLabel, m.capturedAt.value),
                m.capturedDate, m.url.value, m.bodyKey.value, m.sha.value)
  }

  function ArchivedRecording(a: Archive, source: Source, date: int): RecordingKey
    requires HasOk(a, source, date)
  {
    RecordingKey(a.ctx.tenant, date, CarrierOf(a, source), source.laneLabel)
  }

  lemma {:induction false} FlattenMembers<T(!new)>(parts: seq<seq<T>>, x: T)
    ensures x in Flatten(parts) <==> exists i :: 0 <= i < |parts| && x in parts[i]
  {
    if parts != [] {
      var n := |parts| - 1;
      FlattenMembers(parts[..n], x);
      assert parts == parts[..n] + [parts[n]];
      assert (exists i :: 0 <= i < |parts| && x in parts[i]) <==>
             (exists i :: 0 <= i < n && x in parts[..n][i]) || x in parts[n];
    }
  }

  lemma DayItemsMembers(a: Archive, date: int, x: Option<Op>)
    ensures x in DayItems(a, date) <==> exists source :: source in a.sources && x in SourceItem(a, source, date)
  {
    var parts := seq(|a.sources|, k requires 0 <= k < |a.sources| => SourceItem(a, a.sources[k], date));
    FlattenMembers(parts, x);
    if source :| source in a.sources && x in SourceItem(a, source, date) {
      var k :| 0 <= k < |a.sources| && a.sources[k] == source;
      assert x in parts[k];
    }
  }

  lemma ItemsMembers(a: Archive, dates: seq<int>, x: Option<Op>)
    ensures x in Items(a, dates) <==>
              exists date, source :: date in dates && source in a.sources && x in SourceItem(a, source, date)
  {
    var parts := seq(|dates|, i requires 0 <= i < |dates| => DayItems(a, dates[i]));
    FlattenMembers(parts, x);
    if x in Items(a, dates) {
      var i :| 0 <= i < |dates| && x in parts[i];
      DayItemsMembers(a, dates[i], x);
    }
    if date, source :| date in dates && source in a.sources && x in SourceItem(a, source, date) {
      var i :| 0 <= i < |dates| && dates[i] == date;
      DayItemsMembers(a, date, x);
      assert x in parts[i];
    }
  }

  /** What a replay commits for an "ok" day is the archived one. */
  lemma BroughtFromArchive(a: Archive, dates: seq<int>, env: nat -> nat -> Weather, op: Op) returns (date: int, source: Source)
    requires op in RangePart(a, dates, env).ops
    ensures date in dates && source in a.sources && (source.key, date) in a.manifests
    ensures Prepare(a.ctx, source, date, a.manifests[(source.key, date)]) == Some(op)
    ensures op.OkDay? <==> HasOk(a, source, date)
    ensures op.OkDay? ==> op.snapshot == ArchivedSnapshot(a, source, date) && op.key == ArchivedRecording(a, source, date)
  {
    var ops := RangePart(a, dates, env).ops;
    RangeBrings(a, dates, env);
    var i :| 0 <= i < |ops| && ops[i] == op;
    assert Somes(ops)[i] == Some(op) == Items(a, dates)[i];
    ItemsMembers(a, dates, Some(op));
    date, source :| date in dates && source in a.sources && Some(op) in SourceItem(a, source, date);
    PreparesExactly(a.ctx, source, date, a.manifests[(source.key, date)]);
  }

  /** A finished replay commits every "ok" day of the range. */
  lemma FinishedBrings(a: Archive, dates: seq<int>, env: nat -> nat -> Weather, date: int, source: Source)
    requires AllGo(a, dates, env) && date in dates && source in a.sources && HasOk(a, source, date)
    ensures AsksSnapshot(RangePart(a, dates, env).ops, ArchivedSnapshot(a, source, date).key)
    ensures AsksRecording(RangePart(a, dates, env).ops, ArchivedRecording(a, source, date))
  {
    var ops := RangePart(a, dates, env).ops;
    var x := Prepare(a.ctx, source, date, a.manifests[(source.key, date)]);
    PreparesExactly(a.ctx, source, date, a.manifests[(source.key, date)]);
    RangeGoes(a, dates, env);
    RangeBrings(a, dates, env);
    assert x in SourceItem(a, source, date);
    ItemsMembers(a, dates, x);
    var i :| 0 <= i < |Items(a, dates)| && Items(a, dates)[i] == x;
    assert Somes(ops)[i] == Some(ops[i]);
    assert ops[i] == x.value;
  }

  /** Rows that were there keep their values. */
  ghost predicate Keeps(before: Db, after: Db) {
    && (forall k :: k in before.snapshots ==> k in after.snapshots && after.snapshots[k] == before.snapshots[k])
    && (forall key :: key in before.recordings ==> key in after.recordings && after.recordings[key] == before.recordings[key])
  }

  /** Another source has the same recording for the day. */
  ghost predicate Shared(a: Archive, source: Source, date: int)
    requires HasOk(a, source, date)
  {
    exists other :: other in a.sources && other.key != source.key && HasOk(a, other, date) &&
      ArchivedRecording(a, other, date) == ArchivedRecording(a, source, date)
  }

  /**
   * A snapshot that was not there before is that of an archived "ok" day of the range, read off its manifest. The
   * recording of that day is there too; the snapshot is linked to it, and it counts one row, unless the recording was
   * there before or another source shares it.
   */
  ghost predicate Archived(a: Archive, dates: seq<int>, before: Db, after: Db, k: SnapshotKey)
    requires k in after.snapshots
  {
    exists date, source :: date in dates && source in a.sources && HasOk(a, source, date) &&
      var key := ArchivedRecording(a, source, date);
      && after.snapshots[k].row == ArchivedSnapshot(a, source, date)
      && key in after.recordings
      && (after.snapshots[k].recording == None || after.snapshots[k].recording == Some(key))
      && (after.snapshots[k].recording == Some(key) ==> key !in before.recordings && after.recordings[key].rowsWritten == 1)
      && (after.snapshots[k].recording == None ==> key in before.recordings || Shared(a, source, date))
  }

  lemma ReplayAdds(a: Archive, dates: seq<int>, env: nat -> nat -> Weather, db: Db, k: SnapshotKey)
    requires var after := CommitAll(db, RangePart(a, dates, env).ops); k in after.snapshots && k !in db.snapshots
    ensures Archived(a, dates, db, CommitAll(db, RangePart(a, dates, env).ops), k)
  {
    var ops := RangePart(a, dates, env).ops;
    var i := AddedAreLinked(db, ops, k);
    var date, source := BroughtFromArchive(a, dates, env, ops[i]);
    if !AddsRecording(db, ops, i) && ops[i].key !in db.recordings {
      var j :| 0 <= j < i && ops[..i][j].OkDay? && ops[..i][j].key == ops[i].key;
      assert ops[..i][j].snapshot.key != k;
      var day, other := BroughtFromArchive(a, dates, env, ops[j]);
      assert Shared(a, source, date);
    }
  }

  lemma ReplayLinksHold(a: Archive, dates: seq<int>, env: nat -> nat -> Weather, db: Db)
    requires LinksHold(db)
    ensures LinksHold(CommitAll(db, RangePart(a, dates, env).ops))
  {
    var ops := RangePart(a, dates, env).ops;
    forall i | 0 <= i < |ops|
      ensures KeysAgree(ops[i])
    {
      var date, source := BroughtFromArchive(a, dates, env, ops[i]);
    }
    LinksStayHeld(db, ops);
  }

  /** Every "ok" day of the range has its snapshot and its recording. */
  ghost predicate HasAll(a: Archive, dates: seq<int>, db: Db) {
    forall date, source :: date in dates && source in a.sources && HasOk(a, source, date) ==>
      ArchivedSnapshot(a, source, date).key in db.snapshots && ArchivedRecording(a, source, date) in db.recordings
  }

  lemma FinishedHasAll(a: Archive, dates: seq<int>, env: nat -> nat -> Weather, db: Db)
    requires AllGo(a, dates, env)
    ensures HasAll(a, dates, CommitAll(db, RangePart(a, dates, env).ops))
  {
    forall date, source | date in dates && source in a.sources && HasOk(a, source, date)
      ensures ArchivedSnapshot(a, source, date).key in CommitAll(db, RangePart(a, dates, env).ops).snapshots
      ensures ArchivedRecording(a, source, date) in CommitAll(db, RangePart(a, dates, env).ops).recordings
    {
      FinishedBrings(a, dates, env, date, source);
      KeysExactly(db, RangePart(a, dates, env).ops, ArchivedSnapshot(a, source, date).key, ArchivedRecording(a, source, date));
    }
  }

  /**
   * `replay_range`: the days in order, up to one that raises. It finishes exactly when no read fails and every
   * manifest there prepares and commits within the retries, and then every archived "ok" day has its rows. Whether it
   * finishes or not, rows that were there stay, and those it adds are read off the manifests and linked.
   */
  method ReplayRange(conn: Connection<Db>, a: Archive, first: int, last: int, env: nat -> nat -> Weather) returns (finished: bool)
    modifies conn
    ensures finished <==> AllGo(a, DateRange(first, last), env)
    ensures conn.db == CommitAll(old(conn.db), RangePart(a, DateRange(first, last), env).ops)
    ensures finished ==> HasAll(a, DateRange(first, last), conn.db)
    ensures Keeps(old(conn.db), conn.db)
    ensures forall k :: k in conn.db.snapshots && k !in old(conn.db).snapshots ==>
              Archived(a, DateRange(first, last), old(conn.db), conn.db, k)
    ensures LinksHold(old(conn.db)) ==> LinksHold(conn.db)
  {
    var dates := DateRange(first, last);
    RangeGoes(a, dates, env);
    ghost var before := conn.db;
    finished := ReplayDates(conn, a, dates, env);
    ReplayKeeps(before, RangePart(a, dates, env).ops);
    forall k | k in conn.db.snapshots && k !in before.snapshots
      ensures Archived(a, dates, before, conn.db, k)
    {
      ReplayAdds(a, dates, env, before, k);
    }
    if finished {
      FinishedHasAll(a, dates, env, before);
    }
    if LinksHold(before) {
      ReplayLinksHold(a, dates, env, before);
    }
  }
}
