/**
 * The ordered migration applier (src/external/migrate.py).
 *
 * The schema is a value of any type `S`. An `Engine` says what one statement does to it and when the
 * schema markers of a file that predates the applier are all present.
 */
module MigrationRunner {
  import opened Sorting
  import opened SqlSplitter

  datatype Engine<!S> = Engine(exec: (S, string) -> S, marked: (string, S) -> bool)

  datatype File = File(name: string, sql: string)

  /** `finished` records the files whose statements the applier has run to the end. */
  datatype Db<S> = Db(schema: S, tracked: set<string>, finished: set<string>)

  const PRE_RUNNER_MIGRATIONS: seq<string> := ["001a_recording_tables.sql", "001b_recordings_invocation.sql"]

  function Statements(f: File): seq<string> {
    Split(f.sql)
  }

  function Exec<S>(e: Engine<S>, statements: seq<string>, s: S): S {
    if statements == [] then s else Exec(e, statements[1..], e.exec(s, statements[0]))
  }

  predicate Retroactive<S>(e: Engine<S>, name: string, s: S) {
    name in PRE_RUNNER_MIGRATIONS && e.marked(name, s)
  }

  /** `_ensure_tracking_table`, having looked at the first `n` pre-runner files. */
  function Ensure<S>(e: Engine<S>, db: Db<S>, n: nat): Db<S>
    requires n <= |PRE_RUNNER_MIGRATIONS|
  {
    db.(tracked := db.tracked + set k | 0 <= k < n && e.marked(PRE_RUNNER_MIGRATIONS[k], db.schema) :: PRE_RUNNER_MIGRATIONS[k])
  }

  /** The database as the file loop first sees it. */
  function Start<S>(e: Engine<S>, db: Db<S>): Db<S> {
    Ensure(e, db, |PRE_RUNNER_MIGRATIONS|)
  }

  function Pending(files: seq<File>, tracked: set<string>): seq<File> {
    Filter((f: File) => f.name !in tracked, files)
  }

  function RunFile<S>(e: Engine<S>, f: File, db: Db<S>): Db<S> {
    Db(Exec(e, Statements(f), db.schema), db.tracked + {f.name}, db.finished + {f.name})
  }

  function RunFiles<S>(e: Engine<S>, pending: seq<File>, db: Db<S>): Db<S> {
    if pending == [] then db else RunFiles(e, pending[1..], RunFile(e, pending[0], db))
  }

  /** One uninterrupted `apply_all`. */
  function FullRun<S>(e: Engine<S>, files: seq<File>, db: Db<S>): Db<S> {
    var d := Start(e, db);
    RunFiles(e, Pending(files, d.tracked), d)
  }

  // ---------------------------------------------------------------- the source's loops

  lemma {:induction false} ExecConcat<S>(e: Engine<S>, a: seq<string>, b: seq<string>, s: S)
    ensures Exec(e, a + b, s) == Exec(e, b, Exec(e, a, s))
  {
    if a == [] {
      assert a + b == b;
    } else {
      assert (a + b)[1..] == a[1..] + b;
      ExecConcat(e, a[1..], b, e.exec(s, a[0]));
    }
  }

  lemma {:induction false} RunFilesConcat<S>(e: Engine<S>, a: seq<File>, b: seq<File>, db: Db<S>)
    ensures RunFiles(e, a + b, db) == RunFiles(e, b, RunFiles(e, a, db))
  {
    if a == [] {
      assert a + b == b;
    } else {
      assert (a + b)[1..] == a[1..] + b;
      RunFilesConcat(e, a[1..], b, RunFile(e, a[0], db));
    }
  }

  lemma ExecStep<S>(e: Engine<S>, statements: seq<string>, k: nat, s: S)
    requires k < |statements|
    ensures Exec(e, statements[..k + 1], s) == e.exec(Exec(e, statements[..k], s), statements[k])
  {
    assert statements[..k + 1] == statements[..k] + [statements[k]];
    ExecConcat(e, statements[..k], [statements[k]], s);
    assert [statements[k]][1..] == [];
  }

  lemma PendingStep(files: seq<File>, tracked: set<string>, i: nat)
    requires i < |files|
    ensures Pending(files[..i + 1], tracked) ==
            Pending(files[..i], tracked) + (if files[i].name in tracked then [] else [files[i]])
  {
    var keep := (f: File) => f.name !in tracked;
    assert files[..i + 1] == files[..i] + [files[i]];
    FilterConcat(keep, files[..i], [files[i]]);
    assert [files[i]][1..] == [];
    assert Filter(keep, [files[i]]) == if keep(files[i]) then [files[i]] else [];
  }

  lemma RunFilesLast<S>(e: Engine<S>, before: seq<File>, f: File, db: Db<S>)
    ensures RunFiles(e, before + [f], db) == RunFile(e, f, RunFiles(e, before, db))
  {
    RunFilesConcat(e, before, [f], db);
    assert [f][1..] == [];
  }

  class Cluster<S> {
    var schema: S
    var tracked: set<string>
    ghost var finished: set<string>

    ghost function State(): Db<S>
      reads this
    {
      Db(schema, tracked, finished)
    }

    constructor (schema: S)
      ensures State() == Db(schema, {}, {})
    {
      this.schema, this.tracked, this.finished := schema, {}, {};
    }

    method EnsureTrackingTable(e: Engine<S>)
      modifies this
      ensures State() == Start(e, old(State()))
    {
      var already := tracked;
      for k := 0 to |PRE_RUNNER_MIGRATIONS|
        invariant schema == old(schema) && finished == old(finished)
        invariant State() == Ensure(e, old(State()), k)
      {
        var name := PRE_RUNNER_MIGRATIONS[k];
        if name !in already && e.marked(name, schema) {
          tracked := tracked + {name};
        }
      }
    }

    /** Executes the statements of one file in order, then writes its tracking row. */
    method ApplyFile(e: Engine<S>, f: File)
      modifies this
      ensures schema == Exec(e, Split(f.sql), old(schema))
      ensures tracked == old(tracked) + {f.name} && finished == old(finished) + {f.name}
      ensures State() == RunFile(e, f, old(State()))
    {
      var statements := SplitSqlStatements(f.sql);
      for k := 0 to |statements|
        invariant schema == Exec(e, statements[..k], old(schema))
        invariant tracked == old(tracked) && finished == old(finished)
      {
        ExecStep(e, statements, k, old(schema));
        schema := e.exec(schema, statements[k]);
      }
      assert statements[..|statements|] == statements;
      finished := finished + {f.name};
      tracked := tracked + {f.name};
    }

    /** `apply_all` performs one uninterrupted run and reports the files it applied, in order. */
    method ApplyAll(e: Engine<S>, files: seq<File>) returns (applied: seq<string>)
      modifies this
      ensures State() == FullRun(e, files, old(State()))
      ensures var pending := Pending(files, Start(e, old(State())).tracked);
              |applied| == |pending| && forall i :: 0 <= i < |pending| ==> applied[i] == pending[i].name
    {
      EnsureTrackingTable(e);
      var already := tracked;
      ghost var start := State();
      applied := [];
      for i := 0 to |files|
        invariant State() == RunFiles(e, Pending(files[..i], already), start)
        invariant |applied| == |Pending(files[..i], already)|
        invariant forall k :: 0 <= k < |applied| ==> applied[k] == Pending(files[..i], already)[k].name
      {
        PendingStep(files, already, i);
        assert Pending(files[..i], already) + [] == Pending(files[..i], already);
        if files[i].name !in already {
          ghost var before := Pending(files[..i], already);
          RunFilesLast(e, before, files[i], start);
          ApplyFile(e, files[i]);
          applied := applied + [files[i].name];
        }
      }
      assert files[..|files|] == files;
    }
  }

  // ---------------------------------------------------------------- interrupted runs

  /** Where a run stops: while looking at the pre-runner files, or inside the file loop. */
  datatype Crash = InEnsure(seen: nat) | InFile(done: nat, statements: nat)

  function Min(a: nat, b: nat): nat {
    if a < b then a else b
  }

  /** Runs the first `i` pending files and then `m` statements of the next, whose tracking row is not written. */
  function PartialFiles<S>(e: Engine<S>, pending: seq<File>, db: Db<S>, i: nat, m: nat): Db<S> {
    if i >= |pending| then RunFiles(e, pending, db)
    else
      var d := RunFiles(e, pending[..i], db);
      var statements := Statements(pending[i]);
      var k := Min(m, |statements|);
      Db(Exec(e, statements[..k], d.schema), d.tracked,
         if k == |statements| then d.finished + {pending[i].name} else d.finished)
  }

  function CrashedRun<S>(e: Engine<S>, files: seq<File>, db: Db<S>, c: Crash): Db<S> {
    match c
    case InEnsure(n) => Ensure(e, db, Min(n, |PRE_RUNNER_MIGRATIONS|))
    case InFile(i, m) =>
      var d := Start(e, db);
      PartialFiles(e, Pending(files, d.tracked), d, i, m)
  }

  /** Any number of interrupted runs, one after the other. */
  function History<S>(e: Engine<S>, files: seq<File>, db: Db<S>, crashes: seq<Crash>): Db<S>
    decreases |crashes|
  {
    if crashes == [] then db
    else CrashedRun(e, files, History(e, files, db, crashes[..|crashes| - 1]), crashes[|crashes| - 1])
  }

  /** Replaying statements of a file that have already run changes nothing. */
  ghost predicate HarmlessReplay<S(!new)>(e: Engine<S>, f: File) {
    forall s, k, m :: 0 <= k <= m <= |Statements(f)| ==>
      Exec(e, Statements(f)[..k], Exec(e, Statements(f)[..m], s)) == Exec(e, Statements(f)[..m], s)
  }

  /** Running the file to its end makes up for any part of it that has already run. */
  ghost predicate Resumable<S(!new)>(e: Engine<S>, f: File) {
    forall s, m :: 0 <= m <= |Statements(f)| ==>
      Exec(e, Statements(f), Exec(e, Statements(f)[..m], s)) == Exec(e, Statements(f), s)
  }

  /** The markers of some file from position `i` on can hold, so that the schema there is looked at. */
  ghost predicate Watched<S(!new)>(e: Engine<S>, todo: seq<File>, i: nat) {
    exists j, s :: i <= j < |todo| && Retroactive(e, todo[j].name, s)
  }

  predicate DistinctNames(files: seq<File>) {
    forall i, j :: 0 <= i < j < |files| ==> files[i].name != files[j].name
  }

  /** The files the uninterrupted run would execute. */
  function Todo<S>(e: Engine<S>, files: seq<File>, db: Db<S>): seq<File> {
    Pending(files, Start(e, db).tracked)
  }

  /** The state of the uninterrupted run after `i` files and `m` statements of the next. */
  function Point<S>(e: Engine<S>, files: seq<File>, db: Db<S>, i: nat, m: nat): Db<S> {
    PartialFiles(e, Todo(e, files, db), Start(e, db), i, m)
  }

  /** Every file can be resumed; while markers are still looked at, every part of it can be replayed. */
  ghost predicate Replayable<S(!new)>(e: Engine<S>, files: seq<File>, db: Db<S>) {
    var todo := Todo(e, files, db);
    forall i :: 0 <= i < |todo| ==>
      Resumable(e, todo[i]) && (Watched(e, todo, i) ==> HarmlessReplay(e, todo[i]))
  }

  /**
   * At no point of the uninterrupted run do the markers of a file still to be recorded hold,
   * except once all of that file's statements have just run.
   */
  ghost predicate MarkersWait<S>(e: Engine<S>, files: seq<File>, db: Db<S>) {
    var todo := Todo(e, files, db);
    forall i, m, j ::
      (&& 0 <= i <= j < |todo|
       && 0 <= m <= |Statements(todo[i])|
       && Retroactive(e, todo[j].name, Point(e, files, db, i, m).schema))
      ==> j == i && m == |Statements(todo[i])|
  }

  /** After any interrupted runs, a recorded file that was still to do has had all its statements run. */
  ghost predicate RecordedOnlyWhenRun<S>(e: Engine<S>, files: seq<File>, db: Db<S>) {
    forall crashes: seq<Crash>, f ::
      f in Todo(e, files, db) && f.name in Start(e, History(e, files, db, crashes)).tracked ==>
        f.name in History(e, files, db, crashes).finished
  }
}
