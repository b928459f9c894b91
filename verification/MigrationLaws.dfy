/** What interrupted migration runs leave behind, and when a later full run makes up for them. */
module MigrationLaws {
  import opened Sorting
  import opened SqlSplitter
  import opened SqlSplitterLaws
  import opened Text
  import opened MigrationRunner

  // ---------------------------------------------------------------- bookkeeping

  lemma EnsureTracked<S>(e: Engine<S>, db: Db<S>, name: string)
    ensures name in Start(e, db).tracked <==> name in db.tracked || Retroactive(e, name, db.schema)
  {
    if Retroactive(e, name, db.schema) {
      var k :| 0 <= k < |PRE_RUNNER_MIGRATIONS| && PRE_RUNNER_MIGRATIONS[k] == name;
    }
  }

  /** Looking at the pre-runner files is idempotent, also when a first look was cut short. */
  lemma EnsureAgain<S>(e: Engine<S>, db: Db<S>, n: nat)
    requires n <= |PRE_RUNNER_MIGRATIONS|
    ensures Start(e, Ensure(e, db, n)) == Start(e, db)
  {
  }

  function Names(files: seq<File>): set<string> {
    set f | f in files :: f.name
  }

  lemma {:induction false} RunFilesTracked<S>(e: Engine<S>, pending: seq<File>, db: Db<S>)
    ensures RunFiles(e, pending, db).tracked == db.tracked + Names(pending)
    ensures RunFiles(e, pending, db).finished == db.finished + Names(pending)
  {
    if pending != [] {
      RunFilesTracked(e, pending[1..], RunFile(e, pending[0], db));
      assert Names(pending) == {pending[0].name} + Names(pending[1..]) by {
        assert pending == [pending[0]] + pending[1..];
      }
    }
  }

  lemma {:induction false} RunFilesSchema<S>(e: Engine<S>, pending: seq<File>, a: Db<S>, b: Db<S>)
    requires a.schema == b.schema
    ensures RunFiles(e, pending, a).schema == RunFiles(e, pending, b).schema
  {
    if pending != [] {
      RunFilesSchema(e, pending[1..], RunFile(e, pending[0], a), RunFile(e, pending[0], b));
    }
  }

  lemma {:induction false} PendingDistinct(files: seq<File>, tracked: set<string>)
    requires DistinctNames(files)
    ensures DistinctNames(Pending(files, tracked))
    ensures forall f :: f in Pending(files, tracked) ==> f in files && f.name !in tracked
  {
    var keep := (f: File) => f.name !in tracked;
    FilterMembers(keep, files);
    if files != [] {
      PendingDistinct(files[1..], tracked);
      FilterMembers(keep, files[1..]);
    }
  }

  /** Once the first `i` files to do are recorded, the files left are the remaining ones. */
  lemma {:induction false} PendingLater(todo: seq<File>, tracked: set<string>, i: nat)
    requires DistinctNames(todo) && i <= |todo|
    requires forall k :: 0 <= k < |todo| ==> (todo[k].name in tracked <==> k < i)
    ensures Pending(todo, tracked) == todo[i..]
  {
    var keep := (f: File) => f.name !in tracked;
    if i == |todo| {
      PendingNone(todo, tracked);
    } else if i == 0 {
      FilterAll(keep, todo);
    } else {
      PendingLater(todo[1..], tracked, i - 1);
      assert todo[1..][i - 1..] == todo[i..];
    }
  }

  lemma {:induction false} PendingNone(todo: seq<File>, tracked: set<string>)
    requires forall k :: 0 <= k < |todo| ==> todo[k].name in tracked
    ensures Pending(todo, tracked) == []
  {
    if todo != [] {
      PendingNone(todo[1..], tracked);
    }
  }

  /** Pending files of a larger tracking set can be found among the files pending earlier. */
  lemma PendingShrinks(files: seq<File>, before: set<string>, after: set<string>)
    requires before <= after
    ensures Pending(files, after) == Pending(Pending(files, before), after)
  {
    FilterTwice((f: File) => f.name !in after, (f: File) => f.name !in before, files);
  }

  // ---------------------------------------------------------------- where a history can stand

  /**
   * `db`, seen as the next run starts, has done the first `i` files of the uninterrupted run and,
   * untracked, `m` statements of file `i`.
   */
  ghost predicate StandsAt<S>(e: Engine<S>, files: seq<File>, db0: Db<S>, db: Db<S>, i: nat, m: nat) {
    var todo := Todo(e, files, db0);
    && i <= |todo|
    && (i < |todo| ==> m <= |Statements(todo[i])|)
    && (i == |todo| ==> m == 0)
    && Start(e, db).schema == Point(e, files, db0, i, m).schema
    && Start(e, db).tracked == Point(e, files, db0, i, m).tracked
    && Names(todo[..i]) <= db.finished
    && (i < |todo| && 0 < m == |Statements(todo[i])| ==> todo[i].name in db.finished)
  }

  lemma PointAt<S>(e: Engine<S>, files: seq<File>, db: Db<S>, i: nat, m: nat)
    requires i < |Todo(e, files, db)| && m <= |Statements(Todo(e, files, db)[i])|
    ensures Point(e, files, db, i, m).schema ==
            Exec(e, Statements(Todo(e, files, db)[i])[..m], RunFiles(e, Todo(e, files, db)[..i], Start(e, db)).schema)
    ensures Point(e, files, db, i, m).tracked == Start(e, db).tracked + Names(Todo(e, files, db)[..i])
  {
    RunFilesTracked(e, Todo(e, files, db)[..i], Start(e, db));
  }

  /** The files left to do for a history that stands at file `i`. */
  lemma LeftToDo<S>(e: Engine<S>, files: seq<File>, db0: Db<S>, tracked: set<string>, i: nat)
    requires DistinctNames(files) && i <= |Todo(e, files, db0)|
    requires tracked == Start(e, db0).tracked + Names(Todo(e, files, db0)[..i])
    ensures Pending(files, tracked) == Todo(e, files, db0)[i..]
  {
    var todo := Todo(e, files, db0);
    var first := Start(e, db0).tracked;
    PendingDistinct(files, first);
    PendingShrinks(files, first, tracked);
    forall k | 0 <= k < |todo|
      ensures todo[k].name in tracked <==> k < i
    {
      assert todo[k] in todo;
      if k < i {
        assert todo[..i][k] == todo[k];
      }
    }
    PendingLater(todo, tracked, i);
  }

  lemma TrackedAt<S>(e: Engine<S>, files: seq<File>, db0: Db<S>, db: Db<S>, i: nat, m: nat)
    requires StandsAt(e, files, db0, db, i, m)
    ensures Start(e, db).tracked == Start(e, db0).tracked + Names(Todo(e, files, db0)[..i])
  {
    var todo := Todo(e, files, db0);
    if i < |todo| {
      PointAt(e, files, db0, i, m);
    } else {
      assert todo[..i] == todo;
      RunFilesTracked(e, todo, Start(e, db0));
    }
  }

  /** Harmless replay is more than is needed to resume. */
  lemma HarmlessIsResumable<S(!new)>(e: Engine<S>, f: File)
    requires HarmlessReplay(e, f)
    ensures Resumable(e, f)
  {
    var all := Statements(f);
    forall s, m | 0 <= m <= |all|
      ensures Exec(e, all, Exec(e, all[..m], s)) == Exec(e, all, s)
    {
      assert all == all[..m] + all[m..];
      var once := Exec(e, all[..m], s);
      ExecConcat(e, all[..m], all[m..], once);
      ExecConcat(e, all[..m], all[m..], s);
      assert Exec(e, all[..m], once) == once;
    }
  }

  /** Replaying `k` statements where `m` had run leaves the farther of the two points. */
  lemma ReplayFile<S(!new)>(e: Engine<S>, f: File, s: S, m: nat, k: nat)
    requires HarmlessReplay(e, f) && m <= |Statements(f)| && k <= |Statements(f)|
    ensures Exec(e, Statements(f)[..k], Exec(e, Statements(f)[..m], s)) ==
            Exec(e, Statements(f)[..if k <= m then m else k], s)
  {
    var all := Statements(f);
    if k > m {
      assert all[..k] == all[..m] + all[m..k];
      var once := Exec(e, all[..m], s);
      ExecConcat(e, all[..m], all[m..k], once);
      ExecConcat(e, all[..m], all[m..k], s);
      assert Exec(e, all[..m], once) == once;
    }
  }

  /** The schema after the first `i` files of the uninterrupted run. */
  function SchemaAt<S>(e: Engine<S>, files: seq<File>, db0: Db<S>, i: nat): S
    requires i <= |Todo(e, files, db0)|
  {
    RunFiles(e, Todo(e, files, db0)[..i], Start(e, db0)).schema
  }

  /** `db` has recorded the first `i` files, and running file `i` on it gives what the uninterrupted run gives. */
  ghost predicate ReadyFor<S>(e: Engine<S>, files: seq<File>, db0: Db<S>, db: Db<S>, i: nat) {
    var todo := Todo(e, files, db0);
    && i <= |todo|
    && Start(e, db).tracked == Start(e, db0).tracked + Names(todo[..i])
    && Names(todo[..i]) <= db.finished
    && (if i < |todo| then Exec(e, Statements(todo[i]), db.schema) == Exec(e, Statements(todo[i]), SchemaAt(e, files, db0, i))
        else db.schema == SchemaAt(e, files, db0, i))
  }

  lemma StandsIsReady<S(!new)>(e: Engine<S>, files: seq<File>, db0: Db<S>, db: Db<S>, i: nat, m: nat)
    requires StandsAt(e, files, db0, db, i, m) && Replayable(e, files, db0)
    ensures ReadyFor(e, files, db0, db, i)
  {
    var todo := Todo(e, files, db0);
    TrackedAt(e, files, db0, db, i, m);
    if i < |todo| {
      PointAt(e, files, db0, i, m);
      assert Resumable(e, todo[i]);
    } else {
      assert todo[..i] == todo;
    }
  }

  /** The schema after running `n` files from there. */
  lemma ResumeFiles<S>(e: Engine<S>, files: seq<File>, db0: Db<S>, db: Db<S>, i: nat, n: nat)
    requires ReadyFor(e, files, db0, db, i)
    requires 0 < n <= |Todo(e, files, db0)| - i
    ensures RunFiles(e, Todo(e, files, db0)[i..i + n], Start(e, db)).schema == SchemaAt(e, files, db0, i + n)
  {
    var todo := Todo(e, files, db0);
    var before := RunFiles(e, todo[..i], Start(e, db0));
    assert todo[..i + n] == todo[..i] + todo[i..i + n];
    RunFilesConcat(e, todo[..i], todo[i..i + n], Start(e, db0));
    RunFilesSchema(e, todo[i..i + n][1..], RunFile(e, todo[i], Start(e, db)), RunFile(e, todo[i], before));
  }

  /** Each pre-runner file is among the files of the migrations directory or already recorded. */
  predicate FoundationsKnown<S>(e: Engine<S>, files: seq<File>, db0: Db<S>) {
    forall name :: name in PRE_RUNNER_MIGRATIONS ==> name in Names(files) || name in Start(e, db0).tracked
  }

  lemma TodoNames<S>(e: Engine<S>, files: seq<File>, db0: Db<S>, name: string)
    requires FoundationsKnown(e, files, db0) && name in PRE_RUNNER_MIGRATIONS
    requires name !in Start(e, db0).tracked
    ensures exists j :: 0 <= j < |Todo(e, files, db0)| && Todo(e, files, db0)[j].name == name
  {
    var f :| f in files && f.name == name;
    FilterMembers((f: File) => f.name !in Start(e, db0).tracked, files);
    assert f in Todo(e, files, db0);
  }

  lemma NamesSnoc(todo: seq<File>, i: nat)
    requires i < |todo|
    ensures Names(todo[..i + 1]) == Names(todo[..i]) + {todo[i].name}
  {
    assert todo[..i + 1] == todo[..i] + [todo[i]];
  }

  /** The next run starts with the recorded files, and with file `i` if it has run to its end and its markers hold. */
  lemma SettleTracked<S>(e: Engine<S>, files: seq<File>, db0: Db<S>, db: Db<S>, i: nat, m: nat)
    requires FoundationsKnown(e, files, db0) && MarkersWait(e, files, db0)
    requires i < |Todo(e, files, db0)| && m <= |Statements(Todo(e, files, db0)[i])|
    requires db.schema == Point(e, files, db0, i, m).schema
    requires db.tracked == Start(e, db0).tracked + Names(Todo(e, files, db0)[..i])
    ensures var todo := Todo(e, files, db0);
            || Start(e, db).tracked == db.tracked
            || (m == |Statements(todo[i])| && Start(e, db).tracked == db.tracked + {todo[i].name})
  {
    var todo := Todo(e, files, db0);
    forall name | name in Start(e, db).tracked
      ensures name in db.tracked || (name == todo[i].name && m == |Statements(todo[i])|)
    {
      OnlyFinishedMarked(e, files, db0, db, i, m, name);
    }
  }

  lemma SettlesHere<S>(e: Engine<S>, files: seq<File>, db0: Db<S>, db: Db<S>, i: nat, m: nat)
    requires i < |Todo(e, files, db0)| && m <= |Statements(Todo(e, files, db0)[i])|
    requires db.schema == Point(e, files, db0, i, m).schema
    requires db.tracked == Start(e, db0).tracked + Names(Todo(e, files, db0)[..i])
    requires Names(Todo(e, files, db0)[..i]) <= db.finished
    requires m == |Statements(Todo(e, files, db0)[i])| ==> Todo(e, files, db0)[i].name in db.finished
    requires Start(e, db).tracked == db.tracked
    ensures StandsAt(e, files, db0, db, i, m)
  {
    PointAt(e, files, db0, i, m);
  }

  lemma SettlesNext<S>(e: Engine<S>, files: seq<File>, db0: Db<S>, db: Db<S>, i: nat, m: nat)
    requires i < |Todo(e, files, db0)| && m <= |Statements(Todo(e, files, db0)[i])|
    requires db.schema == Point(e, files, db0, i, m).schema
    requires db.tracked == Start(e, db0).tracked + Names(Todo(e, files, db0)[..i])
    requires Names(Todo(e, files, db0)[..i]) <= db.finished && m == |Statements(Todo(e, files, db0)[i])|
    requires Todo(e, files, db0)[i].name in db.finished
    requires Start(e, db).tracked == db.tracked + {Todo(e, files, db0)[i].name}
    ensures StandsAt(e, files, db0, db, i + 1, 0)
  {
    var todo := Todo(e, files, db0);
    PointAt(e, files, db0, i, m);
    NamesSnoc(todo, i);
    assert Statements(todo[i])[..m] == Statements(todo[i]);
    NextPoint(e, files, db0, i);
  }

  /** A crash that leaves the schema at point (i, m) stands there, or one file on if its markers hold. */
  lemma Settle<S>(e: Engine<S>, files: seq<File>, db0: Db<S>, db: Db<S>, i: nat, m: nat) returns (i': nat, m': nat)
    requires FoundationsKnown(e, files, db0) && MarkersWait(e, files, db0)
    requires i < |Todo(e, files, db0)| && m <= |Statements(Todo(e, files, db0)[i])|
    requires db.schema == Point(e, files, db0, i, m).schema
    requires db.tracked == Start(e, db0).tracked + Names(Todo(e, files, db0)[..i])
    requires Names(Todo(e, files, db0)[..i]) <= db.finished
    requires m == |Statements(Todo(e, files, db0)[i])| ==> Todo(e, files, db0)[i].name in db.finished
    ensures StandsAt(e, files, db0, db, i', m')
  {
    SettleTracked(e, files, db0, db, i, m);
    if Start(e, db).tracked == db.tracked {
      SettlesHere(e, files, db0, db, i, m);
      i', m' := i, m;
    } else {
      SettlesNext(e, files, db0, db, i, m);
      i', m' := i + 1, 0;
    }
  }

  /** What the next run records besides is the file that has just run to its end. */
  lemma OnlyFinishedMarked<S>(e: Engine<S>, files: seq<File>, db0: Db<S>, db: Db<S>, i: nat, m: nat, name: string)
    requires FoundationsKnown(e, files, db0) && MarkersWait(e, files, db0)
    requires i < |Todo(e, files, db0)| && m <= |Statements(Todo(e, files, db0)[i])|
    requires db.schema == Point(e, files, db0, i, m).schema
    requires db.tracked == Start(e, db0).tracked + Names(Todo(e, files, db0)[..i])
    requires name in Start(e, db).tracked
    ensures || name in db.tracked
            || (name == Todo(e, files, db0)[i].name && m == |Statements(Todo(e, files, db0)[i])|)
  {
    var todo := Todo(e, files, db0);
    EnsureTracked(e, db, name);
    if name !in db.tracked {
      TodoNames(e, files, db0, name);
      var j :| 0 <= j < |todo| && todo[j].name == name;
      NameIsLate(todo, i, j);
    }
  }

  /** The end of file `i` is the beginning of file `i + 1`, but for the tracking row. */
  lemma NextPoint<S>(e: Engine<S>, files: seq<File>, db0: Db<S>, i: nat)
    requires i < |Todo(e, files, db0)|
    ensures var todo := Todo(e, files, db0);
            && Point(e, files, db0, i + 1, 0).schema ==
               Exec(e, Statements(todo[i]), RunFiles(e, todo[..i], Start(e, db0)).schema)
            && Point(e, files, db0, i + 1, 0).tracked == Start(e, db0).tracked + Names(todo[..i + 1])
  {
    var todo := Todo(e, files, db0);
    RunFilesLast(e, todo[..i], todo[i], Start(e, db0));
    assert todo[..i] + [todo[i]] == todo[..i + 1];
    if i + 1 < |todo| {
      PointAt(e, files, db0, i + 1, 0);
      assert Statements(todo[i + 1])[..0] == [];
    } else {
      assert todo[..i + 1] == todo;
      RunFilesTracked(e, todo, Start(e, db0));
    }
  }

  lemma StandsAtEnd<S>(e: Engine<S>, files: seq<File>, db0: Db<S>, db: Db<S>)
    requires FoundationsKnown(e, files, db0)
    requires db.schema == RunFiles(e, Todo(e, files, db0), Start(e, db0)).schema
    requires db.tracked == Start(e, db0).tracked + Names(Todo(e, files, db0))
    requires Names(Todo(e, files, db0)) <= db.finished
    ensures StandsAt(e, files, db0, db, |Todo(e, files, db0)|, 0)
  {
    var todo := Todo(e, files, db0);
    assert todo[..|todo|] == todo;
    RunFilesTracked(e, todo, Start(e, db0));
    forall name | name in Start(e, db).tracked
      ensures name in db.tracked
    {
      EnsureTracked(e, db, name);
      if name !in db.tracked {
        TodoNames(e, files, db0, name);
      }
    }
  }

  lemma NamesSplit(todo: seq<File>, i: nat)
    requires i <= |todo|
    ensures Names(todo) == Names(todo[..i]) + Names(todo[i..])
  {
    assert todo == todo[..i] + todo[i..];
  }

  lemma NamesSlice(todo: seq<File>, i: nat, j: nat)
    requires i <= j <= |todo|
    ensures Names(todo[..j]) == Names(todo[..i]) + Names(todo[i..j])
  {
    assert todo[..j] == todo[..i] + todo[i..j];
  }

  /** A run cut short inside its first file leaves the farther of the two points reached in it. */
  lemma CrashInFirstFile<S(!new)>(e: Engine<S>, files: seq<File>, db0: Db<S>, db: Db<S>, n: nat, i: nat, m: nat)
    returns (i': nat, m': nat)
    requires FoundationsKnown(e, files, db0) && MarkersWait(e, files, db0)
    requires StandsAt(e, files, db0, db, i, m) && i < |Todo(e, files, db0)|
    requires HarmlessReplay(e, Todo(e, files, db0)[i])
    ensures StandsAt(e, files, db0, PartialFiles(e, Todo(e, files, db0)[i..], Start(e, db), 0, n), i', m')
  {
    var todo := Todo(e, files, db0);
    var f := todo[i];
    var k := Min(n, |Statements(f)|);
    assert todo[i..][..0] == [];
    TrackedAt(e, files, db0, db, i, m);
    PointAt(e, files, db0, i, m);
    ReplayFile(e, f, RunFiles(e, todo[..i], Start(e, db0)).schema, m, k);
    var reached := if k <= m then m else k;
    PointAt(e, files, db0, i, reached);
    i', m' := Settle(e, files, db0, PartialFiles(e, todo[i..], Start(e, db), 0, n), i, reached);
  }

  /** A run cut short in a later file has reached the same point of the uninterrupted run. */
  lemma PartialLater<S>(e: Engine<S>, files: seq<File>, db0: Db<S>, db: Db<S>, a: nat, n: nat, i: nat)
    requires ReadyFor(e, files, db0, db, i) && 0 < a && i + a < |Todo(e, files, db0)|
    ensures PartialFiles(e, Todo(e, files, db0)[i..], Start(e, db), a, n).schema ==
            Point(e, files, db0, i + a, Min(n, |Statements(Todo(e, files, db0)[i + a])|)).schema
  {
    var todo := Todo(e, files, db0);
    assert todo[i..][..a] == todo[i..i + a];
    ResumeFiles(e, files, db0, db, i, a);
    PointAt(e, files, db0, i + a, Min(n, |Statements(todo[i + a])|));
  }

  lemma PartialTracked<S>(e: Engine<S>, files: seq<File>, db0: Db<S>, db: Db<S>, a: nat, n: nat, i: nat)
    requires ReadyFor(e, files, db0, db, i) && i + a < |Todo(e, files, db0)|
    ensures var todo := Todo(e, files, db0);
            var cut := PartialFiles(e, todo[i..], Start(e, db), a, n);
            && cut.tracked == Start(e, db0).tracked + Names(todo[..i + a])
            && Names(todo[..i + a]) <= cut.finished
            && (n >= |Statements(todo[i + a])| ==> todo[i + a].name in cut.finished)
  {
    var todo := Todo(e, files, db0);
    assert todo[i..][..a] == todo[i..i + a];
    RunFilesTracked(e, todo[i..i + a], Start(e, db));
    NamesSlice(todo, i, i + a);
  }

  lemma CrashInLaterFile<S>(e: Engine<S>, files: seq<File>, db0: Db<S>, db: Db<S>, a: nat, n: nat, i: nat)
    returns (i': nat, m': nat)
    requires FoundationsKnown(e, files, db0) && MarkersWait(e, files, db0)
    requires ReadyFor(e, files, db0, db, i) && 0 < a && i + a < |Todo(e, files, db0)|
    ensures StandsAt(e, files, db0, PartialFiles(e, Todo(e, files, db0)[i..], Start(e, db), a, n), i', m')
  {
    var todo := Todo(e, files, db0);
    PartialLater(e, files, db0, db, a, n, i);
    PartialTracked(e, files, db0, db, a, n, i);
    var k := Min(n, |Statements(todo[i + a])|);
    i', m' := Settle(e, files, db0, PartialFiles(e, todo[i..], Start(e, db), a, n), i + a, k);
  }

  lemma WholeSlices(todo: seq<File>, i: nat, n: nat)
    requires i + n == |todo|
    ensures todo[i..i + n] == todo[i..] && todo[..i + n] == todo
  {
  }

  lemma ResumeAll<S>(e: Engine<S>, files: seq<File>, db0: Db<S>, db: Db<S>, i: nat, n: nat)
    requires ReadyFor(e, files, db0, db, i) && 0 < n && i + n == |Todo(e, files, db0)|
    ensures RunFiles(e, Todo(e, files, db0)[i..], Start(e, db)).schema == RunFiles(e, Todo(e, files, db0), Start(e, db0)).schema
  {
    ResumeFiles(e, files, db0, db, i, n);
    WholeSlices(Todo(e, files, db0), i, n);
  }

  lemma NothingLeft<S>(e: Engine<S>, files: seq<File>, db0: Db<S>, db: Db<S>, i: nat)
    requires ReadyFor(e, files, db0, db, i) && i == |Todo(e, files, db0)|
    ensures RunFiles(e, Todo(e, files, db0)[i..], Start(e, db)).schema == RunFiles(e, Todo(e, files, db0), Start(e, db0)).schema
  {
    var todo := Todo(e, files, db0);
    assert todo[i..] == [] && todo[..i] == todo;
  }

  lemma RunToEndSchema<S>(e: Engine<S>, files: seq<File>, db0: Db<S>, db: Db<S>, i: nat)
    requires ReadyFor(e, files, db0, db, i)
    ensures RunFiles(e, Todo(e, files, db0)[i..], Start(e, db)).schema == RunFiles(e, Todo(e, files, db0), Start(e, db0)).schema
  {
    if i < |Todo(e, files, db0)| {
      ResumeAll(e, files, db0, db, i, |Todo(e, files, db0)| - i);
    } else {
      NothingLeft(e, files, db0, db, i);
    }
  }

  lemma RunToEndTracked<S>(e: Engine<S>, files: seq<File>, db0: Db<S>, db: Db<S>, i: nat)
    requires ReadyFor(e, files, db0, db, i)
    ensures RunFiles(e, Todo(e, files, db0)[i..], Start(e, db)).tracked == Start(e, db0).tracked + Names(Todo(e, files, db0))
    ensures RunFiles(e, Todo(e, files, db0), Start(e, db0)).tracked == Start(e, db0).tracked + Names(Todo(e, files, db0))
    ensures Names(Todo(e, files, db0)) <= RunFiles(e, Todo(e, files, db0)[i..], Start(e, db)).finished
  {
    var todo := Todo(e, files, db0);
    RunFilesTracked(e, todo[i..], Start(e, db));
    RunFilesTracked(e, todo, Start(e, db0));
    NamesSplit(todo, i);
  }

  lemma RunToEnd<S>(e: Engine<S>, files: seq<File>, db0: Db<S>, db: Db<S>, i: nat)
    requires FoundationsKnown(e, files, db0)
    requires ReadyFor(e, files, db0, db, i)
    ensures RunFiles(e, Todo(e, files, db0)[i..], Start(e, db)).schema == RunFiles(e, Todo(e, files, db0), Start(e, db0)).schema
    ensures RunFiles(e, Todo(e, files, db0)[i..], Start(e, db)).tracked == RunFiles(e, Todo(e, files, db0), Start(e, db0)).tracked
    ensures StandsAt(e, files, db0, RunFiles(e, Todo(e, files, db0)[i..], Start(e, db)), |Todo(e, files, db0)|, 0)
  {
    RunToEndSchema(e, files, db0, db, i);
    RunToEndTracked(e, files, db0, db, i);
    StandsAtEnd(e, files, db0, RunFiles(e, Todo(e, files, db0)[i..], Start(e, db)));
  }

  // ---------------------------------------------------------------- where markers are no longer looked at

  /** The next run starts with exactly the recorded files, unless markers can still hold. */
  lemma UnwatchedStart<S(!new)>(e: Engine<S>, files: seq<File>, db0: Db<S>, db: Db<S>, i: nat)
    requires FoundationsKnown(e, files, db0) && i <= |Todo(e, files, db0)|
    requires db.tracked == Start(e, db0).tracked + Names(Todo(e, files, db0)[..i])
    ensures Start(e, db).tracked == db.tracked || Watched(e, Todo(e, files, db0), i)
  {
    if name :| name in Start(e, db).tracked && name !in db.tracked {
      EnsureTracked(e, db, name);
      TodoNames(e, files, db0, name);
      var todo := Todo(e, files, db0);
      var j :| 0 <= j < |todo| && todo[j].name == name;
      NameIsLate(todo, i, j);
      assert Retroactive(e, todo[j].name, db.schema);
    }
  }

  lemma NameIsLate(todo: seq<File>, i: nat, j: nat)
    requires i <= |todo| && j < |todo| && todo[j].name !in Names(todo[..i])
    ensures i <= j
  {
  }

  /** There a run cut short anywhere leaves the next file ready to be resumed. */
  lemma CrashUnwatched<S(!new)>(e: Engine<S>, files: seq<File>, db0: Db<S>, db: Db<S>, a: nat, n: nat, i: nat)
    requires FoundationsKnown(e, files, db0) && Replayable(e, files, db0)
    requires ReadyFor(e, files, db0, db, i) && i + a < |Todo(e, files, db0)| && !Watched(e, Todo(e, files, db0), i)
    ensures !Watched(e, Todo(e, files, db0), i + a)
    ensures ReadyFor(e, files, db0, PartialFiles(e, Todo(e, files, db0)[i..], Start(e, db), a, n), i + a)
  {
    var todo := Todo(e, files, db0);
    var cut := PartialFiles(e, todo[i..], Start(e, db), a, n);
    PartialTracked(e, files, db0, db, a, n, i);
    UnwatchedStart(e, files, db0, cut, i + a);
    CutIsResumable(e, files, db0, db, a, n, i);
  }

  lemma CutIsResumable<S(!new)>(e: Engine<S>, files: seq<File>, db0: Db<S>, db: Db<S>, a: nat, n: nat, i: nat)
    requires ReadyFor(e, files, db0, db, i) && i + a < |Todo(e, files, db0)|
    requires Resumable(e, Todo(e, files, db0)[i + a])
    ensures var all := Statements(Todo(e, files, db0)[i + a]);
            Exec(e, all, PartialFiles(e, Todo(e, files, db0)[i..], Start(e, db), a, n).schema) ==
            Exec(e, all, SchemaAt(e, files, db0, i + a))
  {
    var todo := Todo(e, files, db0);
    var k := Min(n, |Statements(todo[i + a])|);
    if a == 0 {
      assert todo[i..][..0] == [];
      assert Exec(e, Statements(todo[i]), Exec(e, Statements(todo[i])[..k], db.schema)) == Exec(e, Statements(todo[i]), db.schema);
    } else {
      PartialLater(e, files, db0, db, a, n, i);
      PointAt(e, files, db0, i + a, k);
    }
  }

  // ---------------------------------------------------------------- histories

  /** Where a history stands: on the line of the uninterrupted run while markers are looked at, resumable afterwards. */
  ghost predicate Keeps<S(!new)>(e: Engine<S>, files: seq<File>, db0: Db<S>, db: Db<S>, i: nat, m: nat) {
    && ReadyFor(e, files, db0, db, i)
    && (Watched(e, Todo(e, files, db0), i) ==> StandsAt(e, files, db0, db, i, m))
  }

  /** A history stands somewhere. */
  ghost predicate KeepsOn<S(!new)>(e: Engine<S>, files: seq<File>, db0: Db<S>, db: Db<S>) {
    exists i, m :: Keeps(e, files, db0, db, i, m)
  }

  lemma EnsureKeeps<S(!new)>(e: Engine<S>, files: seq<File>, db0: Db<S>, db: Db<S>, n: nat, i: nat, m: nat)
    requires Keeps(e, files, db0, db, i, m) && n <= |PRE_RUNNER_MIGRATIONS|
    ensures KeepsOn(e, files, db0, Ensure(e, db, n))
  {
    EnsureAgain(e, db, n);
    assert Keeps(e, files, db0, Ensure(e, db, n), i, m);
  }

  lemma StandsKeeps<S(!new)>(e: Engine<S>, files: seq<File>, db0: Db<S>, db: Db<S>, i: nat, m: nat)
    requires StandsAt(e, files, db0, db, i, m) && Replayable(e, files, db0)
    ensures KeepsOn(e, files, db0, db)
  {
    StandsIsReady(e, files, db0, db, i, m);
    assert Keeps(e, files, db0, db, i, m);
  }

  lemma EndKeeps<S(!new)>(e: Engine<S>, files: seq<File>, db0: Db<S>, db: Db<S>, a: nat, n: nat, i: nat)
    requires FoundationsKnown(e, files, db0) && Replayable(e, files, db0) && ReadyFor(e, files, db0, db, i)
    requires i + a >= |Todo(e, files, db0)|
    ensures KeepsOn(e, files, db0, PartialFiles(e, Todo(e, files, db0)[i..], Start(e, db), a, n))
  {
    RunToEnd(e, files, db0, db, i);
    StandsKeeps(e, files, db0, RunFiles(e, Todo(e, files, db0)[i..], Start(e, db)), |Todo(e, files, db0)|, 0);
  }

  lemma UnwatchedKeeps<S(!new)>(e: Engine<S>, files: seq<File>, db0: Db<S>, db: Db<S>, a: nat, n: nat, i: nat)
    requires FoundationsKnown(e, files, db0) && Replayable(e, files, db0)
    requires ReadyFor(e, files, db0, db, i) && i + a < |Todo(e, files, db0)| && !Watched(e, Todo(e, files, db0), i)
    ensures KeepsOn(e, files, db0, PartialFiles(e, Todo(e, files, db0)[i..], Start(e, db), a, n))
  {
    CrashUnwatched(e, files, db0, db, a, n, i);
    assert Keeps(e, files, db0, PartialFiles(e, Todo(e, files, db0)[i..], Start(e, db), a, n), i + a, 0);
  }

  lemma WatchedKeeps<S(!new)>(e: Engine<S>, files: seq<File>, db0: Db<S>, db: Db<S>, a: nat, n: nat, i: nat, m: nat)
    requires FoundationsKnown(e, files, db0) && Replayable(e, files, db0) && MarkersWait(e, files, db0)
    requires Keeps(e, files, db0, db, i, m) && i + a < |Todo(e, files, db0)| && Watched(e, Todo(e, files, db0), i)
    ensures KeepsOn(e, files, db0, PartialFiles(e, Todo(e, files, db0)[i..], Start(e, db), a, n))
  {
    var i', m';
    if a == 0 {
      assert HarmlessReplay(e, Todo(e, files, db0)[i]);
      i', m' := CrashInFirstFile(e, files, db0, db, n, i, m);
    } else {
      i', m' := CrashInLaterFile(e, files, db0, db, a, n, i);
    }
    StandsKeeps(e, files, db0, PartialFiles(e, Todo(e, files, db0)[i..], Start(e, db), a, n), i', m');
  }

  lemma CutKeeps<S(!new)>(e: Engine<S>, files: seq<File>, db0: Db<S>, db: Db<S>, a: nat, n: nat, i: nat, m: nat)
    requires FoundationsKnown(e, files, db0) && Replayable(e, files, db0) && MarkersWait(e, files, db0)
    requires Keeps(e, files, db0, db, i, m)
    ensures KeepsOn(e, files, db0, PartialFiles(e, Todo(e, files, db0)[i..], Start(e, db), a, n))
  {
    if i + a >= |Todo(e, files, db0)| {
      EndKeeps(e, files, db0, db, a, n, i);
    } else if !Watched(e, Todo(e, files, db0), i) {
      UnwatchedKeeps(e, files, db0, db, a, n, i);
    } else {
      WatchedKeeps(e, files, db0, db, a, n, i, m);
    }
  }

  /** One more interrupted run keeps a history there. */
  lemma CrashKeeps<S(!new)>(e: Engine<S>, files: seq<File>, db0: Db<S>, db: Db<S>, c: Crash)
    requires DistinctNames(files) && FoundationsKnown(e, files, db0)
    requires Replayable(e, files, db0) && MarkersWait(e, files, db0)
    requires KeepsOn(e, files, db0, db)
    ensures KeepsOn(e, files, db0, CrashedRun(e, files, db, c))
  {
    var i, m :| Keeps(e, files, db0, db, i, m);
    match c
    case InEnsure(n) => EnsureKeeps(e, files, db0, db, Min(n, |PRE_RUNNER_MIGRATIONS|), i, m);
    case InFile(a, n) =>
      LeftToDo(e, files, db0, Start(e, db).tracked, i);
      CutKeeps(e, files, db0, db, a, n, i, m);
  }

  lemma {:induction false} HistoryKeeps<S(!new)>(e: Engine<S>, files: seq<File>, db0: Db<S>, crashes: seq<Crash>)
    requires DistinctNames(files) && FoundationsKnown(e, files, db0)
    requires Replayable(e, files, db0) && MarkersWait(e, files, db0)
    ensures KeepsOn(e, files, db0, History(e, files, db0, crashes))
    decreases |crashes|
  {
    if crashes == [] {
      StandsAtStart(e, files, db0);
      StandsKeeps(e, files, db0, db0, 0, 0);
    } else {
      HistoryKeeps(e, files, db0, crashes[..|crashes| - 1]);
      CrashKeeps(e, files, db0, History(e, files, db0, crashes[..|crashes| - 1]), crashes[|crashes| - 1]);
    }
  }

  lemma StandsAtStart<S>(e: Engine<S>, files: seq<File>, db0: Db<S>)
    ensures StandsAt(e, files, db0, db0, 0, 0)
  {
    var todo := Todo(e, files, db0);
    assert todo[..0] == [];
    if todo != [] {
      assert Statements(todo[0])[..0] == [];
      PointAt(e, files, db0, 0, 0);
    }
  }

  // ---------------------------------------------------------------- main results

  /**
   * After any sequence of interrupted runs, one full run gives the schema and the tracking rows of
   * a single uninterrupted run.
   */
  lemma Converges<S(!new)>(e: Engine<S>, files: seq<File>, db0: Db<S>, crashes: seq<Crash>)
    requires DistinctNames(files) && FoundationsKnown(e, files, db0)
    requires Replayable(e, files, db0) && MarkersWait(e, files, db0)
    ensures FullRun(e, files, History(e, files, db0, crashes)).schema == FullRun(e, files, db0).schema
    ensures FullRun(e, files, History(e, files, db0, crashes)).tracked == FullRun(e, files, db0).tracked
  {
    var db := History(e, files, db0, crashes);
    HistoryKeeps(e, files, db0, crashes);
    var i, m :| Keeps(e, files, db0, db, i, m);
    LeftToDo(e, files, db0, Start(e, db).tracked, i);
    RunToEnd(e, files, db0, db, i);
  }

  /** In particular when every file can be replayed part by part. */
  lemma ConvergesHarmless<S(!new)>(e: Engine<S>, files: seq<File>, db0: Db<S>, crashes: seq<Crash>)
    requires DistinctNames(files) && FoundationsKnown(e, files, db0) && MarkersWait(e, files, db0)
    requires forall f :: f in Todo(e, files, db0) ==> HarmlessReplay(e, f)
    ensures FullRun(e, files, History(e, files, db0, crashes)).schema == FullRun(e, files, db0).schema
    ensures FullRun(e, files, History(e, files, db0, crashes)).tracked == FullRun(e, files, db0).tracked
  {
    var todo := Todo(e, files, db0);
    forall i | 0 <= i < |todo|
      ensures Resumable(e, todo[i]) && HarmlessReplay(e, todo[i])
    {
      assert todo[i] in todo;
      HarmlessIsResumable(e, todo[i]);
    }
    Converges(e, files, db0, crashes);
  }

  /** A point of the uninterrupted run is reached by a single crash. */
  lemma PointReached<S>(e: Engine<S>, files: seq<File>, db0: Db<S>, i: nat, m: nat)
    ensures History(e, files, db0, [InFile(i, m)]) == Point(e, files, db0, i, m)
  {
    assert [InFile(i, m)][..0] == [];
  }

  /**
   * Files are recorded only once all their statements have run exactly when no markers show up
   * early in the uninterrupted run.
   */
  lemma RecordedOnlyWhenRunExactly<S(!new)>(e: Engine<S>, files: seq<File>, db0: Db<S>)
    requires DistinctNames(files) && FoundationsKnown(e, files, db0)
    requires Replayable(e, files, db0) && db0.finished == {}
    ensures RecordedOnlyWhenRun(e, files, db0) <==> MarkersWait(e, files, db0)
  {
    var todo := Todo(e, files, db0);
    PendingDistinct(files, Start(e, db0).tracked);
    if MarkersWait(e, files, db0) {
      forall crashes: seq<Crash>, f | f in todo && f.name in Start(e, History(e, files, db0, crashes)).tracked
        ensures f.name in History(e, files, db0, crashes).finished
      {
        HistoryKeeps(e, files, db0, crashes);
        var i, m :| Keeps(e, files, db0, History(e, files, db0, crashes), i, m);
      }
    }
    if RecordedOnlyWhenRun(e, files, db0) {
      forall i, m, j | 0 <= i <= j < |todo| && 0 <= m <= |Statements(todo[i])| &&
                       Retroactive(e, todo[j].name, Point(e, files, db0, i, m).schema)
        ensures j == i && m == |Statements(todo[i])|
      {
        PointReached(e, files, db0, i, m);
        var db := History(e, files, db0, [InFile(i, m)]);
        EnsureTracked(e, db, todo[j].name);
        assert todo[j] in todo && todo[j].name in db.finished;
        RunFilesTracked(e, todo[..i], Start(e, db0));
      }
    }
  }

  /** With the pre-runner files recorded, every interrupted history ends as an uninterrupted run does. */
  ghost predicate AlwaysConverges<S(!new)>(e: Engine<S>, files: seq<File>) {
    forall db0: Db<S>, crashes: seq<Crash> ::
      PreRunnerNames() <= db0.tracked ==>
        FullRun(e, files, History(e, files, db0, crashes)).schema == FullRun(e, files, db0).schema
  }

  function PreRunnerNames(): set<string> {
    set name | name in PRE_RUNNER_MIGRATIONS
  }

  /** The pre-runner files being recorded, no marker is looked at any more. */
  lemma RecordedFoundations<S(!new)>(e: Engine<S>, files: seq<File>, db0: Db<S>)
    requires PreRunnerNames() <= db0.tracked
    ensures Start(e, db0).tracked == db0.tracked
    ensures FoundationsKnown(e, files, db0) && MarkersWait(e, files, db0)
    ensures forall i :: !Watched(e, Todo(e, files, db0), i)
    ensures forall f :: f in Todo(e, files, db0) ==> f in files && f.name !in PreRunnerNames()
  {
    FilterMembers((f: File) => f.name !in Start(e, db0).tracked, files);
    forall k, s | 0 <= k < |Todo(e, files, db0)|
      ensures !Retroactive(e, Todo(e, files, db0)[k].name, s)
    {
      assert Todo(e, files, db0)[k] in Todo(e, files, db0);
    }
  }

  /** A database in which only `f` is left to do. */
  function AllBut<S>(files: seq<File>, f: File, s: S): Db<S> {
    Db(s, PreRunnerNames() + Names(files) - {f.name}, {})
  }

  lemma {:induction false} OnlyPending(files: seq<File>, f: File, tracked: set<string>)
    requires DistinctNames(files) && f in files && f.name !in tracked
    requires forall g :: g in files && g != f ==> g.name in tracked
    ensures Pending(files, tracked) == [f]
  {
    if files[0] == f {
      assert DistinctNames(files[1..]);
      forall k | 0 <= k < |files| - 1
        ensures files[1..][k].name in tracked
      {
        assert files[1..][k] == files[k + 1] && files[k + 1] in files;
      }
      PendingNone(files[1..], tracked);
    } else {
      OnlyPending(files[1..], f, tracked);
    }
  }

  lemma OnlyOneLeft<S(!new)>(e: Engine<S>, files: seq<File>, f: File, s: S)
    requires DistinctNames(files) && f in files && f.name !in PreRunnerNames()
    ensures Todo(e, files, AllBut(files, f, s)) == [f]
    ensures Start(e, AllBut(files, f, s)) == AllBut(files, f, s)
  {
    var db := AllBut(files, f, s);
    assert PreRunnerNames() <= db.tracked;
    RecordedFoundations(e, files, db);
    OnlyPending(files, f, db.tracked);
  }

  /** One cut in the only file left, and one run to its end. */
  lemma OneCut<S(!new)>(e: Engine<S>, files: seq<File>, f: File, s: S, m: nat)
    requires DistinctNames(files) && f in files && f.name !in PreRunnerNames() && m <= |Statements(f)|
    ensures var db := AllBut(files, f, s);
            && FullRun(e, files, db).schema == Exec(e, Statements(f), s)
            && FullRun(e, files, History(e, files, db, [InFile(0, m)])).schema ==
               Exec(e, Statements(f), Exec(e, Statements(f)[..m], s))
  {
    var db := AllBut(files, f, s);
    OnlyOneLeft(e, files, f, s);
    RunOne(e, f, db);
    PointReached(e, files, db, 0, m);
    PartialFirst(e, [f], db, Statements(f), m);
    var cut := History(e, files, db, [InFile(0, m)]);
    assert cut.tracked == db.tracked;
    RecordedFoundations(e, files, cut);
    OnlyPending(files, f, db.tracked);
    RunOne(e, f, Start(e, cut));
  }

  /**
   * The exact condition for resuming: with the pre-runner files recorded, all interrupted histories from all schemas
   * converge if and only if running each other file to its end makes up for any part of it that has run.
   */
  lemma ConvergesExactly<S(!new)>(e: Engine<S>, files: seq<File>)
    requires DistinctNames(files)
    ensures AlwaysConverges(e, files) <==> forall f :: f in files && f.name !in PreRunnerNames() ==> Resumable(e, f)
  {
    if forall f :: f in files && f.name !in PreRunnerNames() ==> Resumable(e, f) {
      forall db0: Db<S>, crashes: seq<Crash> | PreRunnerNames() <= db0.tracked
        ensures FullRun(e, files, History(e, files, db0, crashes)).schema == FullRun(e, files, db0).schema
      {
        RecordedFoundations(e, files, db0);
        forall i | 0 <= i < |Todo(e, files, db0)|
          ensures Resumable(e, Todo(e, files, db0)[i])
        {
          assert Todo(e, files, db0)[i] in Todo(e, files, db0);
        }
        Converges(e, files, db0, crashes);
      }
    }
    if AlwaysConverges(e, files) {
      forall f, s, m | f in files && f.name !in PreRunnerNames() && 0 <= m <= |Statements(f)|
        ensures Exec(e, Statements(f), Exec(e, Statements(f)[..m], s)) == Exec(e, Statements(f), s)
      {
        OneCut(e, files, f, s, m);
      }
    }
  }

  // ---------------------------------------------------------------- what the applier itself records

  /** Whatever is recorded since `db0`, other than a pre-runner file, has been run to its end. */
  ghost predicate AppliedAreFinished<S>(db0: Db<S>, db: Db<S>) {
    forall name :: name in db.tracked && name !in db0.tracked && name !in PreRunnerNames() ==> name in db.finished
  }

  lemma AppliedStart<S>(e: Engine<S>, db0: Db<S>, db: Db<S>, n: nat)
    requires AppliedAreFinished(db0, db) && n <= |PRE_RUNNER_MIGRATIONS|
    ensures AppliedAreFinished(db0, Ensure(e, db, n))
  {
  }

  lemma AppliedPartial<S>(e: Engine<S>, db0: Db<S>, db: Db<S>, pending: seq<File>, i: nat, m: nat)
    requires AppliedAreFinished(db0, db)
    ensures AppliedAreFinished(db0, PartialFiles(e, pending, db, i, m))
  {
    if i < |pending| {
      RunFilesTracked(e, pending[..i], db);
    } else {
      RunFilesTracked(e, pending, db);
    }
  }

  /**
   * For every engine, database and crash history, with no other condition: a file the applier runs is recorded only
   * after all its statements have run.
   */
  lemma {:induction false} AppliedOnlyWhenRun<S>(e: Engine<S>, files: seq<File>, db0: Db<S>, crashes: seq<Crash>)
    ensures AppliedAreFinished(db0, History(e, files, db0, crashes))
    ensures AppliedAreFinished(db0, FullRun(e, files, History(e, files, db0, crashes)))
    decreases |crashes|
  {
    var db := History(e, files, db0, crashes);
    if crashes != [] {
      var before := History(e, files, db0, crashes[..|crashes| - 1]);
      AppliedOnlyWhenRun(e, files, db0, crashes[..|crashes| - 1]);
      match crashes[|crashes| - 1] {
        case InEnsure(n) => AppliedStart(e, db0, before, Min(n, |PRE_RUNNER_MIGRATIONS|));
        case InFile(i, m) =>
          AppliedStart(e, db0, before, |PRE_RUNNER_MIGRATIONS|);
          AppliedPartial(e, db0, Start(e, before), Pending(files, Start(e, before).tracked), i, m);
      }
    }
    AppliedStart(e, db0, db, |PRE_RUNNER_MIGRATIONS|);
    var pending := Pending(files, Start(e, db).tracked);
    AppliedPartial(e, db0, Start(e, db), pending, |pending|, 0);
  }

  // ---------------------------------------------------------------- convergence with markers, exactly

  /**
   * From the point after `i` files and `m` statements of the next, leaving out the files whose markers hold there
   * makes no difference to where the remaining files lead.
   */
  ghost predicate SkippingHarmless<S>(e: Engine<S>, files: seq<File>, db: Db<S>, i: nat, m: nat)
    requires i <= |Todo(e, files, db)|
  {
    var p, left := Point(e, files, db, i, m), Todo(e, files, db)[i..];
    RunFiles(e, Pending(left, Start(e, p).tracked), p).schema == RunFiles(e, left, p).schema
  }

  /** The files left to a run that starts from that point are those left there without marked ones. */
  lemma LeftAtPoint<S>(e: Engine<S>, files: seq<File>, db: Db<S>, i: nat, m: nat)
    requires DistinctNames(files) && i < |Todo(e, files, db)|
    ensures var p := Point(e, files, db, i, m);
            Pending(files, Start(e, p).tracked) == Pending(Todo(e, files, db)[i..], Start(e, p).tracked)
  {
    var todo, p := Todo(e, files, db), Point(e, files, db, i, m);
    var before := Start(e, db).tracked + Names(todo[..i]);
    RunFilesTracked(e, todo[..i], Start(e, db));
    LeftToDo(e, files, db, before, i);
    PendingShrinks(files, before, Start(e, p).tracked);
  }

  /** Nothing left out, the remaining files lead where the uninterrupted run does. */
  lemma PointResumes<S(!new)>(e: Engine<S>, files: seq<File>, db: Db<S>, i: nat, m: nat)
    requires i < |Todo(e, files, db)| && Resumable(e, Todo(e, files, db)[i])
    ensures RunFiles(e, Todo(e, files, db)[i..], Point(e, files, db, i, m)).schema == FullRun(e, files, db).schema
  {
    var todo, p := Todo(e, files, db), Point(e, files, db, i, m);
    var k := Min(m, |Statements(todo[i])|);
    var before := RunFiles(e, todo[..i], Start(e, db));
    assert p.schema == Exec(e, Statements(todo[i])[..k], before.schema);
    assert Exec(e, Statements(todo[i]), p.schema) == Exec(e, Statements(todo[i]), before.schema);
    assert todo == todo[..i] + todo[i..];
    RunFilesConcat(e, todo[..i], todo[i..], Start(e, db));
    RunFilesSchema(e, todo[i..][1..], RunFile(e, todo[i], p), RunFile(e, todo[i], before));
  }

  /** One crash makes no difference exactly when leaving out the files marked there does not. */
  lemma OneCrashExactly<S(!new)>(e: Engine<S>, files: seq<File>, db: Db<S>, i: nat, m: nat)
    requires DistinctNames(files) && i < |Todo(e, files, db)| && Resumable(e, Todo(e, files, db)[i])
    ensures FullRun(e, files, CrashedRun(e, files, db, InFile(i, m))).schema == FullRun(e, files, db).schema <==>
            SkippingHarmless(e, files, db, i, m)
  {
    var p := Point(e, files, db, i, m);
    LeftAtPoint(e, files, db, i, m);
    PointResumes(e, files, db, i, m);
    RunFilesSchema(e, Pending(files, Start(e, p).tracked), Start(e, p), p);
  }

  /** A run that was not cut short leaves nothing to do. */
  lemma DoneAfterFullRun<S>(e: Engine<S>, files: seq<File>, db: Db<S>)
    ensures Todo(e, files, FullRun(e, files, db)) == []
  {
    var last := FullRun(e, files, db);
    RunFilesTracked(e, Todo(e, files, db), Start(e, db));
    FilterMembers((f: File) => f.name !in Start(e, db).tracked, files);
    forall k | 0 <= k < |files|
      ensures files[k].name in Start(e, last).tracked
    {
      assert files[k].name in Start(e, db).tracked || files[k] in Todo(e, files, db);
    }
    PendingNone(files, Start(e, last).tracked);
  }

  ghost predicate AllResumable<S(!new)>(e: Engine<S>, files: seq<File>) {
    forall f :: f in files ==> Resumable(e, f)
  }

  /** Nowhere, on any database, does leaving out the files marked there make a difference. */
  ghost predicate SkipsHarmless<S(!new)>(e: Engine<S>, files: seq<File>) {
    forall db: Db<S>, i, m :: 0 <= i < |Todo(e, files, db)| && 0 <= m ==> SkippingHarmless(e, files, db, i, m)
  }

  lemma TodoResumable<S(!new)>(e: Engine<S>, files: seq<File>, db: Db<S>, i: nat)
    requires AllResumable(e, files) && i < |Todo(e, files, db)|
    ensures Resumable(e, Todo(e, files, db)[i])
  {
    FilterMembers((f: File) => f.name !in Start(e, db).tracked, files);
    assert Todo(e, files, db)[i] in Todo(e, files, db);
  }

  lemma CrashConverges<S(!new)>(e: Engine<S>, files: seq<File>, db: Db<S>, c: Crash)
    requires DistinctNames(files) && AllResumable(e, files) && SkipsHarmless(e, files)
    ensures FullRun(e, files, CrashedRun(e, files, db, c)).schema == FullRun(e, files, db).schema
  {
    match c
    case InEnsure(n) => EnsureAgain(e, db, Min(n, |PRE_RUNNER_MIGRATIONS|));
    case InFile(i, m) =>
      if i < |Todo(e, files, db)| {
        TodoResumable(e, files, db, i);
        OneCrashExactly(e, files, db, i, m);
      } else {
        DoneAfterFullRun(e, files, db);
      }
  }

  lemma {:induction false} HistoryConverges<S(!new)>(e: Engine<S>, files: seq<File>, db: Db<S>, crashes: seq<Crash>)
    requires DistinctNames(files) && AllResumable(e, files) && SkipsHarmless(e, files)
    ensures FullRun(e, files, History(e, files, db, crashes)).schema == FullRun(e, files, db).schema
    decreases |crashes|
  {
    if crashes != [] {
      HistoryConverges(e, files, db, crashes[..|crashes| - 1]);
      CrashConverges(e, files, History(e, files, db, crashes[..|crashes| - 1]), crashes[|crashes| - 1]);
    }
  }

  /** From every database, every interrupted history ends as an uninterrupted run does. */
  ghost predicate ConvergesEverywhere<S(!new)>(e: Engine<S>, files: seq<File>) {
    forall db: Db<S>, crashes: seq<Crash> ::
      FullRun(e, files, History(e, files, db, crashes)).schema == FullRun(e, files, db).schema
  }

  /**
   * The exact condition with markers still looked at, early ones included: resumable files converge from every
   * database if and only if leaving out the files whose markers hold at a point of a run never makes a difference.
   */
  lemma MarkersConvergeExactly<S(!new)>(e: Engine<S>, files: seq<File>)
    requires DistinctNames(files) && AllResumable(e, files)
    ensures ConvergesEverywhere(e, files) <==> SkipsHarmless(e, files)
  {
    if SkipsHarmless(e, files) {
      forall db: Db<S>, crashes: seq<Crash>
        ensures FullRun(e, files, History(e, files, db, crashes)).schema == FullRun(e, files, db).schema
      {
        HistoryConverges(e, files, db, crashes);
      }
    }
    if ConvergesEverywhere(e, files) {
      forall db: Db<S>, i, m | 0 <= i < |Todo(e, files, db)| && 0 <= m
        ensures SkippingHarmless(e, files, db, i, m)
      {
        TodoResumable(e, files, db, i);
        OneCrashExactly(e, files, db, i, m);
        PointReached(e, files, db, i, m);
      }
    }
  }

  // ---------------------------------------------------------------- the guard of one pre-runner file

  /** Every other file, and every other pre-runner file, is recorded. */
  ghost predicate OnlyLeft<S>(files: seq<File>, f: File, db: Db<S>) {
    && (forall g :: g in files && g != f ==> g.name in db.tracked)
    && (forall name :: name in PreRunnerNames() && name != f.name ==> name in db.tracked)
  }

  /** Where the markers of the file appear part of the way, nothing that is still to come changes the schema. */
  ghost predicate Guarded<S(!new)>(e: Engine<S>, f: File) {
    forall s, m ::
      (0 <= m <= |Statements(f)| && !e.marked(f.name, s) && e.marked(f.name, Exec(e, Statements(f)[..m], s)))
      ==> Exec(e, Statements(f)[..m], s) == Exec(e, Statements(f), s)
  }

  /** What the next run finds: the file recorded when its markers hold, else the file alone. */
  lemma LeftOrMarked<S>(e: Engine<S>, files: seq<File>, f: File, db: Db<S>)
    requires DistinctNames(files) && f in files && f.name in PreRunnerNames() && OnlyLeft(files, f, db)
    requires f.name !in db.tracked
    ensures Start(e, db).tracked == if e.marked(f.name, db.schema) then db.tracked + {f.name} else db.tracked
    ensures Todo(e, files, db) == if e.marked(f.name, db.schema) then [] else [f]
  {
    forall name
      ensures name in Start(e, db).tracked <==> name in db.tracked || (name == f.name && e.marked(f.name, db.schema))
    {
      EnsureTracked(e, db, name);
    }
    if e.marked(f.name, db.schema) {
      forall k | 0 <= k < |files|
        ensures files[k].name in Start(e, db).tracked
      {
        assert files[k] in files;
      }
      PendingNone(files, Start(e, db).tracked);
    } else {
      OnlyPending(files, f, Start(e, db).tracked);
    }
  }

  /** What a run left alone makes of it. */
  lemma FullRunOfLast<S>(e: Engine<S>, files: seq<File>, f: File, db: Db<S>)
    requires DistinctNames(files) && f in files && f.name in PreRunnerNames() && OnlyLeft(files, f, db)
    requires f.name !in db.tracked
    ensures FullRun(e, files, db).schema == if e.marked(f.name, db.schema) then db.schema else Exec(e, Statements(f), db.schema)
  {
    LeftOrMarked(e, files, f, db);
    RunOne(e, f, Start(e, db));
  }

  /** And a crash after `m` statements, the markers being absent before. */
  lemma CutOfLast<S>(e: Engine<S>, files: seq<File>, f: File, db: Db<S>, m: nat)
    requires DistinctNames(files) && f in files && f.name in PreRunnerNames() && OnlyLeft(files, f, db)
    requires f.name !in db.tracked && !e.marked(f.name, db.schema)
    ensures var cut := CrashedRun(e, files, db, InFile(0, m));
            && cut.schema == Exec(e, Statements(f)[..Min(m, |Statements(f)|)], db.schema)
            && cut.tracked == db.tracked
  {
    LeftOrMarked(e, files, f, db);
    assert [f][..0] == [];
  }

  lemma NoneLeftStays<S>(e: Engine<S>, files: seq<File>, db: Db<S>, c: Crash)
    requires Todo(e, files, db) == []
    ensures FullRun(e, files, CrashedRun(e, files, db, c)).schema == FullRun(e, files, db).schema
    ensures Todo(e, files, CrashedRun(e, files, db, c)) == []
  {
    match c
    case InEnsure(n) => EnsureAgain(e, db, Min(n, |PRE_RUNNER_MIGRATIONS|));
    case InFile(i, m) => EnsureAgain(e, db, |PRE_RUNNER_MIGRATIONS|);
  }

  /** One crash under the guard: the same end, and still that file alone or nothing left. */
  lemma GuardedCrash<S(!new)>(e: Engine<S>, files: seq<File>, f: File, db: Db<S>, c: Crash)
    requires DistinctNames(files) && f in files && f.name in PreRunnerNames() && OnlyLeft(files, f, db)
    requires f.name !in db.tracked && !e.marked(f.name, db.schema) && Resumable(e, f) && Guarded(e, f)
    ensures var cut := CrashedRun(e, files, db, c);
            && FullRun(e, files, cut).schema == FullRun(e, files, db).schema
            && (Todo(e, files, cut) == [] || (OnlyLeft(files, f, cut) && f.name !in cut.tracked && !e.marked(f.name, cut.schema)))
  {
    var cut := CrashedRun(e, files, db, c);
    LeftOrMarked(e, files, f, db);
    FullRunOfLast(e, files, f, db);
    match c
    case InEnsure(n) =>
      EnsureAgain(e, db, Min(n, |PRE_RUNNER_MIGRATIONS|));
      assert cut.tracked <= Start(e, db).tracked;
    case InFile(i, m) =>
      if i == 0 {
        CutOfLast(e, files, f, db, m);
        LeftOrMarked(e, files, f, cut);
        FullRunOfLast(e, files, f, cut);
      } else {
        RunOne(e, f, Start(e, db));
        DoneAfterFullRun(e, files, db);
      }
  }

  lemma {:induction false} GuardedHistory<S(!new)>(e: Engine<S>, files: seq<File>, f: File, db: Db<S>, crashes: seq<Crash>)
    requires DistinctNames(files) && f in files && f.name in PreRunnerNames() && OnlyLeft(files, f, db)
    requires f.name !in db.tracked && !e.marked(f.name, db.schema) && Resumable(e, f) && Guarded(e, f)
    ensures var last := History(e, files, db, crashes);
            && FullRun(e, files, last).schema == FullRun(e, files, db).schema
            && (Todo(e, files, last) == [] || (OnlyLeft(files, f, last) && f.name !in last.tracked && !e.marked(f.name, last.schema)))
    decreases |crashes|
  {
    if crashes != [] {
      var before := History(e, files, db, crashes[..|crashes| - 1]);
      GuardedHistory(e, files, f, db, crashes[..|crashes| - 1]);
      if Todo(e, files, before) == [] {
        NoneLeftStays(e, files, before, crashes[|crashes| - 1]);
      } else {
        GuardedCrash(e, files, f, before, crashes[|crashes| - 1]);
      }
    }
  }

  /** With only that file left, every interrupted history ends as an uninterrupted run does. */
  ghost predicate LastConverges<S(!new)>(e: Engine<S>, files: seq<File>, f: File) {
    forall db: Db<S>, crashes: seq<Crash> ::
      OnlyLeft(files, f, db) && f.name !in db.tracked && !e.marked(f.name, db.schema) ==>
        FullRun(e, files, History(e, files, db, crashes)).schema == FullRun(e, files, db).schema
  }

  lemma LastNeedsGuard<S(!new)>(e: Engine<S>, files: seq<File>, f: File, s: S, m: nat)
    requires DistinctNames(files) && f in files && f.name in PreRunnerNames() && LastConverges(e, files, f)
    requires m <= |Statements(f)| && !e.marked(f.name, s) && e.marked(f.name, Exec(e, Statements(f)[..m], s))
    ensures Exec(e, Statements(f)[..m], s) == Exec(e, Statements(f), s)
  {
    var db := AllBut(files, f, s);
    forall g | g in files && g != f
      ensures g.name in db.tracked
    {
      var i :| 0 <= i < |files| && files[i] == g;
      var j :| 0 <= j < |files| && files[j] == f;
    }
    assert OnlyLeft(files, f, db);
    var cut := CrashedRun(e, files, db, InFile(0, m));
    CutOfLast(e, files, f, db, m);
    FullRunOfLast(e, files, f, db);
    FullRunOfLast(e, files, f, cut);
    assert History(e, files, db, [InFile(0, m)]) == cut by {
      assert [InFile(0, m)][..0] == [];
    }
  }

  /**
   * The guard of one pre-runner file that can be resumed: with only that file left and its markers absent, all
   * interrupted histories converge if and only if its markers never appear while a statement that still matters is
   * to come.
   */
  lemma LastConvergesExactly<S(!new)>(e: Engine<S>, files: seq<File>, f: File)
    requires DistinctNames(files) && f in files && f.name in PreRunnerNames() && Resumable(e, f)
    ensures LastConverges(e, files, f) <==> Guarded(e, f)
  {
    if Guarded(e, f) {
      forall db: Db<S>, crashes: seq<Crash> | OnlyLeft(files, f, db) && f.name !in db.tracked && !e.marked(f.name, db.schema)
        ensures FullRun(e, files, History(e, files, db, crashes)).schema == FullRun(e, files, db).schema
      {
        GuardedHistory(e, files, f, db, crashes);
      }
    }
    if LastConverges(e, files, f) {
      forall s, m | 0 <= m <= |Statements(f)| && !e.marked(f.name, s) && e.marked(f.name, Exec(e, Statements(f)[..m], s))
        ensures Exec(e, Statements(f)[..m], s) == Exec(e, Statements(f), s)
      {
        LastNeedsGuard(e, files, f, s, m);
      }
    }
  }

  // ---------------------------------------------------------------- what early markers do

  lemma {:induction false} HistoryConcat<S>(e: Engine<S>, files: seq<File>, db: Db<S>, a: seq<Crash>, b: seq<Crash>)
    ensures History(e, files, db, a + b) == History(e, files, History(e, files, db, a), b)
    decreases |b|
  {
    if b == [] {
      assert a + b == a;
    } else {
      HistoryConcat(e, files, db, a, b[..|b| - 1]);
      assert (a + b)[..|a + b| - 1] == a + b[..|b| - 1];
    }
  }

  /** A file recorded without having been run to its end. */
  predicate Skipped<S>(e: Engine<S>, db: Db<S>, name: string) {
    name in Start(e, db).tracked && name !in db.finished
  }

  lemma SkippedStays<S>(e: Engine<S>, files: seq<File>, db: Db<S>, name: string, i: nat, m: nat)
    requires Skipped(e, db, name)
    ensures var d := Start(e, db);
            var after := PartialFiles(e, Pending(files, d.tracked), d, i, m);
            name in after.tracked && name !in after.finished
  {
    var d := Start(e, db);
    var pending := Pending(files, d.tracked);
    FilterMembers((f: File) => f.name !in d.tracked, files);
    if i < |pending| {
      RunFilesTracked(e, pending[..i], d);
      assert pending[i] in pending;
      assert forall f :: f in pending[..i] ==> f in pending;
    } else {
      RunFilesTracked(e, pending, d);
    }
  }

  lemma {:induction false} SkippedForever<S>(e: Engine<S>, files: seq<File>, db: Db<S>, name: string, crashes: seq<Crash>)
    requires Skipped(e, db, name)
    ensures Skipped(e, History(e, files, db, crashes), name)
    decreases |crashes|
  {
    if crashes != [] {
      var before := History(e, files, db, crashes[..|crashes| - 1]);
      SkippedForever(e, files, db, name, crashes[..|crashes| - 1]);
      match crashes[|crashes| - 1]
      case InEnsure(n) => EnsureAgain(e, before, Min(n, |PRE_RUNNER_MIGRATIONS|));
      case InFile(i, m) => SkippedStays(e, files, before, name, i, m);
    }
  }

  /**
   * For every engine: where the markers of file `j` hold at a point of the uninterrupted run before that file has
   * run, a crash there has it recorded, and no later run, interrupted or not, ever runs it.
   */
  lemma EarlyMarkersSkip<S>(e: Engine<S>, files: seq<File>, db0: Db<S>, i: nat, m: nat, j: nat, more: seq<Crash>)
    requires DistinctNames(files) && i <= j < |Todo(e, files, db0)| && m <= |Statements(Todo(e, files, db0)[i])|
    requires Retroactive(e, Todo(e, files, db0)[j].name, Point(e, files, db0, i, m).schema)
    requires j == i ==> m < |Statements(Todo(e, files, db0)[i])|
    requires Todo(e, files, db0)[j].name !in db0.finished
    ensures var name := Todo(e, files, db0)[j].name;
            var last := FullRun(e, files, History(e, files, db0, [InFile(i, m)] + more));
            name in last.tracked && name !in last.finished
  {
    var todo := Todo(e, files, db0);
    var cut := History(e, files, db0, [InFile(i, m)]);
    PointReached(e, files, db0, i, m);
    PendingDistinct(files, Start(e, db0).tracked);
    RunFilesTracked(e, todo[..i], Start(e, db0));
    EnsureTracked(e, cut, todo[j].name);
    assert Skipped(e, cut, todo[j].name);
    HistoryConcat(e, files, db0, [InFile(i, m)], more);
    SkippedForever(e, files, cut, todo[j].name, more);
    var h := History(e, files, cut, more);
    SkippedStays(e, files, h, todo[j].name, |Pending(files, Start(e, h).tracked)|, 0);
  }

  // ---------------------------------------------------------------- why the conditions are needed

  predicate Letter(c: char) {
    'A' <= c <= 'Z'
  }

  lemma SplitTwoStatements(a: char, b: char)
    requires Letter(a) && Letter(b)
    ensures Split([a, ';', b, ';']) == [[a, ';'], [b, ';']]
  {
    ShortComplete(a);
    ShortComplete(b);
    SplitComplete([a, ';'], [b, ';']);
    SplitComplete([b, ';'], []);
    assert [a, ';'] + [b, ';'] == [a, ';', b, ';'] && [b, ';'] + [] == [b, ';'];
    assert Open([]) && Trim([]) == [];
    SplitOpen([]);
  }

  lemma ShortComplete(c: char)
    requires Letter(c)
    ensures Complete([c, ';']) && Trim([c, ';']) == [c, ';']
  {
    var p := [c, ';'];
    assert LexemeEnd(p, 0) == 1;
    assert Cuts(p, 1) == [2] + Cuts(p, 2);
    TrimFixed(p);
  }

  /** A schema seen as the set of statements that have taken effect. */
  function Record(s: set<string>, statement: string): set<string> {
    s + {statement}
  }

  /** The markers of the recording tables hold once the last table exists, before retention is configured. */
  function RecordingEngine(): Engine<set<string>> {
    Engine(Record, (name: string, s: set<string>) => name == PRE_RUNNER_MIGRATIONS[0] && "T;" in s)
  }

  /** The two pre-runner files, "T;" creating the last table and "Z;" setting its retention. */
  function FoundationFiles(): seq<File> {
    [File(PRE_RUNNER_MIGRATIONS[0], "T;Z;"), File(PRE_RUNNER_MIGRATIONS[1], "C;I;")]
  }

  lemma {:induction false} RecordUnion(statements: seq<string>, s: set<string>)
    ensures Exec(RecordingEngine(), statements, s) == s + set x | x in statements
  {
    if statements != [] {
      RecordUnion(statements[1..], Record(s, statements[0]));
      assert (set x | x in statements) == {statements[0]} + set x | x in statements[1..] by {
        assert statements == [statements[0]] + statements[1..];
      }
    }
  }

  lemma RecordHarmless(f: File)
    ensures HarmlessReplay(RecordingEngine(), f)
  {
    var e := RecordingEngine();
    forall s, k, m | 0 <= k <= m <= |Statements(f)|
      ensures Exec(e, Statements(f)[..k], Exec(e, Statements(f)[..m], s)) == Exec(e, Statements(f)[..m], s)
    {
      RecordUnion(Statements(f)[..m], s);
      RecordUnion(Statements(f)[..k], Exec(e, Statements(f)[..m], s));
      assert Statements(f)[..k] <= Statements(f)[..m];
    }
  }

  /** A blank tracking table whose markers are all absent leaves every file to do. */
  lemma NothingTracked<S>(e: Engine<S>, files: seq<File>, s: S)
    requires DistinctNames(files)
    requires forall name :: name in PRE_RUNNER_MIGRATIONS ==> !e.marked(name, s)
    ensures Start(e, Db(s, {}, {})) == Db(s, {}, {})
    ensures Todo(e, files, Db(s, {}, {})) == files
  {
    var db := Db(s, {}, {});
    assert Start(e, db).tracked == {};
    PendingLater(files, {}, 0);
  }

  /** A crash in the first file, written out. */
  lemma PartialFirst<S>(e: Engine<S>, files: seq<File>, db: Db<S>, statements: seq<string>, m: nat)
    requires files != [] && Statements(files[0]) == statements && m <= |statements|
    ensures PartialFiles(e, files, db, 0, m) ==
            Db(Exec(e, statements[..m], db.schema), db.tracked,
               if m == |statements| then db.finished + {files[0].name} else db.finished)
  {
    assert files[..0] == [];
  }

  lemma RunOne<S>(e: Engine<S>, f: File, db: Db<S>)
    ensures RunFiles(e, [f], db) == RunFile(e, f, db)
  {
    assert [f][1..] == [];
  }

  const BLANK: Db<set<string>> := Db({}, {}, {})

  lemma CleanRunSetsRetention()
    ensures "Z;" in FullRun(RecordingEngine(), FoundationFiles(), BLANK).schema
  {
    var e, files := RecordingEngine(), FoundationFiles();
    NothingTracked(e, files, {});
    var first := RunFile(e, files[0], BLANK);
    RunTwo(e, files[0], files[1], BLANK);
    FirstFileSetsRetention();
    RecordUnion(Statements(files[1]), first.schema);
  }

  lemma FirstFileSetsRetention()
    ensures "Z;" in RunFile(RecordingEngine(), FoundationFiles()[0], BLANK).schema
  {
    SplitTwoStatements('T', 'Z');
    RecordUnion(["T;", "Z;"], {});
    assert "Z;" == ["T;", "Z;"][1];
  }

  lemma RunTwo<S>(e: Engine<S>, a: File, b: File, db: Db<S>)
    ensures RunFiles(e, [a, b], db) == RunFile(e, b, RunFile(e, a, db))
  {
    assert [a, b][1..] == [b];
    RunOne(e, b, RunFile(e, a, db));
  }

  /** A crash after `m` statements of the first of the files, nothing being tracked or marked before. */
  lemma FirstCut<S>(e: Engine<S>, files: seq<File>, s: S, statements: seq<string>, m: nat)
    requires DistinctNames(files) && files != []
    requires forall name :: name in PRE_RUNNER_MIGRATIONS ==> !e.marked(name, s)
    requires Statements(files[0]) == statements && m < |statements|
    ensures History(e, files, Db(s, {}, {}), [InFile(0, m)]) == Db(Exec(e, statements[..m], s), {}, {})
  {
    NothingTracked(e, files, s);
    PointReached(e, files, Db(s, {}, {}), 0, m);
    PartialFirst(e, files, Db(s, {}, {}), statements, m);
  }

  /** A full run of two files, the first of which is found recorded. */
  lemma SecondOnly<S>(e: Engine<S>, a: File, b: File, db: Db<S>)
    requires a.name in Start(e, db).tracked && b.name !in Start(e, db).tracked
    ensures FullRun(e, [a, b], db).schema == Exec(e, Statements(b), db.schema)
  {
    PendingLater([a, b], Start(e, db).tracked, 1);
    assert [a, b][1..] == [b];
    RunOne(e, b, Start(e, db));
  }

  lemma CutAfterLastTable()
    ensures History(RecordingEngine(), FoundationFiles(), BLANK, [InFile(0, 1)]) == Db({"T;"}, {}, {})
  {
    SplitTwoStatements('T', 'Z');
    FirstCut(RecordingEngine(), FoundationFiles(), {}, ["T;", "Z;"], 1);
    assert ["T;", "Z;"][..1] == ["T;"];
    RecordUnion(["T;"], {});
    assert {} + (set x | x in ["T;"]) == {"T;"};
  }

  lemma ResumedRunSkipsRetention()
    ensures "Z;" !in FullRun(RecordingEngine(), FoundationFiles(), Db({"T;"}, {}, {})).schema
  {
    var e, files, cut := RecordingEngine(), FoundationFiles(), Db({"T;"}, {}, {});
    MarkersHold();
    SecondOnly(e, files[0], files[1], cut);
    SecondFileSetsNoRetention();
  }

  lemma SecondFileSetsNoRetention()
    ensures "Z;" !in Exec(RecordingEngine(), Statements(FoundationFiles()[1]), {"T;"})
  {
    SplitTwoStatements('C', 'I');
    RecordUnion(["C;", "I;"], {"T;"});
    assert "Z;"[0] != "T;"[0] && "Z;"[0] != "C;"[0] && "Z;"[0] != "I;"[0];
  }

  /** Once the last table exists the first file counts as applied, and the second does not. */
  lemma MarkersHold()
    ensures var e, files, cut := RecordingEngine(), FoundationFiles(), Db({"T;"}, {}, {});
            files[0].name in Start(e, cut).tracked && files[1].name !in Start(e, cut).tracked
  {
    var e, files, cut := RecordingEngine(), FoundationFiles(), Db({"T;"}, {}, {});
    EnsureTracked(e, cut, files[0].name);
    EnsureTracked(e, cut, files[1].name);
    assert files[1].name[3] != files[0].name[3];
  }

  /**
   * A crash between the last table and the retention statements of the first pre-runner file: the
   * next run finds the markers, records the file, and its remaining statements never run.
   */
  lemma EarlyMarkersLoseStatements()
    ensures var e, files := RecordingEngine(), FoundationFiles();
            && DistinctNames(files) && FoundationsKnown(e, files, BLANK)
            && (forall f :: f in files ==> HarmlessReplay(e, f))
            && "Z;" in FullRun(e, files, BLANK).schema
            && "Z;" !in FullRun(e, files, History(e, files, BLANK, [InFile(0, 1)])).schema
  {
    var files := FoundationFiles();
    RecordHarmless(files[0]);
    RecordHarmless(files[1]);
    assert files[0] in files && files[1] in files;
    CleanRunSetsRetention();
    CutAfterLastTable();
    ResumedRunSkipsRetention();
  }

  datatype Cells = Cells(x: int, y: int)

  /** "C;" copies x into y, "S;" sets x to one. */
  function CopyThenSet(s: Cells, statement: string): Cells {
    if statement == "C;" then s.(y := s.x) else if statement == "S;" then s.(x := 1) else s
  }

  function CopyEngine(): Engine<Cells> {
    Engine(CopyThenSet, (name: string, s: Cells) => false)
  }

  const COPY_FILE: File := File("002.sql", "C;S;")

  /** One run of the file from any state keeps y equal to the old x. */
  lemma CopyRun(s: Cells)
    ensures Todo(CopyEngine(), [COPY_FILE], Db(s, {}, {})) == [COPY_FILE]
    ensures FullRun(CopyEngine(), [COPY_FILE], Db(s, {}, {})).schema == Cells(1, s.x)
    ensures Point(CopyEngine(), [COPY_FILE], Db(s, {}, {}), 0, 2).schema == Cells(1, s.x)
    ensures Point(CopyEngine(), [COPY_FILE], Db(s, {}, {}), 0, 2).tracked == {}
  {
    var e, db := CopyEngine(), Db(s, {}, {});
    NothingTracked(e, [COPY_FILE], s);
    SplitTwoStatements('C', 'S');
    ExecTwo(e, "C;", "S;", s);
    RunOne(e, COPY_FILE, db);
    PartialFirst(e, [COPY_FILE], db, ["C;", "S;"], 2);
    assert ["C;", "S;"][..2] == ["C;", "S;"];
  }

  /** Statements that are each idempotent do not make a replayed prefix harmless. */
  lemma IdempotentStatementsAreNotEnough()
    ensures forall s, statement :: CopyThenSet(CopyThenSet(s, statement), statement) == CopyThenSet(s, statement)
    ensures var e, files, db := CopyEngine(), [COPY_FILE], Db(Cells(0, 0), {}, {});
            FullRun(e, files, History(e, files, db, [InFile(0, 2)])).schema != FullRun(e, files, db).schema
  {
    var e, files, db := CopyEngine(), [COPY_FILE], Db(Cells(0, 0), {}, {});
    CopyRun(Cells(0, 0));
    CopyRun(Cells(1, 0));
    PointReached(e, files, db, 0, 2);
    var cut := Point(e, files, db, 0, 2);
    assert Start(e, cut) == cut;
    RunFilesSchema(e, files, cut, Db(Cells(1, 0), {}, {}));
  }

  lemma ExecTwo<S>(e: Engine<S>, a: string, b: string, s: S)
    ensures Exec(e, [a, b], s) == e.exec(e.exec(s, a), b)
  {
    assert [a, b][1..] == [b] && [b][1..] == [];
    assert Exec(e, [b], e.exec(s, a)) == Exec(e, [], e.exec(e.exec(s, a), b));
  }
}
