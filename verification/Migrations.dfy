/**
  The schema migration runner of cmd/api/migrations.go, run by any number of
  processes against one database.

  `Do` is one step of one process; a run is any sequence of steps, so every
  interleaving, SQL failure and crash is covered by the lemmas over runs. The
  method `InitializeSchema` is the code itself; each of its executions, with
  other processes running between its statements, is shown to be a run of this
  machine.
 */
module Migrations {

  /** A migration; its SQL is identified with the migration itself. */
  datatype Migration = Migration(id: int, name: string)

  /** The list in cmd/api/migrations.go. */
  const MIGRATIONS: seq<Migration> := [
    Migration(1, "initial_schema"),
    Migration(2, "add_proxy_url"),
    Migration(3, "change_id_to_string"),
    Migration(4, "add_s3_support"),
    Migration(5, "add_message_history"),
    Migration(6, "add_quoted_message_id"),
    Migration(7, "add_hmac_key"),
    Migration(8, "add_data_json"),
    Migration(9, "add_whatsmeow_message_secrets_message_id_idx")
  ]

  predicate DistinctIds(ms: seq<Migration>) {
    forall i, j :: 0 <= i < j < |ms| ==> ms[i].id != ms[j].id
  }

  function Ids(ms: seq<Migration>): (r: seq<int>)
    ensures |r| == |ms|
    ensures forall i :: 0 <= i < |ms| ==> r[i] == ms[i].id
  {
    seq(|ms|, i requires 0 <= i < |ms| => ms[i].id)
  }

  /**
    The shared database: whether the migrations table exists, the ids it holds,
    and (for the specification) every migration whose SQL has been committed, in
    commit order.
   */
  datatype Db = Db(table: bool, recorded: set<int>, log: seq<int>)

  /** Where a process stands in initializeSchema; `applied` is its snapshot of the recorded ids. */
  datatype Phase =
    | Checking
    | Creating
    | Reading
    | Scanning(i: nat, applied: set<int>)
    | Begun(i: nat, applied: set<int>)
    | Executed(i: nat, applied: set<int>)
    | Inserted(i: nat, applied: set<int>)
    | Done
    | Failed
    | Crashed
  {
    predicate Live() {
      !Done? && !Failed? && !Crashed?
    }
  }

  datatype World = World(db: Db, procs: map<nat, Phase>)

  /** `Fault` is any statement returning an error; `CommitLost` is a commit whose reply never arrives. */
  datatype Event =
    | Spawn(p: nat)
    | Check(p: nat)
    | Create(p: nat)
    | Read(p: nat)
    | Scan(p: nat)
    | ExecUp(p: nat)
    | InsertRow(p: nat)
    | Commit(p: nat)
    | CommitLost(p: nat)
    | Fault(p: nat)
    | Crash(p: nat)

  function At(w: World, p: nat, ph: Phase): World {
    w.(procs := w.procs[p := ph])
  }

  /** Another open transaction has inserted this id: PostgreSQL makes a second insert wait. */
  predicate InsertBlocked(w: World, p: nat, i: nat) {
    exists q :: q in w.procs && q != p && w.procs[q].Inserted? && w.procs[q].i == i
  }

  function Committed(ms: seq<Migration>, db: Db, i: nat): Db
    requires i < |ms|
  {
    db.(recorded := db.recorded + {ms[i].id}, log := db.log + [ms[i].id])
  }

  /** One step of the machine; an event that is not possible in w leaves it unchanged. */
  function Do(ms: seq<Migration>, w: World, e: Event): World {
    if e.Spawn? then (if e.p in w.procs then w else At(w, e.p, Checking))
    else if e.p !in w.procs || !w.procs[e.p].Live() then w
    else
      var p, ph := e.p, w.procs[e.p];
      match e
      case Fault(_) => At(w, p, Failed)
      case Crash(_) => At(w, p, Crashed)
      case Check(_) =>
        if ph.Checking? then At(w, p, if w.db.table then Reading else Creating) else w
      case Create(_) =>
        if !ph.Creating? then w
        else if w.db.table then At(w, p, Failed)
        else At(w.(db := w.db.(table := true)), p, Reading)
      case Read(_) =>
        if ph.Reading? then At(w, p, Scanning(0, w.db.recorded)) else w
      case Scan(_) =>
        if !ph.Scanning? then w
        else if ph.i >= |ms| then At(w, p, Done)
        else if ms[ph.i].id in ph.applied then At(w, p, Scanning(ph.i + 1, ph.applied))
        else At(w, p, Begun(ph.i, ph.applied))
      case ExecUp(_) =>
        if ph.Begun? then At(w, p, Executed(ph.i, ph.applied)) else w
      case InsertRow(_) =>
        if !ph.Executed? || ph.i >= |ms| || InsertBlocked(w, p, ph.i) then w
        else if ms[ph.i].id in w.db.recorded then At(w, p, Failed)
        else At(w, p, Inserted(ph.i, ph.applied))
      case Commit(_) =>
        if ph.Inserted? && ph.i < |ms|
        then At(w.(db := Committed(ms, w.db, ph.i)), p, Scanning(ph.i + 1, ph.applied))
        else w
      case CommitLost(_) =>
        if ph.Inserted? && ph.i < |ms| then At(w.(db := Committed(ms, w.db, ph.i)), p, Failed) else w
  }

  function Run(ms: seq<Migration>, w: World, es: seq<Event>): World {
    if es == [] then w else Do(ms, Run(ms, w, es[..|es| - 1]), es[|es| - 1])
  }

  // ---------------------------------------------------------------------
  // What every reachable state satisfies
  // ---------------------------------------------------------------------

  function Elements(s: seq<int>): set<int> {
    set x | x in s
  }

  /** The committed migrations are a prefix of the list, and the table records exactly those. */
  ghost predicate DbInv(ms: seq<Migration>, db: Db) {
    && db.log <= Ids(ms)
    && db.recorded == Elements(db.log)
  }

  ghost predicate PhaseInv(ms: seq<Migration>, db: Db, ph: Phase) {
    match ph
    case Scanning(i, applied) => i <= |db.log| && i <= |ms| && applied <= db.recorded
    case Begun(i, applied) => i <= |db.log| && i < |ms| && applied <= db.recorded
    case Executed(i, applied) => i <= |db.log| && i < |ms| && applied <= db.recorded
    case Inserted(i, applied) =>
      i <= |db.log| && i < |ms| && applied <= db.recorded && ms[i].id !in db.recorded
    case Done => |db.log| == |ms|
    case _ => true
  }

  ghost predicate Inv(ms: seq<Migration>, w: World) {
    && DbInv(ms, w.db)
    && (forall p <- w.procs :: PhaseInv(ms, w.db, w.procs[p]))
    && forall p, q :: p in w.procs && q in w.procs && p != q && w.procs[p].Inserted? && w.procs[q].Inserted?
                      ==> w.procs[p].i != w.procs[q].i
  }

  /** With distinct ids, an id at or beyond the end of the log is unrecorded, and conversely. */
  lemma RecordedIffLogged(ms: seq<Migration>, db: Db, i: nat)
    requires DistinctIds(ms) && DbInv(ms, db) && i < |ms|
    ensures ms[i].id in db.recorded <==> i < |db.log|
  {
    assert forall j :: 0 <= j < |db.log| ==> db.log[j] == Ids(ms)[j] == ms[j].id;
  }

  /** A committing process is always at the end of the log, so the log stays a prefix. */
  lemma CommitExtends(ms: seq<Migration>, w: World, p: nat)
    requires DistinctIds(ms) && Inv(ms, w)
    requires p in w.procs && w.procs[p].Inserted?
    ensures var i := w.procs[p].i;
            && i == |w.db.log| < |ms|
            && DbInv(ms, Committed(ms, w.db, i))
            && forall q :: q in w.procs && q != p ==> PhaseInv(ms, Committed(ms, w.db, i), w.procs[q])
  {
    var i := w.procs[p].i;
    assert PhaseInv(ms, w.db, w.procs[p]);
    RecordedIffLogged(ms, w.db, i);
    var db' := Committed(ms, w.db, i);
    assert db'.log == Ids(ms)[..i + 1];
    forall q | q in w.procs && q != p
      ensures PhaseInv(ms, db', w.procs[q])
    {
      assert PhaseInv(ms, w.db, w.procs[q]);
      if w.procs[q].Inserted? {
        RecordedIffLogged(ms, w.db, w.procs[q].i);
        assert false;
      }
    }
  }

  /** A step that only moves process p, to a phase that fits the database. */
  lemma MoveKeepsInv(ms: seq<Migration>, w: World, p: nat, ph: Phase)
    requires Inv(ms, w) && PhaseInv(ms, w.db, ph)
    requires ph.Inserted? ==> !InsertBlocked(w, p, ph.i)
    ensures Inv(ms, At(w, p, ph))
  {
  }

  lemma CommitKeepsInv(ms: seq<Migration>, w: World, p: nat, ph: Phase)
    requires DistinctIds(ms) && Inv(ms, w) && p in w.procs && w.procs[p].Inserted?
    requires ph == Scanning(w.procs[p].i + 1, w.procs[p].applied) || ph == Failed
    ensures w.procs[p].i < |ms| && Inv(ms, At(w.(db := Committed(ms, w.db, w.procs[p].i)), p, ph))
  {
    CommitExtends(ms, w, p);
    assert PhaseInv(ms, w.db, w.procs[p]);
  }

  /** Every step of every process keeps the invariant and never shortens the log. */
  lemma DoKeepsInv(ms: seq<Migration>, w: World, e: Event)
    requires DistinctIds(ms) && Inv(ms, w)
    ensures Inv(ms, Do(ms, w, e))
    ensures w.db.log <= Do(ms, w, e).db.log
  {
    var w' := Do(ms, w, e);
    if w' != w {
      if e.Commit? || e.CommitLost? {
        CommitKeepsInv(ms, w, e.p, w'.procs[e.p]);
      } else {
        if !e.Spawn? {
          var ph := w.procs[e.p];
          assert PhaseInv(ms, w.db, ph);
          if ph.Scanning? && ph.i < |ms| {
            RecordedIffLogged(ms, w.db, ph.i);
          }
        }
        if e.Create? {
          assert Inv(ms, w.(db := w'.db));
          MoveKeepsInv(ms, w.(db := w'.db), e.p, w'.procs[e.p]);
        } else {
          MoveKeepsInv(ms, w, e.p, w'.procs[e.p]);
        }
      }
    }
  }

  /** The states a deployment can start from: nothing running, the database left by earlier runs. */
  ghost predicate Init(ms: seq<Migration>, w: World) {
    w.procs == map[] && DbInv(ms, w.db)
  }

  lemma {:induction false} RunKeepsInv(ms: seq<Migration>, w: World, es: seq<Event>)
    requires DistinctIds(ms) && Inv(ms, w)
    ensures Inv(ms, Run(ms, w, es))
    ensures w.db.log <= Run(ms, w, es).db.log
    decreases |es|
  {
    if es != [] {
      RunKeepsInv(ms, w, es[..|es| - 1]);
      DoKeepsInv(ms, Run(ms, w, es[..|es| - 1]), es[|es| - 1]);
    }
  }

  /** A crash or an error ends a process: its open transaction is rolled back and it does nothing more. */
  lemma {:induction false} EndedStays(ms: seq<Migration>, w: World, es: seq<Event>, p: nat)
    requires p in w.procs && !w.procs[p].Live()
    ensures p in Run(ms, w, es).procs && Run(ms, w, es).procs[p] == w.procs[p]
    decreases |es|
  {
    if es != [] {
      EndedStays(ms, w, es[..|es| - 1], p);
    }
  }

  lemma CrashEnds(ms: seq<Migration>, w: World, p: nat, es: seq<Event>)
    requires p in w.procs && w.procs[p].Live()
    ensures Do(ms, w, Crash(p)).db == w.db && Do(ms, w, Fault(p)).db == w.db
    ensures p in Run(ms, Do(ms, w, Crash(p)), es).procs && Run(ms, Do(ms, w, Crash(p)), es).procs[p] == Crashed
    ensures p in Run(ms, Do(ms, w, Fault(p)), es).procs && Run(ms, Do(ms, w, Fault(p)), es).procs[p] == Failed
  {
    EndedStays(ms, Do(ms, w, Crash(p)), es, p);
    EndedStays(ms, Do(ms, w, Fault(p)), es, p);
  }

  predicate NoDuplicates(s: seq<int>) {
    forall i, j :: 0 <= i < j < |s| ==> s[i] != s[j]
  }

  /**
    Over any interleaving of any number of processes, with faults and crashes
    anywhere: the recorded migrations are a prefix of the list, no migration's
    SQL is committed twice, nothing recorded is lost, and a process that has
    returned nil leaves every migration recorded.
   */
  lemma MigrationSafety(ms: seq<Migration>, w: World, es: seq<Event>)
    requires DistinctIds(ms) && Init(ms, w)
    ensures var db := Run(ms, w, es).db;
            && w.db.log <= db.log <= Ids(ms)
            && db.recorded == Elements(db.log)
            && NoDuplicates(db.log)
    ensures var w' := Run(ms, w, es);
            forall p <- w'.procs :: w'.procs[p].Done? ==> w'.db.log == Ids(ms)
  {
    RunKeepsInv(ms, w, es);
    var w' := Run(ms, w, es);
    forall p | p in w'.procs && w'.procs[p].Done?
      ensures w'.db.log == Ids(ms)
    {
      assert PhaseInv(ms, w'.db, w'.procs[p]);
    }
  }

  lemma ShippedIds()
    ensures DistinctIds(MIGRATIONS) && Ids(MIGRATIONS) == [1, 2, 3, 4, 5, 6, 7, 8, 9]
  {
  }

  /** The list in the source has distinct ids, so all of the above applies to it. */
  lemma ShippedMigrationSafety(w: World, es: seq<Event>, p: nat)
    requires Init(MIGRATIONS, w)
    requires p in Run(MIGRATIONS, w, es).procs && Run(MIGRATIONS, w, es).procs[p].Done?
    ensures DistinctIds(MIGRATIONS)
    ensures Run(MIGRATIONS, w, es).db.log == [1, 2, 3, 4, 5, 6, 7, 8, 9]
  {
    ShippedIds();
    MigrationSafety(MIGRATIONS, w, es);
  }

  // ---------------------------------------------------------------------
  // Restarting always works
  // ---------------------------------------------------------------------

  lemma RunConcat(ms: seq<Migration>, w: World, es: seq<Event>, fs: seq<Event>)
    ensures Run(ms, w, es + fs) == Run(ms, Run(ms, w, es), fs)
    decreases |fs|
  {
    if fs == [] {
      assert es + fs == es;
    } else {
      var n := |fs| - 1;
      assert (es + fs)[..|es + fs| - 1] == es + fs[..n];
      RunConcat(ms, w, es, fs[..n]);
    }
  }

  lemma RunOne(ms: seq<Migration>, w: World, e: Event)
    ensures Run(ms, w, [e]) == Do(ms, w, e)
  {
    assert [e][..0] == [];
  }

  /** fs takes w to w' and is made of events of process p only. */
  ghost predicate Takes(ms: seq<Migration>, w: World, p: nat, fs: seq<Event>, w': World) {
    Run(ms, w, fs) == w' && forall f <- fs :: f.p == p
  }

  lemma TakesOne(ms: seq<Migration>, w: World, e: Event, w': World)
    requires Do(ms, w, e) == w'
    ensures Takes(ms, w, e.p, [e], w')
  {
    RunOne(ms, w, e);
  }

  lemma TakesBoth(ms: seq<Migration>, w: World, p: nat, fs: seq<Event>, w': World, gs: seq<Event>, w'': World)
    requires Takes(ms, w, p, fs, w') && Takes(ms, w', p, gs, w'')
    ensures Takes(ms, w, p, fs + gs, w'')
  {
    RunConcat(ms, w, fs, gs);
  }

  /** No transaction of another process is holding an inserted row. */
  ghost predicate NoneInserted(w: World, p: nat) {
    forall q :: q in w.procs && q != p ==> !w.procs[q].Inserted?
  }

  /** Process p is scanning, and from its index on its snapshot is still accurate. */
  ghost predicate Accurate(ms: seq<Migration>, w: World, p: nat, i: nat, applied: set<int>) {
    && p in w.procs && w.procs[p] == Scanning(i, applied)
    && i <= |ms|
    && forall j :: i <= j < |ms| ==> (ms[j].id in applied <==> j < |w.db.log|)
  }

  /** Moving p twice is moving it once. */
  lemma AtTwice(w: World, p: nat, ph: Phase, ph': Phase)
    ensures At(At(w, p, ph), p, ph') == At(w, p, ph')
  {
  }

  lemma StepExec(ms: seq<Migration>, w: World, p: nat, i: nat, applied: set<int>)
    requires p in w.procs && w.procs[p] == Scanning(i, applied)
    requires i < |ms| && ms[i].id !in applied
    ensures Takes(ms, w, p, [Scan(p)] + [ExecUp(p)], At(w, p, Executed(i, applied)))
  {
    var w1, w2 := At(w, p, Begun(i, applied)), At(w, p, Executed(i, applied));
    AtTwice(w, p, Begun(i, applied), Executed(i, applied));
    TakesOne(ms, w, Scan(p), w1);
    TakesOne(ms, w1, ExecUp(p), w2);
    TakesBoth(ms, w, p, [Scan(p)], w1, [ExecUp(p)], w2);
  }

  lemma StepInsert(ms: seq<Migration>, w: World, p: nat, i: nat, applied: set<int>)
    requires p in w.procs && w.procs[p] == Executed(i, applied) && NoneInserted(w, p)
    requires i < |ms| && ms[i].id !in w.db.recorded
    ensures Takes(ms, w, p, [InsertRow(p)], At(w, p, Inserted(i, applied)))
  {
    TakesOne(ms, w, InsertRow(p), At(w, p, Inserted(i, applied)));
  }

  lemma StepCommit(ms: seq<Migration>, w: World, p: nat, i: nat, applied: set<int>)
    requires p in w.procs && w.procs[p] == Inserted(i, applied) && i < |ms|
    ensures Takes(ms, w, p, [Commit(p)], At(w.(db := Committed(ms, w.db, i)), p, Scanning(i + 1, applied)))
  {
    TakesOne(ms, w, Commit(p), At(w.(db := Committed(ms, w.db, i)), p, Scanning(i + 1, applied)));
  }

  lemma ApplySteps(ms: seq<Migration>, w: World, p: nat, i: nat, applied: set<int>) returns (fs: seq<Event>)
    requires p in w.procs && w.procs[p] == Scanning(i, applied) && NoneInserted(w, p)
    requires i < |ms| && ms[i].id !in applied && ms[i].id !in w.db.recorded
    ensures Takes(ms, w, p, fs, At(w.(db := Committed(ms, w.db, i)), p, Scanning(i + 1, applied)))
  {
    var w2, w3 := At(w, p, Executed(i, applied)), At(w, p, Inserted(i, applied));
    var db := w.(db := Committed(ms, w.db, i));
    var w4 := At(db, p, Scanning(i + 1, applied));
    AtTwice(w, p, Executed(i, applied), Inserted(i, applied));
    AtTwice(db, p, Inserted(i, applied), Scanning(i + 1, applied));
    StepExec(ms, w, p, i, applied);
    StepInsert(ms, w2, p, i, applied);
    StepCommit(ms, w3, p, i, applied);
    fs := [Scan(p)] + [ExecUp(p)];
    TakesBoth(ms, w, p, fs, w2, [InsertRow(p)], w3);
    fs := fs + [InsertRow(p)];
    TakesBoth(ms, w, p, fs, w3, [Commit(p)], w4);
    fs := fs + [Commit(p)];
  }

  /** Undisturbed, process p takes the migration at its index from "to do" to "done". */
  lemma ScanOne(ms: seq<Migration>, w: World, p: nat, i: nat, applied: set<int>) returns (fs: seq<Event>, w': World)
    requires DistinctIds(ms) && Inv(ms, w) && NoneInserted(w, p) && Accurate(ms, w, p, i, applied)
    requires i < |ms|
    ensures Takes(ms, w, p, fs, w')
    ensures Inv(ms, w') && NoneInserted(w', p) && Accurate(ms, w', p, i + 1, applied)
  {
    assert PhaseInv(ms, w.db, w.procs[p]);
    RecordedIffLogged(ms, w.db, i);
    if ms[i].id in applied {
      fs, w' := [Scan(p)], At(w, p, Scanning(i + 1, applied));
      TakesOne(ms, w, Scan(p), w');
    } else {
      fs := ApplySteps(ms, w, p, i, applied);
      w' := At(w.(db := Committed(ms, w.db, i)), p, Scanning(i + 1, applied));
    }
    RunKeepsInv(ms, w, fs);
  }

  lemma {:induction false} FinishWorks(ms: seq<Migration>, w: World, p: nat, i: nat, applied: set<int>)
    returns (fs: seq<Event>, w': World)
    requires DistinctIds(ms) && Inv(ms, w) && NoneInserted(w, p) && Accurate(ms, w, p, i, applied)
    ensures Takes(ms, w, p, fs, w')
    ensures p in w'.procs && w'.procs[p].Done? && w'.db.log == Ids(ms)
    decreases |ms| - i
  {
    if i == |ms| {
      assert PhaseInv(ms, w.db, w.procs[p]);
      fs, w' := [Scan(p)], At(w, p, Done);
      TakesOne(ms, w, Scan(p), w');
    } else {
      var fs1, w1 := ScanOne(ms, w, p, i, applied);
      var fs2, w2 := FinishWorks(ms, w1, p, i + 1, applied);
      TakesBoth(ms, w, p, fs1, w1, fs2, w2);
      return fs1 + fs2, w2;
    }
  }

  /** A fresh process gets as far as reading the table, which then exists. */
  lemma StartReads(ms: seq<Migration>, w: World, p: nat) returns (fs: seq<Event>)
    requires p !in w.procs
    ensures Takes(ms, w, p, fs, At(w.(db := w.db.(table := true)), p, Reading))
  {
    var w1 := At(w, p, Checking);
    TakesOne(ms, w, Spawn(p), w1);
    var next := if w.db.table then Reading else Creating;
    var w2 := At(w, p, next);
    AtTwice(w, p, Checking, next);
    TakesOne(ms, w1, Check(p), w2);
    TakesBoth(ms, w, p, [Spawn(p)], w1, [Check(p)], w2);
    fs := [Spawn(p)] + [Check(p)];
    var db := w.(db := w.db.(table := true));
    var w3 := At(db, p, Reading);
    if !w.db.table {
      AtTwice(db, p, Creating, Reading);
      TakesOne(ms, w2, Create(p), w3);
      TakesBoth(ms, w, p, fs, w2, [Create(p)], w3);
      fs := fs + [Create(p)];
    }
  }

  /** A fresh process gets as far as its snapshot. */
  lemma StartWorks(ms: seq<Migration>, w: World, p: nat) returns (fs: seq<Event>, w': World)
    requires DistinctIds(ms) && Inv(ms, w) && p !in w.procs && NoneInserted(w, p)
    ensures Takes(ms, w, p, fs, w')
    ensures Inv(ms, w') && NoneInserted(w', p) && Accurate(ms, w', p, 0, w.db.recorded)
  {
    var db := w.(db := w.db.(table := true));
    var w3 := At(db, p, Reading);
    w' := At(db, p, Scanning(0, w.db.recorded));
    fs := StartReads(ms, w, p);
    AtTwice(db, p, Reading, Scanning(0, w.db.recorded));
    TakesOne(ms, w3, Read(p), w');
    TakesBoth(ms, w, p, fs, w3, [Read(p)], w');
    fs := fs + [Read(p)];
    RunKeepsInv(ms, w, fs);
    SnapshotAccurate(ms, w.db);
  }

  lemma SnapshotAccurate(ms: seq<Migration>, db: Db)
    requires DistinctIds(ms) && DbInv(ms, db)
    ensures forall j :: 0 <= j < |ms| ==> (ms[j].id in db.recorded <==> j < |db.log|)
  {
    forall j | 0 <= j < |ms|
      ensures ms[j].id in db.recorded <==> j < |db.log|
    {
      RecordedIffLogged(ms, db, j);
    }
  }

  /**
    Whatever happened before (failed starts, crashes, a table without rows), a
    new process that runs undisturbed returns nil and leaves every migration
    applied, provided no other transaction is still holding an inserted row.
   */
  lemma RestartCompletes(ms: seq<Migration>, w: World, es: seq<Event>, p: nat) returns (fs: seq<Event>)
    requires DistinctIds(ms) && Init(ms, w)
    requires p !in Run(ms, w, es).procs && NoneInserted(Run(ms, w, es), p)
    ensures forall f <- fs :: f.p == p
    ensures var w' := Run(ms, w, es + fs);
            p in w'.procs && w'.procs[p].Done? && w'.db.log == Ids(ms)
  {
    RunKeepsInv(ms, w, es);
    var w0 := Run(ms, w, es);
    var fs1, w1 := StartWorks(ms, w0, p);
    var fs2, w2 := FinishWorks(ms, w1, p, 0, w0.db.recorded);
    TakesBoth(ms, w0, p, fs1, w1, fs2, w2);
    fs := fs1 + fs2;
    RunConcat(ms, w, es, fs);
  }

  // ---------------------------------------------------------------------
  // The code, while other processes run
  // ---------------------------------------------------------------------

  lemma RunSnoc(ms: seq<Migration>, w: World, es: seq<Event>, e: Event)
    ensures Run(ms, w, es + [e]) == Do(ms, Run(ms, w, es), e)
  {
    assert (es + [e])[..|es|] == es;
  }

  /** A step of another process leaves process p where it stands. */
  lemma OthersLeave(ms: seq<Migration>, w: World, e: Event, p: nat)
    requires p in w.procs && e.p != p
    ensures p in Do(ms, w, e).procs && Do(ms, w, e).procs[p] == w.procs[p]
  {
  }

  /**
    The database server with everything connected to it. Each statement method
    below is one statement of process p: any number of steps of other processes
    come first, then the statement succeeds or fails. What it returns is all the
    code sees; `es` is what happened, as a run of the machine, and `faults` counts
    the statements that returned an error. When `quiet`, no other process takes a
    step and no statement fails but for a reason of its own.
   */
  class Database {
    const quiet: bool
    var world: World
    ghost var faults: nat

    constructor (quiet: bool, world: World)
      ensures this.quiet == quiet && this.world == world && faults == 0
    {
      this.quiet, this.world, this.faults := quiet, world, 0;
    }

    ghost predicate Stands(p: nat, ph: Phase)
      reads this
    {
      p in world.procs && world.procs[p] == ph
    }

    /** Any finite number of steps of any processes but p. */
    method Others(ms: seq<Migration>, p: nat) returns (ghost es: seq<Event>)
      requires p in world.procs
      modifies this`world
      ensures world == Run(ms, old(world), es)
      ensures Stands(p, old(world.procs[p]))
      ensures quiet ==> world == old(world)
    {
      es := [];
      var n: nat :| 0 <= n;
      for i := 0 to if quiet then 0 else n
        invariant world == Run(ms, old(world), es)
        invariant Stands(p, old(world.procs[p]))
        invariant quiet ==> world == old(world)
      {
        var e: Event := *;
        if e.p != p {
          RunSnoc(ms, old(world), es, e);
          OthersLeave(ms, world, e, p);
          world := Do(ms, world, e);
          es := es + [e];
        }
      }
    }

    /** Whether the server carries a statement out. */
    method Works() returns (ok: bool)
      ensures quiet ==> ok
    {
      ok := *;
      ok := ok || quiet;
    }

    /** One step of p itself, by a statement that succeeded or returned an error. */
    method Step(ms: seq<Migration>, e: Event, ok: bool, ghost before: World, ghost done: seq<Event>)
      returns (ghost es: seq<Event>)
      requires world == Run(ms, before, done)
      modifies this
      ensures world == Do(ms, old(world), e)
      ensures world == Run(ms, before, es)
      ensures faults == old(faults) + if ok then 0 else 1
    {
      RunSnoc(ms, before, done, e);
      world := Do(ms, world, e);
      es := done + [e];
      if !ok {
        faults := faults + 1;
      }
    }

    /** SELECT EXISTS ... information_schema.tables. */
    method TableExists(ms: seq<Migration>, p: nat) returns (ok: bool, found: bool, ghost es: seq<Event>)
      requires Stands(p, Checking)
      modifies this
      ensures world == Run(ms, old(world), es) && faults == old(faults) + if ok then 0 else 1
      ensures Stands(p, if !ok then Failed else if found then Reading else Creating)
      ensures quiet ==> ok && found == old(world).db.table && world == At(old(world), p, if found then Reading else Creating)
    {
      es := Others(ms, p);
      ok := Works();
      found := world.db.table;
      es := Step(ms, if ok then Check(p) else Fault(p), ok, old(world), es);
    }

    /** CREATE TABLE migrations: fails when another process has created it meanwhile. */
    method CreateTable(ms: seq<Migration>, p: nat) returns (ok: bool, ghost es: seq<Event>)
      requires Stands(p, Creating)
      modifies this
      ensures world == Run(ms, old(world), es) && faults == old(faults) + if ok then 0 else 1
      ensures Stands(p, if ok then Reading else Failed)
      ensures quiet ==> (ok <==> !old(world).db.table)
      ensures quiet && ok ==> world == At(old(world).(db := old(world).db.(table := true)), p, Reading)
    {
      es := Others(ms, p);
      ok := Works();
      ok := ok && !world.db.table;
      es := Step(ms, if ok then Create(p) else Fault(p), ok, old(world), es);
    }

    /** SELECT id, name FROM migrations. */
    method SelectIds(ms: seq<Migration>, p: nat) returns (ok: bool, ids: set<int>, ghost es: seq<Event>)
      requires Stands(p, Reading)
      modifies this
      ensures world == Run(ms, old(world), es) && faults == old(faults) + if ok then 0 else 1
      ensures Stands(p, if ok then Scanning(0, ids) else Failed)
      ensures quiet ==> ok && ids == old(world).db.recorded && world == At(old(world), p, Scanning(0, ids))
    {
      es := Others(ms, p);
      ok := Works();
      ids := world.db.recorded;
      es := Step(ms, if ok then Read(p) else Fault(p), ok, old(world), es);
    }

    /** The loop of initializeSchema moves on in p's own memory: past an applied migration, or off the end. */
    method MoveOn(ms: seq<Migration>, p: nat, i: nat, applied: set<int>) returns (ghost es: seq<Event>)
      requires Stands(p, Scanning(i, applied)) && (i < |ms| ==> ms[i].id in applied)
      modifies this
      ensures world == Run(ms, old(world), es) && faults == old(faults)
      ensures Stands(p, if i < |ms| then Scanning(i + 1, applied) else Done)
      ensures quiet ==> world == At(old(world), p, if i < |ms| then Scanning(i + 1, applied) else Done)
    {
      es := Others(ms, p);
      es := Step(ms, Scan(p), true, old(world), es);
    }

    method Begin(ms: seq<Migration>, p: nat, i: nat, applied: set<int>) returns (ok: bool, ghost es: seq<Event>)
      requires Stands(p, Scanning(i, applied)) && i < |ms| && ms[i].id !in applied
      modifies this
      ensures world == Run(ms, old(world), es) && faults == old(faults) + if ok then 0 else 1
      ensures Stands(p, if ok then Begun(i, applied) else Failed)
      ensures quiet ==> ok && world == At(old(world), p, Begun(i, applied))
    {
      es := Others(ms, p);
      ok := Works();
      es := Step(ms, if ok then Scan(p) else Fault(p), ok, old(world), es);
    }

    /** The migration's own SQL. */
    method ExecUpSQL(ms: seq<Migration>, p: nat, i: nat, applied: set<int>) returns (ok: bool, ghost es: seq<Event>)
      requires Stands(p, Begun(i, applied))
      modifies this
      ensures world == Run(ms, old(world), es) && faults == old(faults) + if ok then 0 else 1
      ensures Stands(p, if ok then Executed(i, applied) else Failed)
      ensures quiet ==> ok && world == At(old(world), p, Executed(i, applied))
    {
      es := Others(ms, p);
      ok := Works();
      es := Step(ms, if ok then ExecUp(p) else Fault(p), ok, old(world), es);
    }

    /**
      INSERT INTO migrations. It waits while another open transaction holds the
      id (the steps of the others come first); a wait that is cut short is an
      error, and so is an id that has been committed.
     */
    method InsertId(ms: seq<Migration>, p: nat, i: nat, applied: set<int>) returns (ok: bool, ghost es: seq<Event>)
      requires Stands(p, Executed(i, applied)) && i < |ms|
      modifies this
      ensures world == Run(ms, old(world), es) && faults == old(faults) + if ok then 0 else 1
      ensures Stands(p, if ok then Inserted(i, applied) else Failed)
      ensures quiet ==> (ok <==> !InsertBlocked(old(world), p, i) && ms[i].id !in old(world).db.recorded)
      ensures quiet && ok ==> world == At(old(world), p, Inserted(i, applied))
    {
      es := Others(ms, p);
      ok := Works();
      ok := ok && !InsertBlocked(world, p, i) && ms[i].id !in world.db.recorded;
      es := Step(ms, if ok then InsertRow(p) else Fault(p), ok, old(world), es);
    }

    /** COMMIT: it happens and is acknowledged, happens unacknowledged, or does not happen. */
    method CommitTransaction(ms: seq<Migration>, p: nat, i: nat, applied: set<int>) returns (ok: bool, ghost es: seq<Event>)
      requires Stands(p, Inserted(i, applied)) && i < |ms|
      modifies this
      ensures world == Run(ms, old(world), es) && faults == old(faults) + if ok then 0 else 1
      ensures Stands(p, if ok then Scanning(i + 1, applied) else Failed)
      ensures quiet ==> ok && world == At(old(world).(db := Committed(ms, old(world).db, i)), p, Scanning(i + 1, applied))
    {
      es := Others(ms, p);
      var happened := Works();
      ok := Works();
      ok := ok && happened;
      es := Step(ms, if ok then Commit(p) else if happened then CommitLost(p) else Fault(p), ok, old(world), es);
    }
  }

  /**
    applyMigration: begin, run the SQL, record the id, commit; any error rolls
    the transaction back. Process p ends ready for the next migration, or failed,
    and failed only because a statement was. Undisturbed it always gets through
    when the id is neither recorded nor held.
   */
  method ApplyMigration(db: Database, ms: seq<Migration>, p: nat, i: nat, applied: set<int>)
    returns (ok: bool, ghost es: seq<Event>)
    requires db.Stands(p, Scanning(i, applied)) && i < |ms| && ms[i].id !in applied
    modifies db
    ensures db.world == Run(ms, old(db.world), es)
    ensures db.Stands(p, if ok then Scanning(i + 1, applied) else Failed)
    ensures ok ==> db.faults == old(db.faults)
    ensures !ok ==> db.faults == old(db.faults) + 1
    ensures db.quiet && NoneInserted(old(db.world), p) && ms[i].id !in old(db.world).db.recorded ==>
              ok && db.world == At(old(db.world).(db := Committed(ms, old(db.world).db, i)), p, Scanning(i + 1, applied))
  {
    ghost var more: seq<Event>;
    ghost var was, db' := db.world, db.world.(db := Committed(ms, db.world.db, i));
    AtTwice(was, p, Begun(i, applied), Executed(i, applied));
    AtTwice(was, p, Executed(i, applied), Inserted(i, applied));
    AtTwice(db', p, Inserted(i, applied), Scanning(i + 1, applied));
    ok, es := db.Begin(ms, p, i, applied);
    if ok {
      ok, more := db.ExecUpSQL(ms, p, i, applied);
      RunConcat(ms, old(db.world), es, more);
      es := es + more;
    }
    if ok {
      ok, more := db.InsertId(ms, p, i, applied);
      RunConcat(ms, old(db.world), es, more);
      es := es + more;
    }
    if ok {
      ok, more := db.CommitTransaction(ms, p, i, applied);
      RunConcat(ms, old(db.world), es, more);
      es := es + more;
    }
  }

  /**
    createMigrationsTable and getAppliedMigrations: up to the snapshot of applied
    ids. Undisturbed they always get there, and the snapshot is exact.
   */
  method Snapshot(db: Database, ms: seq<Migration>, p: nat) returns (ok: bool, applied: set<int>, ghost es: seq<Event>)
    requires db.Stands(p, Checking)
    modifies db
    ensures db.world == Run(ms, old(db.world), es)
    ensures db.Stands(p, if ok then Scanning(0, applied) else Failed)
    ensures ok ==> db.faults == old(db.faults)
    ensures !ok ==> db.faults == old(db.faults) + 1
    ensures db.quiet ==>
              && ok && applied == old(db.world).db.recorded
              && db.world == At(old(db.world).(db := old(db.world).db.(table := true)), p, Scanning(0, applied))
  {
    applied := {};
    ghost var more: seq<Event>;
    ghost var was, db' := db.world, db.world.(db := db.world.db.(table := true));
    AtTwice(db', p, Creating, Reading);
    AtTwice(db', p, Reading, Scanning(0, was.db.recorded));
    assert was.db.table ==> db' == was;
    var found;
    ok, found, es := db.TableExists(ms, p);
    if ok && !found {
      ok, more := db.CreateTable(ms, p);
      RunConcat(ms, old(db.world), es, more);
      es := es + more;
    }
    if ok {
      ok, applied, more := db.SelectIds(ms, p);
      RunConcat(ms, old(db.world), es, more);
      es := es + more;
    }
  }

  /** Nothing but the statements themselves stands in p's way, and its snapshot is accurate from index i on. */
  ghost predicate Calm(ms: seq<Migration>, w: World, p: nat, i: nat, applied: set<int>) {
    NoneInserted(w, p) && Accurate(ms, w, p, i, applied)
  }

  lemma CalmStart(ms: seq<Migration>, w: World, p: nat)
    requires DistinctIds(ms) && DbInv(ms, w.db) && NoneInserted(w, p)
    ensures Calm(ms, At(w.(db := w.db.(table := true)), p, Scanning(0, w.db.recorded)), p, 0, w.db.recorded)
  {
    SnapshotAccurate(ms, w.db);
  }

  /** A migration that is not applied is not recorded either, and committing it keeps the snapshot accurate. */
  lemma CalmCommit(ms: seq<Migration>, w: World, p: nat, i: nat, applied: set<int>)
    requires DistinctIds(ms) && Inv(ms, w) && Calm(ms, w, p, i, applied) && i < |ms| && ms[i].id !in applied
    ensures ms[i].id !in w.db.recorded
    ensures Calm(ms, At(w.(db := Committed(ms, w.db, i)), p, Scanning(i + 1, applied)), p, i + 1, applied)
  {
    assert PhaseInv(ms, w.db, w.procs[p]);
    RecordedIffLogged(ms, w.db, i);
  }

  lemma CalmSkip(ms: seq<Migration>, w: World, p: nat, i: nat, applied: set<int>)
    requires Calm(ms, w, p, i, applied) && i < |ms|
    ensures Calm(ms, At(w, p, Scanning(i + 1, applied)), p, i + 1, applied)
  {
  }

  /**
    initializeSchema, run by process p while any other processes run, fail or
    crash between any two of its statements. Each execution is a run of the
    machine in which p ends in Done when the code returns nil and in Failed when
    it returns an error, which it does exactly when one of its statements did. So
    from a consistent world the database stays consistent, nothing committed is
    lost, and nil means that every migration is recorded, in order. Undisturbed it
    always returns nil, however much was applied before.
   */
  method InitializeSchema(db: Database, ms: seq<Migration>, p: nat) returns (ok: bool, ghost es: seq<Event>)
    requires db.Stands(p, Checking)
    modifies db
    ensures db.world == Run(ms, old(db.world), es)
    ensures db.Stands(p, if ok then Done else Failed)
    ensures ok <==> db.faults == old(db.faults)
    ensures DistinctIds(ms) && Inv(ms, old(db.world)) ==>
              && Inv(ms, db.world) && old(db.world).db.log <= db.world.db.log
              && (ok ==> db.world.db.log == Ids(ms))
    ensures db.quiet && DistinctIds(ms) && Inv(ms, old(db.world)) && NoneInserted(old(db.world), p) ==> ok
  {
    ghost var calm := db.quiet && DistinctIds(ms) && Inv(ms, db.world) && NoneInserted(db.world, p);
    if calm {
      CalmStart(ms, db.world, p);
    }
    var applied;
    ok, applied, es := Snapshot(db, ms, p);
    var i := 0;
    while ok && i < |ms|
      invariant 0 <= i <= |ms|
      invariant db.world == Run(ms, old(db.world), es)
      invariant db.Stands(p, if ok then Scanning(i, applied) else Failed)
      invariant ok <==> db.faults == old(db.faults)
      invariant calm ==> ok && Calm(ms, db.world, p, i, applied)
    {
      ghost var more: seq<Event>;
      if calm {
        RunKeepsInv(ms, old(db.world), es);
      }
      ok, more := Handle(db, ms, p, i, applied);
      RunConcat(ms, old(db.world), es, more);
      es := es + more;
      i := i + 1;
    }
    if ok {
      ghost var last := db.MoveOn(ms, p, i, applied);
      RunConcat(ms, old(db.world), es, last);
      es := es + last;
    }
    CodeIsSafe(ms, old(db.world), es, p);
  }

  /** One turn of the loop: apply the migration unless the snapshot has it. */
  method Handle(db: Database, ms: seq<Migration>, p: nat, i: nat, applied: set<int>) returns (ok: bool, ghost es: seq<Event>)
    requires db.Stands(p, Scanning(i, applied)) && i < |ms|
    modifies db
    ensures db.world == Run(ms, old(db.world), es)
    ensures db.Stands(p, if ok then Scanning(i + 1, applied) else Failed)
    ensures ok ==> db.faults == old(db.faults)
    ensures !ok ==> db.faults == old(db.faults) + 1
    ensures ms[i].id in applied ==> ok
    ensures db.quiet && DistinctIds(ms) && Inv(ms, old(db.world)) && Calm(ms, old(db.world), p, i, applied) ==>
              ok && Calm(ms, db.world, p, i + 1, applied)
  {
    ghost var calm := DistinctIds(ms) && Inv(ms, db.world) && Calm(ms, db.world, p, i, applied);
    if ms[i].id !in applied {
      if calm {
        CalmCommit(ms, db.world, p, i, applied);
      }
      ok, es := ApplyMigration(db, ms, p, i, applied);
    } else {
      if calm {
        CalmSkip(ms, db.world, p, i, applied);
      }
      es := db.MoveOn(ms, p, i, applied);
      ok := true;
    }
  }

  lemma CodeIsSafe(ms: seq<Migration>, w: World, es: seq<Event>, p: nat)
    ensures DistinctIds(ms) && Inv(ms, w) ==>
              var w' := Run(ms, w, es);
              && Inv(ms, w') && w.db.log <= w'.db.log
              && (p in w'.procs && w'.procs[p].Done? ==> w'.db.log == Ids(ms))
  {
    if DistinctIds(ms) && Inv(ms, w) {
      RunKeepsInv(ms, w, es);
      var w' := Run(ms, w, es);
      if p in w'.procs && w'.procs[p].Done? {
        assert PhaseInv(ms, w'.db, w'.procs[p]);
      }
    }
  }
}
