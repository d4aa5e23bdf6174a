/** What later verification can count on: over any sequence of rewrites, promotions and verification passes. */
module Rollback {
  import opened Evolution
  import opened Breaker
  import opened Wrappers

  // ---------- The life of a verification record ----------

  ghost predicate OnePerTarget(pending: seq<Pending>) {
    forall i, j :: 0 <= i < j < |pending| ==> pending[i].target != pending[j].target
  }

  lemma {:induction false} WithoutKeeps(pending: seq<Pending>, target: string)
    ensures forall p :: p in Without(pending, target) <==> p in pending && p.target != target
    ensures OnePerTarget(pending) ==> OnePerTarget(Without(pending, target))
  {
    if pending != [] {
      WithoutKeeps(pending[1..], target);
      var rest := Without(pending[1..], target);
      if OnePerTarget(pending) {
        forall j | 0 <= j < |rest| ensures rest[j].target != pending[0].target {
          assert rest[j] in pending[1..];
        }
      }
    }
  }

  /** How many records a pass settles before it ends: all of them, unless a reload raises first. */
  function Reached(cfg: Settings, w: World, o: Observations, rows: seq<Pending>): (n: nat)
    ensures n <= |rows|
    decreases |rows|
  {
    if rows == [] || Settled(cfg, w, o, rows[0]).1 then 0
    else 1 + Reached(cfg, Settled(cfg, w, o, rows[0]).0, o, rows[1..])
  }

  /** A pass removes exactly the records it reached and found settled; a record whose reload raises is kept, and so
      are the ones after it. */
  lemma {:induction false} RecordLife(cfg: Settings, w: World, o: Observations, rows: seq<Pending>, p: Pending)
    requires OnePerTarget(w.pending) && OnePerTarget(rows) && p in w.pending
    requires forall r :: r in rows ==> r in w.pending
    ensures p in SettledAll(cfg, w, o, rows).0.pending <==>
            p !in rows[..Reached(cfg, w, o, rows)] || VerdictOn(cfg, o, p).StillPending?
    decreases |rows|
  {
    hide VerdictOn, AfterUpdate, RollsBack, Without;
    if rows != [] && !Settled(cfg, w, o, rows[0]).1 {
      var w1, rest := Settled(cfg, w, o, rows[0]).0, rows[1..];
      var reached := rest[..Reached(cfg, w1, o, rest)];
      assert rows[..Reached(cfg, w, o, rows)] == [rows[0]] + reached;
      assert rows == [rows[0]] + rest;
      WithoutKeeps(w.pending, rows[0].target);
      SameTarget(w.pending, p, rows[0]);
      forall r | r in rest ensures r in w1.pending {
        assert r.target != rows[0].target;
      }
      if p in w1.pending {
        RecordLife(cfg, w1, o, rest, p);
      } else {
        SettledOnlyRemoves(cfg, w1, o, rest, p);
      }
    }
  }

  lemma {:induction false} SameTarget(pending: seq<Pending>, a: Pending, b: Pending)
    requires OnePerTarget(pending) && a in pending && b in pending
    ensures a.target == b.target ==> a == b
  {
  }

  lemma {:induction false} SettledOnlyRemoves(cfg: Settings, w: World, o: Observations, rows: seq<Pending>, p: Pending)
    requires p !in w.pending
    ensures p !in SettledAll(cfg, w, o, rows).0.pending
    decreases |rows|
  {
    if rows != [] {
      WithoutKeeps(w.pending, rows[0].target);
      if !Settled(cfg, w, o, rows[0]).1 {
        SettledOnlyRemoves(cfg, Settled(cfg, w, o, rows[0]).0, o, rows[1..], p);
      }
    }
  }

  // ---------- Sequences of operations ----------

  datatype Op =
    | Evolve(job: Job)
    | Promote(job: Job, src: Source, p: Promotion)
    | Process(o: Observations)

  function Apply(cfg: Settings, w: World, op: Op): World {
    match op
    case Evolve(job) => Evolved(cfg, w, job)
    case Promote(job, src, p) => Promoted(cfg, w, job, src, p)
    case Process(o) => Processed(cfg, w, o).0
  }

  function RunOps(cfg: Settings, w: World, ops: seq<Op>): World {
    if ops == [] then w else Apply(cfg, RunOps(cfg, w, ops[..|ops| - 1]), ops[|ops| - 1])
  }

  /** The operation writes the backup of `path` when started in `w`. */
  predicate BacksUpPath(cfg: Settings, w: World, op: Op, path: Path) {
    match op
    case Evolve(job) => job.path == path && cfg.backup && Tries(w.disk, job) && BacksUp(job.attempts)
    case Promote(job, _, _) => job.path == path && cfg.backup && path in w.disk
    case Process(_) => false
  }

  lemma {:induction false} ProcessKeepsBackups(cfg: Settings, w: World, o: Observations, rows: seq<Pending>)
    ensures SettledAll(cfg, w, o, rows).0.bak == w.bak
    ensures SettledAll(cfg, w, o, rows).0.disk.Keys == w.disk.Keys
    decreases |rows|
  {
    if rows != [] && !Settled(cfg, w, o, rows[0]).1 {
      ProcessKeepsBackups(cfg, Settled(cfg, w, o, rows[0]).0, o, rows[1..]);
    }
  }

  /** The source that was in place when the last operation to back up `path` began. */
  function LastBackedUp(cfg: Settings, w: World, ops: seq<Op>, path: Path): Source {
    if ops == [] then SourceOf(w.bak, path)
    else
      var front := ops[..|ops| - 1];
      var before := RunOps(cfg, w, front);
      if BacksUpPath(cfg, before, ops[|ops| - 1], path) then SourceOf(before.disk, path)
      else LastBackedUp(cfg, w, front, path)
  }

  lemma {:induction false} BackupIsLastBackedUp(cfg: Settings, w: World, ops: seq<Op>, path: Path)
    ensures SourceOf(RunOps(cfg, w, ops).bak, path) == LastBackedUp(cfg, w, ops, path)
    ensures path in w.bak ==> path in RunOps(cfg, w, ops).bak
    ensures path in w.disk ==> path in RunOps(cfg, w, ops).disk
  {
    if ops != [] {
      var front, op := ops[..|ops| - 1], ops[|ops| - 1];
      BackupIsLastBackedUp(cfg, w, front, path);
      if op.Process? {
        var before := RunOps(cfg, w, front);
        ProcessKeepsBackups(cfg, before, op.o, Batch(before.pending));
      }
    }
  }

  predicate Quiet(ops: seq<Op>, path: Path) {
    forall i :: 0 <= i < |ops| ==> ops[i].Process? || ops[i].job.path != path
  }

  lemma {:induction false} QuietKeepsLast(cfg: Settings, w: World, ops: seq<Op>, path: Path)
    requires Quiet(ops, path)
    ensures LastBackedUp(cfg, w, ops, path) == SourceOf(w.bak, path)
  {
    if ops != [] {
      QuietKeepsLast(cfg, w, ops[..|ops| - 1], path);
    }
  }

  // ---------- The verification pass ----------

  /** A pass comes to the record and finds it regressed, with its file and a backup at hand. */
  predicate RollsBackAt(cfg: Settings, w: World, o: Observations, k: nat) {
    var rows := Batch(w.pending);
    && k < |rows| && k <= Reached(cfg, w, o, rows)
    && VerdictOn(cfg, o, rows[k]).Regressed? && RollsBack(cfg, w, rows[k])
  }

  /** A file that equals its backup stays so, whatever else the pass settles. */
  lemma {:induction false} RestoredStays(cfg: Settings, w: World, o: Observations, rows: seq<Pending>, path: Path)
    requires path in w.disk && path in w.bak && w.disk[path] == w.bak[path]
    ensures path in SettledAll(cfg, w, o, rows).0.disk && SettledAll(cfg, w, o, rows).0.disk[path] == w.bak[path]
    decreases |rows|
  {
    hide VerdictOn, AfterUpdate, Without;
    if rows != [] && !Settled(cfg, w, o, rows[0]).1 {
      RestoredStays(cfg, Settled(cfg, w, o, rows[0]).0, o, rows[1..], path);
    }
  }

  /** The file of a record the pass rolls back holds its backup when the pass ends, even if the reload raises. */
  lemma {:induction false} RolledBack(cfg: Settings, w: World, o: Observations, rows: seq<Pending>, k: nat)
    requires k < |rows| && k <= Reached(cfg, w, o, rows)
    requires VerdictOn(cfg, o, rows[k]).Regressed? && RollsBack(cfg, w, rows[k])
    ensures rows[k].path in SettledAll(cfg, w, o, rows).0.disk
    ensures SettledAll(cfg, w, o, rows).0.disk[rows[k].path] == w.bak[rows[k].path]
    decreases |rows|
  {
    hide VerdictOn, AfterUpdate, Without;
    var (w1, raised) := Settled(cfg, w, o, rows[0]);
    if k == 0 {
      if !raised {
        RestoredStays(cfg, w1, o, rows[1..], rows[0].path);
      }
    } else {
      RolledBack(cfg, w1, o, rows[1..], k - 1);
    }
  }

  /** The pass comes to a record that is condemned, with its file and a backup at hand. */
  ghost predicate RestoredBy(cfg: Settings, w: World, o: Observations, rows: seq<Pending>, k: nat, path: Path) {
    && k < |rows| && k <= Reached(cfg, w, o, rows) && rows[k].path == path
    && Condemned(cfg, o, rows[k]) && cfg.autoRollback && path in w.bak
  }

  /** After a pass a file holds its backup if such a record names it, and otherwise what it held before. */
  lemma {:induction false} FileAfterPass(cfg: Settings, w: World, o: Observations, rows: seq<Pending>, path: Path)
    requires path in w.disk
    ensures path in SettledAll(cfg, w, o, rows).0.disk
    ensures SettledAll(cfg, w, o, rows).0.disk[path] ==
            if exists k: nat :: RestoredBy(cfg, w, o, rows, k, path) then w.bak[path] else w.disk[path]
    decreases |rows|
  {
    hide VerdictOn, AfterUpdate, Without, Condemned;
    ProcessKeepsBackups(cfg, w, o, rows);
    if k: nat :| RestoredBy(cfg, w, o, rows, k, path) {
      VerdictExactly(cfg, o, rows[k]);
      RolledBack(cfg, w, o, rows, k);
    } else if rows != [] {
      VerdictExactly(cfg, o, rows[0]);
      var (w1, raised) := Settled(cfg, w, o, rows[0]);
      assert !RestoredBy(cfg, w, o, rows, 0, path);
      assert w1.disk[path] == w.disk[path] && w1.bak == w.bak;
      if !raised {
        forall k: nat ensures !RestoredBy(cfg, w1, o, rows[1..], k, path) {
          assert !RestoredBy(cfg, w, o, rows, k + 1, path);
        }
        FileAfterPass(cfg, w1, o, rows[1..], path);
      }
    }
  }

  /** One success of the tool since its rewrite is enough: the pass does not touch the file on that record's account. */
  lemma {:induction false} SuccessSpares(cfg: Settings, w: World, o: Observations, path: Path)
    requires path in w.disk
    requires forall p :: p in w.pending && p.path == path ==>
               exists i :: 0 <= i < |o.runs| && SuccessOf(p.target, p.since)(o.runs[i])
    ensures path in Processed(cfg, w, o).0.disk && Processed(cfg, w, o).0.disk[path] == w.disk[path]
  {
    var rows := Batch(w.pending);
    FileAfterPass(cfg, w, o, rows, path);
    forall k: nat | k < |rows| && rows[k].path == path ensures !Condemned(cfg, o, rows[k]) {
      assert rows[k] in w.pending;
    }
  }

  /** A record the pass comes to stays exactly while too few runs of its target have been recorded. */
  lemma {:induction false} RecordKeptExactly(cfg: Settings, w: World, o: Observations, k: nat)
    requires OnePerTarget(w.pending) && k < Reached(cfg, w, o, Batch(w.pending))
    ensures Batch(w.pending)[k] in Processed(cfg, w, o).0.pending <==> Undecided(cfg, o, Batch(w.pending)[k])
  {
    var rows := Batch(w.pending);
    assert rows[k] in rows[..Reached(cfg, w, o, rows)];
    RecordLife(cfg, w, o, rows, rows[k]);
    VerdictExactly(cfg, o, rows[k]);
  }

  /** The pass up to record `k`. */
  function Through(cfg: Settings, w: World, o: Observations, rows: seq<Pending>, k: nat): World
    requires k <= |rows|
  {
    SettledAll(cfg, w, o, rows[..k]).0
  }

  lemma {:induction false} ThroughStep(cfg: Settings, w: World, o: Observations, rows: seq<Pending>, k: nat)
    requires k < Reached(cfg, w, o, rows)
    ensures !SettledAll(cfg, w, o, rows[..k]).1
    ensures Through(cfg, w, o, rows, k + 1) == Settled(cfg, Through(cfg, w, o, rows, k), o, rows[k]).0
    decreases |rows|
  {
    hide Settled;
    if k == 0 {
      assert rows[..1][1..] == [];
      var w1 := Settled(cfg, w, o, rows[0]).0;
      assert SettledAll(cfg, w1, o, []) == (w1, false);
    } else {
      var w1 := Settled(cfg, w, o, rows[0]).0;
      ThroughStep(cfg, w1, o, rows[1..], k - 1);
      assert rows[..k][1..] == rows[1..][..k - 1] && rows[..k + 1][1..] == rows[1..][..k];
    }
  }

  /** What a record the pass comes to adds to the breaker: nothing while it is undecided, a failure exactly when it is
      condemned, and otherwise a success. */
  lemma {:induction false} FailureCountedExactly(cfg: Settings, w: World, o: Observations, rows: seq<Pending>, k: nat)
    requires k < Reached(cfg, w, o, rows)
    ensures Through(cfg, w, o, rows, k + 1).facts ==
            if Undecided(cfg, o, rows[k]) then Through(cfg, w, o, rows, k).facts
            else AfterUpdate(Through(cfg, w, o, rows, k).facts, cfg.breaker, rows[k].target,
                             !Condemned(cfg, o, rows[k]), o.now)
  {
    hide AfterUpdate, VerdictOn, Condemned, Undecided, SettledAll;
    ThroughStep(cfg, w, o, rows, k);
    VerdictExactly(cfg, o, rows[k]);
    NotRaised(cfg, w, o, rows, k);
  }

  lemma {:induction false} NotRaised(cfg: Settings, w: World, o: Observations, rows: seq<Pending>, k: nat)
    requires k < Reached(cfg, w, o, rows)
    ensures !Settled(cfg, Through(cfg, w, o, rows, k), o, rows[k]).1
    decreases |rows|
  {
    hide Settled;
    if k == 0 {
      assert rows[..0] == [];
    } else {
      NotRaised(cfg, Settled(cfg, w, o, rows[0]).0, o, rows[1..], k - 1);
      assert rows[..k][1..] == rows[1..][..k - 1];
    }
  }

  /** A regressed verdict with rollback on restores what was in place when the last attempt on that file began,
      whichever tool made it and whether or not it succeeded. */
  lemma {:induction false} RollbackRestores(cfg: Settings, w: World, ops: seq<Op>, o: Observations, k: nat)
    requires RollsBackAt(cfg, RunOps(cfg, w, ops), o, k)
    ensures var later := RunOps(cfg, w, ops);
            var path := Batch(later.pending)[k].path;
            && path in Processed(cfg, later, o).0.disk
            && Processed(cfg, later, o).0.disk[path] == LastBackedUp(cfg, w, ops, path)
  {
    var later := RunOps(cfg, w, ops);
    BackupIsLastBackedUp(cfg, w, ops, Batch(later.pending)[k].path);
    RolledBack(cfg, later, o, Batch(later.pending), k);
  }

  /** With no other attempt on the file in between, a rewrite that regresses is undone exactly: after the pass the file
      is back at its source before the rewrite. */
  lemma {:induction false} QuietRollbackUndoes(cfg: Settings, w: World, job: Job, ops: seq<Op>, o: Observations, k: nat)
    requires cfg.backup && Succeeds(cfg, w.disk, job) && Quiet(ops, job.path)
    requires var later := RunOps(cfg, Evolved(cfg, w, job), ops);
             RollsBackAt(cfg, later, o, k) && Batch(later.pending)[k].path == job.path
    ensures var later := RunOps(cfg, Evolved(cfg, w, job), ops);
            && job.path in Processed(cfg, later, o).0.disk
            && Processed(cfg, later, o).0.disk[job.path] == w.disk[job.path]
  {
    var w1 := Evolved(cfg, w, job);
    assert job.attempts[Decisive(job.attempts)].ReachesBackup();
    assert w1.bak == w.bak[job.path := w.disk[job.path]];
    RollbackRestores(cfg, w1, ops, o, k);
    QuietKeepsLast(cfg, w1, ops, job.path);
  }

  /** The same for a candidate promoted over an existing source. */
  lemma {:induction false} QuietRollbackUndoesPromotion(cfg: Settings, w: World, job: Job, src: Source,
                                                        answers: Promotion, ops: seq<Op>, o: Observations, k: nat)
    requires cfg.backup && job.path in w.disk && Quiet(ops, job.path)
    requires var later := RunOps(cfg, Promoted(cfg, w, job, src, answers), ops);
             RollsBackAt(cfg, later, o, k) && Batch(later.pending)[k].path == job.path
    ensures var later := RunOps(cfg, Promoted(cfg, w, job, src, answers), ops);
            && job.path in Processed(cfg, later, o).0.disk
            && Processed(cfg, later, o).0.disk[job.path] == w.disk[job.path]
  {
    var w1 := Promoted(cfg, w, job, src, answers);
    assert w1.bak == w.bak[job.path := w.disk[job.path]];
    RollbackRestores(cfg, w1, ops, o, k);
    QuietKeepsLast(cfg, w1, ops, job.path);
  }

  /** One further attempt on the file, by any tool that shares it, is enough to lose the way back: once its reply
      compiles, the backup holds the rewritten source, and the rollback "restores" the very source that regressed. */
  lemma {:induction false} FurtherAttemptLosesOriginal(cfg: Settings, w: World, job: Job, other: Job, o: Observations,
                                                       k: nat)
    requires cfg.backup && Succeeds(cfg, w.disk, job) && other.path == job.path
    requires Tries(Evolved(cfg, w, job).disk, other) && BacksUp(other.attempts)
    requires !Succeeds(cfg, Evolved(cfg, w, job).disk, other)
    requires var later := Evolved(cfg, Evolved(cfg, w, job), other);
             RollsBackAt(cfg, later, o, k) && Batch(later.pending)[k].path == job.path
    ensures var w1 := Evolved(cfg, w, job);
            var later := Evolved(cfg, w1, other);
            && later.disk == w1.disk
            && job.path in Processed(cfg, later, o).0.disk
            && Processed(cfg, later, o).0.disk[job.path] == w1.disk[job.path]
            && (Processed(cfg, later, o).0.disk[job.path] == w.disk[job.path] <==>
                w1.disk[job.path] == w.disk[job.path])
  {
    var w1 := Evolved(cfg, w, job);
    var later := Evolved(cfg, w1, other);
    assert later.bak[job.path] == w1.disk[job.path];
    RolledBack(cfg, later, o, Batch(later.pending), k);
  }

  // ---------- The life of a record over a run ----------

  /** The record the operation writes when started in `w`, if it writes one. */
  function NewRecord(cfg: Settings, w: World, op: Op): Option<Pending> {
    match op
    case Process(_) => None
    case Evolve(job) =>
      var d := Decisive(job.attempts);
      if Tries(w.disk, job) && d < |job.attempts| && Records(cfg, job, job.attempts[d])
      then Some(Pending(job.target, job.path, job.now, job.baseline)) else None
    case Promote(job, _, p) =>
      if p.reload.Registered? && job.withContext && cfg.backup && p.recordOk
         && (job.path in w.disk || job.path in w.bak)
      then Some(Pending(job.target, job.path, job.now, job.baseline)) else None
  }

  /** The operation leaves the record in place: it writes no other one for the target, and a pass does not come to it
      or cannot judge it yet. */
  predicate Spares(cfg: Settings, w: World, op: Op, p: Pending) {
    match op
    case Process(o) =>
      var rows := Batch(w.pending);
      p !in rows[..Reached(cfg, w, o, rows)] || VerdictOn(cfg, o, p).StillPending?
    case _ =>
      var rec := NewRecord(cfg, w, op);
      rec.Some? && rec.value.target == p.target ==> rec.value == p
  }

  lemma {:induction false} OneStep(cfg: Settings, w: World, op: Op, p: Pending)
    requires OnePerTarget(w.pending) && p in w.pending
    ensures p in Apply(cfg, w, op).pending <==> Spares(cfg, w, op, p)
  {
    match op
    case Process(o) =>
      BatchRows(w.pending);
      RecordLife(cfg, w, o, Batch(w.pending), p);
    case Evolve(job) => WithoutKeeps(w.pending, job.target);
    case Promote(job, _, _) => WithoutKeeps(w.pending, job.target);
  }

  lemma {:induction false} BatchRows(pending: seq<Pending>)
    requires OnePerTarget(pending)
    ensures OnePerTarget(Batch(pending)) && forall r :: r in Batch(pending) ==> r in pending
  {
  }

  lemma {:induction false} StepKeepsOnePerTarget(cfg: Settings, w: World, op: Op)
    requires OnePerTarget(w.pending)
    ensures OnePerTarget(Apply(cfg, w, op).pending)
  {
    match op
    case Process(o) => SettledKeepsOnePerTarget(cfg, w, o, Batch(w.pending));
    case Evolve(job) => RecordedOnePerTarget(w.pending, job);
    case Promote(job, _, _) => RecordedOnePerTarget(w.pending, job);
  }

  lemma {:induction false} RecordedOnePerTarget(pending: seq<Pending>, job: Job)
    requires OnePerTarget(pending)
    ensures OnePerTarget(Recorded(pending, job))
  {
    WithoutKeeps(pending, job.target);
    var rest := Without(pending, job.target);
    forall j | 0 <= j < |rest| ensures rest[j].target != job.target {
      assert rest[j] in rest;
    }
  }

  lemma {:induction false} SettledKeepsOnePerTarget(cfg: Settings, w: World, o: Observations, rows: seq<Pending>)
    requires OnePerTarget(w.pending)
    ensures OnePerTarget(SettledAll(cfg, w, o, rows).0.pending)
    decreases |rows|
  {
    if rows != [] {
      WithoutKeeps(w.pending, rows[0].target);
      if !Settled(cfg, w, o, rows[0]).1 {
        SettledKeepsOnePerTarget(cfg, Settled(cfg, w, o, rows[0]).0, o, rows[1..]);
      }
    }
  }

  /** The record is there after each of the operations so far. */
  ghost predicate Survives(cfg: Settings, w: World, ops: seq<Op>, p: Pending) {
    forall i :: 0 <= i <= |ops| ==> p in RunOps(cfg, w, ops[..i]).pending
  }

  /** Each operation, started where the ones before it left off, leaves the record in place. */
  ghost predicate AllSpare(cfg: Settings, w: World, ops: seq<Op>, p: Pending) {
    forall i :: 0 <= i < |ops| ==> Spares(cfg, RunOps(cfg, w, ops[..i]), ops[i], p)
  }

  /** Over any sequence of operations a record survives exactly as long as each of them spares it. */
  lemma {:induction false} RecordLifeOverRun(cfg: Settings, w: World, ops: seq<Op>, p: Pending)
    requires OnePerTarget(w.pending) && p in w.pending
    ensures OnePerTarget(RunOps(cfg, w, ops).pending)
    ensures Survives(cfg, w, ops, p) <==> AllSpare(cfg, w, ops, p)
  {
    if ops == [] {
      assert ops[..0] == [];
    } else {
      var front, op := ops[..|ops| - 1], ops[|ops| - 1];
      RecordLifeOverRun(cfg, w, front, p);
      assert RunOps(cfg, w, ops) == Apply(cfg, RunOps(cfg, w, front), op);
      SurvivesFront(cfg, w, ops, p);
      AllSpareFront(cfg, w, ops, p);
      SurvivesLast(cfg, w, front, p);
      hide *;
      StepKeepsOnePerTarget(cfg, RunOps(cfg, w, front), op);
      if Survives(cfg, w, front, p) {
        OneStep(cfg, RunOps(cfg, w, front), op, p);
      }
    }
  }

  lemma {:induction false} SurvivesLast(cfg: Settings, w: World, ops: seq<Op>, p: Pending)
    ensures Survives(cfg, w, ops, p) ==> p in RunOps(cfg, w, ops).pending
  {
    hide RunOps;
    assert ops[..|ops|] == ops;
  }

  lemma {:induction false} AllSpareFront(cfg: Settings, w: World, ops: seq<Op>, p: Pending)
    requires ops != []
    ensures var front, op := ops[..|ops| - 1], ops[|ops| - 1];
            AllSpare(cfg, w, ops, p) <==> AllSpare(cfg, w, front, p) && Spares(cfg, RunOps(cfg, w, front), op, p)
  {
    hide RunOps, Spares;
    var n := |ops| - 1;
    var front := ops[..n];
    assert forall i :: 0 <= i < n ==> front[..i] == ops[..i] && front[i] == ops[i];
    if AllSpare(cfg, w, ops, p) {
      forall i | 0 <= i < n ensures Spares(cfg, RunOps(cfg, w, front[..i]), front[i], p) {
        assert Spares(cfg, RunOps(cfg, w, ops[..i]), ops[i], p);
      }
      assert Spares(cfg, RunOps(cfg, w, ops[..n]), ops[n], p);
    }
    if AllSpare(cfg, w, front, p) && Spares(cfg, RunOps(cfg, w, front), ops[n], p) {
      forall i | 0 <= i < |ops| ensures Spares(cfg, RunOps(cfg, w, ops[..i]), ops[i], p) {
        if i < n {
          assert Spares(cfg, RunOps(cfg, w, front[..i]), front[i], p);
        }
      }
    }
  }

  lemma {:induction false} SurvivesFront(cfg: Settings, w: World, ops: seq<Op>, p: Pending)
    requires ops != []
    ensures Survives(cfg, w, ops, p) <==> Survives(cfg, w, ops[..|ops| - 1], p) && p in RunOps(cfg, w, ops).pending
  {
    hide RunOps;
    var front := ops[..|ops| - 1];
    assert ops[..|ops|] == ops;
    assert forall i :: 0 <= i <= |front| ==> front[..i] == ops[..i];
    if Survives(cfg, w, ops, p) {
      forall i | 0 <= i <= |front| ensures p in RunOps(cfg, w, front[..i]).pending {
        assert p in RunOps(cfg, w, ops[..i]).pending;
      }
      assert p in RunOps(cfg, w, ops[..|ops|]).pending;
    }
    if Survives(cfg, w, front, p) && p in RunOps(cfg, w, ops).pending {
      forall i | 0 <= i <= |ops| ensures p in RunOps(cfg, w, ops[..i]).pending {
        if i < |ops| {
          assert p in RunOps(cfg, w, front[..i]).pending;
        }
      }
    }
  }
}
