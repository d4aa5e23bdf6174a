/** `core/evolution/tool.py`, `smoke.py`, `types.py`: rewriting a tool's source, and verifying the rewrite later.
    The files, the backups and the facts are state; what the language model, the smoke test, the reload and the
    whole-tree parse answer is input. */
module Evolution {
  import opened Breaker
  import opened Text
  import opened Wrappers

  type Path = string
  type Source = string

  datatype Metrics = Metrics(failures: nat, runs: nat, successes: nat)

  /** A pending-verification fact. The backup file it names is the one kept for `path`. */
  datatype Pending = Pending(target: string, path: Path, since: int, baseline: Metrics)

  /** Tool sources, their single `.py.bak` copies, pending verifications (newest first), and breaker facts. */
  datatype World = World(disk: map<Path, Source>, bak: map<Path, Source>, pending: seq<Pending>, facts: Table)

  /** `competitive`: more than one candidate is asked for. */
  datatype Settings = Settings(maxAttempts: nat, backup: bool, competitive: bool, verifyMinRuns: nat,
                               autoRollback: bool, breaker: Config)

  // ---------- One attempt of evolve_tool ----------

  datatype Compiles = Compiled | SyntaxFault | OtherFault
  datatype Reply = ChatRaised | Code(src: Source, compiles: Compiles)
  datatype Reload = Registered | NotRegistered | ReloadRaised
  datatype Tree = AllParse | SomeBroken | ScanRaised

  /** What the outside answers during one attempt; `reloadBack` is the reload of the restored source. */
  datatype Attempt = Attempt(reply: Reply, smokeOk: bool, reload: Reload, reloadBack: bool, tree: Tree,
                             recordOk: bool, dreamsOk: bool)
  {
    /** The reply compiled, so the attempt overwrote the backup before anything else could fail. */
    predicate ReachesBackup() {
      reply.Code? && reply.compiles.Compiled?
    }

    predicate Passes() {
      ReachesBackup() && smokeOk && reload.Registered? && tree.AllParse?
    }

    /** Ends in `continue`: the next attempt, if any, follows. */
    predicate Retries() {
      reply.Code? && (reply.compiles.SyntaxFault?
        || (reply.compiles.Compiled? && (!smokeOk || (reload.Registered? && tree.SomeBroken? && reloadBack))))
    }
  }

  /** The whole of what evolve_tool is told: who asks, and the attempts' answers. */
  datatype Job = Job(target: string, path: Path, blocked: bool, withContext: bool, now: int, baseline: Metrics,
                     attempts: seq<Attempt>)

  function Without(pending: seq<Pending>, target: string): seq<Pending> {
    if pending == [] then []
    else (if pending[0].target == target then [] else [pending[0]]) + Without(pending[1..], target)
  }

  /** Writing the fact `evolution:verify:<target>`. */
  function Recorded(pending: seq<Pending>, job: Job): seq<Pending> {
    [Pending(job.target, job.path, job.now, job.baseline)] + Without(pending, job.target)
  }

  /** The attempt that decides: the first that does not end in a retry, if there is one. */
  function Decisive(attempts: seq<Attempt>): (d: nat)
    ensures d <= |attempts| && (d < |attempts| ==> !attempts[d].Retries())
    ensures forall k :: 0 <= k < d ==> attempts[k].Retries()
  {
    if attempts == [] || !attempts[0].Retries() then 0 else 1 + Decisive(attempts[1..])
  }

  /** Some attempt that is made, up to the deciding one, overwrites the backup. */
  predicate BacksUp(attempts: seq<Attempt>) {
    exists k :: 0 <= k < |attempts| && k <= Decisive(attempts) && attempts[k].ReachesBackup()
  }

  /** There is a current source to fall back to, and the target may be rewritten. */
  predicate Tries(disk: map<Path, Source>, job: Job) {
    !job.blocked && job.path in disk && disk[job.path] != ""
  }

  /** The attempt hands the new source over to later verification. */
  predicate Records(cfg: Settings, job: Job, a: Attempt) {
    a.Passes() && job.withContext && cfg.backup && a.recordOk
  }

  predicate Wins(cfg: Settings, job: Job, a: Attempt) {
    a.Passes() && (job.withContext && cfg.backup ==> a.recordOk) && a.dreamsOk
  }

  predicate Succeeds(cfg: Settings, disk: map<Path, Source>, job: Job) {
    var d := Decisive(job.attempts);
    Tries(disk, job) && d < |job.attempts| && Wins(cfg, job, job.attempts[d])
  }

  /** All-or-nothing, with the exact condition for success. A failure leaves at most two traces: the backup holds
      the source on entry, and a verification record may have been written. */
  function Evolved(cfg: Settings, w: World, job: Job): World {
    var d := Decisive(job.attempts);
    if !Tries(w.disk, job) then w
    else
      World(
        if Succeeds(cfg, w.disk, job) then w.disk[job.path := job.attempts[d].reply.src] else w.disk,
        if cfg.backup && BacksUp(job.attempts) then w.bak[job.path := w.disk[job.path]] else w.bak,
        if d < |job.attempts| && Records(cfg, job, job.attempts[d]) then Recorded(w.pending, job) else w.pending,
        w.facts)
  }

  /** A reply with source that compiled, ran, was registered on reload and left the whole tree parsing. */
  predicate Sound(a: Attempt) {
    a.reply.Code? && a.reply.compiles.Compiled? && a.smokeOk && a.reload.Registered? && a.tree.AllParse?
  }

  /** Another attempt follows: the reply has a syntax fault, or it compiled and then failed the smoke test, or it was
      taken back because some file no longer parses. */
  predicate TakenBack(a: Attempt) {
    a.reply.Code?
    && if a.reply.compiles.Compiled? then a.smokeOk ==> a.reload.Registered? && a.tree.SomeBroken? && a.reloadBack
       else a.reply.compiles.SyntaxFault?
  }

  /** Attempt `k` is made: all before it were taken back. */
  predicate IsMade(attempts: seq<Attempt>, k: int) {
    0 <= k < |attempts| && forall j :: 0 <= j < k ==> TakenBack(attempts[j])
  }

  lemma {:induction false} MadeExactly(attempts: seq<Attempt>, k: nat)
    ensures IsMade(attempts, k) <==> k < |attempts| && k <= Decisive(attempts)
    ensures k < |attempts| ==> (TakenBack(attempts[k]) <==> attempts[k].Retries())
  {
    forall j | 0 <= j < |attempts| ensures TakenBack(attempts[j]) <==> attempts[j].Retries() {
    }
    var d := Decisive(attempts);
    if d < k < |attempts| {
      assert !TakenBack(attempts[d]);
    }
  }

  /** Attempt `k` compiled, passed the smoke test, was registered on reload, left the tree parsing, and the record (if
      one is due) and the dream entry were written. */
  predicate WinsAt(job: Job, backup: bool, k: int)
    requires 0 <= k < |job.attempts|
  {
    var a := job.attempts[k];
    && a.reply.Code? && a.reply.compiles.Compiled? && a.smokeOk && a.reload.Registered? && a.tree.AllParse?
    && (job.withContext && backup ==> a.recordOk) && a.dreamsOk
  }

  lemma {:induction false} SucceedsExactly(cfg: Settings, disk: map<Path, Source>, job: Job)
    ensures Succeeds(cfg, disk, job) <==>
            && !job.blocked && job.path in disk && disk[job.path] != ""
            && exists k :: IsMade(job.attempts, k) && WinsAt(job, cfg.backup, k)
    ensures forall k :: IsMade(job.attempts, k) && WinsAt(job, cfg.backup, k) ==> k == Decisive(job.attempts)
  {
    forall k | 0 <= k < |job.attempts|
      ensures IsMade(job.attempts, k) <==> k <= Decisive(job.attempts)
      ensures TakenBack(job.attempts[k]) <==> job.attempts[k].Retries()
    {
      MadeExactly(job.attempts, k);
    }
    var d := Decisive(job.attempts);
    if d < |job.attempts| && Wins(cfg, job, job.attempts[d]) {
      assert IsMade(job.attempts, d) && WinsAt(job, cfg.backup, d);
    }
  }

  /** What a rewrite leaves behind, by what the outside answered. The source on disk is that of a sound attempt for
      which everything after the tree's parse succeeded too; where there is none, every file is as on entry. */
  lemma {:induction false} EvolvedExactly(cfg: Settings, w: World, job: Job, k: nat)
    requires IsMade(job.attempts, k) && !TakenBack(job.attempts[k])
    ensures var a, after := job.attempts[k], Evolved(cfg, w, job);
            var starts := !job.blocked && job.path in w.disk && w.disk[job.path] != "";
            var recorded := starts && Sound(a) && job.withContext && cfg.backup;
            && (Succeeds(cfg, w.disk, job) <==> starts && Sound(a) && (recorded ==> a.recordOk) && a.dreamsOk)
            && after.disk == (if Succeeds(cfg, w.disk, job) then w.disk[job.path := a.reply.src] else w.disk)
            && after.pending == (if recorded && a.recordOk then Recorded(w.pending, job) else w.pending)
            && after.facts == w.facts
  {
    MadeExactly(job.attempts, k);
    assert k == Decisive(job.attempts);
  }

  /** With every attempt taken back nothing changes but the backup. */
  lemma {:induction false} AllTakenBack(cfg: Settings, w: World, job: Job)
    requires forall k :: 0 <= k < |job.attempts| ==> TakenBack(job.attempts[k])
    ensures !Succeeds(cfg, w.disk, job)
    ensures Evolved(cfg, w, job) == w.(bak := Evolved(cfg, w, job).bak)
  {
    MadeExactly(job.attempts, Decisive(job.attempts));
  }

  /** The backup holds the source on entry once some attempt that was made had compiled. */
  lemma {:induction false} BackedUpExactly(cfg: Settings, w: World, job: Job)
    ensures Evolved(cfg, w, job).bak ==
            if !job.blocked && job.path in w.disk && w.disk[job.path] != "" && cfg.backup
               && exists k :: IsMade(job.attempts, k) && job.attempts[k].reply.Code?
                              && job.attempts[k].reply.compiles.Compiled?
            then w.bak[job.path := w.disk[job.path]] else w.bak
  {
    forall k | 0 <= k < |job.attempts| ensures IsMade(job.attempts, k) <==> k <= Decisive(job.attempts) {
      MadeExactly(job.attempts, k);
    }
    if BacksUp(job.attempts) {
      var k :| 0 <= k < |job.attempts| && k <= Decisive(job.attempts) && job.attempts[k].ReachesBackup();
      assert IsMade(job.attempts, k);
    }
  }

  // ---------- Competing candidates ----------

  /** A generated candidate: its code, whether it compiled and passed the smoke test, and its static score. */
  datatype Candidate = Candidate(src: Source, passes: bool, score: int)

  /** What the outside answers while a candidate is promoted. */
  datatype Promotion = Promotion(reload: Reload, recordOk: bool, dreamsOk: bool)

  /** The candidate ranked first by a stable sort on descending score: the earliest with the highest score. */
  predicate IsBest(candidates: seq<Candidate>, i: int) {
    && 0 <= i < |candidates| && candidates[i].passes
    && (forall k :: 0 <= k < i && candidates[k].passes ==> candidates[k].score < candidates[i].score)
    && (forall k :: i < k < |candidates| && candidates[k].passes ==> candidates[k].score <= candidates[i].score)
  }

  /** The index of the best passing candidate, or -1. */
  function Best(candidates: seq<Candidate>): (b: int)
    ensures b == -1 || IsBest(candidates, b)
    ensures b == -1 <==> forall k :: 0 <= k < |candidates| ==> !candidates[k].passes
  {
    if candidates == [] then -1
    else
      var n := |candidates| - 1;
      var b := Best(candidates[..n]);
      assert forall k :: 0 <= k < n ==> candidates[..n][k] == candidates[k];
      if candidates[n].passes && (b == -1 || candidates[n].score > candidates[b].score) then n else b
  }

  lemma {:induction false} OneBest(candidates: seq<Candidate>)
    ensures forall i :: IsBest(candidates, i) ==> i == Best(candidates)
  {
  }

  function SourceOf(disk: map<Path, Source>, path: Path): Source {
    if path in disk then disk[path] else ""
  }

  predicate PromotionSucceeds(cfg: Settings, w: World, job: Job, p: Promotion) {
    && p.reload.Registered? && p.dreamsOk
    && (job.withContext && cfg.backup && (job.path in w.disk || job.path in w.bak) ==> p.recordOk)
  }

  /** The file is put back when the reload fails, and only then. */
  function Promoted(cfg: Settings, w: World, job: Job, src: Source, p: Promotion): World {
    var bak := if cfg.backup && job.path in w.disk then w.bak[job.path := w.disk[job.path]] else w.bak;
    World(
      w.disk[job.path := if p.reload.Registered? then src else SourceOf(w.disk, job.path)],
      bak,
      if p.reload.Registered? && job.withContext && cfg.backup && job.path in bak && p.recordOk
      then Recorded(w.pending, job) else w.pending,
      w.facts)
  }

  /** A failed promotion leaves the files as they were exactly when it was the reload that failed and the file
      existed, or the candidate is what was there already. */
  lemma {:induction false} FailedPromotion(cfg: Settings, w: World, job: Job, src: Source, p: Promotion)
    requires !PromotionSucceeds(cfg, w, job, p)
    ensures Promoted(cfg, w, job, src, p).disk == w.disk <==>
            job.path in w.disk && (!p.reload.Registered? || src == w.disk[job.path])
  {
    var disk := Promoted(cfg, w, job, src, p).disk;
    assert job.path in disk;
    if job.path in w.disk && disk[job.path] == w.disk[job.path] {
      assert disk == w.disk;
    }
  }

  /** The best passing candidate is promoted; with none, the ordinary rewrite is tried. */
  function Competed(cfg: Settings, w: World, job: Job, candidates: seq<Candidate>, p: Promotion): (World, bool) {
    var best := Best(candidates);
    if best == -1 then (Evolved(cfg, w, job), Succeeds(cfg, w.disk, job))
    else (Promoted(cfg, w, job, candidates[best].src, p), PromotionSucceeds(cfg, w, job, p))
  }

  // ---------- Verification of a rewrite ----------

  datatype FailureRow = FailureRow(kind: string, at: int)
  datatype RunRow = RunRow(tool: string, status: string, at: int)

  function CountFailures(rows: seq<FailureRow>, target: string, since: int): nat {
    if rows == [] then 0
    else
      var last := rows[|rows| - 1];
      CountFailures(rows[..|rows| - 1], target, since) + if last.kind == target && last.at >= since then 1 else 0
  }

  function CountRuns(rows: seq<RunRow>, target: string, since: int, succeeded: bool): nat {
    if rows == [] then 0
    else
      var last := rows[|rows| - 1];
      CountRuns(rows[..|rows| - 1], target, since, succeeded)
      + if last.tool == target && last.at >= since && (succeeded ==> last.status == "succeeded") then 1 else 0
  }

  function Observed(o: Observations, target: string, since: int): Metrics {
    Metrics(CountFailures(o.failures, target, since), CountRuns(o.runs, target, since, false),
            CountRuns(o.runs, target, since, true))
  }

  datatype Verdict = StillPending | Regressed | Verified

  /** `_verification_outcome`: regressed means failures only, at a rate no lower than before. */
  function Outcome(baseline: Metrics, observed: Metrics, minRuns: nat): Verdict {
    var before := baseline.failures as real / AtLeastOne(baseline.runs) as real;
    var after := observed.failures as real / AtLeastOne(observed.runs) as real;
    if observed.runs < minRuns then StillPending
    else if observed.failures > 0 && observed.successes == 0 && after >= before then Regressed
    else Verified
  }

  function FailureOf(target: string, since: int): FailureRow -> bool {
    (row: FailureRow) => row.kind == target && row.at >= since
  }

  function RunOf(target: string, since: int): RunRow -> bool {
    (row: RunRow) => row.tool == target && row.at >= since
  }

  function SuccessOf(target: string, since: int): RunRow -> bool {
    (row: RunRow) => row.tool == target && row.at >= since && row.status == "succeeded"
  }

  lemma {:induction false} FailuresCounted(rows: seq<FailureRow>, target: string, since: int)
    ensures CountFailures(rows, target, since) == Rows(rows, FailureOf(target, since))
  {
    if rows != [] {
      FailuresCounted(rows[..|rows| - 1], target, since);
      RowsAppend(rows, FailureOf(target, since));
    }
  }

  lemma {:induction false} RunsCounted(rows: seq<RunRow>, target: string, since: int)
    ensures CountRuns(rows, target, since, false) == Rows(rows, RunOf(target, since))
    ensures CountRuns(rows, target, since, true) == Rows(rows, SuccessOf(target, since))
  {
    if rows != [] {
      RunsCounted(rows[..|rows| - 1], target, since);
      RowsAppend(rows, RunOf(target, since));
      RowsAppend(rows, SuccessOf(target, since));
    }
  }

  lemma {:induction false} RatesCompare(a: nat, b: nat, c: nat, d: nat)
    requires b > 0 && d > 0
    ensures a as real / b as real >= c as real / d as real <==> a * d >= c * b
  {
    var x, y := a as real / b as real, c as real / d as real;
    var bd := b as real * d as real;
    assert x * bd == a as real * d as real && y * bd == c as real * b as real;
    assert bd > 0.0;
    if x >= y {
      assert (x - y) * bd >= 0.0;
    } else {
      assert (y - x) * bd > 0.0;
    }
  }

  /** What the stores and the reload answer during one verification pass. */
  datatype Observations = Observations(failures: seq<FailureRow>, runs: seq<RunRow>, reloadOk: Path -> bool, now: int)

  function VerdictOn(cfg: Settings, o: Observations, p: Pending): Verdict {
    Outcome(p.baseline, Observed(o, p.target, p.since), cfg.verifyMinRuns)
  }

  /** Too few runs of the target have been recorded since. */
  ghost predicate Undecided(cfg: Settings, o: Observations, p: Pending) {
    Rows(o.runs, RunOf(p.target, p.since)) < cfg.verifyMinRuns
  }

  /** Enough runs, no success among them, and failures at a rate no lower than before. */
  ghost predicate Condemned(cfg: Settings, o: Observations, p: Pending) {
    var runs, failures := Rows(o.runs, RunOf(p.target, p.since)), Rows(o.failures, FailureOf(p.target, p.since));
    && runs >= cfg.verifyMinRuns && failures >= 1
    && (forall i :: 0 <= i < |o.runs| ==> !SuccessOf(p.target, p.since)(o.runs[i]))
    && failures * AtLeastOne(p.baseline.runs) >= p.baseline.failures * AtLeastOne(runs)
  }

  /** The verdict, by the rows that were recorded. */
  lemma {:induction false} VerdictExactly(cfg: Settings, o: Observations, p: Pending)
    ensures VerdictOn(cfg, o, p).StillPending? <==> Undecided(cfg, o, p)
    ensures VerdictOn(cfg, o, p).Regressed? <==> Condemned(cfg, o, p)
  {
    FailuresCounted(o.failures, p.target, p.since);
    RunsCounted(o.runs, p.target, p.since);
    NoRows(o.runs, SuccessOf(p.target, p.since));
    var observed := Observed(o, p.target, p.since);
    hide CountFailures, CountRuns, Rows, RunOf, FailureOf, SuccessOf;
    RatesCompare(observed.failures, AtLeastOne(observed.runs), p.baseline.failures, AtLeastOne(p.baseline.runs));
  }

  predicate RollsBack(cfg: Settings, w: World, p: Pending) {
    cfg.autoRollback && p.path in w.bak && p.path in w.disk
  }

  /** One record settled, and whether reloading the restored source raised, which ends the pass. */
  function Settled(cfg: Settings, w: World, o: Observations, p: Pending): (World, bool) {
    match VerdictOn(cfg, o, p)
    case StillPending => (w, false)
    case Verified =>
      (w.(pending := Without(w.pending, p.target), facts := AfterUpdate(w.facts, cfg.breaker, p.target, true, o.now)),
       false)
    case Regressed =>
      var w1 := if RollsBack(cfg, w, p) then w.(disk := w.disk[p.path := w.bak[p.path]]) else w;
      if RollsBack(cfg, w, p) && !o.reloadOk(p.path) then (w1, true)
      else
        (w1.(pending := Without(w.pending, p.target),
             facts := AfterUpdate(w.facts, cfg.breaker, p.target, false, o.now)),
         false)
  }

  function SettledAll(cfg: Settings, w: World, o: Observations, rows: seq<Pending>): (World, bool)
    decreases |rows|
  {
    if rows == [] then (w, false)
    else
      var (w1, raised) := Settled(cfg, w, o, rows[0]);
      if raised then (w1, true) else SettledAll(cfg, w1, o, rows[1..])
  }

  const VERIFY_LIMIT := 50

  /** The records one pass looks at: the newest fifty. */
  function Batch(pending: seq<Pending>): (rows: seq<Pending>)
    ensures forall k :: 0 <= k < |pending| && k < 50 ==> k < |rows| && rows[k] == pending[k]
    ensures |rows| <= 50
  {
    if |pending| <= VERIFY_LIMIT then pending else pending[..VERIFY_LIMIT]
  }

  function Processed(cfg: Settings, w: World, o: Observations): (World, bool) {
    SettledAll(cfg, w, o, Batch(w.pending))
  }

  datatype Ending = Continue | GiveUp | Done

  class EvolutionEngine {
    const cfg: Settings
    const breaker: BreakerFacts
    var disk: map<Path, Source>
    var bak: map<Path, Source>
    var pending: seq<Pending>

    constructor (cfg: Settings, disk: map<Path, Source>)
      ensures Valid() && fresh(breaker) && this.cfg == cfg && Now() == World(disk, map[], [], [])
    {
      this.cfg, this.disk, bak, pending := cfg, disk, map[], [];
      breaker := new BreakerFacts(cfg.breaker);
    }

    predicate Valid() {
      breaker.cfg == cfg.breaker
    }

    function Now(): World
      reads this, breaker
    {
      World(disk, bak, pending, breaker.table)
    }

    /** One pass of the retry loop, exceptions caught as in its handlers. */
    method MakeAttempt(job: Job, a: Attempt, currentSrc: Source) returns (ending: Ending)
      requires job.path in disk && disk[job.path] == currentSrc
      modifies this
      ensures ending.Continue? <==> TakenBack(a)
      ensures ending.Done? <==> && a.reply.Code? && a.reply.compiles.Compiled? && a.smokeOk && a.reload.Registered?
                                && a.tree.AllParse? && (job.withContext && cfg.backup ==> a.recordOk) && a.dreamsOk
      ensures disk == if ending.Done? then old(disk)[job.path := a.reply.src] else old(disk)
      ensures bak == if cfg.backup && a.reply.Code? && a.reply.compiles.Compiled?
                     then old(bak)[job.path := currentSrc] else old(bak)
      ensures pending == if Sound(a) && job.withContext && cfg.backup && a.recordOk
                         then Recorded(old(pending), job) else old(pending)
    {
      if a.reply.ChatRaised? || a.reply.compiles.OtherFault? {
        disk := disk[job.path := currentSrc];
        return GiveUp;
      }
      if a.reply.compiles.SyntaxFault? {
        return Continue;
      }
      if cfg.backup {
        bak := bak[job.path := currentSrc];
      }
      if !a.smokeOk {
        return Continue;
      }
      disk := disk[job.path := a.reply.src];
      if !a.reload.Registered? {
        disk := disk[job.path := currentSrc];
        return GiveUp;
      }
      if a.tree.ScanRaised? {
        disk := disk[job.path := currentSrc];
        return GiveUp;
      }
      if a.tree.SomeBroken? {
        disk := disk[job.path := currentSrc];
        return if a.reloadBack then Continue else GiveUp;
      }
      if job.withContext && cfg.backup {
        if !a.recordOk {
          disk := disk[job.path := currentSrc];
          return GiveUp;
        }
        pending := Recorded(pending, job);
      }
      if !a.dreamsOk {
        disk := disk[job.path := currentSrc];
        return GiveUp;
      }
      ending := Done;
    }

    /** All or nothing: a failed rewrite leaves every file as it was; a successful one changes one file, to a source
        that compiled, passed the smoke test, reloaded under the tool's name and left the whole tree parsing. */
    method EvolveTool(job: Job) returns (success: bool)
      requires |job.attempts| == cfg.maxAttempts
      modifies this
      ensures success <==> Succeeds(cfg, old(disk), job)
      ensures Now() == Evolved(cfg, old(Now()), job)
      ensures !success ==> disk == old(disk)
      ensures success <==>
                && !job.blocked && job.path in old(disk) && old(disk)[job.path] != ""
                && exists k :: IsMade(job.attempts, k) && WinsAt(job, cfg.backup, k)
      ensures success ==>
                exists k :: IsMade(job.attempts, k) && WinsAt(job, cfg.backup, k)
                            && disk == old(disk)[job.path := job.attempts[k].reply.src]
    {
      SucceedsExactly(cfg, disk, job);
      if job.blocked {
        return false;
      }
      var currentSrc := if job.path in disk then disk[job.path] else "";
      if currentSrc == "" {
        return false;
      }
      for i := 0 to cfg.maxAttempts
        invariant disk == old(disk) && pending == old(pending)
        invariant i <= Decisive(job.attempts)
        invariant bak == if cfg.backup && exists k :: 0 <= k < i && job.attempts[k].ReachesBackup()
                         then old(bak)[job.path := currentSrc] else old(bak)
      {
        var ending := MakeAttempt(job, job.attempts[i], currentSrc);
        if !ending.Continue? {
          assert i == Decisive(job.attempts);
          return ending.Done?;
        }
      }
      success := false;
    }

    /** The candidate goes straight into place; a failure after the reload leaves it there. */
    method PromoteCandidate(job: Job, src: Source, p: Promotion) returns (success: bool)
      modifies this
      ensures success <==> PromotionSucceeds(cfg, old(Now()), job, p)
      ensures p.reload.Registered? ==> disk == old(disk)[job.path := src]
      ensures cfg.backup && job.path in old(disk) ==> bak == old(bak)[job.path := old(disk)[job.path]]
      ensures p.reload.Registered? && p.recordOk && job.withContext && cfg.backup && job.path in old(disk) ==>
                pending == Recorded(old(pending), job)
      ensures !p.reload.Registered? ==> !success && disk == old(disk)[job.path := SourceOf(old(disk), job.path)]
      ensures Now() == Promoted(cfg, old(Now()), job, src, p)
    {
      var currentSrc := SourceOf(disk, job.path);
      if cfg.backup && job.path in disk {
        bak := bak[job.path := currentSrc];
      }
      disk := disk[job.path := src];
      if !p.reload.Registered? {
        disk := disk[job.path := currentSrc];
        return false;
      }
      if job.withContext && cfg.backup && job.path in bak {
        if !p.recordOk {
          return false;
        }
        pending := Recorded(pending, job);
      }
      success := p.dreamsOk;
    }

    method CompetitiveEvolveTool(job: Job, candidates: seq<Candidate>, p: Promotion) returns (success: bool)
      requires |job.attempts| == cfg.maxAttempts
      modifies this
      ensures (Now(), success) == Competed(cfg, old(Now()), job, candidates, p)
      ensures forall i :: IsBest(candidates, i) ==>
                && disk == old(disk)[job.path := if p.reload.Registered? then candidates[i].src
                                                 else SourceOf(old(disk), job.path)]
                && (success ==> p.reload.Registered?)
      ensures (forall i :: 0 <= i < |candidates| ==> !candidates[i].passes) ==>
                success == Succeeds(cfg, old(disk), job) && Now() == Evolved(cfg, old(Now()), job)
    {
      var best := -1;
      for i := 0 to |candidates|
        invariant best == Best(candidates[..i])
      {
        assert candidates[..i + 1][..i] == candidates[..i];
        if candidates[i].passes && (best == -1 || candidates[i].score > candidates[best].score) {
          best := i;
        }
      }
      assert candidates[..|candidates|] == candidates;
      OneBest(candidates);
      if best == -1 {
        success := EvolveTool(job);
      } else {
        success := PromoteCandidate(job, candidates[best].src, p);
      }
    }

    method GatherMetrics(o: Observations, target: string, since: int) returns (m: Metrics)
      ensures m == Observed(o, target, since)
    {
      var failures, runs, successes := 0, 0, 0;
      for i := 0 to |o.failures|
        invariant failures == CountFailures(o.failures[..i], target, since)
      {
        assert o.failures[..i + 1][..i] == o.failures[..i];
        if o.failures[i].kind == target && o.failures[i].at >= since {
          failures := failures + 1;
        }
      }
      for i := 0 to |o.runs|
        invariant runs == CountRuns(o.runs[..i], target, since, false)
        invariant successes == CountRuns(o.runs[..i], target, since, true)
      {
        assert o.runs[..i + 1][..i] == o.runs[..i];
        if o.runs[i].tool == target && o.runs[i].at >= since {
          runs := runs + 1;
          if o.runs[i].status == "succeeded" {
            successes := successes + 1;
          }
        }
      }
      assert o.failures[..|o.failures|] == o.failures && o.runs[..|o.runs|] == o.runs;
      m := Metrics(failures, runs, successes);
    }

    /** The loop over the newest pending facts; `raised` when a reload exception ends it. */
    method ProcessPendingVerifications(o: Observations) returns (raised: bool)
      requires Valid()
      modifies this, breaker
      ensures (Now(), raised) == Processed(cfg, old(Now()), o)
    {
      var rows := Batch(pending);
      hide Outcome, CountFailures, CountRuns, Without, AfterUpdate, Batch;
      for i := 0 to |rows|
        invariant SettledAll(cfg, old(Now()), o, rows) == SettledAll(cfg, Now(), o, rows[i..])
      {
        var p := rows[i];
        assert rows[i..][1..] == rows[i + 1..];
        var observed := GatherMetrics(o, p.target, p.since);
        var outcome := Outcome(p.baseline, observed, cfg.verifyMinRuns);
        if outcome.Verified? {
          breaker.UpdateTargetBreakerState(p.target, true, o.now);
          pending := Without(pending, p.target);
        } else if outcome.Regressed? {
          if cfg.autoRollback && p.path in bak && p.path in disk {
            disk := disk[p.path := bak[p.path]];
            if !o.reloadOk(p.path) {
              return true;
            }
          }
          breaker.UpdateTargetBreakerState(p.target, false, o.now);
          pending := Without(pending, p.target);
        }
      }
      raised := false;
    }
  }
}
