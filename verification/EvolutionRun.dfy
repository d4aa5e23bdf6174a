/** `core/evolution/__init__.py`, `EvolutionEngine.run`: one pass decides whether some failing tool is rewritten.
    Over any number of passes, whatever the outside answers. */
module EvolutionRun {
  import opened Evolution
  import opened Breaker
  import opened Rollback
  import opened Wrappers

  datatype LlmReply = Unusable | Decision(shouldEvolve: bool, target: string)

  /** Everything a pass is told. `ranked` are the tools failing often enough, most failures first; `files` are the
      registered tools that have a source file. */
  datatype Inputs = Inputs(observations: Observations, nowGlobal: int, promptEvolved: bool, ranked: seq<string>,
                           files: map<string, Path>, nowCheck: int, llm: LlmReply,
                           answers: Job, candidates: seq<Candidate>, promotion: Promotion, nowUpdate: int)

  datatype Ended =
    | VerificationRaised | GlobalBreakerOpen | PromptEvolved | NoCandidates | LlmSkipped
    | Rewrote(target: string, success: bool)

  /** The choice is confined to the candidates; an unusable or foreign answer means the first. */
  function Choose(candidates: seq<string>, llm: LlmReply): (r: Option<string>)
    requires candidates != []
    ensures r.Some? ==> r.value in candidates
    ensures r.None? <==> llm.Decision? && !llm.shouldEvolve
    ensures llm.Decision? && llm.shouldEvolve && llm.target in candidates ==> r == Some(llm.target)
    ensures llm.Unusable? || (llm.shouldEvolve && llm.target !in candidates) ==> r == Some(candidates[0])
  {
    match llm
    case Unusable => Some(candidates[0])
    case Decision(shouldEvolve, target) =>
      if !shouldEvolve then None else if target in candidates then Some(target) else Some(candidates[0])
  }

  /** The scan over the ranked tools: those under no live cooldown, and the breaker facts after the checks. */
  function Scan(facts: Table, ranked: seq<string>, inp: Inputs): (Table, seq<string>) {
    if ranked == [] then (facts, [])
    else
      var (before, candidates) := Scan(facts, ranked[..|ranked| - 1], inp);
      var name := ranked[|ranked| - 1];
      if name !in inp.files then (before, candidates)
      else
        (AfterCheck(before, KeyOf(name), inp.nowCheck),
         if Load(before, KeyOf(name)).cooldownUntil > inp.nowCheck then candidates else candidates + [name])
  }

  function JobFor(inp: Inputs, target: string): Job
    requires target in inp.files
  {
    inp.answers.(target := target, path := inp.files[target], withContext := true)
  }

  function Rewritten(cfg: Settings, w: World, inp: Inputs, target: string): (World, bool)
    requires target in inp.files
  {
    var job := JobFor(inp, target);
    if cfg.competitive then Competed(cfg, w, job, inp.candidates, inp.promotion)
    else (Evolved(cfg, w, job), Succeeds(cfg, w.disk, job))
  }

  lemma {:induction false} ScanNames(facts: Table, ranked: seq<string>, inp: Inputs)
    ensures forall c :: c in Scan(facts, ranked, inp).1 ==> c in inp.files && c in ranked
  {
    if ranked != [] {
      ScanNames(facts, ranked[..|ranked| - 1], inp);
    }
  }

  function Pass(cfg: Settings, w: World, inp: Inputs): (World, Ended) {
    var (w1, raised) := Processed(cfg, w, inp.observations);
    if raised then (w1, VerificationRaised)
    else
      var w2 := w1.(facts := AfterCheck(w1.facts, GLOBAL, inp.nowGlobal));
      if Load(w1.facts, GLOBAL).cooldownUntil > inp.nowGlobal then (w2, GlobalBreakerOpen)
      else if inp.promptEvolved then (w2, PromptEvolved)
      else
        var (facts, candidates) := Scan(w2.facts, inp.ranked, inp);
        var w3 := w2.(facts := facts);
        if candidates == [] then (w3, NoCandidates)
        else
          match Choose(candidates, inp.llm)
          case None => (w3, LlmSkipped)
          case Some(target) =>
            ScanNames(w2.facts, inp.ranked, inp);
            var (w4, success) := Rewritten(cfg, w3, inp, target);
            (w4.(facts := AfterUpdate(w4.facts, cfg.breaker, target, success, inp.nowUpdate)), Rewrote(target, success))
  }

  /** One pass, on the engine's own state. */
  method Run(engine: EvolutionEngine, inp: Inputs) returns (ended: Ended)
    requires engine.Valid() && |inp.answers.attempts| == engine.cfg.maxAttempts
    modifies engine, engine.breaker
    ensures (engine.Now(), ended) == Pass(engine.cfg, old(engine.Now()), inp)
  {
    var raised := engine.ProcessPendingVerifications(inp.observations);
    if raised {
      return VerificationRaised;
    }
    var globalOpen, _ := engine.breaker.IsGlobalBreakerCoolingDown(inp.nowGlobal);
    if globalOpen {
      return GlobalBreakerOpen;
    }
    if inp.promptEvolved {
      return PromptEvolved;
    }
    ghost var facts := engine.breaker.table;
    ghost var before := engine.Now();
    var candidates: seq<string> := [];
    for i := 0 to |inp.ranked|
      invariant engine.Now() == before.(facts := engine.breaker.table)
      invariant (engine.breaker.table, candidates) == Scan(facts, inp.ranked[..i], inp)
    {
      var name := inp.ranked[i];
      assert inp.ranked[..i + 1][..i] == inp.ranked[..i];
      if name in inp.files {
        var open, _, _ := engine.breaker.IsTargetBreakerCoolingDown(name, inp.nowCheck);
        if !open {
          candidates := candidates + [name];
        }
      }
    }
    assert inp.ranked[..|inp.ranked|] == inp.ranked;
    if candidates == [] {
      return NoCandidates;
    }
    var choice := Choose(candidates, inp.llm);
    if choice.None? {
      return LlmSkipped;
    }
    var target := choice.value;
    ScanNames(facts, inp.ranked, inp);
    var job := JobFor(inp, target);
    var success;
    if engine.cfg.competitive {
      success := engine.CompetitiveEvolveTool(job, inp.candidates, inp.promotion);
    } else {
      success := engine.EvolveTool(job);
    }
    engine.breaker.UpdateTargetBreakerState(target, success, inp.nowUpdate);
    ended := Rewrote(target, success);
  }

  // ---------- How a pass ends ----------

  /** The rewrite of a pass: the best passing candidate, if competing candidates are asked for and one passes; otherwise
      the attempts at rewriting the tool's own file, its outcome to be verified. */
  lemma {:induction false} RewriteExactly(cfg: Settings, w: World, inp: Inputs, target: string)
    requires target in inp.files
    ensures var (w', success) := Rewritten(cfg, w, inp, target);
            var file := inp.files[target];
            var job := inp.answers.(target := target, path := file, withContext := true);
            && (forall i :: cfg.competitive && IsBest(inp.candidates, i) ==>
                  && w'.disk == w.disk[file := if inp.promotion.reload.Registered? then inp.candidates[i].src
                                               else SourceOf(w.disk, file)]
                  && success == PromotionSucceeds(cfg, w, job, inp.promotion))
            && (!cfg.competitive || (forall i :: 0 <= i < |inp.candidates| ==> !inp.candidates[i].passes) ==>
                  w' == Evolved(cfg, w, job) && success == Succeeds(cfg, w.disk, job))
  {
    OneBest(inp.candidates);
    hide Evolved, Succeeds, PromotionSucceeds;
  }

  /** The tools a pass may rewrite, in the order of their failures. */
  function CandidatesOf(cfg: Settings, w: World, inp: Inputs): seq<string> {
    Scan(AfterCheck(Processed(cfg, w, inp.observations).0.facts, GLOBAL, inp.nowGlobal), inp.ranked, inp).1
  }

  /** Each way to end, by what the pass was told: the first thing in this order that stands in the way, or a rewrite. */
  lemma {:induction false} EndsExactly(cfg: Settings, w: World, inp: Inputs)
    ensures var (w1, raised) := Processed(cfg, w, inp.observations);
            var open := Load(w1.facts, GLOBAL).cooldownUntil > inp.nowGlobal;
            var candidates, ended := CandidatesOf(cfg, w, inp), Pass(cfg, w, inp).1;
            && (ended == VerificationRaised <==> raised)
            && (ended == GlobalBreakerOpen <==> !raised && open)
            && (ended == PromptEvolved <==> !raised && !open && inp.promptEvolved)
            && (ended == NoCandidates <==> !raised && !open && !inp.promptEvolved && candidates == [])
            && (ended == LlmSkipped <==> !raised && !open && !inp.promptEvolved && candidates != []
                                         && inp.llm.Decision? && !inp.llm.shouldEvolve)
            && (ended.Rewrote? ==>
                  ended.target == if inp.llm.Decision? && inp.llm.target in candidates then inp.llm.target
                                  else candidates[0])
  {
    hide Rewritten, Scan, Processed, Load, AfterCheck, AfterUpdate;
  }

  // ---------- How far a streak gets ----------

  /** Two failures count against a target before its next rewrite clears it: the rewrite itself, and the verdict on
      the one before it. Without backups nothing is ever left to be judged. */
  function StreakLimit(cfg: Settings): nat {
    if cfg.backup then 2 else 1
  }

  predicate Awaits(pending: seq<Pending>, key: string) {
    exists p :: p in pending && KeyOf(p.target) == key
  }

  /** A target's streak, plus one if its last rewrite is still to be judged, is within the limit. */
  ghost predicate StreaksBounded(cfg: Settings, w: World) {
    && OnePerTarget(w.pending)
    && (forall p :: p in w.pending ==> p.target != "global")
    && (!cfg.backup ==> w.pending == [])
    && forall r :: r in w.facts && r.key != GLOBAL ==>
         r.rec.streak + (if Awaits(w.pending, r.key) then 1 else 0) <= StreakLimit(cfg)
  }

  lemma {:induction false} KeyIsGlobal(target: string)
    ensures KeyOf(target) == GLOBAL <==> target == "global"
  {
    assert GLOBAL == KeyOf("global");
    DistinctKeys(target, "global");
  }

  /** An update writes at most the target's row and the global one, the former one above what was loaded. */
  lemma {:induction false} UpdateRows(table: Table, cfg: Config, target: string, success: bool, now: int)
    requires target != "global"
    ensures forall r :: r in AfterUpdate(table, cfg, target, success, now) && r.key != GLOBAL ==>
              if r.key == KeyOf(target)
              then !success && r.rec == Failed(Load(table, KeyOf(target)), cfg, now)
              else r in table
    ensures forall r :: r in AfterUpdate(table, cfg, target, success, now) && r.key == GLOBAL ==>
              r in table || (!success && Load(table, KeyOf(target)).streak + 1 >= cfg.escalateThreshold)
  {
    KeyIsGlobal(target);
    DeleteRemoves(table, KeyOf(target));
    var rec := Failed(Load(table, KeyOf(target)), cfg, now);
    DeleteRemoves(Put(table, KeyOf(target), rec), GLOBAL);
  }

  lemma {:induction false} CheckRows(table: Table, key: string, now: int)
    ensures forall r :: r in AfterCheck(table, key, now) ==> r in table
    ensures Load(table, key).cooldownUntil <= now ==> forall r :: r in AfterCheck(table, key, now) ==> r.key != key
  {
    DeleteRemoves(table, key);
  }

  /** No global cooldown can have been set, because no streak reaches the threshold. */
  ghost predicate NeverGlobal(cfg: Settings, w: World) {
    cfg.breaker.escalateThreshold > StreakLimit(cfg) ==> forall r :: r in w.facts ==> r.key != GLOBAL
  }

  /** A target's cooldown is set by a streak at the threshold. */
  ghost predicate CooldownsEarned(cfg: Settings, w: World) {
    forall r :: r in w.facts && r.key != GLOBAL && r.rec.cooldownUntil != 0 ==>
      r.rec.streak >= cfg.breaker.failThreshold
  }

  ghost predicate Safe(cfg: Settings, w: World) {
    StreaksBounded(cfg, w) && NeverGlobal(cfg, w) && CooldownsEarned(cfg, w)
  }

  /** Settling one record: a regression adds one to the streak and takes the record away. */
  lemma {:induction false} SettledSafe(cfg: Settings, w: World, o: Observations, p: Pending)
    requires Safe(cfg, w) && p in w.pending
    ensures Safe(cfg, Settled(cfg, w, o, p).0)
    ensures forall q :: q in w.pending && q.target != p.target ==> q in Settled(cfg, w, o, p).0.pending
  {
    var key := KeyOf(p.target);
    WithoutKeeps(w.pending, p.target);
    LoadComesFrom(w.facts, key);
    KeyIsGlobal(p.target);
    assert Awaits(w.pending, key);
    var success := VerdictOn(cfg, o, p).Verified?;
    UpdateRows(w.facts, cfg.breaker, p.target, success, o.now);
    var left := Without(w.pending, p.target);
    if Awaits(left, key) {
      var q :| q in left && KeyOf(q.target) == key;
      DistinctKeys(q.target, p.target);
      assert false;
    }
    forall k | Awaits(left, k) ensures Awaits(w.pending, k) {
    }
  }

  lemma {:induction false} SettledAllSafe(cfg: Settings, w: World, o: Observations, rows: seq<Pending>)
    requires Safe(cfg, w) && OnePerTarget(rows) && forall r :: r in rows ==> r in w.pending
    ensures Safe(cfg, SettledAll(cfg, w, o, rows).0)
    decreases |rows|
  {
    if rows != [] {
      SettledSafe(cfg, w, o, rows[0]);
      forall r | r in rows[1..] ensures r in Settled(cfg, w, o, rows[0]).0.pending {
        assert r in rows && r.target != rows[0].target;
      }
      if !Settled(cfg, w, o, rows[0]).1 {
        SettledAllSafe(cfg, Settled(cfg, w, o, rows[0]).0, o, rows[1..]);
      }
    }
  }

  /** The scan only removes rows, and leaves none for a candidate. */
  lemma {:induction false} ScanClears(facts: Table, ranked: seq<string>, inp: Inputs)
    ensures forall r :: r in Scan(facts, ranked, inp).0 ==> r in facts
    ensures forall r, c :: r in Scan(facts, ranked, inp).0 && c in Scan(facts, ranked, inp).1 ==> r.key != KeyOf(c)
  {
    if ranked != [] {
      var front, name := ranked[..|ranked| - 1], ranked[|ranked| - 1];
      ScanClears(facts, front, inp);
      CheckRows(Scan(facts, front, inp).0, KeyOf(name), inp.nowCheck);
    }
  }

  lemma {:induction false} RewrittenShape(cfg: Settings, w: World, inp: Inputs, target: string)
    requires target in inp.files
    ensures var w' := Rewritten(cfg, w, inp, target).0;
            w'.facts == w.facts
            && (w'.pending == w.pending || (cfg.backup && w'.pending == Recorded(w.pending, JobFor(inp, target))))
  {
  }

  /** A rewrite and its verdict, started with no row for the target. */
  lemma {:induction false} RewriteSafe(cfg: Settings, w: World, inp: Inputs, target: string)
    requires Safe(cfg, w) && target in inp.files && target != "global"
    requires forall r :: r in w.facts ==> r.key != KeyOf(target)
    ensures var (w', success) := Rewritten(cfg, w, inp, target);
            Safe(cfg, w'.(facts := AfterUpdate(w'.facts, cfg.breaker, target, success, inp.nowUpdate)))
  {
    var (w', success) := Rewritten(cfg, w, inp, target);
    RewrittenShape(cfg, w, inp, target);
    LoadComesFrom(w.facts, KeyOf(target));
    UpdateRows(w'.facts, cfg.breaker, target, success, inp.nowUpdate);
    WithoutKeeps(w.pending, target);
    forall k | k != KeyOf(target) && Awaits(w'.pending, k) ensures Awaits(w.pending, k) {
      var p :| p in w'.pending && KeyOf(p.target) == k;
      assert p in w.pending;
    }
  }

  /** Every pass keeps the bound, whatever it is told. */
  lemma {:induction false} PassSafe(cfg: Settings, w: World, inp: Inputs)
    requires Safe(cfg, w) && "global" !in inp.files
    ensures Safe(cfg, Pass(cfg, w, inp).0)
    ensures cfg.breaker.escalateThreshold > StreakLimit(cfg) && inp.nowGlobal >= 0 ==>
              Pass(cfg, w, inp).1 != GlobalBreakerOpen
  {
    SettledAllSafe(cfg, w, inp.observations, Batch(w.pending));
    var (w1, raised) := Processed(cfg, w, inp.observations);
    if !raised {
      LoadComesFrom(w1.facts, GLOBAL);
      CheckRows(w1.facts, GLOBAL, inp.nowGlobal);
      var w2 := w1.(facts := AfterCheck(w1.facts, GLOBAL, inp.nowGlobal));
      var (facts, candidates) := Scan(w2.facts, inp.ranked, inp);
      ScanClears(w2.facts, inp.ranked, inp);
      ScanNames(w2.facts, inp.ranked, inp);
      var w3 := w2.(facts := facts);
      assert Safe(cfg, w3);
      if candidates != [] && Choose(candidates, inp.llm).Some? {
        RewriteSafe(cfg, w3, inp, Choose(candidates, inp.llm).value);
      }
    }
  }

  function Passes(cfg: Settings, w: World, inputs: seq<Inputs>): World {
    if inputs == [] then w else Pass(cfg, Passes(cfg, w, inputs[..|inputs| - 1]), inputs[|inputs| - 1]).0
  }

  function Fresh(disk: map<Path, Source>): World {
    World(disk, map[], [], [])
  }

  /** What a pass can be told: an answer for every attempt, no tool by the name `global`, and a clock that does not run
      backwards. */
  predicate Admissible(cfg: Settings, inp: Inputs) {
    && |inp.answers.attempts| == cfg.maxAttempts && "global" !in inp.files
    && 0 <= inp.observations.now <= inp.nowGlobal <= inp.nowCheck <= inp.answers.now <= inp.nowUpdate
  }

  predicate History(cfg: Settings, inputs: seq<Inputs>) {
    && (forall i :: 0 <= i < |inputs| ==> Admissible(cfg, inputs[i]))
    && forall i :: 0 <= i < |inputs| - 1 ==> inputs[i].nowUpdate <= inputs[i + 1].observations.now
  }

  /** Over every history no target's failure streak exceeds the limit. */
  lemma {:induction false} StreaksStayBounded(cfg: Settings, disk: map<Path, Source>, inputs: seq<Inputs>)
    requires forall i :: 0 <= i < |inputs| ==> Admissible(cfg, inputs[i])
    ensures Safe(cfg, Passes(cfg, Fresh(disk), inputs))
  {
    if inputs != [] {
      StreaksStayBounded(cfg, disk, inputs[..|inputs| - 1]);
      PassSafe(cfg, Passes(cfg, Fresh(disk), inputs[..|inputs| - 1]), inputs[|inputs| - 1]);
    }
  }

  // ---------- Histories that reach the limit ----------

  /** The ranges of the configuration: every one of these numbers is at least one. */
  predicate Configured(cfg: Settings) {
    && cfg.maxAttempts >= 1 && cfg.verifyMinRuns >= 1
    && cfg.breaker.failThreshold >= 1 && cfg.breaker.escalateThreshold >= 1
    && cfg.breaker.cooldown >= 1 && cfg.breaker.globalCooldown >= 1
  }

  const TOOL := "t"

  function FileOf(name: string): Path {
    name + ".py"
  }

  const DISK: map<Path, Source> := map[FileOf(TOOL) := "old"]

  const ACCEPTED := Attempt(Code("new", Compiled), true, Registered, true, AllParse, true, true)
  const NO_ANSWER := Attempt(ChatRaised, false, NotRegistered, false, AllParse, false, false)

  /** One failing tool, and the same answer to every attempt at rewriting it. */
  function Told(cfg: Settings, o: Observations, name: string, answer: Attempt): Inputs {
    Inputs(o, 0, false, [name], map[name := FileOf(name)], 0, Unusable,
           Job(name, FileOf(name), false, true, 0, Metrics(0, 0, 0), seq(cfg.maxAttempts, _ => answer)),
           [], Promotion(NotRegistered, false, false), 0)
  }

  /** Nothing was run since. */
  const NOTHING_SEEN := Observations([], [], _ => true, 0)

  /** As many runs of one tool as a verdict needs, none of them a success. */
  function FailingRuns(cfg: Settings, name: string): Observations {
    Observations([FailureRow(name, 0)], seq(cfg.verifyMinRuns, _ => RunRow(name, "failed", 0)), _ => true, 0)
  }

  function RecordOf(name: string): Pending {
    Pending(name, FileOf(name), 0, Metrics(0, 0, 0))
  }

  lemma {:induction false} DeleteAbsent(table: Table, key: string)
    requires forall r :: r in table ==> r.key != key
    ensures Delete(table, key) == table && Load(table, key) == NOTHING
  {
    if table != [] {
      assert table[0] in table;
      DeleteAbsent(table[1..], key);
    }
  }

  /** A pass told of one failing tool rewrites it if the queries find neither a global cooldown nor its own. */
  lemma {:induction false} RanksOne(cfg: Settings, w: World, w1: World, inp: Inputs, name: string)
    requires Processed(cfg, w, inp.observations) == (w1, false)
    requires inp.ranked == [name] && name in inp.files && !inp.promptEvolved && inp.llm == Unusable
    requires Load(w1.facts, GLOBAL) == NOTHING && 0 <= inp.nowGlobal
    requires Load(Delete(w1.facts, GLOBAL), KeyOf(name)).cooldownUntil <= inp.nowCheck
    ensures var w2 := w1.(facts := Delete(Delete(w1.facts, GLOBAL), KeyOf(name)));
            var (w', success) := Rewritten(cfg, w2, inp, name);
            Pass(cfg, w, inp) ==
            (w'.(facts := AfterUpdate(w'.facts, cfg.breaker, name, success, inp.nowUpdate)), Rewrote(name, success))
  {
    var facts := Delete(w1.facts, GLOBAL);
    assert AfterCheck(w1.facts, GLOBAL, inp.nowGlobal) == facts;
    hide Rewritten, AfterUpdate, Processed, Load, Scan, Delete;
    ScansOne(facts, inp, name);
  }

  lemma {:induction false} ScansOne(facts: Table, inp: Inputs, name: string)
    requires inp.ranked == [name] && name in inp.files && Load(facts, KeyOf(name)).cooldownUntil <= inp.nowCheck
    ensures Scan(facts, inp.ranked, inp) == (Delete(facts, KeyOf(name)), [name])
  {
    hide Load, Delete;
    assert inp.ranked[..|inp.ranked| - 1] == [] && inp.ranked[|inp.ranked| - 1] == name;
    assert Scan(facts, [], inp) == (facts, []) && [] + [name] == [name];
  }

  lemma {:induction false} RewriteWithoutAnswer(cfg: Settings, w: World, o: Observations, name: string)
    requires Configured(cfg)
    ensures Rewritten(cfg, w, Told(cfg, o, name, NO_ANSWER), name) == (w, false)
  {
    var job := JobFor(Told(cfg, o, name, NO_ANSWER), name);
    assert Decisive(job.attempts) == 0;
  }

  lemma {:induction false} RewriteAccepted(cfg: Settings, w: World, o: Observations, name: string)
    requires Configured(cfg) && cfg.backup && FileOf(name) in w.disk && w.disk[FileOf(name)] != ""
    ensures Rewritten(cfg, w, Told(cfg, o, name, ACCEPTED), name) ==
            (World(w.disk[FileOf(name) := "new"], w.bak[FileOf(name) := w.disk[FileOf(name)]],
                   [RecordOf(name)] + Without(w.pending, name), w.facts), true)
  {
    var job := JobFor(Told(cfg, o, name, ACCEPTED), name);
    assert Decisive(job.attempts) == 0 && job.attempts[0].ReachesBackup();
  }

  /** Nothing is stored for the tool, nor globally. */
  predicate NoneFor(facts: Table, name: string) {
    forall r :: r in facts ==> r.key != GLOBAL && r.key != KeyOf(name)
  }

  /** A failed rewrite of a tool nothing is stored for: one failure counted. */
  lemma {:induction false} FailsNext(cfg: Settings, w: World, w1: World, o: Observations, name: string)
    requires Configured(cfg) && Processed(cfg, w, o) == (w1, false) && NoneFor(w1.facts, name)
    ensures Pass(cfg, w, Told(cfg, o, name, NO_ANSWER)) ==
            (w1.(facts := AfterUpdate(w1.facts, cfg.breaker, name, false, 0)), Rewrote(name, false))
  {
    DeleteAbsent(w1.facts, GLOBAL);
    DeleteAbsent(w1.facts, KeyOf(name));
    RanksOne(cfg, w, w1, Told(cfg, o, name, NO_ANSWER), name);
    assert w1.(facts := w1.facts) == w1;
    RewriteWithoutAnswer(cfg, w1, o, name);
    hide Pass, Rewritten, AfterUpdate, Processed;
  }

  /** An accepted rewrite, no failure being stored. */
  lemma {:induction false} AcceptedNext(cfg: Settings, w: World, name: string)
    requires Configured(cfg) && cfg.backup && FileOf(name) in w.disk && w.disk[FileOf(name)] != "" && w.facts == []
    ensures Pass(cfg, w, Told(cfg, NOTHING_SEEN, name, ACCEPTED)) ==
            (World(w.disk[FileOf(name) := "new"], w.bak[FileOf(name) := w.disk[FileOf(name)]],
                   [RecordOf(name)] + Without(w.pending, name), []), Rewrote(name, true))
  {
    NothingJudged(cfg, w, Batch(w.pending));
    RanksOne(cfg, w, w, Told(cfg, NOTHING_SEEN, name, ACCEPTED), name);
    assert w.(facts := []) == w;
    RewriteAccepted(cfg, w, NOTHING_SEEN, name);
    hide Pass, Rewritten, Processed;
  }

  lemma {:induction false} NothingJudged(cfg: Settings, w: World, rows: seq<Pending>)
    requires Configured(cfg)
    ensures SettledAll(cfg, w, NOTHING_SEEN, rows) == (w, false)
  {
    if rows != [] {
      assert VerdictOn(cfg, NOTHING_SEEN, rows[0]) == StillPending;
      NothingJudged(cfg, w, rows[1..]);
    }
  }

  lemma {:induction false} ToolKeys()
    ensures KeyOf(TOOL) != GLOBAL && !Shadows(GLOBAL, KeyOf(TOOL)) && Shadows(KeyOf(TOOL), KeyOf(TOOL))
    ensures Shadows(GLOBAL, GLOBAL)
  {
    KeyIsGlobal(TOOL);
    FindsItself(KeyOf(TOOL));
    FindsItself(GLOBAL);
    LikePast(PREFIX, TOOL + "%", "global");
    assert KeyOf(TOOL) + "%" == PREFIX + (TOOL + "%") && GLOBAL == PREFIX + "global";
  }

  /** The table after a failed update: the tool's row, below the global one if the failure escalates. */
  lemma {:induction false} UpdatedTable(table: Table, cfg: Config)
    ensures var rec := Failed(Load(table, KeyOf(TOOL)), cfg, 0);
            var after := AfterUpdate(table, cfg, TOOL, false, 0);
            && Row(KeyOf(TOOL), rec) in after
            && Load(after, KeyOf(TOOL)) == rec
            && (rec.streak >= cfg.escalateThreshold ==> Load(after, GLOBAL) == Record(rec.streak, cfg.globalCooldown))
  {
    ToolKeys();
    var rec := Failed(Load(table, KeyOf(TOOL)), cfg, 0);
    var written := Put(table, KeyOf(TOOL), rec);
    assert written[0] == Row(KeyOf(TOOL), rec);
    assert Delete(written, GLOBAL)[0] == Row(KeyOf(TOOL), rec);
  }

  /** Two passes that leave a rewrite to be judged and one failure counted since. */
  function JudgedNext(cfg: Settings, name: string): seq<Inputs> {
    [Told(cfg, NOTHING_SEEN, name, ACCEPTED), Told(cfg, NOTHING_SEEN, name, NO_ANSWER)]
  }

  lemma {:induction false} AfterJudgedNext(cfg: Settings, disk: map<Path, Source>, name: string)
    requires Configured(cfg) && cfg.backup && FileOf(name) in disk && disk[FileOf(name)] != ""
    ensures Passes(cfg, Fresh(disk), JudgedNext(cfg, name)) ==
            World(disk[FileOf(name) := "new"], map[FileOf(name) := disk[FileOf(name)]], [RecordOf(name)],
                  AfterUpdate([], cfg.breaker, name, false, 0))
  {
    var inputs := JudgedNext(cfg, name);
    AcceptedNext(cfg, Fresh(disk), name);
    var w1 := Pass(cfg, Fresh(disk), inputs[0]).0;
    assert w1.pending == [RecordOf(name)] && w1.facts == [];
    NothingJudged(cfg, w1, Batch(w1.pending));
    FailsNext(cfg, w1, w1, NOTHING_SEEN, name);
    hide Pass, AfterUpdate;
    assert inputs[..1] == [inputs[0]];
    OnePass(cfg, Fresh(disk), inputs[0]);
    assert Passes(cfg, Fresh(disk), inputs[..1]) == w1;
  }

  lemma {:induction false} OnePass(cfg: Settings, w: World, inp: Inputs)
    ensures Passes(cfg, w, [inp]) == Pass(cfg, w, inp).0
  {
    hide Pass;
    assert [inp][..0] == [];
  }

  lemma {:induction false} OneRecord(cfg: Settings, w: World, o: Observations, p: Pending)
    requires w.pending == [p]
    ensures Processed(cfg, w, o) == Settled(cfg, w, o, p)
  {
    hide Settled;
    assert Batch(w.pending) == [p] && [p][1..] == [];
    var w1 := Settled(cfg, w, o, p).0;
    assert SettledAll(cfg, w1, o, []) == (w1, false);
  }

  lemma {:induction false} CountFailingRuns(n: nat, name: string, tool: string, succeeded: bool)
    ensures CountRuns(seq(n, _ => RunRow(name, "failed", 0)), tool, 0, succeeded) ==
            if tool == name && !succeeded then n else 0
  {
    if n > 0 {
      var rows := seq(n, _ => RunRow(name, "failed", 0));
      CountFailingRuns(n - 1, name, tool, succeeded);
      assert rows[..n - 1] == seq(n - 1, _ => RunRow(name, "failed", 0));
    }
  }

  /** Those runs condemn the tool's own last rewrite, and say nothing of another's. */
  lemma {:induction false} JudgedRegressed(cfg: Settings, name: string, tool: string)
    requires Configured(cfg)
    ensures VerdictOn(cfg, FailingRuns(cfg, name), RecordOf(tool)) == if tool == name then Regressed else StillPending
  {
    CountFailingRuns(cfg.verifyMinRuns, name, tool, true);
    CountFailingRuns(cfg.verifyMinRuns, name, tool, false);
    var o := FailingRuns(cfg, name);
    assert o.failures[..0] == [] && o.failures[0] == FailureRow(name, 0);
    assert CountFailures(o.failures, tool, 0) == if tool == name then 1 else 0;
  }

  /** The verdict on the only record counts one more failure. */
  lemma {:induction false} VerdictCounts(cfg: Settings, w: World, name: string)
    requires Configured(cfg) && w.pending == [RecordOf(name)]
    ensures var (w1, raised) := Processed(cfg, w, FailingRuns(cfg, name));
            !raised && w1.pending == [] && w1.facts == AfterUpdate(w.facts, cfg.breaker, name, false, 0)
  {
    JudgedRegressed(cfg, name, name);
    OneRecord(cfg, w, FailingRuns(cfg, name), RecordOf(name));
    hide AfterUpdate, VerdictOn;
    assert Without([RecordOf(name)], name) == [];
  }

  /** The verdict on the record left by these passes, and the tool's streak after it. */
  lemma {:induction false} LimitReached(cfg: Settings, last: Inputs)
    requires Configured(cfg) && cfg.backup && last == Told(cfg, FailingRuns(cfg, TOOL), TOOL, NO_ANSWER).(ranked := [])
    ensures var (w, ended) := Pass(cfg, Passes(cfg, Fresh(DISK), JudgedNext(cfg, TOOL)), last);
            && (exists r :: r in w.facts && r.key != GLOBAL && r.rec.streak == 2)
            && (cfg.breaker.escalateThreshold <= 2 ==> ended == GlobalBreakerOpen)
  {
    AfterJudgedNext(cfg, DISK, TOOL);
    var w := Passes(cfg, Fresh(DISK), JudgedNext(cfg, TOOL));
    VerdictCounts(cfg, w, TOOL);
    ToolKeys();
    UpdatedTable([], cfg.breaker);
    UpdatedTable(w.facts, cfg.breaker);
    var w1 := Processed(cfg, w, FailingRuns(cfg, TOOL)).0;
    assert Load(w1.facts, KeyOf(TOOL)).streak == 2;
    hide AfterUpdate, Processed, Load, Passes;
    DeleteRemoves(w1.facts, GLOBAL);
    assert Row(KeyOf(TOOL), Load(w1.facts, KeyOf(TOOL))) in AfterCheck(w1.facts, GLOBAL, 0);
  }

  // ---------- Exactly when the global breaker opens ----------

  /** The last of these passes finds the global breaker open. */
  ghost predicate Opens(cfg: Settings, disk: map<Path, Source>, inputs: seq<Inputs>) {
    && History(cfg, inputs) && inputs != []
    && Pass(cfg, Passes(cfg, Fresh(disk), inputs[..|inputs| - 1]), inputs[|inputs| - 1]).1 == GlobalBreakerOpen
  }

  /** After these passes some target's streak is `n`. */
  ghost predicate Reaches(cfg: Settings, disk: map<Path, Source>, inputs: seq<Inputs>, n: nat) {
    && History(cfg, inputs)
    && exists r :: r in Passes(cfg, Fresh(disk), inputs).facts && r.key != GLOBAL && r.rec.streak == n
  }

  lemma {:induction false} ToldIsAdmissible(cfg: Settings, o: Observations, name: string, answer: Attempt)
    requires o.now == 0 && name != "global"
    ensures Admissible(cfg, Told(cfg, o, name, answer))
    ensures Admissible(cfg, Told(cfg, o, name, answer).(ranked := []))
  {
  }

  lemma {:induction false} OneFailure(cfg: Settings) returns (inputs: seq<Inputs>)
    requires Configured(cfg)
    ensures Reaches(cfg, DISK, inputs, 1) && |inputs| == 1
    ensures cfg.breaker.escalateThreshold <= 1 ==> Opens(cfg, DISK, inputs + inputs)
  {
    var inp := Told(cfg, NOTHING_SEEN, TOOL, NO_ANSWER);
    inputs := [inp];
    ToldIsAdmissible(cfg, NOTHING_SEEN, TOOL, NO_ANSWER);
    ToolKeys();
    AfterOneFailure(cfg);
    UpdatedTable([], cfg.breaker);
    assert (inputs + inputs)[..1] == inputs;
    var w := Passes(cfg, Fresh(DISK), inputs);
    hide AfterUpdate, Load, Admissible, Passes, Told;
    NothingJudged(cfg, w, []);
  }

  lemma {:induction false} AfterOneFailure(cfg: Settings)
    requires Configured(cfg)
    ensures Passes(cfg, Fresh(DISK), [Told(cfg, NOTHING_SEEN, TOOL, NO_ANSWER)]) ==
            Fresh(DISK).(facts := AfterUpdate([], cfg.breaker, TOOL, false, 0))
  {
    var start := Fresh(DISK);
    NothingJudged(cfg, start, []);
    FailsNext(cfg, start, start, NOTHING_SEEN, TOOL);
    OnePass(cfg, start, Told(cfg, NOTHING_SEEN, TOOL, NO_ANSWER));
    hide Pass, Passes, AfterUpdate;
  }

  lemma {:induction false} TwoFailures(cfg: Settings) returns (inputs: seq<Inputs>)
    requires Configured(cfg) && cfg.backup
    ensures Reaches(cfg, DISK, inputs, 2)
    ensures cfg.breaker.escalateThreshold <= 2 ==> Opens(cfg, DISK, inputs)
  {
    var last := Told(cfg, FailingRuns(cfg, TOOL), TOOL, NO_ANSWER).(ranked := []);
    inputs := JudgedNext(cfg, TOOL) + [last];
    ToldIsAdmissible(cfg, NOTHING_SEEN, TOOL, ACCEPTED);
    ToldIsAdmissible(cfg, NOTHING_SEEN, TOOL, NO_ANSWER);
    ToldIsAdmissible(cfg, FailingRuns(cfg, TOOL), TOOL, NO_ANSWER);
    LimitReached(cfg, last);
    hide Pass, Told, Admissible;
    assert inputs[..2] == JudgedNext(cfg, TOOL);
  }

  /** The streaks that occur are exactly those up to the limit: two with backups, one without. */
  lemma {:induction false} StreaksReachedExactly(cfg: Settings, n: nat)
    requires Configured(cfg) && n >= 1
    ensures (exists disk, inputs :: Reaches(cfg, disk, inputs, n)) <==> n <= StreakLimit(cfg)
  {
    forall disk, inputs | Reaches(cfg, disk, inputs, n) ensures n <= StreakLimit(cfg) {
      StreaksStayBounded(cfg, disk, inputs);
    }
    if n == 1 {
      var inputs := OneFailure(cfg);
    } else if n <= StreakLimit(cfg) {
      var inputs := TwoFailures(cfg);
    }
  }

  /** The global breaker can open exactly when the escalation threshold is a streak that occurs: at one, or at two with
      backups. At the default of three no pass from a fresh start ever finds it open. */
  lemma {:induction false} GlobalBreakerOpensExactly(cfg: Settings)
    requires Configured(cfg)
    ensures (exists disk, inputs :: Opens(cfg, disk, inputs)) <==> cfg.breaker.escalateThreshold <= StreakLimit(cfg)
  {
    forall disk, inputs | Opens(cfg, disk, inputs) ensures cfg.breaker.escalateThreshold <= StreakLimit(cfg) {
      StreaksStayBounded(cfg, disk, inputs[..|inputs| - 1]);
      PassSafe(cfg, Passes(cfg, Fresh(disk), inputs[..|inputs| - 1]), inputs[|inputs| - 1]);
    }
    if cfg.breaker.escalateThreshold <= 1 {
      var inputs := OneFailure(cfg);
      assert Opens(cfg, DISK, inputs + inputs);
    } else if cfg.breaker.escalateThreshold <= StreakLimit(cfg) {
      var inputs := TwoFailures(cfg);
    }
  }
}
