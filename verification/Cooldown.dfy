/** `core/evolution/__init__.py`, `EvolutionEngine.run`, lines 242-351: whether a live cooldown keeps a pass from
    rewriting. The checks look cooldowns up by key prefix, so it depends on the names of the tools. */
module Cooldown {
  import opened Evolution
  import opened EvolutionRun
  import opened Breaker
  import opened Rollback
  import opened Wrappers

  // ---------- Histories over a set of names ----------

  ghost predicate HistoryOver(cfg: Settings, inputs: seq<Inputs>, names: set<string>) {
    History(cfg, inputs) && forall i :: 0 <= i < |inputs| ==> inputs[i].files.Keys <= names
  }

  /** Breaker records and pending records belong to these names. */
  predicate Over(w: World, names: set<string>) {
    KeysOver(w.facts, names) && TargetsOver(w.pending, names)
  }

  predicate TargetsOver(pending: seq<Pending>, names: set<string>) {
    forall p :: p in pending ==> p.target in names
  }

  lemma {:induction false} UpdateKeysOver(table: Table, cfg: Config, target: string, success: bool, now: int,
                                          names: set<string>)
    requires KeysOver(table, names) && target in names
    ensures KeysOver(AfterUpdate(table, cfg, target, success, now), names)
  {
    DeleteRemoves(table, KeyOf(target));
    DeleteRemoves(Put(table, KeyOf(target), Failed(Load(table, KeyOf(target)), cfg, now)), GLOBAL);
  }

  lemma {:induction false} SettledOver(cfg: Settings, w: World, o: Observations, rows: seq<Pending>, names: set<string>)
    requires Over(w, names) && TargetsOver(rows, names)
    ensures Over(SettledAll(cfg, w, o, rows).0, names)
    decreases |rows|
  {
    if rows != [] {
      assert rows[0] in rows;
      UpdateKeysOver(w.facts, cfg.breaker, rows[0].target, VerdictOn(cfg, o, rows[0]).Verified?, o.now, names);
      WithoutKeeps(w.pending, rows[0].target);
      if !Settled(cfg, w, o, rows[0]).1 {
        SettledOver(cfg, Settled(cfg, w, o, rows[0]).0, o, rows[1..], names);
      }
    }
  }

  lemma {:induction false} RewriteKeepsNames(cfg: Settings, w: World, inp: Inputs, target: string, names: set<string>)
    requires Over(w, names) && target in inp.files && target in names
    ensures var (w', success) := Rewritten(cfg, w, inp, target);
            Over(w'.(facts := AfterUpdate(w'.facts, cfg.breaker, target, success, inp.nowUpdate)), names)
  {
    var (w', success) := Rewritten(cfg, w, inp, target);
    RewrittenShape(cfg, w, inp, target);
    UpdateKeysOver(w.facts, cfg.breaker, target, success, inp.nowUpdate, names);
    WithoutKeeps(w.pending, target);
  }

  lemma {:induction false} PassKeepsNames(cfg: Settings, w: World, inp: Inputs, names: set<string>)
    requires Over(w, names) && inp.files.Keys <= names
    ensures Over(Pass(cfg, w, inp).0, names)
  {
    SettledOver(cfg, w, inp.observations, Batch(w.pending), names);
    var (w1, raised) := Processed(cfg, w, inp.observations);
    if !raised {
      CheckRows(w1.facts, GLOBAL, inp.nowGlobal);
      var w2 := w1.(facts := AfterCheck(w1.facts, GLOBAL, inp.nowGlobal));
      var (facts, candidates) := Scan(w2.facts, inp.ranked, inp);
      ScanClears(w2.facts, inp.ranked, inp);
      ScanNames(w2.facts, inp.ranked, inp);
      if candidates != [] && Choose(candidates, inp.llm).Some? {
        RewriteKeepsNames(cfg, w2.(facts := facts), inp, Choose(candidates, inp.llm).value, names);
      }
    }
  }

  lemma {:induction false} PassesKeepNames(cfg: Settings, disk: map<Path, Source>, inputs: seq<Inputs>,
                                           names: set<string>)
    requires forall i :: 0 <= i < |inputs| ==> inputs[i].files.Keys <= names
    ensures Over(Passes(cfg, Fresh(disk), inputs), names)
  {
    if inputs != [] {
      var front := inputs[..|inputs| - 1];
      PassesKeepNames(cfg, disk, front, names);
      PassKeepsNames(cfg, Passes(cfg, Fresh(disk), front), inputs[|inputs| - 1], names);
    }
  }

  // ---------- A tool's own cooldown ----------

  /** What is stored when the pass comes to its checks. */
  function Faced(cfg: Settings, w: World, inp: Inputs): Table {
    Processed(cfg, w, inp.observations).0.facts
  }

  ghost predicate RewritesUnderOwn(cfg: Settings, w: World, inp: Inputs) {
    var ended := Pass(cfg, w, inp).1;
    ended.Rewrote? && Stored(Faced(cfg, w, inp), KeyOf(ended.target)).cooldownUntil > inp.nowCheck
  }

  /** The last of these passes rewrites a tool under its own live cooldown. */
  ghost predicate OwnIgnored(cfg: Settings, disk: map<Path, Source>, inputs: seq<Inputs>, names: set<string>) {
    && HistoryOver(cfg, inputs, names) && inputs != []
    && RewritesUnderOwn(cfg, Passes(cfg, Fresh(disk), inputs[..|inputs| - 1]), inputs[|inputs| - 1])
  }

  /** The scan forgets no record that is still cooling down, and admits no target that has one. */
  lemma {:induction false} ScanRespects(facts: Table, ranked: seq<string>, inp: Inputs, names: set<string>, key: string)
    requires KeysApart(names) && KeysOver(facts, names) && inp.files.Keys <= names
    requires forall r :: r in facts ==> r.key != GLOBAL
    ensures KeysOver(Scan(facts, ranked, inp).0, names)
    ensures var after := Stored(Scan(facts, ranked, inp).0, key);
            after == Stored(facts, key) || (after == NOTHING && Stored(facts, key).cooldownUntil <= inp.nowCheck)
    ensures forall c :: c in Scan(facts, ranked, inp).1 && KeyOf(c) == key && inp.nowCheck >= 0 ==>
              Stored(facts, key).cooldownUntil <= inp.nowCheck
  {
    ScanClears(facts, ranked, inp);
    if ranked != [] {
      var front, name := ranked[..|ranked| - 1], ranked[|ranked| - 1];
      ScanRespects(facts, front, inp, names, key);
      ScanClears(facts, front, inp);
      var before := Scan(facts, front, inp).0;
      if name in inp.files {
        TargetIsStored(before, names, name);
        CheckRows(before, KeyOf(name), inp.nowCheck);
        StoredAfterDelete(before, KeyOf(name), key);
      }
    }
  }

  /** The ranked tools that have a file and no live cooldown stored. */
  function Eligible(facts: Table, ranked: seq<string>, inp: Inputs): seq<string> {
    if ranked == [] then []
    else
      var name := ranked[|ranked| - 1];
      Eligible(facts, ranked[..|ranked| - 1], inp)
      + if name in inp.files && Stored(facts, KeyOf(name)).cooldownUntil <= inp.nowCheck then [name] else []
  }

  /** Although every check may delete a record, the scan admits just the tools that were eligible when it began, in the
      order of their failures. */
  lemma {:induction false} ScanIsFilter(facts: Table, ranked: seq<string>, inp: Inputs, names: set<string>)
    requires KeysApart(names) && KeysOver(facts, names) && inp.files.Keys <= names && inp.nowCheck >= 0
    requires forall r :: r in facts ==> r.key != GLOBAL
    ensures Scan(facts, ranked, inp).1 == Eligible(facts, ranked, inp)
  {
    if ranked != [] {
      var front, name := ranked[..|ranked| - 1], ranked[|ranked| - 1];
      ScanIsFilter(facts, front, inp, names);
      ScanRespects(facts, front, inp, names, KeyOf(name));
      ScanClears(facts, front, inp);
      if name in inp.files {
        TargetIsStored(Scan(facts, front, inp).0, names, name);
      }
    }
  }

  /** Past the global check there is no global record, so names that are apart from one another are enough. */
  lemma {:induction false} PassRespects(cfg: Settings, w: World, inp: Inputs, names: set<string>)
    requires KeysApart(names) && Over(w, names)
    requires inp.files.Keys <= names && "global" !in names && inp.nowCheck >= 0
    ensures !RewritesUnderOwn(cfg, w, inp)
  {
    var facts := Faced(cfg, w, inp);
    SettledOver(cfg, w, inp.observations, Batch(w.pending), names);
    if Pass(cfg, w, inp).1.Rewrote? {
      CheckRows(facts, GLOBAL, inp.nowGlobal);
      var checked := AfterCheck(facts, GLOBAL, inp.nowGlobal);
      var target := Pass(cfg, w, inp).1.target;
      ScanRespects(checked, inp.ranked, inp, names, KeyOf(target));
      ScanNames(checked, inp.ranked, inp);
      StoredAfterDelete(facts, GLOBAL, KeyOf(target));
      KeyIsGlobal(target);
    }
  }

  lemma {:induction false} OwnRespected(cfg: Settings, disk: map<Path, Source>, inputs: seq<Inputs>, names: set<string>)
    requires "global" !in names && OwnIgnored(cfg, disk, inputs, names)
    ensures !KeysApart(names) && cfg.breaker.failThreshold <= StreakLimit(cfg)
  {
    var front, last := inputs[..|inputs| - 1], inputs[|inputs| - 1];
    var w := Passes(cfg, Fresh(disk), front);
    PassesKeepNames(cfg, disk, front, names);
    if KeysApart(names) {
      PassRespects(cfg, w, last, names);
    }
    StreaksStayBounded(cfg, disk, front);
    SettledAllSafe(cfg, w, last.observations, Batch(w.pending));
    var key := KeyOf(Pass(cfg, w, last).1.target);
    StoredComesFrom(Faced(cfg, w, last), key);
    TargetRegistered(cfg, w, last);
    KeyIsGlobal(Pass(cfg, w, last).1.target);
  }

  lemma {:induction false} TargetRegistered(cfg: Settings, w: World, inp: Inputs)
    ensures Pass(cfg, w, inp).1.Rewrote? ==> Pass(cfg, w, inp).1.target in inp.files
  {
    var w1 := Processed(cfg, w, inp.observations).0;
    ScanNames(AfterCheck(w1.facts, GLOBAL, inp.nowGlobal), inp.ranked, inp);
  }

  // ---------- Histories that ignore it ----------

  /** `b` fails after `a`, and its record hides the one of `a`. */
  lemma {:induction false} HiddenBy(facts: Table, a: string, b: string, rec: Record)
    requires Shadows(KeyOf(b), KeyOf(a)) && a != b
    ensures Load([Row(KeyOf(b), rec)] + facts, KeyOf(a)) == NOTHING
  {
    DistinctKeys(a, b);
  }

  /** A failed update of a name nothing is stored for, short of escalation. */
  lemma {:induction false} FirstUpdate(facts: Table, cfg: Config, name: string)
    requires NoneFor(facts, name) && cfg.escalateThreshold >= 2
    ensures AfterUpdate(facts, cfg, name, false, 0) == [Row(KeyOf(name), Failed(NOTHING, cfg, 0))] + facts
  {
    DeleteAbsent(facts, KeyOf(name));
  }

  /** `a` is under a live cooldown; then `b` fails, and `a` is ranked. */
  lemma {:induction false} ThenIgnored(cfg: Settings, w: World, w1: World, o: Observations, a: string, b: string)
    requires Configured(cfg) && cfg.breaker.escalateThreshold >= 2
    requires a != "global" && b != "global" && a != b && Shadows(KeyOf(b), KeyOf(a))
    requires Processed(cfg, w, o) == (w1, false) && w1.pending == [] && NoneFor(w1.facts, b)
    requires Stored(w1.facts, KeyOf(a)).cooldownUntil > 0
    ensures RewritesUnderOwn(cfg, Pass(cfg, w, Told(cfg, o, b, NO_ANSWER)).0, Told(cfg, NOTHING_SEEN, a, NO_ANSWER))
  {
    var rec := Failed(NOTHING, cfg.breaker, 0);
    FailsNext(cfg, w, w1, o, b);
    FirstUpdate(w1.facts, cfg.breaker, b);
    var w2 := w1.(facts := [Row(KeyOf(b), rec)] + w1.facts);
    assert Pass(cfg, w, Told(cfg, o, b, NO_ANSWER)).0 == w2;
    KeyIsGlobal(b);
    DistinctKeys(a, b);
    DeleteAbsent(w2.facts, GLOBAL);
    HiddenBy(w1.facts, a, b, rec);
    NothingJudged(cfg, w2, []);
    RanksOne(cfg, w2, w2, Told(cfg, NOTHING_SEEN, a, NO_ANSWER), a);
  }

  // The histories are told pass by pass, all of it within one second.

  function SourcesOf(a: string, b: string): map<Path, Source> {
    map[FileOf(a) := "old", FileOf(b) := "old"]
  }

  ghost predicate AtOnce(cfg: Settings, inputs: seq<Inputs>, names: set<string>) {
    HistoryOver(cfg, inputs, names) && forall i :: 0 <= i < |inputs| ==> inputs[i].nowUpdate == 0
  }

  lemma {:induction false} OneMore(cfg: Settings, w: World, inputs: seq<Inputs>, inp: Inputs, names: set<string>)
    requires AtOnce(cfg, inputs, names) && Admissible(cfg, inp) && inp.files.Keys <= names
    ensures HistoryOver(cfg, inputs + [inp], names)
    ensures inp.nowUpdate == 0 ==> AtOnce(cfg, inputs + [inp], names)
    ensures Passes(cfg, w, inputs + [inp]) == Pass(cfg, Passes(cfg, w, inputs), inp).0
    ensures (inputs + [inp])[..|inputs|] == inputs
  {
    assert 0 <= inp.observations.now;
    hide Pass, Admissible;
  }

  /** Told of `name`, or of its verdict only. */
  lemma {:induction false} ToldNext(cfg: Settings, w: World, inputs: seq<Inputs>, o: Observations, name: string,
                                    answer: Attempt, names: set<string>)
    requires AtOnce(cfg, inputs, names) && name in names && "global" !in names && o.now == 0
    ensures AtOnce(cfg, inputs + [Told(cfg, o, name, answer)], names)
    ensures Passes(cfg, w, inputs + [Told(cfg, o, name, answer)]) ==
            Pass(cfg, Passes(cfg, w, inputs), Told(cfg, o, name, answer)).0
    ensures (inputs + [Told(cfg, o, name, answer)])[..|inputs|] == inputs
  {
    ToldIsAdmissible(cfg, o, name, answer);
    OneMore(cfg, w, inputs, Told(cfg, o, name, answer), names);
  }

  lemma {:induction false} JudgedNextAtOnce(cfg: Settings, name: string, names: set<string>)
    requires name in names && "global" !in names
    ensures AtOnce(cfg, JudgedNext(cfg, name), names)
  {
    var start := Fresh(map[]);
    ToldNext(cfg, start, [], NOTHING_SEEN, name, ACCEPTED, names);
    ToldNext(cfg, start, [Told(cfg, NOTHING_SEEN, name, ACCEPTED)], NOTHING_SEEN, name, NO_ANSWER, names);
    hide Pass, Passes, AtOnce, Told;
    assert [] + [Told(cfg, NOTHING_SEEN, name, ACCEPTED)] == [Told(cfg, NOTHING_SEEN, name, ACCEPTED)];
    assert JudgedNext(cfg, name) ==
           [Told(cfg, NOTHING_SEEN, name, ACCEPTED)] + [Told(cfg, NOTHING_SEEN, name, NO_ANSWER)];
  }

  /** These passes leave `a` under a live cooldown, if the verdict of the next one counts; `b` fails in that one. */
  lemma {:induction false} EndsIgnored(cfg: Settings, w1: World, inputs: seq<Inputs>, o: Observations,
                                       names: set<string>, a: string, b: string) returns (longer: seq<Inputs>)
    requires Configured(cfg) && cfg.breaker.escalateThreshold >= 2 && AtOnce(cfg, inputs, names) && o.now == 0
    requires "global" !in names && a in names && b in names && a != b && Shadows(KeyOf(b), KeyOf(a))
    requires Processed(cfg, Passes(cfg, Fresh(SourcesOf(a, b)), inputs), o) == (w1, false)
    requires w1.pending == [] && NoneFor(w1.facts, b) && Stored(w1.facts, KeyOf(a)).cooldownUntil > 0
    ensures OwnIgnored(cfg, SourcesOf(a, b), longer, names)
  {
    var start := Fresh(SourcesOf(a, b));
    var failed, ranked := Told(cfg, o, b, NO_ANSWER), Told(cfg, NOTHING_SEEN, a, NO_ANSWER);
    ThenIgnored(cfg, Passes(cfg, start, inputs), w1, o, a, b);
    ToldNext(cfg, start, inputs, o, b, NO_ANSWER, names);
    ToldNext(cfg, start, inputs + [failed], NOTHING_SEEN, a, NO_ANSWER, names);
    longer := inputs + [failed] + [ranked];
    hide Pass, Passes, Told, RewritesUnderOwn, HistoryOver, Shadows, Processed, Stored;
    assert longer[..|longer| - 1] == inputs + [failed];
  }

  /** At a threshold of one a failure of each is enough. */
  lemma {:induction false} IgnoredAtOne(cfg: Settings, names: set<string>, a: string, b: string)
    returns (inputs: seq<Inputs>)
    requires Configured(cfg) && cfg.breaker.failThreshold == 1 < cfg.breaker.escalateThreshold
    requires "global" !in names && a in names && b in names && a != b && Shadows(KeyOf(b), KeyOf(a))
    ensures OwnIgnored(cfg, SourcesOf(a, b), inputs, names)
  {
    var start, failed := Fresh(SourcesOf(a, b)), Told(cfg, NOTHING_SEEN, a, NO_ANSWER);
    NothingJudged(cfg, start, []);
    FailsNext(cfg, start, start, NOTHING_SEEN, a);
    FirstUpdate([], cfg.breaker, a);
    var w := start.(facts := [Row(KeyOf(a), Failed(NOTHING, cfg.breaker, 0))]);
    NothingJudged(cfg, w, []);
    KeyIsGlobal(a);
    DistinctKeys(a, b);
    assert NoneFor(w.facts, b) && Stored(w.facts, KeyOf(a)).cooldownUntil > 0;
    assert Processed(cfg, w, NOTHING_SEEN) == (w, false);
    OnePass(cfg, start, failed);
    assert Passes(cfg, start, [failed]) == w;
    ToldNext(cfg, start, [], NOTHING_SEEN, a, NO_ANSWER, names);
    hide Pass, Passes, Told, Shadows, Processed, Stored, NoneFor;
    assert [] + [failed] == [failed];
    inputs := EndsIgnored(cfg, w, [failed], NOTHING_SEEN, names, a, b);
  }

  /** The first failure of `a` and then the verdict on its last rewrite. */
  lemma {:induction false} SecondUpdate(cfg: Config, name: string)
    requires name != "global" && cfg.escalateThreshold >= 2
    ensures var facts := AfterUpdate(AfterUpdate([], cfg, name, false, 0), cfg, name, false, 0);
            var own := Row(KeyOf(name), Record(2, if cfg.failThreshold <= 2 then cfg.cooldown else 0));
            facts == if cfg.escalateThreshold == 2 then [Row(GLOBAL, Record(2, cfg.globalCooldown)), own] else [own]
  {
    FirstUpdate([], cfg, name);
    KeyIsGlobal(name);
    FindsItself(KeyOf(name));
    hide Shadows;
    var first, own := Failed(NOTHING, cfg, 0), Row(KeyOf(name), Failed(Failed(NOTHING, cfg, 0), cfg, 0));
    var table := [Row(KeyOf(name), first)];
    assert AfterUpdate([], cfg, name, false, 0) == table && Load(table, KeyOf(name)) == first;
    assert table[1..] == [] && Delete(table, KeyOf(name)) == [];
    DeleteAbsent([own], GLOBAL);
  }

  /** At a threshold of two the verdict on a rewrite and one further failure are. */
  lemma {:induction false} IgnoredAtTwo(cfg: Settings, names: set<string>, a: string, b: string)
    returns (inputs: seq<Inputs>)
    requires Configured(cfg) && cfg.backup && cfg.breaker.failThreshold == 2 < cfg.breaker.escalateThreshold
    requires "global" !in names && a in names && b in names && a != b && Shadows(KeyOf(b), KeyOf(a))
    ensures OwnIgnored(cfg, SourcesOf(a, b), inputs, names)
  {
    var disk := SourcesOf(a, b);
    AfterJudgedNext(cfg, disk, a);
    var w := Passes(cfg, Fresh(disk), JudgedNext(cfg, a));
    VerdictCounts(cfg, w, a);
    SecondUpdate(cfg.breaker, a);
    var w1 := Processed(cfg, w, FailingRuns(cfg, a)).0;
    KeyIsGlobal(a);
    DistinctKeys(a, b);
    hide Processed, AfterUpdate, Passes, JudgedNext, Shadows;
    assert NoneFor(w1.facts, b) && Stored(w1.facts, KeyOf(a)).cooldownUntil > 0;
    JudgedNextAtOnce(cfg, a, names);
    inputs := EndsIgnored(cfg, w1, JudgedNext(cfg, a), FailingRuns(cfg, a), names, a, b);
  }

  /** Where a cooldown comes before escalation, some history ignores a tool's live cooldown exactly when one tool's
      query finds another's record and the threshold is a streak that occurs. */
  lemma {:induction false} OwnCooldownExactly(cfg: Settings, names: set<string>)
    requires Configured(cfg) && cfg.breaker.failThreshold < cfg.breaker.escalateThreshold && "global" !in names
    ensures (exists disk, inputs :: OwnIgnored(cfg, disk, inputs, names)) <==>
            !KeysApart(names) && cfg.breaker.failThreshold <= StreakLimit(cfg)
  {
    hide OwnIgnored, Shadows;
    forall disk, inputs | OwnIgnored(cfg, disk, inputs, names)
      ensures !KeysApart(names) && cfg.breaker.failThreshold <= StreakLimit(cfg)
    {
      OwnRespected(cfg, disk, inputs, names);
    }
    if !KeysApart(names) && cfg.breaker.failThreshold <= StreakLimit(cfg) {
      var a, b :| a in names && b in names && a != b && Shadows(KeyOf(b), KeyOf(a));
      var inputs;
      if cfg.breaker.failThreshold == 1 {
        inputs := IgnoredAtOne(cfg, names, a, b);
      } else {
        inputs := IgnoredAtTwo(cfg, names, a, b);
      }
    }
  }

  /** A name that extends another's is enough. */
  lemma {:induction false} ExtendingName(names: set<string>, a: string, rest: string)
    requires a in names && a + rest in names && rest != ""
    ensures !KeysApart(names)
  {
    LikeExtension(KeyOf(a), rest);
    assert KeyOf(a + rest) == KeyOf(a) + rest;
    assert |a + rest| > |a|;
  }

  /** The default settings. */
  const DEFAULTS := Settings(3, true, false, 3, true, Config(2, 3, 1800, 3600))

  /** Whatever the settings, no pass of any history rewrites a tool under its own live cooldown, exactly when no tool's
      query finds another tool's record. */
  lemma {:induction false} OwnCooldownKeptExactly(names: set<string>)
    requires "global" !in names
    ensures (forall cfg, disk, inputs :: Configured(cfg) ==> !OwnIgnored(cfg, disk, inputs, names)) <==>
            KeysApart(names)
  {
    OwnCooldownExactly(DEFAULTS, names);
    assert Configured(DEFAULTS);
    hide OwnIgnored, KeysApart;
    forall cfg, disk, inputs | OwnIgnored(cfg, disk, inputs, names) ensures !KeysApart(names) {
      OwnRespected(cfg, disk, inputs, names);
    }
    if !KeysApart(names) {
      var disk, inputs :| OwnIgnored(DEFAULTS, disk, inputs, names);
      assert Configured(DEFAULTS) && OwnIgnored(DEFAULTS, disk, inputs, names);
    }
  }

  // ---------- The global cooldown ----------

  ghost predicate RewritesUnderGlobal(cfg: Settings, w: World, inp: Inputs) {
    Pass(cfg, w, inp).1.Rewrote? && Stored(Faced(cfg, w, inp), GLOBAL).cooldownUntil > inp.nowGlobal
  }

  /** The last of these passes rewrites a tool under the live global cooldown. */
  ghost predicate GlobalIgnored(cfg: Settings, disk: map<Path, Source>, inputs: seq<Inputs>, names: set<string>) {
    && HistoryOver(cfg, inputs, names) && inputs != []
    && RewritesUnderGlobal(cfg, Passes(cfg, Fresh(disk), inputs[..|inputs| - 1]), inputs[|inputs| - 1])
  }

  /** The global record is the newest; unless every failure escalates, nothing is left to be judged beside it. */
  ghost predicate Fronted(cfg: Settings, w: World) {
    && GlobalFirst(w.facts)
    && (cfg.breaker.escalateThreshold <= 1 || w.pending == [] || forall r :: r in w.facts ==> r.key != GLOBAL)
  }

  /** Either every failure escalates, or there is one tool at most. */
  predicate FewFailures(cfg: Settings, names: set<string>) {
    cfg.breaker.escalateThreshold <= 1 || |names| <= 1
  }

  lemma {:induction false} OnlyName(names: set<string>, a: string, b: string)
    requires |names| <= 1 && a in names && b in names
    ensures a == b
  {
    assert |names - {a}| == |names| - 1;
    assert b !in names - {a};
  }

  lemma {:induction false} AllJudged(pending: seq<Pending>, names: set<string>, target: string)
    requires |names| <= 1 && TargetsOver(pending, names) && target in names
    ensures Without(pending, target) == []
  {
    if pending != [] {
      assert pending[0] in pending;
      OnlyName(names, pending[0].target, target);
      AllJudged(pending[1..], names, target);
    }
  }

  lemma {:induction false} SettledFronted(cfg: Settings, w: World, o: Observations, p: Pending, names: set<string>)
    requires FewFailures(cfg, names) && TargetsOver(w.pending, names) && p in w.pending && Fronted(cfg, w)
    ensures Fronted(cfg, Settled(cfg, w, o, p).0)
  {
    UpdateGlobalFirst(w.facts, cfg.breaker, p.target, VerdictOn(cfg, o, p).Verified?, o.now);
    if cfg.breaker.escalateThreshold > 1 {
      AllJudged(w.pending, names, p.target);
    }
  }

  lemma {:induction false} SettledAllFronted(cfg: Settings, w: World, o: Observations, rows: seq<Pending>,
                                             names: set<string>)
    requires FewFailures(cfg, names) && TargetsOver(w.pending, names) && Fronted(cfg, w)
    requires Safe(cfg, w) && OnePerTarget(rows) && forall r :: r in rows ==> r in w.pending
    ensures Fronted(cfg, SettledAll(cfg, w, o, rows).0)
    decreases |rows|
  {
    if rows != [] {
      assert rows[0] in rows;
      SettledFronted(cfg, w, o, rows[0], names);
      SettledSafe(cfg, w, o, rows[0]);
      WithoutKeeps(w.pending, rows[0].target);
      forall r | r in rows[1..] ensures r in Settled(cfg, w, o, rows[0]).0.pending {
        assert r in rows && r.target != rows[0].target;
      }
      if !Settled(cfg, w, o, rows[0]).1 {
        SettledAllFronted(cfg, Settled(cfg, w, o, rows[0]).0, o, rows[1..], names);
      }
    }
  }

  lemma {:induction false} ScanGlobalFirst(facts: Table, ranked: seq<string>, inp: Inputs)
    requires GlobalFirst(facts)
    ensures GlobalFirst(Scan(facts, ranked, inp).0)
  {
    if ranked != [] {
      var front, name := ranked[..|ranked| - 1], ranked[|ranked| - 1];
      ScanGlobalFirst(facts, front, inp);
      DeleteGlobalFirst(Scan(facts, front, inp).0, KeyOf(name));
    }
  }

  /** A rewrite starts without a global record and without one of its own, so a failure of it is a first one. */
  lemma {:induction false} RewriteFronted(cfg: Settings, w: World, inp: Inputs, target: string)
    requires target in inp.files && target != "global" && NoneFor(w.facts, target)
    ensures var (w', success) := Rewritten(cfg, w, inp, target);
            Fronted(cfg, w'.(facts := AfterUpdate(w'.facts, cfg.breaker, target, success, inp.nowUpdate)))
  {
    var (w', success) := Rewritten(cfg, w, inp, target);
    RewrittenShape(cfg, w, inp, target);
    DeleteAbsent(w.facts, KeyOf(target));
    UpdateGlobalFirst(w.facts, cfg.breaker, target, success, inp.nowUpdate);
    UpdateRows(w.facts, cfg.breaker, target, success, inp.nowUpdate);
  }

  lemma {:induction false} PassFronted(cfg: Settings, w: World, inp: Inputs, names: set<string>)
    requires FewFailures(cfg, names) && Over(w, names) && Safe(cfg, w) && Fronted(cfg, w)
    requires inp.files.Keys <= names && "global" !in names
    ensures Load(Faced(cfg, w, inp), GLOBAL) == Stored(Faced(cfg, w, inp), GLOBAL)
    ensures Fronted(cfg, Pass(cfg, w, inp).0)
  {
    SettledAllFronted(cfg, w, inp.observations, Batch(w.pending), names);
    var (w1, raised) := Processed(cfg, w, inp.observations);
    GlobalFirstLoads(w1.facts);
    if !raised {
      CheckRows(w1.facts, GLOBAL, inp.nowGlobal);
      DeleteGlobalFirst(w1.facts, GLOBAL);
      var w2 := w1.(facts := AfterCheck(w1.facts, GLOBAL, inp.nowGlobal));
      var (facts, candidates) := Scan(w2.facts, inp.ranked, inp);
      ScanGlobalFirst(w2.facts, inp.ranked, inp);
      ScanClears(w2.facts, inp.ranked, inp);
      ScanNames(w2.facts, inp.ranked, inp);
      if Pass(cfg, w, inp).1.Rewrote? {
        RewriteFronted(cfg, w2.(facts := facts), inp, Choose(candidates, inp.llm).value);
      }
    }
  }

  lemma {:induction false} PassesFronted(cfg: Settings, disk: map<Path, Source>, inputs: seq<Inputs>,
                                         names: set<string>)
    requires FewFailures(cfg, names) && "global" !in names && HistoryOver(cfg, inputs, names)
    ensures Fronted(cfg, Passes(cfg, Fresh(disk), inputs))
  {
    if inputs != [] {
      var front := inputs[..|inputs| - 1];
      PassesFronted(cfg, disk, front, names);
      PassesKeepNames(cfg, disk, front, names);
      StreaksStayBounded(cfg, disk, front);
      PassFronted(cfg, Passes(cfg, Fresh(disk), front), inputs[|inputs| - 1], names);
    }
  }

  /** The names do no harm, there is only one, or no verdict escalates that a first failure does not. */
  predicate GlobalSafe(cfg: Settings, names: set<string>) {
    GlobalApart(names) || |names| <= 1 || cfg.breaker.escalateThreshold != 2 || !cfg.backup
  }

  lemma {:induction false} GlobalRespected(cfg: Settings, disk: map<Path, Source>, inputs: seq<Inputs>,
                                           names: set<string>)
    requires Configured(cfg) && "global" !in names && GlobalSafe(cfg, names)
    ensures !GlobalIgnored(cfg, disk, inputs, names)
  {
    if HistoryOver(cfg, inputs, names) && inputs != [] {
      var front, last := inputs[..|inputs| - 1], inputs[|inputs| - 1];
      var w := Passes(cfg, Fresh(disk), front);
      PassesKeepNames(cfg, disk, front, names);
      StreaksStayBounded(cfg, disk, front);
      if GlobalApart(names) {
        SettledOver(cfg, w, last.observations, Batch(w.pending), names);
        GlobalIsStored(Faced(cfg, w, last), names);
      } else if FewFailures(cfg, names) {
        PassesFronted(cfg, disk, front, names);
        PassFronted(cfg, w, last, names);
      } else {
        SettledAllSafe(cfg, w, last.observations, Batch(w.pending));
        StoredComesFrom(Faced(cfg, w, last), GLOBAL);
      }
    }
  }

  // ---------- A history that ignores it ----------

  /** Both rewritten, `x` failing once more. */
  function BothJudgedNext(cfg: Settings, b: string, x: string): seq<Inputs> {
    [Told(cfg, NOTHING_SEEN, b, ACCEPTED), Told(cfg, NOTHING_SEEN, x, ACCEPTED), Told(cfg, NOTHING_SEEN, x, NO_ANSWER)]
  }

  /** One world after the other. */
  lemma {:induction false} BothJudgedWorlds(cfg: Settings, start: World, b: string, x: string)
    requires Configured(cfg) && cfg.backup && b != x && start == Fresh(SourcesOf(b, x))
    ensures var w1 := Pass(cfg, start, Told(cfg, NOTHING_SEEN, b, ACCEPTED)).0;
            var w2 := Pass(cfg, w1, Told(cfg, NOTHING_SEEN, x, ACCEPTED)).0;
            var w := Pass(cfg, w2, Told(cfg, NOTHING_SEEN, x, NO_ANSWER)).0;
            w.pending == [RecordOf(x), RecordOf(b)] && w.facts == AfterUpdate([], cfg.breaker, x, false, 0)
  {
    AcceptedNext(cfg, start, b);
    var w1 := Pass(cfg, start, Told(cfg, NOTHING_SEEN, b, ACCEPTED)).0;
    AcceptedNext(cfg, w1, x);
    var w2 := Pass(cfg, w1, Told(cfg, NOTHING_SEEN, x, ACCEPTED)).0;
    NothingJudged(cfg, w2, Batch(w2.pending));
    FailsNext(cfg, w2, w2, NOTHING_SEEN, x);
    hide Pass, Processed, AfterUpdate, Told;
    assert Without([RecordOf(b)], x) == [RecordOf(b)];
  }

  lemma {:induction false} AfterBothJudgedNext(cfg: Settings, b: string, x: string, names: set<string>)
    requires Configured(cfg) && cfg.backup && b != x && b in names && x in names && "global" !in names
    ensures AtOnce(cfg, BothJudgedNext(cfg, b, x), names)
    ensures var w := Passes(cfg, Fresh(SourcesOf(b, x)), BothJudgedNext(cfg, b, x));
            w.pending == [RecordOf(x), RecordOf(b)] && w.facts == AfterUpdate([], cfg.breaker, x, false, 0)
  {
    var start := Fresh(SourcesOf(b, x));
    var p1, p2, p3 := Told(cfg, NOTHING_SEEN, b, ACCEPTED), Told(cfg, NOTHING_SEEN, x, ACCEPTED),
                      Told(cfg, NOTHING_SEEN, x, NO_ANSWER);
    BothJudgedWorlds(cfg, start, b, x);
    OnePass(cfg, start, p1);
    assert BothJudgedNext(cfg, b, x) == [p1, p2, p3];
    assert HistoryOver(cfg, [], names) && AtOnce(cfg, [], names);
    hide *;
    assert [] + [p1] == [p1] && [p1] + [p2] == [p1, p2] && [p1, p2] + [p3] == [p1, p2, p3];
    ToldNext(cfg, start, [], NOTHING_SEEN, b, ACCEPTED, names);
    ToldNext(cfg, start, [p1], NOTHING_SEEN, x, ACCEPTED, names);
    ToldNext(cfg, start, [p1, p2], NOTHING_SEEN, x, NO_ANSWER, names);
  }

  /** The verdict on `x` escalates, and the pass ends there. */
  lemma {:induction false} VerdictEscalates(cfg: Settings, w: World, b: string, x: string)
    requires Configured(cfg) && cfg.breaker.escalateThreshold == 2 && b != x && x != "global"
    requires w.pending == [RecordOf(x), RecordOf(b)] && w.facts == AfterUpdate([], cfg.breaker, x, false, 0)
    ensures var w' := Pass(cfg, w, Told(cfg, FailingRuns(cfg, x), x, NO_ANSWER)).0;
            w'.pending == [RecordOf(b)] && w'.facts == AfterUpdate(w.facts, cfg.breaker, x, false, 0)
  {
    var o := FailingRuns(cfg, x);
    JudgedRegressed(cfg, x, x);
    JudgedRegressed(cfg, x, b);
    SecondUpdate(cfg.breaker, x);
    FindsItself(GLOBAL);
    var w1 := Settled(cfg, w, o, RecordOf(x)).0;
    hide VerdictOn, AfterUpdate, Shadows;
    assert Without([RecordOf(x), RecordOf(b)][1..], x) == [RecordOf(b)];
    assert w1.pending == [RecordOf(b)];
    assert Batch(w.pending) == [RecordOf(x), RecordOf(b)] && w.pending[1..] == [RecordOf(b)];
    assert SettledAll(cfg, w1, o, [RecordOf(b)]) == (w1, false);
    assert Processed(cfg, w, o) == (w1, false);
    assert Load(w1.facts, GLOBAL) == Record(2, cfg.breaker.globalCooldown);
  }

  /** Told of `b` again, when its own cooldown is over. */
  function AskedLater(cfg: Settings, b: string): Inputs {
    var inp := Told(cfg, FailingRuns(cfg, b), b, NO_ANSWER);
    var later := cfg.breaker.cooldown;
    inp.(nowCheck := later, answers := inp.answers.(now := later), nowUpdate := later)
  }

  /** The verdict on `b` writes a record in front of the global one, and hides it. */
  lemma {:induction false} VerdictHides(cfg: Settings, w: World, b: string, x: string)
    requires Configured(cfg) && cfg.breaker.escalateThreshold == 2 && b != x && x != "global" && b != "global"
    requires Shadows(KeyOf(b), GLOBAL) && w.pending == [RecordOf(b)]
    requires w.facts == AfterUpdate(AfterUpdate([], cfg.breaker, x, false, 0), cfg.breaker, x, false, 0)
    ensures RewritesUnderGlobal(cfg, w, AskedLater(cfg, b))
  {
    SecondUpdate(cfg.breaker, x);
    KeyIsGlobal(b);
    KeyIsGlobal(x);
    DistinctKeys(b, x);
    DeleteAbsent(w.facts, KeyOf(b));
    VerdictCounts(cfg, w, b);
    var own, w1 := Row(KeyOf(b), Failed(NOTHING, cfg.breaker, 0)), Processed(cfg, w, FailingRuns(cfg, b)).0;
    assert w1.facts == [own] + w.facts;
    assert Stored(w1.facts, GLOBAL).cooldownUntil == cfg.breaker.globalCooldown;
    assert Load(w1.facts, GLOBAL) == NOTHING;
    FindsItself(KeyOf(b));
    assert Delete(w1.facts, GLOBAL)[0] == own;
    hide Shadows, AfterUpdate, Processed;
    RanksOne(cfg, w, w1, AskedLater(cfg, b), b);
  }

  /** The global query finds `b`: one tool escalates, and a verdict on `b` hides it. */
  lemma {:induction false} GlobalIgnoredAtTwo(cfg: Settings, names: set<string>, b: string, x: string)
    returns (inputs: seq<Inputs>)
    requires Configured(cfg) && cfg.backup && cfg.breaker.escalateThreshold == 2 && "global" !in names
    requires b in names && x in names && b != x && Shadows(KeyOf(b), GLOBAL)
    ensures GlobalIgnored(cfg, SourcesOf(b, x), inputs, names)
  {
    var start, front := Fresh(SourcesOf(b, x)), BothJudgedNext(cfg, b, x);
    var verdict, last := Told(cfg, FailingRuns(cfg, x), x, NO_ANSWER), AskedLater(cfg, b);
    AfterBothJudgedNext(cfg, b, x, names);
    var w := Passes(cfg, start, front);
    VerdictEscalates(cfg, w, b, x);
    ToldNext(cfg, start, front, FailingRuns(cfg, x), x, NO_ANSWER, names);
    VerdictHides(cfg, Pass(cfg, w, verdict).0, b, x);
    assert Admissible(cfg, last) && last.files.Keys <= names;
    OneMore(cfg, start, front + [verdict], last, names);
    inputs := front + [verdict] + [last];
    hide Pass, Passes, Told, AskedLater, RewritesUnderGlobal, HistoryOver, BothJudgedNext;
    assert inputs[..|inputs| - 1] == front + [verdict];
  }

  /** Some history rewrites a tool under the live global cooldown exactly when the escalation threshold is two with
      backups on, and the global query finds one of two tools' records. */
  lemma {:induction false} GlobalCooldownExactly(cfg: Settings, names: set<string>)
    requires Configured(cfg) && "global" !in names
    ensures (exists disk, inputs :: GlobalIgnored(cfg, disk, inputs, names)) <==> !GlobalSafe(cfg, names)
  {
    hide GlobalIgnored, Shadows, Configured;
    forall disk, inputs | GlobalIgnored(cfg, disk, inputs, names) ensures !GlobalSafe(cfg, names) {
      if GlobalSafe(cfg, names) {
        GlobalRespected(cfg, disk, inputs, names);
      }
    }
    if !GlobalSafe(cfg, names) {
      var b :| b in names && Shadows(KeyOf(b), GLOBAL);
      assert |names - {b}| == |names| - 1;
      var x :| x in names - {b};
      var inputs := GlobalIgnoredAtTwo(cfg, names, b, x);
    }
  }
}
