/** `core/evolution/breaker.py` on the fact store of `store/task/fact.py`: per-target failure streaks with a
    cooldown, and one global cooldown. */
module Breaker {
  import opened Text

  /** A breaker fact; no fact at all reads as a zero streak and no cooldown. */
  datatype Record = Record(streak: nat, cooldownUntil: int)

  const NOTHING := Record(0, 0)

  datatype Row = Row(key: string, rec: Record)

  /** The breaker facts, most recently written first. */
  type Table = seq<Row>

  datatype Config = Config(failThreshold: nat, escalateThreshold: nat, cooldown: nat, globalCooldown: nat)

  const PREFIX := "evolution:breaker:"
  const GLOBAL := "evolution:breaker:global"

  function KeyOf(target: string): string {
    PREFIX + target
  }

  // ---------- The fact store ----------

  /** SQLite's LIKE: `%` is any text, `_` any character, letters match in either case. */
  predicate Like(pattern: string, s: string)
    decreases |pattern| + |s|
  {
    if pattern == "" then s == ""
    else if pattern[0] == '%' then Like(pattern[1..], s) || (s != "" && Like(pattern, s[1..]))
    else s != "" && (pattern[0] == '_' || LowerChar(pattern[0]) == LowerChar(s[0])) && Like(pattern[1..], s[1..])
  }

  /** The query for `key` also finds `other`. */
  predicate Shadows(other: string, key: string) {
    Like(key + "%", other)
  }

  /** `_load_breaker_fact`: the newest row the prefix query finds, if it is the one asked for. */
  function Load(table: Table, key: string): Record {
    if table == [] then NOTHING
    else if Shadows(table[0].key, key) then (if table[0].key == key then table[0].rec else NOTHING)
    else Load(table[1..], key)
  }

  /** The record actually stored under `key`. */
  function Stored(table: Table, key: string): Record {
    if table == [] then NOTHING else if table[0].key == key then table[0].rec else Stored(table[1..], key)
  }

  function Delete(table: Table, key: string): Table {
    if table == [] then []
    else if table[0].key == key then Delete(table[1..], key)
    else [table[0]] + Delete(table[1..], key)
  }

  function Put(table: Table, key: string, rec: Record): Table {
    [Row(key, rec)] + Delete(table, key)
  }

  // ---------- The three state functions ----------

  function AfterCheck(table: Table, key: string, now: int): Table {
    if Load(table, key).cooldownUntil <= now then Delete(table, key) else table
  }

  function Failed(prev: Record, cfg: Config, now: int): Record {
    var streak := prev.streak + 1;
    Record(streak, if streak >= cfg.failThreshold then now + cfg.cooldown else 0)
  }

  function AfterUpdate(table: Table, cfg: Config, target: string, success: bool, now: int): Table {
    if success then Delete(table, KeyOf(target))
    else
      var rec := Failed(Load(table, KeyOf(target)), cfg, now);
      var written := Put(table, KeyOf(target), rec);
      if rec.streak >= cfg.escalateThreshold
      then Put(written, GLOBAL, Record(rec.streak, now + cfg.globalCooldown))
      else written
  }

  class BreakerFacts {
    const cfg: Config
    var table: Table

    constructor (cfg: Config)
      ensures this.cfg == cfg && table == []
    {
      this.cfg, table := cfg, [];
    }

    method IsGlobalBreakerCoolingDown(now: int) returns (open: bool, remain: int)
      modifies this
      ensures open <==> Load(old(table), GLOBAL).cooldownUntil > now
      ensures open ==> remain == Load(old(table), GLOBAL).cooldownUntil - now
      ensures table == AfterCheck(old(table), GLOBAL, now)
    {
      var state := Load(table, GLOBAL);
      if state.cooldownUntil <= now {
        table := Delete(table, GLOBAL);
        return false, 0;
      }
      return true, state.cooldownUntil - now;
    }

    /** No live cooldown: the whole record goes, streak included. */
    method IsTargetBreakerCoolingDown(target: string, now: int) returns (open: bool, remain: int, streak: nat)
      modifies this
      ensures open <==> Load(old(table), KeyOf(target)).cooldownUntil > now
      ensures open ==> remain == Load(old(table), KeyOf(target)).cooldownUntil - now
      ensures streak == Load(old(table), KeyOf(target)).streak
      ensures table == AfterCheck(old(table), KeyOf(target), now)
    {
      var state := Load(table, KeyOf(target));
      if state.cooldownUntil <= now {
        table := Delete(table, KeyOf(target));
        return false, 0, state.streak;
      }
      return true, state.cooldownUntil - now, state.streak;
    }

    method UpdateTargetBreakerState(target: string, success: bool, now: int)
      modifies this
      ensures table == AfterUpdate(old(table), cfg, target, success, now)
    {
      if success {
        table := Delete(table, KeyOf(target));
        return;
      }
      var newStreak := Load(table, KeyOf(target)).streak + 1;
      var cooldownUntil := 0;
      if newStreak >= cfg.failThreshold {
        cooldownUntil := now + cfg.cooldown;
      }
      table := Put(table, KeyOf(target), Record(newStreak, cooldownUntil));
      if newStreak >= cfg.escalateThreshold {
        table := Put(table, GLOBAL, Record(newStreak, now + cfg.globalCooldown));
      }
    }
  }

  // ---------- What the prefix query misses ----------

  lemma {:induction false} AnyText(s: string)
    ensures Like("%", s)
  {
    if s != "" {
      AnyText(s[1..]);
    }
  }

  /** The query for a key finds every key that extends it, the key itself included. */
  lemma {:induction false} LikeExtension(key: string, rest: string)
    ensures Shadows(key + rest, key)
  {
    if key == "" {
      assert key + "%" == "%" && key + rest == rest;
      AnyText(rest);
    } else {
      assert (key + "%")[1..] == key[1..] + "%" && (key + rest)[1..] == key[1..] + rest;
      LikeExtension(key[1..], rest);
    }
  }

  /** A common beginning without wildcards decides nothing. */
  lemma {:induction false} LikePast(p: string, pattern: string, s: string)
    requires '%' !in p
    ensures Like(p + pattern, p + s) <==> Like(pattern, s)
  {
    if p == "" {
      assert p + pattern == pattern && p + s == s;
    } else {
      assert (p + pattern)[1..] == p[1..] + pattern && (p + s)[1..] == p[1..] + s;
      LikePast(p[1..], pattern, s);
    }
  }

  lemma {:induction false} FindsItself(key: string)
    ensures Shadows(key, key)
  {
    LikeExtension(key, "");
    assert key + "" == key;
  }

  /** The newest row the query finds is the one asked for. */
  predicate NewestIsOwn(table: Table, key: string) {
    table != [] && if Shadows(table[0].key, key) then table[0].key == key else NewestIsOwn(table[1..], key)
  }

  /** Loading returns what is stored exactly when no newer key is found first, or nothing is stored. */
  lemma {:induction false} LoadsStoredExactly(table: Table, key: string)
    ensures Load(table, key) == Stored(table, key) <==> NewestIsOwn(table, key) || Stored(table, key) == NOTHING
  {
    FindsItself(key);
    if table != [] {
      LoadsStoredExactly(table[1..], key);
    }
  }

  /** A failure of a target whose name extends another's hides the other's record: its live cooldown is not seen,
      and the check deletes it. */
  lemma {:induction false} ExtensionHidesCooldown(table: Table, cfg: Config, target: string, rest: string, now: int)
    requires rest != "" && KeyOf(target + rest) != GLOBAL && now >= 0
    requires cfg.escalateThreshold > Load(table, KeyOf(target + rest)).streak + 1
    ensures var after := AfterUpdate(table, cfg, target + rest, false, now);
            && Load(after, KeyOf(target)) == NOTHING
            && Stored(AfterCheck(after, KeyOf(target), now), KeyOf(target)) == NOTHING
  {
    assert KeyOf(target + rest) == KeyOf(target) + rest;
    LikeExtension(KeyOf(target), rest);
    var after := AfterUpdate(table, cfg, target + rest, false, now);
    DeleteRemoves(after, KeyOf(target));
  }

  lemma {:induction false} DeleteRemoves(table: Table, key: string)
    ensures Stored(Delete(table, key), key) == NOTHING
    ensures forall r :: r in Delete(table, key) <==> r in table && r.key != key
  {
    if table != [] {
      DeleteRemoves(table[1..], key);
    }
  }

  // ---------- Isolation: with unambiguous names, every target has a breaker of its own ----------

  datatype Event =
    | CheckGlobal(now: int)
    | CheckTarget(target: string, now: int)
    | Update(target: string, success: bool, now: int)

  function Apply(table: Table, cfg: Config, e: Event): Table {
    match e
    case CheckGlobal(now) => AfterCheck(table, GLOBAL, now)
    case CheckTarget(target, now) => AfterCheck(table, KeyOf(target), now)
    case Update(target, success, now) => AfterUpdate(table, cfg, target, success, now)
  }

  function Run(cfg: Config, events: seq<Event>): Table {
    if events == [] then [] else Apply(Run(cfg, events[..|events| - 1]), cfg, events[|events| - 1])
  }

  /** Reference: the breaker of one target by itself. The streak counts failed updates since the last success
      or check that found no live cooldown. */
  function Own(cfg: Config, events: seq<Event>, target: string): Record {
    if events == [] then NOTHING
    else
      var prev := Own(cfg, events[..|events| - 1], target);
      match events[|events| - 1]
      case CheckGlobal(_) => prev
      case CheckTarget(t, now) => if t == target && prev.cooldownUntil <= now then NOTHING else prev
      case Update(t, success, now) =>
        if t != target then prev else if success then NOTHING else Failed(prev, cfg, now)
  }

  /** Reference: the global cooldown, set by any target's own streak reaching the escalation threshold. */
  function OwnGlobal(cfg: Config, events: seq<Event>): Record {
    if events == [] then NOTHING
    else
      var front := events[..|events| - 1];
      var prev := OwnGlobal(cfg, front);
      match events[|events| - 1]
      case CheckTarget(_, _) => prev
      case CheckGlobal(now) => if prev.cooldownUntil <= now then NOTHING else prev
      case Update(t, success, now) =>
        var streak := Own(cfg, front, t).streak + 1;
        if !success && streak >= cfg.escalateThreshold then Record(streak, now + cfg.globalCooldown) else prev
  }

  /** No name's query finds another name's record. */
  predicate KeysApart(names: set<string>) {
    forall a, b :: a in names && b in names && a != b ==> !Shadows(KeyOf(b), KeyOf(a))
  }

  /** No name's query finds another name's record or the global one. */
  predicate TargetsApart(names: set<string>) {
    KeysApart(names) && forall a :: a in names ==> !Shadows(GLOBAL, KeyOf(a))
  }

  /** The global query finds no name's record. */
  predicate GlobalApart(names: set<string>) {
    forall b :: b in names ==> !Shadows(KeyOf(b), GLOBAL)
  }

  predicate EventsOver(events: seq<Event>, names: set<string>) {
    forall i :: 0 <= i < |events| ==> events[i].CheckGlobal? || events[i].target in names
  }

  predicate KeysOver(table: Table, names: set<string>) {
    forall r :: r in table ==> r.key == GLOBAL || exists t :: t in names && r.key == KeyOf(t)
  }

  lemma {:induction false} LoadComesFrom(table: Table, key: string)
    ensures Load(table, key) == NOTHING || Row(key, Load(table, key)) in table
  {
    if table != [] {
      LoadComesFrom(table[1..], key);
    }
  }

  /** Where the names are apart, the query for a name finds only its own key, and perhaps the global one. */
  lemma {:induction false} TargetIsStored(table: Table, names: set<string>, target: string)
    requires KeysApart(names) && KeysOver(table, names) && target in names
    requires forall r :: r in table && r.key == GLOBAL ==> !Shadows(GLOBAL, KeyOf(target))
    ensures Load(table, KeyOf(target)) == Stored(table, KeyOf(target))
  {
    FindsItself(KeyOf(target));
    if table != [] {
      TargetIsStored(table[1..], names, target);
      assert table[0] in table;
    }
  }

  lemma {:induction false} GlobalIsStored(table: Table, names: set<string>)
    requires GlobalApart(names) && KeysOver(table, names)
    ensures Load(table, GLOBAL) == Stored(table, GLOBAL)
  {
    FindsItself(GLOBAL);
    if table != [] {
      GlobalIsStored(table[1..], names);
      assert table[0] in table;
    }
  }

  lemma {:induction false} StoredAfterDelete(table: Table, key: string, other: string)
    ensures Stored(Delete(table, key), other) == if other == key then NOTHING else Stored(table, other)
  {
    if table != [] {
      StoredAfterDelete(table[1..], key, other);
    }
  }

  lemma {:induction false} StoredAfterPut(table: Table, key: string, rec: Record, other: string)
    ensures Stored(Put(table, key, rec), other) == if other == key then rec else Stored(table, other)
  {
    StoredAfterDelete(table, key, other);
    assert Put(table, key, rec)[1..] == Delete(table, key);
  }

  lemma {:induction false} DistinctKeys(a: string, b: string)
    ensures KeyOf(a) == KeyOf(b) <==> a == b
  {
    assert KeyOf(a)[|PREFIX|..] == a && KeyOf(b)[|PREFIX|..] == b;
  }

  lemma {:induction false} KeysStayOver(cfg: Config, events: seq<Event>, names: set<string>)
    requires EventsOver(events, names)
    ensures KeysOver(Run(cfg, events), names)
  {
    if events != [] {
      var front, e := events[..|events| - 1], events[|events| - 1];
      KeysStayOver(cfg, front, names);
      var table := Run(cfg, front);
      DeleteRemoves(table, GLOBAL);
      if !e.CheckGlobal? {
        assert e.target in names;
        DeleteRemoves(table, KeyOf(e.target));
        if e.Update? {
          var rec := Failed(Load(table, KeyOf(e.target)), cfg, e.now);
          DeleteRemoves(Put(table, KeyOf(e.target), rec), GLOBAL);
        }
      }
    }
  }

  /** The global record, if there is one, is the newest row. */
  predicate GlobalFirst(table: Table) {
    forall i :: 0 < i < |table| ==> table[i].key != GLOBAL
  }

  lemma {:induction false} GlobalFirstLoads(table: Table)
    requires GlobalFirst(table)
    ensures Load(table, GLOBAL) == Stored(table, GLOBAL)
  {
    FindsItself(GLOBAL);
    if table != [] && table[0].key != GLOBAL {
      LoadComesFrom(table, GLOBAL);
      DeleteRemoves(table, GLOBAL);
      StoredComesFrom(table, GLOBAL);
    }
  }

  lemma {:induction false} StoredComesFrom(table: Table, key: string)
    ensures Stored(table, key) == NOTHING || Row(key, Stored(table, key)) in table
  {
    if table != [] {
      StoredComesFrom(table[1..], key);
    }
  }

  lemma {:induction false} DeleteGlobalFirst(table: Table, key: string)
    requires GlobalFirst(table)
    ensures GlobalFirst(Delete(table, key))
  {
    if table != [] {
      DeleteRemoves(table[1..], key);
      var rest := Delete(table[1..], key);
      forall i | 0 <= i < |rest| ensures rest[i].key != GLOBAL {
        assert rest[i] in table[1..];
      }
    }
  }

  /** An update leaves the global record in front if it writes that one, or there is none. */
  lemma {:induction false} UpdateGlobalFirst(table: Table, cfg: Config, target: string, success: bool, now: int)
    requires GlobalFirst(table)
    requires success || Load(table, KeyOf(target)).streak + 1 >= cfg.escalateThreshold
             || forall r :: r in table ==> r.key != GLOBAL
    ensures GlobalFirst(AfterUpdate(table, cfg, target, success, now))
  {
    DeleteGlobalFirst(table, KeyOf(target));
    DeleteRemoves(table, KeyOf(target));
    var written := Put(table, KeyOf(target), Failed(Load(table, KeyOf(target)), cfg, now));
    DeleteRemoves(written, GLOBAL);
    forall i | 0 <= i < |Delete(written, GLOBAL)| ensures Delete(written, GLOBAL)[i].key != GLOBAL {
      assert Delete(written, GLOBAL)[i] in Delete(written, GLOBAL);
    }
    var rest := Delete(table, KeyOf(target));
    forall i | 0 <= i < |rest| ensures rest[i] in table {
      assert rest[i] in rest;
    }
  }

  /** When every failure escalates, the global record is rewritten after every other. */
  lemma {:induction false} GlobalStaysFirst(cfg: Config, events: seq<Event>)
    requires cfg.escalateThreshold <= 1
    ensures GlobalFirst(Run(cfg, events))
  {
    if events != [] {
      var front, e := events[..|events| - 1], events[|events| - 1];
      GlobalStaysFirst(cfg, front);
      var table := Run(cfg, front);
      match e
      case CheckGlobal(_) => DeleteGlobalFirst(table, GLOBAL);
      case CheckTarget(t, _) => DeleteGlobalFirst(table, KeyOf(t));
      case Update(t, success, now) => UpdateGlobalFirst(table, cfg, t, success, now);
    }
  }

  lemma {:induction false} GlobalLoads(cfg: Config, events: seq<Event>, names: set<string>)
    requires EventsOver(events, names) && (GlobalApart(names) || cfg.escalateThreshold <= 1)
    ensures Load(Run(cfg, events), GLOBAL) == Stored(Run(cfg, events), GLOBAL)
  {
    if cfg.escalateThreshold <= 1 {
      GlobalStaysFirst(cfg, events);
      GlobalFirstLoads(Run(cfg, events));
    } else {
      KeysStayOver(cfg, events, names);
      GlobalIsStored(Run(cfg, events), names);
    }
  }

  /** Where the names are separate, the shared table is, target by target, the separate breakers: no target's events
      move another's record. */
  lemma {:induction false} Isolation(cfg: Config, events: seq<Event>, names: set<string>, target: string)
    requires TargetsApart(names) && (GlobalApart(names) || cfg.escalateThreshold <= 1)
    requires EventsOver(events, names) && target in names
    ensures Load(Run(cfg, events), KeyOf(target)) == Own(cfg, events, target)
    ensures Load(Run(cfg, events), GLOBAL) == OwnGlobal(cfg, events)
    decreases |events|
  {
    hide Load, Stored, Apply, Shadows, Own, OwnGlobal;
    KeysStayOver(cfg, events, names);
    TargetIsStored(Run(cfg, events), names, target);
    GlobalLoads(cfg, events, names);
    if events == [] {
      NothingYet(cfg, target);
    } else {
      var front, e := events[..|events| - 1], events[|events| - 1];
      Isolation(cfg, front, names, target);
      KeysStayOver(cfg, front, names);
      TargetIsStored(Run(cfg, front), names, target);
      GlobalLoads(cfg, front, names);
      FindsItself(GLOBAL);
      if !e.CheckGlobal? {
        Isolation(cfg, front, names, e.target);
      }
      IsolationNext(cfg, front, e, target);
      assert front + [e] == events;
    }
  }

  lemma {:induction false} NothingYet(cfg: Config, target: string)
    ensures Load(Run(cfg, []), KeyOf(target)) == Own(cfg, [], target)
    ensures Load(Run(cfg, []), GLOBAL) == OwnGlobal(cfg, [])
  {
  }

  /** One more event, where the loads so far were those of separate breakers. */
  lemma {:induction false} IsolationNext(cfg: Config, front: seq<Event>, e: Event, target: string)
    requires KeyOf(target) != GLOBAL && (e.CheckGlobal? || KeyOf(e.target) != GLOBAL)
    requires Load(Run(cfg, front), KeyOf(target)) == Stored(Run(cfg, front), KeyOf(target)) == Own(cfg, front, target)
    requires Load(Run(cfg, front), GLOBAL) == Stored(Run(cfg, front), GLOBAL) == OwnGlobal(cfg, front)
    requires e.CheckGlobal? || Load(Run(cfg, front), KeyOf(e.target)) == Own(cfg, front, e.target)
    ensures Stored(Run(cfg, front + [e]), KeyOf(target)) == Own(cfg, front + [e], target)
    ensures Stored(Run(cfg, front + [e]), GLOBAL) == OwnGlobal(cfg, front + [e])
  {
    var events := front + [e];
    assert events[..|events| - 1] == front && events[|events| - 1] == e;
    IsolationStep(Run(cfg, front), cfg, e, KeyOf(target));
    IsolationStep(Run(cfg, front), cfg, e, GLOBAL);
    if !e.CheckGlobal? {
      DistinctKeys(e.target, target);
    }
    hide Load, Stored, Apply, KeyOf;
  }

  /** In every run over these names each target reads its own breaker, and the global one is as it should be. */
  ghost predicate Isolated(cfg: Config, names: set<string>) {
    forall events, target :: EventsOver(events, names) && target in names ==>
      && Load(Run(cfg, events), KeyOf(target)) == Own(cfg, events, target)
      && Load(Run(cfg, events), GLOBAL) == OwnGlobal(cfg, events)
  }

  /** One wrong reading is enough. */
  lemma {:induction false} Misread(cfg: Config, names: set<string>, events: seq<Event>, target: string)
    requires EventsOver(events, names) && target in names
    requires Load(Run(cfg, events), KeyOf(target)) != Own(cfg, events, target)
             || Load(Run(cfg, events), GLOBAL) != OwnGlobal(cfg, events)
    ensures !Isolated(cfg, names)
  {
    hide EventsOver, Load, Run, Own, OwnGlobal;
  }

  function Fails(target: string, n: nat): seq<Event> {
    seq(n, _ => Update(target, false, 0))
  }

  lemma {:induction false} OwnFails(cfg: Config, target: string, n: nat)
    ensures Own(cfg, Fails(target, n), target).streak == n
    ensures n >= 1 && n >= cfg.escalateThreshold ==> OwnGlobal(cfg, Fails(target, n)) == Record(n, cfg.globalCooldown)
  {
    if n > 0 {
      OwnFails(cfg, target, n - 1);
      assert Fails(target, n)[..n - 1] == Fails(target, n - 1);
    }
  }

  lemma {:induction false} RunMore(cfg: Config, events: seq<Event>, e: Event)
    ensures Run(cfg, events + [e]) == Apply(Run(cfg, events), cfg, e)
    ensures (events + [e])[..|events + [e]| - 1] == events
  {
  }

  /** One name's query finds the other's record: a failure of each, and the first one's is no longer seen. */
  lemma {:induction false} OtherNameHides(cfg: Config, names: set<string>, a: string, b: string)
    requires "global" !in names && a in names && b in names && a != b && Shadows(KeyOf(b), KeyOf(a))
    ensures !Isolated(cfg, names)
  {
    var events := Fails(a, 1) + [Update(b, false, 0)];
    OwnFails(cfg, a, 1);
    RunMore(cfg, Fails(a, 1), Update(b, false, 0));
    assert EventsOver(events, names);
    assert Own(cfg, events, a).streak == 1;
    NotGlobal(a);
    NotGlobal(b);
    DistinctKeys(a, b);
    var table := Run(cfg, Fails(a, 1));
    var rec := Failed(Load(table, KeyOf(b)), cfg, 0);
    assert Put(table, KeyOf(b), rec)[0].key == KeyOf(b);
    var written := Put(table, KeyOf(b), rec);
    assert Delete(written, GLOBAL)[0].key == KeyOf(b);
    assert Put(written, GLOBAL, rec)[1..] == Delete(written, GLOBAL);
    Misread(cfg, names, events, a);
  }

  lemma {:induction false} NotGlobal(target: string)
    requires target != "global"
    ensures KeyOf(target) != GLOBAL
  {
    assert GLOBAL == KeyOf("global");
    DistinctKeys(target, "global");
  }

  lemma {:induction false} EscalationHides(table: Table, cfg: Config, a: string)
    requires a != "global" && Shadows(GLOBAL, KeyOf(a)) && Load(table, KeyOf(a)).streak + 1 >= cfg.escalateThreshold
    ensures Load(Apply(table, cfg, Update(a, false, 0)), KeyOf(a)) == NOTHING
  {
    NotGlobal(a);
    hide Shadows;
    assert AfterUpdate(table, cfg, a, false, 0)[0].key == GLOBAL;
  }

  lemma {:induction false} FailsOnce(target: string, n: nat, names: set<string>)
    requires target in names
    ensures Fails(target, n) + [Update(target, false, 0)] == Fails(target, n + 1)
    ensures EventsOver(Fails(target, n), names)
  {
  }

  /** A name's query finds the global record: the failure that escalates hides the name's own record. */
  lemma {:induction false} GlobalHides(cfg: Config, names: set<string>, a: string)
    requires "global" !in names && a in names && Shadows(GLOBAL, KeyOf(a))
    ensures !Isolated(cfg, names)
  {
    var n := if cfg.escalateThreshold <= 1 then 0 else cfg.escalateThreshold - 1;
    OwnFails(cfg, a, n);
    OwnFails(cfg, a, n + 1);
    RunMore(cfg, Fails(a, n), Update(a, false, 0));
    FailsOnce(a, n, names);
    FailsOnce(a, n + 1, names);
    hide *;
    if Load(Run(cfg, Fails(a, n)), KeyOf(a)).streak != n {
      Misread(cfg, names, Fails(a, n), a);
    } else {
      EscalationHides(Run(cfg, Fails(a, n)), cfg, a);
      assert NOTHING.streak == 0;
      Misread(cfg, names, Fails(a, n + 1), a);
    }
  }

  lemma {:induction false} NewRowHides(table: Table, cfg: Config, b: string)
    requires b != "global" && cfg.escalateThreshold >= 2 && Shadows(KeyOf(b), GLOBAL)
    requires Load(table, KeyOf(b)) == NOTHING
    ensures Load(Apply(table, cfg, Update(b, false, 0)), GLOBAL) == NOTHING
  {
    NotGlobal(b);
    hide Shadows;
    assert AfterUpdate(table, cfg, b, false, 0)[0].key == KeyOf(b);
  }

  /** A name that escalated, recovered and failed once more: the global cooldown is still on. */
  lemma {:induction false} OwnFailsAgain(cfg: Config, b: string, n: nat)
    requires n >= 1 && n == cfg.escalateThreshold
    ensures Own(cfg, Fails(b, n) + [Update(b, true, 0)], b) == NOTHING
    ensures n >= 2 ==>
              OwnGlobal(cfg, Fails(b, n) + [Update(b, true, 0)] + [Update(b, false, 0)])
              == Record(n, cfg.globalCooldown)
  {
    OwnFails(cfg, b, n);
    RunMore(cfg, Fails(b, n), Update(b, true, 0));
    RunMore(cfg, Fails(b, n) + [Update(b, true, 0)], Update(b, false, 0));
  }

  /** The global query finds a name's record: once that name has escalated, recovered and failed again, its new record
      hides the global cooldown. */
  lemma {:induction false} NameHidesGlobal(cfg: Config, names: set<string>, b: string)
    requires "global" !in names && cfg.escalateThreshold >= 2 && b in names && Shadows(KeyOf(b), GLOBAL)
    ensures !Isolated(cfg, names)
  {
    var n := cfg.escalateThreshold;
    var recovered := Fails(b, n) + [Update(b, true, 0)];
    var again := recovered + [Update(b, false, 0)];
    OwnFailsAgain(cfg, b, n);
    RunMore(cfg, recovered, Update(b, false, 0));
    assert EventsOver(recovered, names) && EventsOver(again, names);
    hide *;
    if Load(Run(cfg, recovered), KeyOf(b)) != NOTHING {
      Misread(cfg, names, recovered, b);
    } else {
      NewRowHides(Run(cfg, recovered), cfg, b);
      assert NOTHING != Record(n, cfg.globalCooldown);
      Misread(cfg, names, again, b);
    }
  }

  /** The shared table works as separate breakers exactly when no name's query finds another record, nor the global
      query a name's, which does no harm where every failure escalates. */
  lemma {:induction false} IsolationExactly(cfg: Config, names: set<string>)
    requires "global" !in names
    ensures Isolated(cfg, names) <==> TargetsApart(names) && (GlobalApart(names) || cfg.escalateThreshold <= 1)
  {
    hide Shadows, Run, Own, OwnGlobal, Load;
    if TargetsApart(names) && (GlobalApart(names) || cfg.escalateThreshold <= 1) {
      forall events, target | EventsOver(events, names) && target in names
        ensures Load(Run(cfg, events), KeyOf(target)) == Own(cfg, events, target)
        ensures Load(Run(cfg, events), GLOBAL) == OwnGlobal(cfg, events)
      {
        Isolation(cfg, events, names, target);
      }
    }
    if Isolated(cfg, names) {
      forall a, b | a in names && b in names && a != b ensures !Shadows(KeyOf(b), KeyOf(a)) {
        if Shadows(KeyOf(b), KeyOf(a)) {
          OtherNameHides(cfg, names, a, b);
        }
      }
      forall a | a in names ensures !Shadows(GLOBAL, KeyOf(a)) {
        if Shadows(GLOBAL, KeyOf(a)) {
          GlobalHides(cfg, names, a);
        }
      }
      forall b | b in names ensures !Shadows(KeyOf(b), GLOBAL) || cfg.escalateThreshold <= 1 {
        if Shadows(KeyOf(b), GLOBAL) && cfg.escalateThreshold >= 2 {
          NameHidesGlobal(cfg, names, b);
        }
      }
    }
  }

  /** What one event does to what is stored under any one key. */
  lemma {:induction false} IsolationStep(table: Table, cfg: Config, e: Event, key: string)
    ensures Stored(Apply(table, cfg, e), key) ==
            match e
            case CheckGlobal(now) =>
              if key == GLOBAL && Load(table, GLOBAL).cooldownUntil <= now then NOTHING else Stored(table, key)
            case CheckTarget(t, now) =>
              if key == KeyOf(t) && Load(table, key).cooldownUntil <= now then NOTHING else Stored(table, key)
            case Update(t, success, now) =>
              var streak := Load(table, KeyOf(t)).streak + 1;
              if !success && streak >= cfg.escalateThreshold && key == GLOBAL
              then Record(streak, now + cfg.globalCooldown)
              else if key != KeyOf(t) then Stored(table, key)
              else if success then Record(0, 0)
              else Record(streak, if streak >= cfg.failThreshold then now + cfg.cooldown else 0)
  {
    match e
    case CheckGlobal(now) => StoredAfterDelete(table, GLOBAL, key);
    case CheckTarget(t, now) => StoredAfterDelete(table, KeyOf(t), key);
    case Update(t, success, now) =>
      StoredAfterDelete(table, KeyOf(t), key);
      var rec := Failed(Load(table, KeyOf(t)), cfg, now);
      StoredAfterPut(table, KeyOf(t), rec, key);
      StoredAfterPut(Put(table, KeyOf(t), rec), GLOBAL, Record(rec.streak, now + cfg.globalCooldown), key);
  }

  /** Event `i` wipes the target's record: a success, or a check that finds no live cooldown. */
  predicate Clears(cfg: Config, events: seq<Event>, i: nat, target: string)
    requires i < |events|
  {
    match events[i]
    case CheckGlobal(_) => false
    case CheckTarget(t, now) => t == target && Own(cfg, events[..i], target).cooldownUntil <= now
    case Update(t, success, _) => t == target && success
  }

  function FailedUpdates(events: seq<Event>, target: string): nat {
    if events == [] then 0
    else
      var e := events[|events| - 1];
      FailedUpdates(events[..|events| - 1], target) + if e.Update? && e.target == target && !e.success then 1 else 0
  }

  /** `k` is where the history since the last clearing event begins. */
  predicate SinceCleared(cfg: Config, events: seq<Event>, target: string, k: nat) {
    && k <= |events|
    && (k == 0 || Clears(cfg, events, k - 1, target))
    && forall i :: k <= i < |events| ==> !Clears(cfg, events, i, target)
  }

  lemma {:induction false} ClearsInFront(cfg: Config, events: seq<Event>, i: nat, target: string)
    requires i < |events| - 1
    ensures Clears(cfg, events[..|events| - 1], i, target) <==> Clears(cfg, events, i, target)
  {
    assert events[..|events| - 1][..i] == events[..i];
  }

  /** The streak is the number of failed updates since the last clearing event. */
  lemma {:induction false} StreakCountsFailures(cfg: Config, events: seq<Event>, target: string, k: nat)
    requires SinceCleared(cfg, events, target, k)
    ensures Own(cfg, events, target).streak == FailedUpdates(events[k..], target)
  {
    if k < |events| {
      var n := |events| - 1;
      var front := events[..n];
      forall i | 0 <= i < n ensures Clears(cfg, front, i, target) <==> Clears(cfg, events, i, target) {
        ClearsInFront(cfg, events, i, target);
      }
      StreakCountsFailures(cfg, front, target, k);
      assert events[k..][..n - k] == front[k..];
      assert !Clears(cfg, events, n, target);
    } else if k > 0 {
      assert events[..k - 1] == events[..|events| - 1];
    }
  }

  /** There is always such a place, so the streak is determined for every history. */
  lemma {:induction false} SomewhereCleared(cfg: Config, events: seq<Event>, target: string) returns (k: nat)
    ensures SinceCleared(cfg, events, target, k)
  {
    if events == [] {
      k := 0;
    } else if Clears(cfg, events, |events| - 1, target) {
      k := |events|;
    } else {
      k := SomewhereCleared(cfg, events[..|events| - 1], target);
      forall i | 0 <= i < |events| - 1
        ensures Clears(cfg, events[..|events| - 1], i, target) <==> Clears(cfg, events, i, target)
      {
        ClearsInFront(cfg, events, i, target);
      }
    }
  }

  /** A global cooldown was set by a failed update that brought some target's streak to the escalation threshold. */
  lemma {:induction false} GlobalNeedsStreak(cfg: Config, events: seq<Event>)
    requires OwnGlobal(cfg, events) != NOTHING
    ensures OwnGlobal(cfg, events).streak >= cfg.escalateThreshold
    ensures exists i :: 0 <= i < |events| && events[i].Update? && !events[i].success
              && OwnGlobal(cfg, events).streak == Own(cfg, events[..i], events[i].target).streak + 1
              && OwnGlobal(cfg, events).cooldownUntil == events[i].now + cfg.globalCooldown
  {
    var n := |events| - 1;
    var front, e := events[..n], events[n];
    if e.Update? && !e.success && Own(cfg, front, e.target).streak + 1 >= cfg.escalateThreshold {
      assert OwnGlobal(cfg, events).streak == Own(cfg, events[..n], events[n].target).streak + 1;
    } else {
      GlobalNeedsStreak(cfg, front);
      var i :| 0 <= i < |front| && front[i].Update? && !front[i].success
               && OwnGlobal(cfg, front).streak == Own(cfg, front[..i], front[i].target).streak + 1
               && OwnGlobal(cfg, front).cooldownUntil == front[i].now + cfg.globalCooldown;
      assert front[..i] == events[..i] && front[i] == events[i];
    }
  }

  /** In every run a live or lapsed cooldown belongs to a streak that reached the threshold, and is exactly one
      cooldown after the failure that set it. */
  lemma {:induction false} CooldownNeedsStreak(cfg: Config, events: seq<Event>, target: string)
    requires forall i :: 0 <= i < |events| ==> events[i].now >= 0
    ensures Own(cfg, events, target).cooldownUntil > 0 ==> Own(cfg, events, target).streak >= cfg.failThreshold
    ensures Own(cfg, events, target).streak >= cfg.failThreshold && Own(cfg, events, target) != NOTHING ==>
              exists i :: 0 <= i < |events| && events[i] == Update(target, false, events[i].now)
                && Own(cfg, events, target).cooldownUntil == events[i].now + cfg.cooldown
  {
    if events != [] {
      var front, e := events[..|events| - 1], events[|events| - 1];
      CooldownNeedsStreak(cfg, front, target);
      assert forall i :: 0 <= i < |front| ==> front[i] == events[i];
      if e.Update? && e.target == target && !e.success {
        assert events[|events| - 1] == Update(target, false, e.now);
      }
    }
  }
}
