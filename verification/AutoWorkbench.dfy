/** `core/cortex/autoworkbench.py`: what a task's cortex keeps of its runs. */
module AutoWorkbench {
  import opened FuzzyFind

  // ---------- Bounded, deduplicated lists ----------

  /** The items, first occurrence of each text only, empty ones and those in `seen` left out. */
  function Distinct(items: seq<string>, seen: set<string>): seq<string> {
    if items == [] then []
    else if items[0] == "" || items[0] in seen then Distinct(items[1..], seen)
    else [items[0]] + Distinct(items[1..], seen + {items[0]})
  }

  function Take(items: seq<string>, n: nat): seq<string> {
    if |items| <= n then items else items[..n]
  }

  /** `_merge_list`: incoming before existing, stopping once the limit is reached. */
  method MergeList(existing: seq<string>, incoming: seq<string>, limit: nat) returns (merged: seq<string>)
    ensures merged == Take(Distinct(incoming + existing, {}), if limit == 0 then 1 else limit)
  {
    merged := [];
    var seen: set<string> := {};
    var items := incoming + existing;
    for i := 0 to |items|
      invariant |merged| < limit || merged == []
      invariant Distinct(items, {}) == merged + Distinct(items[i..], seen)
    {
      var key := items[i];
      assert items[i..][1..] == items[i + 1..];
      if key == "" || key in seen {
        continue;
      }
      seen := seen + {key};
      merged := merged + [key];
      if |merged| >= limit {
        return;
      }
    }
  }

  function MergeOne(existing: seq<string>, item: string, limit: nat): seq<string> {
    Take(Distinct([item] + existing, {}), limit)
  }

  function Without(items: seq<string>, x: string): seq<string> {
    if items == [] then []
    else (if items[0] == x then [] else [items[0]]) + Without(items[1..], x)
  }

  lemma {:induction false} DistinctMembers(items: seq<string>, seen: set<string>)
    ensures forall x :: x in Distinct(items, seen) ==> x != "" && x !in seen && x in items
  {
    if items != [] {
      DistinctMembers(items[1..], seen);
      DistinctMembers(items[1..], seen + {items[0]});
    }
  }

  lemma {:induction false} WithoutAbsent(items: seq<string>, x: string)
    requires x !in items
    ensures Without(items, x) == items
  {
    if items != [] {
      WithoutAbsent(items[1..], x);
    }
  }

  /** Ignoring one more text removes it, wherever it first occurs. */
  lemma {:induction false} DistinctIgnoring(items: seq<string>, seen: set<string>, x: string)
    ensures Distinct(items, seen + {x}) == Without(Distinct(items, seen), x)
  {
    if items != [] {
      var head, rest := items[0], items[1..];
      if head == "" || head in seen {
        DistinctIgnoring(rest, seen, x);
      } else if head == x {
        DistinctMembers(rest, seen + {x});
        WithoutAbsent(Distinct(rest, seen + {x}), x);
        assert Distinct(items, seen)[1..] == Distinct(rest, seen + {x});
      } else {
        DistinctIgnoring(rest, seen + {head}, x);
        assert seen + {head} + {x} == seen + {x} + {head};
        assert Distinct(items, seen)[1..] == Distinct(rest, seen + {head});
      }
    }
  }

  ghost predicate NoRepeats(items: seq<string>) {
    forall i, j :: 0 <= i < j < |items| ==> items[i] != items[j]
  }

  lemma {:induction false} DistinctNoRepeats(items: seq<string>, seen: set<string>)
    ensures NoRepeats(Distinct(items, seen))
  {
    if items != [] {
      DistinctNoRepeats(items[1..], seen);
      DistinctNoRepeats(items[1..], seen + {items[0]});
      DistinctMembers(items[1..], seen + {items[0]});
    }
  }

  lemma {:induction false} DistinctOfDistinct(items: seq<string>, seen: set<string>)
    requires NoRepeats(items) && forall x :: x in items ==> x != "" && x !in seen
    ensures Distinct(items, seen) == items
  {
    if items != [] {
      assert forall x :: x in items[1..] ==> x in items && x != items[0];
      DistinctOfDistinct(items[1..], seen + {items[0]});
    }
  }

  /** Dropping the tail first loses nothing that the limit would have kept. */
  lemma {:induction false} TakeWithout(items: seq<string>, x: string, n: nat)
    requires NoRepeats(items) && n > 0
    ensures Take(Without(Take(items, n), x), n - 1) == Take(Without(items, x), n - 1)
  {
    if items != [] && n > 1 {
      var head, rest := items[0], items[1..];
      TakeWithout(rest, x, n - 1);
      TakeCons(head, rest, n);
      assert [head] + rest == items;
      assert ([head] + Take(rest, n - 1))[1..] == Take(rest, n - 1);
      if head == x {
        WithoutAbsent(rest, x);
        WithoutAbsent(Take(rest, n - 1), x);
      } else {
        TakeCons(head, Without(Take(rest, n - 1), x), n - 1);
        TakeCons(head, Without(rest, x), n - 1);
      }
    }
  }

  /** A list grown one item at a time, newest item first. */
  function Kept(newestFirst: seq<string>, limit: nat): seq<string> {
    if newestFirst == [] then [] else MergeOne(Kept(newestFirst[1..], limit), newestFirst[0], limit)
  }

  /** Although every step forgets what exceeds the limit, the list is always the newest distinct items of the whole
      history. */
  lemma {:induction false} KeptIsNewestDistinct(newestFirst: seq<string>, limit: nat)
    requires limit > 0
    ensures Kept(newestFirst, limit) == Take(Distinct(newestFirst, {}), limit)
  {
    if newestFirst != [] {
      var x, rest := newestFirst[0], newestFirst[1..];
      KeptIsNewestDistinct(rest, limit);
      var all := Distinct(rest, {});
      var kept := Take(all, limit);
      DistinctNoRepeats(rest, {});
      DistinctMembers(rest, {});
      TakeNoRepeats(all, limit);
      DistinctOfDistinct(kept, {});
      assert ([x] + kept)[1..] == kept;
      if x != "" {
        assert {x} == {} + {x};
        DistinctIgnoring(kept, {}, x);
        DistinctIgnoring(rest, {}, x);
        TakeWithout(all, x, limit);
        TakeCons(x, Without(kept, x), limit);
        TakeCons(x, Without(all, x), limit);
      }
    }
  }

  lemma {:induction false} TakeCons(x: string, items: seq<string>, n: nat)
    requires n > 0
    ensures Take([x] + items, n) == [x] + Take(items, n - 1)
  {
  }

  lemma {:induction false} TakeNoRepeats(items: seq<string>, n: nat)
    requires NoRepeats(items)
    ensures NoRepeats(Take(items, n))
    ensures forall x :: x in Take(items, n) ==> x in items
  {
  }

  function Texts(items: seq<string>): set<string> {
    set x | x in items
  }

  lemma {:induction false} DistinctConcat(a: seq<string>, b: seq<string>, seen: set<string>)
    requires "" !in seen
    ensures Distinct(a + b, seen) == Distinct(a, seen) + Distinct(b, seen + Texts(a) - {""})
    decreases |a|
  {
    if a == [] {
      assert a + b == b && seen + Texts(a) - {""} == seen;
    } else {
      assert (a + b)[1..] == a[1..] + b;
      assert Texts(a) == {a[0]} + Texts(a[1..]);
      if a[0] == "" || a[0] in seen {
        DistinctConcat(a[1..], b, seen);
        assert seen + Texts(a) - {""} == seen + Texts(a[1..]) - {""};
      } else {
        DistinctConcat(a[1..], b, seen + {a[0]});
        assert seen + {a[0]} + Texts(a[1..]) - {""} == seen + Texts(a) - {""};
      }
    }
  }

  /** Merging the same items again changes nothing. */
  lemma {:induction false} MergeAgain(existing: seq<string>, incoming: seq<string>, limit: nat)
    ensures var merged := Take(Distinct(incoming + existing, {}), limit);
            Take(Distinct(incoming + merged, {}), limit) == merged
  {
    var texts := {} + Texts(incoming) - {""};
    var first, second := Distinct(incoming, {}), Distinct(existing, texts);
    DistinctConcat(incoming, existing, {});
    var merged := Take(first + second, limit);
    DistinctConcat(incoming, merged, {});
    DistinctMembers(incoming, {});
    DistinctMembers(existing, texts);
    DistinctNoRepeats(existing, texts);
    if |first| >= limit {
      assert merged == Take(first, limit);
      AllSeen(merged, texts);
    } else {
      var rest := Take(second, limit - |first|);
      assert merged == first + rest;
      TakeNoRepeats(second, limit - |first|);
      SkipSeen(first, rest, texts);
      DistinctOfDistinct(rest, texts);
    }
  }

  lemma {:induction false} AllSeen(items: seq<string>, seen: set<string>)
    requires forall x :: x in items ==> x in seen
    ensures Distinct(items, seen) == []
  {
    if items != [] {
      AllSeen(items[1..], seen);
    }
  }

  lemma {:induction false} SkipSeen(a: seq<string>, b: seq<string>, seen: set<string>)
    requires forall x :: x in a ==> x in seen
    ensures Distinct(a + b, seen) == Distinct(b, seen)
  {
    if a == [] {
      assert a + b == b;
    } else {
      assert (a + b)[1..] == a[1..] + b;
      SkipSeen(a[1..], b, seen);
    }
  }

  // ---------- The cortex patch ----------

  /** A run's outcome. The lines are what would be written under each heading; an empty evidence line means the run
      left no detail. */
  datatype Outcome = Outcome(tool: string, status: string, hasError: bool, guardRecovery: bool, hasDetail: bool,
                             hasSummary: bool, experiment: string, capability: string, evidence: string,
                             progress: string, failure: string, recoveryStep: string, defaultStep: string)

  datatype Cortex = Cortex(experiments: seq<string>, capabilities: seq<string>, evidence: seq<string>,
                           progress: seq<string>, failures: seq<string>, phase: string, failureStreak: nat,
                           recoveryState: string, nextVerification: string)

  const EMPTY := Cortex([], [], [], [], [], "", 0, "", "")

  const MAX_LONG := 10
  const MAX_SHORT := 8

  predicate IsTaskTool(tool: string) {
    |tool| >= 5 && tool[..5] == "task."
  }

  predicate IsFailure(o: Outcome) {
    o.status in {"failed", "cancelled"} || o.hasError
  }

  /** `_should_auto_record`. */
  predicate Recorded(o: Outcome) {
    IsFailure(o) || o.guardRecovery
    || (o.tool != "task.workbench" && (o.hasDetail || (o.hasSummary && o.tool != "")))
  }

  /** Every list takes its line, every other field what the outcome says of it. */
  function Patched(c: Cortex, o: Outcome): Cortex {
    if !Recorded(o) then c
    else
      var recovers := o.guardRecovery && o.recoveryStep != "";
      var succeeded := o.status == "succeeded";
      var failed := !succeeded && IsFailure(o);
      Cortex(
        MergeOne(c.experiments, o.experiment, MAX_LONG),
        if succeeded then MergeOne(c.capabilities, o.capability, MAX_SHORT) else c.capabilities,
        if succeeded && o.evidence != "" then MergeOne(c.evidence, o.evidence, MAX_LONG) else c.evidence,
        if succeeded then MergeOne(c.progress, o.progress, MAX_SHORT) else c.progress,
        if failed then MergeOne(c.failures, o.failure, MAX_SHORT) else c.failures,
        if failed || (succeeded && recovers) then "recovering"
        else if succeeded && !IsTaskTool(o.tool) then "verification_collected" else c.phase,
        if failed then c.failureStreak + 1 else if succeeded && !IsTaskTool(o.tool) then 0 else c.failureStreak,
        if failed then "recovering_from_run_failure"
        else if succeeded && recovers then "recovering_from_runtime_guard" else c.recoveryState,
        if (failed || succeeded) && recovers then o.recoveryStep
        else if failed && Strip(c.nextVerification) == ""
        then (if o.recoveryStep != "" then o.recoveryStep else o.defaultStep)
        else c.nextVerification)
  }

  /** `build_auto_cortex_patch`, key by key. */
  method BuildAutoCortexPatch(c: Cortex, o: Outcome) returns (r: Cortex)
    ensures r == Patched(c, o)
  {
    if !Recorded(o) {
      return c;
    }
    r := c;
    var experiments := MergeList(r.experiments, [o.experiment], MAX_LONG);
    r := r.(experiments := experiments);
    if o.status == "succeeded" {
      if !IsTaskTool(o.tool) {
        r := r.(phase := "verification_collected", failureStreak := 0);
      }
      var capabilities := MergeList(r.capabilities, [o.capability], MAX_SHORT);
      r := r.(capabilities := capabilities);
      if o.evidence != "" {
        var evidence := MergeList(r.evidence, [o.evidence], MAX_LONG);
        r := r.(evidence := evidence);
      }
      var progress := MergeList(r.progress, [o.progress], MAX_SHORT);
      r := r.(progress := progress);
    } else if IsFailure(o) {
      r := r.(phase := "recovering", failureStreak := r.failureStreak + 1);
      var failures := MergeList(r.failures, [o.failure], MAX_SHORT);
      r := r.(failures := failures, recoveryState := "recovering_from_run_failure");
      if o.recoveryStep != "" && o.guardRecovery {
        r := r.(nextVerification := o.recoveryStep);
      } else if Strip(r.nextVerification) == "" {
        r := r.(nextVerification := if o.recoveryStep != "" then o.recoveryStep else o.defaultStep);
      }
    }
    if o.status == "succeeded" && o.guardRecovery && o.recoveryStep != "" {
      r := r.(phase := "recovering", recoveryState := "recovering_from_runtime_guard",
              nextVerification := o.recoveryStep);
    }
  }

  // ---------- What an outcome says ----------

  /** A run that did not succeed: it failed, was cancelled, or left an error. */
  predicate Fails(o: Outcome) {
    o.status != "succeeded" && (o.status == "failed" || o.status == "cancelled" || o.hasError)
  }

  /** A run that leaves a trace: it failed, a guard was at work, or a tool other than the workbench had something to
      tell. */
  predicate Tells(o: Outcome) {
    || o.status == "failed" || o.status == "cancelled" || o.hasError || o.guardRecovery
    || (o.tool != "task.workbench" && (o.hasDetail || (o.hasSummary && o.tool != "")))
  }

  /** What each heading receives from an outcome: its line, or "" for none. */
  function ExperimentLine(o: Outcome): string { if Tells(o) then o.experiment else "" }

  function CapabilityLine(o: Outcome): string { if Tells(o) && o.status == "succeeded" then o.capability else "" }

  function EvidenceLine(o: Outcome): string { if Tells(o) && o.status == "succeeded" then o.evidence else "" }

  function ProgressLine(o: Outcome): string { if Tells(o) && o.status == "succeeded" then o.progress else "" }

  function FailureLine(o: Outcome): string { if Fails(o) then o.failure else "" }

  // ---------- Over every history of outcomes ----------

  function After(newestFirst: seq<Outcome>): Cortex {
    if newestFirst == [] then EMPTY else Patched(After(newestFirst[1..]), newestFirst[0])
  }

  function Lines(newestFirst: seq<Outcome>, line: Outcome -> string): seq<string> {
    seq(|newestFirst|, i requires 0 <= i < |newestFirst| => line(newestFirst[i]))
  }

  /** The newest distinct lines of a heading, up to its limit. */
  function Newest(history: seq<Outcome>, line: Outcome -> string, limit: nat): seq<string> {
    Take(Distinct(Lines(history, line), {}), limit)
  }

  lemma {:induction false} NewestStep(history: seq<Outcome>, line: Outcome -> string, limit: nat)
    requires history != [] && limit > 0
    ensures Newest(history, line, limit) ==
            MergeOne(Newest(history[1..], line, limit), line(history[0]), limit)
    ensures line(history[0]) == "" ==> Newest(history, line, limit) == Newest(history[1..], line, limit)
  {
    var all := Lines(history, line);
    assert all[1..] == Lines(history[1..], line);
    KeptIsNewestDistinct(all, limit);
    KeptIsNewestDistinct(all[1..], limit);
  }

  /** Each list is the newest distinct lines of the whole history. */
  lemma {:induction false} ListsHoldNewest(history: seq<Outcome>)
    ensures var c := After(history);
            && c.experiments == Newest(history, ExperimentLine, MAX_LONG)
            && c.capabilities == Newest(history, CapabilityLine, MAX_SHORT)
            && c.evidence == Newest(history, EvidenceLine, MAX_LONG)
            && c.progress == Newest(history, ProgressLine, MAX_SHORT)
            && c.failures == Newest(history, FailureLine, MAX_SHORT)
  {
    if history != [] {
      ListsHoldNewest(history[1..]);
      NewestStep(history, ExperimentLine, MAX_LONG);
      NewestStep(history, CapabilityLine, MAX_SHORT);
      NewestStep(history, EvidenceLine, MAX_LONG);
      NewestStep(history, ProgressLine, MAX_SHORT);
      NewestStep(history, FailureLine, MAX_SHORT);
      hide Newest, MergeOne;
    }
  }

  // ---------- Which outcome set the other fields ----------

  /** A runtime guard was at work and left a step to recover with. */
  predicate Supplies(o: Outcome) {
    o.guardRecovery && o.recoveryStep != "" && (o.status == "succeeded" || Fails(o))
  }

  predicate Collects(o: Outcome) {
    o.status == "succeeded" && Tells(o) && !(|o.tool| >= 5 && o.tool[..5] == "task.")
  }

  predicate SetsPhase(o: Outcome) {
    Fails(o) || Supplies(o) || Collects(o)
  }

  predicate SetsRecovery(o: Outcome) {
    Fails(o) || Supplies(o)
  }

  /** Outcome `i` of the history is the newest of its sort. */
  predicate NewestAt(newestFirst: seq<Outcome>, sort: Outcome -> bool, i: int) {
    0 <= i < |newestFirst| && sort(newestFirst[i]) && forall k :: 0 <= k < i ==> !sort(newestFirst[k])
  }

  predicate OldestAt(newestFirst: seq<Outcome>, sort: Outcome -> bool, i: int) {
    0 <= i < |newestFirst| && sort(newestFirst[i]) && forall k :: i < k < |newestFirst| ==> !sort(newestFirst[k])
  }

  predicate NoneIn(newestFirst: seq<Outcome>, sort: Outcome -> bool) {
    forall i :: 0 <= i < |newestFirst| ==> !sort(newestFirst[i])
  }

  lemma {:induction false} NewestInRest(history: seq<Outcome>, sort: Outcome -> bool)
    requires history != []
    ensures NewestAt(history, sort, 0) <==> sort(history[0])
    ensures !sort(history[0]) ==> forall i :: NewestAt(history, sort, i) ==> NewestAt(history[1..], sort, i - 1)
    ensures sort(history[0]) ==> forall i :: NewestAt(history, sort, i) ==> i == 0
    ensures NoneIn(history, sort) ==> NoneIn(history[1..], sort)
  {
    forall i | NewestAt(history, sort, i) && !sort(history[0]) ensures NewestAt(history[1..], sort, i - 1) {
      forall k | 0 <= k < i - 1 ensures !sort(history[1..][k]) {
        assert !sort(history[k + 1]);
      }
    }
  }

  /** The phase is the one set by the newest outcome that sets any. */
  lemma {:induction false} PhaseSetLast(history: seq<Outcome>, i: int)
    requires NewestAt(history, SetsPhase, i)
    ensures After(history).phase ==
            if Fails(history[i]) || Supplies(history[i]) then "recovering" else "verification_collected"
  {
    NewestInRest(history, SetsPhase);
    if i > 0 {
      PhaseSetLast(history[1..], i - 1);
    }
  }

  /** So is the recovery state: by a failure, or by a success for which a guard supplied a step. */
  lemma {:induction false} RecoverySetLast(history: seq<Outcome>, i: int)
    requires NewestAt(history, SetsRecovery, i)
    ensures After(history).recoveryState ==
            if Fails(history[i]) then "recovering_from_run_failure" else "recovering_from_runtime_guard"
  {
    NewestInRest(history, SetsRecovery);
    if i > 0 {
      RecoverySetLast(history[1..], i - 1);
    }
  }

  lemma {:induction false} NeverSet(history: seq<Outcome>)
    ensures NoneIn(history, SetsPhase) ==> After(history).phase == ""
    ensures NoneIn(history, SetsRecovery) ==> After(history).recoveryState == ""
  {
    if history != [] {
      NeverSet(history[1..]);
      NewestInRest(history, SetsPhase);
      NewestInRest(history, SetsRecovery);
    }
  }

  /** A recovery step is text without outer blanks, and the default step is never blank. */
  predicate Worded(o: Outcome) {
    (o.recoveryStep != "" ==> Strip(o.recoveryStep) != "") && Strip(o.defaultStep) != ""
  }

  function Suggestion(o: Outcome): string {
    if o.recoveryStep != "" then o.recoveryStep else o.defaultStep
  }

  lemma {:induction false} OldestInRest(history: seq<Outcome>, sort: Outcome -> bool)
    requires history != []
    ensures !NoneIn(history[1..], sort) ==>
              forall i :: OldestAt(history, sort, i) ==> i > 0 && OldestAt(history[1..], sort, i - 1)
    ensures NoneIn(history[1..], sort) ==> forall i :: OldestAt(history, sort, i) ==> i == 0
  {
    forall i | OldestAt(history, sort, i) && i > 0 ensures OldestAt(history[1..], sort, i - 1) {
      forall k | i - 1 < k < |history| - 1 ensures !sort(history[1..][k]) {
        assert !sort(history[k + 1]);
      }
    }
    if !NoneIn(history[1..], sort) {
      var k :| 0 <= k < |history| - 1 && sort(history[1..][k]);
      assert sort(history[k + 1]);
    }
  }

  lemma {:induction false} SomeNewest(history: seq<Outcome>, sort: Outcome -> bool) returns (i: nat)
    requires !NoneIn(history, sort)
    ensures NewestAt(history, sort, i)
  {
    i := 0;
    while !sort(history[i])
      invariant i < |history| && forall k :: 0 <= k < i ==> !sort(history[k])
      decreases |history| - i
    {
      i := i + 1;
    }
  }

  lemma {:induction false} SomeOldest(history: seq<Outcome>, sort: Outcome -> bool) returns (i: nat)
    requires !NoneIn(history, sort)
    ensures OldestAt(history, sort, i)
  {
    i := |history| - 1;
    while !sort(history[i])
      invariant i < |history| && forall k :: i < k < |history| ==> !sort(history[k])
      decreases i
    {
      if i == 0 {
        assert NoneIn(history, sort);
      }
      i := i - 1;
    }
  }

  /** What is to be verified next is the newest step a guard supplied; without any, what the first failure of all
      suggested, which no later one replaces; and nothing before that. */
  lemma {:induction false} NextSetLast(history: seq<Outcome>)
    requires forall o :: o in history ==> Worded(o)
    ensures forall i :: NewestAt(history, Supplies, i) ==> After(history).nextVerification == history[i].recoveryStep
    ensures NoneIn(history, Supplies) ==>
              forall i :: OldestAt(history, Fails, i) ==> After(history).nextVerification == Suggestion(history[i])
    ensures NoneIn(history, Supplies) && NoneIn(history, Fails) ==> After(history).nextVerification == ""
  {
    if history != [] {
      var o, rest := history[0], history[1..];
      assert o in history && forall p :: p in rest ==> p in history;
      NextSetLast(rest);
      NewestInRest(history, Supplies);
      NewestInRest(history, Fails);
      OldestInRest(history, Fails);
      NextOf(After(rest), o);
      if !NoneIn(rest, Supplies) {
        var i := SomeNewest(rest, Supplies);
        assert rest[i] in history;
      } else if !NoneIn(rest, Fails) {
        var i := SomeOldest(rest, Fails);
        assert rest[i] in history;
      }
      hide After, Patched, Supplies, Fails;
    }
  }

  lemma {:induction false} NextOf(c: Cortex, o: Outcome)
    ensures Patched(c, o).nextVerification ==
            if Supplies(o) then o.recoveryStep
            else if Fails(o) && Strip(c.nextVerification) == "" then Suggestion(o) else c.nextVerification
  {
  }

  /** How many of the newest outcomes come after the last one that ended a streak. */
  function SinceLastSuccess(newestFirst: seq<Outcome>): (n: nat)
    ensures n <= |newestFirst| && (n < |newestFirst| ==> Collects(newestFirst[n]))
    ensures forall i :: 0 <= i < n ==> !Collects(newestFirst[i])
  {
    if newestFirst == [] || Collects(newestFirst[0]) then 0 else 1 + SinceLastSuccess(newestFirst[1..])
  }

  function Failures(outcomes: seq<Outcome>): nat {
    if outcomes == [] then 0 else (if Fails(outcomes[0]) then 1 else 0) + Failures(outcomes[1..])
  }

  /** The streak is the number of recorded failures since the last recorded success of a tool outside `task.`. */
  lemma {:induction false} StreakCountsFailures(newestFirst: seq<Outcome>)
    ensures After(newestFirst).failureStreak == Failures(newestFirst[..SinceLastSuccess(newestFirst)])
  {
    if newestFirst != [] {
      StreakCountsFailures(newestFirst[1..]);
      if !Collects(newestFirst[0]) {
        var n := SinceLastSuccess(newestFirst[1..]);
        assert newestFirst[..n + 1][1..] == newestFirst[1..][..n];
      }
    }
  }
}
