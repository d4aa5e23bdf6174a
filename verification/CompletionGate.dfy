/** `tools/task.py`: which tasks may be completed, judged from the newest-first history of their runs. */
module CompletionGate {
  import opened Cortex
  import opened FuzzyFind
  import opened Text
  import opened Wrappers

  /** A recorded run; `cortex` is the cortex it reported, empty if none. */
  datatype Run = Run(tool: string, status: string, error: string, cortex: Fields)

  /** Text classifiers and registry look-ups the gate relies on. */
  datatype Judge = Judge(actionable: string -> bool, semantic: string -> bool, infoOnly: string -> bool,
                         mutation: string -> bool, verify: string -> bool)

  const WORKBENCH := "task.workbench"

  const VERIFICATION_TOOL_PREFIXES :=
    ["file.", "shell.", "exec.", "process.", "probe.", "config.", "browser.", "web.", "memory.search",
     "memory.embed_backfill", "subagent.run"]

  /** Among these, the ones outside `task.`; the rest are excluded by that prefix. */
  const NON_VERIFICATION_TOOLS := {"memory.add_semantic", "memory.add_wm", "memory.drop_wm"}

  predicate HasVerificationPrefix(name: string) {
    exists i :: 0 <= i < |VERIFICATION_TOOL_PREFIXES| && StartsWith(name, VERIFICATION_TOOL_PREFIXES[i])
  }

  predicate IsVerificationTool(tool: string, wanted: string, judge: Judge) {
    var name := Strip(tool);
    && name != ""
    && ((name == "memory.add_semantic" && judge.semantic(wanted))
        || (name !in NON_VERIFICATION_TOOLS && !StartsWith(name, "task.") && HasVerificationPrefix(name)))
  }

  predicate Verifies(run: Run, wanted: string, judge: Judge) {
    Strip(run.status) == "succeeded" && IsVerificationTool(run.tool, wanted, judge)
  }

  predicate ResolvesExplicitly(run: Run) {
    run.tool == WORKBENCH && run.cortex.state.State? && LowerText(Strip(run.cortex.state.status)) in RESOLVED_STATES
  }

  predicate IsPendingWorkbench(run: Run, judge: Judge) {
    run.tool == WORKBENCH && Read(run.cortex, judge.actionable).Pending?
  }

  /** Some run newer than `i` verifies what workbench `i` asked for, or some newer workbench declares it settled. */
  predicate Cleared(runs: seq<Run>, i: nat, judge: Judge)
    requires i < |runs|
  {
    exists k :: 0 <= k < i &&
      ((Read(runs[i].cortex, judge.actionable).Pending?
          && Verifies(runs[k], Read(runs[i].cortex, judge.actionable).goal, judge))
       || ResolvesExplicitly(runs[k]))
  }

  predicate Blocks(runs: seq<Run>, i: nat, judge: Judge)
    requires i < |runs|
  {
    IsPendingWorkbench(runs[i], judge) && !Cleared(runs, i, judge)
  }

  /** The newest blocking workbench from `start` on, or the number of runs. */
  function FirstBlock(runs: seq<Run>, start: nat, judge: Judge): (r: nat)
    requires start <= |runs|
    ensures start <= r <= |runs| && (r < |runs| ==> Blocks(runs, r, judge))
    ensures forall k :: start <= k < r ==> !Blocks(runs, k, judge)
    decreases |runs| - start
  {
    if start == |runs| || Blocks(runs, start, judge) then start else FirstBlock(runs, start + 1, judge)
  }

  /** `_unresolved_workbench_verification_gate`: what is still to be verified, and by which run it was promised. */
  method UnresolvedGate(runs: seq<Run>, judge: Judge) returns (goal: string, idx: Option<nat>)
    ensures idx.None? <==> forall i :: 0 <= i < |runs| ==> !Blocks(runs, i, judge)
    ensures idx.Some? ==> idx.value == FirstBlock(runs, 0, judge) < |runs|
                          && Read(runs[idx.value].cortex, judge.actionable) == Pending(goal) && goal != ""
  {
    hide Verifies, ResolvesExplicitly, Read;
    for i := 0 to |runs|
      invariant forall k :: 0 <= k < i ==> !Blocks(runs, k, judge)
    {
      if runs[i].tool == WORKBENCH {
        var reading := Read(runs[i].cortex, judge.actionable);
        if reading.Pending? {
          var verified := exists k :: 0 <= k < i && Verifies(runs[k], reading.goal, judge);
          var resolved := exists k :: 0 <= k < i && ResolvesExplicitly(runs[k]);
          if !verified && !resolved {
            assert Blocks(runs, i, judge);
            PendingGoal(runs[i].cortex, judge.actionable);
            return reading.goal, Some(i);
          }
        }
      }
    }
    return "", None;
  }

  lemma {:induction false} PendingGoal(f: Fields, actionable: string -> bool)
    requires Read(f, actionable).Pending?
    ensures Read(f, actionable).goal != ""
  {
  }

  // ---------- The window ----------

  lemma {:induction false} BlocksInPrefix(runs: seq<Run>, n: nat, i: nat, judge: Judge)
    requires i < n <= |runs|
    ensures Blocks(runs[..n], i, judge) <==> Blocks(runs, i, judge)
  {
    assert forall k :: 0 <= k <= i ==> runs[..n][k] == runs[k];
  }

  /** Looking at the newest `n` runs only: the gate sees exactly the blocking workbenches among them. */
  lemma {:induction false} WindowedGate(runs: seq<Run>, n: nat, start: nat, judge: Judge)
    requires start <= n <= |runs|
    ensures FirstBlock(runs[..n], start, judge) ==
            if FirstBlock(runs, start, judge) < n then FirstBlock(runs, start, judge) else n
    decreases n - start
  {
    if start < n {
      BlocksInPrefix(runs, n, start, judge);
      if !Blocks(runs, start, judge) {
        WindowedGate(runs, n, start + 1, judge);
      }
    }
  }

  /** A newer successful run of a plain verification tool clears every promise. */
  lemma {:induction false} VerifyingRunClearsAll(run: Run, runs: seq<Run>, judge: Judge)
    requires Strip(run.status) == "succeeded" && run.tool != WORKBENCH
    requires IsVerificationTool(run.tool, "", judge) && Strip(run.tool) != "memory.add_semantic"
    ensures FirstBlock([run] + runs, 0, judge) == |runs| + 1
  {
    var all := [run] + runs;
    forall i | 0 <= i < |all| ensures !Blocks(all, i, judge) {
      if i > 0 && IsPendingWorkbench(all[i], judge) {
        assert Verifies(all[0], Read(all[i].cortex, judge.actionable).goal, judge);
      }
    }
  }

  const WINDOW := 12

  /** The newest runs, as `list_runs(limit=12)` returns them. */
  function Recent(history: seq<Run>): (runs: seq<Run>)
    ensures |runs| == if |history| < 12 then |history| else 12
    ensures forall i :: 0 <= i < |runs| ==> runs[i] == history[i]
  {
    if |history| <= WINDOW then history else history[..WINDOW]
  }

  /** Twelve newer runs that promise nothing make the gate forget every older promise, verified or not. */
  lemma {:induction false} GateForgets(newer: seq<Run>, history: seq<Run>, judge: Judge)
    requires |newer| >= WINDOW && forall i :: 0 <= i < |newer| ==> !IsPendingWorkbench(newer[i], judge)
    ensures FirstBlock(Recent(newer + history), 0, judge) == |Recent(newer + history)|
  {
    var recent := Recent(newer + history);
    forall i | 0 <= i < |recent| ensures !Blocks(recent, i, judge) {
      assert recent[i] == newer[i];
    }
  }

  // ---------- Completion ----------

  /** A completion check of an execution task: an item with a status, or a plain note. */
  datatype Check = Item(status: string) | Note(text: string)

  /** The parts of a task that completion looks at; text judgements are given as their results. */
  datatype Task = Task(selfDrive: bool, hadUserInbox: bool, growth: bool, hasEvidence: bool, undecidedCandidate: bool,
                       explicitProgress: bool, executeLike: bool, checks: seq<Check>)

  datatype Blocker =
    | UserInboxPending | SelfDriveGrowthIncomplete | WorkbenchVerificationPending
    | SelfDriveImplementationDecisionPending | ActionFirstCompletionBlocked | InsufficientEvidence
    | MutationWithoutVerification

  datatype Outcome = NotOpen | Blocked(blocker: Blocker) | Completed

  predicate IsNonTask(run: Run) {
    run.tool != "" && !StartsWith(run.tool, "task.")
  }

  predicate NonTaskSuccess(run: Run) {
    run.status == "succeeded" && IsNonTask(run)
  }

  predicate GrowthShown(task: Task, runs: seq<Run>) {
    task.growth ==> task.hasEvidence && exists i :: 0 <= i < |runs| && NonTaskSuccess(runs[i])
  }

  predicate WorkbenchSettled(runs: seq<Run>, judge: Judge) {
    forall i :: 0 <= i < |runs| ==> !Blocks(runs, i, judge)
  }

  /** A growth task that named a change it did not decide on has either made a change, or verified something since
      its newest workbench. */
  predicate DecisionMade(task: Task, runs: seq<Run>, judge: Judge) {
    task.growth && task.undecidedCandidate ==>
      || (exists i :: 0 <= i < |runs| && runs[i].status == "succeeded" && runs[i].tool != ""
            && judge.mutation(runs[i].tool))
      || (exists w :: 0 <= w < |runs| && runs[w].tool == WORKBENCH
            && (forall k :: 0 <= k < w ==> runs[k].tool != WORKBENCH)
            && exists k :: 0 <= k < w && Verifies(runs[k], "", judge))
  }

  predicate FailedRun(run: Run) {
    LowerText(Strip(run.status)) in {"failed", "error", "cancelled"} || Strip(run.error) != ""
  }

  predicate DoneRun(run: Run) {
    LowerText(Strip(run.status)) in {"succeeded", "success", "done", "completed"}
  }

  predicate IsActionRun(run: Run) {
    Strip(run.tool) != "" && !StartsWith(run.tool, "task.")
  }

  const DONE_STATUSES := {"done", "completed", "succeeded", "success", "passed", "ok"}

  predicate Ticked(c: Check) {
    match c
    case Item(status) => LowerText(Strip(status)) in DONE_STATUSES
    case Note(text) => exists word :: word in DONE_STATUSES && Find(LowerText(Strip(text)), word, 0) != -1
  }

  predicate NoActionIn(runs: seq<Run>) {
    forall i :: 0 <= i < |runs| ==> !IsActionRun(runs[i])
  }

  /** Run `i` is the newest action. */
  predicate NewestAction(runs: seq<Run>, i: nat) {
    i < |runs| && IsActionRun(runs[i]) && forall k :: 0 <= k < i ==> !IsActionRun(runs[k])
  }

  predicate SomeActionDone(runs: seq<Run>) {
    exists i :: 0 <= i < |runs| && IsActionRun(runs[i]) && DoneRun(runs[i])
  }

  predicate SomeTicked(checks: seq<Check>) {
    exists i :: 0 <= i < |checks| && Ticked(checks[i])
  }

  /** An execution task has acted with success, its newest action did not fail, and of its completion checks, if there
      are any, one is ticked. */
  predicate ActedUpon(task: Task, runs: seq<Run>) {
    task.executeLike ==>
      && SomeActionDone(runs)
      && (forall i: nat :: i < |runs| && NewestAction(runs, i) ==> !FailedRun(runs[i]))
      && (task.checks == [] || SomeTicked(task.checks))
  }

  datatype ActionBlocker = NoActionYet | NewestActionFailed | NoActionSucceeded | NoCheckTicked

  /** `action_first_completion_blockers`. */
  method ActionFirstBlockers(task: Task, runs: seq<Run>) returns (blockers: seq<ActionBlocker>)
    ensures blockers == [] <==> ActedUpon(task, runs)
    ensures NoActionYet in blockers <==> task.executeLike && NoActionIn(runs)
    ensures NewestActionFailed in blockers <==>
              task.executeLike && exists i: nat :: i < |runs| && NewestAction(runs, i) && FailedRun(runs[i])
    ensures NoActionSucceeded in blockers <==> task.executeLike && !NoActionIn(runs) && !SomeActionDone(runs)
    ensures NoCheckTicked in blockers <==> task.executeLike && task.checks != [] && !SomeTicked(task.checks)
  {
    blockers := [];
    if !task.executeLike {
      return;
    }
    var latest, succeeded := ScanActions(runs);
    var hasDoneCheck := FoldChecks(task.checks);
    hide NoActionIn, NewestAction, SomeActionDone, SomeTicked, FailedRun;
    if latest.None? {
      blockers := blockers + [NoActionYet];
    } else {
      if FailedRun(runs[latest.value]) {
        blockers := blockers + [NewestActionFailed];
      }
      if !succeeded {
        blockers := blockers + [NoActionSucceeded];
      }
    }
    if task.checks != [] && !hasDoneCheck {
      blockers := blockers + [NoCheckTicked];
    }
  }

  /** The newest action, and whether any action succeeded. */
  method ScanActions(runs: seq<Run>) returns (latest: Option<nat>, succeeded: bool)
    ensures latest.None? <==> NoActionIn(runs)
    ensures latest.Some? ==> latest.value < |runs| && forall i: nat :: NewestAction(runs, i) <==> i == latest.value
    ensures latest.None? ==> forall i: nat :: !NewestAction(runs, i)
    ensures succeeded <==> SomeActionDone(runs)
    ensures succeeded ==> latest.Some?
  {
    hide IsActionRun, DoneRun;
    latest, succeeded := None, false;
    for i := 0 to |runs|
      invariant latest.None? ==> forall k :: 0 <= k < i ==> !IsActionRun(runs[k])
      invariant latest.Some? ==> latest.value < i && NewestAction(runs, latest.value)
      invariant succeeded <==> exists k :: 0 <= k < i && IsActionRun(runs[k]) && DoneRun(runs[k])
    {
      if IsActionRun(runs[i]) {
        if latest.None? {
          latest := Some(i);
        }
        succeeded := succeeded || DoneRun(runs[i]);
      }
    }
  }

  method FoldChecks(checks: seq<Check>) returns (hasDoneCheck: bool)
    ensures hasDoneCheck <==> SomeTicked(checks)
  {
    hide Ticked;
    hasDoneCheck := false;
    for i := 0 to |checks|
      invariant hasDoneCheck <==> exists k :: 0 <= k < i && Ticked(checks[k])
    {
      hasDoneCheck := hasDoneCheck || Ticked(checks[i]);
    }
  }

  predicate MoreThanBrowsing(task: Task, runs: seq<Run>, judge: Judge) {
    || task.explicitProgress
    || (forall i :: 0 <= i < |runs| ==> !NonTaskSuccess(runs[i]))
    || (exists i :: 0 <= i < |runs| && NonTaskSuccess(runs[i]) && !judge.infoOnly(runs[i].tool))
  }

  /** `_self_drive_growth_completion_blockers`. */
  method GrowthGate(task: Task, runs: seq<Run>) returns (blocked: bool)
    ensures blocked <==> !GrowthShown(task, runs)
  {
    if !task.growth {
      return false;
    }
    var acted := false;
    for i := 0 to |runs|
      invariant acted <==> exists k :: 0 <= k < i && NonTaskSuccess(runs[k])
    {
      if runs[i].status == "succeeded" && runs[i].tool != "" && !StartsWith(runs[i].tool, "task.") {
        acted := true;
      }
    }
    blocked := !acted || !task.hasEvidence;
  }

  /** `_self_drive_unresolved_implementation_blockers`. */
  method DecisionGate(task: Task, runs: seq<Run>, judge: Judge) returns (blocked: bool)
    ensures blocked <==> !DecisionMade(task, runs, judge)
  {
    hide Verifies;
    if !task.growth || !task.undecidedCandidate {
      return false;
    }
    for i := 0 to |runs|
      invariant forall k :: 0 <= k < i ==>
                  !(runs[k].status == "succeeded" && runs[k].tool != "" && judge.mutation(runs[k].tool))
    {
      if runs[i].status == "succeeded" && runs[i].tool != "" && judge.mutation(runs[i].tool) {
        return false;
      }
    }
    var latest := 0;
    while latest < |runs| && runs[latest].tool != WORKBENCH
      invariant latest <= |runs| && forall k :: 0 <= k < latest ==> runs[k].tool != WORKBENCH
    {
      latest := latest + 1;
    }
    if latest < |runs| {
      for k := 0 to latest
        invariant forall j :: 0 <= j < k ==> !Verifies(runs[j], "", judge)
      {
        if Verifies(runs[k], "", judge) {
          return false;
        }
      }
    }
    blocked := true;
  }

  /** Some tools ran with success, all of them for information only, and no progress was written down. */
  method BrowsingGate(task: Task, runs: seq<Run>, judge: Judge) returns (blocked: bool)
    ensures blocked <==> !MoreThanBrowsing(task, runs, judge)
  {
    hide NonTaskSuccess;
    var some, onlyInfo := false, true;
    for i := 0 to |runs|
      invariant some <==> exists k :: 0 <= k < i && NonTaskSuccess(runs[k])
      invariant onlyInfo <==> forall k :: 0 <= k < i && NonTaskSuccess(runs[k]) ==> judge.infoOnly(runs[k].tool)
    {
      if NonTaskSuccess(runs[i]) {
        some, onlyInfo := true, onlyInfo && judge.infoOnly(runs[i].tool);
      }
    }
    blocked := some && onlyInfo && !task.explicitProgress;
  }

  predicate Mutates(run: Run, judge: Judge) {
    NonTaskSuccess(run) && judge.mutation(run.tool)
  }

  predicate ReadsBack(run: Run, judge: Judge) {
    NonTaskSuccess(run) && (judge.verify(run.tool) || run.tool == "file.read")
  }

  /** Some verifying run is newer than every successful mutation. */
  predicate MutationsVerified(runs: seq<Run>, judge: Judge) {
    (exists i :: 0 <= i < |runs| && Mutates(runs[i], judge)) ==>
      exists v :: 0 <= v < |runs| && ReadsBack(runs[v], judge)
        && forall i :: 0 <= i < |runs| && Mutates(runs[i], judge) ==> v < i
  }

  /** Everything completion without force asks for. */
  predicate Ready(task: Task, runs: seq<Run>, judge: Judge) {
    && !(task.selfDrive && task.hadUserInbox)
    && GrowthShown(task, runs)
    && WorkbenchSettled(runs, judge)
    && DecisionMade(task, runs, judge)
    && ActedUpon(task, runs)
    && MoreThanBrowsing(task, runs, judge)
    && MutationsVerified(runs, judge)
  }

  /** The checks of a completion in their order, each named by what it reports. */
  const CHECKS := [UserInboxPending, SelfDriveGrowthIncomplete, WorkbenchVerificationPending,
                   SelfDriveImplementationDecisionPending, ActionFirstCompletionBlocked, InsufficientEvidence,
                   MutationWithoutVerification]

  /** The check named `b` has nothing to report. */
  predicate Holds(b: Blocker, task: Task, runs: seq<Run>, judge: Judge) {
    match b
    case UserInboxPending => !task.selfDrive || !task.hadUserInbox
    case SelfDriveGrowthIncomplete => GrowthShown(task, runs)
    case WorkbenchVerificationPending => forall i :: 0 <= i < |runs| ==> !Blocks(runs, i, judge)
    case SelfDriveImplementationDecisionPending => DecisionMade(task, runs, judge)
    case ActionFirstCompletionBlocked => ActedUpon(task, runs)
    case InsufficientEvidence => MoreThanBrowsing(task, runs, judge)
    case MutationWithoutVerification => MutationsVerified(runs, judge)
  }

  /** Check `b` is the first to report something. */
  predicate FirstReport(b: Blocker, task: Task, runs: seq<Run>, judge: Judge) {
    exists k :: 0 <= k < |CHECKS| && CHECKS[k] == b && !Holds(b, task, runs, judge)
                && forall j :: 0 <= j < k ==> Holds(CHECKS[j], task, runs, judge)
  }

  lemma {:induction false} FirstReportAt(k: nat, task: Task, runs: seq<Run>, judge: Judge)
    requires k < |CHECKS| && !Holds(CHECKS[k], task, runs, judge)
    requires forall j :: 0 <= j < k ==> Holds(CHECKS[j], task, runs, judge)
    ensures forall b :: FirstReport(b, task, runs, judge) <==> b == CHECKS[k]
  {
    hide Holds;
  }

  /** Successful runs outside `task.`, newest first: `recent_tools`. */
  function RecentTools(runs: seq<Run>): seq<Run> {
    if runs == [] then []
    else (if NonTaskSuccess(runs[0]) then [runs[0]] else []) + RecentTools(runs[1..])
  }

  /** From the newest run back: a verifying run is met before any mutation, or there is no mutation at all. */
  predicate VerifiedFirst(runs: seq<Run>, judge: Judge) {
    runs == [] || (!Mutates(runs[0], judge) && (ReadsBack(runs[0], judge) || VerifiedFirst(runs[1..], judge)))
  }

  lemma {:induction false} VerifiedFirstMeans(runs: seq<Run>, judge: Judge)
    ensures VerifiedFirst(runs, judge) <==> MutationsVerified(runs, judge)
  {
    if runs != [] {
      var rest := runs[1..];
      VerifiedFirstMeans(rest, judge);
      if Mutates(runs[0], judge) {
        assert Mutates(runs[0], judge);
      } else if ReadsBack(runs[0], judge) {
        assert forall i :: 0 <= i < |runs| && Mutates(runs[i], judge) ==> 0 < i;
      } else {
        Shift(runs, judge);
      }
    }
  }

  lemma {:induction false} Shift(runs: seq<Run>, judge: Judge)
    requires runs != [] && !Mutates(runs[0], judge) && !ReadsBack(runs[0], judge)
    ensures MutationsVerified(runs, judge) <==> MutationsVerified(runs[1..], judge)
  {
    hide Mutates, ReadsBack;
    var rest := runs[1..];
    assert forall i :: 0 <= i < |rest| ==> rest[i] == runs[i + 1];
    if MutationsVerified(rest, judge) && exists i :: 0 <= i < |runs| && Mutates(runs[i], judge) {
      var i :| 0 <= i < |runs| && Mutates(runs[i], judge);
      assert Mutates(rest[i - 1], judge);
      var v :| 0 <= v < |rest| && ReadsBack(rest[v], judge)
               && forall i :: 0 <= i < |rest| && Mutates(rest[i], judge) ==> v < i;
      forall i | 0 <= i < |runs| && Mutates(runs[i], judge) ensures v + 1 < i {
        assert Mutates(rest[i - 1], judge);
      }
      assert ReadsBack(runs[v + 1], judge);
    }
    if MutationsVerified(runs, judge) && exists i :: 0 <= i < |rest| && Mutates(rest[i], judge) {
      var i :| 0 <= i < |rest| && Mutates(rest[i], judge);
      assert Mutates(runs[i + 1], judge);
      var v :| 0 <= v < |runs| && ReadsBack(runs[v], judge)
               && forall i :: 0 <= i < |runs| && Mutates(runs[i], judge) ==> v < i;
      assert ReadsBack(rest[v - 1], judge);
      forall i | 0 <= i < |rest| && Mutates(rest[i], judge) ensures v - 1 < i {
        assert Mutates(runs[i + 1], judge);
      }
    }
  }

  /** Leaving out the other runs changes nothing. */
  lemma {:induction false} OnlyRecentToolsMatter(runs: seq<Run>, judge: Judge)
    ensures VerifiedFirst(RecentTools(runs), judge) <==> VerifiedFirst(runs, judge)
  {
    if runs != [] {
      OnlyRecentToolsMatter(runs[1..], judge);
      var rest := RecentTools(runs[1..]);
      assert RecentTools(runs) == if NonTaskSuccess(runs[0]) then [runs[0]] + rest else rest;
      assert ([runs[0]] + rest)[1..] == rest;
    }
  }

  lemma {:induction false} RecentToolsAppend(runs: seq<Run>, run: Run)
    ensures RecentTools(runs + [run]) == RecentTools(runs) + if NonTaskSuccess(run) then [run] else []
  {
    if runs == [] {
      assert runs + [run] == [run];
    } else {
      RecentToolsAppend(runs[1..], run);
      assert (runs + [run])[1..] == runs[1..] + [run];
    }
  }

  lemma {:induction false} RecentToolsDecide(runs: seq<Run>, judge: Judge)
    ensures MutationsVerified(RecentTools(runs), judge) <==> MutationsVerified(runs, judge)
  {
    OnlyRecentToolsMatter(runs, judge);
    VerifiedFirstMeans(runs, judge);
    VerifiedFirstMeans(RecentTools(runs), judge);
  }

  /** The index arithmetic of the mutation gate: newest mutation among the successful tools, then anything before it. */
  method MutationGate(runs: seq<Run>, judge: Judge) returns (blocked: bool)
    ensures blocked <==> !MutationsVerified(runs, judge)
  {
    var recent: seq<Run> := [];
    for i := 0 to |runs|
      invariant recent == RecentTools(runs[..i])
    {
      RecentToolsAppend(runs[..i], runs[i]);
      assert runs[..i] + [runs[i]] == runs[..i + 1];
      if NonTaskSuccess(runs[i]) {
        recent := recent + [runs[i]];
      }
    }
    assert runs[..|runs|] == runs;
    RecentToolsDecide(runs, judge);
    hide RecentTools, Mutates, ReadsBack;
    var latest := 0;
    while latest < |recent| && !Mutates(recent[latest], judge)
      invariant 0 <= latest <= |recent|
      invariant forall k :: 0 <= k < latest ==> !Mutates(recent[k], judge)
    {
      latest := latest + 1;
    }
    if latest == |recent| {
      return false;
    }
    for v := 0 to latest
      invariant forall k :: 0 <= k < v ==> !ReadsBack(recent[k], judge)
    {
      if ReadsBack(recent[v], judge) {
        assert forall i :: 0 <= i < |recent| && Mutates(recent[i], judge) ==> v < i;
        return false;
      }
    }
    blocked := true;
  }

  /** The checks in their order: the first that has something to report. */
  method FirstBlocker(task: Task, runs: seq<Run>, judge: Judge) returns (blocker: Option<Blocker>)
    ensures forall b :: blocker == Some(b) <==> FirstReport(b, task, runs, judge)
    ensures blocker.None? <==> forall b :: Holds(b, task, runs, judge)
    ensures blocker.None? <==> Ready(task, runs, judge)
  {
    hide GrowthShown, DecisionMade, ActedUpon, MoreThanBrowsing, MutationsVerified, Blocks;
    if task.selfDrive && task.hadUserInbox {
      FirstReportAt(0, task, runs, judge);
      return Some(UserInboxPending);
    }
    var ungrown := GrowthGate(task, runs);
    if ungrown {
      FirstReportAt(1, task, runs, judge);
      return Some(SelfDriveGrowthIncomplete);
    }
    var goal, idx := UnresolvedGate(runs, judge);
    if idx.Some? {
      FirstReportAt(2, task, runs, judge);
      return Some(WorkbenchVerificationPending);
    }
    var undecided := DecisionGate(task, runs, judge);
    if undecided {
      FirstReportAt(3, task, runs, judge);
      return Some(SelfDriveImplementationDecisionPending);
    }
    var actionBlockers := ActionFirstBlockers(task, runs);
    if actionBlockers != [] {
      FirstReportAt(4, task, runs, judge);
      return Some(ActionFirstCompletionBlocked);
    }
    var browsed := BrowsingGate(task, runs, judge);
    if browsed {
      FirstReportAt(5, task, runs, judge);
      return Some(InsufficientEvidence);
    }
    var unverified := MutationGate(runs, judge);
    if unverified {
      FirstReportAt(6, task, runs, judge);
      return Some(MutationWithoutVerification);
    }
    blocker := None;
  }

  // ---------- The status under the tools that move it ----------

  const FINAL := {"done", "cancelled"}
  const ACTIVE := {"pending", "in_progress", "ready", "resumed"}

  /** One call of a task tool on the task. Whether the parameters of `task.wait` are accepted is given. */
  datatype Step =
    | ToComplete(task: Task, history: seq<Run>, force: bool, judge: Judge)
    | ToAdvance
    | ToUpdate(requested: string)
    | ToFail
    | ToWait(accepted: bool)
    | ToResume(requested: string)

  /** The task is open, and completion is forced or past every gate over the newest runs. */
  predicate Completes(status: string, step: Step) {
    step.ToComplete? && status !in FINAL && (step.force || Ready(step.task, Recent(step.history), step.judge))
  }

  /** What `task.resume` asks for, trimmed; the store takes "resumed" for nothing. */
  function ResumedTo(requested: string): (status: string)
    ensures status != ""
  {
    FirstNonEmpty(Strip(FirstNonEmpty(requested, "resumed")), "resumed")
  }

  function StatusAfter(status: string, step: Step): string {
    match step
    case ToComplete(_, _, _, _) => if Completes(status, step) then "done" else status
    case ToAdvance => if status in FINAL then status else "in_progress"
    case ToUpdate(requested) =>
      if requested == "" || (status == "waiting" && requested in ACTIVE) then status else requested
    case ToFail => "failed"
    case ToWait(accepted) => if accepted then "waiting" else status
    case ToResume(requested) => ResumedTo(requested)
  }

  function StatusRun(status: string, steps: seq<Step>): string {
    if steps == [] then status else StatusAfter(StatusRun(status, steps[..|steps| - 1]), steps[|steps| - 1])
  }

  /** A stored task's status. */
  class TaskRecord {
    var status: string

    constructor (status: string)
      ensures this.status == status
    {
      this.status := status;
    }

    /** The gates in their order, over the newest twelve runs; `force` skips them. */
    method Complete(task: Task, history: seq<Run>, force: bool, judge: Judge) returns (r: Outcome)
      modifies this
      ensures status == StatusAfter(old(status), ToComplete(task, history, force, judge))
      ensures r.NotOpen? <==> old(status) in FINAL
      ensures r.Completed? <==> Completes(old(status), ToComplete(task, history, force, judge))
      ensures forall b :: r == Blocked(b) <==>
                old(status) !in FINAL && !force && FirstReport(b, task, Recent(history), judge)
      ensures r.Completed? && !force ==> forall b :: Holds(b, task, Recent(history), judge)
    {
      hide Holds, FirstReport, Ready, Recent;
      if status == "done" || status == "cancelled" {
        return NotOpen;
      }
      if !force {
        var blocker := FirstBlocker(task, Recent(history), judge);
        if blocker.Some? {
          return Blocked(blocker.value);
        }
      }
      status := "done";
      r := Completed;
    }

    method Advance()
      modifies this
      ensures status == StatusAfter(old(status), ToAdvance)
    {
      if status == "in_progress" || status == "done" || status == "cancelled" {
        return;
      }
      status := "in_progress";
    }

    method Update(requested: string)
      modifies this
      ensures status == StatusAfter(old(status), ToUpdate(requested))
    {
      var next := if requested != "" then requested else status;
      if status == "waiting" && next in {"pending", "in_progress", "ready", "resumed"} {
        return;
      }
      status := next;
    }

    method Fail()
      modifies this
      ensures status == StatusAfter(old(status), ToFail)
    {
      status := "failed";
    }

    method Wait(accepted: bool)
      modifies this
      ensures status == StatusAfter(old(status), ToWait(accepted))
    {
      if accepted {
        status := "waiting";
      }
    }

    method Resume(requested: string)
      modifies this
      ensures status == StatusAfter(old(status), ToResume(requested))
    {
      var asked := Strip(if requested != "" then requested else "resumed");
      status := if asked != "" then asked else "resumed";
    }

    /** A whole series of calls. */
    method Perform(steps: seq<Step>)
      modifies this
      ensures status == StatusRun(old(status), steps)
    {
      hide StatusAfter;
      for i := 0 to |steps|
        invariant status == StatusRun(old(status), steps[..i])
      {
        assert steps[..i + 1][..i] == steps[..i];
        match steps[i]
        case ToComplete(task, history, force, judge) => var _ := Complete(task, history, force, judge);
        case ToAdvance => Advance();
        case ToUpdate(requested) => Update(requested);
        case ToFail => Fail();
        case ToWait(accepted) => Wait(accepted);
        case ToResume(requested) => Resume(requested);
      }
      assert steps[..|steps|] == steps;
    }
  }

  // ---------- How a task gets done ----------

  /** The step takes the task to "done": a completion that goes through, or an update or a resumption that asks for
      just that. */
  predicate SetsDone(status: string, step: Step) {
    || Completes(status, step)
    || (step.ToUpdate? && step.requested == "done")
    || (step.ToResume? && ResumedTo(step.requested) == "done")
  }

  predicate KeepsDone(step: Step) {
    match step
    case ToComplete(_, _, _, _) => true
    case ToAdvance => true
    case ToUpdate(requested) => requested in {"", "done"}
    case ToFail => false
    case ToWait(accepted) => !accepted
    case ToResume(requested) => ResumedTo(requested) == "done"
  }

  lemma {:induction false} DoneAfterStep(status: string, step: Step)
    ensures StatusAfter(status, step) == "done" <==> SetsDone(status, step) || (status == "done" && KeepsDone(step))
  {
    hide Ready, ResumedTo;
    assert "waiting" != "done" && "in_progress" != "done" && "failed" != "done" by {
      assert |"waiting"| == 7 && |"done"| == 4;
    }
  }

  predicate AllKeepDone(steps: seq<Step>) {
    forall i :: 0 <= i < |steps| ==> KeepsDone(steps[i])
  }

  /** Step `k` took the task to "done", and nothing since took it away. */
  predicate DoneSince(status: string, steps: seq<Step>, k: nat)
    requires k < |steps|
  {
    SetsDone(StatusRun(status, steps[..k]), steps[k]) && AllKeepDone(steps[k + 1..])
  }

  /** After any series of calls the task is done exactly when some call took it there and every later one left it
      there, or it was done before and no call changed that. */
  lemma {:induction false} DoneExactly(status: string, steps: seq<Step>)
    ensures StatusRun(status, steps) == "done" <==>
            || (exists k :: 0 <= k < |steps| && DoneSince(status, steps, k))
            || (status == "done" && AllKeepDone(steps))
  {
    hide StatusAfter, SetsDone, KeepsDone;
    if steps != [] {
      var n := |steps| - 1;
      var front := steps[..n];
      DoneExactly(status, front);
      DoneAfterStep(StatusRun(status, front), steps[n]);
      DoneSinceFront(status, steps);
      AllKeepFront(steps);
      assert steps[..n] == front;
      if SetsDone(StatusRun(status, front), steps[n]) {
        assert AllKeepDone(steps[n + 1..]);
        assert DoneSince(status, steps, n);
      }
    }
  }

  lemma {:induction false} AllKeepFront(steps: seq<Step>)
    requires steps != []
    ensures AllKeepDone(steps) <==> AllKeepDone(steps[..|steps| - 1]) && KeepsDone(steps[|steps| - 1])
  {
    hide KeepsDone;
    var front := steps[..|steps| - 1];
    if AllKeepDone(front) && KeepsDone(steps[|steps| - 1]) {
      forall i | 0 <= i < |steps| ensures KeepsDone(steps[i]) {
        assert i < |front| ==> front[i] == steps[i];
      }
    }
    assert forall i :: 0 <= i < |front| ==> front[i] == steps[i];
  }

  lemma {:induction false} DoneSinceFront(status: string, steps: seq<Step>)
    requires steps != []
    ensures var n := |steps| - 1;
            forall k :: 0 <= k < n ==>
              (DoneSince(status, steps, k) <==> DoneSince(status, steps[..n], k) && KeepsDone(steps[n]))
  {
    hide SetsDone, KeepsDone, StatusRun, AllKeepDone;
    var n := |steps| - 1;
    var front := steps[..n];
    forall k | 0 <= k < n
      ensures DoneSince(status, steps, k) <==> DoneSince(status, front, k) && KeepsDone(steps[n])
    {
      assert front[..k] == steps[..k] && front[k] == steps[k];
      AllKeepFront(steps[k + 1..]);
      assert steps[k + 1..][..|steps[k + 1..]| - 1] == front[k + 1..];
    }
  }

  /** No update or resumption asks for "done", and no completion is forced. */
  predicate AsksFairly(step: Step) {
    match step
    case ToComplete(_, _, force, _) => !force
    case ToUpdate(requested) => requested != "done"
    case ToResume(requested) => ResumedTo(requested) != "done"
    case _ => true
  }

  /** Then a task that was not done is done only past every check, over the runs that were the newest when it was
      completed. */
  lemma {:induction false} FairlyDoneIsGated(status: string, steps: seq<Step>) returns (k: nat)
    requires status != "done" && StatusRun(status, steps) == "done"
    requires forall i :: 0 <= i < |steps| ==> AsksFairly(steps[i])
    ensures k < |steps| && steps[k].ToComplete? && StatusRun(status, steps[..k]) !in FINAL
    ensures forall b :: Holds(b, steps[k].task, Recent(steps[k].history), steps[k].judge)
  {
    DoneExactly(status, steps);
    k :| 0 <= k < |steps| && DoneSince(status, steps, k);
    hide *;
    assert AsksFairly(steps[k]);
    FairStep(StatusRun(status, steps[..k]), steps[k]);
  }

  lemma {:induction false} FairStep(status: string, step: Step)
    requires SetsDone(status, step) && AsksFairly(step)
    ensures step.ToComplete? && status !in FINAL
    ensures forall b :: Holds(b, step.task, Recent(step.history), step.judge)
  {
    hide GrowthShown, DecisionMade, ActedUpon, MoreThanBrowsing, MutationsVerified, Blocks, Recent, ResumedTo;
  }

  // ---------- What the guard on waiting is worth ----------

  function Updates(requests: seq<string>): seq<Step> {
    seq(|requests|, i requires 0 <= i < |requests| => ToUpdate(requests[i]))
  }

  /** Request `i` leaves waiting for some status that is not active, no later one up to `j` returns to waiting, and
      request `j` is for an active status. */
  predicate Detour(requests: seq<string>, i: nat, j: nat) {
    && i < j < |requests|
    && requests[i] !in ACTIVE + {"", "waiting"} && requests[j] in ACTIVE
    && forall k :: i < k < j ==> requests[k] != "waiting"
  }

  lemma {:induction false} UpdateStep(status: string, requests: seq<string>, m: nat)
    requires m < |requests|
    ensures StatusRun(status, Updates(requests)[..m + 1]) ==
            StatusAfter(StatusRun(status, Updates(requests)[..m]), ToUpdate(requests[m]))
  {
    assert Updates(requests)[..m + 1][..m] == Updates(requests)[..m];
  }

  /** Out of waiting since request `i`. */
  lemma {:induction false} StaysOut(requests: seq<string>, i: nat, m: nat)
    requires i < m <= |requests| && requests[i] !in ACTIVE + {"", "waiting"}
    requires forall k :: i < k < m ==> requests[k] != "waiting"
    ensures StatusRun("waiting", Updates(requests)[..m]) != "waiting"
  {
    UpdateStep("waiting", requests, m - 1);
    if i < m - 1 {
      StaysOut(requests, i, m - 1);
    }
  }

  /** Without a detour the status is never active, and outside waiting only since a request that left it. */
  lemma {:induction false} WithoutDetour(requests: seq<string>, m: nat)
    requires m <= |requests| && forall i: nat, j: nat :: j < m ==> !Detour(requests, i, j)
    ensures StatusRun("waiting", Updates(requests)[..m]) !in ACTIVE
    ensures StatusRun("waiting", Updates(requests)[..m]) != "waiting" ==>
              exists i :: 0 <= i < m && requests[i] !in ACTIVE + {"", "waiting"}
                && forall k :: i < k < m ==> requests[k] != "waiting"
  {
    if m > 0 {
      WithoutDetour(requests, m - 1);
      UpdateStep("waiting", requests, m - 1);
      var before := StatusRun("waiting", Updates(requests)[..m - 1]);
      if before != "waiting" {
        var i :| 0 <= i < m - 1 && requests[i] !in ACTIVE + {"", "waiting"}
                 && forall k :: i < k < m - 1 ==> requests[k] != "waiting";
        assert !Detour(requests, i, m - 1);
      }
    }
  }

  /** The guard keeps updates from taking a waiting task straight to an active status; a series of updates gets there
      exactly by way of a status that is neither. */
  lemma {:induction false} WaitingGuardExactly(requests: seq<string>)
    ensures (exists m :: 0 <= m <= |requests| && StatusRun("waiting", Updates(requests)[..m]) in ACTIVE) <==>
            exists i: nat, j: nat :: Detour(requests, i, j)
  {
    if exists i: nat, j: nat :: Detour(requests, i, j) {
      var i: nat, j: nat :| Detour(requests, i, j);
      StaysOut(requests, i, j);
      UpdateStep("waiting", requests, j);
      assert StatusRun("waiting", Updates(requests)[..j + 1]) in ACTIVE;
    } else {
      forall m | 0 <= m <= |requests| ensures StatusRun("waiting", Updates(requests)[..m]) !in ACTIVE {
        WithoutDetour(requests, m);
      }
    }
  }
}
