/** `core/cortex/intent.py` and the merge in `tools/workbench.py`: what a task has promised to verify next, as one
    function writes it and another reads it back. */
module Cortex {
  import opened FuzzyFind
  import opened Text
  import opened Wrappers

  // ---------- Text ----------

  const CONTROL := "[[control-next-verification]]"

  predicate StartsWith(s: string, prefix: string) {
    |prefix| <= |s| && s[..|prefix|] == prefix
  }

  function FirstNonEmpty(a: string, b: string): string {
    if a != "" then a else b
  }

  /** `clean_next_verification_text`: trimmed, and without one leading control marker. */
  function Clean(s: string): string {
    var text := Strip(s);
    if StartsWith(text, CONTROL) then Strip(text[|CONTROL|..]) else text
  }

  predicate IsControl(s: string) {
    StartsWith(Strip(s), CONTROL)
  }

  /** `control_next_verification`: marked as a control text, not to be acted on. */
  function AsControl(s: string): string {
    if Clean(s) == "" then "" else CONTROL + " " + Clean(s)
  }

  /** `has_actionable_next_verification`; `actionable` classifies the words of a plain, non-empty text. */
  predicate HasActionable(s: string, actionable: string -> bool) {
    Strip(s) != "" && !IsControl(s) && actionable(Strip(s))
  }

  lemma {:induction false} CleanTrims(s: string)
    ensures Trimmed(Clean(s)) && Strip(Clean(s)) == Clean(s)
  {
    var text := Strip(s);
    StripTrims(s);
    if StartsWith(text, CONTROL) {
      StripTrims(text[|CONTROL|..]);
    }
    StripTrimmed(Clean(s));
  }

  lemma {:induction false} MarkedText(c: string)
    requires Trimmed(c) && c != ""
    ensures Strip(CONTROL + " " + c) == CONTROL + " " + c
    ensures Strip((CONTROL + " " + c)[|CONTROL|..]) == c
  {
    var marked := CONTROL + " " + c;
    assert marked[0] == '[' && marked[|marked| - 1] == c[|c| - 1];
    StripTrimmed(marked);
    assert marked[|CONTROL|..] == " " + c && (" " + c)[1..] == c;
    StripTrimmed(c);
    assert StripLeft(" " + c) == c;
  }

  /** Marking a text and reading it back: recognised as control text, and its words unchanged. */
  lemma {:induction false} ControlRoundTrip(s: string)
    requires Clean(s) != ""
    ensures IsControl(AsControl(s)) && Clean(AsControl(s)) == Clean(s)
  {
    CleanTrims(s);
    MarkedText(Clean(s));
    hide Strip;
    assert (CONTROL + " " + Clean(s))[..|CONTROL|] == CONTROL;
  }

  /** A text that is no control text is cleaned to its trimmed self, and cleaning is then settled. */
  lemma {:induction false} PlainClean(s: string)
    requires !IsControl(s)
    ensures Clean(s) == Strip(s) && !IsControl(Clean(s)) && Clean(Clean(s)) == Clean(s)
  {
    CleanTrims(s);
  }

  // ---------- The verification state ----------

  /** The field `verification_state`: nothing (or an empty value), a dict, or something that is not a dict. */
  datatype StateField = NoState | State(status: string, goal: string, next: string, text: string) | NotDict

  /** The two cortex fields that matter here; `next` is "" when `next_verification` is absent. */
  datatype Fields = Fields(state: StateField, next: string)

  const EMPTY := Fields(NoState, "")

  const RESOLVED_STATES := {"resolved", "satisfied", "complete", "completed", "skipped", "suppressed"}

  datatype Reading = Nothing | Pending(goal: string) | Resolved(goal: string)

  function ReadPlain(raw: string, actionable: string -> bool): Reading {
    if IsControl(raw) then Resolved(Clean(raw))
    else if Clean(raw) == "" then Nothing
    else if HasActionable(Clean(raw), actionable) then Pending(Clean(raw))
    else Resolved(Clean(raw))
  }

  /** `verification_state_from_cortex`. */
  function Read(f: Fields, actionable: string -> bool): Reading {
    match f.state
    case NoState => ReadPlain(f.next, actionable)
    case NotDict => Resolved("")
    case State(status, goal, next, text) =>
      var raw := Strip(FirstNonEmpty(goal, FirstNonEmpty(next, text)));
      if IsControl(raw) then Resolved(Clean(raw))
      else if LowerText(Strip(status)) == "pending" then
        var wanted := FirstNonEmpty(Clean(raw), Clean(f.next));
        if wanted != "" && HasActionable(wanted, actionable) then Pending(wanted) else Resolved(wanted)
      else if LowerText(Strip(status)) != "" then Resolved(Clean(raw))
      else Resolved("")
  }

  /** The fields of a workbench patch, as cleaned: each may be missing. */
  datatype Patch = Patch(state: Option<StateField>, next: Option<string>)

  /** `build_verification_state`. */
  function Build(p: Patch, actionable: string -> bool): Option<StateField> {
    match p.state
    case Some(State(status, goal, next, text)) =>
      Some(State(FirstNonEmpty(LowerText(Strip(status)), "resolved"), Clean(FirstNonEmpty(goal, next)), next, text))
    case Some(NoState) => Some(State("resolved", "", "", ""))
    case Some(NotDict) => None
    case None =>
      match p.next
      case None => None
      case Some(raw) =>
        var status := if !IsControl(raw) && HasActionable(Clean(raw), actionable) then "pending" else "resolved";
        Some(State(status, Clean(raw), "", ""))
  }

  /** `task_workbench`: the cortex after a patch is merged in. */
  function Merge(f: Fields, p: Patch, actionable: string -> bool): Fields {
    var built := Build(p, actionable);
    Fields(
      match built
      case Some(s) => s
      case None => (match p.state case Some(s) => s case None => f.state),
      match p.next case Some(raw) => Clean(raw) case None => f.next)
  }

  /** The same patch as it is reported in the run's own state: merged into nothing. */
  function Reported(p: Patch, actionable: string -> bool): Fields {
    Merge(EMPTY, p, actionable)
  }

  /** Writer and reader agree on a plain `next_verification`: it is pending exactly when it is no control text and its
      words are actionable, in the stored cortex and in the run's report alike, whatever was there before. */
  lemma {:induction false} NextVerificationRoundTrip(f: Fields, raw: string, actionable: string -> bool)
    ensures var p := Patch(None, Some(raw));
            var pending := !IsControl(raw) && HasActionable(raw, actionable);
            && (Read(Merge(f, p, actionable), actionable) == Pending(Clean(raw)) <==> pending)
            && (Read(Merge(f, p, actionable), actionable).Resolved? <==> !pending)
            && Read(Reported(p, actionable), actionable) == Read(Merge(f, p, actionable), actionable)
  {
    CleanTrims(raw);
    if !IsControl(raw) {
      PlainClean(raw);
    }
    StatusWords();
  }

  lemma {:induction false} StatusWords()
    ensures LowerText(Strip("pending")) == "pending" && LowerText(Strip("resolved")) == "resolved"
  {
    StripTrimmed("pending");
    StripTrimmed("resolved");
    assert LowerText("pending") == "pending" && LowerText("resolved") == "resolved";
  }

  /** The goal a reader finds in a state that was written from `s`. */
  function ShownGoal(s: StateField): string
    requires s.State?
  {
    FirstNonEmpty(Clean(FirstNonEmpty(s.goal, s.next)), FirstNonEmpty(s.next, s.text))
  }

  /** With this goal, and `next` where it has no words, there is something to verify. */
  predicate Shows(goal: string, next: string, actionable: string -> bool) {
    !IsControl(goal) && HasActionable(FirstNonEmpty(Clean(goal), Clean(next)), actionable)
  }

  /** A patch that names a state reads back as pending exactly when it says so, the goal shown is no control text, and
      that goal, or else the `next_verification` beside it, is actionable. */
  lemma {:induction false} ExplicitStateReading(f: Fields, s: StateField, next: Option<string>,
                                                actionable: string -> bool)
    ensures var merged := Merge(f, Patch(Some(s), next), actionable);
            Read(merged, actionable).Pending? <==>
              && s.State? && LowerText(Strip(s.status)) == "pending"
              && Shows(ShownGoal(s), merged.next, actionable)
  {
    StatusWords();
    if s.State? {
      var status := LowerText(Strip(s.status));
      LowerTrimmed(s.status);
      assert status == "" ==> FirstNonEmpty(status, "resolved") == "resolved";
      StripTrims(ShownGoal(s));
      StripTrimmed(Strip(ShownGoal(s)));
    }
  }

  /** The writer takes the control mark off a goal, so a state that would read as settled reads as pending once it is
      written. */
  lemma {:induction false} ControlMarkLost(f: Fields, s: StateField, next: Option<string>, actionable: string -> bool)
    requires s.State? && LowerText(Strip(s.status)) == "pending" && IsControl(s.goal)
    requires HasActionable(Clean(s.goal), actionable)
    ensures Read(Fields(s, f.next), actionable) == Resolved(Clean(s.goal))
    ensures Read(Merge(f, Patch(Some(s), next), actionable), actionable) == Pending(Clean(s.goal))
  {
    StripTrims(s.goal);
    StripTrimmed(Strip(s.goal));
    CleanTrims(s.goal);
    assert s.goal != "";
    PlainClean(Clean(s.goal));
    LowerTrimmed(s.status);
  }

  /** Writing a state does not change whether it reads as pending, exactly when it does not say so; or its goal, or the
      `next` in its place, has words and they are not both marked and actionable; or there is no goal; or a goal without
      words reads like the rest of the state, which takes its place. */
  lemma {:induction false} WritingKeepsReadingExactly(f: Fields, s: StateField, next: Option<string>,
                                                      actionable: string -> bool)
    requires s.State?
    ensures var merged := Merge(f, Patch(Some(s), next), actionable);
            var goal := FirstNonEmpty(s.goal, s.next);
            (Read(Fields(s, merged.next), actionable).Pending? <==> Read(merged, actionable).Pending?) <==>
              || LowerText(Strip(s.status)) != "pending"
              || (if Clean(goal) != "" then !(IsControl(goal) && HasActionable(Clean(goal), actionable))
                  else s.goal == ""
                       || ((!IsControl(s.goal) && HasActionable(Clean(merged.next), actionable)) <==>
                           Read(Fields(s.(goal := ""), merged.next), actionable).Pending?))
  {
    var n := Merge(f, Patch(Some(s), next), actionable).next;
    ExplicitStateReading(f, s, next, actionable);
    StateReading(s, n, actionable);
    StateReading(s.(goal := ""), n, actionable);
    GoalShown(s, n, actionable);
    hide *;
  }

  /** The state as it is shows one text, as written another. */
  lemma {:induction false} GoalShown(s: StateField, n: string, actionable: string -> bool)
    requires s.State?
    ensures var goal, rest := FirstNonEmpty(s.goal, s.next), FirstNonEmpty(s.next, s.text);
            (Shows(FirstNonEmpty(s.goal, rest), n, actionable) <==> Shows(ShownGoal(s), n, actionable)) <==>
              if Clean(goal) != "" then !(IsControl(goal) && HasActionable(Clean(goal), actionable))
              else s.goal == ""
                   || ((!IsControl(s.goal) && HasActionable(Clean(n), actionable)) <==> Shows(rest, n, actionable))
  {
    var goal := FirstNonEmpty(s.goal, s.next);
    if !IsControl(goal) {
      PlainClean(goal);
    }
    if !IsControl(Clean(goal)) {
      PlainClean(Clean(goal));
      CleanTrims(goal);
    }
    assert HasActionable(Clean(goal), actionable) ==> !IsControl(Clean(goal));
    hide Clean, IsControl, HasActionable;
  }

  /** A state as it is, read. */
  lemma {:induction false} StateReading(s: StateField, n: string, actionable: string -> bool)
    requires s.State?
    ensures var goal := FirstNonEmpty(s.goal, FirstNonEmpty(s.next, s.text));
            Read(Fields(s, n), actionable).Pending? <==>
              && LowerText(Strip(s.status)) == "pending"
              && Shows(goal, n, actionable)
  {
    var goal := FirstNonEmpty(s.goal, FirstNonEmpty(s.next, s.text));
    StripTrims(goal);
    StripTrimmed(Strip(goal));
  }


  /** Lower-casing a trimmed status again changes nothing. */
  lemma {:induction false} LowerTrimmed(s: string)
    ensures LowerText(Strip(LowerText(Strip(s)))) == LowerText(Strip(s))
  {
    StripTrims(s);
    var low := LowerText(Strip(s));
    StripTrimmed(low);
    assert LowerText(low) == low;
  }
}
