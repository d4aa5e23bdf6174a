/** `tools/file.py`, `file_edit`: several replacements matched against one original text. */
module FileEdit {
  import opened Text
  import Fuzzy = FuzzyFind

  datatype Edit = Edit(oldText: string, newText: string)

  datatype EditError =
    | EmptyEdits | EmptyOldText | OldTextNotFound | NonUniqueOldText
    | OverlappingEdits | NoChange | PythonSyntaxError

  datatype Outcome = Edited(content: string) | Rejected(error: EditError)

  /** A matched edit: the half-open region of the original it replaces. */
  datatype Span = Span(start: nat, end: nat, newText: string)

  // ---------- Specification: one simultaneous substitution ----------

  datatype Match = Found(span: Span) | Failed(error: EditError)

  function MatchEdit(original: string, e: Edit): (m: Match)
    ensures m.Failed? ==> m.error in {EmptyOldText, OldTextNotFound, NonUniqueOldText}
  {
    Fuzzy.PositionInText(original, e.oldText);
    var at := Fuzzy.Position(original, e.oldText);
    if e.oldText == "" then Failed(EmptyOldText)
    else if at == -1 then Failed(OldTextNotFound)
    else if Find(original, e.oldText, at + 1) != -1 then Failed(NonUniqueOldText)
    else Found(Span(at, at + |e.oldText|, e.newText))
  }

  /** The error of the first edit, in list order, that does not match. */
  function FirstFailure(original: string, edits: seq<Edit>): (r: Match)
    requires exists i :: 0 <= i < |edits| && MatchEdit(original, edits[i]).Failed?
    ensures r.Failed? && r.error in {EmptyOldText, OldTextNotFound, NonUniqueOldText}
  {
    var m := MatchEdit(original, edits[0]);
    if m.Failed? then m else FirstFailure(original, edits[1..])
  }

  predicate AllMatch(original: string, edits: seq<Edit>) {
    forall i :: 0 <= i < |edits| ==> MatchEdit(original, edits[i]).Found?
  }

  function Spans(original: string, edits: seq<Edit>): seq<Span>
    requires AllMatch(original, edits)
  {
    seq(|edits|, i requires 0 <= i < |edits| => MatchEdit(original, edits[i]).span)
  }

  function Insert(x: Span, spans: seq<Span>): seq<Span> {
    if spans == [] || x.start <= spans[0].start then [x] + spans
    else [spans[0]] + Insert(x, spans[1..])
  }

  /** The stable sort by start that `list.sort` performs. */
  function SortByStart(spans: seq<Span>): seq<Span> {
    if spans == [] then [] else Insert(spans[0], SortByStart(spans[1..]))
  }

  predicate Sorted(spans: seq<Span>) {
    forall i, j :: 0 <= i < j < |spans| ==> spans[i].start <= spans[j].start
  }

  predicate Apart(spans: seq<Span>) {
    forall i :: 0 <= i < |spans| - 1 ==> spans[i].end <= spans[i + 1].start
  }

  /** The original from `from` on, with the spans' new texts between the untouched gaps. */
  function Interleave(original: string, spans: seq<Span>, from: nat): string {
    if spans == [] then Slice(original, from, |original|)
    else Slice(original, from, spans[0].start) + spans[0].newText
         + Interleave(original, spans[1..], spans[0].end)
  }

  function Substitute(original: string, edits: seq<Edit>): string
    requires AllMatch(original, edits)
  {
    Interleave(original, SortByStart(Spans(original, edits)), 0)
  }

  /** The edit list is carried out. */
  predicate Accepts(original: string, edits: seq<Edit>, syntaxOk: string -> bool) {
    && edits != []
    && AllMatch(original, edits)
    && Apart(SortByStart(Spans(original, edits)))
    && Substitute(original, edits) != original
    && syntaxOk(Substitute(original, edits))
  }

  // ---------- Splicing from the back is the simultaneous substitution ----------

  function Splice(content: string, s: Span): string {
    Slice(content, 0, s.start) + s.newText + Slice(content, s.end, |content|)
  }

  /** Starting the interleaving earlier only prepends the text skipped over. */
  lemma {:induction false} InterleaveFrom(original: string, spans: seq<Span>, e: nat)
    requires e <= |original|
    requires spans != [] ==> e <= spans[0].start <= |original|
    ensures Interleave(original, spans, 0) == original[..e] + Interleave(original, spans, e)
  {
    if spans == [] {
      assert original == original[..e] + original[e..];
    } else {
      var skipped, gap := original[..e], original[e..spans[0].start];
      var tail := Interleave(original, spans[1..], spans[0].end);
      assert original[..spans[0].start] == skipped + gap;
      assert Interleave(original, spans, 0) == skipped + gap + spans[0].newText + tail;
      assert Interleave(original, spans, e) == gap + spans[0].newText + tail;
      hide *;
      Assoc(skipped, gap, spans[0].newText);
      Assoc(skipped, gap + spans[0].newText, tail);
    }
  }

  lemma {:induction false} SpliceStep(original: string, spans: seq<Span>)
    requires spans != [] && spans[0].start < spans[0].end
    requires forall i :: 0 <= i < |spans| ==> spans[i].start <= |original|
    requires |spans| > 1 ==> spans[0].end <= spans[1].start
    ensures Splice(Interleave(original, spans[1..], 0), spans[0]) == Interleave(original, spans, 0)
  {
    var s, rest := spans[0], spans[1..];
    if s.end <= |original| {
      SpliceInto(original, Interleave(original, rest, s.end), s);
      InterleaveFrom(original, rest, s.end);
    } else {
      assert rest == [] && Slice(original, 0, |original|) == original;
    }
  }

  /** Splicing a span whose suffix is already in place. */
  lemma {:induction false} SpliceInto(original: string, tail: string, s: Span)
    requires s.start <= s.end <= |original|
    ensures Splice(original[..s.end] + tail, s) == Slice(original, 0, s.start) + s.newText + tail
  {
    ConcatParts(original[..s.end], tail, s.start);
    assert original[..s.end][..s.start] == original[..s.start];
  }

  // ---------- Sorting, and independence of the list order ----------

  lemma {:induction false} InsertContents(x: Span, spans: seq<Span>)
    ensures multiset(Insert(x, spans)) == multiset(spans) + multiset{x}
  {
    if spans != [] && x.start > spans[0].start {
      InsertContents(x, spans[1..]);
      assert spans == [spans[0]] + spans[1..];
    }
  }

  lemma {:induction false} InsertKeeps(x: Span, spans: seq<Span>)
    requires Sorted(spans)
    ensures Sorted(Insert(x, spans))
  {
    if spans != [] && x.start > spans[0].start {
      var rest := Insert(x, spans[1..]);
      InsertKeeps(x, spans[1..]);
      InsertContents(x, spans[1..]);
      assert Insert(x, spans) == [spans[0]] + rest;
      hide Insert;
      forall j | 0 <= j < |rest| ensures spans[0].start <= rest[j].start {
        assert rest[j] in multiset(spans[1..]) + multiset{x};
      }
      SortedInFront(spans[0], rest);
    }
  }

  lemma {:induction false} SortedInFront(s: Span, rest: seq<Span>)
    requires Sorted(rest) && forall j :: 0 <= j < |rest| ==> s.start <= rest[j].start
    ensures Sorted([s] + rest)
  {
  }

  lemma {:induction false} SortSorts(spans: seq<Span>)
    ensures Sorted(SortByStart(spans)) && multiset(SortByStart(spans)) == multiset(spans)
  {
    if spans != [] {
      SortSorts(spans[1..]);
      InsertKeeps(spans[0], SortByStart(spans[1..]));
      InsertContents(spans[0], SortByStart(spans[1..]));
      assert spans == [spans[0]] + spans[1..];
    }
  }

  lemma {:induction false} SameHead(a: seq<Span>, b: seq<Span>)
    requires forall i, j :: 0 <= i < j < |a| ==> a[i].start < a[j].start
    requires Sorted(b) && multiset(a) == multiset(b) && a != [] && b != []
    ensures a[0] == b[0]
  {
    assert a[0] in multiset(b) && b[0] in multiset(a);
    var l :| 0 <= l < |b| && b[l] == a[0];
    var k :| 0 <= k < |a| && a[k] == b[0];
  }

  /** Distinct starts leave only one sorted order. */
  lemma {:induction false} SortedUnique(a: seq<Span>, b: seq<Span>)
    requires forall i, j :: 0 <= i < j < |a| ==> a[i].start < a[j].start
    requires Sorted(b) && multiset(a) == multiset(b)
    ensures a == b
  {
    assert |multiset(a)| == |a| && |multiset(b)| == |b|;
    if a != [] {
      SameHead(a, b);
      RemoveAtMultiset(a, 0);
      RemoveAtMultiset(b, 0);
      assert RemoveAt(a, 0) == a[1..] && RemoveAt(b, 0) == b[1..];
      MultisetCancel(multiset(a[1..]), multiset(b[1..]), a[0]);
      SortedUnique(a[1..], b[1..]);
    }
  }

  lemma {:induction false} SpansPermute(original: string, a: seq<Edit>, b: seq<Edit>)
    requires AllMatch(original, a) && AllMatch(original, b) && multiset(a) == multiset(b)
    ensures multiset(Spans(original, a)) == multiset(Spans(original, b))
    decreases |a|
  {
    assert |multiset(a)| == |a| && |multiset(b)| == |b|;
    if a != [] {
      assert a[0] in multiset(b);
      var k :| 0 <= k < |b| && b[k] == a[0];
      SpansRemove(original, a, 0);
      SpansRemove(original, b, k);
      MultisetCancel(multiset(RemoveAt(a, 0)), multiset(RemoveAt(b, k)), a[0]);
      SpansPermute(original, RemoveAt(a, 0), RemoveAt(b, k));
    }
  }

  lemma {:induction false} SpansRemove(original: string, edits: seq<Edit>, k: nat)
    requires AllMatch(original, edits) && k < |edits|
    ensures AllMatch(original, RemoveAt(edits, k))
    ensures multiset(edits) == multiset(RemoveAt(edits, k)) + multiset{edits[k]}
    ensures multiset(Spans(original, edits)) ==
            multiset(Spans(original, RemoveAt(edits, k))) + multiset{MatchEdit(original, edits[k]).span}
  {
    hide MatchEdit;
    RemoveAtMultiset(edits, k);
    RemoveAtMultiset(Spans(original, edits), k);
    MatchesRemove(original, edits, k);
  }

  lemma {:induction false} MatchesRemove(original: string, edits: seq<Edit>, k: nat)
    requires AllMatch(original, edits) && k < |edits|
    ensures AllMatch(original, RemoveAt(edits, k))
    ensures Spans(original, RemoveAt(edits, k)) == RemoveAt(Spans(original, edits), k)
  {
    hide MatchEdit, RemoveAt;
    RemoveAtIndices(edits, k);
    RemoveAtIndices(Spans(original, edits), k);
  }

  lemma {:induction false} ApartIsStrict(spans: seq<Span>, i: nat, j: nat)
    requires Apart(spans) && i < j < |spans|
    requires forall k :: 0 <= k < |spans| ==> spans[k].start < spans[k].end
    ensures spans[i].start < spans[j].start
    decreases j
  {
    if i < j - 1 {
      ApartIsStrict(spans, i, j - 1);
    }
  }

  lemma {:induction false} SpanShapes(original: string, edits: seq<Edit>)
    requires AllMatch(original, edits)
    ensures forall s :: s in SortByStart(Spans(original, edits)) ==> s.start < s.end && s.start <= |original|
  {
    var spans := Spans(original, edits);
    SortSorts(spans);
    forall s | s in SortByStart(spans) ensures s.start < s.end && s.start <= |original| {
      assert s in multiset(SortByStart(spans));
      var i :| 0 <= i < |spans| && spans[i] == s;
      Fuzzy.PositionInText(original, edits[i].oldText);
    }
  }

  lemma {:induction false} ApartOrder(original: string, a: seq<Edit>, b: seq<Edit>)
    requires AllMatch(original, a) && AllMatch(original, b) && multiset(a) == multiset(b)
    requires Apart(SortByStart(Spans(original, a)))
    ensures SortByStart(Spans(original, a)) == SortByStart(Spans(original, b))
  {
    var x, y := SortByStart(Spans(original, a)), SortByStart(Spans(original, b));
    SpansPermute(original, a, b);
    SortSorts(Spans(original, a));
    SortSorts(Spans(original, b));
    SpanShapes(original, a);
    forall i, j | 0 <= i < j < |x| ensures x[i].start < x[j].start {
      ApartIsStrict(x, i, j);
    }
    SortedUnique(x, y);
  }

  lemma {:induction false} AllMatchPermutes(original: string, a: seq<Edit>, b: seq<Edit>)
    requires AllMatch(original, a) && multiset(a) == multiset(b)
    ensures AllMatch(original, b)
  {
    forall i | 0 <= i < |b| ensures MatchEdit(original, b[i]).Found? {
      assert b[i] in multiset(a);
    }
  }

  /** Acceptance and result are the same for every permutation of the edit list. */
  lemma {:induction false} OrderIrrelevant(original: string, a: seq<Edit>, b: seq<Edit>, syntaxOk: string -> bool)
    requires multiset(a) == multiset(b)
    ensures Accepts(original, a, syntaxOk) <==> Accepts(original, b, syntaxOk)
    ensures Accepts(original, a, syntaxOk) ==> Substitute(original, a) == Substitute(original, b)
  {
    assert |multiset(a)| == |a| && |multiset(b)| == |b|;
    if Accepts(original, a, syntaxOk) {
      AllMatchPermutes(original, a, b);
      ApartOrder(original, a, b);
    }
    if Accepts(original, b, syntaxOk) {
      AllMatchPermutes(original, b, a);
      ApartOrder(original, b, a);
    }
  }

  // ---------- What the substitution does to lengths and positions ----------

  function Growth(spans: seq<Span>): int {
    if spans == [] then 0
    else |spans[0].newText| - (spans[0].end - spans[0].start) + Growth(spans[1..])
  }

  /** Regions of the original from `from` on, one after the other. */
  predicate Laid(original: string, spans: seq<Span>, from: nat) {
    && Apart(spans)
    && from <= (if spans == [] then |original| else spans[0].start)
    && forall i :: 0 <= i < |spans| ==> spans[i].start <= spans[i].end <= |original|
  }

  lemma {:induction false} LaidTail(original: string, spans: seq<Span>, from: nat)
    requires Laid(original, spans, from) && spans != []
    ensures from <= spans[0].start <= spans[0].end <= |original| && Laid(original, spans[1..], spans[0].end)
  {
  }

  lemma {:induction false} InterleaveLength(original: string, spans: seq<Span>, from: nat)
    requires Laid(original, spans, from)
    ensures |Interleave(original, spans, from)| == |original| - from + Growth(spans)
  {
    if spans != [] {
      LaidTail(original, spans, from);
      hide Laid;
      InterleaveLength(original, spans[1..], spans[0].end);
    }
  }

  /** Every new text stands in the result, moved by the growth of the spans before it. */
  lemma {:induction false} NewTextPlaced(original: string, spans: seq<Span>, from: nat, k: nat)
    requires Laid(original, spans, from) && k < |spans|
    ensures MatchesAt(Interleave(original, spans, from), spans[k].newText,
                      spans[k].start - from + Growth(spans[..k]))
  {
    hide Laid, MatchesAt;
    LaidTail(original, spans, from);
    if k == 0 {
      MatchesBetween(Slice(original, from, spans[0].start), spans[0].newText,
                     Interleave(original, spans[1..], spans[0].end));
    } else {
      NewTextPlaced(original, spans[1..], spans[0].end, k - 1);
      GrowthFirst(spans, k);
      hide Interleave, Growth;
      assert spans[1..][k - 1] == spans[k];
      InRest(original, spans, from, spans[k].newText, spans[k].start - spans[0].end + Growth(spans[1..][..k - 1]));
    }
  }

  /** The text in front of span `k`, or behind the last one. */
  function Gap(original: string, spans: seq<Span>, from: nat, k: nat): (gap: (nat, nat))
    requires k <= |spans|
  {
    (if k == 0 then from else spans[k - 1].end, if k == |spans| then |original| else spans[k].start)
  }

  /** Everything outside the regions stands in the result too, moved in the same way. */
  lemma {:induction false} UntouchedPlaced(original: string, spans: seq<Span>, from: nat, k: nat)
    requires Laid(original, spans, from) && k <= |spans|
    ensures var (start, end) := Gap(original, spans, from, k);
            && start <= end <= |original|
            && MatchesAt(Interleave(original, spans, from), original[start..end], start - from + Growth(spans[..k]))
  {
    hide MatchesAt, Interleave, Growth;
    GapInside(original, spans, from, k);
    var (start, end) := Gap(original, spans, from, k);
    if k == 0 {
      FirstGap(original, spans, from);
    } else {
      LaidTail(original, spans, from);
      hide Laid;
      UntouchedPlaced(original, spans[1..], spans[0].end, k - 1);
      GrowthFirst(spans, k);
      InRest(original, spans, from, original[start..end], start - spans[0].end + Growth(spans[1..][..k - 1]));
    }
  }

  lemma {:induction false} GapInside(original: string, spans: seq<Span>, from: nat, k: nat)
    requires Laid(original, spans, from) && k <= |spans|
    ensures var (start, end) := Gap(original, spans, from, k); start <= end <= |original|
    ensures k > 0 ==> Gap(original, spans[1..], spans[0].end, k - 1) == Gap(original, spans, from, k)
  {
  }

  lemma {:induction false} FirstGap(original: string, spans: seq<Span>, from: nat)
    requires Laid(original, spans, from)
    ensures Growth(spans[..0]) == 0 && from <= Gap(original, spans, from, 0).1 <= |original|
    ensures MatchesAt(Interleave(original, spans, from), original[from..Gap(original, spans, from, 0).1], 0)
  {
  }

  /** What the rest shows stands behind the first region's new text. */
  lemma {:induction false} InRest(original: string, spans: seq<Span>, from: nat, t: string, i: int)
    requires spans != [] && from <= spans[0].start <= |original|
    requires MatchesAt(Interleave(original, spans[1..], spans[0].end), t, i)
    ensures MatchesAt(Interleave(original, spans, from), t, spans[0].start - from + |spans[0].newText| + i)
  {
    var before, tail := Slice(original, from, spans[0].start) + spans[0].newText,
                        Interleave(original, spans[1..], spans[0].end);
    assert Interleave(original, spans, from) == before + tail;
    hide MatchesAt, Interleave;
    MatchesBehind(before, tail, t, i);
  }

  lemma {:induction false} GrowthFirst(spans: seq<Span>, k: nat)
    requires 0 < k <= |spans|
    ensures Growth(spans[..k]) == |spans[0].newText| - (spans[0].end - spans[0].start) + Growth(spans[1..][..k - 1])
  {
    assert spans[..k][1..] == spans[1..][..k - 1];
  }

  lemma {:induction false} MatchesBetween(a: string, t: string, b: string)
    ensures MatchesAt(a + t + b, t, |a|)
  {
    assert (a + t + b)[|a|..|a| + |t|] == t;
  }

  lemma {:induction false} MatchesBehind(a: string, b: string, t: string, i: int)
    requires MatchesAt(b, t, i)
    ensures MatchesAt(a + b, t, |a| + i)
  {
    assert (a + b)[|a| + i..|a| + i + |t|] == b[i..i + |t|];
  }

  /** A region found exactly is the text asked for. */
  lemma {:induction false} ExactInside(original: string, e: Edit)
    requires MatchEdit(original, e).Found? && Find(original, e.oldText, 0) != -1
    ensures MatchEdit(original, e).span.start <= MatchEdit(original, e).span.end <= |original|
    ensures original[MatchEdit(original, e).span.start..MatchEdit(original, e).span.end] == e.oldText
  {
  }

  /** The edit is located by its lines: no exact occurrence, but a first matching line. */
  predicate Tolerant(original: string, e: Edit) {
    MatchEdit(original, e).Found? && Find(original, e.oldText, 0) == -1
  }

  /** That line, and how many lines the edit asks for. */
  function MatchedLine(original: string, e: Edit): (i: nat)
    requires Tolerant(original, e)
    ensures Fuzzy.FirstMatch(Fuzzy.ContentLines(original), Fuzzy.TargetLines(e.oldText), i)
    ensures MatchEdit(original, e).span.start == Fuzzy.LineStart(Fuzzy.ContentLines(original), i)
    ensures 1 <= |Fuzzy.TargetLines(e.oldText)| && i + |Fuzzy.TargetLines(e.oldText)| <= |Fuzzy.ContentLines(original)|
  {
    Fuzzy.FirstMatchFrom(Fuzzy.ContentLines(original), Fuzzy.TargetLines(e.oldText), 0)
  }

  /** Where the last of the matched lines ends. */
  function MatchedEnd(original: string, e: Edit): nat
    requires Tolerant(original, e)
  {
    Fuzzy.LinesEnd(Fuzzy.ContentLines(original), MatchedLine(original, e), |Fuzzy.TargetLines(e.oldText)|)
  }

  function MatchedLines(original: string, e: Edit): seq<string>
    requires Tolerant(original, e)
  {
    var i, n := MatchedLine(original, e), |Fuzzy.TargetLines(e.oldText)|;
    Fuzzy.ContentLines(original)[i..i + n]
  }

  /** In a text as the tool reads it, a tolerant match begins at its first line; it replaces exactly the matched lines
      if and only if the text asked for is as long as they are, or longer while they end the text. */
  lemma {:induction false} TolerantRegionExactly(original: string, e: Edit)
    requires Tolerant(original, e) && '\r' !in original
    ensures var span, end := MatchEdit(original, e).span, MatchedEnd(original, e);
            && Fuzzy.StandAt(original, MatchedLines(original, e), span.start, end)
            && (Splice(original, span) == original[..span.start] + e.newText + original[end..] <==>
                || |e.oldText| == end - span.start
                || (|e.oldText| > end - span.start && end == |original|))
  {
    Fuzzy.PlainNormal(original);
    var span, i, n := MatchEdit(original, e).span, MatchedLine(original, e), |Fuzzy.TargetLines(e.oldText)|;
    assert span.end == span.start + |e.oldText| && span.newText == e.newText;
    assert Fuzzy.ContentLines(original) == Split(original, '\n');
    assert MatchedEnd(original, e) == Fuzzy.LinesEnd(Fuzzy.ContentLines(original), i, n);
    assert MatchedLines(original, e) == Fuzzy.ContentLines(original)[i..i + n];
    Fuzzy.LinesBounds(original, i, n);
    assert span.start <= MatchedEnd(original, e) <= |original|;
    hide *;
    SpliceExactly(original, span, MatchedEnd(original, e));
  }

  lemma {:induction false} SpliceExactly(original: string, s: Span, end: nat)
    requires s.start <= s.end && s.start <= end <= |original|
    ensures Splice(original, s) == original[..s.start] + s.newText + original[end..] <==>
            s.end == end || (s.end > end && end == |original|)
  {
    var head := original[..s.start] + s.newText;
    assert Splice(original, s) == head + Slice(original, s.end, |original|);
    if Splice(original, s) == head + original[end..] {
      assert |Slice(original, s.end, |original|)| == |original[end..]|;
    }
  }

  predicate AllExact(original: string, edits: seq<Edit>) {
    forall i :: 0 <= i < |edits| ==> Find(original, edits[i].oldText, 0) != -1
  }

  /** What the edits add to the length, one by one. */
  function Added(edits: seq<Edit>): int {
    if edits == [] then 0 else |edits[0].newText| - |edits[0].oldText| + Added(edits[1..])
  }

  lemma {:induction false} InsertGrowth(x: Span, spans: seq<Span>)
    ensures Growth(Insert(x, spans)) == |x.newText| - (x.end - x.start) + Growth(spans)
  {
    if spans != [] && x.start > spans[0].start {
      InsertGrowth(x, spans[1..]);
    }
  }

  lemma {:induction false} SortGrowth(spans: seq<Span>)
    ensures Growth(SortByStart(spans)) == Growth(spans)
  {
    if spans != [] {
      SortGrowth(spans[1..]);
      InsertGrowth(spans[0], SortByStart(spans[1..]));
    }
  }

  lemma {:induction false} SpansGrowth(original: string, edits: seq<Edit>)
    requires AllMatch(original, edits)
    ensures Growth(Spans(original, edits)) == Added(edits)
  {
    if edits != [] {
      SpansGrowth(original, edits[1..]);
      assert Spans(original, edits)[1..] == Spans(original, edits[1..]);
    }
  }

  lemma {:induction false} SpanOf(original: string, edits: seq<Edit>, s: Span) returns (i: nat)
    requires AllMatch(original, edits) && s in SortByStart(Spans(original, edits))
    ensures i < |edits| && s == MatchEdit(original, edits[i]).span
  {
    hide MatchEdit, SortByStart;
    SortSorts(Spans(original, edits));
    assert s in multiset(SortByStart(Spans(original, edits)));
    i :| 0 <= i < |edits| && Spans(original, edits)[i] == s;
  }

  /** Edits found exactly and lying apart change the length by the sum of their differences, and their regions are
      laid out in the original one after the other. */
  lemma {:induction false} ExactEditsLength(original: string, edits: seq<Edit>)
    requires AllMatch(original, edits) && AllExact(original, edits)
    requires Apart(SortByStart(Spans(original, edits)))
    ensures Laid(original, SortByStart(Spans(original, edits)), 0)
    ensures |Substitute(original, edits)| == |original| + Added(edits)
  {
    var sorted := SortByStart(Spans(original, edits));
    forall i | 0 <= i < |sorted| ensures sorted[i].start <= sorted[i].end <= |original| {
      var k := SpanOf(original, edits, sorted[i]);
      ExactInside(original, edits[k]);
    }
    hide SortByStart, MatchEdit;
    assert Laid(original, sorted, 0);
    InterleaveLength(original, sorted, 0);
    SortGrowth(Spans(original, edits));
    SpansGrowth(original, edits);
  }

  /** A lone edit is one splice. */
  lemma {:induction false} SingleEdit(original: string, e: Edit, at: nat)
    requires e.oldText != "" && Fuzzy.Position(original, e.oldText) == at && Find(original, e.oldText, at + 1) == -1
    ensures MatchEdit(original, e) == Found(Span(at, at + |e.oldText|, e.newText))
    ensures Substitute(original, [e]) == Splice(original, Span(at, at + |e.oldText|, e.newText))
  {
    var span := Span(at, at + |e.oldText|, e.newText);
    assert [span][1..] == [];
    assert SortByStart([span]) == [span];
    assert Spans(original, [e]) == [span];
    assert Interleave(original, [], span.end) == Slice(original, span.end, |original|);
  }

  const INDENTED := "  y\n  z"
  const REQUESTED := "y\nz"

  lemma {:induction false} RequestedLines()
    ensures Fuzzy.TargetLines(REQUESTED) == ["y", "z"] && Fuzzy.ContentLines(INDENTED) == ["  y", "  z"]
    ensures Fuzzy.Strip("  y") == "y" && Fuzzy.Strip("  z") == "z"
  {
    hide Fuzzy.Strip, Fuzzy.TargetLines, Fuzzy.ContentLines;
    Indented('y');
    Indented('z');
    assert "  " + ['y'] == "  y" && "  " + ['z'] == "  z";
    IndentedLines();
    TargetOfRequested();
  }

  lemma {:induction false} TargetOfRequested()
    ensures Fuzzy.TargetLines(REQUESTED) == ["y", "z"]
  {
    Fuzzy.PlainNormal(REQUESTED);
    hide Fuzzy.TargetLines, Fuzzy.NormalizeNewlines, Split;
    TwoTargetLines(REQUESTED, 'y', 'z');
  }

  lemma {:induction false} IndentedLines()
    ensures Fuzzy.ContentLines(INDENTED) == ["  y", "  z"]
  {
    Fuzzy.PlainNormal(INDENTED);
    LinesOf("  y", "  z");
    hide Split, Fuzzy.NormalizeNewlines;
    assert Join(["  y", "  z"], '\n') == INDENTED;
  }

  lemma {:induction false} Indented(c: char)
    requires !Fuzzy.IsSpace(c)
    ensures Fuzzy.Strip([c]) == [c] && Fuzzy.Strip("  " + [c]) == [c]
  {
    var s := "  " + [c];
    assert Fuzzy.IsSpace(' ');
    hide Fuzzy.IsSpace;
    assert s[1..] == " " + [c] && s[1..][1..] == [c];
    assert Fuzzy.StripLeft([c]) == [c] && Fuzzy.StripLeft(s[1..]) == [c] && Fuzzy.StripLeft(s) == [c];
    assert Fuzzy.StripRight([c]) == [c];
  }

  /** A text of two lines of one visible character each. */
  lemma {:induction false} TwoTargetLines(text: string, a: char, b: char)
    requires !Fuzzy.IsSpace(a) && !Fuzzy.IsSpace(b) && a != '\n' && b != '\n'
    requires Fuzzy.NormalizeNewlines(text) == [a] + "\n" + [b]
    ensures Fuzzy.TargetLines(text) == [[a], [b]]
  {
    Indented(a);
    Indented(b);
    hide Fuzzy.Strip, Fuzzy.IsSpace, Split;
    LinesOf([a], [b]);
    assert Join([[a], [b]], '\n') == [a] + "\n" + [b];
    assert Fuzzy.StripAll([[a], [b]]) == [[a], [b]];
  }

  lemma {:induction false} LinesOf(a: string, b: string)
    requires '\n' !in a && '\n' !in b
    ensures Split(Join([a, b], '\n'), '\n') == [a, b]
  {
    SplitJoin([a, b], '\n');
  }

  lemma {:induction false} NoExactOccurrence(start: nat)
    ensures Find(INDENTED, REQUESTED, start) == -1
  {
    var at := Find(INDENTED, REQUESTED, start);
    if at != -1 {
      MatchChar(INDENTED, REQUESTED, at, 0);
      MatchChar(INDENTED, REQUESTED, at, 2);
    }
  }

  lemma {:induction false} IndentedPosition()
    ensures Fuzzy.Position(INDENTED, REQUESTED) == 0
  {
    NoExactOccurrence(0);
    RequestedLines();
    hide *;
    var lines, target := Fuzzy.ContentLines(INDENTED), Fuzzy.TargetLines(REQUESTED);
    FirstLinesMatch(lines, target);
    Fuzzy.PositionByLines(INDENTED, REQUESTED, 0);
  }

  lemma {:induction false} FirstLinesMatch(lines: seq<string>, target: seq<string>)
    requires |target| == 2 <= |lines|
    requires Fuzzy.Strip(lines[0]) == target[0] && Fuzzy.Strip(lines[1]) == target[1]
    ensures Fuzzy.FirstMatch(lines, target, 0) && Fuzzy.LineStart(lines, 0) == 0
  {
    hide Fuzzy.Strip;
  }

  /** A tolerant match replaces too little: the indentation is not counted in the region's length, so a piece of the
      matched lines stays behind. */
  lemma {:induction false} TolerantRegionFallsShort(newText: string)
    ensures '\r' !in INDENTED
    ensures MatchEdit(INDENTED, Edit(REQUESTED, newText)) == Found(Span(0, 3, newText))
    ensures Substitute(INDENTED, [Edit(REQUESTED, newText)]) == newText + "\n  z"
  {
    hide *;
    CutThree(newText);
    IndentedPosition();
    NoExactOccurrence(1);
    SingleEdit(INDENTED, Edit(REQUESTED, newText), 0);
  }

  lemma {:induction false} CutThree(newText: string)
    ensures '\r' !in INDENTED && |REQUESTED| == 3 && Splice(INDENTED, Span(0, 3, newText)) == newText + "\n  z"
  {
    assert INDENTED[3..] == "\n  z" && INDENTED[..0] == "";
  }

  const THREE_LINES := "x\ny\nz"
  const CARRIED := "x\r\ny"

  lemma {:induction false} CarriedLines()
    ensures Fuzzy.TargetLines(CARRIED) == ["x", "y"] && Fuzzy.ContentLines(THREE_LINES) == ["x", "y", "z"]
    ensures Fuzzy.Strip("x") == "x" && Fuzzy.Strip("y") == "y"
  {
    hide Fuzzy.Strip, Fuzzy.TargetLines, Fuzzy.NormalizeNewlines, Split;
    Indented('x');
    Indented('y');
    CarriedNormal();
    TwoTargetLines(CARRIED, 'x', 'y');
    Fuzzy.PlainNormal(THREE_LINES);
    ThreeJoined();
    hide Join;
    SplitJoin(["x", "y", "z"], '\n');
  }

  lemma {:induction false} CarriedNormal()
    ensures Fuzzy.NormalizeNewlines(CARRIED) == "x\ny"
  {
    Fuzzy.PlainNormal("y");
    assert CARRIED[1..][2..] == "y" && Fuzzy.ReplaceCrLf(CARRIED[1..]) == "\ny";
    assert Fuzzy.ReplaceCrLf(CARRIED) == "x\ny";
  }

  lemma {:induction false} ThreeJoined()
    ensures Join(["x", "y", "z"], '\n') == THREE_LINES
  {
    assert Join(["y", "z"], '\n') == "y\nz" && ["x", "y", "z"][1..] == ["y", "z"];
  }

  lemma {:induction false} NoCarriageReturn(start: nat)
    ensures Find(THREE_LINES, CARRIED, start) == -1
  {
    var at := Find(THREE_LINES, CARRIED, start);
    if at != -1 {
      MatchChar(THREE_LINES, CARRIED, at, 1);
    }
  }

  lemma {:induction false} CarriedPosition()
    ensures Fuzzy.Position(THREE_LINES, CARRIED) == 0
  {
    NoCarriageReturn(0);
    CarriedLines();
    hide *;
    var lines, target := Fuzzy.ContentLines(THREE_LINES), Fuzzy.TargetLines(CARRIED);
    FirstLinesMatch(lines, target);
    Fuzzy.PositionByLines(THREE_LINES, CARRIED, 0);
  }

  /** A tolerant match replaces too much: a `\r` in the text asked for is counted in the region's length, so the newline
      behind the matched lines goes with them. */
  lemma {:induction false} TolerantRegionOvershoots(newText: string)
    ensures '\r' !in THREE_LINES
    ensures MatchEdit(THREE_LINES, Edit(CARRIED, newText)) == Found(Span(0, 4, newText))
    ensures Substitute(THREE_LINES, [Edit(CARRIED, newText)]) == newText + "z"
  {
    hide *;
    CutFour(newText);
    CarriedPosition();
    NoCarriageReturn(1);
    SingleEdit(THREE_LINES, Edit(CARRIED, newText), 0);
  }

  lemma {:induction false} CutFour(newText: string)
    ensures '\r' !in THREE_LINES && |CARRIED| == 4 && Splice(THREE_LINES, Span(0, 4, newText)) == newText + "z"
  {
    assert THREE_LINES[4..] == "z" && THREE_LINES[..0] == "";
  }

  // ---------- The file ----------

  /** What `read_text` makes of a file's characters: in text mode `\r\n` and `\r` arrive as `\n`. */
  function ReadText(raw: string): (text: string)
    ensures '\r' !in text
  {
    Fuzzy.NormalizeNewlines(raw)
  }

  lemma {:induction false} SpanTexts(original: string, edits: seq<Edit>)
    requires AllMatch(original, edits)
    ensures forall s :: s in SortByStart(Spans(original, edits)) ==>
              exists i :: 0 <= i < |edits| && s.newText == edits[i].newText
  {
    forall s | s in SortByStart(Spans(original, edits))
      ensures exists i :: 0 <= i < |edits| && s.newText == edits[i].newText
    {
      var i := SpanOf(original, edits, s);
      assert s.newText == edits[i].newText;
    }
  }

  lemma {:induction false} InterleavedChar(original: string, spans: seq<Span>, from: nat, c: char)
    requires c in Interleave(original, spans, from)
    ensures c in original || exists s :: s in spans && c in s.newText
  {
    if spans != [] && c in Interleave(original, spans[1..], spans[0].end) {
      InterleavedChar(original, spans[1..], spans[0].end, c);
    } else if spans != [] && c in spans[0].newText {
      assert spans[0] in spans;
    }
  }

  /** An edit rewrites every line ending of its file: a `\r` in what is saved comes from some new text. */
  lemma {:induction false} LineEndingsRewritten(raw: string, edits: seq<Edit>)
    requires AllMatch(ReadText(raw), edits)
    ensures '\r' in Substitute(ReadText(raw), edits) ==> exists i :: 0 <= i < |edits| && '\r' in edits[i].newText
  {
    var original := ReadText(raw);
    hide *;
    if '\r' in Substitute(original, edits) {
      SubstitutedChar(original, edits, '\r');
    }
  }

  lemma {:induction false} SubstitutedChar(original: string, edits: seq<Edit>, c: char)
    requires AllMatch(original, edits) && c in Substitute(original, edits) && c !in original
    ensures exists i :: 0 <= i < |edits| && c in edits[i].newText
  {
    SpanTexts(original, edits);
    hide MatchEdit, SortByStart, Interleave;
    InterleavedChar(original, SortByStart(Spans(original, edits)), 0, c);
  }

  // ---------- Which edits match, and which regions collide ----------

  predicate Repeated(original: string, t: string) {
    exists i, j :: 0 <= i < j <= |original| && MatchesAt(original, t, i) && MatchesAt(original, t, j)
  }

  predicate Occurs(original: string, t: string) {
    exists i :: 0 <= i <= |original| && MatchesAt(original, t, i)
  }

  /** There are lines to look for, and the content has them, up to blanks at the ends of each. */
  predicate LinesOccur(original: string, t: string) {
    var lines, target := Fuzzy.ContentLines(original), Fuzzy.TargetLines(t);
    target != [] && exists i :: 0 <= i <= |lines| && Fuzzy.LinesMatch(lines, target, i)
  }

  /** There is text to replace, at one place; or at none, but its lines are there. */
  predicate Located(original: string, t: string) {
    t != "" && !Repeated(original, t) && (Occurs(original, t) || LinesOccur(original, t))
  }

  /** What is wrong with an edit, by the places at which its text stands. */
  predicate Wrong(original: string, t: string, error: EditError) {
    match error
    case EmptyOldText => t == ""
    case OldTextNotFound => t != "" && !Occurs(original, t) && !LinesOccur(original, t)
    case NonUniqueOldText => t != "" && Repeated(original, t)
    case _ => false
  }

  lemma {:induction false} FindOccurs(original: string, t: string)
    ensures Occurs(original, t) <==> Find(original, t, 0) != -1
  {
    var at := Find(original, t, 0);
    if at != -1 {
      assert MatchesAt(original, t, at) && 0 <= at <= |original|;
    }
  }

  lemma {:induction false} FindLines(original: string, t: string)
    requires !Occurs(original, t)
    ensures LinesOccur(original, t) <==> Fuzzy.Position(original, t) != -1
  {
    FindOccurs(original, t);
    hide Fuzzy.LinesMatch, Fuzzy.ContentLines, Fuzzy.TargetLines, Find;
    var lines, target := Fuzzy.ContentLines(original), Fuzzy.TargetLines(t);
    var i := Fuzzy.FirstMatchFrom(lines, target, 0);
    if target != [] && i != -1 {
      assert Fuzzy.LinesMatch(lines, target, i);
    }
  }

  /** A text stands at two places exactly when it stands beyond the one chosen. */
  lemma {:induction false} RepeatedBeyond(original: string, t: string)
    ensures Repeated(original, t) <==>
            Occurs(original, t) && Find(original, t, Find(original, t, 0) + 1) != -1
    ensures !Occurs(original, t) ==> forall start :: Find(original, t, start) == -1
  {
    FindOccurs(original, t);
    var first := Find(original, t, 0);
    if first != -1 {
      var next := Find(original, t, first + 1);
      if next != -1 {
        assert MatchesAt(original, t, first) && MatchesAt(original, t, next);
      }
      if i, j :| 0 <= i < j <= |original| && MatchesAt(original, t, i) && MatchesAt(original, t, j) {
        assert first <= i && next != -1;
      }
    }
  }

  /** An edit matches exactly when its text can be located, and otherwise the error says what is wrong with it. */
  lemma {:induction false} MatchExactly(original: string, e: Edit)
    ensures MatchEdit(original, e).Found? <==> Located(original, e.oldText)
    ensures forall error :: MatchEdit(original, e) == Failed(error) <==> Wrong(original, e.oldText, error)
  {
    FindOccurs(original, e.oldText);
    RepeatedBeyond(original, e.oldText);
    if !Occurs(original, e.oldText) {
      FindLines(original, e.oldText);
    }
    Fuzzy.PositionInText(original, e.oldText);
    hide Occurs, Repeated, LinesOccur, Find, Fuzzy.FirstMatchFrom, Fuzzy.LineStart, Fuzzy.ContentLines;
    hide Fuzzy.TargetLines;
  }

  /** The region of a matched edit: the one place of its text, else from the first of the matching lines on. */
  lemma {:induction false} RegionExactly(original: string, e: Edit)
    requires MatchEdit(original, e).Found?
    ensures var span := MatchEdit(original, e).span;
            && span.end == span.start + |e.oldText| && span.newText == e.newText
            && (Occurs(original, e.oldText) ==>
                  forall i :: MatchesAt(original, e.oldText, i) <==> i == span.start)
            && (!Occurs(original, e.oldText) ==>
                  exists i: nat ::
                    && Fuzzy.FirstMatch(Fuzzy.ContentLines(original), Fuzzy.TargetLines(e.oldText), i)
                    && span.start == Fuzzy.LineStart(Fuzzy.ContentLines(original), i))
  {
    FindOccurs(original, e.oldText);
    if Occurs(original, e.oldText) {
      var at := Find(original, e.oldText, 0);
      assert MatchesAt(original, e.oldText, at);
    } else {
      var i := MatchedLine(original, e);
    }
  }

  /** Two regions have no character in common. */
  predicate Clear(a: Span, b: Span) {
    a.end <= b.start || b.end <= a.start
  }

  predicate AllClear(spans: seq<Span>) {
    forall i, j :: 0 <= i < j < |spans| ==> Clear(spans[i], spans[j])
  }

  lemma {:induction false} AllClearFirst(x: Span, spans: seq<Span>)
    ensures AllClear([x] + spans) <==> AllClear(spans) && ClearOf(x, spans)
  {
    var all := [x] + spans;
    if AllClear(all) {
      forall s | s in spans ensures Clear(x, s) {
        var j :| 0 <= j < |spans| && spans[j] == s;
        assert Clear(all[0], all[j + 1]);
      }
      forall i, j | 0 <= i < j < |spans| ensures Clear(spans[i], spans[j]) {
        assert Clear(all[i + 1], all[j + 1]);
      }
    }
  }

  predicate ClearOf(x: Span, spans: seq<Span>) {
    forall s :: s in spans ==> Clear(x, s)
  }

  lemma {:induction false} InsertClearOf(a: Span, x: Span, spans: seq<Span>)
    ensures ClearOf(a, Insert(x, spans)) <==> Clear(a, x) && ClearOf(a, spans)
  {
    if spans != [] && x.start > spans[0].start {
      InsertClearOf(a, x, spans[1..]);
      var rest := Insert(x, spans[1..]);
      assert Insert(x, spans) == [spans[0]] + rest && spans == [spans[0]] + spans[1..];
      hide Insert;
      ClearOfFirst(a, spans[0], rest);
      ClearOfFirst(a, spans[0], spans[1..]);
    } else {
      ClearOfFirst(a, x, spans);
    }
  }

  lemma {:induction false} ClearOfFirst(a: Span, x: Span, spans: seq<Span>)
    ensures ClearOf(a, [x] + spans) <==> Clear(a, x) && ClearOf(a, spans)
  {
    if ClearOf(a, [x] + spans) {
      assert x in [x] + spans;
      forall s | s in spans ensures Clear(a, s) {
        assert s in [x] + spans;
      }
    }
  }

  lemma {:induction false} InsertClear(x: Span, spans: seq<Span>)
    ensures AllClear(Insert(x, spans)) <==> AllClear(spans) && ClearOf(x, spans)
  {
    if spans == [] || x.start <= spans[0].start {
      AllClearFirst(x, spans);
    } else {
      var first, rest := spans[0], spans[1..];
      InsertClear(x, rest);
      InsertClearOf(first, x, rest);
      assert Insert(x, spans) == [first] + Insert(x, rest) && spans == [first] + rest;
      hide Insert, AllClear, ClearOf;
      AllClearFirst(first, Insert(x, rest));
      AllClearFirst(first, rest);
      ClearOfFirst(x, first, rest);
    }
  }

  lemma {:induction false} SortClear(spans: seq<Span>)
    ensures AllClear(SortByStart(spans)) <==> AllClear(spans)
  {
    if spans != [] {
      var first, rest := spans[0], spans[1..];
      SortClear(rest);
      InsertClear(first, SortByStart(rest));
      AllClearFirst(first, rest);
      SortClearOf(first, rest);
      assert spans == [first] + rest;
      hide AllClear, ClearOf, Insert;
    }
  }

  lemma {:induction false} SortClearOf(x: Span, spans: seq<Span>)
    ensures ClearOf(x, SortByStart(spans)) <==> ClearOf(x, spans)
  {
    if spans != [] {
      SortClearOf(x, spans[1..]);
      InsertClearOf(x, spans[0], SortByStart(spans[1..]));
      ClearOfFirst(x, spans[0], spans[1..]);
      assert spans == [spans[0]] + spans[1..];
      hide ClearOf, Insert;
    }
  }

  /** Comparing neighbours in the sorted list finds every collision. */
  lemma {:induction false} NeighboursSuffice(spans: seq<Span>)
    requires forall i :: 0 <= i < |spans| ==> spans[i].start < spans[i].end
    ensures Apart(SortByStart(spans)) <==> AllClear(spans)
  {
    var sorted := SortByStart(spans);
    SortClear(spans);
    SortSorts(spans);
    hide SortByStart;
    forall i | 0 <= i < |sorted| ensures sorted[i].start < sorted[i].end {
      assert sorted[i] in multiset(spans);
    }
    if Apart(sorted) {
      forall i, j | 0 <= i < j < |sorted| ensures Clear(sorted[i], sorted[j]) {
        if i + 1 < j {
          ApartIsStrict(sorted, i + 1, j);
        }
      }
    }
    if AllClear(sorted) {
      forall i | 0 <= i < |sorted| - 1 ensures sorted[i].end <= sorted[i + 1].start {
        assert Clear(sorted[i], sorted[i + 1]);
      }
    }
  }

  // ---------- The tool ----------

  /** The first edit whose text cannot be located, and what is wrong with it. */
  predicate FirstWrong(original: string, edits: seq<Edit>, i: nat, error: EditError) {
    && i < |edits| && Wrong(original, edits[i].oldText, error)
    && forall k :: 0 <= k < i ==> Located(original, edits[k].oldText)
  }

  lemma {:induction false} FirstFailureAt(original: string, edits: seq<Edit>, i: nat)
    requires i < |edits| && MatchEdit(original, edits[i]).Failed?
    requires forall k :: 0 <= k < i ==> MatchEdit(original, edits[k]).Found?
    ensures FirstFailure(original, edits) == MatchEdit(original, edits[i])
  {
    if i > 0 {
      FirstFailureAt(original, edits[1..], i - 1);
    }
  }

  /** One turn of the matching loop: an exact occurrence, else the tolerant search, and no second occurrence. */
  method MatchOne(original: string, e: Edit) returns (m: Match)
    ensures m == MatchEdit(original, e)
  {
    if e.oldText == "" {
      return Failed(EmptyOldText);
    }
    var at := Find(original, e.oldText, 0);
    if at == -1 {
      at := Fuzzy.FuzzyFind(original, e.oldText);
      if at == -1 {
        return Failed(OldTextNotFound);
      }
    }
    if Find(original, e.oldText, at + 1) != -1 {
      return Failed(NonUniqueOldText);
    }
    m := Found(Span(at, at + |e.oldText|, e.newText));
  }

  /** The matching loop: all spans in list order, or the first failure. */
  method MatchEdits(original: string, edits: seq<Edit>) returns (matched: seq<Span>, failure: Match)
    ensures failure.Found? <==> AllMatch(original, edits)
    ensures AllMatch(original, edits) ==> matched == Spans(original, edits)
    ensures !AllMatch(original, edits) ==> failure == FirstFailure(original, edits)
  {
    hide MatchEdit, FirstFailure;
    matched := [];
    for i := 0 to |edits|
      invariant |matched| == i
      invariant forall k :: 0 <= k < i ==> MatchEdit(original, edits[k]) == Found(matched[k])
    {
      failure := MatchOne(original, edits[i]);
      if failure.Failed? {
        FirstFailureAt(original, edits, i);
        return;
      }
      matched := matched + [failure.span];
    }
    failure := Found(Span(0, 0, ""));
  }

  /** The splicing loop, last span first. */
  method SpliceFromBack(original: string, spans: seq<Span>) returns (content: string)
    requires Apart(spans)
    requires forall s :: s in spans ==> s.start < s.end && s.start <= |original|
    ensures content == Interleave(original, spans, 0)
  {
    content := original;
    for i := |spans| downto 0
      invariant content == Interleave(original, spans[i..], 0)
    {
      SpliceStep(original, spans[i..]);
      assert spans[i..][1..] == spans[i + 1..];
      content := Splice(content, spans[i]);
    }
    assert spans[0..] == spans;
  }

  lemma {:induction false} RegionsCollide(original: string, edits: seq<Edit>)
    requires AllMatch(original, edits)
    ensures Apart(SortByStart(Spans(original, edits))) <==> AllClear(Spans(original, edits))
  {
    var spans := Spans(original, edits);
    forall i | 0 <= i < |spans| ensures spans[i].start < spans[i].end {
      assert MatchEdit(original, edits[i]).Found?;
    }
    NeighboursSuffice(spans);
  }

  /** All edits match when all texts can be located; otherwise the error reported is that of the first that cannot. */
  lemma {:induction false} ErrorsExactly(original: string, edits: seq<Edit>)
    ensures AllMatch(original, edits) <==> forall i :: 0 <= i < |edits| ==> Located(original, edits[i].oldText)
    ensures AllMatch(original, edits) ==> forall i, error :: !FirstWrong(original, edits, i, error)
    ensures !AllMatch(original, edits) ==>
              forall error :: FirstFailure(original, edits) == Failed(error) <==>
                              exists i :: FirstWrong(original, edits, i, error)
  {
    forall i | 0 <= i < |edits|
      ensures MatchEdit(original, edits[i]).Found? <==> Located(original, edits[i].oldText)
      ensures forall error ::
                MatchEdit(original, edits[i]) == Failed(error) <==> Wrong(original, edits[i].oldText, error)
    {
      MatchExactly(original, edits[i]);
    }
    hide MatchEdit, Located, Wrong;
    if !AllMatch(original, edits) {
      var i := FirstUnmatched(original, edits);
      FirstFailureAt(original, edits, i);
      hide FirstFailure, AllMatch;
      var found := MatchEdit(original, edits[i]).error;
      assert FirstWrong(original, edits, i, found);
      forall error, k | FirstWrong(original, edits, k, error) ensures error == found {
        assert k == i;
      }
    }
  }

  lemma {:induction false} FirstUnmatched(original: string, edits: seq<Edit>) returns (i: nat)
    requires !AllMatch(original, edits)
    ensures i < |edits| && MatchEdit(original, edits[i]).Failed?
    ensures forall k :: 0 <= k < i ==> MatchEdit(original, edits[k]).Found?
  {
    hide MatchEdit;
    i := 0;
    while MatchEdit(original, edits[i]).Found?
      invariant i < |edits| && forall k :: 0 <= k < i ==> MatchEdit(original, edits[k]).Found?
      decreases |edits| - i
    {
      i := i + 1;
    }
  }

  method FileEdit(original: string, edits: seq<Edit>, syntaxOk: string -> bool) returns (r: Outcome)
    ensures r.Edited? ==> forall i :: 0 <= i < |edits| ==> Located(original, edits[i].oldText)
    ensures edits != [] ==> forall error :: error in {EmptyOldText, OldTextNotFound, NonUniqueOldText} ==>
              (r == Rejected(error) <==> exists i :: FirstWrong(original, edits, i, error))
    ensures r == Rejected(OverlappingEdits) <==>
              edits != [] && AllMatch(original, edits) && !AllClear(Spans(original, edits))
    ensures r.Edited? <==> Accepts(original, edits, syntaxOk)
    ensures r.Edited? ==> r.content == Substitute(original, edits)
    ensures r == Rejected(EmptyEdits) <==> edits == []
    ensures edits != [] && !AllMatch(original, edits) <==>
              r.Rejected? && r.error in {EmptyOldText, OldTextNotFound, NonUniqueOldText}
    ensures edits != [] && !AllMatch(original, edits) ==> FirstFailure(original, edits) == Failed(r.error)
    ensures r == Rejected(OverlappingEdits) <==>
              edits != [] && AllMatch(original, edits) && !Apart(SortByStart(Spans(original, edits)))
    ensures r == Rejected(NoChange) <==>
              && edits != [] && AllMatch(original, edits) && Apart(SortByStart(Spans(original, edits)))
              && Substitute(original, edits) == original
    ensures r == Rejected(PythonSyntaxError) <==>
              && edits != [] && AllMatch(original, edits) && Apart(SortByStart(Spans(original, edits)))
              && Substitute(original, edits) != original && !syntaxOk(Substitute(original, edits))
  {
    if edits == [] {
      return Rejected(EmptyEdits);
    }
    var matched, failure := MatchEdits(original, edits);
    ErrorsExactly(original, edits);
    if failure.Failed? {
      return Rejected(failure.error);
    }
    RegionsCollide(original, edits);
    matched := SortByStart(matched);
    SpanShapes(original, edits);
    for i := 0 to |matched| - 1
      invariant forall k :: 0 <= k < i ==> matched[k].end <= matched[k + 1].start
    {
      if matched[i].end > matched[i + 1].start {
        return Rejected(OverlappingEdits);
      }
    }
    var content := SpliceFromBack(original, matched);
    if content == original {
      return Rejected(NoChange);
    }
    if !syntaxOk(content) {
      return Rejected(PythonSyntaxError);
    }
    r := Edited(content);
  }

  /** The whole of the tool on a file: what it reads, and what it leaves behind. */
  method EditFile(raw: string, edits: seq<Edit>, syntaxOk: string -> bool) returns (r: Outcome, saved: string)
    ensures r.Edited? ==> forall i :: 0 <= i < |edits| ==> Located(ReadText(raw), edits[i].oldText)
    ensures r.Edited? <==> Accepts(ReadText(raw), edits, syntaxOk)
    ensures saved == if r.Edited? then Substitute(ReadText(raw), edits) else raw
  {
    hide Accepts, Substitute;
    var original := ReadText(raw);
    r := FileEdit(original, edits, syntaxOk);
    saved := if r.Edited? then r.content else raw;
  }
}
