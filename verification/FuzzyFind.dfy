/** `tools/file_helpers.py`: locating a passage exactly or, failing that, line by line with blanks ignored. */
module FuzzyFind {
  import opened Text

  /** The characters `str.strip()` removes. */
  predicate IsSpace(c: char) {
    || '\t' <= c <= '\r' || '\U{1c}' <= c <= '\U{1f}' || c == ' ' || c == '\U{85}' || c == '\U{a0}'
    || c == '\U{1680}' || '\U{2000}' <= c <= '\U{200a}' || c == '\U{2028}' || c == '\U{2029}'
    || c == '\U{202f}' || c == '\U{205f}' || c == '\U{3000}'
  }

  function StripLeft(s: string): string {
    if s != "" && IsSpace(s[0]) then StripLeft(s[1..]) else s
  }

  function StripRight(s: string): string {
    if s != "" && IsSpace(s[|s| - 1]) then StripRight(s[..|s| - 1]) else s
  }

  function Strip(s: string): string {
    StripRight(StripLeft(s))
  }

  predicate Trimmed(s: string) {
    s != "" ==> !IsSpace(s[0]) && !IsSpace(s[|s| - 1])
  }

  lemma {:induction false} StripLeftSuffix(s: string)
    ensures |StripLeft(s)| <= |s| && StripLeft(s) == s[|s| - |StripLeft(s)|..]
    ensures StripLeft(s) != "" ==> !IsSpace(StripLeft(s)[0])
  {
    if s != "" && IsSpace(s[0]) {
      StripLeftSuffix(s[1..]);
    }
  }

  lemma {:induction false} StripRightPrefix(s: string)
    ensures |StripRight(s)| <= |s| && StripRight(s) == s[..|StripRight(s)|]
    ensures StripRight(s) != "" ==> !IsSpace(StripRight(s)[|StripRight(s)| - 1])
  {
    if s != "" && IsSpace(s[|s| - 1]) {
      StripRightPrefix(s[..|s| - 1]);
    }
  }

  lemma {:induction false} StripTrims(s: string)
    ensures Trimmed(Strip(s))
  {
    StripLeftSuffix(s);
    StripRightPrefix(StripLeft(s));
  }

  lemma {:induction false} StripTrimmed(s: string)
    requires Trimmed(s)
    ensures Strip(s) == s
  {
  }

  /** `s.replace('\r\n', '\n')`. */
  function ReplaceCrLf(s: string): string {
    if s == "" then ""
    else if s[0] == '\r' && |s| > 1 && s[1] == '\n' then "\n" + ReplaceCrLf(s[2..])
    else [s[0]] + ReplaceCrLf(s[1..])
  }

  /** `s.replace('\r', '\n')`. */
  function ReplaceCr(s: string): string {
    seq(|s|, i requires 0 <= i < |s| => if s[i] == '\r' then '\n' else s[i])
  }

  function NormalizeNewlines(s: string): string {
    ReplaceCr(ReplaceCrLf(s))
  }

  function StripAll(lines: seq<string>): seq<string> {
    seq(|lines|, i requires 0 <= i < |lines| => Strip(lines[i]))
  }

  function TrimFront(lines: seq<string>): seq<string> {
    if lines != [] && lines[0] == "" then TrimFront(lines[1..]) else lines
  }

  function TrimBack(lines: seq<string>): seq<string> {
    if lines != [] && lines[|lines| - 1] == "" then TrimBack(lines[..|lines| - 1]) else lines
  }

  function ContentLines(content: string): seq<string> {
    Split(NormalizeNewlines(content), '\n')
  }

  /** The stripped lines to look for, without blank lines at either end. */
  function TargetLines(oldText: string): seq<string> {
    TrimBack(TrimFront(StripAll(Split(NormalizeNewlines(oldText), '\n'))))
  }

  /** The target lines equal the content lines from line `i` on, once those are stripped. */
  predicate LinesMatch(lines: seq<string>, target: seq<string>, i: int) {
    0 <= i && i + |target| <= |lines|
    && forall j :: 0 <= j < |target| ==> Strip(lines[i + j]) == target[j]
  }

  /** Characters before line `i`, newlines included. */
  function LineStart(lines: seq<string>, i: nat): nat
    requires i <= |lines|
  {
    if i == 0 then 0 else LineStart(lines, i - 1) + |lines[i - 1]| + 1
  }

  lemma {:induction false} LineStartShift(lines: seq<string>, i: nat)
    requires 1 <= i <= |lines|
    ensures LineStart(lines, i) == |lines[0]| + 1 + LineStart(lines[1..], i - 1)
  {
    if i > 1 {
      LineStartShift(lines, i - 1);
    }
  }

  /** The computed offset is where line `i` of the text starts: what follows it splits into the lines from `i` on. */
  lemma {:induction false} LineStartIsOffset(text: string, i: nat)
    requires i < |Split(text, '\n')|
    ensures var lines := Split(text, '\n');
            var at := LineStart(lines, i);
            && at <= |text|
            && (at == 0 || text[at - 1] == '\n')
            && Split(text[at..], '\n') == lines[i..]
    decreases i
  {
    hide Split;
    var lines := Split(text, '\n');
    if i == 0 {
      assert text[0..] == text && lines[0..] == lines;
    } else {
      HeadLine(text);
      LineStartShift(lines, i);
      LineStartIsOffset(text[|lines[0]| + 1..], i - 1);
      hide *;
      OffsetInRest(text, lines, |lines[0]| + 1, LineStart(lines[1..], i - 1), LineStart(lines, i), i);
    }
  }

  /** An offset into what follows the first line, seen from the whole text. */
  lemma {:induction false} OffsetInRest(text: string, lines: seq<string>, skip: nat, inRest: nat, at: nat, i: nat)
    requires 1 <= i <= |lines| && 1 <= skip && at == skip + inRest <= |text|
    requires text[skip - 1] == '\n' && (inRest == 0 || text[skip..][inRest - 1] == '\n')
    ensures text[skip..][inRest..] == text[at..] && text[at - 1] == '\n'
    ensures lines[1..][i - 1..] == lines[i..]
  {
  }

  /** A text of several lines is its first line, a newline and the remaining lines. */
  lemma {:induction false} HeadLine(text: string)
    requires |Split(text, '\n')| > 1
    ensures var lines := Split(text, '\n');
            |lines[0]| < |text| && text[|lines[0]|] == '\n' && Split(text[|lines[0]| + 1..], '\n') == lines[1..]
  {
    var lines := Split(text, '\n');
    var tail := Split(text[1..], '\n');
    if text[0] == '\n' {
      assert lines[0] == "" && lines[1..] == tail;
    } else {
      assert lines == [[text[0]] + tail[0]] + tail[1..];
      HeadLine(text[1..]);
      assert text[1..][|tail[0]| + 1..] == text[|lines[0]| + 1..];
    }
  }

  /** `i` is the first line at which the target matches. */
  predicate FirstMatch(lines: seq<string>, target: seq<string>, i: int) {
    LinesMatch(lines, target, i) && forall k :: 0 <= k < i ==> !LinesMatch(lines, target, k)
  }

  /** The first line from `start` on at which the target matches, or -1. */
  function FirstMatchFrom(lines: seq<string>, target: seq<string>, start: nat): (r: int)
    ensures r == -1 || (start <= r <= |lines| && LinesMatch(lines, target, r))
    ensures forall i :: start <= i && (r == -1 || i < r) ==> !LinesMatch(lines, target, i)
    decreases |lines| - start
  {
    if start + |target| > |lines| then -1
    else if LinesMatch(lines, target, start) then start
    else FirstMatchFrom(lines, target, start + 1)
  }

  /** Where a passage is taken to be: its exact occurrence, else the start of the first matching line. */
  function Position(content: string, oldText: string): int {
    var exact := Find(content, oldText, 0);
    var lines, target := ContentLines(content), TargetLines(oldText);
    if exact != -1 then exact
    else if target == [] then -1
    else
      var i := FirstMatchFrom(lines, target, 0);
      if i == -1 then -1 else LineStart(lines, i)
  }

  /** Without an exact occurrence, the position is where the first matching line starts. */
  lemma {:induction false} PositionByLines(content: string, oldText: string, i: nat)
    requires Find(content, oldText, 0) == -1 && TargetLines(oldText) != []
    requires FirstMatch(ContentLines(content), TargetLines(oldText), i)
    ensures Position(content, oldText) == LineStart(ContentLines(content), i)
  {
    hide LineStart, ContentLines, TargetLines, Find, LinesMatch;
    var r := FirstMatchFrom(ContentLines(content), TargetLines(oldText), 0);
    assert r == i;
  }

  lemma {:induction false} CrLfShortens(s: string)
    ensures |ReplaceCrLf(s)| <= |s|
  {
    if s != "" {
      CrLfShortens(s[1..]);
      if |s| > 1 {
        CrLfShortens(s[2..]);
      }
    }
  }

  lemma {:induction false} PositionInText(content: string, oldText: string)
    ensures -1 <= Position(content, oldText) <= |content|
  {
    var lines, target := ContentLines(content), TargetLines(oldText);
    var i := FirstMatchFrom(lines, target, 0);
    if Find(content, oldText, 0) == -1 && target != [] && i != -1 {
      CrLfShortens(content);
      LineStartIsOffset(NormalizeNewlines(content), i);
    }
  }

  // ---------- Where the lines stand in the original ----------

  predicate AtCrLf(s: string) {
    |s| > 1 && s[0] == '\r' && s[1] == '\n'
  }

  /** `"\r\n" in s`. */
  predicate HasCrLf(s: string) {
    exists j :: 0 <= j < |s| && AtCrLf(s[j..])
  }

  /** The original before `p` and from `p` on are, once normalised, the normalised text before `k` and from `k` on. */
  ghost predicate CutAt(s: string, p: nat, k: nat) {
    && p <= |s| && k <= |NormalizeNewlines(s)|
    && NormalizeNewlines(s[..p]) == NormalizeNewlines(s)[..k]
    && NormalizeNewlines(s[p..]) == NormalizeNewlines(s)[k..]
  }

  /** Offset `k` of the normalised text as an offset of the original. */
  function Original(s: string, k: nat): nat {
    if k == 0 || s == "" then 0
    else if AtCrLf(s) then 2 + Original(s[2..], k - 1)
    else 1 + Original(s[1..], k - 1)
  }

  lemma {:induction false} OriginalCuts(s: string, k: nat)
    requires k <= |ReplaceCrLf(s)|
    ensures Original(s, k) <= |s|
    ensures ReplaceCrLf(s[..Original(s, k)]) == ReplaceCrLf(s)[..k]
    ensures ReplaceCrLf(s[Original(s, k)..]) == ReplaceCrLf(s)[k..]
  {
    OriginalSuffix(s, k);
    OriginalPrefix(s, k);
  }

  lemma {:induction false} OriginalSuffix(s: string, k: nat)
    requires k <= |ReplaceCrLf(s)|
    ensures Original(s, k) <= |s| && ReplaceCrLf(s[Original(s, k)..]) == ReplaceCrLf(s)[k..]
  {
    if k == 0 {
      assert s[0..] == s;
    } else {
      var n := if AtCrLf(s) then 2 else 1;
      OriginalStep(s, k, n);
      hide ReplaceCrLf, Original, AtCrLf;
      OriginalSuffix(s[n..], k - 1);
      var p := Original(s[n..], k - 1);
      assert s[n..][p..] == s[n + p..];
      assert ReplaceCrLf(s)[1..][k - 1..] == ReplaceCrLf(s)[k..];
    }
  }

  /** The first character of the normalised text stands for one of the original, or for `\r\n`. */
  lemma {:induction false} OriginalStep(s: string, k: nat, n: nat)
    requires 1 <= k <= |ReplaceCrLf(s)| && n == if AtCrLf(s) then 2 else 1
    ensures n <= |s| && Original(s, k) == n + Original(s[n..], k - 1)
    ensures ReplaceCrLf(s)[1..] == ReplaceCrLf(s[n..])
  {
  }

  lemma {:induction false} OriginalPrefix(s: string, k: nat)
    requires k <= |ReplaceCrLf(s)| && Original(s, k) <= |s|
    ensures ReplaceCrLf(s[..Original(s, k)]) == ReplaceCrLf(s)[..k]
  {
    if k > 0 && AtCrLf(s) {
      OriginalPrefix(s[2..], k - 1);
      assert s[..Original(s, k)][2..] == s[2..][..Original(s[2..], k - 1)];
    } else if k > 0 {
      OriginalPrefix(s[1..], k - 1);
      assert s[..Original(s, k)][1..] == s[1..][..Original(s[1..], k - 1)];
    }
  }

  /** Only one place of the original cuts the normalised text at `k`: between `\r` and `\n` there is none. */
  lemma {:induction false} OnlyOriginalCuts(s: string, p: nat, k: nat)
    requires p <= |s| && |ReplaceCrLf(s[..p])| == k && |ReplaceCrLf(s[p..])| == |ReplaceCrLf(s)| - k
    ensures p == Original(s, k)
  {
    if p == 0 {
    } else if AtCrLf(s) {
      assert s[1..][1..] == s[2..];
      if p > 1 {
        assert s[..p][2..] == s[2..][..p - 2] && s[p..] == s[2..][p - 2..];
        OnlyOriginalCuts(s[2..], p - 2, k - 1);
      }
    } else {
      assert s[..p][1..] == s[1..][..p - 1] && s[p..] == s[1..][p - 1..];
      OnlyOriginalCuts(s[1..], p - 1, k - 1);
    }
  }

  lemma {:induction false} CutExactly(s: string, p: nat, k: nat)
    requires k <= |NormalizeNewlines(s)|
    ensures CutAt(s, p, k) <==> p == Original(s, k)
  {
    OriginalCuts(s, k);
    if CutAt(s, p, k) {
      OnlyOriginalCuts(s, p, k);
    }
  }

  /** The two offsets agree exactly where no `\r\n` comes before. */
  lemma {:induction false} OffsetsAgree(s: string, k: nat)
    requires k <= |ReplaceCrLf(s)|
    ensures k <= Original(s, k) <= |s|
    ensures Original(s, k) == k <==> !HasCrLf(s[..Original(s, k)])
  {
    var p := Original(s, k);
    OriginalCuts(s, k);
    if k > 0 {
      if AtCrLf(s) {
        OffsetsAgree(s[2..], k - 1);
        assert AtCrLf(s[..p][0..]);
      } else {
        OffsetsAgree(s[1..], k - 1);
        CrLfBehind(s[..p]);
        assert s[..p][1..] == s[1..][..p - 1];
      }
    }
  }

  lemma {:induction false} CrLfBehind(s: string)
    requires s != "" && !AtCrLf(s)
    ensures HasCrLf(s) <==> HasCrLf(s[1..])
  {
    if HasCrLf(s) {
      var j :| 0 <= j < |s| && AtCrLf(s[j..]);
      assert j > 0 && s[1..][j - 1..] == s[j..] by {
        assert s[0..] == s;
      }
    }
    if HasCrLf(s[1..]) {
      var j :| 0 <= j < |s| - 1 && AtCrLf(s[1..][j..]);
      assert s[1..][j..] == s[j + 1..];
    }
  }

  /** Where lines `i` to `i + n` of the normalised text end, without the last one's newline. */
  function LinesEnd(lines: seq<string>, i: nat, n: nat): nat
    requires i + n <= |lines|
  {
    LineStart(lines, i) + |Join(lines[i..i + n], '\n')|
  }

  lemma {:induction false} JoinPrefix(lines: seq<string>, n: nat)
    requires 1 <= n <= |lines|
    ensures |Join(lines[..n], '\n')| <= |Join(lines, '\n')|
    ensures Join(lines, '\n')[..|Join(lines[..n], '\n')|] == Join(lines[..n], '\n')
  {
    if n == 1 {
      assert lines[..1] == [lines[0]];
    } else {
      JoinPrefix(lines[1..], n - 1);
      assert lines[..n][1..] == lines[1..][..n - 1] && lines[..n][0] == lines[0];
    }
  }

  /** The lines stand in the normalised text between their start and their end. */
  lemma {:induction false} LinesStand(content: string, i: nat, n: nat)
    requires 1 <= n && i + n <= |ContentLines(content)|
    ensures var lines, normal := ContentLines(content), NormalizeNewlines(content);
            LineStart(lines, i) <= LinesEnd(lines, i, n) <= |normal|
            && normal[LineStart(lines, i)..LinesEnd(lines, i, n)] == Join(lines[i..i + n], '\n')
  {
    hide LineStart, NormalizeNewlines, Split;
    LinesInText(NormalizeNewlines(content), i, n);
  }

  lemma {:induction false} LinesInText(text: string, i: nat, n: nat)
    requires 1 <= n && i + n <= |Split(text, '\n')|
    ensures var lines := Split(text, '\n');
            var at, length := LineStart(lines, i), |Join(lines[i..i + n], '\n')|;
            at + length <= |text| && text[at..at + length] == Join(lines[i..i + n], '\n')
  {
    hide *;
    var lines := Split(text, '\n');
    var at := LineStart(lines, i);
    LineStartIsOffset(text, i);
    JoinSplit(text[at..], '\n');
    JoinPrefix(lines[i..], n);
    assert lines[i..][..n] == lines[i..i + n];
    assert text[at..][..|Join(lines[i..i + n], '\n')|] == text[at..at + |Join(lines[i..i + n], '\n')|];
  }

  lemma {:induction false} LineStartAfter(lines: seq<string>, i: nat, n: nat)
    requires 1 <= n && i + n <= |lines|
    ensures LineStart(lines, i + n) == LinesEnd(lines, i, n) + 1
  {
    if n == 1 {
      assert lines[i..i + 1] == [lines[i]];
    } else {
      LineStartAfter(lines, i, n - 1);
      JoinLast(lines[i..i + n]);
      assert lines[i..i + n][..n - 1] == lines[i..i + n - 1];
    }
  }

  lemma {:induction false} JoinLast(lines: seq<string>)
    requires |lines| > 1
    ensures |Join(lines, '\n')| == |Join(lines[..|lines| - 1], '\n')| + 1 + |lines[|lines| - 1]|
  {
    var front := lines[..|lines| - 1];
    if |lines| == 2 {
      assert front == [lines[0]] && lines[1..] == [lines[1]];
    } else {
      JoinLast(lines[1..]);
      assert front[1..] == lines[1..][..|lines| - 2];
    }
  }

  /** These lines stand in the text from `start` to `end`, where a line begins and where one ends. */
  predicate StandAt(text: string, lines: seq<string>, start: nat, end: nat) {
    && start <= end <= |text| && text[start..end] == Join(lines, '\n')
    && (start == 0 || text[start - 1] == '\n') && (end == |text| || text[end] == '\n')
  }

  /** The lines begin where a line of the text begins and end where one ends. */
  lemma {:induction false} LinesBounds(text: string, i: nat, n: nat)
    requires 1 <= n && i + n <= |Split(text, '\n')|
    ensures var lines := Split(text, '\n');
            StandAt(text, lines[i..i + n], LineStart(lines, i), LinesEnd(lines, i, n))
  {
    hide LineStart, Split, Join;
    LinesInText(text, i, n);
    LineStartIsOffset(text, i);
    LinesEndLine(text, i, n);
  }

  lemma {:induction false} LinesEndLine(text: string, i: nat, n: nat)
    requires 1 <= n && i + n <= |Split(text, '\n')|
    ensures var end := LinesEnd(Split(text, '\n'), i, n);
            end == |text| || (end < |text| && text[end] == '\n')
  {
    hide LineStart, Split, Join, LinesEnd;
    var lines := Split(text, '\n');
    if i + n < |lines| {
      LineStartAfter(lines, i, n);
      LineStartIsOffset(text, i + n);
    } else {
      LastLines(text, i);
    }
  }

  lemma {:induction false} LastLines(text: string, i: nat)
    requires i < |Split(text, '\n')|
    ensures LinesEnd(Split(text, '\n'), i, |Split(text, '\n')| - i) == |text|
  {
    var lines := Split(text, '\n');
    LineStartIsOffset(text, i);
    JoinSplit(text[LineStart(lines, i)..], '\n');
    hide LineStart, Split, Join;
    assert lines[i..i + (|lines| - i)] == lines[i..];
  }

  lemma {:induction false} PlainNormal(s: string)
    requires '\r' !in s
    ensures ReplaceCrLf(s) == s && NormalizeNewlines(s) == s
  {
    PlainReplace(s);
  }

  lemma {:induction false} PlainReplace(s: string)
    requires '\r' !in s
    ensures ReplaceCrLf(s) == s
  {
    if s != "" {
      PlainReplace(s[1..]);
    }
  }

  /** The offset found by lines is the place of the first matching line in the content if and only if no `\r\n` comes
      before that line. */
  lemma {:induction false} PositionIsLineExactly(content: string, oldText: string, i: nat)
    requires Find(content, oldText, 0) == -1 && TargetLines(oldText) != []
    requires FirstMatch(ContentLines(content), TargetLines(oldText), i)
    ensures var start := LineStart(ContentLines(content), i);
            && Position(content, oldText) == start && Original(content, start) <= |content|
            && (CutAt(content, start, start) <==> !HasCrLf(content[..Original(content, start)]))
  {
    var lines, n := ContentLines(content), |TargetLines(oldText)|;
    PositionByLines(content, oldText, i);
    LinesStand(content, i, n);
    CutExactly(content, LineStart(lines, i), LineStart(lines, i));
    OffsetsAgree(content, LineStart(lines, i));
  }

  /** What the original has between the places of its lines reads, once normalised, as those lines. */
  lemma {:induction false} OriginalLines(content: string, i: nat, n: nat)
    requires 1 <= n && i + n <= |ContentLines(content)|
    ensures var lines := ContentLines(content);
            var start, end := Original(content, LineStart(lines, i)), Original(content, LinesEnd(lines, i, n));
            && start <= end <= |content|
            && NormalizeNewlines(content[start..end]) == Join(lines[i..i + n], '\n')
  {
    var lines, normal := ContentLines(content), NormalizeNewlines(content);
    LinesStand(content, i, n);
    var a, b := LineStart(lines, i), LinesEnd(lines, i, n);
    OriginalBetween(content, a, b);
    OriginalCuts(content, b);
    assert ReplaceCr(ReplaceCrLf(content)[a..b]) == normal[a..b];
  }

  lemma {:induction false} OriginalBetween(s: string, a: nat, b: nat)
    requires a <= b <= |ReplaceCrLf(s)|
    ensures Original(s, a) <= Original(s, b) <= |s|
    ensures ReplaceCrLf(s[Original(s, a)..Original(s, b)]) == ReplaceCrLf(s)[a..b]
  {
    hide *;
    var p, q := Original(s, a), Original(s, b);
    OriginalSum(s, a, b);
    OriginalCuts(s, a);
    OriginalCuts(s, b);
    OriginalCuts(s[p..], b - a);
    assert s[p..][..q - p] == s[p..q];
    assert ReplaceCrLf(s)[a..][..b - a] == ReplaceCrLf(s)[a..b];
  }

  lemma {:induction false} OriginalWithin(s: string, k: nat)
    ensures Original(s, k) <= |s|
  {
    if k > 0 && s != "" {
      OriginalWithin(if AtCrLf(s) then s[2..] else s[1..], k - 1);
    }
  }

  lemma {:induction false} OriginalSum(s: string, a: nat, b: nat)
    requires a <= b
    ensures Original(s, a) <= |s| && Original(s, b) == Original(s, a) + Original(s[Original(s, a)..], b - a)
  {
    OriginalWithin(s, a);
    if a == 0 || s == "" {
      assert s[0..] == s;
    } else {
      var skip := if AtCrLf(s) then 2 else 1;
      OriginalWithin(s[skip..], a - 1);
      OriginalSum(s[skip..], a - 1, b - 1);
      assert s[skip..][Original(s[skip..], a - 1)..] == s[Original(s, a)..];
    }
  }

  /** The two popping loops: blank lines off the front, then off the back. */
  method TrimBlankEnds(stripped: seq<string>) returns (target: seq<string>)
    ensures target == TrimBack(TrimFront(stripped))
  {
    target := stripped;
    while target != [] && target[0] == ""
      invariant TrimFront(target) == TrimFront(stripped)
    {
      target := target[1..];
    }
    while target != [] && target[|target| - 1] == ""
      invariant TrimBack(target) == TrimBack(TrimFront(stripped))
    {
      target := target[..|target| - 1];
    }
  }

  /** The nested search loops: the first line at which the target matches, or -1. */
  method SearchLines(lines: seq<string>, target: seq<string>) returns (i: int)
    ensures i == -1 || FirstMatch(lines, target, i)
    ensures i == -1 <==> forall k :: !LinesMatch(lines, target, k)
  {
    i := 0;
    while i < |lines| - |target| + 1
      invariant 0 <= i
      invariant forall k :: 0 <= k < i ==> !LinesMatch(lines, target, k)
    {
      var matched := true;
      for j := 0 to |target|
        invariant matched
        invariant forall k :: 0 <= k < j ==> Strip(lines[i + k]) == target[k]
      {
        if Strip(lines[i + j]) != target[j] {
          matched := false;
          break;
        }
      }
      if matched {
        return;
      }
      i := i + 1;
    }
    i := -1;
  }

  method FuzzyFind(content: string, oldText: string) returns (r: int)
    ensures r == Position(content, oldText)
    ensures Find(content, oldText, 0) == -1 ==>
              var lines, target := ContentLines(content), TargetLines(oldText);
              && (r == -1 <==> target == [] || forall i :: !LinesMatch(lines, target, i))
              && (r != -1 ==> exists i: nat :: i < |lines| && FirstMatch(lines, target, i) && r == LineStart(lines, i))
  {
    r := Find(content, oldText, 0);
    if r != -1 {
      return;
    }
    var lines := ContentLines(content);
    var target := TrimBlankEnds(StripAll(Split(NormalizeNewlines(oldText), '\n')));
    if target == [] {
      return;
    }
    var i := SearchLines(lines, target);
    r := if i == -1 then -1 else LineStart(lines, i);
  }
}
