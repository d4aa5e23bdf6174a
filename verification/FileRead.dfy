/** `tools/file.py`, `file_read`: a window of a text, and the parameters that ask for what follows it. */
module FileRead {
  import opened Text
  import opened Wrappers

  const DEFAULT_READ_MAX_CHARS := 12_000
  const DEFAULT_LINE_LIMIT := 50

  datatype Params = Params(start: Option<int>, end: Option<int>, offset: Option<int>, limit: Option<int>,
                           maxChars: Option<int>)
  {
    predicate HasLineRange() {
      offset.Some? || limit.Some?
    }

    predicate HasRange() {
      start.Some? || end.Some?
    }

    /** Lines to skip: `offset` counts from 1. */
    function LineOffset(): nat {
      if offset.Or(1) - 1 < 0 then 0 else offset.Or(1) - 1
    }

    function LineLimit(): int {
      limit.Or(DEFAULT_LINE_LIMIT)
    }

    function MaxChars(): nat {
      var n := maxChars.Or(DEFAULT_READ_MAX_CHARS);
      if n < 0 then 0 else n
    }
  }

  datatype Page = Page(text: string, truncated: bool, nextOffset: Option<int>, nextParams: Option<Params>)

  /** The header shown above a partial window of lines: first line, last line, total. */
  type Header = (int, int, int) -> string

  function SelectedLines(text: string, p: Params): seq<string> {
    Slice(Split(text, '\n'), p.LineOffset(), p.LineOffset() + p.LineLimit())
  }

  function NextOffset(text: string, p: Params): Option<int> {
    var readEnd := p.LineOffset() + p.LineLimit();
    if readEnd < |Split(text, '\n')| then Some(readEnd + 1) else None
  }

  /** What stands above the lines of a partial window. */
  function HeaderAbove(text: string, p: Params, header: Header): string {
    var total := |Split(text, '\n')|;
    var readEnd := p.LineOffset() + p.LineLimit();
    if p.LineOffset() > 0 || readEnd < total
    then header(p.LineOffset() + 1, if readEnd < total then readEnd else total, total)
    else ""
  }

  function LineWindow(text: string, p: Params, header: Header): string {
    HeaderAbove(text, p, header) + Join(SelectedLines(text, p), '\n')
  }

  /** The requested window before any clipping. */
  function Window(text: string, p: Params, header: Header): string {
    if p.HasLineRange() then LineWindow(text, p, header)
    else if p.HasRange() then Slice(text, p.start.Or(0), p.end.Or(|text|))
    else text
  }

  /** The parameters handed out when the window is cut. A character range, if any was named, decides them,
      even when a line range decided the window. */
  function Continue(text: string, p: Params, header: Header): Params {
    if p.HasRange() then
      var start := if p.HasLineRange() then 0 else p.start.Or(0);
      var end := if p.HasLineRange() then |text| else p.end.Or(|text|);
      Params(Some(start + p.MaxChars()), Some(end), None, None, Some(p.MaxChars()))
    else if p.HasLineRange() then
      Params(None, None, Some(p.LineOffset() + 1), Some(p.LineLimit()), Some(|LineWindow(text, p, header)|))
    else
      Params(Some(p.MaxChars()), None, None, None, Some(p.MaxChars()))
  }

  /** The page a reader is given. */
  function PageOf(text: string, p: Params, header: Header): Page {
    var window := Window(text, p, header);
    var nextOffset := if p.HasLineRange() then NextOffset(text, p) else None;
    if |window| <= p.MaxChars() then Page(window, false, nextOffset, None)
    else Page(window[..p.MaxChars()], true, nextOffset, Some(Continue(text, p, header)))
  }

  method ReadFile(text: string, p: Params, header: Header) returns (page: Page)
    ensures var window := Window(text, p, header);
            if |window| <= p.MaxChars()
            then page.text == window && !page.truncated && page.nextParams == None
            else page.text == window[..p.MaxChars()] && page.truncated
                 && page.nextParams == Some(Continue(text, p, header))
    ensures page.nextOffset == if p.HasLineRange() then NextOffset(text, p) else None
    ensures page == PageOf(text, p, header)
  {
    hide Split, Join, Slice;
    var start, end := 0, |text|;
    var window := text;
    var nextOffset: Option<int> := None;
    if p.HasLineRange() {
      var lines := Split(text, '\n');
      window := Join(Slice(lines, p.LineOffset(), p.LineOffset() + p.LineLimit()), '\n');
      var readEnd := p.LineOffset() + p.LineLimit();
      var hasMore := readEnd < |lines|;
      if p.LineOffset() > 0 || hasMore {
        window := header(p.LineOffset() + 1, if hasMore then readEnd else |lines|, |lines|) + window;
      }
      if hasMore {
        nextOffset := Some(readEnd + 1);
      }
    } else if p.HasRange() {
      start := p.start.Or(0);
      end := p.end.Or(|text|);
      window := Slice(text, start, end);
    }
    var maxChars := p.MaxChars();
    page := Page(window, false, nextOffset, None);
    if |window| > maxChars {
      var next :=
        if p.HasRange() then
          Params(Some(start + maxChars), Some(end), None, None, Some(maxChars))
        else if p.HasLineRange() then
          Params(None, None, Some(p.LineOffset() + 1), Some(p.LineLimit()), Some(|window|))
        else Params(Some(maxChars), None, None, None, Some(maxChars));
      page := page.(text := window[..maxChars], truncated := true, nextParams := Some(next));
    }
  }

  /** Where a requested bound lies in a text of `n` characters: a negative one counts from the end, and none lies
      outside. */
  predicate IsBound(b: int, requested: int, n: int) {
    && (0 <= requested <= n ==> b == requested) && (requested > n ==> b == n)
    && (-n <= requested < 0 ==> b == n + requested) && (requested < -n ==> b == 0)
  }

  /** A range read shows, character by character, the text from the start that was asked for up to the end, or up to
      `max_chars` characters of it; a read that asks for no range shows it from the beginning. */
  lemma {:induction false} RangeShown(text: string, p: Params, header: Header, a: int, b: int)
    requires !p.HasLineRange()
    requires IsBound(a, if p.start.Some? then p.start.value else 0, |text|)
    requires IsBound(b, if p.end.Some? then p.end.value else |text|, |text|)
    ensures var shown := PageOf(text, p, header).text;
            && |shown| == (if b <= a then 0 else if b - a <= p.MaxChars() then b - a else p.MaxChars())
            && (forall k :: 0 <= k < |shown| ==> shown[k] == text[a + k])
            && (PageOf(text, p, header).truncated <==> b - a > p.MaxChars())
  {
    assert Bound(p.start.Or(0), |text|) == a && Bound(p.end.Or(|text|), |text|) == b;
    assert Window(text, p, header) == if a <= b then text[a..b] else [];
    hide Window, Continue;
  }

  /** A line window selects, line by line, the lines from the offset on, up to where the limit leads. */
  lemma {:induction false} LinesSelected(text: string, p: Params, from: int, b: int)
    requires from == if p.offset.Some? && p.offset.value > 1 then p.offset.value - 1 else 0
    requires IsBound(b, from + (if p.limit.Some? then p.limit.value else 50), |Split(text, '\n')|)
    ensures var lines, selected := Split(text, '\n'), SelectedLines(text, p);
            && |selected| == (if b <= from then 0 else b - from)
            && forall k :: 0 <= k < |selected| ==> selected[k] == lines[from + k]
  {
    hide Split;
  }

  // ---------- Following next_params ----------

  /** A character window that can be paged through: room for at least one character, and a start inside the text. */
  predicate Pageable(text: string, p: Params) {
    !p.HasLineRange() && p.MaxChars() > 0 && p.start.Or(0) >= -|text|
  }

  /** The next page's window is what the current page left unread exactly when the start lies inside the text. */
  lemma {:induction false} ContinueAdvances(text: string, p: Params, header: Header)
    requires !p.HasLineRange() && 0 < p.MaxChars() < |Window(text, p, header)|
    ensures Window(text, Continue(text, p, header), header) == Window(text, p, header)[p.MaxChars()..]
            <==> p.start.Or(0) >= -|text|
    ensures p.start.Or(0) >= -|text| ==> Pageable(text, Continue(text, p, header))
    ensures Continue(text, p, header).MaxChars() == p.MaxChars()
  {
    var w := Window(text, p, header);
    var next := Window(text, Continue(text, p, header), header);
    if p.start.Or(0) < -|text| {
      assert |next| > |w| - p.MaxChars();
    }
  }

  /** The pages a reader collects by following next_params until none is given. */
  ghost function Pages(text: string, p: Params, header: Header): (pages: seq<string>)
    requires Pageable(text, p)
    decreases |Window(text, p, header)|
  {
    var w := Window(text, p, header);
    if |w| <= p.MaxChars() then [w]
    else
      ContinueAdvances(text, p, header);
      [w[..p.MaxChars()]] + Pages(text, Continue(text, p, header), header)
  }

  ghost function Concat(pages: seq<string>): string {
    if pages == [] then "" else pages[0] + Concat(pages[1..])
  }

  /** The pages rebuild the requested window, and none is longer than asked. */
  lemma {:induction false} PagesRebuild(text: string, p: Params, header: Header)
    requires Pageable(text, p)
    ensures Concat(Pages(text, p, header)) == Window(text, p, header)
    ensures forall i :: 0 <= i < |Pages(text, p, header)| ==> |Pages(text, p, header)[i]| <= p.MaxChars()
    decreases |Window(text, p, header)|
  {
    var w := Window(text, p, header);
    if |w| > p.MaxChars() {
      ContinueAdvances(text, p, header);
      var next := Continue(text, p, header);
      PagesRebuild(text, next, header);
      assert Pages(text, p, header)[1..] == Pages(text, next, header);
      assert w == w[..p.MaxChars()] + w[p.MaxChars()..];
    } else {
      assert w + "" == w;
    }
  }

  /** An unranged read starts a chain that rebuilds the whole text. */
  lemma {:induction false} UnrangedPagesRebuildText(text: string, maxChars: Option<int>, header: Header)
    requires maxChars.Or(DEFAULT_READ_MAX_CHARS) > 0
    ensures Pageable(text, Params(None, None, None, None, maxChars))
    ensures Concat(Pages(text, Params(None, None, None, None, maxChars), header)) == text
  {
    PagesRebuild(text, Params(None, None, None, None, maxChars), header);
  }

  /** Without room for a character the chain never moves: every page is empty and asks for the same window again. */
  lemma {:induction false} NoRoomNoProgress(text: string, p: Params, header: Header)
    requires !p.HasLineRange() && p.MaxChars() == 0 && Window(text, p, header) != ""
    ensures Window(text, Continue(text, p, header), header) == Window(text, p, header)
    ensures Continue(text, p, header).MaxChars() == 0
  {
  }

  /** A cut line window is handed back with enough room to be read whole, exactly when no character range
      was named beside the line range; otherwise the reader is sent to characters of the text instead. */
  lemma {:induction false} LineWindowRecovered(text: string, p: Params, header: Header)
    requires p.HasLineRange()
    ensures Continue(text, p, header).HasLineRange() <==> !p.HasRange()
    ensures !p.HasRange() ==>
              && Window(text, Continue(text, p, header), header) == Window(text, p, header)
              && |Window(text, p, header)| <= Continue(text, p, header).MaxChars()
    ensures p.HasRange() ==>
              Window(text, Continue(text, p, header), header) == Slice(text, p.MaxChars(), |text|)
  {
    hide Slice, LineWindow;
    if !p.HasRange() {
      SameLines(text, p, Continue(text, p, header), header);
    }
  }

  lemma {:induction false} SameLines(text: string, p: Params, q: Params, header: Header)
    requires p.LineOffset() == q.LineOffset() && p.LineLimit() == q.LineLimit()
    ensures LineWindow(text, p, header) == LineWindow(text, q, header)
  {
    hide Split, Join, Slice;
  }

  // ---------- Following next_offset ----------

  function LinesFrom(offset: int, limit: int, maxChars: Option<int>): Params {
    Params(None, None, Some(offset), Some(limit), maxChars)
  }

  /** Following next_offset moves on exactly when lines are asked for. */
  lemma {:induction false} NextOffsetAdvances(text: string, offset: int, limit: int, maxChars: Option<int>)
    requires NextOffset(text, LinesFrom(offset, limit, maxChars)).Some?
    ensures var p := LinesFrom(offset, limit, maxChars);
            LinesFrom(NextOffset(text, p).value, limit, maxChars).LineOffset() > p.LineOffset() <==> limit > 0
  {
  }

  /** The windows a reader asks for by following the next_offset of each page until none is given. */
  ghost function LineWindows(text: string, offset: int, limit: int, maxChars: Option<int>, header: Header): seq<Params>
    requires limit > 0
    decreases |Split(text, '\n')| - LinesFrom(offset, limit, maxChars).LineOffset()
  {
    var p := LinesFrom(offset, limit, maxChars);
    [p] + match PageOf(text, p, header).nextOffset
          case None => []
          case Some(next) => LineWindows(text, next, limit, maxChars, header)
  }

  /** The lines of a page: its text without the header, split. */
  function PageLines(text: string, p: Params, header: Header): seq<string> {
    var shown, above := PageOf(text, p, header).text, HeaderAbove(text, p, header);
    Split(if |above| <= |shown| then shown[|above|..] else "", '\n')
  }

  function CollectedLines(text: string, windows: seq<Params>, header: Header): seq<string> {
    if windows == [] then [] else PageLines(text, windows[0], header) + CollectedLines(text, windows[1..], header)
  }

  predicate Unclipped(text: string, windows: seq<Params>, header: Header) {
    forall i :: 0 <= i < |windows| ==> !PageOf(text, windows[i], header).truncated
  }

  /** A page that is not clipped shows exactly the selected lines below its header. */
  lemma {:induction false} PageShowsSelected(text: string, offset: int, limit: int, maxChars: Option<int>,
                                             header: Header)
    requires limit > 0 && LinesFrom(offset, limit, maxChars).LineOffset() < |Split(text, '\n')|
    requires !PageOf(text, LinesFrom(offset, limit, maxChars), header).truncated
    ensures PageLines(text, LinesFrom(offset, limit, maxChars), header) ==
            SelectedLines(text, LinesFrom(offset, limit, maxChars))
  {
    var p := LinesFrom(offset, limit, maxChars);
    var above, body := HeaderAbove(text, p, header), Join(SelectedLines(text, p), '\n');
    assert PageOf(text, p, header).text == above + body;
    assert (above + body)[|above|..] == body;
    SplitHasNoSeparator(text, '\n');
    SplitJoin(SelectedLines(text, p), '\n');
  }

  lemma {:induction false} LineWindowsUnfold(text: string, offset: int, limit: int, maxChars: Option<int>,
                                             header: Header)
    requires limit > 0
    ensures var p, windows := LinesFrom(offset, limit, maxChars), LineWindows(text, offset, limit, maxChars, header);
            && windows != [] && windows[0] == p
            && windows[1..] == match NextOffset(text, p)
                               case None => []
                               case Some(next) => LineWindows(text, next, limit, maxChars, header)
  {
    hide Window, Continue;
  }

  /** Following next_offset through pages that are not clipped collects every line from the offset on exactly once and
      in order. */
  lemma {:induction false} CollectedIsRest(text: string, offset: int, limit: int, maxChars: Option<int>, header: Header)
    requires limit > 0 && LinesFrom(offset, limit, maxChars).LineOffset() < |Split(text, '\n')|
    requires Unclipped(text, LineWindows(text, offset, limit, maxChars, header), header)
    ensures CollectedLines(text, LineWindows(text, offset, limit, maxChars, header), header) ==
            Split(text, '\n')[LinesFrom(offset, limit, maxChars).LineOffset()..]
    decreases |Split(text, '\n')| - LinesFrom(offset, limit, maxChars).LineOffset()
  {
    var p := LinesFrom(offset, limit, maxChars);
    var windows, next := LineWindows(text, offset, limit, maxChars, header), NextOffset(text, p);
    LineWindowsUnfold(text, offset, limit, maxChars, header);
    PageShowsSelected(text, offset, limit, maxChars, header);
    RestUnfolds(text, offset, limit, maxChars);
    CollectedUnfold(text, windows, header);
    if next.Some? {
      UnclippedRest(text, windows, header);
      hide *;
      CollectedIsRest(text, next.value, limit, maxChars, header);
    }
  }

  lemma {:induction false} CollectedUnfold(text: string, windows: seq<Params>, header: Header)
    requires windows != []
    ensures CollectedLines(text, windows, header) ==
            PageLines(text, windows[0], header) + CollectedLines(text, windows[1..], header)
    ensures windows[1..] == [] ==> CollectedLines(text, windows, header) == PageLines(text, windows[0], header)
  {
    hide PageLines;
  }

  lemma {:induction false} UnclippedRest(text: string, windows: seq<Params>, header: Header)
    requires windows != [] && Unclipped(text, windows, header)
    ensures Unclipped(text, windows[1..], header)
  {
    hide PageOf;
  }

  /** What is left from an offset on: the selected lines, and what is left from the next offset on. */
  lemma {:induction false} RestUnfolds(text: string, offset: int, limit: int, maxChars: Option<int>)
    requires limit > 0 && LinesFrom(offset, limit, maxChars).LineOffset() < |Split(text, '\n')|
    ensures var p, lines := LinesFrom(offset, limit, maxChars), Split(text, '\n');
            match NextOffset(text, p)
            case None => lines[p.LineOffset()..] == SelectedLines(text, p)
            case Some(next) =>
              var at := LinesFrom(next, limit, maxChars).LineOffset();
              p.LineOffset() < at < |lines| && lines[p.LineOffset()..] == SelectedLines(text, p) + lines[at..]
  {
    hide Split;
  }

  /** From the first line on, the lines collected from the pages are all the lines, and joining them restores the
      text. */
  lemma {:induction false} LinePagesRestoreText(text: string, limit: int, maxChars: Option<int>, header: Header)
    requires limit > 0 && Unclipped(text, LineWindows(text, 1, limit, maxChars, header), header)
    ensures CollectedLines(text, LineWindows(text, 1, limit, maxChars, header), header) == Split(text, '\n')
    ensures Join(CollectedLines(text, LineWindows(text, 1, limit, maxChars, header), header), '\n') == text
  {
    CollectedIsRest(text, 1, limit, maxChars, header);
    JoinSplit(text, '\n');
  }
}
