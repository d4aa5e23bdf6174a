/** `cli/logs.py`: the last lines of a log file, read backwards in blocks. */
module ReadTail {
  import opened Text

  type byte = b: int | 0 <= b < 256

  const NEWLINE: byte := 10
  const BLOCK_SIZE := 4096

  /** The pieces without the empty one that a final newline leaves behind. */
  function DropBlankEnd(pieces: seq<seq<byte>>): seq<seq<byte>> {
    if pieces != [] && pieces[|pieces| - 1] == [] then pieces[..|pieces| - 1] else pieces
  }

  /** `bytes.splitlines()` with `\n` as the only separator. */
  function SplitLines(s: seq<byte>): seq<seq<byte>> {
    DropBlankEnd(Split(s, NEWLINE))
  }

  function LastN<T>(s: seq<T>, n: nat): seq<T> {
    if |s| <= n then s else s[|s| - n..]
  }

  function Terminated(lines: seq<seq<byte>>): seq<seq<byte>> {
    seq(|lines|, i requires 0 <= i < |lines| => lines[i] + [NEWLINE])
  }

  /** `b"".join(reversed(blocks))`. */
  function JoinReversed(blocks: seq<seq<byte>>): seq<byte> {
    if blocks == [] then []
    else blocks[|blocks| - 1] + JoinReversed(blocks[..|blocks| - 1])
  }

  /** The last `n` lines can be read off the last `n + 1` pieces. */
  lemma {:induction false} LastLines(pieces: seq<seq<byte>>, n: nat)
    requires n + 1 <= |pieces|
    ensures var s := pieces[|pieces| - (n + 1)..];
            LastN(DropBlankEnd(pieces), n) == if s[n] == [] then s[..n] else s[1..]
  {
    var from := |pieces| - (n + 1);
    var s := pieces[from..];
    assert pieces[|pieces| - 1] == s[n];
    if s[n] == [] {
      assert LastN(pieces[..|pieces| - 1], n) == pieces[from..|pieces| - 1];
      assert s[..n] == pieces[from..|pieces| - 1];
    } else {
      assert s[1..] == pieces[from + 1..];
    }
  }

  /** A suffix holding more than `n` newlines has the same last `n` lines as the whole file. */
  lemma {:induction false} SuffixIsEnough(a: seq<byte>, b: seq<byte>, n: nat)
    requires Count(b, NEWLINE) > n
    ensures LastN(SplitLines(a + b), n) == LastN(SplitLines(b), n)
  {
    var p: seq<seq<byte>>, q: seq<seq<byte>> := Split(a, NEWLINE), Split(b, NEWLINE);
    SplitCount(b, NEWLINE);
    SameEnd(p, q, n);
    SplitConcat(a, b, NEWLINE);
  }

  lemma {:induction false} SameEnd(p: seq<seq<byte>>, q: seq<seq<byte>>, n: nat)
    requires p != [] && n + 1 < |q|
    ensures LastN(DropBlankEnd(Glue(p, q)), n) == LastN(DropBlankEnd(q), n)
  {
    GlueSuffix(p, q, n + 1);
    LastLines(Glue(p, q), n);
    LastLines(q, n);
  }

  /** Anything but the empty file has a line. */
  lemma {:induction false} SomeLine(data: seq<byte>)
    requires data != []
    ensures SplitLines(data) != []
  {
    hide Split;
    JoinSplit(data, NEWLINE);
  }

  lemma {:induction false} NoLines()
    ensures SplitLines([]) == []
  {
  }

  /** The blocks read so far are the file from `pos` on, and `found` counts its newlines. */
  ghost predicate HasRead(file: seq<byte>, pos: nat, blocks: seq<seq<byte>>, found: nat) {
    pos <= |file| && JoinReversed(blocks) == file[pos..] && found == Count(file[pos..], NEWLINE)
  }

  /** Reading one more block in front of what has been read. */
  lemma {:induction false} BlockInFront(file: seq<byte>, from: nat, pos: nat, blocks: seq<seq<byte>>, found: nat)
    requires from <= pos && HasRead(file, pos, blocks, found)
    ensures HasRead(file, from, blocks + [file[from..pos]], found + Count(file[from..pos], NEWLINE))
  {
    var block := file[from..pos];
    assert file[from..] == block + file[pos..];
    CountConcat(block, file[pos..], NEWLINE);
    assert (blocks + [block])[..|blocks|] == blocks;
  }

  /** What the slice keeps of the lines that were read, once reading has stopped. */
  lemma {:induction false} TailLines(file: seq<byte>, pos: nat, blocks: seq<seq<byte>>, found: nat, n: int)
    requires HasRead(file, pos, blocks, found)
    requires file != [] && (n < 0 ==> pos == |file|) && (n >= 0 ==> pos < |file|)
    requires n >= 0 ==> pos == 0 || found > n
    ensures var allLines := SplitLines(JoinReversed(blocks));
            var kept := Slice(allLines, -n, |allLines|);
            if n >= 1 then kept == LastN(SplitLines(file), n) else kept == [] <==> n < 0
  {
    hide SplitLines;
    if n >= 1 {
      if pos == 0 {
        assert file[0..] == file;
      } else {
        assert file == file[..pos] + file[pos..];
        SuffixIsEnough(file[..pos], file[pos..], n);
      }
    } else if n == 0 {
      SomeLine(file[pos..]);
    } else {
      assert file[pos..] == [];
      NoLines();
    }
  }

  /** Asking for no lines answers with lines: `all_lines[-0:]` keeps everything that was read. */
  method ReadTail(file: seq<byte>, n: int) returns (lines: seq<seq<byte>>)
    ensures n >= 1 ==> lines == Terminated(LastN(SplitLines(file), n))
    ensures n == 0 && file != [] ==> lines != []
    ensures n < 0 || file == [] ==> lines == []
  {
    var size := |file|;
    if size == 0 {
      return [];
    }
    assert HasRead(file, size, [], 0);
    hide SplitLines, LastN, Slice, JoinReversed, HasRead;
    var blocks: seq<seq<byte>> := [];
    var linesFound: nat := 0;
    var pos := size;
    while pos > 0 && linesFound <= n
      invariant 0 <= pos <= size && HasRead(file, pos, blocks, linesFound)
      invariant n < 0 ==> pos == size
      invariant n >= 0 && linesFound > n ==> pos < size
    {
      var readSize := if BLOCK_SIZE < pos then BLOCK_SIZE else pos;
      pos := pos - readSize;
      var block := file[pos..pos + readSize];
      BlockInFront(file, pos, pos + readSize, blocks, linesFound);
      blocks := blocks + [block];
      linesFound := linesFound + Count(block, NEWLINE);
    }
    var data := JoinReversed(blocks);
    var allLines := SplitLines(data);
    TailLines(file, pos, blocks, linesFound, n);
    lines := Terminated(Slice(allLines, -n, |allLines|));
  }
}
