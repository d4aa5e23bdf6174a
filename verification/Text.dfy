/** Lines, substrings and Python slices: the vocabulary shared by the text tools. */
module Text {

  /** The pieces of `s` between separators, as Python's `str.split(sep)`: never empty. */
  function Split<T(==)>(s: seq<T>, sep: T): (lines: seq<seq<T>>)
    ensures |lines| >= 1
  {
    if s == [] then [[]]
    else
      var rest := Split(s[1..], sep);
      if s[0] == sep then [[]] + rest
      else [[s[0]] + rest[0]] + rest[1..]
  }

  /** `sep.join(lines)`. */
  function Join<T>(lines: seq<seq<T>>, sep: T): seq<T> {
    if lines == [] then []
    else if |lines| == 1 then lines[0]
    else lines[0] + [sep] + Join(lines[1..], sep)
  }

  function Count<T(==)>(s: seq<T>, x: T): nat {
    if s == [] then 0 else (if s[0] == x then 1 else 0) + Count(s[1..], x)
  }

  lemma {:induction false} JoinSplit<T>(s: seq<T>, sep: T)
    ensures Join(Split(s, sep), sep) == s
  {
    if s != [] {
      JoinSplit(s[1..], sep);
      var rest := Split(s[1..], sep);
      if s[0] == sep {
        assert Split(s, sep)[1..] == rest;
      } else {
        assert Split(s, sep)[1..] == rest[1..];
        assert rest == [rest[0]] + rest[1..];
      }
    }
  }

  lemma {:induction false} SplitJoin<T>(lines: seq<seq<T>>, sep: T)
    requires lines != []
    requires forall i :: 0 <= i < |lines| ==> sep !in lines[i]
    ensures Split(Join(lines, sep), sep) == lines
    decreases |lines|, |lines[0]|
  {
    var s := Join(lines, sep);
    if lines[0] == [] {
      if |lines| > 1 {
        assert s[1..] == Join(lines[1..], sep);
        SplitJoin(lines[1..], sep);
      }
    } else {
      var shorter := [lines[0][1..]] + lines[1..];
      assert shorter[1..] == lines[1..];
      assert s[1..] == Join(shorter, sep);
      forall i | 0 <= i < |shorter| ensures sep !in shorter[i] {
        assert i > 0 ==> shorter[i] == lines[i];
      }
      SplitJoin(shorter, sep);
      assert lines[0][0] in lines[0];
      assert [s[0]] + shorter[0] == lines[0];
    }
  }

  lemma {:induction false} SplitHasNoSeparator<T>(s: seq<T>, sep: T)
    ensures forall i :: 0 <= i < |Split(s, sep)| ==> sep !in Split(s, sep)[i]
  {
    if s != [] {
      SplitHasNoSeparator(s[1..], sep);
    }
  }

  lemma {:induction false} SplitCount<T>(s: seq<T>, sep: T)
    ensures |Split(s, sep)| == Count(s, sep) + 1
  {
    if s != [] {
      SplitCount(s[1..], sep);
    }
  }

  lemma {:induction false} CountConcat<T>(a: seq<T>, b: seq<T>, x: T)
    ensures Count(a + b, x) == Count(a, x) + Count(b, x)
  {
    if a == [] {
      assert a + b == b;
    } else {
      CountConcat(a[1..], b, x);
      assert (a + b)[1..] == a[1..] + b;
    }
  }

  /** Two lists of pieces with the last of the first and the first of the second run together. */
  function Glue<T>(p: seq<seq<T>>, q: seq<seq<T>>): seq<seq<T>>
    requires p != [] && q != []
  {
    if |p| == 1 then [p[0] + q[0]] + q[1..] else [p[0]] + Glue(p[1..], q)
  }

  /** Splitting a concatenation: only the piece at the seam is shared. */
  lemma {:induction false} SplitConcat<T>(a: seq<T>, b: seq<T>, sep: T)
    ensures Split(a + b, sep) == Glue(Split(a, sep), Split(b, sep))
  {
    if a == [] {
      assert a + b == b;
      var q := Split(b, sep);
      assert [] + q[0] == q[0] && [q[0]] + q[1..] == q;
    } else {
      SplitConcat(a[1..], b, sep);
      assert (a + b)[1..] == a[1..] + b;
      var r, q := Split(a[1..], sep), Split(b, sep);
      if a[0] == sep {
        assert Split(a, sep)[1..] == r;
      } else if |r| == 1 {
        assert [a[0]] + (r[0] + q[0]) == ([a[0]] + r[0]) + q[0];
      } else {
        assert Split(a, sep)[1..] == r[1..];
      }
    }
  }

  /** Gluing leaves everything after the seam as it was. */
  lemma {:induction false} GlueSuffix<T>(p: seq<seq<T>>, q: seq<seq<T>>, k: nat)
    requires p != [] && q != [] && k < |q|
    ensures |Glue(p, q)| == |p| + |q| - 1
    ensures Glue(p, q)[|p| + |q| - 1 - k..] == q[|q| - k..]
  {
    if |p| > 1 {
      GlueSuffix(p[1..], q, k);
    }
  }

  predicate MatchesAt<T(==)>(s: seq<T>, t: seq<T>, i: int) {
    0 <= i && i + |t| <= |s| && s[i..i + |t|] == t
  }

  /** `s.find(t, start)`: the first match at or after `start`, or -1. */
  function Find<T(==)>(s: seq<T>, t: seq<T>, start: nat): (r: int)
    ensures r == -1 || (start <= r && MatchesAt(s, t, r))
    ensures forall i :: start <= i && (r == -1 || i < r) ==> !MatchesAt(s, t, i)
    decreases |s| - start
  {
    if start + |t| > |s| then -1
    else if MatchesAt(s, t, start) then start
    else Find(s, t, start + 1)
  }

  lemma {:induction false} MatchChar<T>(s: seq<T>, t: seq<T>, i: nat, k: nat)
    requires MatchesAt(s, t, i) && k < |t|
    ensures s[i + k] == t[k]
  {
    assert s[i..i + |t|][k] == t[k];
  }

  /** Where a Python slice bound lands in a sequence of length `n`. */
  function Bound(i: int, n: nat): (b: nat)
    ensures b <= n
  {
    if i < 0 then (if i + n < 0 then 0 else i + n)
    else if i > n then n else i
  }

  /** `s[i:j]` with Python's negative and out-of-range bounds. */
  function Slice<T>(s: seq<T>, i: int, j: int): seq<T> {
    var a, b := Bound(i, |s|), Bound(j, |s|);
    if a <= b then s[a..b] else []
  }

  // ---------- Letters ----------

  /** Lower case, of ASCII letters only. */
  function LowerChar(c: char): char {
    if 'A' <= c <= 'Z' then c + 32 as char else c
  }

  function LowerText(s: string): string {
    seq(|s|, i requires 0 <= i < |s| => LowerChar(s[i]))
  }

  // ---------- Sequence algebra ----------

  lemma {:induction false} Assoc<T>(a: seq<T>, b: seq<T>, c: seq<T>)
    ensures (a + b) + c == a + (b + c)
  {
  }

  lemma {:induction false} ConcatParts<T>(a: seq<T>, b: seq<T>, k: nat)
    requires k <= |a|
    ensures (a + b)[..k] == a[..k] && (a + b)[|a|..] == b
  {
  }

  function RemoveAt<T>(s: seq<T>, k: nat): seq<T>
    requires k < |s|
  {
    s[..k] + s[k + 1..]
  }

  lemma {:induction false} RemoveAtIndices<T>(s: seq<T>, k: nat)
    requires k < |s|
    ensures |RemoveAt(s, k)| == |s| - 1
    ensures forall i :: 0 <= i < |s| - 1 ==> RemoveAt(s, k)[i] == s[if i < k then i else i + 1]
  {
  }

  lemma {:induction false} RemoveAtMultiset<T>(s: seq<T>, k: nat)
    requires k < |s|
    ensures multiset(s) == multiset(RemoveAt(s, k)) + multiset{s[k]}
  {
    assert s == s[..k] + [s[k]] + s[k + 1..];
  }

  lemma {:induction false} MultisetCancel<T>(m: multiset<T>, n: multiset<T>, x: T)
    requires m + multiset{x} == n + multiset{x}
    ensures m == n
  {
    assert m == (m + multiset{x}) - multiset{x};
    assert n == (n + multiset{x}) - multiset{x};
  }

  // ---------- Counting ----------

  /** How many rows meet the condition. */
  ghost function Rows<T>(rows: seq<T>, p: T -> bool): nat {
    |set i | 0 <= i < |rows| && p(rows[i])|
  }

  lemma {:induction false} RowsAppend<T>(rows: seq<T>, p: T -> bool)
    requires rows != []
    ensures Rows(rows, p) == Rows(rows[..|rows| - 1], p) + if p(rows[|rows| - 1]) then 1 else 0
  {
    var n := |rows| - 1;
    var all, front := set i | 0 <= i < |rows| && p(rows[i]), set i | 0 <= i < n && p(rows[..n][i]);
    assert all == front + if p(rows[n]) then {n} else {};
  }

  lemma {:induction false} RowsFirst<T>(rows: seq<T>, p: T -> bool)
    requires rows != []
    ensures Rows(rows, p) == Rows(rows[1..], p) + if p(rows[0]) then 1 else 0
  {
    if |rows| == 1 {
      RowsAppend(rows, p);
      assert rows[..0] == rows[1..];
    } else {
      RowsAppend(rows, p);
      RowsAppend(rows[1..], p);
      RowsFirst(rows[..|rows| - 1], p);
      assert rows[..|rows| - 1][1..] == rows[1..][..|rows| - 2];
    }
  }

  lemma {:induction false} NoRows<T>(rows: seq<T>, p: T -> bool)
    ensures Rows(rows, p) == 0 <==> forall i :: 0 <= i < |rows| ==> !p(rows[i])
  {
    var found := set i | 0 <= i < |rows| && p(rows[i]);
    if i :| 0 <= i < |rows| && p(rows[i]) {
      assert i in found;
    } else {
      assert found == {};
    }
  }
}
